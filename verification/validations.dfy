/**
  `Validation` of `io.github.ajoz.validation`, in its Java and its Kotlin
  form: a Success holding a value or a Failure holding an error, where the
  applicative `ap` accumulates the errors of both sides with the error
  type's semigroup `append` instead of stopping at the first one.

  The semigroup is passed as the function `append`; the Kotlin
  `NonEmptyList` is one such semigroup.
 */
module Validations {
  import Tries
  import opened NonEmptyLists

  datatype Validation<E, A> = Success(value: A) | Failure(error: E)

  /** What the Java accessors throw on the wrong variant (the same message on both). */
  const NoErrorString: Tries.Throwable := Tries.Runtime("No ErrorString in success validation!")

  /** What the Kotlin `value` property throws on a Failure. */
  const NoValueElement: Tries.Throwable := Tries.NoSuchElement("No value element available!")

  /** What the Kotlin `error` property throws on a Success. */
  const NoErrorElement: Tries.Throwable := Tries.NoSuchElement("No error element available!")

  /** The semigroup law `append` must satisfy. */
  ghost predicate Associative<E(!new)>(append: (E, E) -> E)
  {
    forall a: E, b: E, c: E :: append(append(a, b), c) == append(a, append(b, c))
  }

  function IsSuccess<E, A>(v: Validation<E, A>): bool
  {
    v.Success?
  }

  /** `isFailure`, defined (in both languages) as the negation of `isSuccess`. */
  function IsFailure<E, A>(v: Validation<E, A>): (r: bool)
    ensures r <==> !IsSuccess(v)
    ensures r <==> v.Failure?
  {
    !IsSuccess(v)
  }

  /** `map`: the function applied to a Success value; a Failure keeps its error. */
  function Map<E, A, B>(v: Validation<E, A>, f: A -> B): (r: Validation<E, B>)
    ensures r.Success? <==> v.Success?
    ensures v.Success? ==> r.value == f(v.value)
    ensures v.Failure? ==> r.error == v.error
  {
    match v
    case Success(a) => Success(f(a))
    case Failure(e) => Failure(e)
  }

  /** Kotlin `flatMap`: a Success is replaced by the function's own result; a Failure keeps its error. */
  function FlatMap<E, A, B>(v: Validation<E, A>, f: A -> Validation<E, B>): (r: Validation<E, B>)
    ensures v.Success? ==> r == f(v.value)
    ensures v.Failure? ==> r == Failure(v.error)
  {
    match v
    case Success(a) => f(a)
    case Failure(e) => Failure(e)
  }

  /**
    `ap`: applies a validated function to a validated argument. Two
    Failures give the first error appended with the second; one Failure
    gives its error; two Successes give the function applied.
   */
  function Ap<E, A, B>(first: Validation<E, A -> B>, second: Validation<E, A>, append: (E, E) -> E): (r: Validation<E, B>)
    ensures first.Failure? && second.Failure? ==> r == Failure(append(first.error, second.error))
    ensures first.Failure? && second.Success? ==> r == Failure(first.error)
    ensures first.Success? && second.Failure? ==> r == Failure(second.error)
    ensures first.Success? && second.Success? ==> r == Success(first.value(second.value))
  {
    match (first, second)
    case (Failure(e1), Failure(e2)) => Failure(append(e1, e2))
    case (Failure(e1), Success(_)) => Failure(e1)
    case (Success(_), Failure(e2)) => Failure(e2)
    case (Success(f), Success(a)) => Success(f(a))
  }

  /** `constant()`: the curried function that ignores its second argument. */
  function Constant<A, B>(a: A): B -> A
  {
    _ => a
  }

  function Identity<B>(b: B): B
  {
    b
  }

  /**
    `apLeft`: sequences two validations and keeps the left value, via
    `ap(this.map(constant()), other)`. The errors of both sides accumulate.
   */
  function ApLeft<E, A, B>(v: Validation<E, A>, other: Validation<E, B>, append: (E, E) -> E): (r: Validation<E, A>)
    ensures v.Success? && other.Success? ==> r == v
    ensures v.Success? && other.Failure? ==> r == Failure(other.error)
    ensures v.Failure? && other.Success? ==> r == Failure(v.error)
    ensures v.Failure? && other.Failure? ==> r == Failure(append(v.error, other.error))
  {
    Ap(Map(v, Constant<A, B>), other, append)
  }

  /**
    `apRight`: sequences two validations and keeps the right value, via
    `ap(this.map(constant(identity)), other)`. The errors of both sides accumulate.
   */
  function ApRight<E, A, B>(v: Validation<E, A>, other: Validation<E, B>, append: (E, E) -> E): (r: Validation<E, B>)
    ensures v.Success? && other.Success? ==> r == other
    ensures v.Success? && other.Failure? ==> r == other
    ensures v.Failure? && other.Success? ==> r == Failure(v.error)
    ensures v.Failure? && other.Failure? ==> r == Failure(append(v.error, other.error))
  {
    Ap(Map(v, Constant<B -> B, A>(Identity<B>)), other, append)
  }

  /** Java `getValue`: the value of a Success; a Failure throws. */
  function GetValue<E, A>(v: Validation<E, A>): (r: Tries.Outcome<A>)
    ensures r.Returns? <==> v.Success?
    ensures r.Returns? ==> r.value == v.value
    ensures r.Throws? ==> r.exception == NoErrorString
  {
    match v
    case Success(a) => Tries.Returns(a)
    case Failure(_) => Tries.Throws(NoErrorString)
  }

  /** Java `getError`: the error of a Failure; a Success throws. */
  function GetError<E, A>(v: Validation<E, A>): (r: Tries.Outcome<E>)
    ensures r.Returns? <==> v.Failure?
    ensures r.Returns? ==> r.value == v.error
    ensures r.Throws? ==> r.exception == NoErrorString
  {
    match v
    case Success(_) => Tries.Throws(NoErrorString)
    case Failure(e) => Tries.Returns(e)
  }

  /** Kotlin `value`: the value of a Success; a Failure throws. */
  function Value<E, A>(v: Validation<E, A>): (r: Tries.Outcome<A>)
    ensures r.Returns? <==> v.Success?
    ensures r.Returns? ==> r.value == v.value
    ensures r.Throws? ==> r.exception == NoValueElement
  {
    match v
    case Success(a) => Tries.Returns(a)
    case Failure(_) => Tries.Throws(NoValueElement)
  }

  /** Kotlin `error`: the error of a Failure; a Success throws. */
  function Error<E, A>(v: Validation<E, A>): (r: Tries.Outcome<E>)
    ensures r.Returns? <==> v.Failure?
    ensures r.Returns? ==> r.value == v.error
    ensures r.Throws? ==> r.exception == NoErrorElement
  {
    match v
    case Success(_) => Tries.Throws(NoErrorElement)
    case Failure(e) => Tries.Returns(e)
  }

  // Laws relating the operations to each other.

  /** Exactly one of the two accessors of each language returns. */
  lemma AccessorsExclusive<E, A>(v: Validation<E, A>)
    ensures GetValue(v).Returns? != GetError(v).Returns?
    ensures Value(v).Returns? != Error(v).Returns?
    ensures GetValue(v).Returns? == Value(v).Returns?
  {
  }

  /** Mapping is applying a successful function: the applicative `<$>` is `pure f <*>`. */
  lemma MapIsApSuccess<E, A, B>(v: Validation<E, A>, f: A -> B, append: (E, E) -> E)
    ensures Map(v, f) == Ap(Success(f), v, append)
  {
  }

  /** Applicative identity. */
  lemma ApIdentity<E, A>(v: Validation<E, A>, append: (E, E) -> E)
    ensures Ap(Success(Identity<A>), v, append) == v
  {
  }

  /** Applicative homomorphism. */
  lemma ApHomomorphism<E, A, B>(f: A -> B, a: A, append: (E, E) -> E)
    ensures Ap(Success(f), Success(a), append) == Success(f(a))
  {
  }

  /** Applicative interchange. */
  lemma ApInterchange<E, A, B>(u: Validation<E, A -> B>, a: A, append: (E, E) -> E)
    ensures Ap(u, Success(a), append) == Ap(Success((g: A -> B) => g(a)), u, append)
  {
  }

  function Compose<A, B, C>(g: B -> C): (A -> B) -> (A -> C)
  {
    (f: A -> B) => (x: A) => g(f(x))
  }

  /**
    Applicative composition: three validations combine the same way
    whichever pair is combined first, errors accumulating in left-to-right
    order; this needs `append` to be associative.
   */
  lemma ApComposition<E(!new), A, B, C>(u: Validation<E, B -> C>, v: Validation<E, A -> B>, w: Validation<E, A>, append: (E, E) -> E)
    requires Associative(append)
    ensures Ap(Ap(Ap(Success(Compose<A, B, C>), u, append), v, append), w, append)
         == Ap(u, Ap(v, w, append), append)
  {
    if u.Failure? && v.Failure? && w.Failure? {
      assert append(append(u.error, v.error), w.error) == append(u.error, append(v.error, w.error));
    }
  }

  /** `apLeft` and `apRight` fail or succeed together and, on failure, carry the same accumulated error. */
  lemma ApLeftApRightAgreeOnErrors<E, A, B>(v: Validation<E, A>, other: Validation<E, B>, append: (E, E) -> E)
    ensures ApLeft(v, other, append).Failure? <==> ApRight(v, other, append).Failure?
    ensures ApLeft(v, other, append).Failure? ==> ApLeft(v, other, append).error == ApRight(v, other, append).error
  {
  }

  /** With `NonEmptyList` errors, `ap` of two Failures lists the left errors, then the right ones. */
  lemma ApAccumulatesLists<A, B>(first: Validation<NonEmptyList<string>, A -> B>, second: Validation<NonEmptyList<string>, A>)
    requires first.Failure? && second.Failure?
    ensures Ap(first, second, Append).Failure?
    ensures ToList(Ap(first, second, Append).error) == ToList(first.error) + ToList(second.error)
  {
  }

  // The person validation of the test suite: three fields, one error each.

  datatype Person = Person(name: string, email: string, age: int)

  /** An `ErrorMessage` appends with a line break in between. */
  function AppendMessage(a: string, b: string): string
  {
    a + "\n" + b
  }

  const WrongName: string := "Name length not between 1 and 50 characters"
  const WrongEmail: string := "Email does not have @ sign"
  const WrongAge: string := "Age not between 0 and 120"

  function ValidateName(name: string): Validation<string, string>
  {
    if 1 <= |name| <= 50 then Success(name) else Failure(WrongName)
  }

  function ValidateEmail(email: string): Validation<string, string>
  {
    if '@' in email then Success(email) else Failure(WrongEmail)
  }

  function ValidateAge(age: int): Validation<string, int>
  {
    if 0 <= age <= 120 then Success(age) else Failure(WrongAge)
  }

  /** `Person.cons`, curried. */
  function PersonCons(name: string): string -> int -> Person
  {
    email => age => Person(name, email, age)
  }

  /** `ap(ap(validateName(name).map(Person.cons), validateEmail(email)), validateAge(age))`. */
  function ValidatePerson(name: string, email: string, age: int): (r: Validation<string, Person>)
    ensures r.Success? <==> ValidateName(name).Success? && ValidateEmail(email).Success? && ValidateAge(age).Success?
    ensures r.Success? ==> r.value == Person(name, email, age)
  {
    Ap(Ap(Map(ValidateName(name), PersonCons), ValidateEmail(email), AppendMessage), ValidateAge(age), AppendMessage)
  }

  /** All three fields wrong: the three errors, in field order. */
  lemma AllWrongAccumulates()
    ensures ValidatePerson("", "all wrong!", 121) == Failure(AppendMessage(AppendMessage(WrongName, WrongEmail), WrongAge))
  {
    assert '@' !in "all wrong!";
  }

  /** Only one field wrong: exactly that field's error. */
  lemma OneWrongReportsIt()
    ensures ValidatePerson("", "wrong@name.com", 1) == Failure(WrongName)
    ensures ValidatePerson("WrongEmail", "wrongemail.com", 2) == Failure(WrongEmail)
    ensures ValidatePerson("Wrong", "wrong@age.com", 121) == Failure(WrongAge)
  {
    assert "wrongemail.com"[5] == 'e';
    assert '@' !in "wrongemail.com";
    assert "wrong@name.com"[5] == '@';
    assert "wrong@age.com"[5] == '@';
  }

  /** Valid fields build the person. */
  lemma AllRightBuildsPerson()
    ensures ValidatePerson("Foo", "foo@bar.com", 64) == Success(Person("Foo", "foo@bar.com", 64))
  {
    assert "foo@bar.com"[3] == '@';
  }
}
