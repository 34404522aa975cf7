/**
  The `Try` result type of `io.github.ajoz.util`: a value that is either a
  `Success` holding a value or a `Failure` holding the `Throwable` that
  caused it, with its combinators.

  Two further types frame the Java calling conventions the rest of the
  model needs:
  - `Nullable<T>` is a Java reference that may be `null`;
  - `Outcome<T>` is what a Java call does: it returns a value or it throws.
 */
module Tries {

  /** The exception classes the modelled code creates, each with its message. */
  datatype Throwable =
    | NoSuchElement(message: string)
    | IllegalArgument(message: string)
    | NullPointer(message: string)
    | UnsupportedOperation(message: string)
    | Runtime(message: string)

  datatype Try<T> = Success(value: T) | Failure(cause: Throwable)

  datatype Nullable<T> = Null | NonNull(ref: T)

  /** A Java call either returns a value or throws an exception. */
  datatype Outcome<T> = Returns(value: T) | Throws(exception: Throwable)

  /** The cause `filter` gives a value its predicate rejects (the formatted value is not modelled). */
  const PredicateRejected: Throwable := IllegalArgument("Value haven't satisfied the predicate")

  /** What `get` throws on a Failure. */
  const NoSuchElementGet: Throwable := Runtime("No such element!")

  /** What `ofNullable` holds for a null reference. */
  const NullValue: Throwable := NullPointer("Tries to create a try from null value ")

  function IsSuccess<T>(t: Try<T>): bool
  {
    t.Success?
  }

  /** `isFailure` is defined once, on top of `isSuccess`. */
  function IsFailure<T>(t: Try<T>): (r: bool)
    ensures r <==> !IsSuccess(t)
    ensures r <==> t.Failure?
  {
    !IsSuccess(t)
  }

  /** `ofNullable`: a Success exactly for a non-null reference. */
  function OfNullable<T>(v: Nullable<T>): (r: Try<T>)
    ensures r.Success? <==> v.NonNull?
    ensures r.Success? ==> r.value == v.ref
    ensures r.Failure? ==> r.cause == NullValue
  {
    match v
    case NonNull(x) => Success(x)
    case Null => Failure(NullValue)
  }

  /** `map`: the function is applied to a Success; a Failure keeps its cause. */
  function Map<T, U>(t: Try<T>, f: T -> U): (r: Try<U>)
    ensures r.Success? <==> t.Success?
    ensures t.Success? ==> r.value == f(t.value)
    ensures t.Failure? ==> r.cause == t.cause
  {
    match t
    case Success(x) => Success(f(x))
    case Failure(e) => Failure(e)
  }

  /** `flatMap`: a Success is replaced by whatever the function yields; a Failure passes through. */
  function FlatMap<T, U>(t: Try<T>, f: T -> Try<U>): (r: Try<U>)
    ensures t.Success? ==> r == f(t.value)
    ensures t.Failure? ==> r == Failure(t.cause)
  {
    match t
    case Success(x) => f(x)
    case Failure(e) => Failure(e)
  }

  /** `filter`: keeps a Success whose value satisfies the predicate, and only that. */
  function Filter<T>(t: Try<T>, p: T -> bool): (r: Try<T>)
    ensures r.Success? <==> t.Success? && p(t.value)
    ensures r.Success? ==> r == t
    ensures t.Failure? ==> r == t
    ensures t.Success? && !p(t.value) ==> r.cause == PredicateRejected
  {
    match t
    case Success(x) => if p(x) then Success(x) else Failure(PredicateRejected)
    case Failure(e) => Failure(e)
  }

  /** `recover`: the result is always a Success; a Success is kept as it is. */
  function Recover<T>(t: Try<T>, recovery: Throwable -> T): (r: Try<T>)
    ensures r.Success?
    ensures t.Success? ==> r == t
    ensures t.Failure? ==> r.value == recovery(t.cause)
  {
    match t
    case Success(x) => Success(x)
    case Failure(e) => Success(recovery(e))
  }

  /** `recoverWith`: the identity on a Success; the recovery's own result on a Failure. */
  function RecoverWith<T>(t: Try<T>, recovery: Throwable -> Try<T>): (r: Try<T>)
    ensures t.Success? ==> r == t
    ensures t.Failure? ==> r == recovery(t.cause)
  {
    match t
    case Success(x) => Success(x)
    case Failure(e) => recovery(e)
  }

  function GetOrElse<T>(t: Try<T>, default: T): T
  {
    match t
    case Success(x) => x
    case Failure(_) => default
  }

  /** `get`: returns the value of a Success and throws on a Failure. */
  function Get<T>(t: Try<T>): (r: Outcome<T>)
    ensures r.Returns? <==> t.Success?
    ensures r.Returns? ==> r.value == t.value
    ensures r.Throws? ==> r.exception == NoSuchElementGet
  {
    match t
    case Success(x) => Returns(x)
    case Failure(_) => Throws(NoSuchElementGet)
  }

  /**
    `ifSuccess`: runs the action once on a Success value and returns the
    receiver unchanged. The action's side effect is modelled as appending
    its result to a log of effects.
   */
  function IfSuccess<T, E>(t: Try<T>, action: T -> E, effects: seq<E>): (r: (Try<T>, seq<E>))
    ensures r.0 == t
    ensures t.Success? ==> r.1 == effects + [action(t.value)]
    ensures t.Failure? ==> r.1 == effects
  {
    match t
    case Success(x) => (t, effects + [action(x)])
    case Failure(_) => (t, effects)
  }

  /** `ifFailure`: runs the action once on a Failure cause and returns the receiver unchanged. */
  function IfFailure<T, E>(t: Try<T>, action: Throwable -> E, effects: seq<E>): (r: (Try<T>, seq<E>))
    ensures r.0 == t
    ensures t.Failure? ==> r.1 == effects + [action(t.cause)]
    ensures t.Success? ==> r.1 == effects
  {
    match t
    case Success(_) => (t, effects)
    case Failure(e) => (t, effects + [action(e)])
  }

  // Laws relating the combinators to each other.

  /** `getOrElse` agrees with `get` wherever `get` returns, and with the default elsewhere. */
  lemma GetOrElseAgreesWithGet<T>(t: Try<T>, default: T)
    ensures Get(t).Returns? ==> GetOrElse(t, default) == Get(t).value
    ensures Get(t).Throws? ==> GetOrElse(t, default) == default
  {
  }

  /** Recovering with a constant and then getting never throws and gives `getOrElse`. */
  lemma RecoverThenGet<T>(t: Try<T>, default: T)
    ensures Get(Recover(t, _ => default)) == Returns(GetOrElse(t, default))
  {
  }

  /** Functor identity. */
  lemma MapIdentity<T>(t: Try<T>)
    ensures Map(t, x => x) == t
  {
  }

  /** Functor composition. */
  lemma MapComposition<T, U, V>(t: Try<T>, f: T -> U, g: U -> V)
    ensures Map(Map(t, f), g) == Map(t, x => g(f(x)))
  {
  }

  /** `map` is `flatMap` followed by `success`. */
  lemma MapIsFlatMapSuccess<T, U>(t: Try<T>, f: T -> U)
    ensures Map(t, f) == FlatMap(t, x => Success(f(x)))
  {
  }

  /** Monad right identity. */
  lemma FlatMapRightIdentity<T>(t: Try<T>)
    ensures FlatMap(t, x => Success(x)) == t
  {
  }

  /** Monad associativity. */
  lemma FlatMapAssociative<T, U, V>(t: Try<T>, f: T -> Try<U>, g: U -> Try<V>)
    ensures FlatMap(FlatMap(t, f), g) == FlatMap(t, x => FlatMap(f(x), g))
  {
  }

  /** Filtering twice by the same predicate is filtering once. */
  lemma FilterIdempotent<T>(t: Try<T>, p: T -> bool)
    ensures Filter(Filter(t, p), p) == Filter(t, p)
  {
  }

  /** `recoverWith` generalises `recover`. */
  lemma RecoverIsRecoverWithSuccess<T>(t: Try<T>, recovery: Throwable -> T)
    ensures Recover(t, recovery) == RecoverWith(t, e => Success(recovery(e)))
  {
  }
}
