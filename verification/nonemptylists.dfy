/**
  `NonEmptyList` of `io.github.ajoz`: an immutable list with at least one
  element, whose `append` makes it a semigroup (the error type that
  `Validation` accumulates into).
 */
module NonEmptyLists {
  import opened SeqOps

  /** A first element and the rest: non-empty by construction. */
  datatype NonEmptyList<A> = NonEmptyList(first: A, rest: seq<A>)

  /** The underlying list. */
  function ToList<A>(l: NonEmptyList<A>): (xs: seq<A>)
    ensures |xs| >= 1
    ensures xs[0] == l.first && xs[1..] == l.rest
  {
    [l.first] + l.rest
  }

  /** The private constructor from a list the class itself knows to be non-empty. */
  function FromList<A>(xs: seq<A>): (l: NonEmptyList<A>)
    requires |xs| >= 1
    ensures ToList(l) == xs
  {
    NonEmptyList(xs[0], xs[1..])
  }

  /** The public constructor: a list of exactly one item. */
  function Of<A>(item: A): (l: NonEmptyList<A>)
    ensures ToList(l) == [item]
  {
    NonEmptyList(item, [])
  }

  /** `append(item)`: a new list with the item at the end; the receiver is a value and stays as it was. */
  function AppendItem<A>(l: NonEmptyList<A>, item: A): (r: NonEmptyList<A>)
    ensures ToList(r) == ToList(l) + [item]
  {
    FromList(ToList(l) + [item])
  }

  /** `append(other)`: the semigroup operation, order-preserving concatenation. */
  function Append<A>(l: NonEmptyList<A>, other: NonEmptyList<A>): (r: NonEmptyList<A>)
    ensures ToList(r) == ToList(l) + ToList(other)
    ensures |ToList(r)| == |ToList(l)| + |ToList(other)|
  {
    FromList(ToList(l) + ToList(other))
  }

  /** `map`: the function applied to every element, in order. */
  function Map<A, B>(l: NonEmptyList<A>, f: A -> B): (r: NonEmptyList<B>)
    ensures ToList(r) == MapSeq(f, ToList(l))
  {
    FromList(MapSeq(f, ToList(l)))
  }

  /** `equals`: two lists are equal when their underlying lists are. */
  predicate Equals<A(==)>(a: NonEmptyList<A>, b: NonEmptyList<A>)
  {
    ToList(a) == ToList(b)
  }

  /** `equals` coincides with equality of the values: it neither confuses nor separates lists. */
  lemma EqualsIsIdentity<A>(a: NonEmptyList<A>, b: NonEmptyList<A>)
    ensures Equals(a, b) <==> a == b
  {
    if Equals(a, b) {
      assert ToList(a)[1..] == ToList(b)[1..];
    }
  }

  /** The private constructor and the underlying list are inverse to each other. */
  lemma FromListRoundTrip<A>(l: NonEmptyList<A>)
    ensures FromList(ToList(l)) == l
  {
  }

  /** `append` is associative, the semigroup law. */
  lemma AppendAssociative<A>(a: NonEmptyList<A>, b: NonEmptyList<A>, c: NonEmptyList<A>)
    ensures Append(Append(a, b), c) == Append(a, Append(b, c))
  {
    assert ToList(Append(Append(a, b), c)) == ToList(Append(a, Append(b, c)));
    FromListRoundTrip(Append(Append(a, b), c));
    FromListRoundTrip(Append(a, Append(b, c)));
  }

  /** Appending an item is appending the one-item list. */
  lemma AppendItemIsAppendOf<A>(l: NonEmptyList<A>, item: A)
    ensures AppendItem(l, item) == Append(l, Of(item))
  {
  }

  /** `map` distributes over `append`. */
  lemma MapAppend<A, B>(a: NonEmptyList<A>, b: NonEmptyList<A>, f: A -> B)
    ensures Map(Append(a, b), f) == Append(Map(a, f), Map(b, f))
  {
    MapSeqAppend(f, ToList(a), ToList(b));
    FromListRoundTrip(Map(Append(a, b), f));
    FromListRoundTrip(Append(Map(a, f), Map(b, f)));
  }
}
