/**
  The cons-list `io.github.ajoz.sequence.Seq`: `Nil`, or a `Cons` of a head
  and a supplier of the tail. The model keeps the finite sequences as an
  inductive datatype: every tail supplier the class builds is pure, so
  however often a cell's tail is asked for (`concat` asks twice), it
  computes the same tail as a stored one would. The infinite `generate` is
  modelled through its finite prefixes.
 */
module Sequences {
  import opened JavaInt
  import opened Tries
  import opened SeqOps
  import opened IterSources

  datatype Seq<A> = Nil | Cons(head: A, tail: Seq<A>)

  /** What iterating a sequence visits, in order. */
  function Elements<A>(s: Seq<A>): seq<A>
  {
    match s
    case Nil => []
    case Cons(h, t) => [h] + Elements(t)
  }

  /** The exception of `getHead`, `getTail` and the iterator's `next` on `Nil`. */
  const EmptySeqAccess: Throwable := NoSuchElement("")

  /** `getHead`: the head of a `Cons`; `Nil` throws. */
  function GetHead<A>(s: Seq<A>): (r: Outcome<A>)
    ensures r.Returns? <==> |Elements(s)| > 0
    ensures r.Returns? ==> r.value == Elements(s)[0]
    ensures r.Throws? ==> r.exception == EmptySeqAccess
  {
    match s
    case Nil => Throws(EmptySeqAccess)
    case Cons(h, _) => Returns(h)
  }

  /** `getTail`: the tail of a `Cons`; `Nil` throws. */
  function GetTail<A>(s: Seq<A>): (r: Outcome<Seq<A>>)
    ensures r.Returns? <==> |Elements(s)| > 0
    ensures r.Returns? ==> Elements(r.value) == Elements(s)[1..]
    ensures r.Throws? ==> r.exception == EmptySeqAccess
  {
    match s
    case Nil => Throws(EmptySeqAccess)
    case Cons(_, t) => Returns(t)
  }

  /** `of(list)`: a cell per list element, built from `Lists.head` and `Lists.tail`. */
  function Of<A>(xs: seq<A>): (s: Seq<A>)
    ensures Elements(s) == xs
    decreases |xs|
  {
    if |xs| == 0 then Nil else Cons(xs[0], Of(xs[1..]))
  }

  /** A sequence is determined by what it yields: `of` rebuilds it from its elements. */
  lemma {:induction false} OfElements<A>(s: Seq<A>)
    ensures Of(Elements(s)) == s
  {
    match s
    case Nil =>
    case Cons(h, t) =>
      OfElements(t);
      assert Elements(s)[1..] == Elements(t);
  }

  /**
    The iterator of a sequence, driven to the end: `hasNext` is "the current
    cell is not `Nil`", `next` returns the current head and moves to the tail.
   */
  method Drain<A>(s: Seq<A>) returns (visited: seq<A>)
    ensures visited == Elements(s)
  {
    visited := [];
    var current := s;
    while current.Cons?
      invariant visited + Elements(current) == Elements(s)
      decreases current
    {
      var value := GetHead(current);
      var rest := GetTail(current);
      visited := visited + [value.value];
      current := rest.value;
    }
  }

  // take

  /**
    `take(threshold)` as written: an empty sequence stays empty; otherwise the
    head is kept, and the tail is taken with `threshold - 1` unless the
    threshold is already 0, in which case the sequence ends there.
   */
  function Take<A>(s: Seq<A>, threshold: int32): Seq<A>
  {
    match s
    case Nil => Nil
    case Cons(h, t) =>
      if threshold == 0 then Cons(h, Nil) else Cons(h, Take(t, Wrap(threshold - 1)))
  }

  /** Counting a nonzero 32-bit threshold down by one lowers its unsigned reading by one. */
  lemma UnsignedPred(t: int32)
    requires t != 0
    ensures Unsigned(Wrap(t - 1)) + 1 == Unsigned(t)
  {
    if t == MinInt {
      assert Wrap(t - 1) == MaxInt;
    } else if t < 0 {
      assert Unsigned(t) == t + Modulus;
      assert Unsigned(t - 1) == t - 1 + Modulus;
    }
  }

  /**
    `take(t)` keeps the first `t + 1` elements (for a negative `t`, its
    unsigned reading plus one, after the counter wraps round), or all of them
    when the sequence is shorter.
   */
  lemma {:induction false} TakeKeepsOneMore<A>(s: Seq<A>, t: int32)
    ensures Elements(Take(s, t)) == Elements(s)[..Min(|Elements(s)|, Unsigned(t) + 1)]
  {
    match s
    case Nil =>
    case Cons(h, tl) =>
      if t == 0 {
        assert Elements(s)[..1] == [h];
      } else {
        TakeKeepsOneMore(tl, Wrap(t - 1));
        UnsignedPred(t);
        assert Elements(s)[1..] == Elements(tl);
      }
  }

  function Min(a: int, b: int): int
  {
    if a <= b then a else b
  }

  /** `take(0)` of `[1, 2]` yields one element, not none. */
  lemma TakeZeroYieldsOne()
    ensures Elements(Take(Of([1, 2]), 0)) == [1]
  {
  }

  /** `take(n)` with the count that its name promises: the first `n` elements (none for `n <= 0`). */
  function TakeCorrected<A>(s: Seq<A>, n: int32): Seq<A>
  {
    match s
    case Nil => Nil
    case Cons(h, t) => if n <= 0 then Nil else Cons(h, TakeCorrected(t, n - 1))
  }

  /** The corrected `take(n)` keeps exactly the first `min(n, length)` elements. */
  lemma {:induction false} TakeCorrectedKeepsN<A>(s: Seq<A>, n: int32)
    ensures Elements(TakeCorrected(s, n)) == Elements(s)[..Min(|Elements(s)|, if n < 0 then 0 else n)]
  {
    match s
    case Nil =>
    case Cons(h, tl) =>
      if n > 0 {
        TakeCorrectedKeepsN(tl, n - 1);
        assert Elements(s)[1..] == Elements(tl);
      }
  }

  // zip

  /** `zip`: ends as soon as either side is empty; otherwise zips the heads and then the tails. */
  function Zip<A, B, C>(a: Seq<A>, b: Seq<B>, zipper: (A, B) -> C): (r: Seq<C>)
    ensures |Elements(r)| == Min(|Elements(a)|, |Elements(b)|)
    ensures forall i :: 0 <= i < |Elements(r)| ==> Elements(r)[i] == zipper(Elements(a)[i], Elements(b)[i])
  {
    match a
    case Nil => Nil
    case Cons(x, at) =>
      match b
      case Nil => Nil
      case Cons(y, bt) =>
        var r := Cons(zipper(x, y), Zip(at, bt, zipper));
        assert forall i :: 1 <= i < |Elements(r)| ==> Elements(r)[i] == Elements(Zip(at, bt, zipper))[i - 1];
        r
  }

  // generate

  /** The first `n` cells of `generate(seed, generator)`, an infinite sequence. */
  function Generate<A>(seed: A, generator: A -> A, n: nat): (r: Seq<A>)
    ensures |Elements(r)| == n
    ensures n > 0 ==> Elements(r)[0] == seed
    decreases n
  {
    if n == 0 then Nil else Cons(seed, Generate(generator(seed), generator, n - 1))
  }

  /** Element `k` of `generate(seed, g)` is `g` applied `k` times to the seed. */
  lemma {:induction false} GenerateIterates<A>(seed: A, generator: A -> A, n: nat)
    ensures forall k :: 0 <= k < n ==> Elements(Generate(seed, generator, n))[k] == Iterate(generator, seed, k)
    decreases n
  {
    if n > 0 {
      GenerateIterates(generator(seed), generator, n - 1);
    }
  }

  /** Longer prefixes of `generate` extend shorter ones. */
  lemma {:induction false} GeneratePrefixes<A>(seed: A, generator: A -> A, m: nat, n: nat)
    requires m <= n
    ensures Elements(Generate(seed, generator, m)) == Elements(Generate(seed, generator, n))[..m]
  {
    GenerateIterates(seed, generator, m);
    GenerateIterates(seed, generator, n);
  }

  // concat, map, flatMap

  /**
    `concat(seq, other)`: `other` when `seq` is empty; the last cell of `seq`
    gets `other` as its tail; any earlier cell defers the rest of the concat.
   */
  function Concat<A>(s: Seq<A>, other: Seq<A>): (r: Seq<A>)
    ensures Elements(r) == Elements(s) + Elements(other)
  {
    match s
    case Nil => other
    case Cons(h, t) =>
      if t.Nil? then Cons(h, other) else Cons(h, Concat(t, other))
  }

  /** `map`: `Nil` maps to `Nil`; a `Cons` maps its head and, lazily, its tail. */
  function Map<A, B>(s: Seq<A>, f: A -> B): (r: Seq<B>)
    ensures Elements(r) == MapSeq(f, Elements(s))
  {
    match s
    case Nil => Nil
    case Cons(h, t) => Cons(f(h), Map(t, f))
  }

  /** `flatMap`: `Nil` maps to `Nil`; a `Cons` concatenates the head's sequence with the flat-mapped tail. */
  function FlatMap<A, B>(s: Seq<A>, f: A -> Seq<B>): (r: Seq<B>)
    ensures Elements(r) == ConcatAll(MapSeq((x: A) => Elements(f(x)), Elements(s)))
  {
    match s
    case Nil => Nil
    case Cons(h, t) =>
      var r := Concat(f(h), FlatMap(t, f));
      assert MapSeq((x: A) => Elements(f(x)), Elements(s))[1..] == MapSeq((x: A) => Elements(f(x)), Elements(t));
      r
  }

  function Twice(str: string): Seq<string>
  {
    Of([str, str])
  }

  lemma FlatMapExample()
    ensures Elements(FlatMap(Of(["This", "is", "a", "test"]), Twice))
         == ["This", "This", "is", "is", "a", "a", "test", "test"]
  {
    var m := MapSeq((x: string) => Elements(Twice(x)), ["This", "is", "a", "test"]);
    assert m == [["This", "This"], ["is", "is"], ["a", "a"], ["test", "test"]];
    assert ConcatAll(m[3..]) == ["test", "test"] + ConcatAll([]);
  }
}
