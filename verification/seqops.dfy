/**
  Reference definitions over Dafny sequences that several parts of the
  model are specified against: element-wise map, order-preserving filter
  and in-order concatenation of a sequence of sequences.
 */
module SeqOps {

  function MapSeq<T, U>(f: T -> U, xs: seq<T>): (r: seq<U>)
    ensures |r| == |xs|
    ensures forall i :: 0 <= i < |xs| ==> r[i] == f(xs[i])
  {
    seq(|xs|, i requires 0 <= i < |xs| => f(xs[i]))
  }

  lemma MapSeqAppend<T, U>(f: T -> U, a: seq<T>, b: seq<T>)
    ensures MapSeq(f, a + b) == MapSeq(f, a) + MapSeq(f, b)
  {
    assert forall i :: 0 <= i < |a + b| ==> MapSeq(f, a + b)[i] == (MapSeq(f, a) + MapSeq(f, b))[i];
  }

  /** The order-preserving subsequence of the elements that satisfy `p`. */
  function FilterSeq<T>(p: T -> bool, xs: seq<T>): (r: seq<T>)
    ensures |r| <= |xs|
    ensures forall y :: y in r ==> y in xs && p(y)
  {
    if xs == [] then []
    else (if p(xs[0]) then [xs[0]] else []) + FilterSeq(p, xs[1..])
  }

  /** All inner sequences, one after another. */
  function ConcatAll<T>(xss: seq<seq<T>>): seq<T>
  {
    if xss == [] then [] else xss[0] + ConcatAll(xss[1..])
  }

  lemma {:induction false} FilterSeqAppend<T>(p: T -> bool, a: seq<T>, b: seq<T>)
    ensures FilterSeq(p, a + b) == FilterSeq(p, a) + FilterSeq(p, b)
    decreases |a|
  {
    if a == [] {
      assert a + b == b;
    } else {
      assert (a + b)[1..] == a[1..] + b;
      FilterSeqAppend(p, a[1..], b);
    }
  }

  /** Filtering keeps nothing when no element satisfies the predicate. */
  lemma {:induction false} FilterSeqNone<T>(p: T -> bool, xs: seq<T>)
    requires forall i :: 0 <= i < |xs| ==> !p(xs[i])
    ensures FilterSeq(p, xs) == []
    decreases |xs|
  {
    if xs != [] {
      FilterSeqNone(p, xs[1..]);
    }
  }

  lemma {:induction false} ConcatAllAppend<T>(a: seq<seq<T>>, b: seq<seq<T>>)
    ensures ConcatAll(a + b) == ConcatAll(a) + ConcatAll(b)
    decreases |a|
  {
    if a == [] {
      assert a + b == b;
    } else {
      assert (a + b)[1..] == a[1..] + b;
      ConcatAllAppend(a[1..], b);
    }
  }
}
