/**
  The static list utilities of `io.github.ajoz.lists.Lists`: `head`,
  `tail`, the iterative `foldLeft`, and `join`, `mkString` and `flatten`
  built on it. A Java `List` is a Dafny `seq`; a thrown exception is an
  `Outcome`.
 */
module Lists {
  import opened Tries
  import opened SeqOps

  const HeadOfEmpty: Throwable := NoSuchElement("head of empty list")
  const TailOfEmpty: Throwable := UnsupportedOperation("tail of empty list")

  /** `head`: the first element, or a throw on an empty list. */
  function Head<A>(xs: seq<A>): (r: Outcome<A>)
    ensures r.Returns? <==> |xs| > 0
    ensures r.Returns? ==> r.value == xs[0]
    ensures r.Throws? ==> r.exception == HeadOfEmpty
  {
    if |xs| == 0 then Throws(HeadOfEmpty) else Returns(xs[0])
  }

  /** `tail`: everything after the first element (empty for a singleton), or a throw on an empty list. */
  function Tail<A>(xs: seq<A>): (r: Outcome<seq<A>>)
    ensures r.Returns? <==> |xs| > 0
    ensures r.Returns? ==> [xs[0]] + r.value == xs
    ensures |xs| == 1 ==> r == Returns([])
    ensures r.Throws? ==> r.exception == TailOfEmpty
  {
    if |xs| == 0 then Throws(TailOfEmpty)
    else if |xs| == 1 then Returns([])
    else Returns(xs[1..])
  }

  /**
    Left fold, as a reference: the operator applied to the fold of all but
    the last element and the last element, so `op` meets the elements left
    to right and an empty list folds to `initial`.
   */
  function FoldLeft<A, B>(xs: seq<B>, initial: A, op: (A, B) -> A): A
    decreases |xs|
  {
    if xs == [] then initial else op(FoldLeft(xs[..|xs| - 1], initial, op), xs[|xs| - 1])
  }

  /** `foldLeft` as written: an accumulator updated by one loop over the list. */
  method FoldLeftLoop<A, B>(xs: seq<B>, initial: A, op: (A, B) -> A) returns (acc: A)
    ensures acc == FoldLeft(xs, initial, op)
  {
    acc := initial;
    var i := 0;
    while i < |xs|
      invariant 0 <= i <= |xs|
      invariant acc == FoldLeft(xs[..i], initial, op)
    {
      assert xs[..i + 1][..i] == xs[..i];
      acc := op(acc, xs[i]);
      i := i + 1;
    }
    assert xs[..i] == xs;
  }

  /** Folding from the left consumes the first element first. */
  lemma {:induction false} FoldLeftCons<A, B>(xs: seq<B>, initial: A, op: (A, B) -> A)
    requires |xs| > 0
    ensures FoldLeft(xs, initial, op) == FoldLeft(xs[1..], op(initial, xs[0]), op)
    decreases |xs|
  {
    if |xs| > 1 {
      var pre := xs[..|xs| - 1];
      FoldLeftCons(pre, initial, op);
      assert pre[1..] == xs[1..][..|xs| - 2];
    } else {
      assert xs[..0] == [] && xs[1..] == [];
    }
  }

  /** The joining operator of `join`: the text so far, the separator, the next item's text. */
  function JoinStep<A>(separator: string, show: A -> string): (string, A) -> string
  {
    (joined: string, item: A) => joined + separator + show(item)
  }

  /**
    `join`: "" for an empty list; otherwise a fold over the tail starting
    from the head's text. `show` is the elements' `toString`.
   */
  function Join<A>(xs: seq<A>, separator: string, show: A -> string): (r: string)
    ensures xs == [] ==> r == ""
    ensures |xs| == 1 ==> r == show(xs[0])
  {
    if xs == [] then "" else FoldLeft(xs[1..], show(xs[0]), JoinStep(separator, show))
  }

  /** Reference for `join`: the items' texts with the separator strictly between neighbours. */
  function Interleave<A>(xs: seq<A>, separator: string, show: A -> string): string
  {
    if xs == [] then ""
    else if |xs| == 1 then show(xs[0])
    else show(xs[0]) + separator + Interleave(xs[1..], separator, show)
  }

  lemma {:induction false} FoldJoin<A>(ys: seq<A>, acc: string, separator: string, show: A -> string)
    ensures FoldLeft(ys, acc, JoinStep(separator, show))
         == if ys == [] then acc else acc + separator + Interleave(ys, separator, show)
    decreases |ys|
  {
    if ys != [] {
      var acc' := acc + separator + show(ys[0]);
      FoldLeftCons(ys, acc, JoinStep(separator, show));
      FoldJoin(ys[1..], acc', separator, show);
      if |ys| > 1 {
        var rest := Interleave(ys[1..], separator, show);
        assert Interleave(ys, separator, show) == show(ys[0]) + separator + rest;
        assert acc' + separator + rest == acc + separator + (show(ys[0]) + separator + rest);
      }
    }
  }

  /** `join` puts the separator between neighbouring items and nowhere else. */
  lemma JoinIsInterleave<A>(xs: seq<A>, separator: string, show: A -> string)
    ensures Join(xs, separator, show) == Interleave(xs, separator, show)
  {
    if xs != [] {
      FoldJoin(xs[1..], show(xs[0]), separator, show);
    }
  }

  /** `mkString`: "List()" for an empty list, otherwise the items joined with ", " inside "List(" and ")". */
  function MkString<A>(xs: seq<A>, show: A -> string): (r: string)
    ensures xs == [] ==> r == "List()"
  {
    if xs == [] then "List()" else "List(" + Join(xs, ", ", show) + ")"
  }

  /** The empty case of `mkString` is no special case: it is always "List(" + join + ")". */
  lemma MkStringWrapsJoin<A>(xs: seq<A>, show: A -> string)
    ensures MkString(xs, show) == "List(" + Interleave(xs, ", ", show) + ")"
  {
    JoinIsInterleave(xs, ", ", show);
  }

  /** The operator of `flatten`: the flat list so far with the next list added at its end. */
  function AddAll<A>(flat: seq<A>, next: seq<A>): seq<A>
  {
    flat + next
  }

  /** `flatten`: a left fold that adds each inner list to an initially empty one. */
  function Flatten<A>(xss: seq<seq<A>>): seq<A>
  {
    FoldLeft(xss, [], AddAll)
  }

  /** `flatten` is the in-order concatenation of the inner lists. */
  lemma {:induction false} FlattenIsConcatAll<A>(xss: seq<seq<A>>)
    ensures Flatten(xss) == ConcatAll(xss)
    decreases |xss|
  {
    if xss != [] {
      var pre := xss[..|xss| - 1];
      FlattenIsConcatAll(pre);
      assert xss == pre + [xss[|xss| - 1]];
      ConcatAllAppend(pre, [xss[|xss| - 1]]);
      assert ConcatAll([xss[|xss| - 1]]) == xss[|xss| - 1] + ConcatAll([]);
    }
  }
}
