/**
  The fold-based list library of `Fold5FunctionalLibrary` (`sum`,
  `product`, `count`, `last`, `reverse`, `average`, `contains`,
  `penultimate`, `foldRight`) and the recursive folds of
  `Fold6FunctionalLibrary`. Their `head`, `tail`, `foldLeft`, `join`,
  `mkString` and `flatten` are the ones of `Lists`.

  `Integer` arithmetic is Java's: `+` and `*` wrap around at 32 bits.
 */
module Folds {
  import opened JavaInt
  import opened Tries
  import opened SeqOps
  import opened Lists

  // Reference arithmetic on unbounded integers.

  /** The mathematical sum. */
  function Total(xs: seq<int>): int
  {
    if xs == [] then 0 else xs[0] + Total(xs[1..])
  }

  /** The mathematical product. */
  function TotalProduct(xs: seq<int>): int
  {
    if xs == [] then 1 else xs[0] * TotalProduct(xs[1..])
  }

  lemma {:induction false} TotalSnoc(xs: seq<int>, x: int)
    ensures Total(xs + [x]) == Total(xs) + x
    decreases |xs|
  {
    if xs == [] {
      assert xs + [x] == [x];
    } else {
      TotalSnoc(xs[1..], x);
      assert (xs + [x])[1..] == xs[1..] + [x];
    }
  }

  lemma {:induction false} TotalProductSnoc(xs: seq<int>, x: int)
    ensures TotalProduct(xs + [x]) == TotalProduct(xs) * x
    decreases |xs|
  {
    if xs == [] {
      assert xs + [x] == [x];
    } else {
      TotalProductSnoc(xs[1..], x);
      assert (xs + [x])[1..] == xs[1..] + [x];
    }
  }

  // sum, product, count

  /** `(x, y) -> x + y` on `Integer`s. */
  function AddInt(x: int32, y: int32): int32
  {
    Wrap(x + y)
  }

  /** `(x, y) -> x * y` on `Integer`s. */
  function MulInt(x: int32, y: int32): int32
  {
    Wrap(x * y)
  }

  function Sum(xs: seq<int32>): int32
  {
    FoldLeft(xs, 0, AddInt)
  }

  function Product(xs: seq<int32>): int32
  {
    FoldLeft(xs, 1, MulInt)
  }

  /** `sum` is the mathematical sum wrapped to 32 bits (0 for an empty list). */
  lemma {:induction false} SumWraps(xs: seq<int32>)
    ensures Sum(xs) == Wrap(Total(xs))
    decreases |xs|
  {
    if xs != [] {
      var pre := xs[..|xs| - 1];
      var x := xs[|xs| - 1];
      SumWraps(pre);
      assert xs == pre + [x];
      TotalSnoc(pre, x);
      WrapAdd(Total(pre), x);
    }
  }

  /** `product` is the mathematical product wrapped to 32 bits (1 for an empty list). */
  lemma {:induction false} ProductWraps(xs: seq<int32>)
    ensures Product(xs) == Wrap(TotalProduct(xs))
    decreases |xs|
  {
    if xs != [] {
      var pre := xs[..|xs| - 1];
      var x := xs[|xs| - 1];
      ProductWraps(pre);
      assert xs == pre + [x];
      TotalProductSnoc(pre, x);
      WrapMul(TotalProduct(pre), x);
    }
  }

  function CountStep<A>(count: int32, item: A): int32
  {
    Wrap(count + 1)
  }

  function Count<A>(xs: seq<A>): int32
  {
    FoldLeft(xs, 0, CountStep)
  }

  /** `count` is the length, wrapped to 32 bits; so it is the length for any list Java can hold. */
  lemma {:induction false} CountIsLength<A>(xs: seq<A>)
    ensures Count(xs) == Wrap(|xs|)
    ensures |xs| <= MaxInt ==> Count(xs) == |xs|
    decreases |xs|
  {
    if xs != [] {
      CountIsLength(xs[..|xs| - 1]);
      WrapAdd(|xs| - 1, 1);
    }
  }

  // last, reverse

  /** `(x, y) -> y`. */
  function Second<A>(x: A, y: A): A
  {
    y
  }

  /** `last`: a fold that keeps the latest element, started from `head`, which throws on an empty list. */
  function Last<A>(xs: seq<A>): (r: Outcome<A>)
    ensures r.Returns? <==> |xs| > 0
    ensures r.Returns? ==> r.value == xs[|xs| - 1]
    ensures r.Throws? ==> r.exception == HeadOfEmpty
  {
    match Head(xs)
    case Throws(e) => Throws(e)
    case Returns(h) => Returns(FoldLeft(xs, h, Second))
  }

  /** `prepend`, flipped into the shape of a fold operator. */
  function PrependStep<A>(reversed: seq<A>, item: A): seq<A>
  {
    [item] + reversed
  }

  function Reverse<A>(xs: seq<A>): seq<A>
  {
    FoldLeft(xs, [], PrependStep)
  }

  /** `reverse` keeps the length and puts every element at the mirrored position. */
  lemma {:induction false} ReverseMirrors<A>(xs: seq<A>)
    ensures |Reverse(xs)| == |xs|
    ensures forall i :: 0 <= i < |xs| ==> Reverse(xs)[i] == xs[|xs| - 1 - i]
    decreases |xs|
  {
    if xs != [] {
      ReverseMirrors(xs[..|xs| - 1]);
    }
  }

  /** Reversing moves the first element to the end. */
  lemma ReverseCons<A>(xs: seq<A>)
    requires |xs| > 0
    ensures Reverse(xs) == Reverse(xs[1..]) + [xs[0]]
  {
    ReverseMirrors(xs);
    ReverseMirrors(xs[1..]);
  }

  lemma ReverseExample()
    ensures Reverse([1, 2, 3, 4]) == [4, 3, 2, 1]
  {
    ReverseMirrors([1, 2, 3, 4]);
  }

  // average

  /** `List.size()`: the length, saturated at `Integer.MAX_VALUE`. */
  function Size<A>(xs: seq<A>): (n: int32)
    ensures |xs| <= MaxInt ==> n == |xs|
    ensures xs != [] ==> n > 0
  {
    if |xs| <= MaxInt then |xs| else MaxInt
  }

  /** `average`: 0 for an empty list, otherwise `sum / size` with Java's truncating division. */
  function Average(xs: seq<int32>): int32
  {
    if xs == [] then 0 else TruncDiv(Sum(xs), Size(xs))
  }

  lemma {:induction false} MulLe(n: nat, x: int, y: int)
    requires x <= y
    ensures n * x <= n * y
    decreases n
  {
    if n > 0 {
      MulLe(n - 1, x, y);
      assert n * x == (n - 1) * x + x && n * y == (n - 1) * y + y;
    }
  }

  /** Multiplication by a positive number is cancellable in a strict comparison. */
  lemma MulLtCancel(n: nat, x: int, y: int)
    requires n * x < n * y
    ensures x < y
  {
    if x >= y {
      MulLe(n, y, x);
    }
  }

  /** Truncating division of a value between `n * lo` and `n * hi` by `n` lies between `lo` and `hi`. */
  lemma TruncDivBetween(a: int, n: int, lo: int, hi: int)
    requires n > 0
    requires n * lo <= a <= n * hi
    ensures lo <= TruncDiv(a, n) <= hi
  {
    var q := TruncDiv(a, n);
    assert -n < a - n * q < n;
    assert n * (hi + 1) == n * hi + n;
    MulLtCancel(n, q, hi + 1);
    assert n * (lo - 1) == n * lo - n;
    MulLtCancel(n, lo - 1, q);
  }

  lemma {:induction false} TotalBetween(xs: seq<int>, lo: int, hi: int)
    requires forall i :: 0 <= i < |xs| ==> lo <= xs[i] <= hi
    ensures |xs| * lo <= Total(xs) <= |xs| * hi
    decreases |xs|
  {
    if xs != [] {
      TotalBetween(xs[1..], lo, hi);
      assert |xs| * lo == (|xs| - 1) * lo + lo;
      assert |xs| * hi == (|xs| - 1) * hi + hi;
    }
  }

  /** When the sum does not overflow, the average lies within the range of the elements. */
  lemma AverageWithinRange(xs: seq<int32>, lo: int, hi: int)
    requires 0 < |xs| <= MaxInt
    requires MinInt <= Total(xs) <= MaxInt
    requires forall i :: 0 <= i < |xs| ==> lo <= xs[i] <= hi
    ensures lo <= Average(xs) <= hi
  {
    SumWraps(xs);
    TotalBetween(xs, lo, hi);
    TruncDivBetween(Total(xs), |xs|, lo, hi);
  }

  // contains

  function ContainsStep<A(==)>(searched: A): (bool, A) -> bool
  {
    (found: bool, item: A) => found || item == searched
  }

  /** `contains`: a fold over the whole list that or-s in whether each item equals the searched one. */
  function Contains<A(==)>(xs: seq<A>, searched: A): bool
  {
    FoldLeft(xs, false, ContainsStep(searched))
  }

  /** `contains` is true exactly when the searched item is in the list. */
  lemma {:induction false} ContainsIffIn<A>(xs: seq<A>, searched: A)
    ensures Contains(xs, searched) <==> searched in xs
    decreases |xs|
  {
    if xs != [] {
      var pre := xs[..|xs| - 1];
      ContainsIffIn(pre, searched);
      assert xs == pre + [xs[|xs| - 1]];
    }
  }

  // penultimate

  const ListIsEmpty: Throwable := IllegalArgument("list is empty")
  const ListHasOneElement: Throwable := IllegalArgument("list has only one element")

  /** `(tuple, a) -> Tuple.of(tuple._2, a)`: a window of the last two elements seen. */
  function ShiftPair<A>(pair: (A, A), a: A): (A, A)
  {
    (pair.1, a)
  }

  /**
    `penultimate`: throws for fewer than two elements; otherwise folds the
    whole list through a two-element window that starts as its first two
    elements, and returns the window's first component.
   */
  function Penultimate<A>(xs: seq<A>): (r: Outcome<A>)
    ensures r.Returns? <==> |xs| >= 2
    ensures |xs| == 0 ==> r == Throws(ListIsEmpty)
    ensures |xs| == 1 ==> r == Throws(ListHasOneElement)
  {
    if |xs| == 0 then Throws(ListIsEmpty)
    else if |xs| == 1 then Throws(ListHasOneElement)
    else Returns(FoldLeft(xs, (xs[0], xs[1]), ShiftPair).0)
  }

  /** After the first `k >= 2` elements the window holds elements `k - 2` and `k - 1`. */
  lemma {:induction false} WindowAfter<A>(xs: seq<A>, k: nat)
    requires 2 <= k <= |xs|
    ensures FoldLeft(xs[..k], (xs[0], xs[1]), ShiftPair) == (xs[k - 2], xs[k - 1])
    decreases k
  {
    if k == 2 {
      assert xs[..2][..1] == xs[..1];
      assert xs[..1][..0] == [];
    } else {
      WindowAfter(xs, k - 1);
      assert xs[..k][..k - 1] == xs[..k - 1];
    }
  }

  /** `penultimate` returns the element before the last. */
  lemma PenultimateIsSecondToLast<A>(xs: seq<A>)
    requires |xs| >= 2
    ensures Penultimate(xs) == Returns(xs[|xs| - 2])
  {
    WindowAfter(xs, |xs|);
    assert xs[..|xs|] == xs;
  }

  // foldRight

  function Flip<A, B>(op: (B, A) -> A): (A, B) -> A
  {
    (a: A, b: B) => op(b, a)
  }

  /** Fold5 `foldRight`: `foldLeft` over the reversed list with the operator's arguments swapped. */
  function FoldRight<A, B>(xs: seq<B>, initial: A, op: (B, A) -> A): A
  {
    FoldLeft(Reverse(xs), initial, Flip(op))
  }

  /** Reference right fold: `op(x1, op(x2, ... op(xn, initial)))`. */
  function RightFold<A, B>(xs: seq<B>, initial: A, op: (B, A) -> A): A
  {
    if xs == [] then initial else op(xs[0], RightFold(xs[1..], initial, op))
  }

  /** Fold5 `foldRight` is the right fold. */
  lemma {:induction false} FoldRightIsRightFold<A, B>(xs: seq<B>, initial: A, op: (B, A) -> A)
    ensures FoldRight(xs, initial, op) == RightFold(xs, initial, op)
    decreases |xs|
  {
    if xs == [] {
      ReverseMirrors(xs);
    } else {
      FoldRightIsRightFold(xs[1..], initial, op);
      ReverseCons(xs);
      var r := Reverse(xs);
      assert r[..|r| - 1] == Reverse(xs[1..]);
    }
  }

  function Underscore(a: string, b: string): string
  {
    a + "_" + b
  }

  lemma FoldRightExample()
    ensures FoldRight(["this", "is", "a", "test"], "INITIAL", Underscore) == "this_is_a_test_INITIAL"
  {
    FoldRightIsRightFold(["this", "is", "a", "test"], "INITIAL", Underscore);
  }

  // Fold6: the recursive folds

  /** `foldLeftRecursive`: `initial` for an empty list, else recursion on the tail from `op(initial, head)`. */
  function FoldLeftRecursive<A, B>(xs: seq<A>, initial: B, op: (B, A) -> B): B
  {
    if xs == [] then initial else FoldLeftRecursive(xs[1..], op(initial, xs[0]), op)
  }

  /** `foldRightRecursive`: `initial` for an empty list, else `op(foldRightRecursive(tail), head)`. */
  function FoldRightRecursive<A, B>(xs: seq<A>, initial: B, op: (B, A) -> B): B
  {
    if xs == [] then initial else op(FoldRightRecursive(xs[1..], initial, op), xs[0])
  }

  /** The recursive left fold computes what the iterative one does. */
  lemma {:induction false} FoldLeftRecursiveIsFoldLeft<A, B>(xs: seq<A>, initial: B, op: (B, A) -> B)
    ensures FoldLeftRecursive(xs, initial, op) == FoldLeft(xs, initial, op)
    decreases |xs|
  {
    if xs != [] {
      FoldLeftRecursiveIsFoldLeft(xs[1..], op(initial, xs[0]), op);
      FoldLeftCons(xs, initial, op);
    }
  }

  /** The recursive right fold is the left fold of the reversed list. */
  lemma {:induction false} FoldRightRecursiveIsReversedFoldLeft<A, B>(xs: seq<A>, initial: B, op: (B, A) -> B)
    ensures FoldRightRecursive(xs, initial, op) == FoldLeft(Reverse(xs), initial, op)
    decreases |xs|
  {
    if xs == [] {
      ReverseMirrors(xs);
    } else {
      FoldRightRecursiveIsReversedFoldLeft(xs[1..], initial, op);
      ReverseCons(xs);
      var r := Reverse(xs);
      assert r[..|r| - 1] == Reverse(xs[1..]);
    }
  }

  function SumLeftRecursive(xs: seq<int32>): int32
  {
    FoldLeftRecursive(xs, 0, AddInt)
  }

  function SumRightRecursive(xs: seq<int32>): int32
  {
    FoldRightRecursive(xs, 0, AddInt)
  }

  /** The right-recursive sum is the wrapped mathematical sum too. */
  lemma {:induction false} SumRightWraps(xs: seq<int32>)
    ensures SumRightRecursive(xs) == Wrap(Total(xs))
    decreases |xs|
  {
    if xs != [] {
      SumRightWraps(xs[1..]);
      WrapAdd(Total(xs[1..]), xs[0]);
    }
  }

  /** Both recursive sums agree on every list, and with Fold5's `sum`. */
  lemma SumsAgree(xs: seq<int32>)
    ensures SumLeftRecursive(xs) == SumRightRecursive(xs) == Sum(xs)
  {
    FoldLeftRecursiveIsFoldLeft(xs, 0, AddInt);
    SumWraps(xs);
    SumRightWraps(xs);
  }

  lemma SumExample()
    ensures SumLeftRecursive([1, 3, 5, 7]) == 16 && SumRightRecursive([1, 3, 5, 7]) == 16
  {
  }
}
