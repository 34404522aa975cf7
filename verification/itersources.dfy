/**
  The primitive Iter sources: `ArrayIter` (a cursor over an array),
  `EmptyIter` (always fails) and `Seed1Iter` (an infinite generator).
 */
module IterSources {
  import opened Tries
  import opened IterProtocol

  // ArrayIter

  /** An array-backed Iter; `current` is the cursor (a Java field that starts at 0). */
  datatype ArrayIter<T> = ArrayIter(elements: seq<T>, current: nat)

  const NoElements: Throwable := NoSuchElement("No elements in this Iter!")
  const NoMoreElements: Throwable := NoSuchElement("No more elements in this Iter!")

  function NewArrayIter<T>(elements: seq<T>): (it: ArrayIter<T>)
    ensures it.elements == elements && it.current == 0
  {
    ArrayIter(elements, 0)
  }

  /** The cause an exhausted ArrayIter fails with: an empty array has its own message. */
  function ExhaustedCause<T>(elements: seq<T>): Throwable
  {
    if |elements| == 0 then NoElements else NoMoreElements
  }

  /** `ArrayIter.next`: the element under the cursor, advancing it, or a Failure once past the end. */
  function ArrayNext<T>(it: ArrayIter<T>): (p: Pull<ArrayIter<T>, T>)
    ensures p.result.Success? <==> it.current < |it.elements|
    ensures p.result.Success? ==> p.result.value == it.elements[it.current] && p.next == it.(current := it.current + 1)
    ensures p.result.Failure? ==> p.next == it && p.result.cause == ExhaustedCause(it.elements)
  {
    if |it.elements| == 0 then Pull(Failure(NoElements), it)
    else if it.current >= |it.elements| then Pull(Failure(NoMoreElements), it)
    else Pull(Success(it.elements[it.current]), it.(current := it.current + 1))
  }

  /**
    The k-th pull of an ArrayIter whose cursor starts at `i` yields
    `elements[i + k]` while there is one and fails from then on; the cursor
    ends at `min(i + n, length)`.
   */
  lemma ArrayTrace<T>(a: seq<T>, i: nat, n: nat)
    requires i <= |a|
    ensures forall k :: 0 <= k < n ==>
      Pulls(ArrayNext, ArrayIter(a, i), n).results[k]
        == if i + k < |a| then Success(a[i + k]) else Failure(ExhaustedCause(a))
    ensures Pulls(ArrayNext, ArrayIter(a, i), n).last == ArrayIter(a, if i + n <= |a| then i + n else |a|)
  {
    ArrayResults(a, i, n);
    ArrayLast(a, i, n);
  }

  /** The results half of `ArrayTrace`. */
  lemma {:induction false} ArrayResults<T>(a: seq<T>, i: nat, n: nat)
    requires i <= |a|
    ensures forall k :: 0 <= k < n ==>
      Pulls(ArrayNext, ArrayIter(a, i), n).results[k]
        == if i + k < |a| then Success(a[i + k]) else Failure(ExhaustedCause(a))
    decreases n
  {
    if n > 0 {
      var j := if i < |a| then i + 1 else i;
      ArrayResults(a, j, n - 1);
      var rest := Pulls(ArrayNext, ArrayIter(a, j), n - 1).results;
      assert Pulls(ArrayNext, ArrayIter(a, i), n).results == [ArrayNext(ArrayIter(a, i)).result] + rest;
    }
  }

  /** The final-state half of `ArrayTrace`. */
  lemma {:induction false} ArrayLast<T>(a: seq<T>, i: nat, n: nat)
    requires i <= |a|
    ensures Pulls(ArrayNext, ArrayIter(a, i), n).last == ArrayIter(a, if i + n <= |a| then i + n else |a|)
    decreases n
  {
    if n > 0 {
      ArrayLast(a, if i < |a| then i + 1 else i, n - 1);
    }
  }

  /** An ArrayIter yields the array's elements in order and then fails: the collection round trip. */
  lemma {:induction false} ArrayRoundTrip<T>(a: seq<T>, i: nat)
    requires i <= |a|
    ensures YieldsThen(ArrayNext, ArrayIter(a, i), a[i..], ExhaustedCause(a))
    ensures Collected(ArrayNext, ArrayIter(a, i), |a| - i + 1) == a[i..]
    decreases |a| - i
  {
    if i < |a| {
      ArrayRoundTrip(a, i + 1);
      assert a[i..][1..] == a[i + 1..];
    }
    YieldsThenCollected(ArrayNext, ArrayIter(a, i), a[i..], ExhaustedCause(a));
  }

  /** An empty array fails on the very first call. */
  lemma EmptyArrayFailsFirst<T>()
    ensures ArrayNext(NewArrayIter<T>([])).result == Failure(NoElements)
  {
  }

  /** `new ArrayIter(1, 2, 3)` yields 1, 2, 3 and then no more Successes. */
  lemma {:induction false} ArrayOfThree(n: nat)
    requires n >= 4
    ensures Pulls(ArrayNext, NewArrayIter([1, 2, 3]), n).results[..3] == [Success(1), Success(2), Success(3)]
    ensures forall k :: 3 <= k < n ==> Pulls(ArrayNext, NewArrayIter([1, 2, 3]), n).results[k].Failure?
  {
    ArrayTrace([1, 2, 3], 0, n);
  }

  // EmptyIter

  /** The stateless Iter that never yields. */
  datatype EmptyIter = EmptyIter

  const EmptySequence: Throwable := NoSuchElement("Empty sequence does not have a next element!")

  function EmptyNext<T>(it: EmptyIter): (p: Pull<EmptyIter, T>)
    ensures p.result == Failure(EmptySequence)
  {
    Pull(Failure(EmptySequence), it)
  }

  /** Every call of an EmptyIter, however many, is the same Failure. */
  lemma {:induction false} EmptyTrace<T>(n: nat)
    ensures forall k :: 0 <= k < n ==> Pulls(EmptyNext<T>, EmptyIter, n).results[k] == Failure(EmptySequence)
    decreases n
  {
    if n > 0 {
      EmptyTrace<T>(n - 1);
      assert Pulls(EmptyNext<T>, EmptyIter, n).results == [Failure(EmptySequence)] + Pulls(EmptyNext<T>, EmptyIter, n - 1).results;
    }
  }

  // Seed1Iter

  /** `g` applied `k` times to `x`. */
  function Iterate<T>(g: T -> T, x: T, k: nat): T
    decreases k
  {
    if k == 0 then x else Iterate(g, g(x), k - 1)
  }

  /** An infinite Iter: it yields the seed and replaces it with `generator(seed)`. */
  datatype Seed1Iter<!T> = Seed1Iter(seed: T, generator: T -> T)

  function Seed1Next<T>(it: Seed1Iter<T>): (p: Pull<Seed1Iter<T>, T>)
    ensures p.result == Success(it.seed)
    ensures p.next == it.(seed := it.generator(it.seed))
  {
    Pull(Success(it.seed), Seed1Iter(it.generator(it.seed), it.generator))
  }

  /** The k-th call yields the generator applied k times to the seed; no call ever fails. */
  lemma {:induction false} Seed1Trace<T>(seed: T, g: T -> T, n: nat)
    ensures forall k :: 0 <= k < n ==> Pulls(Seed1Next, Seed1Iter(seed, g), n).results[k] == Success(Iterate(g, seed, k))
    ensures Pulls(Seed1Next, Seed1Iter(seed, g), n).last == Seed1Iter(Iterate(g, seed, n), g)
    decreases n
  {
    if n > 0 {
      Seed1Trace(g(seed), g, n - 1);
      var rest := Pulls(Seed1Next, Seed1Iter(g(seed), g), n - 1).results;
      assert Pulls(Seed1Next, Seed1Iter(seed, g), n).results == [Success(seed)] + rest;
      assert forall k :: 1 <= k < n ==> Pulls(Seed1Next, Seed1Iter(seed, g), n).results[k] == rest[k - 1];
    }
  }
}
