/**
  Consumers of an Iter: `Iters.forEach`, and the bridge `IterIterator` that
  presents an Iter as a `java.util.Iterator` (what `Iters.toIterable` hands
  out).
 */
module IterConsumers {
  import opened Tries
  import opened SeqOps
  import opened IterProtocol
  import opened IterSources
  import opened IterDecorators

  /**
    `Iters.forEach`: pulls until the first Failure, running the action on
    every Success. Its loop has no bound of its own, so the Iter must be
    known to fail within `bound` pulls. `effects` records the action's
    effects in order; `last` is the state the Iter is left in.
   */
  method ForEach<S, T, E>(action: T -> E, iter: S, step: S -> Pull<S, T>, ghost bound: nat)
    returns (effects: seq<E>, last: S)
    requires FailsWithin(step, iter, bound)
    ensures effects == MapSeq(action, Collected(step, iter, bound))
    ensures last == Pulls(step, iter, |Collected(step, iter, bound)| + 1).last
  {
    effects := [];
    var current := iter;
    ghost var seen: seq<T> := [];
    while true
      invariant |seen| <= bound
      invariant current == Pulls(step, iter, |seen|).last
      invariant FailsWithin(step, current, bound - |seen|)
      invariant seen + Collected(step, current, bound - |seen|) == Collected(step, iter, bound)
      invariant effects == MapSeq(action, seen)
      decreases bound - |seen|
    {
      CollectedUnfold(step, current, bound - |seen|);
      var p := step(current);
      var observed := IfSuccess(p.result, action, effects);
      effects := observed.1;
      PullsSnoc(step, iter, |seen|);
      current := p.next;
      if IsFailure(observed.0) {
        return effects, current;
      }
      assert MapSeq(action, seen + [p.result.value]) == MapSeq(action, seen) + [action(p.result.value)];
      seen := seen + [p.result.value];
    }
  }

  /** One pull of an Iter that fails within `fuel` pulls: what it adds to the collected values. */
  lemma CollectedUnfold<S, T>(step: S -> Pull<S, T>, s: S, fuel: nat)
    requires FailsWithin(step, s, fuel)
    ensures fuel > 0
    ensures step(s).result.Failure? ==> Collected(step, s, fuel) == []
    ensures step(s).result.Success? ==> FailsWithin(step, step(s).next, fuel - 1)
    ensures step(s).result.Success?
        ==> Collected(step, s, fuel) == [step(s).result.value] + Collected(step, step(s).next, fuel - 1)
  {
  }

  /** forEach over a finite Iter runs the action on each of its elements, in order, and leaves it just past its end. */
  lemma ForEachOfFinite<S, T, E>(action: T -> E, iter: S, step: S -> Pull<S, T>, xs: seq<T>, e: Throwable)
    requires YieldsThen(step, iter, xs, e)
    ensures FailsWithin(step, iter, |xs| + 1)
    ensures MapSeq(action, Collected(step, iter, |xs| + 1)) == MapSeq(action, xs)
  {
    YieldsThenCollected(step, iter, xs, e);
  }

  /**
    forEach over a FilterIter whose upstream yields `xs` and then fails runs
    the action on exactly the elements of `xs` that satisfy the predicate,
    in order.
   */
  method ForEachFiltered<S, T, E>(action: T -> E, it: FilterIter<S, T>, up: S -> Pull<S, T>, ghost xs: seq<T>, ghost e: Throwable)
    returns (effects: seq<E>)
    requires YieldsThen(up, it.upstream, xs, e)
    ensures effects == MapSeq(action, FilterSeq(it.condition, xs))
  {
    effects := [];
    var current := it;
    ghost var done := 0;
    while true
      invariant done <= |xs|
      invariant current.condition == it.condition
      invariant YieldsThen(up, current.upstream, xs[done..], e)
      invariant effects == MapSeq(action, FilterSeq(it.condition, xs[..done]))
      decreases |xs| - done
    {
      ghost var rest := xs[done..];
      var r, next, pulls := FilterNextFinite(current, up, rest, e);
      var observed := IfSuccess(r, action, effects);
      effects := observed.1;
      if IsFailure(observed.0) {
        FilterRestNone(it.condition, xs, done);
        return effects;
      }
      FilterRestKeep(it.condition, xs, done, pulls, r.value);
      MapSeqAppend(action, FilterSeq(it.condition, xs[..done]), [r.value]);
      assert rest[pulls..] == xs[done + pulls..];
      current := next;
      done := done + pulls;
    }
  }

  /** `FilterIter.next` over an upstream that yields `rest` and then fails, summarised by what it keeps. */
  method FilterNextFinite<S, T>(it: FilterIter<S, T>, up: S -> Pull<S, T>, ghost rest: seq<T>, ghost e: Throwable)
    returns (r: Try<T>, it': FilterIter<S, T>, ghost pulls: nat)
    requires YieldsThen(up, it.upstream, rest, e)
    ensures it'.condition == it.condition
    ensures r.Failure? ==> FilterSeq(it.condition, rest) == []
    ensures r.Success? ==> 1 <= pulls <= |rest| && FilterSeq(it.condition, rest[..pulls]) == [r.value]
    ensures r.Success? ==> YieldsThen(up, it'.upstream, rest[pulls..], e)
  {
    FiniteUpstreamStops(up, it.upstream, it.condition, rest, e);
    r, it', pulls := FilterNext(it, up, |rest| + 1);
    FilteredStep(up, it.upstream, it.condition, rest, e, r, pulls);
  }

  /** When nothing after position `done` is kept, filtering all of `xs` keeps what its prefix keeps. */
  lemma FilterRestNone<T>(p: T -> bool, xs: seq<T>, done: nat)
    requires done <= |xs|
    requires FilterSeq(p, xs[done..]) == []
    ensures FilterSeq(p, xs) == FilterSeq(p, xs[..done])
  {
    assert xs == xs[..done] + xs[done..];
    FilterSeqAppend(p, xs[..done], xs[done..]);
  }

  /** When the next `m` elements keep just `v`, the longer prefix keeps one element more. */
  lemma FilterRestKeep<T>(p: T -> bool, xs: seq<T>, done: nat, m: nat, v: T)
    requires done + m <= |xs|
    requires FilterSeq(p, xs[done..][..m]) == [v]
    ensures FilterSeq(p, xs[..done + m]) == FilterSeq(p, xs[..done]) + [v]
  {
    assert xs[..done + m] == xs[..done] + xs[done..][..m];
    FilterSeqAppend(p, xs[..done], xs[done..][..m]);
  }

  /**
    What one FilterIter pull means for an upstream that yields `rest` and
    then fails: either it returns the next kept element, having consumed
    `pulls` elements of which only the last is kept, or it fails after
    consuming all of `rest`, none of which is kept.
   */
  lemma FilteredStep<S, T>(up: S -> Pull<S, T>, s: S, p: T -> bool, rest: seq<T>, e: Throwable, r: Try<T>, pulls: nat)
    requires YieldsThen(up, s, rest, e)
    requires 1 <= pulls <= |rest| + 1
    requires r == Pulls(up, s, pulls).results[pulls - 1]
    requires r.Failure? || p(r.value)
    requires forall j :: 0 <= j < pulls - 1 ==> Skipped(Pulls(up, s, pulls).results[j], p)
    ensures r.Failure? ==> pulls == |rest| + 1 && FilterSeq(p, rest) == []
    ensures r.Success? ==> pulls <= |rest| && FilterSeq(p, rest[..pulls]) == [r.value]
    ensures r.Success? ==> YieldsThen(up, Pulls(up, s, pulls).last, rest[pulls..], e)
  {
    var k := if pulls <= |rest| then pulls else |rest|;
    YieldsThenPulls(up, s, rest, e, k);
    if pulls == |rest| + 1 {
      PullsSnoc(up, s, |rest|);
      assert forall j :: 0 <= j < |rest| ==> Pulls(up, s, pulls).results[j] == Success(rest[j]);
      FilterSeqNone(p, rest);
    } else {
      assert r == Success(rest[pulls - 1]);
      var skipped := rest[..pulls - 1];
      assert forall j :: 0 <= j < |skipped| ==> !p(skipped[j]);
      FilterSeqNone(p, skipped);
      assert rest[..pulls] == rest[..pulls - 1] + [rest[pulls - 1]];
      FilterSeqAppend(p, rest[..pulls - 1], [rest[pulls - 1]]);
    }
  }

  // IterIterator

  /**
    The `java.util.Iterator` view of an Iter. `next` buffers the last pulled
    result; `shouldCheck` says whether `hasNext` must pull a fresh one.
   */
  datatype IterIterator<S, T> = IterIterator(iter: S, shouldCheck: bool, next: Try<T>)

  /** A fresh bridge: nothing pulled yet, and the buffer holds a Failure. */
  function NewIterIterator<S, T>(iter: S): (b: IterIterator<S, T>)
    ensures b.shouldCheck && b.next.Failure?
  {
    IterIterator(iter, true, Failure(NoMoreElements))
  }

  /** `hasNext`: pulls only if the buffered result has been consumed, and tells whether the buffer holds a Success. */
  function HasNext<S, T>(b: IterIterator<S, T>, step: S -> Pull<S, T>): (r: (bool, IterIterator<S, T>))
    ensures !r.1.shouldCheck
    ensures r.0 <==> r.1.next.Success?
    ensures b.shouldCheck ==> r.1 == IterIterator(step(b.iter).next, false, step(b.iter).result)
    ensures !b.shouldCheck ==> r.1 == b
  {
    if b.shouldCheck then
      var p := step(b.iter);
      (p.result.Success?, IterIterator(p.next, false, p.result))
    else
      (b.next.Success?, b)
  }

  /**
    `next` as written: returns the buffered value and marks it consumed, or
    throws, leaving the bridge unchanged, when the buffer holds a Failure.
    It never pulls from the Iter itself.
   */
  function IterNext<S, T>(b: IterIterator<S, T>): (r: (Outcome<T>, IterIterator<S, T>))
    ensures r.0.Returns? <==> b.next.Success?
    ensures r.0.Returns? ==> r.0.value == b.next.value && r.1 == b.(shouldCheck := true)
    ensures r.0.Throws? ==> r.0.exception == NoSuchElementGet && r.1 == b
  {
    match Get(b.next)
    case Returns(v) => (Returns(v), b.(shouldCheck := true))
    case Throws(e) => (Throws(e), b)
  }

  /** Calling `hasNext` twice pulls once: the second call changes nothing and answers the same. */
  lemma HasNextIdempotent<S, T>(b: IterIterator<S, T>, step: S -> Pull<S, T>)
    ensures HasNext(HasNext(b, step).1, step) == HasNext(b, step)
  {
  }

  /** `next` before any `hasNext` throws, whatever the Iter holds. */
  lemma NextBeforeHasNextThrows<S, T>(iter: S)
    ensures IterNext(NewIterIterator<S, T>(iter)).0 == Throws(NoSuchElementGet)
  {
  }

  /** `next` after `hasNext` answered false throws. */
  lemma NextAfterFalseThrows<S, T>(b: IterIterator<S, T>, step: S -> Pull<S, T>)
    requires !HasNext(b, step).0
    ensures IterNext(HasNext(b, step).1).0 == Throws(NoSuchElementGet)
  {
  }

  /**
    The usual `while (it.hasNext()) use(it.next())` loop over the bridge
    sees exactly the values the Iter yields before its first Failure, and
    `next` never throws inside it.
   */
  method DrainBridge<S, T>(iter: S, step: S -> Pull<S, T>, ghost bound: nat) returns (values: seq<T>)
    requires FailsWithin(step, iter, bound)
    ensures values == Collected(step, iter, bound)
  {
    var b: IterIterator<S, T> := NewIterIterator(iter);
    values := [];
    while true
      invariant |values| < bound
      invariant b.shouldCheck
      invariant FailsWithin(step, b.iter, bound - |values|)
      invariant values + Collected(step, b.iter, bound - |values|) == Collected(step, iter, bound)
      decreases bound - |values|
    {
      var asked := HasNext(b, step);
      if !asked.0 {
        return;
      }
      var taken := IterNext(asked.1);
      assert taken.0.Returns?;
      ghost var fuel := bound - |values|;
      assert Collected(step, b.iter, fuel) == [taken.0.value] + Collected(step, asked.1.iter, fuel - 1);
      assert (values + [taken.0.value]) + Collected(step, asked.1.iter, fuel - 1) == values + Collected(step, b.iter, fuel);
      values := values + [taken.0.value];
      b := taken.1;
    }
  }

  /**
    As written, `next` called twice without `hasNext` in between returns
    the same element twice: over `[1, 2]`, `hasNext`, `next`, `next` gives
    1 and then 1 again, where an Iterator should give 2.
   */
  lemma NextTwiceRepeats()
    ensures var b := HasNext(NewIterIterator<ArrayIter<int>, int>(NewArrayIter([1, 2])), ArrayNext).1;
            IterNext(b).0 == Returns(1) && IterNext(IterNext(b).1).0 == Returns(1)
  {
  }

  /** `next` as the Iterator contract intends it: it pulls first when the buffered result was consumed. */
  function IterNextChecked<S, T>(b: IterIterator<S, T>, step: S -> Pull<S, T>): (r: (Outcome<T>, IterIterator<S, T>))
    ensures b.shouldCheck ==> (r.0.Returns? <==> step(b.iter).result.Success?)
    ensures b.shouldCheck && r.0.Returns? ==> r.0.value == step(b.iter).result.value
    ensures !b.shouldCheck ==> r == IterNext(b)
  {
    IterNext(HasNext(b, step).1)
  }

  /** With the checked `next`, calling only `next` walks the Iter: k calls return its first k elements. */
  method DrainByNext<S, T>(iter: S, step: S -> Pull<S, T>, xs: seq<T>, ghost e: Throwable) returns (values: seq<T>, last: Outcome<T>)
    requires YieldsThen(step, iter, xs, e)
    ensures values == xs
    ensures last == Throws(NoSuchElementGet)
  {
    var b: IterIterator<S, T> := NewIterIterator(iter);
    values := [];
    while |values| < |xs|
      invariant |values| <= |xs|
      invariant values == xs[..|values|]
      invariant b.shouldCheck
      invariant YieldsThen(step, b.iter, xs[|values|..], e)
    {
      var r := IterNextChecked(b, step);
      values := values + [r.0.value];
      b := r.1;
      assert xs[|values| - 1..][1..] == xs[|values|..];
    }
    var r := IterNextChecked(b, step);
    last := r.0;
  }
}
