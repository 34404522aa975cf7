/**
  The Iter decorators: `MapIter`, `FilterIter`, `FlatMapIter`, `TakeIter`
  and `OnEachIter`. Each wraps the state of one upstream Iter and is
  generic over that state's type `S`; its `next` takes the upstream's step
  function as a parameter.
 */
module IterDecorators {
  import opened JavaInt
  import opened Tries
  import opened SeqOps
  import opened IterProtocol
  import opened IterSources

  // MapIter

  datatype MapIter<S, !T, R> = MapIter(upstream: S, mapper: T -> R)

  /** `MapIter.next`: one upstream pull, its result mapped. */
  function MapNext<S, T, R>(it: MapIter<S, T, R>, up: S -> Pull<S, T>): (p: Pull<MapIter<S, T, R>, R>)
    ensures p.result == Map(up(it.upstream).result, it.mapper)
    ensures p.next == it.(upstream := up(it.upstream).next)
  {
    var q := up(it.upstream);
    Pull(Map(q.result, it.mapper), it.(upstream := q.next))
  }

  function MapStep<S, T, R>(up: S -> Pull<S, T>): MapIter<S, T, R> -> Pull<MapIter<S, T, R>, R>
  {
    it => MapNext(it, up)
  }

  /**
    Over any number of calls, a MapIter's k-th result is the upstream's k-th
    result mapped (a Success maps its value, a Failure keeps its cause), and
    it has pulled exactly as often as it was called.
   */
  lemma {:induction false} MapTrace<S, T, R>(up: S -> Pull<S, T>, s: S, f: T -> R, n: nat)
    ensures forall k :: 0 <= k < n ==>
      Pulls(MapStep(up), MapIter(s, f), n).results[k] == Map(Pulls(up, s, n).results[k], f)
    ensures Pulls(MapStep(up), MapIter(s, f), n).last == MapIter(Pulls(up, s, n).last, f)
    decreases n
  {
    if n > 0 {
      var s' := up(s).next;
      MapTrace(up, s', f, n - 1);
      assert Pulls(up, s, n).results == [up(s).result] + Pulls(up, s', n - 1).results;
      assert Pulls(MapStep(up), MapIter(s, f), n).results
          == [Map(up(s).result, f)] + Pulls(MapStep(up), MapIter(s', f), n - 1).results;
    }
  }

  /** Collected output of a MapIter is `f` mapped over the collected upstream, in order. */
  lemma {:induction false} MapCollected<S, T, R>(up: S -> Pull<S, T>, s: S, f: T -> R, xs: seq<T>, e: Throwable)
    requires YieldsThen(up, s, xs, e)
    ensures YieldsThen(MapStep(up), MapIter(s, f), MapSeq(f, xs), e)
    decreases |xs|
  {
    if xs != [] {
      MapCollected(up, up(s).next, f, xs[1..], e);
      assert MapSeq(f, xs)[1..] == MapSeq(f, xs[1..]);
    }
  }

  // FilterIter

  datatype FilterIter<S, !T> = FilterIter(upstream: S, condition: T -> bool)

  /** An upstream result FilterIter discards: a Success its predicate rejects. */
  predicate Skipped<T>(r: Try<T>, p: T -> bool)
  {
    r.Success? && !p(r.value)
  }

  /** FilterIter's loop ends within `n` upstream pulls: some pull fails or satisfies the predicate. */
  ghost predicate StopsWithin<S, T>(up: S -> Pull<S, T>, s: S, p: T -> bool, n: nat)
    decreases n
  {
    n > 0 && (!Skipped(up(s).result, p) || StopsWithin(up, up(s).next, p, n - 1))
  }

  /**
    `FilterIter.next`: pulls from upstream until a pull fails or yields a
    value satisfying the predicate, and returns that pull's result. The loop
    runs without bound on an upstream that never does either; `bound` is a
    number of pulls within which it is known to stop.
   */
  method FilterNext<S, T>(it: FilterIter<S, T>, up: S -> Pull<S, T>, ghost bound: nat)
    returns (r: Try<T>, it': FilterIter<S, T>, ghost pulls: nat)
    requires StopsWithin(up, it.upstream, it.condition, bound)
    ensures 1 <= pulls <= bound
    ensures r == Pulls(up, it.upstream, pulls).results[pulls - 1]
    ensures r.Failure? || it.condition(r.value)
    ensures forall j :: 0 <= j < pulls - 1 ==> Skipped(Pulls(up, it.upstream, pulls).results[j], it.condition)
    ensures it' == it.(upstream := Pulls(up, it.upstream, pulls).last)
  {
    var current := it.upstream;
    pulls := 0;
    while true
      invariant pulls <= bound
      invariant current == Pulls(up, it.upstream, pulls).last
      invariant StopsWithin(up, current, it.condition, bound - pulls)
      invariant forall j :: 0 <= j < pulls ==> Skipped(Pulls(up, it.upstream, pulls).results[j], it.condition)
      decreases bound - pulls
    {
      var next := up(current);
      PullsSnoc(up, it.upstream, pulls);
      current := next.next;
      pulls := pulls + 1;
      if next.result.Failure? {
        return next.result, it.(upstream := current), pulls;
      }
      var filtered := Filter(next.result, it.condition);
      if filtered.Success? {
        return filtered, it.(upstream := current), pulls;
      }
    }
  }

  /** A finite upstream always lets FilterIter's loop stop, within one pull more than its length. */
  lemma {:induction false} FiniteUpstreamStops<S, T>(up: S -> Pull<S, T>, s: S, p: T -> bool, xs: seq<T>, e: Throwable)
    requires YieldsThen(up, s, xs, e)
    ensures StopsWithin(up, s, p, |xs| + 1)
    decreases |xs|
  {
    if xs != [] && !p(xs[0]) {
      FiniteUpstreamStops(up, up(s).next, p, xs[1..], e);
    }
  }

  // FlatMapIter

  datatype FlatMapIter<S, !T, I> = FlatMapIter(upstream: S, mapper: T -> I)

  /**
    `FlatMapIter.next` as written: one upstream pull, and for a Success `t`
    only the FIRST pull of the Iter `mapper(t)`; that inner Iter is then
    dropped. `inner` is the step function of the mapped-to Iters.
   */
  function FlatMapNext<S, T, I, R>(it: FlatMapIter<S, T, I>, up: S -> Pull<S, T>, inner: I -> Pull<I, R>)
    : (p: Pull<FlatMapIter<S, T, I>, R>)
    ensures p.next == it.(upstream := up(it.upstream).next)
    ensures up(it.upstream).result.Failure? ==> p.result == Failure(up(it.upstream).result.cause)
    ensures up(it.upstream).result.Success?
         ==> p.result == inner(it.mapper(up(it.upstream).result.value)).result
  {
    var q := up(it.upstream);
    Pull(FlatMap(q.result, t => inner(it.mapper(t)).result), it.(upstream := q.next))
  }

  function FlatMapStep<S, T, I, R>(up: S -> Pull<S, T>, inner: I -> Pull<I, R>)
    : FlatMapIter<S, T, I> -> Pull<FlatMapIter<S, T, I>, R>
  {
    it => FlatMapNext(it, up, inner)
  }

  /**
    The k-th call of a FlatMapIter propagates the upstream's k-th Failure
    and otherwise returns the first pull of `mapper(t)` for the upstream's
    k-th value `t`; each call pulls upstream exactly once.
   */
  lemma {:induction false} FlatMapTrace<S, T, I, R>(up: S -> Pull<S, T>, inner: I -> Pull<I, R>, s: S, f: T -> I, n: nat)
    ensures forall k :: 0 <= k < n ==>
      var u := Pulls(up, s, n).results[k];
      Pulls(FlatMapStep(up, inner), FlatMapIter(s, f), n).results[k]
        == if u.Success? then inner(f(u.value)).result else Failure(u.cause)
    ensures Pulls(FlatMapStep(up, inner), FlatMapIter(s, f), n).last == FlatMapIter(Pulls(up, s, n).last, f)
    decreases n
  {
    if n > 0 {
      var s' := up(s).next;
      FlatMapTrace(up, inner, s', f, n - 1);
      assert Pulls(up, s, n).results == [up(s).result] + Pulls(up, s', n - 1).results;
      assert Pulls(FlatMapStep(up, inner), FlatMapIter(s, f), n).results
          == [FlatMapNext(FlatMapIter(s, f), up, inner).result] + Pulls(FlatMapStep(up, inner), FlatMapIter(s', f), n - 1).results;
    }
  }

  /** `["a", "b"]` flat-mapped to `[x, x]` yields "a" and "b" once each, then fails: inner elements are dropped. */
  lemma FlatMapYieldsFirstOnly()
    ensures Pulls(FlatMapStep(ArrayNext<string>, ArrayNext<string>),
                  FlatMapIter(NewArrayIter(["a", "b"]), (x: string) => NewArrayIter([x, x])), 3).results
         == [Success("a"), Success("b"), Failure(NoMoreElements)]
  {
    FlatMapTrace(ArrayNext<string>, ArrayNext<string>, NewArrayIter(["a", "b"]), (x: string) => NewArrayIter([x, x]), 3);
    ArrayTrace(["a", "b"], 0, 3);
  }

  /** An empty inner Iter makes the call fail although upstream has more elements, and a later call succeeds again. */
  lemma FlatMapEmptyInnerFails()
    ensures Pulls(FlatMapStep(ArrayNext<int>, ArrayNext<int>),
                  FlatMapIter(NewArrayIter([1, 2]), (x: int) => NewArrayIter(if x == 1 then [] else [x])), 3).results
         == [Failure(NoElements), Success(2), Failure(NoMoreElements)]
  {
    FlatMapTrace(ArrayNext<int>, ArrayNext<int>, NewArrayIter([1, 2]), (x: int) => NewArrayIter(if x == 1 then [] else [x]), 3);
    ArrayTrace([1, 2], 0, 3);
  }

  // TakeIter

  datatype TakeIter<S> = TakeIter(upstream: S, amount: int32, taken: int32)

  function NewTakeIter<S>(upstream: S, amount: int32): TakeIter<S>
  {
    TakeIter(upstream, amount, 0)
  }

  function LimitReached(amount: int): Throwable
  {
    NoSuchElement("Reached the Iter amount: " + DecimalString(amount))
  }

  /** The counter stays between 0 and the amount (or at 0 when the amount is not positive). */
  predicate TakeValid<S>(it: TakeIter<S>)
  {
    0 <= it.taken && (it.taken <= it.amount || it.taken == 0)
  }

  /**
    `TakeIter.next`: always one upstream pull; an upstream Failure is passed
    on uncounted; a Success is returned and counted while fewer than
    `amount` have been, and replaced by a Failure after that.
   */
  function TakeNext<S, T>(it: TakeIter<S>, up: S -> Pull<S, T>): (p: Pull<TakeIter<S>, T>)
    ensures p.next.upstream == up(it.upstream).next && p.next.amount == it.amount
    ensures up(it.upstream).result.Failure? ==> p.result == up(it.upstream).result && p.next.taken == it.taken
    ensures p.result.Success? <==> up(it.upstream).result.Success? && it.taken < it.amount
    ensures p.result.Success? ==> p.result == up(it.upstream).result && p.next.taken == it.taken + 1
    ensures p.result.Failure? ==> p.next.taken == it.taken
    ensures TakeValid(it) ==> TakeValid(p.next)
  {
    var q := up(it.upstream);
    if q.result.Failure? then Pull(q.result, it.(upstream := q.next))
    else if it.taken >= it.amount then Pull(Failure(LimitReached(it.amount)), it.(upstream := q.next))
    else Pull(q.result, it.(upstream := q.next, taken := it.taken + 1))
  }

  function TakeStep<S, T>(up: S -> Pull<S, T>): TakeIter<S> -> Pull<TakeIter<S>, T>
  {
    it => TakeNext(it, up)
  }

  /** What the counter reads after `c` more upstream Successes, starting from `t0`. */
  function TakenAfter(amount: int, t0: int, c: nat): int
  {
    if t0 >= amount then t0 else if t0 + c <= amount then t0 + c else amount
  }

  /**
    Reference definition of what a TakeIter with counter `t0` makes of the
    upstream results `u`: Failures pass through, Successes pass while the
    counter is below `amount` and become the limit Failure after that.
   */
  function TakeLimit<T>(u: seq<Try<T>>, amount: int, t0: int): (r: seq<Try<T>>)
    ensures |r| == |u|
  {
    if u == [] then []
    else if u[0].Failure? then [u[0]] + TakeLimit(u[1..], amount, t0)
    else if t0 >= amount then [Failure(LimitReached(amount))] + TakeLimit(u[1..], amount, t0)
    else [u[0]] + TakeLimit(u[1..], amount, t0 + 1)
  }

  /**
    The k-th result of `TakeLimit`: the upstream's k-th result, except that
    a Success becomes the limit Failure once `t0` plus the Successes before
    it reach `amount`.
   */
  lemma {:induction false} TakeLimitAt<T>(u: seq<Try<T>>, amount: int, t0: int, k: nat)
    requires k < |u|
    ensures TakeLimit(u, amount, t0)[k]
         == if u[k].Success? && t0 + Successes(u[..k]) >= amount then Failure(LimitReached(amount)) else u[k]
    decreases k
  {
    if k > 0 {
      var t1 := if u[0].Success? && t0 < amount then t0 + 1 else t0;
      TakeLimitAt(u[1..], amount, t1, k - 1);
      assert u[..k][1..] == u[1..][..k - 1];
      assert TakeLimit(u, amount, t0)[k] == TakeLimit(u[1..], amount, t1)[k - 1];
    } else {
      assert u[..0] == [];
    }
  }

  /** The Successes `TakeLimit` lets through are exactly what the counter adds. */
  lemma {:induction false} TakeLimitSuccesses<T>(u: seq<Try<T>>, amount: int, t0: int)
    ensures Successes(TakeLimit(u, amount, t0)) == TakenAfter(amount, t0, Successes(u)) - t0
    decreases |u|
  {
    if u != [] {
      var t1 := if u[0].Success? && t0 < amount then t0 + 1 else t0;
      TakeLimitSuccesses(u[1..], amount, t1);
      assert TakeLimit(u, amount, t0)[1..] == TakeLimit(u[1..], amount, t1);
    }
  }

  /**
    A TakeIter whose counter starts at `t0` returns `TakeLimit` of the
    upstream's results, pulling upstream once per call even past the limit,
    and its counter ends at `TakenAfter` the upstream's Successes.
   */
  lemma {:induction false} TakeTrace<S, T>(up: S -> Pull<S, T>, s: S, amount: int32, t0: int32, n: nat)
    ensures Pulls(TakeStep(up), TakeIter(s, amount, t0), n).results == TakeLimit(Pulls(up, s, n).results, amount, t0)
    ensures Pulls(TakeStep(up), TakeIter(s, amount, t0), n).last
         == TakeIter(Pulls(up, s, n).last, amount, TakenAfter(amount, t0, Successes(Pulls(up, s, n).results)))
  {
    TakeResults(up, s, amount, t0, n);
    TakeLast(up, s, amount, t0, n);
  }

  /** The results half of `TakeTrace`. */
  lemma {:induction false} TakeResults<S, T>(up: S -> Pull<S, T>, s: S, amount: int32, t0: int32, n: nat)
    ensures Pulls(TakeStep(up), TakeIter(s, amount, t0), n).results == TakeLimit(Pulls(up, s, n).results, amount, t0)
    decreases n
  {
    if n > 0 {
      var q := up(s);
      var t1: int32 := if q.result.Success? && t0 < amount then t0 + 1 else t0;
      var p := TakeNext(TakeIter(s, amount, t0), up);
      assert p.next == TakeIter(q.next, amount, t1);
      TakeResults(up, q.next, amount, t1, n - 1);
      var u := Pulls(up, s, n).results;
      assert u[0] == q.result;
      assert u[1..] == Pulls(up, q.next, n - 1).results;
      assert Pulls(TakeStep(up), TakeIter(s, amount, t0), n).results
          == [p.result] + Pulls(TakeStep(up), p.next, n - 1).results;
    }
  }

  /** The final-state half of `TakeTrace`. */
  lemma {:induction false} TakeLast<S, T>(up: S -> Pull<S, T>, s: S, amount: int32, t0: int32, n: nat)
    ensures Pulls(TakeStep(up), TakeIter(s, amount, t0), n).last
         == TakeIter(Pulls(up, s, n).last, amount, TakenAfter(amount, t0, Successes(Pulls(up, s, n).results)))
    decreases n
  {
    if n > 0 {
      var q := up(s);
      var t1: int32 := if q.result.Success? && t0 < amount then t0 + 1 else t0;
      TakeLast(up, q.next, amount, t1, n - 1);
      var u := Pulls(up, s, n).results;
      assert u[1..] == Pulls(up, q.next, n - 1).results;
    }
  }

  /** A TakeIter returns at most `amount` Successes, however often it is called. */
  lemma TakeAtMost<S, T>(up: S -> Pull<S, T>, s: S, amount: int32, n: nat)
    ensures Successes(Pulls(TakeStep(up), NewTakeIter(s, amount), n).results) <= if amount < 0 then 0 else amount
  {
    TakeTrace(up, s, amount, 0, n);
    TakeLimitSuccesses(Pulls(up, s, n).results, amount, 0);
  }

  lemma {:induction false} AllSuccesses<T>(rs: seq<Try<T>>)
    requires forall i :: 0 <= i < |rs| ==> rs[i].Success?
    ensures Successes(rs) == |rs|
    decreases |rs|
  {
    if rs != [] {
      AllSuccesses(rs[1..]);
    }
  }

  /**
    Over an upstream that keeps succeeding, such as a generator, a fresh
    TakeIter returns the first `amount` upstream values and the limit
    Failure on every later call.
   */
  lemma TakeOfEndless<S, T>(up: S -> Pull<S, T>, s: S, amount: int32, n: nat)
    requires forall k :: 0 <= k < n ==> Pulls(up, s, n).results[k].Success?
    ensures forall k :: 0 <= k < n ==>
      Pulls(TakeStep(up), NewTakeIter(s, amount), n).results[k]
      == if k < amount then Pulls(up, s, n).results[k] else Failure(LimitReached(amount))
  {
    var u := Pulls(up, s, n).results;
    TakeTrace(up, s, amount, 0, n);
    forall k | 0 <= k < n
      ensures TakeLimit(u, amount, 0)[k] == if k < amount then u[k] else Failure(LimitReached(amount))
    {
      TakeLimitAt(u, amount, 0, k);
      AllSuccesses(u[..k]);
    }
  }

  function Inc(x: int): int
  {
    x + 1
  }

  function Double(x: int): int
  {
    2 * x
  }

  lemma {:induction false} IterateInc(x: int, k: nat)
    ensures Iterate(Inc, x, k) == x + k
    decreases k
  {
    if k > 0 {
      IterateInc(x + 1, k - 1);
    }
  }

  /** The naturals from a seed-and-generator source, doubled and limited to ten: 0, 2, ..., 18, then the limit. */
  lemma NaturalsDoubledTakeTen()
    ensures Pulls(TakeStep(MapStep<Seed1Iter<int>, int, int>(Seed1Next)), NewTakeIter(MapIter(Seed1Iter(0, Inc), Double), 10), 11).results
         == seq(10, k => Success(2 * k)) + [Failure(LimitReached(10))]
  {
    var up := MapStep<Seed1Iter<int>, int, int>(Seed1Next);
    var m := MapIter(Seed1Iter(0, Inc), Double);
    Seed1Trace(0, Inc, 11);
    MapTrace(Seed1Next, Seed1Iter(0, Inc), Double, 11);
    var u := Pulls(up, m, 11).results;
    forall k | 0 <= k < 11
      ensures u[k] == Success(2 * k)
    {
      IterateInc(0, k);
    }
    TakeOfEndless(up, m, 10, 11);
    var r := Pulls(TakeStep(up), NewTakeIter(m, 10), 11).results;
    assert forall k | 0 <= k < 11 :: r[k] == (seq(10, k => Success(2 * k)) + [Failure(LimitReached(10))])[k];
  }

  /** `from(1, 2, 3, 4).take(2)` returns 1 and 2, and fails on the third call. */
  lemma TakeTwoOfFour()
    ensures Pulls(TakeStep(ArrayNext<int>), NewTakeIter(NewArrayIter([1, 2, 3, 4]), 2), 3).results
         == [Success(1), Success(2), Failure(LimitReached(2))]
  {
    var u := Pulls(ArrayNext<int>, NewArrayIter([1, 2, 3, 4]), 3).results;
    ArrayTrace([1, 2, 3, 4], 0, 3);
    TakeTrace(ArrayNext<int>, NewArrayIter([1, 2, 3, 4]), 2, 0, 3);
    assert u == [Success(1), Success(2), Success(3)];
  }

  /** `empty().take(10)` fails on the first call. */
  lemma TakeOfEmptyFails<T>()
    ensures TakeNext(NewTakeIter(EmptyIter, 10), EmptyNext<T>).result == Failure(EmptySequence)
  {
  }

  // OnEachIter

  /** A tap on the upstream; `effects` records what the action did, in order. */
  datatype OnEachIter<S, !T, E> = OnEachIter(upstream: S, action: T -> E, effects: seq<E>)

  /** `OnEachIter.next`: one upstream pull, returned unchanged, with the action run on a Success. */
  function OnEachNext<S, T, E>(it: OnEachIter<S, T, E>, up: S -> Pull<S, T>): (p: Pull<OnEachIter<S, T, E>, T>)
    ensures p.result == up(it.upstream).result
    ensures p.next.upstream == up(it.upstream).next && p.next.action == it.action
  {
    var q := up(it.upstream);
    var observed := IfSuccess(q.result, it.action, it.effects);
    Pull(observed.0, OnEachIter(q.next, it.action, observed.1))
  }

  function OnEachStep<S, T, E>(up: S -> Pull<S, T>): OnEachIter<S, T, E> -> Pull<OnEachIter<S, T, E>, T>
  {
    it => OnEachNext(it, up)
  }

  /** An OnEachIter's results are the upstream's, and its upstream state follows the upstream's. */
  lemma {:induction false} OnEachResults<S, T, E>(up: S -> Pull<S, T>, s: S, action: T -> E, effects: seq<E>, n: nat)
    ensures Pulls(OnEachStep(up), OnEachIter(s, action, effects), n).results == Pulls(up, s, n).results
    ensures Pulls(OnEachStep(up), OnEachIter(s, action, effects), n).last.upstream == Pulls(up, s, n).last
    ensures Pulls(OnEachStep(up), OnEachIter(s, action, effects), n).last.action == action
    decreases n
  {
    if n > 0 {
      var q := up(s);
      OnEachResults(up, q.next, action, IfSuccess(q.result, action, effects).1, n - 1);
    }
  }

  /** An OnEachIter's effect log grows by the action's result on each upstream Success, in order. */
  lemma {:induction false} OnEachEffects<S, T, E>(up: S -> Pull<S, T>, s: S, action: T -> E, effects: seq<E>, n: nat)
    ensures Pulls(OnEachStep(up), OnEachIter(s, action, effects), n).last.effects
         == effects + MapSeq(action, SuccessValues(Pulls(up, s, n).results))
    decreases n
  {
    if n > 0 {
      var q := up(s);
      var effects' := IfSuccess(q.result, action, effects).1;
      OnEachEffects(up, q.next, action, effects', n - 1);
      var u := Pulls(up, s, n).results;
      assert u[1..] == Pulls(up, q.next, n - 1).results;
      var head: seq<T> := if q.result.Success? then [q.result.value] else [];
      assert effects' == effects + MapSeq(action, head);
      MapSeqAppend(action, head, SuccessValues(u[1..]));
    }
  }

  /**
    An OnEachIter returns exactly the upstream's results, pulls once per
    call, and runs its action exactly once per upstream Success, in order,
    and never on a Failure.
   */
  lemma OnEachTrace<S, T, E>(up: S -> Pull<S, T>, s: S, action: T -> E, effects: seq<E>, n: nat)
    ensures Pulls(OnEachStep(up), OnEachIter(s, action, effects), n).results == Pulls(up, s, n).results
    ensures Pulls(OnEachStep(up), OnEachIter(s, action, effects), n).last
         == OnEachIter(Pulls(up, s, n).last, action, effects + MapSeq(action, SuccessValues(Pulls(up, s, n).results)))
  {
    OnEachResults(up, s, action, effects, n);
    OnEachEffects(up, s, action, effects, n);
  }
}
