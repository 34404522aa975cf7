/**
  The `Iter` protocol of `io.github.ajoz.iter`: a single `next()` call that
  returns a `Try`, where a Failure signals exhaustion or an error.

  An Iter is modelled by the datatype of its state `S` together with a total
  step function `S -> Pull<S, T>`: one call to `next()` yields a result and
  the state the Iter is left in. Everything an Iter does is then described
  by the trace of its successive pulls.
 */
module IterProtocol {
  import opened Tries

  /** The result of one `next()` call and the Iter's state after it. */
  datatype Pull<S, T> = Pull(result: Try<T>, next: S)

  /** The results of a number of successive pulls, and the state they leave behind. */
  datatype Trace<S, T> = Trace(results: seq<Try<T>>, last: S)

  function Pulls<S, T>(step: S -> Pull<S, T>, s: S, n: nat): (t: Trace<S, T>)
    ensures |t.results| == n
    decreases n
  {
    if n == 0 then Trace([], s)
    else
      var p := step(s);
      var rest := Pulls(step, p.next, n - 1);
      Trace([p.result] + rest.results, rest.last)
  }

  /** One more pull extends the trace by the result of stepping its last state. */
  lemma {:induction false} PullsSnoc<S, T>(step: S -> Pull<S, T>, s: S, n: nat)
    ensures Pulls(step, s, n + 1).results == Pulls(step, s, n).results + [step(Pulls(step, s, n).last).result]
    ensures Pulls(step, s, n + 1).last == step(Pulls(step, s, n).last).next
    decreases n
  {
    if n > 0 {
      PullsSnoc(step, step(s).next, n - 1);
    }
  }

  /** The number of Success results. */
  function Successes<T>(rs: seq<Try<T>>): (c: nat)
    ensures c <= |rs|
  {
    if rs == [] then 0 else (if rs[0].Success? then 1 else 0) + Successes(rs[1..])
  }

  /** The values of the Success results, in order. */
  function SuccessValues<T>(rs: seq<Try<T>>): (vs: seq<T>)
    ensures |vs| == Successes(rs)
  {
    if rs == [] then []
    else (if rs[0].Success? then [rs[0].value] else []) + SuccessValues(rs[1..])
  }

  /** Some pull among the first `n` is a Failure. */
  ghost predicate FailsWithin<S, T>(step: S -> Pull<S, T>, s: S, n: nat)
    decreases n
  {
    n > 0 && (step(s).result.Failure? || FailsWithin(step, step(s).next, n - 1))
  }

  /**
    The values an Iter yields before its first Failure, looking at no more
    than `fuel` pulls: what a `forEach` that collects into a list gathers.
   */
  function Collected<S, T>(step: S -> Pull<S, T>, s: S, fuel: nat): seq<T>
    decreases fuel
  {
    if fuel == 0 then []
    else
      var p := step(s);
      if p.result.Failure? then [] else [p.result.value] + Collected(step, p.next, fuel - 1)
  }

  /** A finite, well-behaved Iter: it yields exactly `xs`, then a Failure with cause `e`. */
  ghost predicate YieldsThen<S, T>(step: S -> Pull<S, T>, s: S, xs: seq<T>, e: Throwable)
    decreases |xs|
  {
    if xs == [] then step(s).result == Failure(e)
    else step(s).result == Success(xs[0]) && YieldsThen(step, step(s).next, xs[1..], e)
  }

  /** Once an Iter fails within some bound, a larger bound collects the same values. */
  lemma {:induction false} CollectedStable<S, T>(step: S -> Pull<S, T>, s: S, m: nat, n: nat)
    requires FailsWithin(step, s, m)
    requires m <= n
    ensures FailsWithin(step, s, n)
    ensures Collected(step, s, m) == Collected(step, s, n)
    decreases m
  {
    if step(s).result.Success? {
      CollectedStable(step, step(s).next, m - 1, n - 1);
    }
  }

  /** A finite Iter fails right after its elements, and collecting it gives back exactly its elements. */
  lemma {:induction false} YieldsThenCollected<S, T>(step: S -> Pull<S, T>, s: S, xs: seq<T>, e: Throwable)
    requires YieldsThen(step, s, xs, e)
    ensures FailsWithin(step, s, |xs| + 1)
    ensures Collected(step, s, |xs| + 1) == xs
    decreases |xs|
  {
    if xs != [] {
      YieldsThenCollected(step, step(s).next, xs[1..], e);
    }
  }

  /** The trace of a finite Iter: its elements as Successes, then its Failure. */
  lemma {:induction false} YieldsThenPulls<S, T>(step: S -> Pull<S, T>, s: S, xs: seq<T>, e: Throwable, k: nat)
    requires YieldsThen(step, s, xs, e)
    requires k <= |xs|
    ensures forall j :: 0 <= j < k ==> Pulls(step, s, k).results[j] == Success(xs[j])
    ensures YieldsThen(step, Pulls(step, s, k).last, xs[k..], e)
    decreases k
  {
    if k > 0 {
      YieldsThenPulls(step, step(s).next, xs[1..], e, k - 1);
      assert xs[1..][k - 1..] == xs[k..];
    }
  }
}
