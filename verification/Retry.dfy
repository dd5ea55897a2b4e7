/** The retry loop of Manager.Acquire, once the local slot is owned, with the built-in strategies. */
module Retry {
  import opened Types
  import Q = KeyQueue

  const DEFAULT_BACKOFF := 50 * MILLISECOND

  const DEFAULT_MAX_RETRIES := 20

  /** A built-in strategy, as its caller asks for it. */
  datatype Strategy = FixedBackoff(backoff: int, maxRetries: int) | LinearBackoff(step: int, maxRetries: int)

  /** The unit of waiting: what the caller asks for, if it is positive. */
  function Unit(st: Strategy): (unit: int)
    ensures 0 < unit
  {
    var given := if st.FixedBackoff? then st.backoff else st.step;
    if given <= 0 then DEFAULT_BACKOFF else given
  }

  /** The delay before the next attempt, if there is to be one; the product wraps as int64 does. */
  function Next(st: Strategy, attempt: nat): Option<int> {
    if st.maxRetries < 0 || st.maxRetries < attempt then None
    else Some(if st.FixedBackoff? then Unit(st) else Wrap64(attempt * Unit(st)))
  }

  // ---- Options ------------------------------------------------------------------------------------------

  datatype Options = Options(retryStrategy: Option<Strategy>, maxRetries: int, backoff: int)

  datatype LockOption = WithRetryStrategy(strategy: Strategy) | WithMaxRetries(n: int) | WithBackoff(d: int)

  function ApplyAll(opts: seq<LockOption>): Options {
    if opts == [] then Options(None, DEFAULT_MAX_RETRIES, DEFAULT_BACKOFF)
    else
      var before := ApplyAll(opts[..|opts| - 1]);
      match opts[|opts| - 1]
      case WithRetryStrategy(st) => before.(retryStrategy := Some(st))
      case WithMaxRetries(n) => before.(maxRetries := n)
      case WithBackoff(d) => before.(backoff := d)
  }

  function StrategyOf(o: Options): Strategy {
    match o.retryStrategy
    case Some(st) => st
    case None => FixedBackoff(o.backoff, o.maxRetries)
  }

  /** The delays of a fixed backoff, from the caller's own arguments. */
  lemma FixedDelays(backoff: int, maxRetries: int, n: nat)
    requires 1 <= n
    ensures Next(FixedBackoff(backoff, maxRetries), n)
            == if maxRetries < n then None else Some(if backoff <= 0 then 50_000_000 else backoff)
  {
  }

  /** The delays of a linear backoff: n times the step, as 64 bits hold it. */
  lemma LinearDelays(step: int, maxRetries: int, n: nat)
    requires 1 <= n
    ensures var (next, unit) := (Next(LinearBackoff(step, maxRetries), n), if step <= 0 then 50_000_000 else step);
            && (next.None? <==> maxRetries < n)
            && (next.Some? ==>
                  && -0x8000_0000_0000_0000 <= next.value < 0x8000_0000_0000_0000
                  && (next.value - n * unit) % 0x1_0000_0000_0000_0000 == 0)
  {
  }

  /** A retry strategy overrides the other options wherever it stands; without one the last
      WithMaxRetries and the last WithBackoff count, and by default there are 20 retries, 50 ms apart. */
  lemma OptionsDecide(opts: seq<LockOption>, last: LockOption, n: nat)
    requires 1 <= n
    ensures Next(StrategyOf(ApplyAll([])), n) == if 20 < n then None else Some(50_000_000)
    ensures var (before, after) := (ApplyAll(opts), ApplyAll(opts + [last]));
            match last
            case WithRetryStrategy(st) => StrategyOf(after) == st
            case WithMaxRetries(max) =>
              if before.retryStrategy.Some? then StrategyOf(after) == before.retryStrategy.value
              else Next(StrategyOf(after), n)
                   == if max < n then None else Some(if before.backoff <= 0 then 50_000_000 else before.backoff)
            case WithBackoff(d) =>
              if before.retryStrategy.Some? then StrategyOf(after) == before.retryStrategy.value
              else Next(StrategyOf(after), n)
                   == if before.maxRetries < n then None else Some(if d <= 0 then 50_000_000 else d)
  {
    assert (opts + [last])[..|opts|] == opts;
  }

  // ---- Waiting ------------------------------------------------------------------------------------------

  /** How long a timer set to d runs. */
  function TimerRuns(d: int): nat {
    if d < 0 then 0 else d
  }

  /** The waiting that precedes attempt n + 1. */
  function TotalWait(st: Strategy, n: nat): nat {
    if n == 0 then 0
    else TotalWait(st, n - 1) + match Next(st, n) case None => 0 case Some(d) => TimerRuns(d)
  }

  lemma {:induction false} FixedTotal(backoff: int, maxRetries: int, n: nat)
    requires n <= maxRetries
    ensures TotalWait(FixedBackoff(backoff, maxRetries), n) == n * (if backoff <= 0 then 50_000_000 else backoff)
  {
    if n > 0 { FixedTotal(backoff, maxRetries, n - 1); }
  }

  /** Without overflow, linear backoff waits unit * n * (n + 1) / 2 in all. */
  lemma {:induction false} LinearTotal(step: int, maxRetries: int, n: nat)
    requires n <= maxRetries
    requires maxRetries * (if step <= 0 then 50_000_000 else step) < 0x8000_0000_0000_0000
    ensures 2 * TotalWait(LinearBackoff(step, maxRetries), n) == (if step <= 0 then 50_000_000 else step) * (n * (n + 1))
  {
    var st := LinearBackoff(step, maxRetries);
    if n > 0 {
      LinearTotal(step, maxRetries, n - 1);
      FitsWhenSmaller(n, maxRetries, Unit(st));
      assert Next(st, n) == Some(n * Unit(st));
      NextTriangle(Unit(st), n);
    }
  }

  /** One wait: nothing for a delay that came out negative, otherwise the delay. */
  lemma OneWait(st: Strategy, n: nat)
    requires 1 <= n <= st.maxRetries
    ensures TotalWait(st, n) - TotalWait(st, n - 1) == if Next(st, n).value < 0 then 0 else Next(st, n).value
  {
  }

  lemma FitsWhenSmaller(n: nat, bound: nat, unit: nat)
    requires n <= bound
    ensures 0 <= n * unit <= bound * unit
  {
    assert bound * unit == n * unit + (bound - n) * unit;
  }

  lemma NextTriangle(unit: int, n: int)
    ensures unit * ((n - 1) * n) + 2 * (n * unit) == unit * (n * (n + 1))
  {
    assert (n - 1) * n + 2 * n == n * (n + 1);
    assert unit * ((n - 1) * n + 2 * n) == unit * ((n - 1) * n) + unit * (2 * n);
  }

  lemma {:induction false} WaitGrows(st: Strategy, n: nat, m: nat)
    requires n <= m
    ensures TotalWait(st, n) <= TotalWait(st, m)
    decreases m
  {
    if n < m { WaitGrows(st, n, m - 1); }
  }

  /** Wrapping never lengthens a delay, so with overflow or without linear backoff waits at most
      unit * n * (n + 1) / 2 in all. */
  lemma {:induction false} LinearAtMost(step: int, maxRetries: int, n: nat)
    ensures 2 * TotalWait(LinearBackoff(step, maxRetries), n) <= (if step <= 0 then 50_000_000 else step) * (n * (n + 1))
  {
    var st := LinearBackoff(step, maxRetries);
    if n > 0 {
      LinearAtMost(step, maxRetries, n - 1);
      FitsWhenSmaller(0, n, Unit(st));
      WrapsDown(n * Unit(st));
      NextTriangle(Unit(st), n);
    }
  }

  lemma WrapsDown(m: nat)
    ensures Wrap64(m) <= m
  {
  }

  lemma TriangleGrows(unit: nat, n: nat, m: nat)
    requires n <= m
    ensures unit * (n * (n + 1)) <= unit * (m * (m + 1))
  {
    FitsWhenSmaller(n, m, n + 1);
    FitsWhenSmaller(n + 1, m + 1, m);
    FitsWhenSmaller(n * (n + 1), m * (m + 1), unit);
  }

  /** Whatever the number of attempts and whatever the products, the waiting stays below that of all N
      retries: N units with fixed backoff, N (N + 1) / 2 units with linear backoff. */
  lemma {:induction false} WaitBound(given: int, maxRetries: nat, n: nat)
    requires n <= maxRetries
    ensures var unit := if given <= 0 then 50_000_000 else given;
            && TotalWait(FixedBackoff(given, maxRetries), n) <= maxRetries * unit
            && 2 * TotalWait(LinearBackoff(given, maxRetries), n) <= unit * (maxRetries * (maxRetries + 1))
  {
    WaitGrows(FixedBackoff(given, maxRetries), n, maxRetries);
    FixedTotal(given, maxRetries, maxRetries);
    LinearAtMost(given, maxRetries, n);
    TriangleGrows(Unit(LinearBackoff(given, maxRetries)), n, maxRetries);
  }

  /** The product is exact, and the delay positive, exactly when it fits in 63 bits. */
  lemma LinearDelayExactIff(step: int, maxRetries: int, attempt: nat)
    requires 1 <= attempt <= maxRetries
    ensures var unit := if step <= 0 then 50_000_000 else step;
            Next(LinearBackoff(step, maxRetries), attempt) == Some(attempt * unit)
            <==> attempt * unit < 0x8000_0000_0000_0000
  {
    assert 0 < attempt * Unit(LinearBackoff(step, maxRetries));
  }

  /** One instance of the overflow: the eighth delay of a 2^60 ns step is negative, so the timer fires at once. */
  lemma LinearOverflowInstance()
    ensures Next(LinearBackoff(0x1000_0000_0000_0000, 8), 8) == Some(-0x8000_0000_0000_0000)
  {
  }

  /** What the backend answers to one Acquire. */
  datatype Answer = Granted | Busy | Broken

  datatype Outcome = Locked | NoToken | BackendError | NotAcquired | ContextDone

  function Min(a: nat, b: nat): nat {
    if a <= b then a else b
  }

  /** The loop goes past call number n: the key was busy, another attempt is due, and its wait was
      not cut short. */
  predicate GoesOn(st: Strategy, answers: nat -> Answer, cancelled: nat -> Option<nat>, n: nat) {
    answers(n) == Busy && Next(st, n + 1).Some? && cancelled(n + 1).None?
  }

  /** How a run ends that stops at call number n. */
  function Verdict(st: Strategy, answers: nat -> Answer, n: nat): Outcome {
    match answers(n)
    case Granted => Locked
    case Broken => BackendError
    case Busy => if Next(st, n + 1).None? then NotAcquired else ContextDone
  }

  /** The loop: the backend is asked at least once and, from some call on, never again; the first call
      after which the loop does not go on decides. With N >= 0 there are at most N + 1 calls, with
      N < 0 exactly one. `cancelled(n)` says whether the n-th wait is cut short by the context, and
      after how long. */
  method AskUntilDecided(st: Strategy, answers: nat -> Answer, cancelled: nat -> Option<nat>)
    returns (outcome: Outcome, calls: nat, waited: nat)
    ensures 1 <= calls <= (if st.maxRetries < 0 then 1 else st.maxRetries + 1)
    ensures forall n :: 0 <= n < calls - 1 ==> GoesOn(st, answers, cancelled, n)
    ensures !GoesOn(st, answers, cancelled, calls - 1)
    ensures outcome == Verdict(st, answers, calls - 1)
    ensures forall n :: 0 <= n < calls - 1 ==> answers(n) == Busy
    ensures forall n :: 1 <= n < calls ==> cancelled(n).None?
    ensures outcome == match answers(calls - 1)
                       case Granted => Locked
                       case Broken => BackendError
                       case Busy => if st.maxRetries < calls then NotAcquired else ContextDone
    ensures outcome == ContextDone ==> cancelled(calls).Some?
    ensures outcome != ContextDone ==> waited == TotalWait(st, calls - 1)
    ensures outcome == ContextDone ==> TotalWait(st, calls - 1) <= waited <= TotalWait(st, calls)
  {
    var attempt := 0;
    waited := 0;
    while true
      invariant 0 <= attempt && (attempt == 0 || attempt <= st.maxRetries)
      invariant forall n :: 0 <= n < attempt ==> GoesOn(st, answers, cancelled, n) && answers(n) == Busy
      invariant forall n :: 1 <= n <= attempt ==> cancelled(n).None?
      invariant waited == TotalWait(st, attempt)
      decreases if st.maxRetries < 0 then 1 - attempt else st.maxRetries + 1 - attempt
    {
      var answer := answers(attempt);
      calls := attempt + 1;
      if answer == Broken {
        return BackendError, calls, waited;
      }
      if answer == Granted {
        return Locked, calls, waited;
      }
      attempt := attempt + 1;
      var delay := Next(st, attempt);
      if delay.None? {
        return NotAcquired, calls, waited;
      }
      assert TotalWait(st, attempt) == TotalWait(st, attempt - 1) + TimerRuns(delay.value);
      if cancelled(attempt).Some? {
        waited := waited + Min(cancelled(attempt).value, TimerRuns(delay.value));
        return ContextDone, calls, waited;
      }
      waited := waited + TimerRuns(delay.value);
    }
  }

  /** Acquire from its slot on: the slot is kept if the lock was obtained, and otherwise the deferred
      call gives it back once. */
  method AcquireWithSlot(queue: Q.LocalKeyQueue, key: Key, token: Option<nat>, st: Strategy,
                         answers: nat -> Answer, cancelled: nat -> Option<nat>)
    returns (outcome: Outcome, calls: nat, waited: nat)
    requires queue.Valid()
    modifies queue`keys, queue`closed, queue.keys.Values
    ensures queue.Valid()
    ensures outcome == Locked ==> queue.View() == old(queue.View())
    ensures outcome != Locked ==> queue.View() == Q.Release(old(queue.View()), key).0
    ensures token.None? ==> outcome == NoToken && calls == 0 && waited == 0
    ensures token.Some? ==>
              && 1 <= calls <= (if st.maxRetries < 0 then 1 else st.maxRetries + 1)
              && (forall n :: 0 <= n < calls - 1 ==> GoesOn(st, answers, cancelled, n))
              && !GoesOn(st, answers, cancelled, calls - 1)
              && outcome == Verdict(st, answers, calls - 1)
              && (outcome != ContextDone ==> waited == TotalWait(st, calls - 1))
              && (outcome == ContextDone ==> TotalWait(st, calls - 1) <= waited <= TotalWait(st, calls))
  {
    if token.None? {
      outcome, calls, waited := NoToken, 0, 0;
    } else {
      outcome, calls, waited := AskUntilDecided(st, answers, cancelled);
    }
    if outcome != Locked {
      var _ := queue.ReleaseKey(key);
    }
  }
}
