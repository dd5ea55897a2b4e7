/** The watchdog inside the lock system: in a run where a handle is only ever refreshed by its
    watchdog, the continuity bound keeps its lease against everybody else's steps. */
module WatchdogRun {
  import opened Sequences
  import opened TtlStore
  import opened LockSystem
  import L = LockLeases
  import W = Watchdog

  /** The call is granted, and every operation so far on its handle is a watchdog tick. */
  ghost predicate OnlyTicks(s: Sys, c: CallId) {
    && c in s.calls && !s.calls[c].wire && (s.calls[c].pc == Answered(true) || s.calls[c].pc.Holding?)
    && forall o :: o in s.ops && s.ops[o].call == c ==> s.ops[o].kind == Refresh(s.calls[c].ttl)
  }

  /** The step begins no operation on c other than a tick, and c's answer is read, not lost. */
  predicate Ticking(s: Sys, e: Event, c: CallId) {
    && (e.BeginOp? && e.c == c && c in s.calls ==> e.kind == Refresh(s.calls[c].ttl))
    && e != Advance(c, AcquireFails)
  }

  lemma TickingStep(s: Sys, e: Event, c: CallId)
    requires OpsOnHandles(s) && OnlyTicks(s, c) && Ticking(s, e, c)
    ensures OnlyTicks(Step(s, e), c)
    ensures Step(s, e).calls[c].slot == s.calls[c].slot && Step(s, e).calls[c].ttl == s.calls[c].ttl
  {
    if Enabled(s, e) && (e.ReturnSlot? || e.FreeSlot?) { L.ReturnSteps(s, e, c); }
  }

  /** What the step sends to the server is a tick of c or concerns other tokens. */
  lemma CommandIsBystander(s: Sys, e: Event, c: CallId)
    requires OnlyTicks(s, c)
    ensures forall i :: 0 <= i < |L.CommandOf(s, e)| ==>
              W.Bystander(L.CommandOf(s, e)[i], s.calls[c].slot.key, c, s.calls[c].ttl)
  {
  }

  /** The commands executed after the first n events of a run. */
  function Since(es: seq<Event>, n: nat): seq<Timed>
    requires n <= |es|
  {
    if |es| == n then [] else Since(es[..|es| - 1], n) + L.CommandOf(After(es[..|es| - 1]), es[|es| - 1])
  }

  ghost predicate TickingFrom(es: seq<Event>, n: nat, c: CallId) {
    forall i :: n <= i < |es| ==> Ticking(After(es[..i]), es[i], c)
  }

  lemma {:induction false} SinceAreBystanders(es: seq<Event>, n: nat, c: CallId)
    requires n <= |es| && OnlyTicks(After(es[..n]), c) && TickingFrom(es, n, c)
    ensures L.Commands(es) == L.Commands(es[..n]) + Since(es, n)
    ensures OnlyTicks(After(es), c)
    ensures After(es).calls[c].slot == After(es[..n]).calls[c].slot && After(es).calls[c].ttl == After(es[..n]).calls[c].ttl
    ensures var call := After(es).calls[c];
            forall i :: 0 <= i < |Since(es, n)| ==> W.Bystander(Since(es, n)[i], call.slot.key, c, call.ttl)
    decreases |es|
  {
    if |es| == n {
      assert es[..n] == es;
      assert L.Commands(es) + [] == L.Commands(es);
    } else {
      var init, e := es[..|es| - 1], es[|es| - 1];
      PrefixTicks(es, n, c);
      SinceAreBystanders(init, n, c);
      OperationsWorkOnHandles(init);
      TickingStep(After(init), e, c);
      CommandIsBystander(After(init), e, c);
      Associate(L.Commands(es[..n]), Since(init, n), L.CommandOf(After(init), e));
    }
  }

  lemma PrefixTicks(es: seq<Event>, n: nat, c: CallId)
    requires n < |es| && TickingFrom(es, n, c)
    ensures var init := es[..|es| - 1];
            init[..n] == es[..n] && TickingFrom(init, n, c) && Ticking(After(init), es[|es| - 1], c)
  {
    var init := es[..|es| - 1];
    assert forall i :: n <= i < |init| ==> init[..i] == es[..i] && init[i] == es[i];
    assert es[..|init|] == init;
  }

  /** The n-th event is the server's granting of c's SETNX. */
  ghost predicate GrantedAt(es: seq<Event>, n: nat, c: CallId) {
    && n < |es| && es[n] == ServeAcquire(c) && Enabled(After(es[..n]), es[n])
    && After(es[..n]).calls[c].pc.Asking? && c in After(es[..n + 1]).calls && After(es[..n + 1]).calls[c].pc == Answered(true)
    && 0 < After(es[..n]).calls[c].ttl
  }

  lemma {:induction false} GrantStarts(es: seq<Event>, n: nat, c: CallId)
    requires GrantedAt(es, n, c)
    ensures var s := After(es[..n]);
            && L.Commands(es[..n + 1]) == L.Commands(es[..n]) + [AcquireCommand(s, c)]
            && !Live(Exec(L.Commands(es[..n])), s.calls[c].slot.key, s.now)
            && OnlyTicks(After(es[..n + 1]), c)
            && After(es[..n + 1]).calls[c].slot == s.calls[c].slot && After(es[..n + 1]).calls[c].ttl == s.calls[c].ttl
  {
    var s := After(es[..n]);
    assert es[..n + 1][..n] == es[..n] && es[..n + 1][n] == es[n];
    L.ServerHistory(es[..n]);
    OperationsWorkOnHandles(es[..n]);
  }

  /** In every run: once the server has granted c's SETNX, if c's handle is used by its watchdog alone and
      its ticks reach the server on schedule, the lease stands up to the next tick's deadline, whatever
      the other calls, handles and managers do. */
  lemma {:induction false} LeaseStandsInRun(es: seq<Event>, n: nat, c: CallId, begun: int, lag: int, delay: int)
    requires GrantedAt(es, n, c) && TickingFrom(es, n + 1, c)
    requires 0 <= lag && 0 <= delay
    requires var (at, call) := (After(es[..n]).now, After(es[..n]).calls[c]);
             var times := W.OwnTimes(at, Since(es, n + 1), call.slot.key, c, call.ttl);
             && W.OnSchedule(times, begun, W.Interval(call.ttl), lag, delay)
             && lag + delay + W.Interval(call.ttl) < RefreshSpan(call.ttl)
             && After(es).now <= begun + |times| * W.Interval(call.ttl) + delay
    ensures Owns(After(es).store, After(es[..n]).calls[c].slot.key, c, After(es).now)
  {
    var s := After(es[..n]);
    var call := s.calls[c];
    var pre, set0, cmds := L.Commands(es[..n]), AcquireCommand(s, c), Since(es, n + 1);
    GrantStarts(es, n, c);
    SinceAreBystanders(es, n + 1, c);
    L.ServerHistory(es);
    assert L.Commands(es) == pre + [set0] + cmds;
    W.WatchdogKeepsLease(pre, set0, cmds, call.slot.key, c, call.ttl, After(es).now, begun, lag, delay);
  }

  /** The same in the caller's numbers: ticks every half time-to-live, counted from a start at most `lag`
      after the SETNX and each served at most `delay` late, keep the lease if twice lag + delay leaves two
      milliseconds of the time-to-live. */
  lemma {:induction false} HalfTimeTicksKeepLease(es: seq<Event>, n: nat, c: CallId, begun: int, lag: int, delay: int)
    requires GrantedAt(es, n, c) && TickingFrom(es, n + 1, c)
    requires 0 <= lag && 0 <= delay && 2 * (lag + delay) + 2_000_000 <= After(es[..n]).calls[c].ttl
    requires var (at, call) := (After(es[..n]).now, After(es[..n]).calls[c]);
             var times := W.OwnTimes(at, Since(es, n + 1), call.slot.key, c, call.ttl);
             W.OnSchedule(times, begun, call.ttl / 2, lag, delay) && After(es).now <= begun + |times| * (call.ttl / 2) + delay
    ensures Owns(After(es).store, After(es[..n]).calls[c].slot.key, c, After(es).now)
  {
    var ttl := After(es[..n]).calls[c].ttl;
    W.IntervalIsHalf(ttl);
    SpanValues(ttl);
    assert W.Interval(ttl) == ttl / 2;
    LeaseStandsInRun(es, n, c, begun, lag, delay);
  }
}
