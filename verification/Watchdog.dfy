/** The auto-refresh goroutine: when its refreshes come in time, the lease never lapses, whatever
    other clients send in between. */
module Watchdog {
  import opened Types
  import opened TtlStore

  /** The ticker's period for a handle's time-to-live. */
  function Interval(ttl: int): int
    requires 0 < ttl
  {
    if 0 < ttl / 2 then ttl / 2 else ttl
  }

  /** The period in numbers: half of the time-to-live, rounded down, and one nanosecond at least. */
  lemma IntervalIsHalf(ttl: int)
    requires 0 < ttl
    ensures 1 <= Interval(ttl) <= ttl
    ensures 2 <= ttl ==> ttl - 1 <= 2 * Interval(ttl) <= ttl
  {
  }

  /** A refresh of the handle: every tick asks for the original time-to-live. */
  predicate IsRefresh(t: Timed, k: Key, v: nat, ttl: int) {
    t.cmd == CompareExpire(k, v, RefreshSpan(ttl))
  }

  /** Commands of the watchdog or of other clients: nobody deletes the key, and nobody else uses the
      handle's token. */
  predicate Bystander(t: Timed, k: Key, v: nat, ttl: int) {
    IsRefresh(t, k, v, ttl) || !Concerns(t.cmd, k, v)
  }

  /** The instants at which the handle's own commands reach the server, from its SETNX at `start`. */
  function OwnTimes(start: Time, cmds: seq<Timed>, k: Key, v: nat, ttl: int): seq<Time> {
    if cmds == [] then [start]
    else
      var before := OwnTimes(start, cmds[..|cmds| - 1], k, v, ttl);
      var last := cmds[|cmds| - 1];
      if IsRefresh(last, k, v, ttl) then before + [last.at] else before
  }

  function LastOwn(start: Time, cmds: seq<Timed>, k: Key, v: nat, ttl: int): Time {
    if cmds == [] then start
    else
      var last := cmds[|cmds| - 1];
      if IsRefresh(last, k, v, ttl) then last.at else LastOwn(start, cmds[..|cmds| - 1], k, v, ttl)
  }

  lemma {:induction false} LastOwnIsLast(start: Time, cmds: seq<Timed>, k: Key, v: nat, ttl: int)
    ensures var ts := OwnTimes(start, cmds, k, v, ttl); |ts| > 0 && ts[|ts| - 1] == LastOwn(start, cmds, k, v, ttl)
  {
    if cmds != [] { LastOwnIsLast(start, cmds[..|cmds| - 1], k, v, ttl); }
  }

  /** Consecutive commands of the handle come less than the stored span apart. */
  ghost predicate Prompt(times: seq<Time>, span: int) {
    forall i :: 0 <= i < |times| - 1 ==> times[i + 1] < times[i] + span
  }

  /** The tick schedule: the first tick one interval after the watchdog's start, which is at most
      `lag` after the SETNX; each refresh executes between its tick and `delay` later. */
  ghost predicate OnSchedule(times: seq<Time>, begun: int, interval: int, lag: int, delay: int) {
    && |times| > 0 && times[0] <= begun <= times[0] + lag
    && forall i :: 1 <= i < |times| ==> begun + i * interval <= times[i] <= begun + i * interval + delay
  }

  lemma ScheduleIsPrompt(times: seq<Time>, begun: int, interval: int, lag: int, delay: int, span: int)
    requires OnSchedule(times, begun, interval, lag, delay)
    requires 0 <= lag && 0 <= delay && lag + delay + interval < span
    ensures Prompt(times, span)
  {
    forall i | 0 <= i < |times| - 1 ensures times[i + 1] < times[i] + span {
      assert (i + 1) * interval == i * interval + interval;
    }
  }

  /** From a granted SETNX on, with prompt refreshes and any commands of bystanders in between, the
      token owns the key until one stored span after the latest refresh. */
  lemma {:induction false} PromptKeepsLease(pre: seq<Timed>, set0: Timed, cmds: seq<Timed>, k: Key, v: nat, ttl: int, t: Time)
    requires Ordered(pre + [set0] + cmds) && AllBefore(pre + [set0] + cmds, t)
    requires MILLISECOND <= ttl && set0.cmd == SetNx(k, v, StoredSpan(ttl)) && !Live(Exec(pre), k, set0.at)
    requires forall i :: 0 <= i < |cmds| ==> Bystander(cmds[i], k, v, ttl)
    requires Prompt(OwnTimes(set0.at, cmds, k, v, ttl), StoredSpan(ttl))
    requires t < LastOwn(set0.at, cmds, k, v, ttl) + StoredSpan(ttl)
    ensures var s := Exec(pre + [set0] + cmds);
            Owns(s, k, v, t) && s[k].until == LastOwn(set0.at, cmds, k, v, ttl) + StoredSpan(ttl)
  {
    var all := pre + [set0] + cmds;
    if cmds == [] {
      assert all[..|all| - 1] == pre && all[|all| - 1] == set0;
    } else {
      var init, last := cmds[..|cmds| - 1], cmds[|cmds| - 1];
      var before := pre + [set0] + init;
      assert all == before + [last] && all[|all| - 1] == last;
      OrderedPrefix(before, last);
      PromptPrefix(set0.at, cmds, k, v, ttl);
      PromptKeepsLease(pre, set0, init, k, v, ttl, last.at);
      assert all[..|all| - 1] == before;
      BystanderKeeps(Exec(before), last, k, v, ttl);
    }
  }

  lemma OrderedPrefix(cmds: seq<Timed>, last: Timed)
    requires Ordered(cmds + [last])
    ensures Ordered(cmds) && AllBefore(cmds, last.at)
  {
    var all := cmds + [last];
    assert all[|cmds|] == last;
    assert forall i :: 0 <= i < |cmds| ==> all[i] == cmds[i];
  }

  /** One command of a bystander, or one refresh, leaves the lease standing. */
  lemma BystanderKeeps(s: Store, t: Timed, k: Key, v: nat, ttl: int)
    requires Owns(s, k, v, t.at) && Bystander(t, k, v, ttl) && MILLISECOND <= ttl
    ensures var s' := Serve(s, t).0;
            k in s' && s'[k].value == v
            && s'[k].until == if IsRefresh(t, k, v, ttl) then t.at + StoredSpan(ttl) else s[k].until
  {
  }

  /** Promptness up to the last command, and that command before the standing deadline. */
  lemma PromptPrefix(start: Time, cmds: seq<Timed>, k: Key, v: nat, ttl: int)
    requires cmds != [] && Prompt(OwnTimes(start, cmds, k, v, ttl), StoredSpan(ttl))
    ensures var init := cmds[..|cmds| - 1];
            && Prompt(OwnTimes(start, init, k, v, ttl), StoredSpan(ttl))
            && (IsRefresh(cmds[|cmds| - 1], k, v, ttl) ==>
                  cmds[|cmds| - 1].at < LastOwn(start, init, k, v, ttl) + StoredSpan(ttl))
  {
    var init, last := cmds[..|cmds| - 1], cmds[|cmds| - 1];
    var before, times := OwnTimes(start, init, k, v, ttl), OwnTimes(start, cmds, k, v, ttl);
    LastOwnIsLast(start, init, k, v, ttl);
    var n := |before| - 1;
    assert before == times[..n + 1];
    if IsRefresh(last, k, v, ttl) {
      assert times[n + 1] == last.at && times[n] == before[n];
    }
  }

  /** The continuity bound: if the watchdog starts at most `lag` after the SETNX, every refresh reaches
      the server at most `delay` after its tick, and lag + delay + interval is below the time-to-live
      in whole milliseconds, the lease stands at every instant up to the next refresh's deadline,
      for any number of ticks, and so every refresh is accepted. */
  lemma WatchdogKeepsLease(pre: seq<Timed>, set0: Timed, cmds: seq<Timed>, k: Key, v: nat, ttl: int, t: Time,
                           begun: int, lag: int, delay: int)
    requires Ordered(pre + [set0] + cmds) && AllBefore(pre + [set0] + cmds, t)
    requires 0 < ttl && set0.cmd == SetNx(k, v, StoredSpan(ttl)) && !Live(Exec(pre), k, set0.at)
    requires forall i :: 0 <= i < |cmds| ==> Bystander(cmds[i], k, v, ttl)
    requires OnSchedule(OwnTimes(set0.at, cmds, k, v, ttl), begun, Interval(ttl), lag, delay)
    requires 0 <= lag && 0 <= delay && lag + delay + Interval(ttl) < RefreshSpan(ttl)
    requires var ticks := |OwnTimes(set0.at, cmds, k, v, ttl)|; t <= begun + ticks * Interval(ttl) + delay
    ensures Owns(Exec(pre + [set0] + cmds), k, v, t)
  {
    var times := OwnTimes(set0.at, cmds, k, v, ttl);
    ScheduleIsPrompt(times, begun, Interval(ttl), lag, delay, StoredSpan(ttl));
    LastOwnIsLast(set0.at, cmds, k, v, ttl);
    NextTickInTime(times, begun, Interval(ttl), lag, delay, t);
    PromptKeepsLease(pre, set0, cmds, k, v, ttl, t);
  }

  /** Up to the latest moment of the next refresh, less than a span has passed since the last one. */
  lemma NextTickInTime(times: seq<Time>, begun: int, interval: int, lag: int, delay: int, t: int)
    requires OnSchedule(times, begun, interval, lag, delay) && 0 <= lag && 0 <= delay
    requires t <= begun + |times| * interval + delay
    ensures t <= times[|times| - 1] + lag + delay + interval
  {
    var n := |times| - 1;
    assert (n + 1) * interval == n * interval + interval;
  }

  /** Commands about other keys and tokens leave a granted entry as the SETNX made it. */
  lemma {:induction false} OthersKeepEntry(pre: seq<Timed>, set0: Timed, cmds: seq<Timed>, k: Key, v: nat, ttl: int)
    requires Ordered(pre + [set0] + cmds) && set0.cmd == SetNx(k, v, StoredSpan(ttl)) && !Live(Exec(pre), k, set0.at)
    requires forall i :: 0 <= i < |cmds| ==> !Concerns(cmds[i].cmd, k, v) && cmds[i].at < set0.at + StoredSpan(ttl)
    ensures k in Exec(pre + [set0] + cmds) && Exec(pre + [set0] + cmds)[k] == Entry(v, set0.at + StoredSpan(ttl))
  {
    var all := pre + [set0] + cmds;
    if cmds == [] {
      assert all[..|all| - 1] == pre && all[|all| - 1] == set0;
    } else {
      var init, last := cmds[..|cmds| - 1], cmds[|cmds| - 1];
      var before := pre + [set0] + init;
      assert all == before + [last];
      OrderedPrefix(before, last);
      OthersKeepEntry(pre, set0, init, k, v, ttl);
      assert all[..|all| - 1] == before && all[|all| - 1] == last;
    }
  }

  /** A time-to-live below one millisecond defeats the watchdog: its first refresh, as long as it comes
      before the lease is over and whatever other clients sent since the SETNX, is answered "done" and
      deletes the lease. From one millisecond on it does not. */
  lemma {:induction false} FirstTickKeepsLeaseIff(pre: seq<Timed>, set0: Timed, cmds: seq<Timed>, tick: Timed,
                                                  k: Key, v: nat, ttl: int)
    requires Ordered(pre + [set0] + cmds + [tick])
    requires 0 < ttl && set0.cmd == SetNx(k, v, StoredSpan(ttl)) && !Live(Exec(pre), k, set0.at)
    requires forall i :: 0 <= i < |cmds| ==> !Concerns(cmds[i].cmd, k, v)
    requires IsRefresh(tick, k, v, ttl) && tick.at < set0.at + StoredSpan(ttl)
    ensures Serve(Exec(pre + [set0] + cmds), tick).1
    ensures Owns(Exec(pre + [set0] + cmds + [tick]), k, v, tick.at) <==> MILLISECOND <= ttl
  {
    var before := pre + [set0] + cmds;
    OrderedPrefix(before, tick);
    assert forall i :: 0 <= i < |cmds| ==> cmds[i] == before[|pre| + 1 + i];
    OthersKeepEntry(pre, set0, cmds, k, v, ttl);
    ExecSnoc(before, tick);
    RefreshKeepsLeaseIff(Exec(before), tick.at, k, v, ttl);
  }
}
