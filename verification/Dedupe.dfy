/** The TTL deduplicator over the Redis store. */
module Dedupe {
  import opened Types
  import opened TtlStore

  /** The value every mark carries. */
  const MARK: nat := 1

  datatype Error = KeyRequired | TtlRequired | BackendFailed

  datatype Result<T> = Ok(value: T) | Err(error: Error)

  datatype Request = TryMark(key: Key, ttl: int) | Marked(key: Key) | Clear(key: Key)

  /** What the backend sends for a request that passes the manager's checks. */
  function CommandFor(r: Request): Command {
    match r
    case TryMark(k, ttl) => SetNx(k, MARK, StoredSpan(ttl))
    case Marked(k) => Exists(k)
    case Clear(k) => Delete(k)
  }

  function Rejection(r: Request): Option<Error> {
    if r.key.text == "" then Some(KeyRequired)
    else if r.TryMark? && r.ttl <= 0 then Some(TtlRequired)
    else None
  }

  /** What the server makes of a request, in the request's own terms. Marked answers whether the key is live
      and changes nothing; Clear leaves the key absent and the others alone; TryMark is accepted
      exactly if the key is not live, and then the mark stands for the time-to-live in whole
      milliseconds, one at least. */
  lemma RequestDoes(s: Store, r: Request, now: Time)
    ensures var (t, done) := Serve(s, Timed(now, CommandFor(r)));
            && (r.Marked? ==> t == s && (done <==> r.key in s && now < s[r.key].until))
            && (r.Clear? ==> r.key !in t)
            && (r.TryMark? ==> (done <==> !(r.key in s && now < s[r.key].until)) && (!done ==> t == s))
            && (r.TryMark? && done && 0 < r.ttl ==>
                  r.key in t && t[r.key].value == 1 && t[r.key].until - now == if r.ttl < 1_000_000 then 1_000_000 else r.ttl - r.ttl % 1_000_000)
            && (forall k :: k != r.key ==> (k in t <==> k in s) && (k in s ==> t[k] == s[k]))
  {
    if r.TryMark? { SpanValues(r.ttl); }
  }

  // ---- The manager object -------------------------------------------------------------------------

  class Manager {
    const server: RedisServer

    constructor (server: RedisServer)
      ensures this.server == server
    {
      this.server := server;
    }

    /** TryMark, Marked and Clear: a rejected request reaches no server; a failed one may or may not
        have been executed. */
    method Handle(r: Request, net: Net) returns (result: Result<bool>)
      requires server.Valid()
      modifies server`store, server`history
      ensures server.Valid()
      ensures Rejection(r).Some? ==> result == Err(Rejection(r).value)
      ensures r.key.text == "" ==> result == Err(KeyRequired)
      ensures r.key.text != "" && r.TryMark? && r.ttl <= 0 ==> result == Err(TtlRequired)
      ensures r.key.text != "" && (r.TryMark? ==> 0 < r.ttl) ==>
                var live := r.key in old(server.store) && server.now < old(server.store)[r.key].until;
                result == if !net.Delivered? then Err(BackendFailed)
                          else if r.Marked? then Ok(live)
                          else if r.TryMark? then Ok(!live)
                          else result
      ensures r.key.text == "" || (r.TryMark? && r.ttl <= 0) || r.Marked? || net.CommandLost? ==>
                server.store == old(server.store)
      ensures r.key.text != "" && r.Clear? && !net.CommandLost? ==> r.key !in server.store
      ensures r.TryMark? && result == Ok(true) ==>
                r.key in server.store
                && server.store[r.key].until - server.now == if r.ttl < 1_000_000 then 1_000_000 else r.ttl - r.ttl % 1_000_000
      ensures forall k :: k != r.key ==>
                (k in server.store <==> k in old(server.store)) && (k in server.store ==> server.store[k] == old(server.store)[k])
      ensures Rejection(r).None? ==>
                result == if net.Delivered? then Ok(Serve(old(server.store), Timed(server.now, CommandFor(r))).1)
                          else Err(BackendFailed)
      ensures server.history == if Rejection(r).Some? || net.CommandLost? then old(server.history)
                                else old(server.history) + [Timed(server.now, CommandFor(r))]
    {
      if r.key.text == "" {
        return Err(KeyRequired);
      }
      if r.TryMark? && r.ttl <= 0 {
        return Err(TtlRequired);
      }
      RequestDoes(server.store, r, server.now);
      var answer := server.RoundTrip(CommandFor(r), net);
      result := if answer.Some? then Ok(answer.value) else Err(BackendFailed);
    }
  }

  // ---- Windows ---------------------------------------------------------------------------------------

  /** The only commands a deduplicator sends. */
  predicate IsDedupe(t: Timed) {
    t.cmd.SetNx? || t.cmd.Exists? || t.cmd.Delete?
  }

  ghost predicate DedupeHistory(cmds: seq<Timed>) {
    Ordered(cmds) && forall i :: 0 <= i < |cmds| ==> IsDedupe(cmds[i])
  }

  /** Command i marked key k: it was a TryMark that the server accepted, answered or not. */
  predicate Accepts(cmds: seq<Timed>, i: nat, k: Key)
    requires i < |cmds|
  {
    cmds[i].cmd.SetNx? && cmds[i].cmd.key == k && Reply(cmds, i)
  }

  predicate ClearedAfter(cmds: seq<Timed>, i: nat, k: Key) {
    exists j :: i < j < |cmds| && cmds[j].cmd == Delete(k)
  }

  /** Some accepted mark of k still covers instant t and has not been cleared. */
  predicate Covered(cmds: seq<Timed>, k: Key, t: Time) {
    exists i :: 0 <= i < |cmds| && Accepts(cmds, i, k) && t < cmds[i].at + cmds[i].cmd.span && !ClearedAfter(cmds, i, k)
  }

  lemma PrefixAgrees(cmds: seq<Timed>, n: nat, i: nat, k: Key)
    requires i < n <= |cmds|
    ensures Accepts(cmds[..n], i, k) <==> Accepts(cmds, i, k)
  {
    assert cmds[..n][..i] == cmds[..i];
  }

  /** How one more command changes what is covered. */
  lemma CoverStep(cmds: seq<Timed>, k: Key, t: Time)
    requires cmds != []
    ensures var n := |cmds| - 1;
            Covered(cmds, k, t) <==>
              (Accepts(cmds, n, k) && t < cmds[n].at + cmds[n].cmd.span)
              || (cmds[n].cmd != Delete(k) && Covered(cmds[..n], k, t))
  {
    var n := |cmds| - 1;
    var init := cmds[..n];
    forall i | 0 <= i < n
      ensures Accepts(init, i, k) <==> Accepts(cmds, i, k)
      ensures ClearedAfter(cmds, i, k) <==> ClearedAfter(init, i, k) || cmds[n].cmd == Delete(k)
    {
      PrefixAgrees(cmds, n, i, k);
      assert forall j :: i < j < n ==> init[j] == cmds[j];
      if ClearedAfter(init, i, k) {
        var j :| i < j < n && init[j].cmd == Delete(k);
        assert cmds[j].cmd == Delete(k);
      }
    }
    if Covered(init, k, t) && cmds[n].cmd != Delete(k) {
      var i :| 0 <= i < n && Accepts(init, i, k) && t < init[i].at + init[i].cmd.span && !ClearedAfter(init, i, k);
      assert Accepts(cmds, i, k) && !ClearedAfter(cmds, i, k);
    }
    if Covered(cmds, k, t) {
      var i :| 0 <= i < |cmds| && Accepts(cmds, i, k) && t < cmds[i].at + cmds[i].cmd.span && !ClearedAfter(cmds, i, k);
      if i < n { assert Accepts(init, i, k) && !ClearedAfter(init, i, k); }
    }
  }

  lemma CoverShrinks(cmds: seq<Timed>, k: Key, t: Time, u: Time)
    requires t <= u && Covered(cmds, k, u)
    ensures Covered(cmds, k, t)
  {
    var i :| 0 <= i < |cmds| && Accepts(cmds, i, k) && u < cmds[i].at + cmds[i].cmd.span && !ClearedAfter(cmds, i, k);
  }

  /** The store holds a mark exactly while an accepted, uncleared mark covers the present. */
  lemma {:induction false} LiveIffCovered(cmds: seq<Timed>, k: Key, t: Time)
    requires DedupeHistory(cmds) && AllBefore(cmds, t)
    ensures Live(Exec(cmds), k, t) <==> Covered(cmds, k, t)
  {
    if cmds != [] {
      var n := |cmds| - 1;
      var last := cmds[n];
      assert IsDedupe(last);
      LiveIffCovered(cmds[..n], k, t);
      LiveIffCovered(cmds[..n], k, last.at);
      CoverStep(cmds, k, t);
      if Covered(cmds[..n], k, t) { CoverShrinks(cmds[..n], k, last.at, t); }
    }
  }

  lemma HistoryPrefix(cmds: seq<Timed>, n: nat)
    requires DedupeHistory(cmds) && n < |cmds|
    ensures DedupeHistory(cmds[..n]) && AllBefore(cmds[..n], cmds[n].at)
  {
    assert forall i :: 0 <= i < n ==> cmds[..n][i] == cmds[i];
  }

  /** A TryMark is accepted if and only if no accepted mark of its key, uncleared, is still within
      its time-to-live. */
  lemma AcceptedIffWindowOver(cmds: seq<Timed>, n: nat)
    requires DedupeHistory(cmds) && n < |cmds| && cmds[n].cmd.SetNx?
    ensures Accepts(cmds, n, cmds[n].cmd.key) <==> !Covered(cmds[..n], cmds[n].cmd.key, cmds[n].at)
  {
    HistoryPrefix(cmds, n);
    LiveIffCovered(cmds[..n], cmds[n].cmd.key, cmds[n].at);
  }

  /** Two accepted marks of one key with no clear between them are at least the first one's stored
      time-to-live apart, whichever calls in between failed after their write was applied. */
  lemma AcceptedMarksApart(cmds: seq<Timed>, i: nat, j: nat, k: Key)
    requires DedupeHistory(cmds) && i < j < |cmds|
    requires Accepts(cmds, i, k) && Accepts(cmds, j, k)
    requires forall m :: i < m < j ==> cmds[m].cmd != Delete(k)
    ensures cmds[i].at + cmds[i].cmd.span <= cmds[j].at
  {
    AcceptedIffWindowOver(cmds, j);
    var before := cmds[..j];
    PrefixAgrees(cmds, j, i, k);
    assert before[i] == cmds[i];
    assert !ClearedAfter(before, i, k) by {
      assert forall m :: i < m < j ==> before[m] == cmds[m];
    }
  }

  /** Asking whether a key is marked changes no later answer and no later state. */
  lemma {:induction false} MarkedChangesNothing(a: seq<Timed>, ask: Timed, b: seq<Timed>)
    requires ask.cmd.Exists?
    ensures Exec(a + [ask] + b) == Exec(a + b)
    ensures b != [] ==> Reply(a + [ask] + b, |a| + |b|) == Reply(a + b, |a| + |b| - 1)
  {
    var with, without := a + [ask] + b, a + b;
    if b == [] {
      assert with[..|a|] == a && with[|a|] == ask && a + b == a;
    } else {
      var init, last := b[..|b| - 1], b[|b| - 1];
      MarkedChangesNothing(a, ask, init);
      assert with[..|a| + |b|] == a + [ask] + init && with[|a| + |b|] == last;
      assert without[..|a| + |b| - 1] == a + init && without[|a| + |b| - 1] == last;
    }
  }

  // ---- The same for requests ----------------------------------------------------------------------------

  /** A request that the server executed at an instant. */
  datatype Executed = Executed(at: Time, r: Request)

  function CommandsOf(h: seq<Executed>): (cmds: seq<Timed>)
    ensures |cmds| == |h|
    ensures forall i :: 0 <= i < |h| ==> cmds[i] == Timed(h[i].at, CommandFor(h[i].r))
  {
    if h == [] then []
    else CommandsOf(h[..|h| - 1]) + [Timed(h[|h| - 1].at, CommandFor(h[|h| - 1].r))]
  }

  /** Requests in time order, with the time-to-live that the manager insists on. */
  ghost predicate RequestHistory(h: seq<Executed>) {
    && (forall i, j :: 0 <= i < j < |h| ==> h[i].at <= h[j].at)
    && (forall i :: 0 <= i < |h| && h[i].r.TryMark? ==> 0 < h[i].r.ttl)
  }

  /** The server's answer to the i-th request. */
  function AnswerTo(h: seq<Executed>, i: nat): bool
    requires i < |h|
  {
    Reply(CommandsOf(h), i)
  }

  lemma CommandsAreDedupe(h: seq<Executed>)
    requires RequestHistory(h)
    ensures DedupeHistory(CommandsOf(h))
  {
  }

  lemma {:induction false} CommandsPrefix(h: seq<Executed>, n: nat)
    requires n <= |h|
    ensures CommandsOf(h[..n]) == CommandsOf(h)[..n]
  {
    assert forall i :: 0 <= i < n ==> CommandsOf(h[..n])[i] == CommandsOf(h)[i];
  }

  /** An accepted TryMark that is not cleared before request n, and whose time-to-live in whole milliseconds,
      one at least, is not over at instant t. */
  predicate Covers(h: seq<Executed>, i: nat, n: nat, k: Key, t: Time)
    requires i < n <= |h|
  {
    && h[i].r.TryMark? && h[i].r.key == k && AnswerTo(h, i)
    && t - h[i].at < (if h[i].r.ttl < 1_000_000 then 1_000_000 else h[i].r.ttl - h[i].r.ttl % 1_000_000)
    && forall j :: i < j < n ==> h[j].r != Clear(k)
  }

  lemma CoversMeans(h: seq<Executed>, n: nat, k: Key, t: Time)
    requires RequestHistory(h) && n <= |h|
    ensures Covered(CommandsOf(h)[..n], k, t) <==> exists i :: 0 <= i < n && Covers(h, i, n, k, t)
  {
    var cmds := CommandsOf(h);
    var init := cmds[..n];
    forall i | 0 <= i < n
      ensures Accepts(init, i, k) && t < init[i].at + init[i].cmd.span && !ClearedAfter(init, i, k) <==> Covers(h, i, n, k, t)
    {
      PrefixAgrees(cmds, n, i, k);
      if h[i].r.TryMark? { SpanValues(h[i].r.ttl); }
      assert forall j :: i < j < n ==> (init[j].cmd == Delete(k) <==> h[j].r == Clear(k));
    }
  }

  /** In every history of requests: a TryMark is accepted if and only if no accepted TryMark of its key,
      uncleared, is within its own time-to-live, and Marked answers true if and only if one is. */
  lemma RequestAnswered(h: seq<Executed>, n: nat)
    requires RequestHistory(h) && n < |h| && !h[n].r.Clear?
    ensures (if h[n].r.TryMark? then !AnswerTo(h, n) else AnswerTo(h, n))
            <==> exists i :: 0 <= i < n && Covers(h, i, n, h[n].r.key, h[n].at)
  {
    var cmds := CommandsOf(h);
    CommandsAreDedupe(h);
    HistoryPrefix(cmds, n);
    LiveIffCovered(cmds[..n], h[n].r.key, h[n].at);
    CoversMeans(h, n, h[n].r.key, h[n].at);
  }

  /** Two accepted TryMarks of one key with no Clear between them are more than the first one's time-to-live
      less a millisecond apart, and at least a millisecond. */
  lemma AcceptedTryMarksApart(h: seq<Executed>, i: nat, j: nat)
    requires RequestHistory(h) && i < j < |h| && h[i].r.TryMark? && h[j].r.TryMark? && h[i].r.key == h[j].r.key
    requires AnswerTo(h, i) && AnswerTo(h, j)
    requires forall m :: i < m < j ==> h[m].r != Clear(h[i].r.key)
    ensures h[i].r.ttl - 1_000_000 < h[j].at - h[i].at && 1_000_000 <= h[j].at - h[i].at
  {
    RequestAnswered(h, j);
    assert !Covers(h, i, j, h[i].r.key, h[j].at);
  }

  /** Leaving out a Marked changes no answer to a later request. */
  lemma {:induction false} MarkedIsInvisible(a: seq<Executed>, ask: Executed, b: seq<Executed>)
    requires ask.r.Marked? && b != []
    ensures AnswerTo(a + [ask] + b, |a| + |b|) == AnswerTo(a + b, |a| + |b| - 1)
  {
    var cmd := Timed(ask.at, Exists(ask.r.key));
    MarkedChangesNothing(CommandsOf(a), cmd, CommandsOf(b));
    CommandsConcat(a + [ask], b);
    CommandsConcat(a, [ask]);
    CommandsConcat(a, b);
    CommandsOne(ask);
  }

  lemma CommandsOne(x: Executed)
    ensures CommandsOf([x]) == [Timed(x.at, CommandFor(x.r))]
  {
    var cmds := CommandsOf([x]);
    assert cmds == [cmds[0]];
  }

  lemma CommandsConcat(a: seq<Executed>, b: seq<Executed>)
    ensures CommandsOf(a + b) == CommandsOf(a) + CommandsOf(b)
  {
    var all := a + b;
    assert forall i :: 0 <= i < |a| ==> all[i] == a[i];
    assert forall i :: 0 <= i < |b| ==> all[|a| + i] == b[i];
  }
}
