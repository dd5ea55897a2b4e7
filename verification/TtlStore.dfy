/** The Redis server as seen by the lock backend and the deduplicator: a map of expiring
    entries driven by atomic, time-stamped commands. */
module TtlStore {
  import opened Types

  type Time = nat

  /** `until` is the instant from which the entry no longer exists. */
  datatype Entry = Entry(value: nat, until: int)

  type Store = map<Key, Entry>

  predicate Live(s: Store, k: Key, now: Time) {
    k in s && now < s[k].until
  }

  predicate Owns(s: Store, k: Key, v: nat, now: Time) {
    Live(s, k, now) && s[k].value == v
  }

  datatype Command =
    | SetNx(key: Key, value: nat, span: int)
    | CompareDelete(key: Key, value: nat)
    | CompareExpire(key: Key, value: nat, span: int)
    | Delete(key: Key)
    | Exists(key: Key)

  datatype Timed = Timed(at: Time, cmd: Command)

  /** One command: the new store, and whether the server answers "done". PEXPIRE with a
      non-positive span deletes the key and still answers "done". */
  function Serve(s: Store, t: Timed): (Store, bool) {
    match t.cmd
    case SetNx(k, v, span) =>
      if Live(s, k, t.at) then (s, false) else (s[k := Entry(v, t.at + span)], true)
    case CompareDelete(k, v) =>
      if Owns(s, k, v, t.at) then (s - {k}, true) else (s, false)
    case CompareExpire(k, v, span) =>
      if !Owns(s, k, v, t.at) then (s, false)
      else if span <= 0 then (s - {k}, true)
      else (s[k := Entry(v, t.at + span)], true)
    case Delete(k) => (s - {k}, Live(s, k, t.at))
    case Exists(k) => (s, Live(s, k, t.at))
  }

  /** SET ... NX PX rounds a positive duration below one millisecond up to one, and truncates
      every other one to whole milliseconds. */
  function StoredSpan(ttl: int): int {
    if 0 < ttl < MILLISECOND then MILLISECOND else RefreshSpan(ttl)
  }

  /** Duration.Milliseconds: truncation toward zero. */
  function RefreshSpan(ttl: int): int {
    if 0 <= ttl then ttl / MILLISECOND * MILLISECOND else -((-ttl) / MILLISECOND * MILLISECOND)
  }

  /** The spans in numbers. From a millisecond on both are the duration rounded down to whole
      milliseconds; below it SET NX stores one millisecond, and a refresh asks for no positive span. */
  lemma SpanValues(ttl: int)
    ensures 1_000_000 <= ttl ==>
              StoredSpan(ttl) == RefreshSpan(ttl) == ttl - ttl % 1_000_000 && ttl - 1_000_000 < StoredSpan(ttl) <= ttl
    ensures 0 < ttl < 1_000_000 ==> StoredSpan(ttl) == 1_000_000
    ensures ttl < 1_000_000 ==> RefreshSpan(ttl) <= 0
    ensures ttl < 0 ==> ttl <= RefreshSpan(ttl) < ttl + 1_000_000 && RefreshSpan(ttl) % 1_000_000 == 0
  {
  }

  // ---- Histories ----------------------------------------------------------------------

  function Exec(cmds: seq<Timed>): Store {
    if cmds == [] then map[] else Serve(Exec(cmds[..|cmds| - 1]), cmds[|cmds| - 1]).0
  }

  /** The server's answer to the i-th command of a history. */
  function Reply(cmds: seq<Timed>, i: nat): bool
    requires i < |cmds|
  {
    Serve(Exec(cmds[..i]), cmds[i]).1
  }

  ghost predicate Ordered(cmds: seq<Timed>) {
    forall i, j :: 0 <= i < j < |cmds| ==> cmds[i].at <= cmds[j].at
  }

  ghost predicate AllBefore(cmds: seq<Timed>, t: Time) {
    forall i :: 0 <= i < |cmds| ==> cmds[i].at <= t
  }

  /** One more command at the end of a history. */
  lemma ExecSnoc(cmds: seq<Timed>, last: Timed)
    requires Ordered(cmds) && AllBefore(cmds, last.at)
    ensures Exec(cmds + [last]) == Serve(Exec(cmds), last).0
    ensures Ordered(cmds + [last]) && AllBefore(cmds + [last], last.at)
  {
    assert (cmds + [last])[..|cmds|] == cmds;
  }

  /** Does a command, when answered "done", start, move or end a lease of `v` on `k`? */
  predicate Concerns(c: Command, k: Key, v: nat) {
    match c
    case SetNx(key, value, _) => key == k && value == v
    case CompareDelete(key, value) => key == k && value == v
    case CompareExpire(key, value, _) => key == k && value == v
    case Delete(key) => key == k
    case Exists(_) => false
  }

  /** The instant a command, when answered "done", leaves as the end of the lease. */
  function LeaseEnd(t: Timed): int {
    match t.cmd
    case SetNx(_, _, span) => t.at + span
    case CompareExpire(_, _, span) => if span <= 0 then t.at else t.at + span
    case _ => t.at
  }

  /** The lease of `v` on `k` at instant `t`, read off commands and answers alone: the latest
      successful command about it up to `t` leaves an end later than `t`. */
  predicate Held(cmds: seq<Timed>, k: Key, v: nat, t: Time) {
    if cmds == [] then false
    else
      var n := |cmds| - 1;
      if cmds[n].at <= t && Concerns(cmds[n].cmd, k, v) && Reply(cmds, n)
      then t < LeaseEnd(cmds[n])
      else Held(cmds[..n], k, v, t)
  }

  /** After the last command, the answered history and the store agree for all future time. */
  lemma {:induction false} HeldMatchesStore(cmds: seq<Timed>, k: Key, v: nat, t: Time)
    requires Ordered(cmds) && AllBefore(cmds, t)
    ensures Held(cmds, k, v, t) <==> Owns(Exec(cmds), k, v, t)
  {
    if cmds != [] {
      var n := |cmds| - 1;
      HeldMatchesStore(cmds[..n], k, v, t);
    }
  }

  /** Leases of one key never overlap: at every instant, past or future, at most one value holds it. */
  lemma {:induction false} LeaseExclusion(cmds: seq<Timed>, k: Key, a: nat, b: nat, t: Time)
    requires Ordered(cmds)
    requires Held(cmds, k, a, t) && Held(cmds, k, b, t)
    ensures a == b
  {
    var n := |cmds| - 1;
    if cmds[n].at <= t {
      HeldMatchesStore(cmds, k, a, t);
      HeldMatchesStore(cmds, k, b, t);
    } else {
      LeaseExclusion(cmds[..n], k, a, b, t);
    }
  }

  /** A compare-and-delete or compare-and-expire by a value that does not own the key is refused
      and leaves the store as it was; one by the owner is accepted. */
  lemma OnlyOwnerActs(s: Store, now: Time, k: Key, v: nat, span: int)
    ensures Serve(s, Timed(now, CompareDelete(k, v))).1 <==> Owns(s, k, v, now)
    ensures Serve(s, Timed(now, CompareExpire(k, v, span))).1 <==> Owns(s, k, v, now)
    ensures !Owns(s, k, v, now) ==>
              Serve(s, Timed(now, CompareDelete(k, v))).0 == s
              && Serve(s, Timed(now, CompareExpire(k, v, span))).0 == s
    ensures forall o: Key :: o != k ==>
              (Live(Serve(s, Timed(now, CompareDelete(k, v))).0, o, now) <==> Live(s, o, now))
              && (Live(Serve(s, Timed(now, CompareExpire(k, v, span))).0, o, now) <==> Live(s, o, now))
  {
  }

  /** A refresh by the owner is always answered "done", yet it keeps the lease alive exactly when
      the requested duration is at least one millisecond: a shorter one deletes the key. */
  lemma RefreshKeepsLeaseIff(s: Store, now: Time, k: Key, v: nat, ttl: int)
    requires Owns(s, k, v, now)
    ensures var (s', done) := Serve(s, Timed(now, CompareExpire(k, v, RefreshSpan(ttl))));
            done && (Owns(s', k, v, now) <==> ttl >= MILLISECOND)
  {
  }

  /** A client library that resends a command after a network error may have it executed twice. If the first
      execution was answered "done" and nothing came in between, the answer that the client sees
      stays "done" exactly when: for SET NX, the span is over by then; for compare-and-delete, never;
      for compare-and-expire, the span is positive and not over. */
  lemma ResentAnswer(s: Store, cmd: Command, now: Time, later: Time)
    requires now <= later && Serve(s, Timed(now, cmd)).1
    ensures var again := Serve(Serve(s, Timed(now, cmd)).0, Timed(later, cmd)).1;
            match cmd
            case SetNx(_, _, span) => again <==> now + span <= later
            case CompareDelete(_, _) => !again
            case CompareExpire(_, _, span) => again <==> later < now + span
            case _ => true
  {
  }

  // ---- The server behind a client connection -------------------------------------------------------------

  /** What the network does to one round trip. */
  datatype Net = Delivered | CommandLost | AnswerLost

  class RedisServer {
    var now: Time
    var store: Store
    /** The commands executed so far. */
    ghost var history: seq<Timed>

    ghost predicate Valid()
      reads this
    {
      Ordered(history) && AllBefore(history, now) && store == Exec(history)
    }

    constructor ()
      ensures Valid() && now == 0 && history == []
    {
      now, store, history := 0, map[], [];
    }

    method Wait(span: nat)
      requires Valid()
      modifies this`now
      ensures Valid() && now == old(now) + span
    {
      now := now + span;
    }

    /** None is an error, which does not tell whether the command was executed. */
    method RoundTrip(cmd: Command, net: Net) returns (answer: Option<bool>)
      requires Valid()
      modifies this`store, this`history
      ensures Valid()
      ensures history == if net.CommandLost? then old(history) else old(history) + [Timed(now, cmd)]
      ensures store == if net.CommandLost? then old(store) else Serve(old(store), Timed(now, cmd)).0
      ensures answer == if net.Delivered? then Some(Serve(old(store), Timed(now, cmd)).1) else None
    {
      if net.CommandLost? {
        return None;
      }
      var (s, done) := Serve(store, Timed(now, cmd));
      ExecSnoc(history, Timed(now, cmd));
      store, history := s, history + [Timed(now, cmd)];
      answer := if net.Delivered? then Some(done) else None;
    }
  }
}
