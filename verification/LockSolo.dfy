/** The lock system's steps of one caller that nobody interrupts: they do what the methods of Lock,
    Manager and the retry loop promise, under every network outcome. */
module LockSolo {
  import opened Types
  import opened TtlStore
  import opened LockSystem
  import Q = KeyQueue
  import R = Retry

  // ---- Release and Refresh --------------------------------------------------------------------------------

  /** The server executes one command, and the client reads the answer. */
  function Answer(s: Sys, o: OpId, c: CallId, kind: OpKind): Sys {
    Step(Step(Step(s, BeginOp(o, c, kind)), ServeOp(o)), AdvanceOp(o, OpReply))
  }

  /** The command or its answer is lost, and the client sees an error. */
  function Fail(s: Sys, o: OpId, c: CallId, kind: OpKind, net: Net): Sys {
    Step(Step(Step(s, BeginOp(o, c, kind)), if net.CommandLost? then AdvanceOp(o, DropOp) else ServeOp(o)),
         AdvanceOp(o, OpFails))
  }

  /** finalizeOnce up to the return of the slot, and after it. */
  function Close(s: Sys, o: OpId): Sys {
    Step(Step(Step(s, AdvanceFin(o, EnterFinalize)), AdvanceFin(o, SetReleased)), AdvanceFin(o, CloseStop))
  }

  function Free(s: Sys, o: OpId): Sys {
    Step(Step(s, FreeSlot(o)), AdvanceOp(o, EndOp))
  }

  predicate Pending(s: Sys, o: OpId) {
    o in s.ops && s.ops[o].pc.Finalizing?
  }

  /** One whole Release or Refresh. */
  function SoloOp(s: Sys, o: OpId, c: CallId, kind: OpKind, net: Net): Sys
    requires c in s.calls
  {
    if IsReleased(s.calls[c]) then Step(s, BeginOp(o, c, kind))
    else if !net.Delivered? then Fail(s, o, c, kind, net)
    else
      var t := Answer(s, o, c, kind);
      if Pending(t, o) then Free(Close(t, o), o) else t
  }

  /** The handle is held and no other operation is finalising it; the operation is a new one. */
  predicate Ready(s: Sys, o: OpId, c: CallId) {
    c in s.calls && s.calls[c].pc.Holding? && (s.calls[c].fin.Unfinished? || s.calls[c].fin.Finished?) && o !in s.ops
  }

  /** A script on the server, executed or lost. */
  lemma OpReaches(s: Sys, o: OpId, net: Net)
    requires o in s.ops && s.ops[o].call in s.calls && s.ops[o].pc.Sent? && s.ops[o].wire
    ensures var (c, kind) := (s.ops[o].call, s.ops[o].kind);
            Step(s, if net.CommandLost? then AdvanceOp(o, DropOp) else ServeOp(o))
            == s.(store := StoreAfter(s, c, kind, net),
                  ops := s.ops[o := s.ops[o].(wire := false,
                                              pc := if net.CommandLost? then Sent
                                                    else Replied(Owns(s.store, s.calls[c].slot.key, c, s.now)))])
  {
  }

  /** The server's store after one script of c's handle. */
  function StoreAfter(s: Sys, c: CallId, kind: OpKind, net: Net): Store
    requires c in s.calls
  {
    var k := s.calls[c].slot.key;
    if net.CommandLost? || !Owns(s.store, k, c, s.now) then s.store
    else if kind.Release? || kind.ttl < MILLISECOND then s.store - {k}
    else s.store[k := Entry(c, s.now + RefreshSpan(kind.ttl))]
  }

  function Begun(s: Sys, o: OpId, c: CallId, kind: OpKind): Sys {
    s.(ops := s.ops[o := Op(c, kind, Sent, true, s.now)])
  }

  lemma Answering(s: Sys, o: OpId, c: CallId, kind: OpKind)
    requires Ready(s, o, c) && s.calls[c].fin.Unfinished?
    ensures var owned := Owns(s.store, s.calls[c].slot.key, c, s.now);
            Answer(s, o, c, kind)
            == s.(store := StoreAfter(s, c, kind, Delivered),
                  ops := s.ops[o := Op(c, kind, if owned && kind.Refresh? then Returned(Nil) else Finalizing(owned),
                                       false, s.now)])
  {
    var s1 := Begun(s, o, c, kind);
    assert Step(s, BeginOp(o, c, kind)) == s1;
    OpReaches(s1, o, Delivered);
    OpReads(Step(s1, ServeOp(o)), o);
  }

  lemma OpReads(s: Sys, o: OpId)
    requires o in s.ops && s.ops[o].pc.Replied?
    ensures var held := s.ops[o].pc.held;
            Step(s, AdvanceOp(o, OpReply))
            == s.(ops := s.ops[o := s.ops[o].(pc := if held && s.ops[o].kind.Refresh? then Returned(Nil)
                                                    else Finalizing(held))])
  {
  }

  lemma Failing(s: Sys, o: OpId, c: CallId, kind: OpKind, net: Net)
    requires Ready(s, o, c) && s.calls[c].fin.Unfinished? && !net.Delivered?
    ensures Fail(s, o, c, kind, net)
            == s.(store := StoreAfter(s, c, kind, net), ops := s.ops[o := Op(c, kind, Returned(Failed), false, s.now)])
  {
    var s1 := Begun(s, o, c, kind);
    assert Step(s, BeginOp(o, c, kind)) == s1;
    OpReaches(s1, o, net);
    OpErrs(Step(s1, if net.CommandLost? then AdvanceOp(o, DropOp) else ServeOp(o)), o);
  }

  lemma OpErrs(s: Sys, o: OpId)
    requires o in s.ops && (s.ops[o].pc.Sent? || s.ops[o].pc.Replied?)
    ensures Step(s, AdvanceOp(o, OpFails)) == s.(ops := s.ops[o := s.ops[o].(pc := Returned(Failed))])
  {
  }

  lemma Closing(s: Sys, o: OpId, c: CallId)
    requires c in s.calls && s.calls[c].pc.Holding? && s.calls[c].fin == Unfinished
    requires o in s.ops && s.ops[o].call == c && s.ops[o].pc.Finalizing?
    ensures Close(s, o) == s.(calls := s.calls[c := s.calls[c].(fin := Stopped(o))])
  {
    var s1 := Step(s, AdvanceFin(o, EnterFinalize));
    assert s1.calls == s.calls[c := s.calls[c].(fin := Entered(o))];
    var s2 := Step(s1, AdvanceFin(o, SetReleased));
    assert s2.calls == s.calls[c := s.calls[c].(fin := Flagged(o))];
  }

  lemma Freeing(s: Sys, o: OpId, c: CallId)
    requires c in s.calls && s.calls[c].pc.Holding? && s.calls[c].fin == Stopped(o)
    requires o in s.ops && s.ops[o].call == c && s.ops[o].pc.Finalizing?
    ensures var (x, s') := (s.calls[c].slot, Free(s, o));
            && s'.keys == Q.Release(s.keys, x).0
            && s'.store == s.store
            && c in s'.calls && s'.calls[c].fin == Finished
            && o in s'.ops && s'.ops[o].pc == Returned(if s.ops[o].pc.held then Nil else NotHeld)
  {
    HandOnCalls(SetFin(s, c, Finished), s.calls[c].slot, c);
    var s1 := Step(s, FreeSlot(o));
    assert s1.ops == s.ops && c in s1.calls && s1.calls[c].fin == Finished;
  }

  function ResultOf(s: Sys, c: CallId, net: Net): OpResult
    requires c in s.calls
  {
    if IsReleased(s.calls[c]) then AlreadyReleased
    else if !net.Delivered? then Failed
    else if Owns(s.store, s.calls[c].slot.key, c, s.now) then Nil else NotHeld
  }

  /** What a whole operation leaves: its answer, the handle's flag, the server's store and the queue. */
  predicate OpOutcome(s: Sys, s': Sys, o: OpId, c: CallId, kind: OpKind, net: Net)
    requires c in s.calls
  {
    var (was, result) := (IsReleased(s.calls[c]), ResultOf(s, c, net));
    var finalises := result.NotHeld? || (kind.Release? && result.Nil?);
    && c in s'.calls && o in s'.ops
    && s'.ops[o].pc == Returned(result)
    && (IsReleased(s'.calls[c]) <==> was || finalises)
    && s'.keys == (if finalises then Q.Release(s.keys, s.calls[c].slot).0 else s.keys)
    && s'.store == (if was then s.store else StoreAfter(s, c, kind, net))
  }

  /** Run without interruption, the steps of a Release or Refresh do what Lock.Release and Lock.Refresh
      promise, whatever the network does. */
  lemma {:induction false} SoloOpKeepsPromise(s: Sys, o: OpId, c: CallId, kind: OpKind, net: Net) returns (s': Sys)
    requires Ready(s, o, c)
    ensures s' == SoloOp(s, o, c, kind, net) && OpOutcome(s, s', o, c, kind, net)
  {
    s' := SoloOp(s, o, c, kind, net);
    if s.calls[c].fin.Finished? {
      RefusedAtOnce(s, o, c, kind);
    } else if !net.Delivered? {
      Failing(s, o, c, kind, net);
    } else {
      Answering(s, o, c, kind);
      Finishing(Answer(s, o, c, kind), o, c);
    }
  }

  lemma RefusedAtOnce(s: Sys, o: OpId, c: CallId, kind: OpKind)
    requires Ready(s, o, c) && IsReleased(s.calls[c])
    ensures Step(s, BeginOp(o, c, kind)) == s.(ops := s.ops[o := Op(c, kind, Returned(AlreadyReleased), false, s.now)])
  {
  }

  lemma Finishing(t: Sys, o: OpId, c: CallId)
    requires c in t.calls && t.calls[c].pc.Holding? && t.calls[c].fin == Unfinished
    requires Pending(t, o) ==> t.ops[o].call == c
    ensures Pending(t, o) ==>
              var s' := Free(Close(t, o), o);
              && c in s'.calls && s'.calls[c].fin.Finished? && o in s'.ops
              && s'.ops[o].pc == Returned(if t.ops[o].pc.held then Nil else NotHeld)
              && s'.keys == Q.Release(t.keys, t.calls[c].slot).0 && s'.store == t.store
  {
    if Pending(t, o) {
      Closing(t, o, c);
      Freeing(Close(t, o), o, c);
    }
  }

  // ---- Waiting for the slot ----------------------------------------------------------------------------------

  /** Acquire takes a free slot, and joins the end of the line of a held one. */
  lemma SlotOrLine(s: Sys, c: CallId, x: Slot, ttl: int)
    requires Q.AllHeld(s.keys) && c !in s.calls && 0 < ttl
    ensures var t := Step(s, Acquire(c, x, ttl));
            && c in t.calls && t.calls[c].slot == x && t.calls[c].ttl == ttl && !t.calls[c].single && t.store == s.store
            && (x !in s.keys ==> t.calls[c].pc == Owning && t.keys == s.keys[x := Q.KeyState(true, [])])
            && (x in s.keys ==> t.calls[c].pc == Waiting(Queued)
                                && t.keys == s.keys[x := Q.KeyState(true, s.keys[x].waiters + [c])])
  {
  }

  /** The first in line is woken by the return of the slot, and then has it. */
  lemma HandedOffWakes(s: Sys, c: CallId, w: CallId)
    requires c in s.calls && s.calls[c].pc.Returning? && s.calls[c].slot in s.keys
    requires var ws := s.keys[s.calls[c].slot].waiters; ws != [] && ws[0] == w
    requires w in s.calls && w != c && s.calls[w].pc == Waiting(Queued)
    ensures var x := s.calls[c].slot;
            var t := Step(Step(Step(s, ReturnSlot(c)), Advance(w, CloseWaiter)), Advance(w, Wake));
            && w in t.calls && t.calls[w].pc == Owning && t.store == s.store
            && t.keys == s.keys[x := Q.KeyState(s.keys[x].held, s.keys[x].waiters[1..])]
  {
    var t := Step(s, ReturnSlot(c));
    assert w in t.calls && t.calls[w] == s.calls[w].(pc := Waiting(Popped)) && t.store == s.store;
    Wakes(t, w);
  }

  lemma Wakes(t: Sys, w: CallId)
    requires w in t.calls && t.calls[w].pc == Waiting(Popped)
    ensures Step(Step(t, Advance(w, CloseWaiter)), Advance(w, Wake))
            == t.(calls := t.calls[w := t.calls[w].(pc := Owning)])
  {
    var u := Step(t, Advance(w, CloseWaiter));
    assert u == t.(calls := t.calls[w := t.calls[w].(pc := Waiting(Closed))]);
  }

  /** A waiter that the context cancels leaves the line, and nothing else changes. */
  lemma CancelLeavesLine(s: Sys, c: CallId)
    requires c in s.calls && s.calls[c].pc == Waiting(Queued) && s.calls[c].slot in s.keys && Q.AllHeld(s.keys)
    ensures var x := s.calls[c].slot;
            var t := Step(Step(s, Advance(c, CtxDone)), RemoveWaiter(c));
            && c in t.calls && t.calls[c].pc == Gone(Cancelled) && t.store == s.store
            && t.keys == s.keys[x := Q.KeyState(true, Q.Without(s.keys[x].waiters, c))]
  {
    var u := Step(s, Advance(c, CtxDone));
    assert u == s.(calls := s.calls[c := s.calls[c].(pc := Leaving(Queued))]);
  }

  // ---- TryLock ------------------------------------------------------------------------------------------------

  /** One backend Acquire by the owner of a slot, up to the client's reading of the answer or error. */
  function SoloAsk(s: Sys, c: CallId, net: Net): Sys {
    Step(Step(Step(s, Advance(c, Ask)), if net.CommandLost? then Advance(c, DropAcquire) else ServeAcquire(c)),
         Advance(c, if net.Delivered? then AcquireReply else AcquireFails))
  }

  /** The deferred return, when it is due. */
  function GiveBackIfDue(s: Sys, c: CallId): Sys {
    if c in s.calls && s.calls[c].pc.Returning? then Step(s, ReturnSlot(c)) else s
  }

  /** TryLock from its slot on: a call without a token gives up. */
  function SoloTryWithSlot(s: Sys, c: CallId, token: bool, net: Net): Sys {
    GiveBackIfDue(if token then SoloAsk(s, c, net) else Step(s, Advance(c, GiveUp)), c)
  }

  function SoloTry(s: Sys, c: CallId, x: Slot, ttl: int, token: bool, net: Net): Sys {
    var t := Step(s, TryLock(c, x, ttl));
    if c in t.calls && t.calls[c].pc.Owning? then SoloTryWithSlot(t, c, token, net) else t
  }

  /** The SETNX as its call leaves it, executed by the server or lost. */
  lemma Reaches(s: Sys, c: CallId, net: Net)
    requires c in s.calls && s.calls[c].pc.Asking? && s.calls[c].wire
    ensures var free := !Live(s.store, s.calls[c].slot.key, s.now);
            Step(s, if net.CommandLost? then Advance(c, DropAcquire) else ServeAcquire(c))
            == s.(store := if net.CommandLost? || !free then s.store
                           else s.store[s.calls[c].slot.key := Entry(c, s.now + StoredSpan(s.calls[c].ttl))],
                  calls := s.calls[c := s.calls[c].(wire := false,
                                                    pc := if net.CommandLost? then Asking else Answered(free))])
  {
  }

  lemma Asked(s: Sys, c: CallId, net: Net)
    requires c in s.calls && s.calls[c].pc.Owning?
    ensures var (s', call, x) := (SoloAsk(s, c, net), s.calls[c], s.calls[c].slot);
            var free := !Live(s.store, x.key, s.now);
            s' == s.(store := if net.CommandLost? || !free then s.store
                              else s.store[x.key := Entry(c, s.now + StoredSpan(call.ttl))],
                     calls := s.calls[c := call.(wire := false, sentAt := s.now, pc := PcAsked(call, net, free))])
  {
    var call := s.calls[c];
    var sent := call.(pc := Asking, wire := true, sentAt := s.now);
    var s1 := s.(calls := s.calls[c := sent]);
    assert Step(s, Advance(c, Ask)) == s1;
    Reaches(s1, c, net);
    var s2 := Step(s1, if net.CommandLost? then Advance(c, DropAcquire) else ServeAcquire(c));
    Reads(s2, c, net);
    assert s.calls[c := sent][c := s2.calls[c]] == s.calls[c := s2.calls[c]];
  }

  function PcAsked(call: Call, net: Net, free: bool): Pc {
    if !net.Delivered? then Returning else if free then Holding else if call.single then Returning else Owning
  }

  lemma Reads(s: Sys, c: CallId, net: Net)
    requires c in s.calls && (if net.CommandLost? then s.calls[c].pc.Asking? else s.calls[c].pc.Answered?)
    ensures Step(s, Advance(c, if net.Delivered? then AcquireReply else AcquireFails))
            == s.(calls := s.calls[c := s.calls[c].(pc := PcAsked(s.calls[c], net, s.calls[c].pc == Answered(true)))])
  {
  }

  lemma GivenBack(s: Sys, c: CallId)
    requires c in s.calls && s.calls[c].pc.Returning?
    ensures var s' := Step(s, ReturnSlot(c));
            && s'.keys == Q.Release(s.keys, s.calls[c].slot).0 && s'.store == s.store && s'.now == s.now
            && c in s'.calls && s'.calls[c].pc == Gone(GaveBack)
  {
    HandOnCalls(SetPc(s, c, Gone(GaveBack)), s.calls[c].slot, c);
  }

  lemma GaveUp(s: Sys, c: CallId)
    requires c in s.calls && s.calls[c].pc.Owning?
    ensures var s' := GiveBackIfDue(Step(s, Advance(c, GiveUp)), c);
            && s'.keys == Q.Release(s.keys, s.calls[c].slot).0 && s'.store == s.store && s'.now == s.now
            && c in s'.calls && s'.calls[c].pc == Gone(GaveBack)
  {
    var u := s.(calls := s.calls[c := s.calls[c].(pc := Returning)]);
    assert Step(s, Advance(c, GiveUp)) == u;
    GivenBack(u, c);
  }

  lemma TryingWithSlot(s: Sys, c: CallId, token: bool, net: Net)
    requires c in s.calls && s.calls[c].pc.Owning? && s.calls[c].single
    ensures Tried(s, SoloTryWithSlot(s, c, token, net), c, token, net)
  {
    if token {
      Asked(s, c, net);
      var u := SoloAsk(s, c, net);
      if u.calls[c].pc.Returning? { GivenBack(u, c); }
    } else {
      GaveUp(s, c);
    }
  }

  /** A whole TryLock: it holds exactly when slot, token, network and key allow it, and then owns the
      entry; otherwise the queue is as it was. */
  ghost predicate TryOutcome(s: Sys, s': Sys, c: CallId, x: Slot, ttl: int, token: bool, net: Net) {
    var free := !Live(s.store, x.key, s.now);
    && c in s'.calls
    && (s'.calls[c].pc.Holding? <==> x !in s.keys && token && net.Delivered? && free)
    && (!s'.calls[c].pc.Holding? ==> s'.calls[c].pc == Gone(if x in s.keys then Refused else GaveBack))
    && s'.keys == (if s'.calls[c].pc.Holding? then s.keys[x := Q.KeyState(true, [])] else s.keys)
    && s'.store == (if x in s.keys || !token || net.CommandLost? || !free then s.store
                    else s.store[x.key := Entry(c, s.now + StoredSpan(ttl))])
  }

  /** Run without interruption, the steps of TryLock do what Manager.TryLock promises, whatever the
      network does. */
  lemma {:induction false} SoloTryKeepsPromise(s: Sys, c: CallId, x: Slot, ttl: int, token: bool, net: Net)
    returns (s': Sys)
    requires Q.AllHeld(s.keys) && c !in s.calls && 0 < ttl
    ensures s' == SoloTry(s, c, x, ttl, token, net) && TryOutcome(s, s', c, x, ttl, token, net)
  {
    s' := SoloTry(s, c, x, ttl, token, net);
    Q.TakeAndGiveBack(s.keys, x);
    if x in s.keys {
      RefusedLocally(s, c, x, ttl);
    } else {
      SlotTaken(s, c, x, ttl);
      TakenThenTried(s, Step(s, TryLock(c, x, ttl)), c, x, ttl, token, net);
    }
  }

  lemma TakenThenTried(s: Sys, t: Sys, c: CallId, x: Slot, ttl: int, token: bool, net: Net)
    requires x !in s.keys && t.keys == s.keys[x := Q.KeyState(true, [])] && t.store == s.store && t.now == s.now
    requires c in t.calls && t.calls[c] == Call(x, ttl, true, Owning, false, s.now, Unfinished)
    ensures TryOutcome(s, SoloTryWithSlot(t, c, token, net), c, x, ttl, token, net)
  {
    TryingWithSlot(t, c, token, net);
    ReleasedAgain(s.keys, x);
    TriedMeans(s, t, SoloTryWithSlot(t, c, token, net), c, x, ttl, token, net);
  }

  lemma ReleasedAgain(keys: map<Slot, Q.KeyState>, x: Slot)
    requires x !in keys
    ensures Q.Release(keys[x := Q.KeyState(true, [])], x).0 == keys
  {
    assert keys[x := Q.KeyState(true, [])] - {x} == keys;
  }

  /** What the taken slot and the one backend call make of a TryLock. */
  predicate Tried(t: Sys, s': Sys, c: CallId, token: bool, net: Net)
    requires c in t.calls
  {
    var (call, x) := (t.calls[c], t.calls[c].slot);
    var free := !Live(t.store, x.key, t.now);
    && c in s'.calls
    && s'.calls[c].pc == (if token && net.Delivered? && free then Holding else Gone(GaveBack))
    && s'.keys == (if s'.calls[c].pc.Holding? then t.keys else Q.Release(t.keys, x).0)
    && s'.store == (if !token || net.CommandLost? || !free then t.store
                    else t.store[x.key := Entry(c, t.now + StoredSpan(call.ttl))])
  }

  lemma TriedMeans(s: Sys, t: Sys, s': Sys, c: CallId, x: Slot, ttl: int, token: bool, net: Net)
    requires x !in s.keys && t.store == s.store && t.now == s.now && t.keys == s.keys[x := Q.KeyState(true, [])]
    requires Q.Release(t.keys, x).0 == s.keys
    requires c in t.calls && t.calls[c].slot == x && t.calls[c].ttl == ttl && Tried(t, s', c, token, net)
    ensures TryOutcome(s, s', c, x, ttl, token, net)
  {
  }

  lemma RefusedLocally(s: Sys, c: CallId, x: Slot, ttl: int)
    requires Q.AllHeld(s.keys) && c !in s.calls && 0 < ttl && x in s.keys
    ensures var s' := Step(s, TryLock(c, x, ttl));
            s'.keys == s.keys && s'.store == s.store && c in s'.calls && s'.calls[c].pc == Gone(Refused)
  {
    Q.TakeAndGiveBack(s.keys, x);
  }

  lemma SlotTaken(s: Sys, c: CallId, x: Slot, ttl: int)
    requires Q.AllHeld(s.keys) && c !in s.calls && 0 < ttl && x !in s.keys
    ensures var s' := Step(s, TryLock(c, x, ttl));
            && s'.keys == s.keys[x := Q.KeyState(true, [])] && s'.store == s.store && s'.now == s.now
            && c in s'.calls && s'.calls[c] == Call(x, ttl, true, Owning, false, s.now, Unfinished)
  {
    Q.TakeAndGiveBack(s.keys, x);
  }

  // ---- The retry loop --------------------------------------------------------------------------------------------

  /** n refused attempts, each followed by its wait. */
  function Attempts(s: Sys, c: CallId, st: R.Strategy, n: nat): Sys {
    if n == 0 then s
    else Step(SoloAsk(Attempts(s, c, st, n - 1), c, Delivered), Elapse(R.TotalWait(st, n) - R.TotalWait(st, n - 1)))
  }

  /** The answers that attempt n gets when nobody else acts: time alone can free the key. */
  ghost predicate AnswersOf(s: Sys, c: CallId, st: R.Strategy, nets: nat -> Net, answers: nat -> R.Answer)
    requires c in s.calls
  {
    forall n :: answers(n) == if !nets(n).Delivered? then R.Broken
                              else if Live(s.store, s.calls[c].slot.key, s.now + R.TotalWait(st, n)) then R.Busy
                              else R.Granted
  }

  lemma {:induction false} AttemptsWait(s: Sys, c: CallId, st: R.Strategy, n: nat)
    requires c in s.calls && s.calls[c].pc.Owning? && !s.calls[c].single && !s.calls[c].wire
    requires forall i :: 0 <= i < n ==> Live(s.store, s.calls[c].slot.key, s.now + R.TotalWait(st, i))
    ensures var t := Attempts(s, c, st, n); OnlyWaited(s, t, c) && t.now == s.now + R.TotalWait(st, n)
  {
    if n > 0 {
      AttemptsWait(s, c, st, n - 1);
      Asked(Attempts(s, c, st, n - 1), c, Delivered);
    }
  }

  lemma BusyWhileLive(s: Sys, c: CallId, st: R.Strategy, nets: nat -> Net, answers: nat -> R.Answer,
                      cancelled: nat -> Option<nat>, last: nat)
    requires c in s.calls && AnswersOf(s, c, st, nets, answers)
    requires forall n :: 0 <= n < last ==> R.GoesOn(st, answers, cancelled, n)
    ensures forall n :: 0 <= n < last ==> Live(s.store, s.calls[c].slot.key, s.now + R.TotalWait(st, n))
  {
    forall n | 0 <= n < last ensures Live(s.store, s.calls[c].slot.key, s.now + R.TotalWait(st, n)) {
      assert R.GoesOn(st, answers, cancelled, n);
    }
  }

  /** The last part of Acquire: the deciding attempt, and the deferred return when it is due. */
  function SoloEnd(s: Sys, c: CallId, outcome: R.Outcome, net: Net): Sys {
    GiveBackIfDue(GiveUpIfOwning(if outcome.NoToken? then s else SoloAsk(s, c, net), c), c)
  }

  /** Without a token, or refused for the last time, the call gives up. */
  function GiveUpIfOwning(s: Sys, c: CallId): Sys {
    if c in s.calls && s.calls[c].pc.Owning? then Step(s, Advance(c, GiveUp)) else s
  }

  /** Acquire from its slot on, without interruption, for every network outcome of every attempt and every
      cancellation: with the outcome and number of calls that Retry.AcquireWithSlot promises, the
      system's steps lead to a handle exactly if that is Locked, and otherwise give the slot back. */
  lemma {:induction false} SoloAcquireKeepsPromise(s: Sys, c: CallId, st: R.Strategy, nets: nat -> Net,
                                                   answers: nat -> R.Answer, cancelled: nat -> Option<nat>,
                                                   outcome: R.Outcome, calls: nat)
    returns (net: Net, t: Sys, s': Sys)
    requires c in s.calls && s.calls[c].pc.Owning? && !s.calls[c].single && !s.calls[c].wire
    requires AnswersOf(s, c, st, nets, answers)
    requires if calls == 0 then outcome == R.NoToken
             else outcome == R.Verdict(st, answers, calls - 1)
                  && forall n :: 0 <= n < calls - 1 ==> R.GoesOn(st, answers, cancelled, n)
    ensures net == nets(Last(calls)) && t == Attempts(s, c, st, Last(calls)) && s' == SoloEnd(t, c, outcome, net)
    ensures AcquireOutcome(s, s', c, outcome, net, t.now) && t.now == s.now + R.TotalWait(st, Last(calls))
  {
    BusyWhileLive(s, c, st, nets, answers, cancelled, Last(calls));
    VerdictDecides(s, c, st, nets, answers, outcome, calls);
    AttemptsWait(s, c, st, Last(calls));
    net, t := nets(Last(calls)), Attempts(s, c, st, Last(calls));
    s' := EndFrom(s, t, c, outcome, net);
  }

  /** The number of the deciding attempt. */
  function Last(calls: nat): nat {
    if calls == 0 then 0 else calls - 1
  }

  lemma VerdictDecides(s: Sys, c: CallId, st: R.Strategy, nets: nat -> Net, answers: nat -> R.Answer,
                       outcome: R.Outcome, calls: nat)
    requires c in s.calls && AnswersOf(s, c, st, nets, answers)
    requires if calls == 0 then outcome == R.NoToken else outcome == R.Verdict(st, answers, calls - 1)
    ensures Decides(outcome, nets(Last(calls)), Live(s.store, s.calls[c].slot.key, s.now + R.TotalWait(st, Last(calls))))
  {
  }

  /** t is s after some waiting of c. */
  predicate OnlyWaited(s: Sys, t: Sys, c: CallId) {
    && c in s.calls && c in t.calls && t.keys == s.keys && t.store == s.store
    && t.calls[c] == s.calls[c].(sentAt := t.calls[c].sentAt)
  }

  lemma EndFrom(s: Sys, t: Sys, c: CallId, outcome: R.Outcome, net: Net) returns (s': Sys)
    requires OnlyWaited(s, t, c) && s.calls[c].pc.Owning? && !s.calls[c].single
    requires Decides(outcome, net, Live(s.store, s.calls[c].slot.key, t.now))
    ensures s' == SoloEnd(t, c, outcome, net) && AcquireOutcome(s, s', c, outcome, net, t.now)
  {
    s' := SoloEnd(t, c, outcome, net);
    EndKeepsPromise(t, c, outcome, net);
    SameOutcome(s, t, s', c, outcome, net);
  }

  lemma SameOutcome(s: Sys, t: Sys, s': Sys, c: CallId, outcome: R.Outcome, net: Net)
    requires OnlyWaited(s, t, c)
    requires AcquireOutcome(t, s', c, outcome, net, t.now)
    ensures AcquireOutcome(s, s', c, outcome, net, t.now)
  {
  }

  /** What the last attempt met, by the outcome. */
  predicate Decides(outcome: R.Outcome, net: Net, live: bool) {
    match outcome
    case NoToken => true
    case Locked => net.Delivered? && !live
    case BackendError => !net.Delivered?
    case _ => net.Delivered? && live
  }

  /** The state in which Acquire returns, after its last backend call at instant `at`. */
  predicate AcquireOutcome(s: Sys, s': Sys, c: CallId, outcome: R.Outcome, net: Net, at: Time)
    requires c in s.calls
  {
    var x := s.calls[c].slot;
    && c in s'.calls
    && s'.calls[c].pc == (if outcome.Locked? then Holding else Gone(GaveBack))
    && s'.keys == (if outcome.Locked? then s.keys else Q.Release(s.keys, x).0)
    && s'.now == at
    && s'.store == (if outcome.NoToken? || net.CommandLost? || Live(s.store, x.key, at) then s.store
                    else s.store[x.key := Entry(c, at + StoredSpan(s.calls[c].ttl))])
  }

  /** The deciding attempt. */
  lemma EndKeepsPromise(s: Sys, c: CallId, outcome: R.Outcome, net: Net)
    requires c in s.calls && s.calls[c].pc.Owning? && !s.calls[c].single
    requires Decides(outcome, net, Live(s.store, s.calls[c].slot.key, s.now))
    ensures AcquireOutcome(s, SoloEnd(s, c, outcome, net), c, outcome, net, s.now)
  {
    if outcome.NoToken? {
      GaveUp(s, c);
    } else {
      Asked(s, c, net);
      var asked := SoloAsk(s, c, net);
      if outcome.BackendError? {
        GivenBack(asked, c);
      } else if !outcome.Locked? {
        GaveUp(asked, c);
      }
    }
  }
}
