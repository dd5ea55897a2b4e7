/** Slot conservation: who holds a local slot, in every reachable state of the lock system. */
module LockSlots {
  import opened LockSystem
  import Q = KeyQueue

  /** A key is known to a manager iff its slot is held, and then it has a claimant; its waiters
      are distinct calls in line for it. */
  ghost predicate SlotOk(s: Sys, x: Slot) {
    && (x in s.keys <==> x in s.owner)
    && (x in s.keys ==>
          && s.keys[x].held
          && Q.Distinct(s.keys[x].waiters)
          && (forall c :: c in s.keys[x].waiters ==> c in s.calls && s.calls[c].slot == x && InLine(s.calls[c]))
          && s.owner[x] in s.calls
          && s.calls[s.owner[x]].slot == x
          && Claims(s.calls[s.owner[x]]))
  }

  /** A call in line is among its slot's waiters; a call that claims a slot is its only claimant. */
  ghost predicate CallOk(s: Sys, c: CallId) {
    c in s.calls ==>
      var call := s.calls[c];
      && (InLine(call) ==> call.slot in s.keys && c in s.keys[call.slot].waiters)
      && (Claims(call) ==> call.slot in s.owner && s.owner[call.slot] == c)
      && (!call.pc.Holding? ==> call.fin == Unfinished)
  }

  ghost predicate SlotInv(s: Sys) {
    && (forall x :: SlotOk(s, x))
    && (forall c :: CallOk(s, c))
  }

  /** Events that leave the queue alone and move one call without changing what it claims. */
  ghost predicate Retags(s: Sys, s': Sys, c: CallId) {
    && c in s.calls && c in s'.calls
    && s'.keys == s.keys && s'.owner == s.owner
    && s'.calls == s.calls[c := s'.calls[c]]
    && s'.calls[c].slot == s.calls[c].slot
    && InLine(s'.calls[c]) == InLine(s.calls[c]) && Claims(s'.calls[c]) == Claims(s.calls[c])
    && (!s'.calls[c].pc.Holding? ==> s'.calls[c].fin == Unfinished)
  }

  lemma Retag(s: Sys, s': Sys, c: CallId)
    requires SlotInv(s) && Retags(s, s', c)
    ensures SlotInv(s')
  {
    forall x ensures SlotOk(s', x) { assert SlotOk(s, x); }
    forall d ensures CallOk(s', d) { assert CallOk(s, d); }
  }

  /** `t` is `s` with the claimant `c` marked as having given its slot back. */
  ghost predicate GivesBack(s: Sys, t: Sys, c: CallId) {
    && c in s.calls && OwnsSlot(s.calls[c])
    && c in t.calls && t == s.(calls := s.calls[c := t.calls[c]])
    && t.calls[c].slot == s.calls[c].slot && !InLine(t.calls[c]) && !Claims(t.calls[c])
    && (!t.calls[c].pc.Holding? ==> t.calls[c].fin == Unfinished)
  }

  lemma ForgetKeeps(s: Sys, t: Sys, c: CallId)
    requires SlotInv(s) && GivesBack(s, t, c)
    requires CallOk(s, c) && Q.StateOf(s.keys, s.calls[c].slot).waiters == []
    ensures SlotInv(HandOn(t, s.calls[c].slot))
  {
    var s' := HandOn(t, s.calls[c].slot);
    assert SlotOk(s, s.calls[c].slot);
    forall y ensures SlotOk(s', y) { assert SlotOk(s, y); }
    forall d ensures CallOk(s', d) { assert CallOk(s, d); }
  }

  lemma PassOnKeeps(s: Sys, t: Sys, c: CallId)
    requires SlotInv(s) && GivesBack(s, t, c)
    requires CallOk(s, c) && Q.StateOf(s.keys, s.calls[c].slot).waiters != []
    ensures SlotInv(HandOn(t, s.calls[c].slot))
  {
    var x := s.calls[c].slot;
    var ws := Q.StateOf(s.keys, x).waiters;
    var s' := HandOn(t, x);
    assert SlotOk(s, x);
    TailMembers(ws);
    assert ws[0] in ws && ws[0] != c;
    assert s'.calls == s.calls[c := t.calls[c]][ws[0] := s.calls[ws[0]].(pc := Pop(s.calls[ws[0]].pc))];
    PassedOn(s, t, s', c);
  }

  /** `s'` is `s` after the first waiter has taken over from c. */
  lemma PassedOn(s: Sys, t: Sys, s': Sys, c: CallId)
    requires SlotInv(s) && GivesBack(s, t, c) && s.calls[c].slot in s.keys && s.keys[s.calls[c].slot].waiters != []
    requires var (x, ws) := (s.calls[c].slot, s.keys[s.calls[c].slot].waiters);
             && ws[0] in s.calls && ws[0] != c && Q.Distinct(ws[1..])
             && (forall v :: v in ws[1..] <==> v in ws && v != ws[0])
             && s'.keys == s.keys[x := Q.KeyState(true, ws[1..])] && s'.owner == s.owner[x := ws[0]]
             && s'.calls == s.calls[c := t.calls[c]][ws[0] := s.calls[ws[0]].(pc := Pop(s.calls[ws[0]].pc))]
    ensures SlotInv(s')
  {
    assert SlotOk(s, s.calls[c].slot) && CallOk(s, c);
    forall y ensures SlotOk(s', y) { assert SlotOk(s, y); }
    forall d ensures CallOk(s', d) { assert CallOk(s, d); }
  }

  /** `release` by the claimant keeps the invariant, whoever comes next. */
  lemma HandOnKeeps(s: Sys, t: Sys, c: CallId)
    requires SlotInv(s) && GivesBack(s, t, c)
    ensures SlotInv(HandOn(t, s.calls[c].slot))
  {
    assert CallOk(s, c) && SlotOk(s, s.calls[c].slot);
    if Q.StateOf(s.keys, s.calls[c].slot).waiters == [] {
      ForgetKeeps(s, t, c);
    } else {
      PassOnKeeps(s, t, c);
    }
  }

  lemma TailMembers(ws: seq<CallId>)
    requires Q.Distinct(ws) && ws != []
    ensures Q.Distinct(ws[1..])
    ensures forall v :: v in ws[1..] <==> v in ws && v != ws[0]
  {
    assert ws == [ws[0]] + ws[1..];
    assert ws[0] !in ws[1..];
  }

  lemma RemoveKeeps(s: Sys, c: CallId)
    requires SlotInv(s) && Enabled(s, RemoveWaiter(c))
    ensures SlotInv(Apply(s, RemoveWaiter(c)))
  {
    var x := s.calls[c].slot;
    var s' := Apply(s, RemoveWaiter(c));
    assert SlotOk(s, x) && CallOk(s, c);
    if x in s.keys {
      Q.WithoutMembers(s.keys[x].waiters, c);
      if !InLine(s.calls[c]) {
        Q.WithoutAbsent(s.keys[x].waiters, c);
      }
    }
    forall y ensures SlotOk(s', y) { assert SlotOk(s, y); }
    forall d ensures CallOk(s', d) { assert CallOk(s, d); }
  }

  lemma JoinKeeps(s: Sys, c: CallId, x: Slot, ttl: int)
    requires SlotInv(s) && Enabled(s, Acquire(c, x, ttl))
    ensures SlotInv(Apply(s, Acquire(c, x, ttl)))
  {
    var s' := Apply(s, Acquire(c, x, ttl));
    assert SlotOk(s, x);
    forall y ensures SlotOk(s', y) { assert SlotOk(s, y); }
    forall d ensures CallOk(s', d) { assert CallOk(s, d); }
  }

  lemma TryKeeps(s: Sys, c: CallId, x: Slot, ttl: int)
    requires SlotInv(s) && Enabled(s, TryLock(c, x, ttl))
    ensures SlotInv(Apply(s, TryLock(c, x, ttl)))
  {
    var s' := Apply(s, TryLock(c, x, ttl));
    assert SlotOk(s, x);
    forall y ensures SlotOk(s', y) { assert SlotOk(s, y); }
    forall d ensures CallOk(s', d) { assert CallOk(s, d); }
  }

  lemma LocalRetags(s: Sys, e: Event)
    requires SlotInv(s) && (e.Advance? || e.ServeAcquire?) && Enabled(s, e)
    ensures Retags(s, Apply(s, e), e.c)
  {
    assert CallOk(s, e.c);
  }

  lemma FinalizeRetags(s: Sys, e: Event)
    requires SlotInv(s) && OpsOnHandles(s) && e.AdvanceFin? && Enabled(s, e)
    ensures Retags(s, Apply(s, e), s.ops[e.o].call)
  {
    assert CallOk(s, s.ops[e.o].call);
  }

  lemma StepKeeps(s: Sys, e: Event)
    requires SlotInv(s) && OpsOnHandles(s)
    ensures SlotInv(Step(s, e))
  {
    if !Enabled(s, e) {
    } else if e.Advance? || e.ServeAcquire? {
      LocalRetags(s, e);
      Retag(s, Apply(s, e), e.c);
    } else if e.AdvanceFin? {
      FinalizeRetags(s, e);
      Retag(s, Apply(s, e), s.ops[e.o].call);
    } else if e.TryLock? {
      TryKeeps(s, e.c, e.slot, e.ttl);
    } else if e.Acquire? {
      JoinKeeps(s, e.c, e.slot, e.ttl);
    } else if e.RemoveWaiter? {
      RemoveKeeps(s, e.c);
    } else if e.ReturnSlot? {
      assert CallOk(s, e.c);
      HandOnKeeps(s, SetPc(s, e.c, Gone(GaveBack)), e.c);
    } else if e.FreeSlot? {
      var c := s.ops[e.o].call;
      assert CallOk(s, c);
      HandOnKeeps(s, SetFin(s, c, Finished), c);
    } else {
      QuietKeeps(s, e);
    }
  }

  lemma QuietKeeps(s: Sys, e: Event)
    requires SlotInv(s) && Enabled(s, e)
    requires e.Elapse? || e.BeginOp? || e.ServeOp? || e.AdvanceOp?
    ensures SlotInv(Apply(s, e))
  {
    var s' := Apply(s, e);
    assert s'.keys == s.keys && s'.calls == s.calls && s'.owner == s.owner;
    forall x ensures SlotOk(s', x) { assert SlotOk(s, x); }
    forall d ensures CallOk(s', d) { assert CallOk(s, d); }
  }

  lemma {:induction false} Invariant(es: seq<Event>)
    ensures SlotInv(After(es))
  {
    if es != [] {
      Invariant(es[..|es| - 1]);
      OperationsWorkOnHandles(es[..|es| - 1]);
      StepKeeps(After(es[..|es| - 1]), es[|es| - 1]);
    }
  }

  // ---- Conservation ----------------------------------------------------------------------------

  predicate ClaimsSlot(s: Sys, c: CallId, x: Slot) {
    c in s.calls && s.calls[c].slot == x && Claims(s.calls[c])
  }

  /** In every reachable state a key is in a manager's map iff it is held there and exactly one call
      claims it: its owner, a handed-off waiter that has not woken, or a lost hand-off. */
  lemma SlotConservation(es: seq<Event>, x: Slot)
    ensures var s := After(es);
            && (x in s.keys ==> s.keys[x].held)
            && (x in s.keys <==> exists c :: ClaimsSlot(s, c, x))
            && (forall c, d :: ClaimsSlot(s, c, x) && ClaimsSlot(s, d, x) ==> c == d)
  {
    Invariant(es);
    var s := After(es);
    assert SlotOk(s, x);
    if x in s.keys {
      assert ClaimsSlot(s, s.owner[x], x);
    }
    forall c | ClaimsSlot(s, c, x) ensures x in s.keys && c == s.owner[x] { assert CallOk(s, c); }
  }

  /** The three kinds of claim exclude each other. */
  lemma ClaimKindsExclude(c: Call)
    ensures Claims(c) <==> OwnsSlot(c) || HandedOff(c) || Lost(c)
    ensures !(OwnsSlot(c) && HandedOff(c)) && !(OwnsSlot(c) && Lost(c)) && !(HandedOff(c) && Lost(c))
    ensures InLine(c) ==> !Claims(c)
  {
  }

  /** A leaving waiter never finds the slot free, so its clean-up branch never deletes a key. */
  lemma {:induction false} CleanUpNeverFires(es: seq<Event>, c: CallId)
    requires Enabled(After(es), RemoveWaiter(c))
    ensures Step(After(es), RemoveWaiter(c)).keys.Keys == After(es).keys.Keys
  {
    Invariant(es);
    assert SlotOk(After(es), After(es).calls[c].slot);
  }

  /** Per manager and key, at most one backend Acquire is outstanding. */
  lemma {:induction false} OneAcquireInFlight(es: seq<Event>, c: CallId, d: CallId)
    requires var s := After(es);
             c in s.calls && d in s.calls && s.calls[c].slot == s.calls[d].slot
             && s.calls[c].pc.Asking? && s.calls[d].pc.Asking?
    ensures c == d
  {
    Invariant(es);
    assert CallOk(After(es), c) && CallOk(After(es), d);
  }

  // ---- Lost hand-offs ------------------------------------------------------------------------------

  /** Slot x was handed to a call that left without it. */
  predicate LostSlot(s: Sys, x: Slot) {
    x in s.owner && s.owner[x] in s.calls && Lost(s.calls[s.owner[x]])
  }

  /** The step that loses a slot: a waiter leaves after `release` has popped it. */
  predicate Abandons(s: Sys, e: Event, x: Slot) {
    e.RemoveWaiter? && Enabled(s, e) && s.calls[e.c].slot == x && HandedOff(s.calls[e.c])
  }

  lemma LostCalls(s: Sys, e: Event, c: CallId)
    ensures c in Step(s, e).calls && Lost(Step(s, e).calls[c]) <==>
            c in s.calls && (Lost(s.calls[c]) || (e == RemoveWaiter(c) && Abandons(s, e, s.calls[c].slot)))
    ensures c in s.calls ==> c in Step(s, e).calls && Step(s, e).calls[c].slot == s.calls[c].slot
  {
    if Enabled(s, e) {
      if e.ReturnSlot? {
        HandOnCalls(SetPc(s, e.c, Gone(GaveBack)), s.calls[e.c].slot, c);
      } else if e.FreeSlot? {
        var d := s.ops[e.o].call;
        HandOnCalls(SetFin(s, d, Finished), s.calls[d].slot, c);
      } else {
        OtherCallsLost(s, e, c);
      }
    }
  }

  lemma OtherCallsLost(s: Sys, e: Event, c: CallId)
    requires Enabled(s, e) && !e.ReturnSlot? && !e.FreeSlot?
    ensures c in Apply(s, e).calls && Lost(Apply(s, e).calls[c]) <==>
            c in s.calls && (Lost(s.calls[c]) || (e == RemoveWaiter(c) && HandedOff(s.calls[c])))
    ensures c in s.calls ==> c in Apply(s, e).calls && Apply(s, e).calls[c].slot == s.calls[c].slot
  {
  }

  lemma LostOwners(s: Sys, x: Slot, c: CallId)
    requires SlotInv(s) && c in s.calls && s.calls[c].slot == x && Lost(s.calls[c])
    ensures LostSlot(s, x) && s.owner[x] == c
  {
    assert CallOk(s, c);
  }

  lemma OwnerMoves(s: Sys, e: Event, x: Slot)
    requires SlotInv(s) && OpsOnHandles(s)
    ensures LostSlot(Step(s, e), x) <==> LostSlot(s, x) || Abandons(s, e, x)
  {
    StepKeeps(s, e);
    var s' := Step(s, e);
    assert SlotOk(s, x) && SlotOk(s', x);
    if LostSlot(s', x) {
      var c := s'.owner[x];
      LostCalls(s, e, c);
      if Lost(s.calls[c]) { LostOwners(s, x, c); }
    }
    if LostSlot(s, x) {
      LostCalls(s, e, s.owner[x]);
      LostOwners(s', x, s.owner[x]);
    }
    if Abandons(s, e, x) {
      LostCalls(s, e, e.c);
      LostOwners(s', x, e.c);
    }
  }

  ghost predicate EverAbandoned(es: seq<Event>, x: Slot) {
    exists i :: 0 <= i < |es| && Abandons(After(es[..i]), es[i], x)
  }

  lemma EverAbandonedSplit(es: seq<Event>, more: seq<Event>, x: Slot)
    ensures EverAbandoned(es, x) ==> EverAbandoned(es + more, x)
    ensures |more| == 1 ==>
              (EverAbandoned(es + more, x) <==> EverAbandoned(es, x) || Abandons(After(es), more[0], x))
  {
    var all := es + more;
    assert forall i :: 0 <= i < |es| ==> all[..i] == es[..i] && all[i] == es[i];
    if |more| == 1 {
      assert all[..|es|] == es && all[|es|] == more[0];
    }
    if EverAbandoned(es, x) {
      var i :| 0 <= i < |es| && Abandons(After(es[..i]), es[i], x);
      assert Abandons(After(all[..i]), all[i], x);
    }
    if |more| == 1 && Abandons(After(es), more[0], x) {
      assert Abandons(After(all[..|es|]), all[|es|], x);
    }
  }

  /** A slot is lost exactly when some step of the run abandoned it: leak-freedom holds for the
      runs without such a step and for no others. */
  lemma {:induction false} LostIffAbandoned(es: seq<Event>, x: Slot)
    ensures LostSlot(After(es), x) <==> EverAbandoned(es, x)
  {
    if es != [] {
      var init, e := es[..|es| - 1], es[|es| - 1];
      LostIffAbandoned(init, x);
      Invariant(init);
      OperationsWorkOnHandles(init);
      OwnerMoves(After(init), e, x);
      EverAbandonedSplit(init, [e], x);
      assert init + [e] == es;
    }
  }

  /** A lost slot stays lost in every continuation, and no call claims it ever again. */
  lemma {:induction false} LostForever(es: seq<Event>, more: seq<Event>, x: Slot)
    requires LostSlot(After(es), x)
    ensures LostSlot(After(es + more), x)
    ensures forall c :: ClaimsSlot(After(es + more), c, x) ==> Lost(After(es + more).calls[c])
  {
    Invariant(es + more);
    LostIffAbandoned(es, x);
    LostIffAbandoned(es + more, x);
    EverAbandonedSplit(es, more, x);
    forall c | ClaimsSlot(After(es + more), c, x) ensures Lost(After(es + more).calls[c]) {
      assert CallOk(After(es + more), c);
    }
  }

  /** A call has the slot and another waits; the first returns it, and the second, already popped,
      takes ctx.Done(). */
  function AbandonedRun(x: Slot): seq<Event> {
    [TryLock(0, x, 1), Acquire(1, x, 1), Advance(0, GiveUp), ReturnSlot(0), Advance(1, CtxDone), RemoveWaiter(1)]
  }

  /** It does happen, to every slot. */
  lemma AbandonedRunLoses(x: Slot)
    ensures LostSlot(After(AbandonedRun(x)), x)
  {
    var es := AbandonedRun(x);
    var s3 := HandOffDue(x);
    AfterSnoc(es[..3], es[3]);
    AfterSnoc(es[..4], es[4]);
    AfterSnoc(es[..5], es[5]);
    assert es[..3] + [es[3]] == es[..4] && es[..4] + [es[4]] == es[..5] && es[..5] + [es[5]] == es;
    HandedOffAndLeft(s3, x);
  }

  lemma HandOffDue(x: Slot) returns (s: Sys)
    ensures s == After(AbandonedRun(x)[..3])
    ensures s.keys == map[x := Q.KeyState(true, [1])] && s.calls.Keys == {0, 1}
    ensures s.calls[0].slot == s.calls[1].slot == x && s.calls[0].pc == Returning && s.calls[1].pc == Waiting(Queued)
  {
    var es := AbandonedRun(x);
    AfterSnoc([], es[0]);
    AfterSnoc(es[..1], es[1]);
    AfterSnoc(es[..2], es[2]);
    assert [] + [es[0]] == es[..1] && es[..1] + [es[1]] == es[..2] && es[..2] + [es[2]] == es[..3];
    var s1 := After(es[..1]);
    assert s1.keys == map[x := Q.KeyState(true, [])] && s1.calls.Keys == {0};
    var s2 := After(es[..2]);
    assert s1.keys[x].waiters + [1] == [1];
    assert s2.keys == map[x := Q.KeyState(true, [1])];
    s := After(es[..3]);
  }

  lemma HandedOffAndLeft(s: Sys, x: Slot)
    requires s.keys == map[x := Q.KeyState(true, [1])] && s.calls.Keys == {0, 1}
    requires s.calls[0].slot == s.calls[1].slot == x && s.calls[0].pc == Returning && s.calls[1].pc == Waiting(Queued)
    ensures LostSlot(Step(Step(Step(s, ReturnSlot(0)), Advance(1, CtxDone)), RemoveWaiter(1)), x)
  {
    var s1 := Step(s, ReturnSlot(0));
    assert 1 in s1.calls && s1.calls[1].pc == Waiting(Popped) && x in s1.owner && s1.owner[x] == 1;
    var s2 := Step(s1, Advance(1, CtxDone));
    assert 1 in s2.calls && s2.calls[1].pc == Leaving(Popped) && s2.owner == s1.owner;
  }

  /** Once every call has left or returned its slot, and none was abandoned, no key remains. */
  lemma QuietMeansEmpty(es: seq<Event>)
    requires forall c :: c in After(es).calls ==>
               var call := After(es).calls[c];
               call.pc.Gone? || (call.pc.Holding? && call.fin.Finished?)
    ensures After(es).keys == map[] <==> forall x :: !LostSlot(After(es), x)
  {
    Invariant(es);
    var s := After(es);
    forall x | x in s.keys ensures LostSlot(s, x) { assert SlotOk(s, x); }
    forall x | LostSlot(s, x) ensures x in s.keys { assert SlotOk(s, x); }
    if s.keys.Keys == {} {
      assert s.keys == map[];
    } else {
      var x :| x in s.keys;
    }
  }
}
