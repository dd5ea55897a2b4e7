/** Finalisation of handles and accounting of slots, under every interleaving of Release, Refresh
    and watchdog ticks. */
module LockHandles {
  import opened LockSystem
  import opened LockSlots
  import Q = KeyQueue

  /** Things that may happen to one call at most once. */
  datatype Deed = SlotGranted | SlotReturned | StopClosed

  /** Step e does the deed to call c. */
  predicate Does(s: Sys, e: Event, c: CallId, deed: Deed) {
    Enabled(s, e) &&
    match deed
    case SlotGranted =>
      if e.TryLock? || e.Acquire? then e.c == c && !Q.StateOf(s.keys, e.slot).held
      else if e.ReturnSlot? then IsHead(s, s.calls[e.c].slot, c)
      else if e.FreeSlot? then IsHead(s, s.calls[s.ops[e.o].call].slot, c)
      else false
    case SlotReturned => e == ReturnSlot(c) || (e.FreeSlot? && s.ops[e.o].call == c)
    case StopClosed => e.AdvanceFin? && e.finMove.CloseStop? && s.ops[e.o].call == c
  }

  predicate IsHead(s: Sys, x: Slot, c: CallId) {
    var ws := Q.StateOf(s.keys, x).waiters;
    ws != [] && ws[0] == c
  }

  /** How often a run does the deed to call c. */
  function Times(es: seq<Event>, c: CallId, deed: Deed): nat {
    if es == [] then 0
    else
      Times(es[..|es| - 1], c, deed)
      + if Does(After(es[..|es| - 1]), es[|es| - 1], c, deed) then 1 else 0
  }

  predicate HadSlot(c: Call) {
    !InLine(c) && c.pc != Gone(Refused) && c.pc != Gone(Cancelled)
  }

  predicate GaveSlotBack(c: Call) {
    c.pc == Gone(GaveBack) || (c.pc.Holding? && c.fin.Finished?)
  }

  /** The mark a deed leaves on a call. */
  predicate Done(c: Call, deed: Deed) {
    match deed
    case SlotGranted => HadSlot(c)
    case SlotReturned => GaveSlotBack(c)
    case StopClosed => c.fin.Stopped? || c.fin.Finished?
  }

  predicate Marked(s: Sys, c: CallId, deed: Deed) {
    c in s.calls && Done(s.calls[c], deed)
  }

  lemma GrantMarks(s: Sys, e: Event, c: CallId)
    requires SlotInv(s) && OpsOnHandles(s) && Enabled(s, e)
    ensures Does(s, e, c, SlotGranted) ==> !Marked(s, c, SlotGranted)
    ensures Marked(Apply(s, e), c, SlotGranted) <==> Marked(s, c, SlotGranted) || Does(s, e, c, SlotGranted)
  {
    assert CallOk(s, c);
    if e.ReturnSlot? {
      HandOnMarks(s, SetPc(s, e.c, Gone(GaveBack)), e.c, c);
    } else if e.FreeSlot? {
      var d := s.ops[e.o].call;
      HandOnMarks(s, SetFin(s, d, Finished), d, c);
    } else {
      OthersGrant(s, e, c);
    }
  }

  lemma HandOnMarks(s: Sys, t: Sys, d: CallId, c: CallId)
    requires SlotInv(s) && d in s.calls && d in t.calls && t == s.(calls := s.calls[d := t.calls[d]])
    requires HadSlot(s.calls[d]) && HadSlot(t.calls[d])
    ensures IsHead(s, s.calls[d].slot, c) ==> !Marked(s, c, SlotGranted)
    ensures Marked(HandOn(t, s.calls[d].slot), c, SlotGranted)
            <==> Marked(s, c, SlotGranted) || IsHead(s, s.calls[d].slot, c)
  {
    var x := s.calls[d].slot;
    assert SlotOk(s, x) && CallOk(s, c);
    if x in s.keys && s.keys[x].waiters != [] {
      assert s.keys[x].waiters[0] in s.keys[x].waiters;
    }
  }

  lemma OthersGrant(s: Sys, e: Event, c: CallId)
    requires SlotInv(s) && Enabled(s, e) && !e.ReturnSlot? && !e.FreeSlot?
    ensures Does(s, e, c, SlotGranted) ==> !Marked(s, c, SlotGranted)
    ensures Marked(Apply(s, e), c, SlotGranted) <==> Marked(s, c, SlotGranted) || Does(s, e, c, SlotGranted)
  {
  }

  /** `d` gives its slot back: that is `d`'s own deed and nobody else's. */
  lemma HandOnReturns(s: Sys, t: Sys, d: CallId, c: CallId)
    requires d in s.calls && d in t.calls && t == s.(calls := s.calls[d := t.calls[d]])
    requires GaveSlotBack(t.calls[d])
    requires c in s.calls && !s.calls[c].pc.Holding? ==> s.calls[c].fin == Unfinished
    ensures Marked(HandOn(t, s.calls[d].slot), c, SlotReturned) <==> Marked(s, c, SlotReturned) || d == c
    ensures c != d ==> (Marked(HandOn(t, s.calls[d].slot), c, StopClosed) <==> Marked(s, c, StopClosed))
  {
    HandOnCalls(t, s.calls[d].slot, c);
  }

  lemma ReturnMarks(s: Sys, e: Event, c: CallId, deed: Deed)
    requires OpsOnHandles(s) && Enabled(s, e) && !deed.SlotGranted?
    requires c in s.calls && !s.calls[c].pc.Holding? ==> s.calls[c].fin == Unfinished
    ensures Does(s, e, c, deed) ==> !Marked(s, c, deed)
    ensures Marked(Apply(s, e), c, deed) <==> Marked(s, c, deed) || Does(s, e, c, deed)
  {
    if e.ReturnSlot? {
      HandOnReturns(s, SetPc(s, e.c, Gone(GaveBack)), e.c, c);
      HandOnCalls(SetPc(s, e.c, Gone(GaveBack)), s.calls[e.c].slot, c);
    } else if e.FreeSlot? {
      var d := s.ops[e.o].call;
      HandOnReturns(s, SetFin(s, d, Finished), d, c);
      HandOnCalls(SetFin(s, d, Finished), s.calls[d].slot, c);
    } else {
      OthersReturn(s, e, c, deed);
    }
  }

  lemma OthersReturn(s: Sys, e: Event, c: CallId, deed: Deed)
    requires OpsOnHandles(s) && Enabled(s, e) && !deed.SlotGranted? && !e.ReturnSlot? && !e.FreeSlot?
    requires c in s.calls && !s.calls[c].pc.Holding? ==> s.calls[c].fin == Unfinished
    ensures Does(s, e, c, deed) ==> !Marked(s, c, deed)
    ensures Marked(Apply(s, e), c, deed) <==> Marked(s, c, deed) || Does(s, e, c, deed)
  {
  }

  /** Each deed is done to a call at most once in any run, and the call's state says whether it has
      been: `watchdogStop` is never closed twice, nor the local slot returned twice. */
  lemma {:induction false} AtMostOnce(es: seq<Event>, c: CallId, deed: Deed)
    ensures Times(es, c, deed) == if Marked(After(es), c, deed) then 1 else 0
  {
    if es != [] {
      var init, e := es[..|es| - 1], es[|es| - 1];
      AtMostOnce(init, c, deed);
      var s := After(init);
      Invariant(init);
      OperationsWorkOnHandles(init);
      if Enabled(s, e) {
        assert CallOk(s, c);
        if deed.SlotGranted? { GrantMarks(s, e, c); } else { ReturnMarks(s, e, c, deed); }
      }
    }
  }

  /** How often a call may have been granted its slot and have returned it, by where it stands. */
  predicate Balanced(call: Call, granted: nat, returned: nat) {
    && granted == returned + (if Claims(call) then 1 else 0)
    && match call.pc
       case Holding => granted == 1 && (returned == 0 <==> !call.fin.Finished?)
       case Gone(GaveBack) => granted == 1 && returned == 1
       case Gone(Abandoned) => granted == 1 && returned == 0
       case Gone(_) => granted == 0 && returned == 0
       case _ => returned == 0
  }

  /** Ownership on every exit: a call that left empty-handed never had the slot or gave it back exactly
      once; one whose handle is not finalised still has it; only an abandoned hand-off was granted
      and never returned. */
  lemma {:induction false} ExitAccounting(es: seq<Event>, c: CallId)
    requires c in After(es).calls
    ensures Balanced(After(es).calls[c], Times(es, c, SlotGranted), Times(es, c, SlotReturned))
  {
    var granted, returned := Times(es, c, SlotGranted), Times(es, c, SlotReturned);
    AtMostOnce(es, c, SlotGranted);
    AtMostOnce(es, c, SlotReturned);
    MarksBalance(After(es).calls[c], granted, returned);
  }

  lemma MarksBalance(call: Call, granted: nat, returned: nat)
    requires granted == if HadSlot(call) then 1 else 0
    requires returned == if GaveSlotBack(call) then 1 else 0
    ensures Balanced(call, granted, returned)
  {
    match call.pc
    case Gone(exit) => assert exit.Refused? || exit.Cancelled? || exit.Abandoned? || exit.GaveBack?;
    case _ =>
  }

  /** A handle that is not finalised is the one and only claimant of its slot. */
  lemma {:induction false} HandleOwnsAlone(es: seq<Event>, c: CallId, d: CallId)
    requires var s := After(es);
             c in s.calls && s.calls[c].pc.Holding? && !s.calls[c].fin.Finished?
             && ClaimsSlot(s, d, s.calls[c].slot)
    ensures c == d
  {
    Invariant(es);
    assert CallOk(After(es), c) && CallOk(After(es), d);
  }

  // ---- The released flag ---------------------------------------------------------------------------------

  /** `released` never reverts, and a finalisation that is over stays over. */
  lemma ReleasedStays(s: Sys, e: Event, c: CallId)
    requires c in s.calls && s.calls[c].pc.Holding? && IsReleased(s.calls[c])
    ensures c in Step(s, e).calls && Step(s, e).calls[c].pc.Holding? && IsReleased(Step(s, e).calls[c])
    ensures s.calls[c].fin.Finished? ==> Step(s, e).calls[c].fin.Finished?
  {
    if Enabled(s, e) {
      if e.ReturnSlot? {
        HandOnCalls(SetPc(s, e.c, Gone(GaveBack)), s.calls[e.c].slot, c);
      } else if e.FreeSlot? {
        var d := s.ops[e.o].call;
        HandOnCalls(SetFin(s, d, Finished), s.calls[d].slot, c);
      }
    }
  }

  /** The operation was refused because the handle was already released, and sent nothing. */
  predicate RefusedIfOn(s: Sys, o: OpId, c: CallId) {
    o in s.ops && s.ops[o].call == c ==> s.ops[o].pc == Returned(AlreadyReleased) && !s.ops[o].wire
  }

  lemma RefusedStep(s: Sys, e: Event, o: OpId, c: CallId)
    requires c in s.calls && IsReleased(s.calls[c]) && RefusedIfOn(s, o, c)
    ensures RefusedIfOn(Step(s, e), o, c)
  {
  }

  /** Once a handle is released, an operation that starts later is answered "already released" and
      never sends a command, whatever else happens. */
  lemma {:induction false} NoCallAfterRelease(es: seq<Event>, more: seq<Event>, c: CallId, o: OpId)
    requires c in After(es).calls && After(es).calls[c].pc.Holding? && IsReleased(After(es).calls[c])
    requires o !in After(es).ops
    ensures var s := After(es + more);
            && c in s.calls && s.calls[c].pc.Holding? && IsReleased(s.calls[c])
            && RefusedIfOn(s, o, c)
  {
    if more == [] {
      assert es + more == es;
    } else {
      var init, e := more[..|more| - 1], more[|more| - 1];
      NoCallAfterRelease(es, init, c, o);
      AfterSnoc(es + init, e);
      assert es + more == es + init + [e];
      ReleasedStays(After(es + init), e, c);
      RefusedStep(After(es + init), e, o, c);
      HoldingStays(After(es + init), e, c);
    }
  }

  // ---- Finalisation always has a next step -------------------------------------------------------------------

  /** While a handle is being finalised, the operation that runs finalizeOnce is still at it. */
  ghost predicate RunnerOk(s: Sys, c: CallId) {
    c in s.calls && (s.calls[c].fin.Entered? || s.calls[c].fin.Flagged? || s.calls[c].fin.Stopped?) ==>
      var o := s.calls[c].fin.runner;
      o in s.ops && s.ops[o].call == c && s.ops[o].pc.Finalizing?
  }

  lemma RunnerStep(s: Sys, e: Event, c: CallId)
    requires RunnerOk(s, c)
    ensures RunnerOk(Step(s, e), c)
  {
    if Enabled(s, e) {
      if e.ReturnSlot? {
        HandOnCalls(SetPc(s, e.c, Gone(GaveBack)), s.calls[e.c].slot, c);
      } else if e.FreeSlot? {
        var d := s.ops[e.o].call;
        HandOnCalls(SetFin(s, d, Finished), s.calls[d].slot, c);
      }
    }
  }

  lemma {:induction false} RunnerAlways(es: seq<Event>, c: CallId)
    ensures RunnerOk(After(es), c)
  {
    if es != [] {
      RunnerAlways(es[..|es| - 1], c);
      RunnerStep(After(es[..|es| - 1]), es[|es| - 1], c);
    }
  }

  /** An operation that must finalise is never stuck: it can return, enter finalizeOnce, or the one
      that is inside can take its next step. */
  lemma FinalizeNeverStuck(es: seq<Event>, o: OpId)
    requires MayFinalize(After(es), o)
    ensures var s := After(es);
            var fin := s.calls[s.ops[o].call].fin;
            match fin
            case Unfinished => Enabled(s, AdvanceFin(o, EnterFinalize))
            case Entered(r) => Enabled(s, AdvanceFin(r, SetReleased))
            case Flagged(r) => Enabled(s, AdvanceFin(r, CloseStop))
            case Stopped(r) => Enabled(s, FreeSlot(r))
            case Finished => Enabled(s, AdvanceOp(o, EndOp))
  {
    RunnerAlways(es, After(es).ops[o].call);
  }

  // ---- What an answered operation says of the handle --------------------------------------------------------

  /** The operation's answer makes it finalise the handle: a Release that succeeds, or "not held". */
  predicate Finalises(o: Op) {
    o.pc.Finalizing? || o.pc == Returned(NotHeld) || (o.kind.Release? && o.pc == Returned(Nil))
  }

  /** An operation that has finalised, or found the handle released, leaves it so. */
  predicate OpTellsHandle(s: Sys, o: OpId) {
    o in s.ops && s.ops[o].call in s.calls ==>
      var (op, call) := (s.ops[o], s.calls[s.ops[o].call]);
      && (Finalises(op) && op.pc.Returned? ==> call.fin.Finished?)
      && (op.pc == Returned(AlreadyReleased) ==> IsReleased(call))
      && (op.pc == Finalizing(true) ==> op.kind.Release?)
  }

  /** An operation's new answer is true of the handle as it was before the step. */
  lemma OpAnswers(s: Sys, e: Event, o: OpId)
    requires o in s.ops && OpTellsHandle(s, o) && OpsOnHandles(s)
    ensures o in Step(s, e).ops && Step(s, e).ops[o].call == s.ops[o].call
    ensures var (op, call) := (Step(s, e).ops[o], s.calls[s.ops[o].call]);
            && (Finalises(op) && op.pc.Returned? ==> call.fin.Finished?)
            && (op.pc == Returned(AlreadyReleased) ==> IsReleased(call))
            && (op.pc == Finalizing(true) ==> op.kind.Release?)
  {
    if Enabled(s, e) && e.ReturnSlot? {
      HandOnCalls(SetPc(s, e.c, Gone(GaveBack)), s.calls[e.c].slot, e.c);
    } else if Enabled(s, e) && e.FreeSlot? {
      HandOnCalls(SetFin(s, s.ops[e.o].call, Finished), s.calls[s.ops[e.o].call].slot, e.o);
    }
  }

  lemma NewOpAnswers(s: Sys, e: Event, o: OpId)
    requires o !in s.ops && OpsOnHandles(s)
    ensures OpTellsHandle(Step(s, e), o)
  {
  }

  lemma OpTellsStep(s: Sys, e: Event, o: OpId)
    requires OpTellsHandle(s, o) && OpsOnHandles(s)
    ensures OpTellsHandle(Step(s, e), o)
  {
    if o !in s.ops {
      NewOpAnswers(s, e, o);
    } else {
      var c := s.ops[o].call;
      OpAnswers(s, e, o);
      HoldingStays(s, e, c);
      if IsReleased(s.calls[c]) { ReleasedStays(s, e, c); }
    }
  }

  lemma {:induction false} OpsTell(es: seq<Event>, o: OpId)
    ensures OpTellsHandle(After(es), o)
  {
    if es != [] {
      OpsTell(es[..|es| - 1], o);
      OperationsWorkOnHandles(es[..|es| - 1]);
      OpTellsStep(After(es[..|es| - 1]), es[|es| - 1], o);
    }
  }

  /** In every run, once a Release has returned nil, or any operation "not held", the handle's local
      slot has been returned, exactly once, and its stop channel closed. */
  lemma {:induction false} AnsweredMeansFinished(es: seq<Event>, o: OpId)
    requires var s := After(es); o in s.ops && Finalises(s.ops[o]) && s.ops[o].pc.Returned?
    ensures var (s, c) := (After(es), After(es).ops[o].call);
            && c in s.calls && s.calls[c].pc.Holding? && s.calls[c].fin.Finished?
            && Times(es, c, SlotReturned) == 1 && Times(es, c, StopClosed) == 1
  {
    OpsTell(es, o);
    OperationsWorkOnHandles(es);
    AtMostOnce(es, After(es).ops[o].call, SlotReturned);
    AtMostOnce(es, After(es).ops[o].call, StopClosed);
  }

  /** Whoever began to finalise a handle is an operation on it that had to. */
  ghost predicate FinalisedByOp(s: Sys, c: CallId) {
    c in s.calls && s.calls[c].fin != Unfinished ==>
      exists o :: o in s.ops && s.ops[o].call == c && Finalises(s.ops[o])
  }

  lemma FinalisesStays(s: Sys, e: Event, o: OpId)
    requires o in s.ops && Finalises(s.ops[o]) && OpTellsHandle(s, o) && OpsOnHandles(s)
    ensures o in Step(s, e).ops && Step(s, e).ops[o].call == s.ops[o].call && Finalises(Step(s, e).ops[o])
  {
    if Enabled(s, e) && e.ReturnSlot? {
      HandOnCalls(SetPc(s, e.c, Gone(GaveBack)), s.calls[e.c].slot, e.c);
    } else if Enabled(s, e) && e.FreeSlot? {
      HandOnCalls(SetFin(s, s.ops[e.o].call, Finished), s.calls[s.ops[e.o].call].slot, e.o);
    }
  }

  /** A handle's finalisation begins only with a step of an operation that must finalise it. */
  lemma FinBegins(s: Sys, e: Event, c: CallId)
    ensures c in Step(s, e).calls && Step(s, e).calls[c].fin != Unfinished ==>
              c in s.calls
              && (s.calls[c].fin != Unfinished
                  || (Enabled(s, e) && (e.AdvanceFin? || e.FreeSlot?) && s.ops[e.o].call == c && Finalises(s.ops[e.o])))
  {
    if Enabled(s, e) {
      if e.ReturnSlot? {
        HandOnCalls(SetPc(s, e.c, Gone(GaveBack)), s.calls[e.c].slot, c);
      } else if e.FreeSlot? {
        var d := s.ops[e.o].call;
        HandOnCalls(SetFin(s, d, Finished), s.calls[d].slot, c);
      }
    }
  }

  lemma FinalisedByOpStep(s: Sys, e: Event, c: CallId)
    requires FinalisedByOp(s, c) && OpsOnHandles(s)
    requires forall o :: OpTellsHandle(s, o)
    ensures FinalisedByOp(Step(s, e), c)
  {
    FinBegins(s, e, c);
    if c in Step(s, e).calls && Step(s, e).calls[c].fin != Unfinished {
      var o :| o in s.ops && s.ops[o].call == c && Finalises(s.ops[o]);
      assert OpTellsHandle(s, o);
      FinalisesStays(s, e, o);
    }
  }

  lemma {:induction false} FinalisedByOps(es: seq<Event>, c: CallId)
    ensures FinalisedByOp(After(es), c)
  {
    if es != [] {
      var init := es[..|es| - 1];
      FinalisedByOps(init, c);
      OperationsWorkOnHandles(init);
      forall o ensures OpTellsHandle(After(init), o) { OpsTell(init, o); }
      FinalisedByOpStep(After(init), es[|es| - 1], c);
    }
  }

  // ---- Dropped handles ------------------------------------------------------------------------------------

  /** The handle is not finalised and none of its operations is under way. */
  ghost predicate Dropped(s: Sys, c: CallId) {
    && c in s.calls && s.calls[c].pc.Holding? && s.calls[c].fin == Unfinished
    && forall o :: o in s.ops && s.ops[o].call == c ==> s.ops[o].pc.Returned?
  }

  /** In every run, a handle keeps its slot with nothing under way exactly when all its operations have
      returned and none of them was a nil Release or answered "not held" or "already released". */
  lemma {:induction false} DroppedIffNoneEnded(es: seq<Event>, c: CallId)
    requires c in After(es).calls && After(es).calls[c].pc.Holding?
    ensures var s := After(es);
            Dropped(s, c) <==>
              forall o :: o in s.ops && s.ops[o].call == c ==>
                s.ops[o].pc == Returned(Failed) || (s.ops[o].kind.Refresh? && s.ops[o].pc == Returned(Nil))
  {
    var s := After(es);
    FinalisedByOps(es, c);
    forall o ensures OpTellsHandle(s, o) { OpsTell(es, o); }
    forall o | o in s.ops && s.ops[o].call == c && s.ops[o].pc.Returned?
      ensures s.calls[c].fin == Unfinished ==>
                s.ops[o].pc == Returned(Failed) || (s.ops[o].kind.Refresh? && s.ops[o].pc == Returned(Nil))
    {
      assert OpTellsHandle(s, o);
      assert s.ops[o].pc.result.Nil? || s.ops[o].pc.result.NotHeld? || s.ops[o].pc.result.AlreadyReleased?
             || s.ops[o].pc.result.Failed?;
    }
  }

  /** WithLock without auto-refresh: its one operation is a Release, and once that has returned the
      slot stays with the handle exactly if it failed with anything but "not held". */
  lemma {:induction false} WithLockDropsIffFailed(es: seq<Event>, o: OpId, c: CallId)
    requires var s := After(es);
             && o in s.ops && s.ops[o].call == c && s.ops[o].kind.Release? && s.ops[o].pc.Returned?
             && forall p :: p in s.ops && s.ops[p].call == c ==> p == o
    ensures Dropped(After(es), c) <==> After(es).ops[o].pc == Returned(Failed)
  {
    OperationsWorkOnHandles(es);
    DroppedIffNoneEnded(es, c);
  }

  /** From every state with an unused handle, a Release that fails leads there. */
  lemma FailedReleaseDrops(s: Sys, o: OpId, c: CallId)
    requires c in s.calls && s.calls[c].pc.Holding? && s.calls[c].fin == Unfinished && o !in s.ops
    requires forall p :: p in s.ops ==> s.ops[p].call != c
    ensures var s' := Step(Step(s, BeginOp(o, c, Release)), AdvanceOp(o, OpFails));
            Dropped(s', c) && s'.calls[c] == s.calls[c]
  {
    var s1 := Step(s, BeginOp(o, c, Release));
    assert s1.ops == s.ops[o := Op(c, Release, Sent, true, s.now)] && s1.calls == s.calls;
  }

  /** A run from the start that drops a handle: TryLock succeeds, and its Release is lost. */
  function DroppedRun(x: Slot): seq<Event> {
    [TryLock(0, x, 1), Advance(0, Ask), ServeAcquire(0), Advance(0, AcquireReply),
     BeginOp(0, 0, Release), AdvanceOp(0, OpFails)]
  }

  lemma DroppedRunDrops(x: Slot)
    ensures var s := After(DroppedRun(x)); Dropped(s, 0) && s.calls[0].slot == x
  {
    var es := DroppedRun(x);
    var s := UnusedHandle(x);
    AfterSnoc(es[..4], es[4]);
    AfterSnoc(es[..5], es[5]);
    assert es[..4] + [es[4]] == es[..5] && es[..5] + [es[5]] == es;
    FailedReleaseDrops(s, 0, 0);
  }

  lemma UnusedHandle(x: Slot) returns (s: Sys)
    ensures s == After(DroppedRun(x)[..4]) && s.ops == map[] && 0 in s.calls
    ensures s.calls[0].pc.Holding? && s.calls[0].fin == Unfinished && s.calls[0].slot == x
  {
    var es := DroppedRun(x);
    AfterSnoc([], es[0]);
    AfterSnoc(es[..1], es[1]);
    AfterSnoc(es[..2], es[2]);
    AfterSnoc(es[..3], es[3]);
    assert [] + [es[0]] == es[..1] && es[..1] + [es[1]] == es[..2];
    assert es[..2] + [es[2]] == es[..3] && es[..3] + [es[3]] == es[..4];
    TakesSlot(x);
    GetsLock(Step(START, TryLock(0, x, 1)), x);
    s := After(es[..4]);
  }

  lemma TakesSlot(x: Slot)
    ensures var s := Step(START, TryLock(0, x, 1));
            && s.store == map[] && s.ops == map[] && 0 in s.calls
            && s.calls[0] == Call(x, 1, true, Owning, false, 0, Unfinished)
  {
  }

  lemma GetsLock(s: Sys, x: Slot)
    requires s.store == map[] && s.ops == map[] && 0 in s.calls
    requires s.calls[0] == Call(x, 1, true, Owning, false, 0, Unfinished)
    ensures var t := Step(Step(Step(s, Advance(0, Ask)), ServeAcquire(0)), Advance(0, AcquireReply));
            && t.ops == map[] && 0 in t.calls
            && t.calls[0].pc.Holding? && t.calls[0].fin == Unfinished && t.calls[0].slot == x
  {
    var s2 := Step(Step(s, Advance(0, Ask)), ServeAcquire(0));
    assert s2.ops == map[] && 0 in s2.calls && s2.calls[0].pc == Answered(true);
    assert s2.calls[0].slot == x && s2.calls[0].fin == Unfinished;
  }

  lemma DroppedStep(s: Sys, e: Event, c: CallId)
    requires OpsOnHandles(s) && Dropped(s, c) && !(e.BeginOp? && e.c == c)
    ensures Dropped(Step(s, e), c) && Step(s, e).calls[c].slot == s.calls[c].slot
  {
    if Enabled(s, e) && e.ReturnSlot? {
      HandOnCalls(SetPc(s, e.c, Gone(GaveBack)), s.calls[e.c].slot, c);
    } else if Enabled(s, e) && e.FreeSlot? {
      var d := s.ops[e.o].call;
      HandOnCalls(SetFin(s, d, Finished), s.calls[d].slot, c);
    }
  }

  /** A dropped handle blocks its key in its manager for ever: unless a new operation is begun on that
      very handle, no other call claims the slot in any continuation. */
  lemma {:induction false} DroppedBlocksForever(es: seq<Event>, more: seq<Event>, c: CallId)
    requires Dropped(After(es), c)
    requires forall i :: 0 <= i < |more| ==> !(more[i].BeginOp? && more[i].c == c)
    ensures Dropped(After(es + more), c) && After(es + more).calls[c].slot == After(es).calls[c].slot
    ensures forall d :: ClaimsSlot(After(es + more), d, After(es).calls[c].slot) ==> d == c
  {
    if more == [] {
      assert es + more == es;
    } else {
      var init, e := more[..|more| - 1], more[|more| - 1];
      DroppedBlocksForever(es, init, c);
      AfterSnoc(es + init, e);
      assert es + more == es + init + [e];
      OperationsWorkOnHandles(es + init);
      DroppedStep(After(es + init), e, c);
    }
    forall d | ClaimsSlot(After(es + more), d, After(es).calls[c].slot) ensures d == c {
      HandleOwnsAlone(es + more, c, d);
    }
  }
}
