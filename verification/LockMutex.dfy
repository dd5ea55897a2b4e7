/** One manager alone: the server's entry belongs to the head of the local line, or to a call whose
    error hid a write that the server applied. */
module LockMutex {
  import opened Types
  import opened TtlStore
  import opened LockSystem
  import opened LockSlots
  import F = LockFifo
  import L = LockLeases
  import O = LockOrphans

  /** The step is taken by manager 0, as far as it begins a call. */
  predicate Local(e: Event) {
    e.TryLock? || e.Acquire? ==> e.slot.manager == 0
  }

  predicate OneManager(es: seq<Event>) {
    forall i :: 0 <= i < |es| ==> Local(es[i])
  }

  /** The call went, or is going, the error path. */
  predicate Failing(c: Call) {
    c.pc.Returning? || c.pc == Gone(GaveBack)
  }

  /** A live entry's token is a granted call that still has its slot, or one that saw an error. */
  predicate EntryPlaced(s: Sys, k: Key) {
    Live(s.store, k, s.now) ==>
      var c := s.store[k].value;
      c in s.calls && s.calls[c].slot == Slot(0, k)
      && (Failing(s.calls[c]) || s.calls[c].pc == Answered(true)
          || (s.calls[c].pc.Holding? && !s.calls[c].fin.Finished?))
  }

  predicate CallPlaced(s: Sys, c: CallId) {
    c in s.calls ==>
      s.calls[c].slot.manager == 0 && (s.calls[c].wire ==> s.calls[c].pc.Asking? || Failing(s.calls[c]))
  }

  lemma CallPlacedStep(s: Sys, e: Event, c: CallId)
    requires CallPlaced(s, c) && Local(e)
    ensures CallPlaced(Step(s, e), c)
  {
    if Enabled(s, e) {
      if e.ReturnSlot? || e.FreeSlot? { L.ReturnSteps(s, e, c); } else { CallPlacedElsewhere(s, e, c); }
    }
  }

  lemma CallPlacedElsewhere(s: Sys, e: Event, c: CallId)
    requires CallPlaced(s, c) && Local(e) && Enabled(s, e) && !e.ReturnSlot? && !e.FreeSlot?
    ensures CallPlaced(Apply(s, e), c)
  {
  }

  lemma EntryPlacedStep(s: Sys, e: Event, k: Key)
    requires SlotInv(s) && L.StoreInv(s) && EntryPlaced(s, k)
    requires forall c :: CallPlaced(s, c)
    requires Local(e)
    ensures EntryPlaced(Step(s, e), k)
  {
    if Enabled(s, e) {
      if e.ReturnSlot? || e.FreeSlot? {
        if Live(s.store, k, s.now) { ReturnEntry(s, e, k); }
        else { L.ReturnSteps(s, e, 0); }
      } else if e.ServeAcquire? {
        assert CallPlaced(s, e.c);
        ServedEntry(s, e, k);
      } else if e.ServeOp? {
        ServedEntry(s, e, k);
      } else {
        if k in s.store { assert CallOk(s, s.store[k].value); }
        MovedEntry(s, e, k);
      }
    }
  }

  lemma ServedEntry(s: Sys, e: Event, k: Key)
    requires EntryPlaced(s, k) && Enabled(s, e) && (e.ServeAcquire? || e.ServeOp?)
    requires e.ServeAcquire? ==> CallPlaced(s, e.c)
    ensures EntryPlaced(Apply(s, e), k)
  {
  }

  lemma MovedEntry(s: Sys, e: Event, k: Key)
    requires EntryPlaced(s, k) && Enabled(s, e)
    requires !e.ServeAcquire? && !e.ServeOp? && !e.ReturnSlot? && !e.FreeSlot?
    requires k in s.store ==> CallOk(s, s.store[k].value)
    ensures EntryPlaced(Apply(s, e), k)
  {
  }

  lemma ReturnEntry(s: Sys, e: Event, k: Key)
    requires SlotInv(s) && L.StoreInv(s) && EntryPlaced(s, k) && Live(s.store, k, s.now)
    requires Enabled(s, e) && (e.ReturnSlot? || e.FreeSlot?)
    ensures EntryPlaced(Apply(s, e), k)
  {
    var c := s.store[k].value;
    assert CallOk(s, c);
    if e.ReturnSlot? {
      HandOnCalls(SetPc(s, e.c, Gone(GaveBack)), s.calls[e.c].slot, c);
    } else {
      assert L.EndOk(s, e.o, k);
      var d := s.ops[e.o].call;
      HandOnCalls(SetFin(s, d, Finished), s.calls[d].slot, c);
    }
  }

  lemma {:induction false} Invariant(es: seq<Event>)
    requires OneManager(es)
    ensures forall c :: CallPlaced(After(es), c)
    ensures forall k :: EntryPlaced(After(es), k)
  {
    if es != [] {
      var init := es[..|es| - 1];
      var s, e := After(init), es[|es| - 1];
      Invariant(init);
      LockSlots.Invariant(init);
      L.Invariant(init);
      forall c ensures CallPlaced(Step(s, e), c) { assert CallPlaced(s, c); CallPlacedStep(s, e, c); }
      forall k ensures EntryPlaced(Step(s, e), k) { assert EntryPlaced(s, k); EntryPlacedStep(s, e, k); }
    }
  }

  /** A call that has left with an error, although the server granted it a span that is not over. */
  predicate Orphan(es: seq<Event>, d: CallId, k: Key) {
    var s := After(es);
    d in s.calls && s.calls[d].slot == Slot(0, k) && s.calls[d].pc == Gone(GaveBack) && s.now < O.GrantEnd(es, d)
  }

  /** When a call of this manager asks, whoever still owns its key has left with an error. */
  lemma AskedKeyIsOrphaned(s: Sys, c: CallId)
    requires SlotInv(s) && c in s.calls && s.calls[c].pc.Asking?
    requires s.calls[c].slot.manager == 0 && EntryPlaced(s, s.calls[c].slot.key)
    ensures var k := s.calls[c].slot.key;
            Live(s.store, k, s.now) ==>
              s.store[k].value in s.calls && s.calls[s.store[k].value].slot == Slot(0, k)
              && s.calls[s.store[k].value].pc == Gone(GaveBack)
  {
    var k := s.calls[c].slot.key;
    assert CallOk(s, c);
    if k in s.store { assert CallOk(s, s.store[k].value); }
  }

  /** With one manager, in every run, a SETNX is refused if and only if an earlier call of its key left
      with an error behind which the server had granted a span that is not over. */
  lemma {:induction false} RefusedIffOrphan(es: seq<Event>, c: CallId)
    requires OneManager(es)
    requires var s := After(es); Enabled(s, ServeAcquire(c)) && s.calls[c].pc.Asking?
    ensures Step(After(es), ServeAcquire(c)).calls[c].pc == Answered(false)
            <==> exists d :: Orphan(es, d, After(es).calls[c].slot.key)
  {
    var s := After(es);
    var k := s.calls[c].slot.key;
    Invariant(es);
    LockSlots.Invariant(es);
    assert CallPlaced(s, c) && EntryPlaced(s, k);
    AskedKeyIsOrphaned(s, c);
    if Live(s.store, k, s.now) {
      O.GrantEndIsEnd(es, s.store[k].value);
      assert Orphan(es, s.store[k].value, k);
    }
    forall d | Orphan(es, d, k) ensures Live(s.store, k, s.now) { O.GrantEndIsEnd(es, d); }
  }

  /** With one manager, a live entry's token is the head of its key's line exactly unless its call has
      left with an error: queue, store and handles together are the atomic FIFO lock. */
  lemma {:induction false} EntryIsHeadIff(es: seq<Event>, k: Key)
    requires OneManager(es) && Live(After(es).store, k, After(es).now)
    ensures var s, line := After(es), F.RunLine(F.Trace(es, Slot(0, k)));
            s.store[k].value in s.calls
            && (line != [] && line[0] == s.store[k].value <==> s.calls[s.store[k].value].pc != Gone(GaveBack))
  {
    Invariant(es);
    LockSlots.Invariant(es);
    F.RefinesFifoLock(es, Slot(0, k));
    var s := After(es);
    assert EntryPlaced(s, k) && CallOk(s, s.store[k].value) && SlotOk(s, Slot(0, k));
  }

  // ---- Runs without such errors -----------------------------------------------------------------------------

  /** No backend error on Acquire hides a write that the server has applied or may still apply. */
  predicate Tidy(s: Sys, e: Event) {
    e.Advance? && e.move.AcquireFails? && Enabled(s, e) ==> s.calls[e.c].pc != Answered(true) && !s.calls[e.c].wire
  }

  ghost predicate TidyRun(es: seq<Event>) {
    OneManager(es) && forall i :: 0 <= i < |es| ==> Tidy(After(es[..i]), es[i])
  }

  predicate CallTidy(s: Sys, c: CallId) {
    c in s.calls && s.calls[c].wire ==> s.calls[c].pc.Asking?
  }

  predicate EntryTidy(s: Sys, k: Key) {
    Live(s.store, k, s.now) && s.store[k].value in s.calls ==> !Failing(s.calls[s.store[k].value])
  }

  lemma CallTidyStep(s: Sys, e: Event, c: CallId)
    requires Tidy(s, e) && CallTidy(s, c)
    ensures CallTidy(Step(s, e), c)
  {
    if Enabled(s, e) && (e.ReturnSlot? || e.FreeSlot?) { L.ReturnSteps(s, e, c); }
  }

  lemma EntryTidyStep(s: Sys, e: Event, k: Key)
    requires Tidy(s, e) && EntryTidy(s, k) && EntryPlaced(s, k)
    requires e.ServeAcquire? ==> CallTidy(s, e.c)
    ensures EntryTidy(Step(s, e), k)
  {
    if Enabled(s, e) && (e.ReturnSlot? || e.FreeSlot?) {
      L.ReturnSteps(s, e, if k in s.store then s.store[k].value else 0);
    }
  }

  lemma TidyPrefix(es: seq<Event>)
    requires TidyRun(es) && es != []
    ensures TidyRun(es[..|es| - 1]) && Tidy(After(es[..|es| - 1]), es[|es| - 1])
  {
    var init := es[..|es| - 1];
    assert forall i :: 0 <= i < |init| ==> init[..i] == es[..i] && init[i] == es[i];
  }

  lemma {:induction false} TidyInvariant(es: seq<Event>)
    requires TidyRun(es)
    ensures forall c :: CallTidy(After(es), c)
    ensures forall k :: EntryTidy(After(es), k)
  {
    if es != [] {
      var init := es[..|es| - 1];
      var s, e := After(init), es[|es| - 1];
      TidyPrefix(es);
      TidyInvariant(init);
      Invariant(init);
      assert e.ServeAcquire? ==> CallTidy(s, e.c);
      forall c ensures CallTidy(Step(s, e), c) { assert CallTidy(s, c); CallTidyStep(s, e, c); }
      forall k ensures EntryTidy(Step(s, e), k) { assert EntryTidy(s, k) && EntryPlaced(s, k); EntryTidyStep(s, e, k); }
    }
  }

  /** Then every SETNX that the server executes succeeds: the retry loop never runs twice. */
  lemma {:induction false} FirstTrySucceeds(es: seq<Event>, c: CallId)
    requires TidyRun(es) && Enabled(After(es), ServeAcquire(c))
    ensures Step(After(es), ServeAcquire(c)).calls[c].pc == Answered(true)
  {
    var s := After(es);
    TidyInvariant(es);
    assert CallTidy(s, c);
    RefusedIffOrphan(es, c);
    forall d ensures !Orphan(es, d, s.calls[c].slot.key) {
      O.GrantEndIsEnd(es, d);
      assert EntryTidy(s, s.calls[c].slot.key);
    }
  }

  /** In every run, a lease ends at a step exactly when time passes its end, or the server executes
      one of the handle's own commands: a Release, or a Refresh for less than a millisecond. */
  lemma {:induction false} LeaseEndsExactlyWhen(es: seq<Event>, e: Event, k: Key, c: CallId)
    requires var s := After(es); Owns(s.store, k, c, s.now)
    ensures var s, s' := After(es), After(es + [e]);
            !Owns(s'.store, k, c, s'.now) <==>
              (e.Elapse? && s.store[k].until <= s.now + e.span)
              || (e.ServeOp? && Enabled(s, e) && s.ops[e.o].call == c
                  && (s.ops[e.o].kind.Release? || RefreshSpan(s.ops[e.o].kind.ttl) <= 0))
  {
    AfterSnoc(es, e);
    L.Invariant(es);
    var s := After(es);
    assert L.EntryOk(s, k);
    if Enabled(s, e) && (e.ReturnSlot? || e.FreeSlot?) { L.ReturnSteps(s, e, c); }
  }
}
