/** Writes that the server applies behind an error: what they leave on the server when the call that
    sent them returns its local slot, in every run of any number of managers. */
module LockOrphans {
  import opened Types
  import opened TtlStore
  import opened LockSystem
  import L = LockLeases
  import Q = KeyQueue

  /** The server executes a SETNX of c and finds the key free. */
  predicate Grants(s: Sys, e: Event, c: CallId) {
    e == ServeAcquire(c) && Enabled(s, e) && !Live(s.store, s.calls[c].slot.key, s.now)
  }

  /** The end of the span that the latest granted SETNX of c obtained, whatever its client was told. */
  function GrantEnd(es: seq<Event>, c: CallId): int {
    if es == [] then 0
    else
      var s, e := After(es[..|es| - 1]), es[|es| - 1];
      if Grants(s, e, c) then s.now + StoredSpan(s.calls[c].ttl) else GrantEnd(es[..|es| - 1], c)
  }

  /** A token whose call has no handle owns the key up to `end` and not longer. */
  predicate OwnsUntil(s: Sys, c: CallId, end: int) {
    if c !in s.calls then end == 0
    else s.calls[c].pc.Holding? ||
         var k := s.calls[c].slot.key;
         && (Owns(s.store, k, c, s.now) <==> s.now < end)
         && (s.now < end ==> s.store[k].until == end)
  }

  lemma OwnsUntilStep(s: Sys, e: Event, c: CallId, end: int)
    requires L.StoreInv(s) && OwnsUntil(s, c, end)
    ensures OwnsUntil(Step(s, e), c, if Grants(s, e, c) then s.now + StoredSpan(s.calls[c].ttl) else end)
  {
    if Enabled(s, e) {
      if e.ReturnSlot? || e.FreeSlot? {
        L.ReturnSteps(s, e, c);
      } else if e.TryLock? || e.Acquire? {
        assert L.EntryOk(s, e.slot.key);
      } else if e.ServeAcquire? || e.ServeOp? {
        OwnsUntilServed(s, e, c, end);
      }
    }
  }

  lemma OwnsUntilServed(s: Sys, e: Event, c: CallId, end: int)
    requires OpsOnHandles(s) && OwnsUntil(s, c, end) && Enabled(s, e) && (e.ServeAcquire? || e.ServeOp?)
    ensures OwnsUntil(Apply(s, e), c, if Grants(s, e, c) then s.now + StoredSpan(s.calls[c].ttl) else end)
  {
  }

  lemma {:induction false} GrantEndIsEnd(es: seq<Event>, c: CallId)
    ensures OwnsUntil(After(es), c, GrantEnd(es, c))
  {
    if es != [] {
      var init := es[..|es| - 1];
      GrantEndIsEnd(init, c);
      L.Invariant(init);
      OwnsUntilStep(After(init), es[|es| - 1], c, GrantEnd(init, c));
    }
  }

  /** The step returns c's local slot: the end of finalizeOnce, or the deferred return of the error path. */
  predicate ReturnsSlotOf(s: Sys, e: Event, c: CallId) {
    Enabled(s, e) && (e == ReturnSlot(c) || (e.FreeSlot? && s.ops[e.o].call == c))
  }

  /** What the server still holds when a slot is handed on, in every run: nothing, except on the error
      path when a SETNX of the call was granted behind the error and its span is not over. */
  lemma {:induction false} LeaseAtHandOn(es: seq<Event>, e: Event, c: CallId)
    requires ReturnsSlotOf(After(es), e, c)
    ensures var s := After(es);
            Owns(s.store, s.calls[c].slot.key, c, s.now) <==> e.ReturnSlot? && s.now < GrantEnd(es, c)
  {
    L.Invariant(es);
    GrantEndIsEnd(es, c);
    if e.FreeSlot? {
      assert L.EndOk(After(es), e.o, After(es).calls[c].slot.key);
    }
  }

  // ---- A run with such a write -------------------------------------------------------------------------------

  /** A call asks, the server applies its SETNX, the client sees an error and gives the slot back; a
      second call then takes the slot and asks. */
  function OrphanRun(k: Key): seq<Event> {
    var x := Slot(0, k);
    [TryLock(0, x, MILLISECOND), Advance(0, Ask), ServeAcquire(0), Advance(0, AcquireFails), ReturnSlot(0),
     TryLock(1, x, MILLISECOND), Advance(1, Ask)]
  }

  /** After such a write the next owner of the slot is refused, with one manager and nobody holding
      the lock. */
  lemma OrphanedWriteBlocks(k: Key)
    ensures var s := After(OrphanRun(k));
            Enabled(s, ServeAcquire(1)) && Step(s, ServeAcquire(1)).calls[1].pc == Answered(false)
  {
    var x, es := Slot(0, k), OrphanRun(k);
    var s5 := OrphanReturned(k);
    AfterSnoc(es[..5], es[5]);
    AfterSnoc(es[..6], es[6]);
    assert es[..5] + [es[5]] == es[..6] && es[..6] + [es[6]] == es;
    OrphanSecondCall(s5, x);
  }

  /** The same run shows that the error path can hand the slot on while its token still owns the key. */
  lemma HandOnBeforeDeletion(k: Key)
    ensures var s := After(OrphanRun(k)[..4]);
            && ReturnsSlotOf(s, ReturnSlot(0), 0) && s.calls[0].slot.key == k
            && Owns(s.store, k, 0, s.now)
  {
    var es := OrphanRun(k);
    var s3 := OrphanApplied(k);
    AfterSnoc(es[..3], es[3]);
    assert es[..3] + [es[3]] == es[..4];
  }

  lemma OrphanSecondCall(s: Sys, x: Slot)
    requires x !in s.keys && 1 !in s.calls && s.now == 0
    requires s.store == map[x.key := Entry(0, MILLISECOND)]
    ensures var s' := Step(Step(s, TryLock(1, x, MILLISECOND)), Advance(1, Ask));
            Enabled(s', ServeAcquire(1)) && Step(s', ServeAcquire(1)).calls[1].pc == Answered(false)
  {
    var s1 := Step(s, TryLock(1, x, MILLISECOND));
    assert s1.store == s.store && s1.now == 0 && 1 in s1.calls && s1.calls[1].slot == x;
    var s2 := Step(s1, Advance(1, Ask));
    assert s2.store == s.store && s2.now == 0 && 1 in s2.calls && s2.calls[1].slot == x;
  }

  lemma OrphanReturned(k: Key) returns (s: Sys)
    ensures s == After(OrphanRun(k)[..5])
    ensures s.store == map[k := Entry(0, MILLISECOND)] && s.now == 0
    ensures Slot(0, k) !in s.keys && 1 !in s.calls
  {
    var x, es := Slot(0, k), OrphanRun(k);
    var s3 := OrphanApplied(k);
    AfterSnoc(es[..3], es[3]);
    AfterSnoc(es[..4], es[4]);
    assert es[..3] + [es[3]] == es[..4] && es[..4] + [es[4]] == es[..5];
    var s4 := After(es[..4]);
    assert s4.keys == s3.keys && s4.store == s3.store && s4.now == 0 && s4.calls.Keys == {0} && s4.calls[0].slot == x;
    HandOnCalls(SetPc(s4, 0, Gone(GaveBack)), x, 0);
    s := Step(s4, es[4]);
  }

  lemma OrphanApplied(k: Key) returns (s: Sys)
    ensures s == After(OrphanRun(k)[..3])
    ensures s.store == map[k := Entry(0, MILLISECOND)] && s.now == 0 && s.calls.Keys == {0}
    ensures s.calls[0].pc == Answered(true) && s.calls[0].slot == Slot(0, k)
    ensures s.keys == map[Slot(0, k) := Q.KeyState(true, [])]
  {
    var es := OrphanRun(k);
    AfterSnoc([], es[0]);
    AfterSnoc(es[..1], es[1]);
    AfterSnoc(es[..2], es[2]);
    assert [] + [es[0]] == es[..1] && es[..1] + [es[1]] == es[..2] && es[..2] + [es[2]] == es[..3];
    s := After(es[..3]);
    var s1 := After(es[..1]);
    assert s1.calls.Keys == {0} && s1.keys == map[Slot(0, k) := Q.KeyState(true, [])];
  }
}
