/** Every lock manager of a cluster, their handles and one Redis server, as atomic steps at the
    mutex, channel and script boundaries. A run is any sequence of events: an event that is not
    enabled leaves the state as it is, so statements about all sequences cover every schedule. */
module LockSystem {
  import opened Types
  import opened TtlStore
  import Q = KeyQueue

  type CallId = nat
  type OpId = nat

  /** One key in one manager's local queue. */
  datatype Slot = Slot(manager: nat, key: Key)

  /** A waiter's channel: in the line, popped by `release`, closed by `release`. */
  datatype Chan = Queued | Popped | Closed

  datatype Exit = Refused | Cancelled | Abandoned | GaveBack

  /** Where a TryLock or Acquire call stands. `Holding` is forever: the call returned a handle. */
  datatype Pc =
    | Waiting(chan: Chan)        // blocked in the select
    | Leaving(chan: Chan)        // took ctx.Done(), has not yet run removeWaiter
    | Owning                     // has the slot, no backend call outstanding
    | Asking                     // backend Acquire outstanding
    | Answered(granted: bool)    // the server's answer has not yet been read
    | Returning                  // error path: the deferred slot return is due
    | Holding
    | Gone(exit: Exit)

  /** Progress of the handle's finalizeOnce, with the operation that runs it. */
  datatype Fin =
    | Unfinished
    | Entered(runner: OpId)
    | Flagged(runner: OpId)          // released == true
    | Stopped(runner: OpId)          // watchdogStop closed
    | Finished                   // slot returned

  /** A call and, once it holds, its handle. The call's number is also its token and its waiter
      channel: tokens are assumed distinct. `wire` says that its SETNX is travelling. */
  datatype Call = Call(slot: Slot, ttl: int, single: bool, pc: Pc, wire: bool, sentAt: Time, fin: Fin)

  datatype OpKind = Release | Refresh(ttl: int)

  datatype OpResult = Nil | NotHeld | AlreadyReleased | Failed

  datatype OpPc =
    | Sent
    | Replied(held: bool)
    | Finalizing(held: bool)
    | Returned(result: OpResult)

  /** One Release, Refresh or watchdog tick on a handle. */
  datatype Op = Op(call: CallId, kind: OpKind, pc: OpPc, wire: bool, sentAt: Time)

  /** `owner` is an auxiliary variable: no step reads it. */
  datatype Sys = Sys(
    now: Time,
    store: Store,
    keys: map<Slot, Q.KeyState>,
    calls: map<CallId, Call>,
    ops: map<OpId, Op>,
    owner: map<Slot, CallId>)

  const START := Sys(0, map[], map[], map[], map[], map[])

  /** Steps of a call that touch neither the queue nor the server. */
  datatype Move =
    | CloseWaiter      // close(next), after the pop
    | Wake             // <-waiter
    | CtxDone          // <-ctx.Done()
    | GiveUp           // no token, strategy exhausted, or ctx done between attempts
    | Ask
    | DropAcquire      // the network loses the travelling SETNX
    | AcquireFails     // the client gets an error, whatever the server did or will do
    | AcquireReply

  /** Steps of an operation outside finalizeOnce. */
  datatype OpMove = DropOp | OpFails | OpReply | EndOp

  /** Steps inside finalizeOnce, up to the return of the slot. */
  datatype FinMove = EnterFinalize | SetReleased | CloseStop

  datatype Event =
    | Elapse(span: nat)
    | TryLock(c: CallId, slot: Slot, ttl: int)
    | Acquire(c: CallId, slot: Slot, ttl: int)
    | Advance(c: CallId, move: Move)
    | RemoveWaiter(c: CallId)
    | ServeAcquire(c: CallId)     // the server executes the travelling SETNX
    | ReturnSlot(c: CallId)
    | BeginOp(o: OpId, c: CallId, kind: OpKind)
    | ServeOp(o: OpId)            // the server executes the travelling script
    | AdvanceOp(o: OpId, opMove: OpMove)
    | AdvanceFin(o: OpId, finMove: FinMove)
    | FreeSlot(o: OpId)

  predicate IsReleased(c: Call) {
    c.fin.Flagged? || c.fin.Stopped? || c.fin.Finished?
  }

  predicate CanMove(c: Call, m: Move) {
    match m
    case CloseWaiter => c.pc == Waiting(Popped) || c.pc == Leaving(Popped)
    case Wake => c.pc == Waiting(Closed)
    case CtxDone => c.pc.Waiting?
    case GiveUp => c.pc.Owning?
    case Ask => c.pc.Owning?
    case DropAcquire => c.wire
    case AcquireFails => c.pc.Asking? || c.pc.Answered?
    case AcquireReply => c.pc.Answered?
  }

  function Moved(c: Call, m: Move, now: Time): Call
    requires CanMove(c, m)
  {
    match m
    case CloseWaiter => c.(pc := if c.pc.Waiting? then Waiting(Closed) else Leaving(Closed))
    case Wake => c.(pc := Owning)
    case CtxDone => c.(pc := Leaving(c.pc.chan))
    case GiveUp => c.(pc := Returning)
    case Ask => c.(pc := Asking, wire := true, sentAt := now)
    case DropAcquire => c.(wire := false)
    case AcquireFails => c.(pc := Returning)
    case AcquireReply => c.(pc := if c.pc.granted then Holding else if c.single then Returning else Owning)
  }

  predicate CanMoveOp(o: Op, m: OpMove) {
    match m
    case DropOp => o.wire
    case OpFails => o.pc.Sent? || o.pc.Replied?
    case OpReply => o.pc.Replied?
    case EndOp => o.pc.Finalizing?
  }

  function MovedOp(o: Op, m: OpMove): Op
    requires CanMoveOp(o, m)
  {
    match m
    case DropOp => o.(wire := false)
    case OpFails => o.(pc := Returned(Failed))
    case OpReply => o.(pc := if o.pc.held && o.kind.Refresh? then Returned(Nil) else Finalizing(o.pc.held))
    case EndOp => o.(pc := Returned(if o.pc.held then Nil else NotHeld))
  }

  function FinBefore(o: OpId, m: FinMove): Fin {
    match m
    case EnterFinalize => Unfinished
    case SetReleased => Entered(o)
    case CloseStop => Flagged(o)
  }

  function FinAfter(o: OpId, m: FinMove): Fin {
    match m
    case EnterFinalize => Entered(o)
    case SetReleased => Flagged(o)
    case CloseStop => Stopped(o)
  }

  predicate Enabled(s: Sys, e: Event) {
    match e
    case Elapse(_) => true
    case TryLock(c, _, ttl) => c !in s.calls && 0 < ttl
    case Acquire(c, _, ttl) => c !in s.calls && 0 < ttl
    case Advance(c, m) => c in s.calls && CanMove(s.calls[c], m)
    case RemoveWaiter(c) => c in s.calls && s.calls[c].pc.Leaving?
    case ServeAcquire(c) => c in s.calls && s.calls[c].wire
    case ReturnSlot(c) => c in s.calls && s.calls[c].pc.Returning?
    case BeginOp(o, c, _) => o !in s.ops && c in s.calls && s.calls[c].pc.Holding?
    case ServeOp(o) => o in s.ops && s.ops[o].wire && s.ops[o].call in s.calls
    case AdvanceOp(o, m) =>
      o in s.ops && CanMoveOp(s.ops[o], m)
      && (m.EndOp? ==> s.ops[o].call in s.calls && s.calls[s.ops[o].call].fin.Finished?)
    case AdvanceFin(o, m) => MayFinalize(s, o) && s.calls[s.ops[o].call].fin == FinBefore(o, m)
    case FreeSlot(o) => MayFinalize(s, o) && s.calls[s.ops[o].call].fin == Stopped(o)
  }

  predicate MayFinalize(s: Sys, o: OpId) {
    o in s.ops && s.ops[o].pc.Finalizing? && s.ops[o].call in s.calls
  }

  function SetPc(s: Sys, c: CallId, pc: Pc): Sys
    requires c in s.calls
  {
    s.(calls := s.calls[c := s.calls[c].(pc := pc)])
  }

  function SetFin(s: Sys, c: CallId, fin: Fin): Sys
    requires c in s.calls
  {
    s.(calls := s.calls[c := s.calls[c].(fin := fin)])
  }

  function Pop(pc: Pc): Pc {
    match pc
    case Waiting(_) => Waiting(Popped)
    case Leaving(_) => Leaving(Popped)
    case _ => pc
  }

  /** The critical section of the queue's `release` for slot x. */
  function HandOn(s: Sys, x: Slot): Sys {
    var (keys, next) := Q.Release(s.keys, x);
    match next
    case None => s.(keys := keys, owner := s.owner - {x})
    case Some(w) =>
      var s' := s.(keys := keys, owner := s.owner[x := w]);
      if w in s.calls then SetPc(s', w, Pop(s.calls[w].pc)) else s'
  }

  /** Handing a slot on changes no call but the popped waiter, and of it only the channel. */
  lemma HandOnCalls(s: Sys, x: Slot, c: CallId)
    ensures HandOn(s, x).calls.Keys == s.calls.Keys
    ensures c in s.calls ==> HandOn(s, x).calls[c] == s.calls[c]
                             || HandOn(s, x).calls[c] == s.calls[c].(pc := Pop(s.calls[c].pc))
    ensures HandOn(s, x).store == s.store && HandOn(s, x).ops == s.ops && HandOn(s, x).now == s.now
  {
  }

  function AcquireCommand(s: Sys, c: CallId): Timed
    requires c in s.calls
  {
    Timed(s.now, SetNx(s.calls[c].slot.key, c, StoredSpan(s.calls[c].ttl)))
  }

  function OpCommand(s: Sys, o: OpId): Timed
    requires o in s.ops && s.ops[o].call in s.calls
  {
    var c := s.ops[o].call;
    var key := s.calls[c].slot.key;
    Timed(s.now, match s.ops[o].kind
                 case Release => CompareDelete(key, c)
                 case Refresh(ttl) => CompareExpire(key, c, RefreshSpan(ttl)))
  }

  function Apply(s: Sys, e: Event): Sys
    requires Enabled(s, e)
  {
    match e
    case Elapse(span) => s.(now := s.now + span)
    case TryLock(c, x, ttl) =>
      var (keys, ok) := Q.TryAcquire(s.keys, x);
      s.(keys := keys,
         calls := s.calls[c := Call(x, ttl, true, if ok then Owning else Gone(Refused), false, s.now, Unfinished)],
         owner := if ok then s.owner[x := c] else s.owner)
    case Acquire(c, x, ttl) =>
      var (keys, ok) := Q.Join(s.keys, x, c);
      s.(keys := keys,
         calls := s.calls[c := Call(x, ttl, false, if ok then Owning else Waiting(Queued), false, s.now, Unfinished)],
         owner := if ok then s.owner[x := c] else s.owner)
    case Advance(c, m) => s.(calls := s.calls[c := Moved(s.calls[c], m, s.now)])
    case RemoveWaiter(c) =>
      var s' := s.(keys := Q.Remove(s.keys, s.calls[c].slot, c));
      SetPc(s', c, Gone(if s.calls[c].pc.chan.Queued? then Cancelled else Abandoned))
    case ServeAcquire(c) =>
      var (store, ok) := Serve(s.store, AcquireCommand(s, c));
      s.(store := store,
         calls := s.calls[c := s.calls[c].(wire := false,
                                           pc := if s.calls[c].pc.Asking? then Answered(ok) else s.calls[c].pc)])
    case ReturnSlot(c) => HandOn(SetPc(s, c, Gone(GaveBack)), s.calls[c].slot)
    case BeginOp(o, c, kind) =>
      s.(ops := s.ops[o := if IsReleased(s.calls[c]) then Op(c, kind, Returned(AlreadyReleased), false, s.now)
                           else Op(c, kind, Sent, true, s.now)])
    case ServeOp(o) =>
      var (store, ok) := Serve(s.store, OpCommand(s, o));
      s.(store := store,
         ops := s.ops[o := s.ops[o].(wire := false, pc := if s.ops[o].pc.Sent? then Replied(ok) else s.ops[o].pc)])
    case AdvanceOp(o, m) => s.(ops := s.ops[o := MovedOp(s.ops[o], m)])
    case AdvanceFin(o, m) => SetFin(s, s.ops[o].call, FinAfter(o, m))
    case FreeSlot(o) => HandOn(SetFin(s, s.ops[o].call, Finished), s.calls[s.ops[o].call].slot)
  }

  function Step(s: Sys, e: Event): Sys {
    if Enabled(s, e) then Apply(s, e) else s
  }

  /** The state a run leaves behind. */
  function After(es: seq<Event>): Sys {
    if es == [] then START else Step(After(es[..|es| - 1]), es[|es| - 1])
  }

  lemma AfterSnoc(es: seq<Event>, e: Event)
    ensures After(es + [e]) == Step(After(es), e)
  {
    assert (es + [e])[..|es|] == es;
  }

  // ---- Who may claim a slot ------------------------------------------------------------------

  /** The call is in line and has not been popped. */
  predicate InLine(c: Call) {
    (c.pc.Waiting? || c.pc.Leaving?) && c.pc.chan.Queued?
  }

  /** The slot was handed to the call and it has neither woken nor left. */
  predicate HandedOff(c: Call) {
    (c.pc.Waiting? || c.pc.Leaving?) && !c.pc.chan.Queued?
  }

  /** The slot was handed to a call that had already chosen to leave: nobody will return it. */
  predicate Lost(c: Call) {
    c.pc == Gone(Abandoned)
  }

  /** The call runs with the slot, or its handle has not yet returned it. */
  predicate OwnsSlot(c: Call) {
    c.pc.Owning? || c.pc.Asking? || c.pc.Answered? || c.pc.Returning? || (c.pc.Holding? && !c.fin.Finished?)
  }

  predicate Claims(c: Call) {
    HandedOff(c) || Lost(c) || OwnsSlot(c)
  }

  // ---- Operations live on handles ----------------------------------------------------------------

  /** Every operation works on a call that returned a handle. */
  ghost predicate OpsOnHandles(s: Sys) {
    forall o :: o in s.ops ==> s.ops[o].call in s.calls && s.calls[s.ops[o].call].pc.Holding?
  }

  lemma HoldingStays(s: Sys, e: Event, c: CallId)
    requires c in s.calls && s.calls[c].pc.Holding?
    ensures c in Step(s, e).calls && Step(s, e).calls[c].pc.Holding?
    ensures Step(s, e).calls[c].slot == s.calls[c].slot
  {
    if Enabled(s, e) && e.ReturnSlot? {
      HandOnCalls(SetPc(s, e.c, Gone(GaveBack)), s.calls[e.c].slot, c);
    } else if Enabled(s, e) && e.FreeSlot? {
      var d := s.ops[e.o].call;
      HandOnCalls(SetFin(s, d, Finished), s.calls[d].slot, c);
    }
  }

  lemma {:induction false} OperationsWorkOnHandles(es: seq<Event>)
    ensures OpsOnHandles(After(es))
  {
    if es != [] {
      var s, e := After(es[..|es| - 1]), es[|es| - 1];
      OperationsWorkOnHandles(es[..|es| - 1]);
      forall o | o in Step(s, e).ops
        ensures Step(s, e).ops[o].call in Step(s, e).calls && Step(s, e).calls[Step(s, e).ops[o].call].pc.Holding?
      {
        var c := Step(s, e).ops[o].call;
        assert if o in s.ops then s.ops[o].call == c else e.BeginOp? && e.c == c && Enabled(s, e);
        HoldingStays(s, e, c);
      }
    }
  }
}
