/** Leases on the Redis server, for any number of managers sharing it. */
module LockLeases {
  import opened Types
  import opened TtlStore
  import opened LockSystem

  // ---- The commands the server executes in a run -------------------------------------------------------

  function CommandOf(s: Sys, e: Event): seq<Timed> {
    if !Enabled(s, e) then []
    else
      match e
      case ServeAcquire(c) => [AcquireCommand(s, c)]
      case ServeOp(o) => [OpCommand(s, o)]
      case _ => []
  }

  function Commands(es: seq<Event>): seq<Timed> {
    if es == [] then []
    else Commands(es[..|es| - 1]) + CommandOf(After(es[..|es| - 1]), es[|es| - 1])
  }

  lemma StoreStep(s: Sys, e: Event)
    ensures CommandOf(s, e) == [] ==> Step(s, e).store == s.store && s.now <= Step(s, e).now
    ensures CommandOf(s, e) != [] ==>
              |CommandOf(s, e)| == 1 && CommandOf(s, e)[0].at == s.now == Step(s, e).now
              && Step(s, e).store == Serve(s.store, CommandOf(s, e)[0]).0
  {
    if Enabled(s, e) && e.ReturnSlot? {
      HandOnCalls(SetPc(s, e.c, Gone(GaveBack)), s.calls[e.c].slot, e.c);
    } else if Enabled(s, e) && e.FreeSlot? {
      HandOnCalls(SetFin(s, s.ops[e.o].call, Finished), s.calls[s.ops[e.o].call].slot, s.ops[e.o].call);
    }
  }

  /** The server's store is what its commands, in time order, make of an empty one. */
  lemma {:induction false} ServerHistory(es: seq<Event>)
    ensures After(es).store == Exec(Commands(es))
    ensures Ordered(Commands(es)) && AllBefore(Commands(es), After(es).now)
  {
    if es != [] {
      var init, e := es[..|es| - 1], es[|es| - 1];
      ServerHistory(init);
      StoreStep(After(init), e);
      var cmds, cmd := Commands(init), CommandOf(After(init), e);
      if cmd == [] {
        assert cmds + cmd == cmds;
      } else {
        assert cmd == [cmd[0]];
        ExecSnoc(cmds, cmd[0]);
      }
    }
  }

  /** Mutual exclusion over whole runs: at every instant, two tokens never both hold a lease of one
      key, where a lease runs from a successful SETNX or refresh to its expiry, release or refresh. */
  lemma LeasesExclude(es: seq<Event>, k: Key, a: CallId, b: CallId, t: Time)
    requires Held(Commands(es), k, a, t) && Held(Commands(es), k, b, t)
    ensures a == b
  {
    ServerHistory(es);
    LeaseExclusion(Commands(es), k, a, b, t);
  }

  // ---- What the store may contain -------------------------------------------------------------------------

  /** The server has refused the token, or deleted its entry on a Release. */
  predicate Ends(o: Op) {
    match o.pc
    case Replied(held) => !held || o.kind.Release?
    case Finalizing(_) => true
    case Returned(result) => result.NotHeld? || (result.Nil? && o.kind.Release?)
    case Sent => false
  }

  /** A Release whose compare-and-delete succeeded. */
  predicate Wins(o: Op) {
    o.kind.Release? && (o.pc == Replied(true) || o.pc == Finalizing(true) || o.pc == Returned(Nil))
  }

  /** A command travels only while its call waits for it or has already failed. */
  predicate WireOk(s: Sys, c: CallId) {
    c in s.calls && s.calls[c].wire ==> s.calls[c].pc.Asking? || s.calls[c].pc.Returning? || s.calls[c].pc.Gone?
  }

  predicate EntryOk(s: Sys, k: Key) {
    k in s.store ==> s.store[k].value in s.calls && s.calls[s.store[k].value].slot.key == k
  }

  /** Once the server has ended a handle's lease, its token never has a live entry again. */
  predicate EndOk(s: Sys, o: OpId, k: Key) {
    o in s.ops && Ends(s.ops[o]) && k in s.store && s.store[k].value == s.ops[o].call ==> s.store[k].until <= s.now
  }

  /** A successful finalisation belongs to a Release, and a handle has at most one. */
  predicate WinOk(s: Sys, o: OpId, p: OpId) {
    && (o in s.ops && s.ops[o].pc == Finalizing(true) ==> s.ops[o].kind.Release?)
    && (o in s.ops && p in s.ops && Wins(s.ops[o]) && Wins(s.ops[p]) && s.ops[o].call == s.ops[p].call ==> o == p)
  }

  ghost predicate StoreInv(s: Sys) {
    && OpsOnHandles(s)
    && (forall c :: WireOk(s, c))
    && (forall k :: EntryOk(s, k))
    && (forall o, k :: EndOk(s, o, k))
    && (forall o, p :: WinOk(s, o, p))
  }

  /** What a slot return leaves untouched. */
  lemma ReturnSteps(s: Sys, e: Event, c: CallId)
    requires Enabled(s, e) && (e.ReturnSlot? || e.FreeSlot?)
    ensures var s' := Apply(s, e);
            && s'.store == s.store && s'.ops == s.ops && s'.now == s.now && s'.calls.Keys == s.calls.Keys
            && (c in s.calls ==> s'.calls[c].slot == s.calls[c].slot && s'.calls[c].wire == s.calls[c].wire
                                 && s'.calls[c].sentAt == s.calls[c].sentAt && s'.calls[c].ttl == s.calls[c].ttl
                                 && (s'.calls[c].pc == s.calls[c].pc || s'.calls[c].pc == Pop(s.calls[c].pc)
                                     || (s.calls[c].pc.Returning? && s'.calls[c].pc.Gone?)))
  {
    if e.ReturnSlot? {
      HandOnCalls(SetPc(s, e.c, Gone(GaveBack)), s.calls[e.c].slot, c);
    } else {
      var d := s.ops[e.o].call;
      HandOnCalls(SetFin(s, d, Finished), s.calls[d].slot, c);
    }
  }

  lemma WireStep(s: Sys, e: Event, c: CallId)
    requires WireOk(s, c)
    ensures WireOk(Step(s, e), c)
  {
    if Enabled(s, e) && (e.ReturnSlot? || e.FreeSlot?) { ReturnSteps(s, e, c); }
  }

  lemma EntryStep(s: Sys, e: Event, k: Key)
    requires EntryOk(s, k) && OpsOnHandles(s)
    ensures EntryOk(Step(s, e), k)
  {
    if Enabled(s, e) && (e.ReturnSlot? || e.FreeSlot?) {
      if k in s.store { ReturnSteps(s, e, s.store[k].value); }
    }
  }

  lemma EndStep(s: Sys, e: Event, o: OpId, k: Key)
    requires StoreInv(s)
    ensures EndOk(Step(s, e), o, k)
  {
    assert EndOk(s, o, k) && EntryOk(s, k);
    if Enabled(s, e) && (e.ReturnSlot? || e.FreeSlot?) {
      ReturnSteps(s, e, 0);
    } else if Enabled(s, e) && e.ServeAcquire? {
      assert WireOk(s, e.c);
    }
  }

  lemma WinStep(s: Sys, e: Event, o: OpId, p: OpId)
    requires StoreInv(s)
    ensures WinOk(Step(s, e), o, p)
  {
    assert WinOk(s, o, p) && WinOk(s, p, o);
    if Enabled(s, e) && (e.ReturnSlot? || e.FreeSlot?) {
      ReturnSteps(s, e, 0);
    } else if Enabled(s, e) && e.ServeOp? {
      var k := s.calls[s.ops[e.o].call].slot.key;
      assert EndOk(s, o, k) && EndOk(s, p, k);
    }
  }

  lemma {:induction false} Invariant(es: seq<Event>)
    ensures StoreInv(After(es))
  {
    OperationsWorkOnHandles(es);
    if es != [] {
      var s, e := After(es[..|es| - 1]), es[|es| - 1];
      Invariant(es[..|es| - 1]);
      forall c ensures WireOk(Step(s, e), c) { assert WireOk(s, c); WireStep(s, e, c); }
      forall k ensures EntryOk(Step(s, e), k) { assert EntryOk(s, k); EntryStep(s, e, k); }
      forall o, k ensures EndOk(Step(s, e), o, k) { EndStep(s, e, o, k); }
      forall o, p ensures WinOk(Step(s, e), o, p) { WinStep(s, e, o, p); }
    }
  }

  /** At most one Release of a handle ever returns nil, in any run. */
  lemma OneSuccessfulRelease(es: seq<Event>, o: OpId, p: OpId)
    requires var s := After(es);
             && o in s.ops && s.ops[o].kind.Release? && s.ops[o].pc == Returned(Nil)
             && p in s.ops && s.ops[p].kind.Release? && s.ops[p].pc == Returned(Nil)
             && s.ops[o].call == s.ops[p].call
    ensures o == p
  {
    Invariant(es);
    assert WinOk(After(es), o, p);
  }

  /** From the moment a Release is answered, or any operation "not held", the token owns nothing. */
  lemma EndedOwnsNothing(es: seq<Event>, o: OpId, k: Key)
    requires o in After(es).ops && Ends(After(es).ops[o])
    ensures !Owns(After(es).store, k, After(es).ops[o].call, After(es).now)
  {
    Invariant(es);
    assert EndOk(After(es), o, k);
  }
}
