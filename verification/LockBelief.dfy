/** What a client may conclude from acknowledgements alone: counting a span that none of its commands
    undercuts from the moment it sent the last acknowledged one, it owns the key on the server. */
module LockBelief {
  import opened TtlStore
  import opened LockSystem
  import L = LockLeases

  predicate Granted(c: Call) {
    c.pc == Answered(true) || c.pc.Holding?
  }

  predicate AckedRefresh(o: Op) {
    o.kind.Refresh? && (o.pc == Replied(true) || o.pc == Returned(Nil))
  }

  /** Nobody has begun to release the handle, and its first lease and all refreshes begun so far are for
      a span of at least m and of at least a millisecond. */
  ghost predicate Steady(s: Sys, c: CallId, m: nat) {
    c in s.calls && m <= StoredSpan(s.calls[c].ttl)
    && forall o :: o in s.ops && s.ops[o].call == c ==>
         s.ops[o].kind.Refresh? && 0 < RefreshSpan(s.ops[o].kind.ttl) && m <= RefreshSpan(s.ops[o].kind.ttl)
  }

  /** A span m counted from instant a is over, or the server still grants the lease to its end. */
  predicate Backed(s: Sys, c: CallId, a: Time, m: nat)
    requires c in s.calls
  {
    var k, end := s.calls[c].slot.key, a + m;
    end <= s.now || (k in s.store && s.store[k].value == c && end <= s.store[k].until)
  }

  ghost predicate CallBacked(s: Sys, c: CallId, m: nat) {
    c in s.calls ==>
      && 0 < s.calls[c].ttl && s.calls[c].sentAt <= s.now
      && (Granted(s.calls[c]) && Steady(s, c, m) ==> Backed(s, c, s.calls[c].sentAt, m))
  }

  ghost predicate OpBacked(s: Sys, o: OpId, m: nat) {
    o in s.ops && s.ops[o].call in s.calls ==>
      && s.ops[o].sentAt <= s.now
      && (AckedRefresh(s.ops[o]) && Steady(s, s.ops[o].call, m) ==> Backed(s, s.ops[o].call, s.ops[o].sentAt, m))
  }

  lemma SteadyBefore(s: Sys, e: Event, c: CallId, m: nat)
    requires OpsOnHandles(s) && c in s.calls && Steady(Step(s, e), c, m)
    ensures Steady(s, c, m) && Step(s, e).calls[c].slot == s.calls[c].slot && Step(s, e).calls[c].ttl == s.calls[c].ttl
  {
    var s' := Step(s, e);
    if Enabled(s, e) && (e.ReturnSlot? || e.FreeSlot?) { L.ReturnSteps(s, e, c); }
    assert forall o :: o in s.ops ==> o in s'.ops && s'.ops[o].call == s.ops[o].call && s'.ops[o].kind == s.ops[o].kind;
  }

  /** A lease that is backed stays backed: by other tokens' commands because the server refuses them,
      by the handle's own refreshes because they extend it. */
  lemma BackedStep(s: Sys, e: Event, c: CallId, a: Time, m: nat)
    requires L.StoreInv(s) && c in s.calls && !s.calls[c].wire && 0 < s.calls[c].ttl && a <= s.now
    requires Backed(s, c, a, m) && Steady(Step(s, e), c, m)
    ensures c in Step(s, e).calls && Backed(Step(s, e), c, a, m)
  {
    SteadyBefore(s, e, c, m);
    if Enabled(s, e) {
      if e.ReturnSlot? || e.FreeSlot? {
        L.ReturnSteps(s, e, c);
      } else if e.ServeOp? {
        ServeOpBacked(s, e.o, c, a, m);
      }
    }
  }

  lemma ServeOpBacked(s: Sys, o: OpId, c: CallId, a: Time, m: nat)
    requires c in s.calls && 0 < s.calls[c].ttl && a <= s.now && Enabled(s, ServeOp(o))
    requires Backed(s, c, a, m) && Steady(s, c, m)
    ensures Backed(Apply(s, ServeOp(o)), c, a, m)
  {
  }

  /** A call is granted only when the server executes its SETNX, and that backs it. */
  lemma NewlyGranted(s: Sys, e: Event, c: CallId, m: nat)
    requires c in s.calls && 0 < s.calls[c].ttl && s.calls[c].sentAt <= s.now
    ensures var s' := Step(s, e);
            && c in s'.calls && s'.calls[c].ttl == s.calls[c].ttl && s'.calls[c].sentAt <= s'.now
            && (Granted(s'.calls[c]) ==>
                  if Granted(s.calls[c]) then s'.calls[c].sentAt == s.calls[c].sentAt
                  else m <= StoredSpan(s.calls[c].ttl) ==> Backed(s', c, s'.calls[c].sentAt, m))
  {
    if Enabled(s, e) && (e.ReturnSlot? || e.FreeSlot?) { L.ReturnSteps(s, e, c); }
  }

  lemma CallStep(s: Sys, e: Event, c: CallId, m: nat)
    requires L.StoreInv(s) && CallBacked(s, c, m)
    ensures CallBacked(Step(s, e), c, m)
  {
    var s' := Step(s, e);
    assert L.WireOk(s, c);
    if c in s.calls {
      NewlyGranted(s, e, c, m);
      if Steady(s', c, m) {
        SteadyBefore(s, e, c, m);
        if Granted(s.calls[c]) { BackedStep(s, e, c, s.calls[c].sentAt, m); }
      }
    }
  }

  /** A refresh the server accepts backs the lease from the moment it was sent. */
  lemma AckBacked(s: Sys, o: OpId, m: nat)
    requires Enabled(s, ServeOp(o)) && Steady(s, s.ops[o].call, m)
    requires 0 < s.calls[s.ops[o].call].ttl && s.ops[o].sentAt <= s.now
    ensures AckedRefresh(Apply(s, ServeOp(o)).ops[o]) && s.ops[o].pc.Sent? ==>
              Backed(Apply(s, ServeOp(o)), s.ops[o].call, s.ops[o].sentAt, m)
  {
  }

  /** A refresh is acknowledged only when the server accepts it, and then it was sent before. */
  lemma NewlyAcked(s: Sys, e: Event, o: OpId)
    requires o in s.ops && L.WinOk(s, o, o)
    ensures var s' := Step(s, e);
            && o in s'.ops && s'.ops[o].call == s.ops[o].call && s'.ops[o].sentAt == s.ops[o].sentAt && s.now <= s'.now
            && (AckedRefresh(s'.ops[o]) ==>
                  AckedRefresh(s.ops[o]) || (e == ServeOp(o) && Enabled(s, e) && s.ops[o].pc.Sent?))
  {
    if Enabled(s, e) && (e.ReturnSlot? || e.FreeSlot?) { L.ReturnSteps(s, e, 0); }
  }

  lemma OpStep(s: Sys, e: Event, o: OpId, m: nat)
    requires L.StoreInv(s) && OpBacked(s, o, m)
    requires forall c :: CallBacked(s, c, m)
    ensures OpBacked(Step(s, e), o, m)
  {
    var s' := Step(s, e);
    if o in s.ops {
      var c := s.ops[o].call;
      assert L.WireOk(s, c) && L.WinOk(s, o, o) && CallBacked(s, c, m);
      NewlyAcked(s, e, o);
      if Steady(s', c, m) {
        SteadyBefore(s, e, c, m);
        if Enabled(s, e) && e == ServeOp(o) && s.ops[o].pc.Sent? {
          AckBacked(s, o, m);
        } else if AckedRefresh(s.ops[o]) { BackedStep(s, e, c, s.ops[o].sentAt, m); }
      }
    }
  }

  lemma {:induction false} Invariant(es: seq<Event>, m: nat)
    ensures forall c :: CallBacked(After(es), c, m)
    ensures forall o :: OpBacked(After(es), o, m)
  {
    if es != [] {
      var s, e := After(es[..|es| - 1]), es[|es| - 1];
      Invariant(es[..|es| - 1], m);
      L.Invariant(es[..|es| - 1]);
      forall c ensures CallBacked(Step(s, e), c, m) { CallStep(s, e, c, m); }
      forall o ensures OpBacked(Step(s, e), o, m) { OpStep(s, e, o, m); }
    }
  }

  /** The client's own reckoning: a command sent at `a` was acknowledged, and the span m, which none of the
      client's commands undercuts, is not over since. */
  ghost predicate TrustsLease(s: Sys, c: CallId, a: Time, m: nat) {
    && c in s.calls && Granted(s.calls[c]) && Steady(s, c, m)
    && (a == s.calls[c].sentAt
        || exists o :: o in s.ops && s.ops[o].call == c && AckedRefresh(s.ops[o]) && s.ops[o].sentAt == a)
    && s.now < a + m
  }

  /** A client that trusts its lease is right: the server holds the key for its token. */
  lemma {:induction false} TrustIsSound(es: seq<Event>, c: CallId, a: Time, m: nat)
    requires TrustsLease(After(es), c, a, m)
    ensures Owns(After(es).store, After(es).calls[c].slot.key, c, After(es).now)
  {
    Invariant(es, m);
    var s := After(es);
    assert CallBacked(s, c, m);
    if a != s.calls[c].sentAt {
      var o :| o in s.ops && s.ops[o].call == c && AckedRefresh(s.ops[o]) && s.ops[o].sentAt == a;
      assert OpBacked(s, o, m);
    }
  }

  /** So no two clients of a cluster, in any managers, ever trust a lease of one key together. */
  lemma {:induction false} TrustExcludes(es: seq<Event>, c: CallId, d: CallId, a: Time, b: Time,
                                         m: nat, n: nat)
    requires TrustsLease(After(es), c, a, m) && TrustsLease(After(es), d, b, n)
    requires After(es).calls[c].slot.key == After(es).calls[d].slot.key
    ensures c == d
  {
    TrustIsSound(es, c, a, m);
    TrustIsSound(es, d, b, n);
  }
}
