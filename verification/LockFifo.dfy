/** Every local slot is a first-come, first-served line: the lock system refines an atomic FIFO
    lock whose head is the claimant, and slots are served in arrival order less cancellations. */
module LockFifo {
  import opened Sequences
  import opened LockSystem
  import opened LockSlots
  import Q = KeyQueue

  // ---- The atomic FIFO lock ---------------------------------------------------------------------

  datatype Action = Idle | Arrive(c: CallId) | Depart | Cancel(c: CallId)

  /** The head of the line has the lock. */
  function Act(line: seq<CallId>, a: Action): seq<CallId> {
    match a
    case Idle => line
    case Arrive(c) => line + [c]
    case Depart => if line == [] then [] else line[1..]
    case Cancel(c) => if line == [] then [] else [line[0]] + Q.Without(line[1..], c)
  }

  function RunLine(acts: seq<Action>): seq<CallId> {
    if acts == [] then [] else Act(RunLine(acts[..|acts| - 1]), acts[|acts| - 1])
  }

  /** Those who left the head, in the order in which they left it. */
  function Served(acts: seq<Action>): seq<CallId> {
    if acts == [] then []
    else
      var prev := acts[..|acts| - 1];
      if acts[|acts| - 1].Depart? && RunLine(prev) != [] then Served(prev) + [RunLine(prev)[0]] else Served(prev)
  }

  /** The arrivals in order, with those who cancelled deleted. */
  function Survivors(acts: seq<Action>): seq<CallId> {
    if acts == [] then []
    else
      var prev := Survivors(acts[..|acts| - 1]);
      match acts[|acts| - 1]
      case Arrive(c) => prev + [c]
      case Cancel(c) => Q.Without(prev, c)
      case _ => prev
  }

  function Arrived(acts: seq<Action>): set<CallId> {
    set i | 0 <= i < |acts| && acts[i].Arrive? :: acts[i].c
  }

  /** Nobody arrives twice, and only those standing behind the head cancel. */
  ghost predicate Proper(acts: seq<Action>) {
    acts == [] ||
    var prev, a := acts[..|acts| - 1], acts[|acts| - 1];
    && Proper(prev)
    && (a.Arrive? ==> a.c !in Arrived(prev))
    && (a.Cancel? ==> RunLine(prev) != [] && a.c in RunLine(prev)[1..])
  }

  lemma {:induction false} SurvivorsDistinct(acts: seq<Action>)
    requires Proper(acts)
    ensures Q.Distinct(Survivors(acts))
    ensures forall c :: c in Survivors(acts) ==> c in Arrived(acts)
  {
    if acts != [] {
      var prev, a := acts[..|acts| - 1], acts[|acts| - 1];
      SurvivorsDistinct(prev);
      assert Arrived(prev) <= Arrived(acts) by {
        forall c | c in Arrived(prev) ensures c in Arrived(acts) {
          var i :| 0 <= i < |prev| && prev[i].Arrive? && prev[i].c == c;
          assert acts[i] == prev[i];
        }
      }
      if a.Cancel? {
        Q.WithoutMembers(Survivors(prev), a.c);
      }
    }
  }

  /** First come, first served: the uncancelled arrivals, in order, are those already served followed
      by those standing in line. */
  lemma {:induction false} FirstComeFirstServed(acts: seq<Action>)
    requires Proper(acts)
    ensures Survivors(acts) == Served(acts) + RunLine(acts)
  {
    if acts != [] {
      var prev, a := acts[..|acts| - 1], acts[|acts| - 1];
      FirstComeFirstServed(prev);
      SurvivorsDistinct(prev);
      match a
      case Cancel(c) => CancelInLine(Served(prev), RunLine(prev), c);
      case Arrive(c) => Associate(Served(prev), RunLine(prev), [c]);
      case Depart => HeadIsServed(Served(prev), RunLine(prev));
      case Idle =>
    }
  }

  lemma HeadIsServed(served: seq<CallId>, line: seq<CallId>)
    ensures line != [] ==> served + line == served + [line[0]] + line[1..]
  {
    if line != [] {
      assert line == [line[0]] + line[1..];
      Associate(served, [line[0]], line[1..]);
    }
  }

  lemma CancelInLine(served: seq<CallId>, line: seq<CallId>, c: CallId)
    requires Q.Distinct(served + line) && line != [] && c in line[1..]
    ensures Q.Without(served + line, c) == served + Act(line, Cancel(c))
  {
    var all, front, rest := served + line, served + [line[0]], line[1..];
    assert all == front + rest;
    NotInFront(front, rest, c);
    Q.WithoutKeepsOrder(front, rest, c);
    assert front + Q.Without(rest, c) == served + ([line[0]] + Q.Without(rest, c));
  }

  lemma NotInFront(front: seq<CallId>, rest: seq<CallId>, c: CallId)
    requires Q.Distinct(front + rest) && c in rest
    ensures c !in front
  {
    var j :| 0 <= j < |rest| && rest[j] == c;
    assert (front + rest)[|front| + j] == c;
    forall i | 0 <= i < |front| ensures front[i] != c {
      assert (front + rest)[i] == front[i];
    }
  }

  // ---- The lock system refines it ---------------------------------------------------------------------

  /** The line of slot x: its claimant, then its waiters. */
  function Line(s: Sys, x: Slot): seq<CallId> {
    if x in s.owner then [s.owner[x]] + Q.StateOf(s.keys, x).waiters else []
  }

  /** What one event does to the line of slot x. */
  function ActionOf(s: Sys, e: Event, x: Slot): Action {
    if !Enabled(s, e) then Idle
    else
      match e
      case TryLock(c, y, _) => if y == x && !Q.StateOf(s.keys, x).held then Arrive(c) else Idle
      case Acquire(c, y, _) => if y == x then Arrive(c) else Idle
      case RemoveWaiter(c) => if s.calls[c].slot == x && InLine(s.calls[c]) then Cancel(c) else Idle
      case ReturnSlot(c) => if s.calls[c].slot == x then Depart else Idle
      case FreeSlot(o) => if s.calls[s.ops[o].call].slot == x then Depart else Idle
      case _ => Idle
  }

  /** The line's history in a run. */
  function Trace(es: seq<Event>, x: Slot): seq<Action> {
    if es == [] then []
    else Trace(es[..|es| - 1], x) + [ActionOf(After(es[..|es| - 1]), es[|es| - 1], x)]
  }

  lemma HandOnLine(s: Sys, t: Sys, x: Slot, y: Slot)
    requires SlotInv(s) && t.keys == s.keys && t.owner == s.owner && y in s.keys
    ensures Line(HandOn(t, y), x) == if x == y then Act(Line(s, x), Depart) else Line(s, x)
  {
    assert SlotOk(s, y);
  }

  /** One step of the lock system is one step, or none, of the atomic FIFO lock. */
  lemma StepRefines(s: Sys, e: Event, x: Slot)
    requires SlotInv(s) && OpsOnHandles(s)
    ensures Line(Step(s, e), x) == Act(Line(s, x), ActionOf(s, e, x))
  {
    assert SlotOk(s, x);
    if !Enabled(s, e) {
    } else if e.ReturnSlot? {
      assert CallOk(s, e.c) && SlotOk(s, s.calls[e.c].slot);
      HandOnLine(s, SetPc(s, e.c, Gone(GaveBack)), x, s.calls[e.c].slot);
    } else if e.FreeSlot? {
      var c := s.ops[e.o].call;
      assert CallOk(s, c) && SlotOk(s, s.calls[c].slot);
      HandOnLine(s, SetFin(s, c, Finished), x, s.calls[c].slot);
    } else if e.RemoveWaiter? {
      RemoveRefines(s, e.c, x);
    } else if e.TryLock? || e.Acquire? {
    } else {
      assert Step(s, e).keys == s.keys && Step(s, e).owner == s.owner;
    }
  }

  lemma RemoveRefines(s: Sys, c: CallId, x: Slot)
    requires SlotInv(s) && Enabled(s, RemoveWaiter(c))
    ensures Line(Step(s, RemoveWaiter(c)), x) == Act(Line(s, x), ActionOf(s, RemoveWaiter(c), x))
  {
    assert SlotOk(s, x) && CallOk(s, c);
    if s.calls[c].slot == x && x in s.keys && !InLine(s.calls[c]) {
      Q.WithoutAbsent(s.keys[x].waiters, c);
    }
  }

  /** In every run, the line of every slot is what the atomic FIFO lock makes of its history. */
  lemma {:induction false} RefinesFifoLock(es: seq<Event>, x: Slot)
    ensures Line(After(es), x) == RunLine(Trace(es, x))
  {
    if es != [] {
      var init := es[..|es| - 1];
      RefinesFifoLock(init, x);
      Invariant(init);
      OperationsWorkOnHandles(init);
      StepRefines(After(init), es[|es| - 1], x);
      assert Trace(es, x)[..|init|] == Trace(init, x) by { TraceLength(init, x); }
      TraceLength(es, x);
    }
  }

  lemma {:induction false} TraceLength(es: seq<Event>, x: Slot)
    ensures |Trace(es, x)| == |es|
  {
    if es != [] { TraceLength(es[..|es| - 1], x); }
  }

  lemma CallsStay(s: Sys, e: Event)
    ensures s.calls.Keys <= Step(s, e).calls.Keys
  {
    if Enabled(s, e) && e.ReturnSlot? {
      HandOnCalls(SetPc(s, e.c, Gone(GaveBack)), s.calls[e.c].slot, e.c);
    } else if Enabled(s, e) && e.FreeSlot? {
      HandOnCalls(SetFin(s, s.ops[e.o].call, Finished), s.calls[s.ops[e.o].call].slot, s.ops[e.o].call);
    }
  }

  /** The history of a slot is proper: arrivals are new calls, cancellations come from the line. */
  lemma {:induction false} TraceProper(es: seq<Event>, x: Slot)
    ensures Proper(Trace(es, x)) && Arrived(Trace(es, x)) <= After(es).calls.Keys
  {
    if es != [] {
      var init, e := es[..|es| - 1], es[|es| - 1];
      var s := After(init);
      TraceProper(init, x);
      RefinesFifoLock(init, x);
      Invariant(init);
      TraceLength(init, x);
      var prev := Trace(init, x);
      var a := ActionOf(s, e, x);
      ArrivedSnoc(prev, a);
      assert (prev + [a])[..|prev|] == prev;
      NextIsProper(s, e, x);
    }
  }

  lemma ArrivedSnoc(prev: seq<Action>, a: Action)
    ensures Arrived(prev + [a]) == Arrived(prev) + if a.Arrive? then {a.c} else {}
  {
    assert forall i :: 0 <= i < |prev| ==> (prev + [a])[i] == prev[i];
    assert (prev + [a])[|prev|] == a;
  }

  lemma NextIsProper(s: Sys, e: Event, x: Slot)
    requires SlotInv(s)
    ensures s.calls.Keys <= Step(s, e).calls.Keys
    ensures var a := ActionOf(s, e, x);
            && (a.Arrive? ==> a.c !in s.calls && a.c in Step(s, e).calls)
            && (a.Cancel? ==> Line(s, x) != [] && a.c in Line(s, x)[1..])
  {
    CallsStay(s, e);
    if e.RemoveWaiter? { assert CallOk(s, e.c) && SlotOk(s, x); }
  }

  /** In every run, each slot serves the uncancelled arrivals in arrival order, and the present
      claimant and waiters are exactly those not yet served. */
  lemma SlotIsFifo(es: seq<Event>, x: Slot)
    ensures Survivors(Trace(es, x)) == Served(Trace(es, x)) + Line(After(es), x)
    ensures Q.Distinct(Survivors(Trace(es, x)))
  {
    TraceProper(es, x);
    RefinesFifoLock(es, x);
    FirstComeFirstServed(Trace(es, x));
    SurvivorsDistinct(Trace(es, x));
  }

  /** No overtaking: whoever arrived earlier and did not cancel has had the slot and given it back
      by the time a later arrival, by TryLock or Acquire, claims it. */
  lemma NoOvertaking(es: seq<Event>, x: Slot, i: nat, j: nat)
    requires i < j < |Survivors(Trace(es, x))|
    requires ClaimsSlot(After(es), Survivors(Trace(es, x))[j], x)
    ensures Survivors(Trace(es, x))[i] in Served(Trace(es, x))
  {
    SlotIsFifo(es, x);
    Invariant(es);
    var all, served := Survivors(Trace(es, x)), Served(Trace(es, x));
    assert CallOk(After(es), all[j]);
    assert all[|served|] == After(es).owner[x];
    assert j == |served|;
    assert served[i] == all[i];
  }
}
