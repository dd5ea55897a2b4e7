/** The Kafka consumer runner: a polling goroutine, a bounded queue and a handling goroutine that
    commits, as atomic steps. A run is any sequence of events; disabled ones change nothing. */
module Kafka {
  import opened Sequences
  import opened Types

  datatype Message = Message(partition: int, offset: int)

  datatype Poller =
    | Checking                 // top of the loop: is the context done?
    | Polling                  // inside consumer.Poll
    | Sending(m: Message)      // in the select that offers m to the queue
    | Leaving                  // returned; the deferred close(queue) is due
    | PollerExited

  datatype Worker =
    | Selecting
    | Handling(m: Message)
    | Committing(m: Message)   // the handler returned nil
    | WorkerExited

  /** The last four fields record what has happened; only Poll's environment reads one of them. */
  datatype Runner = Runner(
    capacity: nat,
    cancelled: bool,
    poller: Poller,
    queue: seq<Message>,
    closed: bool,
    worker: Worker,
    runningTasks: int,
    polled: seq<Message>,
    handled: seq<Message>,
    dropped: seq<Message>,
    committed: seq<Message>)

  function Started(capacity: nat): Runner {
    Runner(capacity, false, Checking, [], false, Selecting, 0, [], [], [], [])
  }

  datatype Event =
    | Cancel
    | Check                    // the poller's non-blocking look at ctx.Done()
    | PollNothing              // nil, an error, or another kind of event
    | PollMessage(m: Message)
    | Enqueue
    | Meet                     // an offered message goes straight to the waiting worker
    | StopSending              // the poller's select takes ctx.Done(): its message is lost
    | CloseQueue
    | Take
    | SeeClosed
    | StopTaking               // the worker's select takes ctx.Done()
    | HandlerReturns(ok: bool)
    | Commit

  /** Offsets of one partition come in increasing order: no rebalance. */
  predicate InOrder(polled: seq<Message>, m: Message) {
    forall i :: 0 <= i < |polled| && polled[i].partition == m.partition ==> polled[i].offset < m.offset
  }

  predicate Enabled(s: Runner, e: Event) {
    match e
    case Cancel => !s.cancelled
    case Check => s.poller.Checking?
    case PollNothing => s.poller.Polling?
    case PollMessage(m) => s.poller.Polling? && InOrder(s.polled, m)
    case Enqueue => s.poller.Sending? && |s.queue| < s.capacity
    case Meet => s.poller.Sending? && s.queue == [] && s.worker.Selecting?
    case StopSending => s.poller.Sending? && s.cancelled
    case CloseQueue => s.poller.Leaving?
    case Take => s.worker.Selecting? && s.queue != []
    case SeeClosed => s.worker.Selecting? && s.queue == [] && s.closed
    case StopTaking => s.worker.Selecting? && s.cancelled
    case HandlerReturns(_) => s.worker.Handling?
    case Commit => s.worker.Committing?
  }

  function Apply(s: Runner, e: Event): Runner
    requires Enabled(s, e)
  {
    match e
    case Cancel => s.(cancelled := true)
    case Check => s.(poller := if s.cancelled then Leaving else Polling)
    case PollNothing => s.(poller := Checking)
    case PollMessage(m) => s.(poller := Sending(m), polled := s.polled + [m])
    case Enqueue => s.(poller := Checking, queue := s.queue + [s.poller.m])
    case Meet => s.(poller := Checking, worker := Handling(s.poller.m), runningTasks := s.runningTasks + 1)
    case StopSending => s.(poller := Leaving, dropped := [s.poller.m])
    case CloseQueue => s.(poller := PollerExited, closed := true)
    case Take => s.(queue := s.queue[1..], worker := Handling(s.queue[0]), runningTasks := s.runningTasks + 1)
    case SeeClosed => s.(worker := WorkerExited)
    case StopTaking => s.(worker := WorkerExited)
    case HandlerReturns(ok) =>
      s.(worker := if ok then Committing(s.worker.m) else Selecting,
         runningTasks := s.runningTasks - 1,
         handled := s.handled + [s.worker.m])
    case Commit => s.(worker := Selecting, committed := s.committed + [s.worker.m])
  }

  function Step(s: Runner, e: Event): Runner {
    if Enabled(s, e) then Apply(s, e) else s
  }

  function After(capacity: nat, es: seq<Event>): Runner {
    if es == [] then Started(capacity) else Step(After(capacity, es[..|es| - 1]), es[|es| - 1])
  }

  // ---- Conservation and commit safety --------------------------------------------------------------------

  function InHandler(s: Runner): seq<Message> {
    if s.worker.Handling? then [s.worker.m] else []
  }

  function InPoller(s: Runner): seq<Message> {
    if s.poller.Sending? then [s.poller.m] else []
  }

  /** Offsets grow along the polled sequence, per partition. */
  ghost predicate Increasing(ms: seq<Message>) {
    forall i, j :: 0 <= i < j < |ms| && ms[i].partition == ms[j].partition ==> ms[i].offset < ms[j].offset
  }

  /** Polled is handled, then in the handler, queued, with the poller, given up. */
  predicate Conserved(s: Runner) {
    s.polled == s.handled + InHandler(s) + s.queue + InPoller(s) + s.dropped
  }

  /** How the two goroutines, the queue and the counter go together. */
  predicate Shape(s: Runner) {
    && |s.queue| <= s.capacity
    && |s.dropped| <= 1
    && (s.dropped != [] ==> s.poller.Leaving? || s.poller.PollerExited?)
    && (s.closed <==> s.poller.PollerExited?)
    && (s.poller.Leaving? || s.poller.PollerExited? ==> s.cancelled)
    && s.runningTasks == |InHandler(s)|
  }

  ghost predicate CommittedHandled(s: Runner) {
    && (s.worker.Committing? ==> s.worker.m in s.handled)
    && (forall m :: m in s.committed ==> m in s.handled)
  }

  ghost predicate Inv(s: Runner) {
    Conserved(s) && Shape(s) && Increasing(s.polled) && CommittedHandled(s)
  }

  lemma ConservedStep(s: Runner, e: Event)
    requires Conserved(s) && Shape(s) && Enabled(s, e)
    ensures Conserved(Apply(s, e))
  {
    var front := s.handled + InHandler(s);
    match e
    case PollMessage(m) => assert front + s.queue + [] + [] + [m] == front + s.queue + [m] + [];
    case Enqueue => Associate(front, s.queue, InPoller(s));
    case Meet => MeetConserves(s);
    case StopSending => assert front + s.queue + InPoller(s) + [] == front + s.queue + [] + InPoller(s);
    case Take => TakeConserves(s);
    case HandlerReturns(_) => assert front + [] == front;
    case _ =>
  }

  lemma MeetConserves(s: Runner)
    requires Conserved(s) && Shape(s) && Enabled(s, Meet)
    ensures Conserved(Apply(s, Meet))
  {
    var m := s.poller.m;
    assert s.handled + [] + [] + [m] + s.dropped == s.handled + [m] + [] + [] + s.dropped;
  }

  lemma TakeConserves(s: Runner)
    requires Conserved(s) && Shape(s) && Enabled(s, Take)
    ensures Conserved(Apply(s, Take))
  {
    assert s.queue == [s.queue[0]] + s.queue[1..];
    Associate(s.handled, [s.queue[0]], s.queue[1..]);
    assert s.handled + [] == s.handled;
  }

  lemma OtherStep(s: Runner, e: Event)
    requires Inv(s) && Enabled(s, e)
    ensures Shape(Apply(s, e)) && Increasing(Apply(s, e).polled) && CommittedHandled(Apply(s, e))
  {
    if e.HandlerReturns? {
      assert Apply(s, e).handled[|s.handled|] == s.worker.m;
    }
  }

  lemma StepKeeps(s: Runner, e: Event)
    requires Inv(s)
    ensures Inv(Step(s, e))
  {
    if Enabled(s, e) {
      ConservedStep(s, e);
      OtherStep(s, e);
    }
  }

  lemma StartedOk(capacity: nat)
    ensures Inv(Started(capacity))
  {
    AppendNothing<Message>([]);
  }

  lemma CapacityStays(s: Runner, e: Event)
    ensures Step(s, e).capacity == s.capacity
  {
  }

  lemma {:induction false} Invariant(capacity: nat, es: seq<Event>)
    ensures Inv(After(capacity, es)) && After(capacity, es).capacity == capacity
  {
    if es == [] {
      StartedOk(capacity);
    } else {
      var s := After(capacity, es[..|es| - 1]);
      Invariant(capacity, es[..|es| - 1]);
      StepKeeps(s, es[|es| - 1]);
      CapacityStays(s, es[|es| - 1]);
    }
  }
  /** Nothing is lost, duplicated or reordered: what was polled is what was handled, then what is in
      the handler, in the queue and with the poller, then the one message given up at the stop. The
      queue never exceeds its capacity and nothing is offered once it is closed. */
  lemma PipelineConservation(capacity: nat, es: seq<Event>)
    ensures var s := After(capacity, es);
            && s.polled == s.handled + InHandler(s) + s.queue + InPoller(s) + s.dropped
            && |s.queue| <= capacity && |s.dropped| <= 1
            && (s.closed ==> !s.poller.Sending?)
            && (s.dropped != [] ==> s.cancelled)
            && s.runningTasks == if s.worker.Handling? then 1 else 0
  {
    Invariant(capacity, es);
  }

  /** Whenever an offset has been committed, every smaller offset polled from its partition has been
      through the handler. */
  lemma CommitSafety(capacity: nat, es: seq<Event>, m: Message, n: Message)
    requires var s := After(capacity, es);
             m in s.committed && n in s.polled && n.partition == m.partition && n.offset <= m.offset
    ensures n in After(capacity, es).handled
  {
    Invariant(capacity, es);
    var s := After(capacity, es);
    var i :| 0 <= i < |s.handled| && s.handled[i] == m;
    var j :| 0 <= j < |s.polled| && s.polled[j] == n;
    assert s.polled[i] == m;
    assert j <= i;
    assert s.handled[j] == n;
  }

  // ---- Ledgers over the events -------------------------------------------------------------------------------

  /** The messages that Poll has returned, in order. */
  function PolledBy(capacity: nat, es: seq<Event>): seq<Message> {
    if es == [] then []
    else
      var (init, e) := (es[..|es| - 1], es[|es| - 1]);
      PolledBy(capacity, init) + if e.PollMessage? && Enabled(After(capacity, init), e) then [e.m] else []
  }

  /** The messages whose handler has returned, in order; with `nilOnly`, those for which it returned nil. */
  function ReturnedBy(capacity: nat, es: seq<Event>, nilOnly: bool): seq<Message> {
    if es == [] then []
    else
      var (init, e) := (es[..|es| - 1], es[|es| - 1]);
      ReturnedBy(capacity, init, nilOnly)
      + if e.HandlerReturns? && After(capacity, init).worker.Handling? && (e.ok || !nilOnly)
        then [After(capacity, init).worker.m] else []
  }

  /** The message whose handler has returned nil and whose commit is due. */
  function InCommit(s: Runner): seq<Message> {
    if s.worker.Committing? then [s.worker.m] else []
  }

  /** In every run: exactly the messages that Poll returned were polled, exactly those whose handler
      returned were handled, and exactly those whose handler returned nil were committed, but for the
      one whose commit is due; each in order and each once. */
  lemma {:induction false} LedgersAgree(capacity: nat, es: seq<Event>)
    ensures var s := After(capacity, es);
            && s.polled == PolledBy(capacity, es)
            && s.handled == ReturnedBy(capacity, es, false)
            && s.committed + InCommit(s) == ReturnedBy(capacity, es, true)
  {
    if es != [] {
      var (init, e) := (es[..|es| - 1], es[|es| - 1]);
      LedgersAgree(capacity, init);
      LedgerStep(After(capacity, init), e);
    }
  }

  lemma LedgerStep(s: Runner, e: Event)
    ensures var t := Step(s, e);
            && t.polled == s.polled + (if e.PollMessage? && Enabled(s, e) then [e.m] else [])
            && t.handled == s.handled + (if e.HandlerReturns? && s.worker.Handling? then [s.worker.m] else [])
            && t.committed + InCommit(t)
               == s.committed + InCommit(s) + if e.HandlerReturns? && s.worker.Handling? && e.ok then [s.worker.m] else []
  {
    AppendNothing(s.polled);
    AppendNothing(s.handled);
    AppendNothing(s.committed + InCommit(s));
    AppendNothing(s.committed);
    if e.Commit? { AppendNothing(Step(s, e).committed); }
  }

  /** Back-pressure: an offered message waits exactly while the queue is full, no cancellation is seen
      and no idle worker could take it directly. The worker waits exactly while there is nothing to
      take, no offer, no cancellation and no closed queue. */
  lemma {:induction false} WaitsIff(capacity: nat, es: seq<Event>)
    ensures var s := After(capacity, es);
            s.poller.Sending? ==>
              ((!Enabled(s, Enqueue) && !Enabled(s, Meet) && !Enabled(s, StopSending))
               <==> |s.queue| == capacity && !s.cancelled && !(s.queue == [] && s.worker.Selecting?))
    ensures var s := After(capacity, es);
            s.worker.Selecting? ==>
              ((!Enabled(s, Take) && !Enabled(s, Meet) && !Enabled(s, SeeClosed) && !Enabled(s, StopTaking))
               <==> s.queue == [] && !s.poller.Sending? && !s.cancelled)
  {
    Invariant(capacity, es);
  }

  // ---- Draining after cancellation ---------------------------------------------------------------------------

  /** Handler calls begun so far. */
  function Begun(s: Runner): nat {
    |s.handled| + |InHandler(s)|
  }

  /** Handler calls that may still begin once the context is cancelled. */
  function MayBegin(s: Runner): nat {
    |s.queue| + if s.poller.Polling? || s.poller.Sending? then 1 else 0
  }

  /** Twelve-odd steps of slack plus three per queued message. */
  function Measure(s: Runner): nat {
    3 * |s.queue|
    + (match s.poller
       case Polling => 7 case Sending(_) => 6 case Checking => 2 case Leaving => 1 case PollerExited => 0)
    + (match s.worker
       case Handling(_) => 3 case Committing(_) => 2 case Selecting => 1 case WorkerExited => 0)
  }

  lemma DrainStep(s: Runner, e: Event)
    requires Inv(s) && s.cancelled && Enabled(s, e)
    ensures var s' := Apply(s, e);
            && s'.cancelled
            && Begun(s') + MayBegin(s') <= Begun(s) + MayBegin(s)
            && Measure(s') < Measure(s)
  {
  }

  /** How many events of a continuation take effect. */
  function Effective(s: Runner, es: seq<Event>): nat
    decreases |es|
  {
    if es == [] then 0 else (if Enabled(s, es[0]) then 1 else 0) + Effective(Step(s, es[0]), es[1..])
  }

  function Continue(s: Runner, es: seq<Event>): Runner
    decreases |es|
  {
    if es == [] then s else Continue(Step(s, es[0]), es[1..])
  }

  lemma {:induction false} Drains(s: Runner, es: seq<Event>)
    requires Inv(s) && s.cancelled
    ensures var t := Continue(s, es);
            && Inv(t) && t.cancelled
            && Begun(t) + MayBegin(t) <= Begun(s) + MayBegin(s)
            && Effective(s, es) + Measure(t) <= Measure(s)
    decreases |es|
  {
    if es != [] {
      StepKeeps(s, es[0]);
      if Enabled(s, es[0]) { DrainStep(s, es[0]); }
      Drains(Step(s, es[0]), es[1..]);
    }
  }

  /** After cancellation at most queue length + 1 further handler calls begin, and both goroutines
      make at most 3 * queue length + 10 further steps. */
  lemma BoundedDrain(capacity: nat, es: seq<Event>, more: seq<Event>)
    requires After(capacity, es).cancelled
    ensures var s := After(capacity, es);
            && Begun(Continue(s, more)) <= Begun(s) + |s.queue| + 1
            && Effective(s, more) <= 3 * |s.queue| + 10
  {
    Invariant(capacity, es);
    Drains(After(capacity, es), more);
  }

  /** A step that brings the drain on, once Poll and the handler return. */
  function NextDrain(s: Runner): Event {
    match s.poller
    case Checking => Check
    case Polling => PollNothing
    case Sending(_) => StopSending
    case Leaving => CloseQueue
    case PollerExited =>
      match s.worker
      case Selecting => StopTaking
      case Handling(_) => HandlerReturns(false)
      case Committing(_) => Commit
      case WorkerExited => Cancel
  }

  /** While a goroutine is running after cancellation, the drain cannot get stuck. */
  lemma DrainNeverStuck(s: Runner)
    requires s.cancelled && !(s.poller.PollerExited? && s.worker.WorkerExited?)
    ensures Enabled(s, NextDrain(s))
  {
  }

  /** A drain that can go no further is complete: when, after cancellation, no event is enabled any
      more, both goroutines have exited, after at most queue length + 1 further handler calls and
      3 * queue length + 10 steps, and everything polled was handled, is queued or was given up. */
  lemma {:induction false} DrainCompletes(capacity: nat, es: seq<Event>, more: seq<Event>)
    requires After(capacity, es).cancelled
    requires forall e :: !Enabled(Continue(After(capacity, es), more), e)
    ensures var s, t := After(capacity, es), Continue(After(capacity, es), more);
            && t.poller.PollerExited? && t.worker.WorkerExited? && t.closed && t.runningTasks == 0
            && |t.handled| <= Begun(s) + |s.queue| + 1 && Effective(s, more) <= 3 * |s.queue| + 10
            && t.polled == t.handled + t.queue + t.dropped
  {
    var s, t := After(capacity, es), Continue(After(capacity, es), more);
    Invariant(capacity, es);
    Drains(s, more);
    assert !Enabled(t, NextDrain(t));
    if !(t.poller.PollerExited? && t.worker.WorkerExited?) { DrainNeverStuck(t); }
    ExitedConserves(t);
  }

  lemma ExitedConserves(t: Runner)
    requires Inv(t) && t.poller.PollerExited? && t.worker.WorkerExited?
    ensures t.closed && t.runningTasks == 0 && t.polled == t.handled + t.queue + t.dropped && Begun(t) == |t.handled|
  {
    assert t.handled + [] + t.queue + [] + t.dropped == t.handled + t.queue + t.dropped;
  }

  // ---- AwaitTermination ------------------------------------------------------------------------------------------

  /** One caller of AwaitTermination: it polls the counter, then waits for both goroutines. */
  datatype Await = PollingCounter | WaitingForExit | AwaitReturned(done: bool)

  datatype Joint = Joint(runner: Runner, await: Await)

  datatype JointEvent = Run(e: Event) | SeesZero | SeesDone | CallerGivesUp | TimesOut

  function JointStep(s: Joint, e: JointEvent): Joint {
    match e
    case Run(r) => s.(runner := Step(s.runner, r))
    case SeesZero =>
      if s.await.PollingCounter? && s.runner.runningTasks == 0 then s.(await := WaitingForExit) else s
    case SeesDone =>
      if s.await.WaitingForExit? && s.runner.poller.PollerExited? && s.runner.worker.WorkerExited?
      then s.(await := AwaitReturned(true)) else s
    case CallerGivesUp => if s.await.AwaitReturned? then s else s.(await := AwaitReturned(false))
    case TimesOut => if s.await.WaitingForExit? then s.(await := AwaitReturned(false)) else s
  }

  function JointAfter(capacity: nat, es: seq<JointEvent>): Joint {
    if es == [] then Joint(Started(capacity), PollingCounter)
    else JointStep(JointAfter(capacity, es[..|es| - 1]), es[|es| - 1])
  }

  lemma JointSnoc(capacity: nat, es: seq<JointEvent>, e: JointEvent)
    ensures JointAfter(capacity, es + [e]) == JointStep(JointAfter(capacity, es), e)
  {
    InitOfSnoc(es, e);
  }

  lemma JointLast(capacity: nat, es: seq<JointEvent>, more: seq<JointEvent>)
    requires more != []
    ensures JointAfter(capacity, es + more) == JointStep(JointAfter(capacity, es + more[..|more| - 1]), more[|more| - 1])
  {
    LastOfAppend(es, more);
    JointSnoc(capacity, es + more[..|more| - 1], more[|more| - 1]);
  }

  /** How AwaitTermination leaves each place, in every run: it stops polling the counter exactly when no
      handler is running; it sees `done` exactly when both goroutines have exited; it can time out only
      after the polling; and the caller's context ends it wherever it stands. Returned, it stays so. */
  lemma {:induction false} AwaitLeaves(capacity: nat, es: seq<JointEvent>)
    ensures var s := JointAfter(capacity, es);
            && (s.await.PollingCounter? ==>
                  && (JointStep(s, SeesZero).await.WaitingForExit? <==> !s.runner.worker.Handling?)
                  && JointStep(s, SeesDone) == s && JointStep(s, TimesOut) == s
                  && JointStep(s, CallerGivesUp).await == AwaitReturned(false))
            && (s.await.WaitingForExit? ==>
                  && (JointStep(s, SeesDone).await == AwaitReturned(true)
                      <==> s.runner.poller.PollerExited? && s.runner.worker.WorkerExited?)
                  && JointStep(s, TimesOut).await == AwaitReturned(false) && JointStep(s, SeesZero) == s
                  && JointStep(s, CallerGivesUp).await == AwaitReturned(false))
            && (s.await.AwaitReturned? ==> forall e :: JointStep(s, e).await == s.await)
  {
    JointInvariant(capacity, es);
  }

  lemma {:induction false} JointInvariant(capacity: nat, es: seq<JointEvent>)
    ensures var s := JointAfter(capacity, es);
            && Inv(s.runner)
            && (s.await == AwaitReturned(true) ==> s.runner.poller.PollerExited? && s.runner.worker.WorkerExited?)
  {
    if es != [] {
      JointInvariant(capacity, es[..|es| - 1]);
      var s, e := JointAfter(capacity, es[..|es| - 1]), es[|es| - 1];
      if e.Run? { StepKeeps(s.runner, e.e); }
    }
  }

  /** The handling goroutine has nothing left to do: it has exited, or it waits on an empty queue that a
      cancelled poller will not fill any more. */
  predicate Spent(r: Runner) {
    r.worker.WorkerExited?
    || (r.worker.Selecting? && r.queue == [] && r.cancelled && !r.poller.Polling? && !r.poller.Sending?)
  }

  lemma SpentStays(r: Runner, e: Event)
    requires Spent(r)
    ensures Spent(Step(r, e)) && Step(r, e).handled == r.handled && Step(r, e).committed == r.committed
  {
  }

  /** Nothing is handled or committed in any continuation of the run. */
  ghost predicate QuietForever(capacity: nat, es: seq<JointEvent>) {
    forall more :: SameWork(JointAfter(capacity, es).runner, JointAfter(capacity, es + more).runner)
  }

  predicate SameWork(r: Runner, t: Runner) {
    t.handled == r.handled && t.committed == r.committed
  }

  lemma {:induction false} SpentIsQuiet(capacity: nat, es: seq<JointEvent>, more: seq<JointEvent>)
    requires Spent(JointAfter(capacity, es).runner)
    ensures var t := JointAfter(capacity, es + more).runner;
            Spent(t) && SameWork(JointAfter(capacity, es).runner, t)
    decreases |more|
  {
    if more == [] {
      assert es + more == es;
    } else {
      var init, e := more[..|more| - 1], more[|more| - 1];
      SpentIsQuiet(capacity, es, init);
      JointLast(capacity, es, more);
      if e.Run? { SpentStays(JointAfter(capacity, es + init).runner, e.e); }
    }
  }

  /** An offset above all those polled so far. */
  function Above(polled: seq<Message>): int {
    if polled == [] then 0
    else
      var rest, last := Above(polled[..|polled| - 1]), polled[|polled| - 1].offset;
      if rest <= last then last + 1 else rest
  }

  lemma {:induction false} AboveIsNew(polled: seq<Message>, partition: int)
    ensures forall i :: 0 <= i < |polled| ==> polled[i].offset < Above(polled)
    ensures InOrder(polled, Message(partition, Above(polled)))
  {
    if polled != [] { AboveIsNew(polled[..|polled| - 1], partition); }
  }

  /** How far a runner that is not spent is from its next piece of work. */
  function Distance(r: Runner): nat {
    if !r.worker.Selecting? then 0
    else if r.queue != [] || r.poller.Sending? then 1
    else if r.poller.Polling? then 2 else 3
  }

  /** A step towards it. */
  function Toward(r: Runner): Event {
    match r.worker
    case Handling(_) => HandlerReturns(false)
    case Committing(_) => Commit
    case _ =>
      if r.queue != [] then Take
      else if r.poller.Sending? then Meet
      else if r.poller.Polling? then PollMessage(Message(0, Above(r.polled)))
      else Check
  }

  lemma TowardAdvances(r: Runner)
    requires Inv(r) && !Spent(r)
    ensures var t := Step(r, Toward(r));
            if r.worker.Selecting? then !Spent(t) && Distance(t) < Distance(r) && SameWork(r, t)
            else |t.handled| + |t.committed| == |r.handled| + |r.committed| + 1
  {
    AboveIsNew(r.polled, 0);
  }

  /** From every state that is not spent some continuation does work. */
  lemma {:induction false} NotSpentCanWork(capacity: nat, es: seq<JointEvent>) returns (more: seq<JointEvent>)
    requires !Spent(JointAfter(capacity, es).runner)
    ensures |more| <= 4 && |more| <= Distance(JointAfter(capacity, es).runner) + 1
    ensures !SameWork(JointAfter(capacity, es).runner, JointAfter(capacity, es + more).runner)
    decreases Distance(JointAfter(capacity, es).runner)
  {
    var r := JointAfter(capacity, es).runner;
    var e := Run(Toward(r));
    JointInvariant(capacity, es);
    TowardAdvances(r);
    JointSnoc(capacity, es, e);
    if r.worker.Selecting? {
      var rest := NotSpentCanWork(capacity, es + [e]);
      more := [e] + rest;
      assert es + [e] + rest == es + more;
    } else {
      more := [e];
    }
  }

  /** Exactly when nothing more will be handled or committed, in any continuation of any run: when the
      handling goroutine is spent. So a return of AwaitTermination, by whichever way, is safe exactly then. */
  lemma {:induction false} QuietIffSpent(capacity: nat, es: seq<JointEvent>)
    ensures QuietForever(capacity, es) <==> Spent(JointAfter(capacity, es).runner)
  {
    var r := JointAfter(capacity, es).runner;
    if Spent(r) {
      forall more ensures SameWork(r, JointAfter(capacity, es + more).runner) { SpentIsQuiet(capacity, es, more); }
    } else {
      var more := NotSpentCanWork(capacity, es);
      assert !SameWork(r, JointAfter(capacity, es + more).runner);
    }
  }

  /** The return through `done` always is: nothing is handled or committed after it, although the counter
      that was polled first may have been zero between two messages. */
  lemma {:induction false} AwaitDoneIsFinal(capacity: nat, es: seq<JointEvent>, more: seq<JointEvent>)
    requires JointAfter(capacity, es).await == AwaitReturned(true)
    ensures QuietForever(capacity, es)
    ensures var s, t := JointAfter(capacity, es).runner, JointAfter(capacity, es + more).runner;
            t.handled == s.handled && t.committed == s.committed && InHandler(t) == [] && t.worker.WorkerExited?
  {
    JointInvariant(capacity, es);
    QuietIffSpent(capacity, es);
    ExitedStays(capacity, es, more);
    assert SameWork(JointAfter(capacity, es).runner, JointAfter(capacity, es + more).runner);
  }

  lemma {:induction false} ExitedStays(capacity: nat, es: seq<JointEvent>, more: seq<JointEvent>)
    requires JointAfter(capacity, es).runner.worker.WorkerExited?
    ensures JointAfter(capacity, es + more).runner.worker.WorkerExited?
    decreases |more|
  {
    if more == [] {
      assert es + more == es;
    } else {
      ExitedStays(capacity, es, more[..|more| - 1]);
      JointLast(capacity, es, more);
    }
  }

  /** A return by timeout in a state that is not spent: the counter is zero before a message is handed
      over, and the wait times out while the handler runs. */
  lemma TimeoutLeavesHandler(capacity: nat, m: Message)
    ensures var s := JointAfter(capacity, EarlyReturn(m));
            s.await == AwaitReturned(false) && s.runner.worker == Handling(m)
  {
    var es := EarlyReturn(m);
    JointSnoc(capacity, [], es[0]);
    JointSnoc(capacity, es[..1], es[1]);
    JointSnoc(capacity, es[..2], es[2]);
    JointSnoc(capacity, es[..3], es[3]);
    JointSnoc(capacity, es[..4], es[4]);
    assert [] + [es[0]] == es[..1] && es[..1] + [es[1]] == es[..2] && es[..2] + [es[2]] == es[..3];
    assert es[..3] + [es[3]] == es[..4] && es[..4] + [es[4]] == es;
  }

  function EarlyReturn(m: Message): seq<JointEvent> {
    [Run(Check), Run(PollMessage(m)), SeesZero, Run(Meet), TimesOut]
  }

  // ---- The runner object ---------------------------------------------------------------------------------------

  /** The runner's context, channel and counter, with where its two goroutines stand and what they
      have done. Each method is the code between two points at which a goroutine can block, and is
      one or two steps of the machine, so the laws above hold of the object. */
  class ConsumerRunner {
    const capacity: nat
    var cancelled: bool
    var queue: seq<Message>
    var closed: bool
    var runningTasks: int
    var poller: Poller
    var worker: Worker
    var polled: seq<Message>
    var handled: seq<Message>
    var dropped: seq<Message>
    var committed: seq<Message>

    function View(): Runner
      reads this
    {
      Runner(capacity, cancelled, poller, queue, closed, worker, runningTasks, polled, handled, dropped, committed)
    }

    /** A negative queue capacity counts as none. */
    constructor (queueCapacity: int)
      ensures View() == Started(if queueCapacity < 0 then 0 else queueCapacity)
      ensures capacity == (if queueCapacity < 0 then 0 else queueCapacity)
      ensures !cancelled && !closed && queue == [] && runningTasks == 0 && poller.Checking? && worker.Selecting?
    {
      capacity := if queueCapacity < 0 then 0 else queueCapacity;
      cancelled, queue, closed, runningTasks := false, [], false, 0;
      poller, worker := Checking, Selecting;
      polled, handled, dropped, committed := [], [], [], [];
    }

    method Stop()
      modifies this`cancelled
      ensures View() == Step(old(View()), Cancel) && cancelled
    {
      cancelled := true;
    }

    /** The poller's round up to its offer: the look at the context, then Poll. */
    method PollRound(event: Option<Message>)
      requires poller.Checking?
      requires event.Some? ==> InOrder(polled, event.value)
      modifies this`poller, this`polled
      ensures var checked := Step(old(View()), Check);
              View() == if old(cancelled) then checked
                        else Step(checked, if event.Some? then PollMessage(event.value) else PollNothing)
      ensures poller == if old(cancelled) then Leaving else if event.Some? then Sending(event.value) else Checking
      ensures polled == if old(cancelled) || event.None? then old(polled) else old(polled) + [event.value]
    {
      if cancelled {
        poller := Leaving;
      } else {
        match event
        case None => poller := Checking;
        case Some(m) =>
          poller := Sending(m);
          polled := polled + [m];
      }
    }

    /** The poller's select: it gives up if the context is done and the select says so, hands the message
        to a worker parked in its own select or queues it if there is room, and otherwise stays blocked. */
    method Offer(takeDone: bool, parked: bool)
      requires poller.Sending?
      modifies this
      ensures View() == if takeDone && old(cancelled) then Step(old(View()), StopSending)
                        else if parked && old(queue) == [] && old(worker).Selecting? then Step(old(View()), Meet)
                        else Step(old(View()), Enqueue)
      ensures takeDone && old(cancelled) ==> poller == Leaving && queue == old(queue) && worker == old(worker)
      ensures !(takeDone && old(cancelled)) && parked && old(queue) == [] && old(worker).Selecting? ==>
                poller == Checking && queue == [] && worker == Handling(old(poller).m) && runningTasks == old(runningTasks) + 1
      ensures !(takeDone && old(cancelled)) && !(parked && old(queue) == [] && old(worker).Selecting?) ==>
                if |old(queue)| < capacity then poller == Checking && queue == old(queue) + [old(poller).m] && worker == old(worker)
                else poller == old(poller) && queue == old(queue) && worker == old(worker)
    {
      if takeDone && cancelled {
        dropped := [poller.m];
        poller := Leaving;
      } else if parked && queue == [] && worker.Selecting? {
        worker := Handling(poller.m);
        runningTasks := runningTasks + 1;
        poller := Checking;
      } else if |queue| < capacity {
        queue := queue + [poller.m];
        poller := Checking;
      }
    }

    /** The poller's deferred close of the queue. */
    method LeavePoller()
      requires poller.Leaving?
      modifies this`poller, this`closed
      ensures View() == Step(old(View()), CloseQueue) && closed && poller == PollerExited
    {
      poller := PollerExited;
      closed := true;
    }

    /** The worker's select: done, a message, or a closed and empty queue. */
    method Receive(takeDone: bool)
      requires worker.Selecting?
      modifies this
      ensures View() == if takeDone && old(cancelled) then Step(old(View()), StopTaking)
                        else if old(queue) != [] then Step(old(View()), Take)
                        else Step(old(View()), SeeClosed)
      ensures if takeDone && old(cancelled) then worker == WorkerExited && queue == old(queue)
              else if old(queue) != [] then
                worker == Handling(old(queue)[0]) && queue == old(queue)[1..] && runningTasks == old(runningTasks) + 1
              else queue == [] && worker == if old(closed) then WorkerExited else old(worker)
    {
      if takeDone && cancelled {
        worker := WorkerExited;
      } else if queue != [] {
        worker := Handling(queue[0]);
        queue := queue[1..];
        runningTasks := runningTasks + 1;
      } else if closed {
        worker := WorkerExited;
      }
    }

    /** The handler returns; only after nil is the message committed. */
    method FinishHandler(ok: bool)
      requires worker.Handling?
      modifies this
      ensures var returned := Step(old(View()), HandlerReturns(ok));
              View() == if ok then Step(returned, Commit) else returned
      ensures worker == Selecting && runningTasks == old(runningTasks) - 1 && queue == old(queue)
      ensures handled == old(handled) + [old(worker).m]
      ensures committed == old(committed) + if ok then [old(worker).m] else []
    {
      var m := worker.m;
      runningTasks := runningTasks - 1;
      handled := handled + [m];
      if ok {
        committed := committed + [m];
      }
      worker := Selecting;
    }
  }
}
