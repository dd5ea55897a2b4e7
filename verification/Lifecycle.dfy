/** Startup and shutdown lifecycles whose tasks may register further tasks while they run. */
module Lifecycle {
  import opened Sequences

  /** Executing a task registers tasks with phases of its own lifecycle; other effects do not matter
      here. */
  datatype Task = Task(id: nat, adds: seq<Registration>)

  datatype Registration = Registration(phase: nat, task: Task)

  /** One list of tasks per phase. */
  type Phases = seq<seq<Task>>

  // ---- What a run does --------------------------------------------------------------------------------

  function Add(lists: Phases, r: Registration): (result: Phases)
    ensures |result| == |lists|
  {
    if r.phase < |lists| then lists[r.phase := lists[r.phase] + [r.task]] else lists
  }

  function AddAll(lists: Phases, rs: seq<Registration>): (result: Phases)
    ensures |result| == |lists|
  {
    if rs == [] then lists else Add(AddAll(lists, rs[..|rs| - 1]), rs[|rs| - 1])
  }

  function ExecuteAll(lists: Phases, tasks: seq<Task>): (result: Phases)
    ensures |result| == |lists|
  {
    if tasks == [] then lists else AddAll(ExecuteAll(lists, tasks[..|tasks| - 1]), tasks[|tasks| - 1].adds)
  }

  /** The lists after the first p phases have run. */
  function ListsBefore(lists: Phases, p: nat): (result: Phases)
    requires p <= |lists|
    ensures |result| == |lists|
  {
    if p == 0 then lists else ExecuteAll(ListsBefore(lists, p - 1), ListsBefore(lists, p - 1)[p - 1])
  }

  /** The tasks phase p executes: its list at the moment the phase begins. */
  function Executed(lists: Phases, p: nat): seq<Task>
    requires p < |lists|
  {
    ListsBefore(lists, p)[p]
  }

  /** Everything executed by the first p phases, in order. */
  function Trace(lists: Phases, p: nat): seq<Task>
    requires p <= |lists|
  {
    if p == 0 then [] else Trace(lists, p - 1) + Executed(lists, p - 1)
  }

  // ---- What that means ------------------------------------------------------------------------------------

  /** The tasks that a list of registrations sends to phase p, in order. */
  function SentTo(p: nat, rs: seq<Registration>): seq<Task> {
    if rs == [] then []
    else SentTo(p, rs[..|rs| - 1]) + if rs[|rs| - 1].phase == p then [rs[|rs| - 1].task] else []
  }

  /** The tasks that executed tasks send to phase p, in order of execution. */
  function Appended(p: nat, tasks: seq<Task>): seq<Task> {
    if tasks == [] then [] else Appended(p, tasks[..|tasks| - 1]) + SentTo(p, tasks[|tasks| - 1].adds)
  }

  lemma {:induction false} AddAllAppends(lists: Phases, rs: seq<Registration>, p: nat)
    requires p < |lists|
    ensures AddAll(lists, rs)[p] == lists[p] + SentTo(p, rs)
  {
    if rs != [] { AddAllAppends(lists, rs[..|rs| - 1], p); }
  }

  lemma {:induction false} ExecuteAllAppends(lists: Phases, tasks: seq<Task>, p: nat)
    requires p < |lists|
    ensures ExecuteAll(lists, tasks)[p] == lists[p] + Appended(p, tasks)
  {
    if tasks != [] {
      var init, last := tasks[..|tasks| - 1], tasks[|tasks| - 1];
      ExecuteAllAppends(lists, init, p);
      AddAllAppends(ExecuteAll(lists, init), last.adds, p);
    }
  }

  lemma {:induction false} AppendedConcat(p: nat, a: seq<Task>, b: seq<Task>)
    ensures Appended(p, a + b) == Appended(p, a) + Appended(p, b)
  {
    if b == [] {
      assert a + b == a;
    } else {
      var init, last := b[..|b| - 1], b[|b| - 1];
      assert (a + b)[..|a + b| - 1] == a + init && (a + b)[|a + b| - 1] == last;
      AppendedConcat(p, a, init);
    }
  }

  /** After the first q phases, phase p's list is its registered tasks followed by everything that
      tasks executed so far have sent to it. */
  lemma {:induction false} ListsGrow(lists: Phases, q: nat, p: nat)
    requires q <= |lists| && p < |lists|
    ensures ListsBefore(lists, q)[p] == lists[p] + Appended(p, Trace(lists, q))
  {
    if q > 0 {
      ListsGrow(lists, q - 1, p);
      var before, now := Trace(lists, q - 1), Executed(lists, q - 1);
      ExecuteAllAppends(ListsBefore(lists, q - 1), now, p);
      AppendedConcat(p, before, now);
      Associate(lists[p], Appended(p, before), Appended(p, now));
    }
  }

  /** The law of a run: phase p executes, once each and in order, the tasks registered before the run
      and then exactly those that tasks of strictly earlier phases have sent to it. */
  lemma {:induction false} PhaseExecutes(lists: Phases, p: nat)
    requires p < |lists|
    ensures Executed(lists, p) == lists[p] + Appended(p, Trace(lists, p))
  {
    ListsGrow(lists, p, p);
  }

  /** What is left over: a task sent to a phase that has begun stays in its list and is never
      executed; the final list of phase p is what p executed followed by those. */
  lemma {:induction false} LateTasksNeverRun(lists: Phases, p: nat)
    requires p < |lists|
    ensures var n := |lists|;
            && Trace(lists, p) <= Trace(lists, n)
            && ListsBefore(lists, n)[p] == Executed(lists, p) + Appended(p, Trace(lists, n)[|Trace(lists, p)|..])
  {
    TraceExtends(lists, p, |lists|);
    PhaseExecutes(lists, p);
    ListsGrow(lists, |lists|, p);
    AppendedSplit(p, Trace(lists, p), Trace(lists, |lists|));
    Associate(lists[p], Appended(p, Trace(lists, p)), Appended(p, Trace(lists, |lists|)[|Trace(lists, p)|..]));
  }

  lemma AppendedSplit(p: nat, early: seq<Task>, all: seq<Task>)
    requires early <= all
    ensures Appended(p, all) == Appended(p, early) + Appended(p, all[|early|..])
  {
    assert all == early + all[|early|..];
    AppendedConcat(p, early, all[|early|..]);
  }

  lemma {:induction false} TraceExtends(lists: Phases, p: nat, q: nat)
    requires p <= q <= |lists|
    ensures Trace(lists, p) <= Trace(lists, q)
    decreases q
  {
    if p < q { TraceExtends(lists, p, q - 1); }
  }

  /** The smallest case: a task of the first phase that sends one task on. Sent to a later phase it runs
      there, after those registered. */
  lemma TaskSentOn(lists: Phases, q: nat, t: Task, u: Task)
    requires 0 < q < |lists| && lists[0] == [t] && t.adds == [Registration(q, u)]
    requires forall p :: 0 < p < q ==> lists[p] == []
    ensures Executed(lists, q) == lists[q] + [u]
  {
    SentAlone(t, q, u);
    OnlyFirstRuns(lists, q, t);
    PhaseExecutes(lists, q);
  }

  /** Sent to its own phase it stays behind and never runs. */
  lemma TaskSentBack(lists: Phases, t: Task, u: Task)
    requires 0 < |lists| && lists[0] == [t] && t.adds == [Registration(0, u)]
    ensures Executed(lists, 0) == [t] && ListsBefore(lists, 1)[0] == [t, u]
  {
    SentAlone(t, 0, u);
    FirstTrace(lists);
    ListsGrow(lists, 1, 0);
  }

  lemma FirstTrace(lists: Phases)
    requires 0 < |lists|
    ensures Trace(lists, 1) == lists[0]
  {
    assert Trace(lists, 0) == [];
  }

  lemma SentAlone(t: Task, q: nat, u: Task)
    requires t.adds == [Registration(q, u)]
    ensures forall p: nat :: Appended(p, [t]) == if p == q then [u] else []
  {
    assert t.adds[..0] == [];
    forall p: nat ensures Appended(p, [t]) == if p == q then [u] else [] {
      assert SentTo(p, t.adds) == if p == q then [u] else [];
      assert [t][..0] == [];
    }
  }

  lemma {:induction false} OnlyFirstRuns(lists: Phases, n: nat, t: Task)
    requires 0 < n < |lists| && lists[0] == [t]
    requires forall p :: 0 < p < n ==> lists[p] == [] && Appended(p, [t]) == []
    ensures Trace(lists, n) == [t]
  {
    if n == 1 {
      assert Trace(lists, 1) == [t];
    } else {
      OnlyFirstRuns(lists, n - 1, t);
      PhaseExecutes(lists, n - 1);
    }
  }

  // ---- The lifecycle objects ----------------------------------------------------------------------------------

  class ShutdownLifecycle {
    var stopIngress: seq<Task>
    var awaitRequests: seq<Task>
    var stopBackground: seq<Task>
    var awaitBackground: seq<Task>
    var closeProducers: seq<Task>
    var releaseResources: seq<Task>
    var stopServer: seq<Task>

    function Lists(): (r: Phases)
      reads this
      ensures |r| == 7
    {
      [stopIngress, awaitRequests, stopBackground, awaitBackground, closeProducers, releaseResources, stopServer]
    }

    constructor ()
      ensures Lists() == [[], [], [], [], [], [], []]
    {
      stopIngress, awaitRequests, stopBackground, awaitBackground := [], [], [], [];
      closeProducers, releaseResources, stopServer := [], [], [];
    }

    method AddStopIngress(task: Task)
      modifies this`stopIngress
      ensures stopIngress == old(stopIngress) + [task]
    {
      stopIngress := stopIngress + [task];
    }

    method AddAwaitRequests(task: Task)
      modifies this`awaitRequests
      ensures awaitRequests == old(awaitRequests) + [task]
    {
      awaitRequests := awaitRequests + [task];
    }

    method AddStopBackground(task: Task)
      modifies this`stopBackground
      ensures stopBackground == old(stopBackground) + [task]
    {
      stopBackground := stopBackground + [task];
    }

    method AddAwaitBackground(task: Task)
      modifies this`awaitBackground
      ensures awaitBackground == old(awaitBackground) + [task]
    {
      awaitBackground := awaitBackground + [task];
    }

    method AddCloseProducers(task: Task)
      modifies this`closeProducers
      ensures closeProducers == old(closeProducers) + [task]
    {
      closeProducers := closeProducers + [task];
    }

    method AddReleaseResources(task: Task)
      modifies this`releaseResources
      ensures releaseResources == old(releaseResources) + [task]
    {
      releaseResources := releaseResources + [task];
    }

    method AddStopServer(task: Task)
      modifies this`stopServer
      ensures stopServer == old(stopServer) + [task]
    {
      stopServer := stopServer + [task];
    }

    /** What a running task does with the lifecycle: one of the seven calls; the phase says which. */
    method Register(r: Registration)
      modifies this
      ensures Lists() == Add(old(Lists()), r)
    {
      match r.phase
      case 0 => AddStopIngress(r.task);
      case 1 => AddAwaitRequests(r.task);
      case 2 => AddStopBackground(r.task);
      case 3 => AddAwaitBackground(r.task);
      case 4 => AddCloseProducers(r.task);
      case 5 => AddReleaseResources(r.task);
      case 6 => AddStopServer(r.task);
      case _ =>
    }

    method Execute(task: Task)
      modifies this
      ensures Lists() == AddAll(old(Lists()), task.adds)
    {
      for i := 0 to |task.adds|
        invariant Lists() == AddAll(old(Lists()), task.adds[..i])
      {
        assert task.adds[..i + 1][..i] == task.adds[..i];
        Register(task.adds[i]);
      }
      assert task.adds[..|task.adds|] == task.adds;
    }

    /** `run`: a loop over the list as it was when the phase began. */
    method Run(tasks: seq<Task>)
      modifies this
      ensures Lists() == ExecuteAll(old(Lists()), tasks)
    {
      for i := 0 to |tasks|
        invariant Lists() == ExecuteAll(old(Lists()), tasks[..i])
      {
        assert tasks[..i + 1][..i] == tasks[..i];
        Execute(tasks[i]);
      }
      assert tasks[..|tasks|] == tasks;
    }

    /** The tasks executed, in order, are those of PhaseExecutes, phase after phase. */
    method RunAll() returns (trace: seq<Task>)
      modifies this
      ensures var before := old([stopIngress, awaitRequests, stopBackground, awaitBackground,
                                 closeProducers, releaseResources, stopServer]);
              && trace == Trace(before, 7)
              && [stopIngress, awaitRequests, stopBackground, awaitBackground,
                  closeProducers, releaseResources, stopServer] == ListsBefore(before, 7)
    {
      ghost var lists := Lists();
      trace := stopIngress;
      Run(stopIngress);
      assert Lists() == ListsBefore(lists, 1) && trace == Trace(lists, 1);
      trace := trace + awaitRequests;
      Run(awaitRequests);
      assert Lists() == ListsBefore(lists, 2) && trace == Trace(lists, 2);
      trace := trace + stopBackground;
      Run(stopBackground);
      assert Lists() == ListsBefore(lists, 3) && trace == Trace(lists, 3);
      trace := trace + awaitBackground;
      Run(awaitBackground);
      assert Lists() == ListsBefore(lists, 4) && trace == Trace(lists, 4);
      trace := trace + closeProducers;
      Run(closeProducers);
      assert Lists() == ListsBefore(lists, 5) && trace == Trace(lists, 5);
      trace := trace + releaseResources;
      Run(releaseResources);
      assert Lists() == ListsBefore(lists, 6) && trace == Trace(lists, 6);
      trace := trace + stopServer;
      Run(stopServer);
      assert Lists() == ListsBefore(lists, 7) && trace == Trace(lists, 7);
    }
  }

  class StartupLifecycle {
    var initialize: seq<Task>
    var start: seq<Task>
    var serve: seq<Task>

    function Lists(): (r: Phases)
      reads this
      ensures |r| == 3
    {
      [initialize, start, serve]
    }

    constructor ()
      ensures Lists() == [[], [], []]
    {
      initialize, start, serve := [], [], [];
    }

    method AddInitialize(task: Task)
      modifies this`initialize
      ensures initialize == old(initialize) + [task]
    {
      initialize := initialize + [task];
    }

    method AddStart(task: Task)
      modifies this`start
      ensures start == old(start) + [task]
    {
      start := start + [task];
    }

    method AddServe(task: Task)
      modifies this`serve
      ensures serve == old(serve) + [task]
    {
      serve := serve + [task];
    }

    method Register(r: Registration)
      modifies this
      ensures Lists() == Add(old(Lists()), r)
    {
      match r.phase
      case 0 => AddInitialize(r.task);
      case 1 => AddStart(r.task);
      case 2 => AddServe(r.task);
      case _ =>
    }

    method Execute(task: Task)
      modifies this
      ensures Lists() == AddAll(old(Lists()), task.adds)
    {
      for i := 0 to |task.adds|
        invariant Lists() == AddAll(old(Lists()), task.adds[..i])
      {
        assert task.adds[..i + 1][..i] == task.adds[..i];
        Register(task.adds[i]);
      }
      assert task.adds[..|task.adds|] == task.adds;
    }

    method RunPhase(tasks: seq<Task>)
      modifies this
      ensures Lists() == ExecuteAll(old(Lists()), tasks)
    {
      for i := 0 to |tasks|
        invariant Lists() == ExecuteAll(old(Lists()), tasks[..i])
      {
        assert tasks[..i + 1][..i] == tasks[..i];
        Execute(tasks[i]);
      }
      assert tasks[..|tasks|] == tasks;
    }

    method RunAll() returns (trace: seq<Task>)
      modifies this
      ensures var before := old([initialize, start, serve]);
              trace == Trace(before, 3) && [initialize, start, serve] == ListsBefore(before, 3)
    {
      ghost var lists := Lists();
      trace := initialize;
      RunPhase(initialize);
      assert Lists() == ListsBefore(lists, 1) && trace == Trace(lists, 1);
      trace := trace + start;
      RunPhase(start);
      assert Lists() == ListsBefore(lists, 2) && trace == Trace(lists, 2);
      trace := trace + serve;
      RunPhase(serve);
      assert Lists() == ListsBefore(lists, 3) && trace == Trace(lists, 3);
    }
  }
}
