/**
 A scheduler and a worker over one store.  Every run in the store has a history, and its statuses are what the machine
 of `RunMachine` makes of that history; so what holds over every run of the machine holds of every run in the store.
 */
module Deployment {
  import opened Ordering
  import opened Graphs
  import opened DagTypes
  import opened Dag
  import opened RunMachine
  import opened Outcomes
  import opened Store
  import opened Views
  import opened Keys
  import opened Scheduler
  import opened DeadLetter
  import opened Worker

  /** The tasks a run was submitted with, and what has happened to it since. */
  datatype Trace = Trace(tasks: Tasks, acts: seq<Action>) {
    function Then(a: Action): Trace {
      this.(acts := acts + [a])
    }
  }

  type Traces = map<RunID, Trace>

  ghost function StateOf(runs: map<RunID, DAGRun>, m: Instances, r: RunID): RunState
    requires r in runs
  {
    RunState(StatusesOf(m, r), runs[r].status)
  }

  ghost predicate Explains(t: Trace, s: RunState) {
    Leads(t.tasks, Initial(t.tasks), t.acts, s)
  }

  ghost predicate AllExplained(h: Traces, runs: map<RunID, DAGRun>, m: Instances) {
    h.Keys == runs.Keys && forall r :: r in runs ==> Explains(h[r], StateOf(runs, m, r))
  }

  /** `h'` is `h` and what happened after it. */
  ghost predicate Extends(h: Traces, h': Traces) {
    forall r :: r in h ==>
      r in h' && h'[r].tasks == h[r].tasks && |h[r].acts| <= |h'[r].acts| && h'[r].acts[..|h[r].acts|] == h[r].acts
  }

  /** One call to `Schedule`, in every run. */
  ghost function ScheduledAll(h: Traces, ready: seq<TaskInstance>): Traces {
    map r | r in h :: h[r].Then(Action.Schedule(Project(ready, r)))
  }

  /** Another action in one run. */
  function MovedOn(h: Traces, r: RunID, a: Action): Traces
    requires r in h
  {
    h[r := h[r].Then(a)]
  }

  // ---------------------------------------------------------------- each operation extends the histories

  lemma SubmitExplained(h: Traces, runs: map<RunID, DAGRun>, runs': map<RunID, DAGRun>, run: DAGRun, m: Instances,
                        m': Instances, ids: map<Id, InstanceID>, tasks: Tasks)
    requires AllExplained(h, runs, m) && Submitted(runs, runs', run, m, m', ids) && run.id !in runs
    requires run.status == Running && OnePerTask(m) && Owned(m, runs.Keys) && ids.Keys == tasks.Keys
    ensures AllExplained(h[run.id := Trace(tasks, [])], runs', m')
    ensures Extends(h, h[run.id := Trace(tasks, [])])
  {
    hide StatusesOf, OnePerTask, Owned, Created;
    var h' := h[run.id := Trace(tasks, [])];
    forall r | r in runs' ensures Explains(h'[r], StateOf(runs', m', r)) {
      SubmittedView(runs, runs', run, m, m', ids, tasks, r);
      assert r != run.id ==> StateOf(runs', m', r) == StateOf(runs, m, r);
    }
  }

  /** A finished run takes the step under any definition: it stands still. */
  lemma ScheduleIsStep(tasks: Tasks, def: Option<Tasks>, runs: map<RunID, DAGRun>, runs': map<RunID, DAGRun>,
                       m: Instances, m': Instances, ready: seq<TaskInstance>, r: RunID)
    requires r in runs && RunStep(def, runs, runs', m, m', ready, r)
    requires runs[r].status == Running ==> def == Some(tasks)
    ensures r in runs'
    ensures Step(tasks, StateOf(runs, m, r), Action.Schedule(Project(ready, r)), StateOf(runs', m', r))
  {
    hide StatusesOf, DispatchList, Project, Queue;
  }

  /** A run that has ended, or whose tasks the scheduler still knows, makes the machine's step. */
  lemma ScheduleExplained(h: Traces, defs: map<RunID, Option<Tasks>>, index: set<string>, runs: map<RunID, DAGRun>,
                          runs': map<RunID, DAGRun>, m: Instances, m': Instances, ready: seq<TaskInstance>)
    requires AllExplained(h, runs, m) && defs.Keys == runs.Keys == runs'.Keys
    requires forall r :: r in runs ==> RunStep(defs[r], runs, runs', m, m', ready, r)
    requires Agree(h, runs, defs, index)
    ensures AllExplained(ScheduledAll(h, ready), runs', m') && Extends(h, ScheduledAll(h, ready))
  {
    hide StatusesOf, RunStep, Step, Leads, Dispatches;
    forall r | r in runs ensures Explains(ScheduledAll(h, ready)[r], StateOf(runs', m', r)) {
      var a := Action.Schedule(Project(ready, r));
      ScheduleIsStep(h[r].tasks, defs[r], runs, runs', m, m', ready, r);
      LeadsNext(h[r].tasks, Initial(h[r].tasks), h[r].acts, StateOf(runs, m, r), a, StateOf(runs', m', r));
    }
  }

  /** Live runs have the definition they were submitted with, and have it in the scheduler's index. */
  ghost predicate Agree(h: Traces, runs: map<RunID, DAGRun>, defs: map<RunID, Option<Tasks>>, index: set<string>) {
    forall r :: r in h && RunsOn(runs, r) ==> runs[r].dagID in index && r in defs && defs[r] == Some(h[r].tasks)
  }

  /** A submission under an ID whose live runs have the same tasks. */
  lemma SubmitAgrees(h: Traces, runs: map<RunID, DAGRun>, defs: map<RunID, Option<Tasks>>, index: set<string>,
                     run: DAGRun, tasks: Tasks, defs': map<RunID, Option<Tasks>>)
    requires Agree(h, runs, defs, index) && h.Keys == runs.Keys == defs.Keys && defs'.Keys == runs.Keys + {run.id}
    requires forall r :: r in h && RunsOn(runs, r) && runs[r].dagID == run.dagID ==> h[r].tasks == tasks
    requires defs'[run.id] == Some(tasks)
    requires forall r :: r in runs && r != run.id ==>
      defs'[r] == if runs[r].dagID == run.dagID then Some(tasks) else defs[r]
    ensures Agree(h[run.id := Trace(tasks, [])], runs[run.id := run], defs', index + {run.dagID})
  {
  }

  /** The action by which an instance may come to its new record `ti`. */
  predicate MayMove(was: Status, ti: TaskInstance, a: Action) {
    || (a == Start(ti.taskID) && was == Queued && ti.status == Running)
    || (a == Action.Report(ti.taskID, ti.status) && was in {Queued, Running} && ti.status.IsTerminal())
  }

  /** One instance moves on, by a step of its run. */
  lemma UpdateExplained(h: Traces, runs: map<RunID, DAGRun>, m: Instances, ti: TaskInstance, a: Action)
    requires AllExplained(h, runs, m) && FiledById(m) && OnePerTask(m) && Owned(m, runs.Keys)
    requires ti.id in m && Identity(ti) == Identity(m[ti.id])
    requires MayMove(m[ti.id].status, ti, a)
    ensures ti.runID in h && AllExplained(MovedOn(h, ti.runID, a), runs, m[ti.id := ti])
    ensures Extends(h, MovedOn(h, ti.runID, a))
  {
    hide StatusesOf, OnePerTask, Step;
    var m', own := m[ti.id := ti], ti.runID;
    assert own in runs;
    var h' := MovedOn(h, own, a);
    forall r | r in runs ensures Explains(h'[r], StateOf(runs, m', r)) {
      UpdateIsStep(h[own].tasks, m, ti, runs[own].status, r);
      if r == own {
        LeadsNext(h[r].tasks, Initial(h[r].tasks), h[r].acts, StateOf(runs, m, r), a, StateOf(runs, m', r));
      }
    }
  }

  /** A write that leaves the status as it was is none of the machine's business. */
  lemma SameStatusExplained(h: Traces, runs: map<RunID, DAGRun>, m: Instances, ti: TaskInstance)
    requires AllExplained(h, runs, m) && FiledById(m) && OnePerTask(m)
    requires ti.id in m && Identity(ti) == Identity(m[ti.id]) && ti.status == m[ti.id].status
    ensures AllExplained(h, runs, m[ti.id := ti])
  {
    hide StatusesOf, OnePerTask, Leads;
    forall r | r in runs ensures StateOf(runs, m[ti.id := ti], r) == StateOf(runs, m, r) {
      UpdateIsStep(h[r].tasks, m, ti, runs[r].status, r);
    }
  }

  // ---------------------------------------------------------------- what follows for the runs in the store

  /** In every state of a run: dispatched once and in dependency order, only behind tasks that have all succeeded. */
  lemma ExplainedIsSafe(t: Trace, s: RunState)
    requires Explains(t, s)
    ensures Distinct(Dispatches(t.acts)) && DepsBefore(t.tasks, Dispatches(t.acts))
    ensures forall x :: x in Dispatches(t.acts) <==> x in t.tasks && StatusOf(s.statuses, x) != Pending
    ensures forall u, x :: Reach(DependencyGraph(t.tasks), u, x) && StatusOf(s.statuses, x) != Pending ==>
              StatusOf(s.statuses, u) == Success
    ensures s.run != Running ==>
      s.statuses.Keys == t.tasks.Keys && AllTerminal(s.statuses) && s.run == RunStatus(s.statuses)
    ensures Changes(t.acts) <= 3 * |t.tasks|
  {
    DispatchOrder(t.tasks, t.acts, s);
    forall u, x | Reach(DependencyGraph(t.tasks), u, x) && StatusOf(s.statuses, x) != Pending
      ensures StatusOf(s.statuses, u) == Success
    {
      UpstreamSucceeded(t.tasks, t.acts, s, u, x);
    }
    InitialInv(t.tasks);
    LeadsKeepsInv(t.tasks, Initial(t.tasks), t.acts, s);
    BoundedWork(t.tasks, t.acts, s);
  }

  /** Whatever operations lie between two states, the later one is a continuation of the earlier one. */
  lemma Continues(h: Traces, h': Traces, r: RunID, s: RunState, s': RunState) returns (after: seq<Action>)
    requires Extends(h, h') && r in h && Explains(h[r], s) && Explains(h'[r], s')
    ensures h'[r].acts == h[r].acts + after && Leads(h[r].tasks, s, after, s')
  {
    after := h'[r].acts[|h[r].acts|..];
    assert h'[r].acts == h[r].acts + after;
    LeadsSplits(h[r].tasks, Initial(h[r].tasks), h[r].acts, s, after, s');
  }

  /** A run that has ended stays exactly as it is, and nothing of it is dispatched again. */
  lemma FinishedForGood(h: Traces, h': Traces, r: RunID, s: RunState, s': RunState)
    requires Extends(h, h') && r in h && Explains(h[r], s) && Explains(h'[r], s') && s.run != Running
    ensures s' == s && Dispatches(h'[r].acts) == Dispatches(h[r].acts)
  {
    var after := Continues(h, h', r, s, s');
    InitialInv(h[r].tasks);
    LeadsKeepsInv(h[r].tasks, Initial(h[r].tasks), h[r].acts, s);
    FinishedIsFinal(h[r].tasks, s, after, s');
    EmptyCalls(h[r].acts, after);
  }

  lemma {:induction false} EmptyCalls(acts: seq<Action>, after: seq<Action>)
    requires forall a :: a in after ==> a == Action.Schedule([])
    ensures Dispatches(acts + after) == Dispatches(acts)
  {
    if after == [] {
      assert acts + after == acts;
    } else {
      var rest := after[..|after| - 1];
      assert after[|after| - 1] in after && forall a :: a in rest ==> a in after;
      EmptyCalls(acts, rest);
      assert (acts + after)[..|acts + after| - 1] == acts + rest;
    }
  }

  /** Behind an unsuccessful task nothing is ever dispatched, and with a task behind it the run never ends. */
  lemma FailureForGood(h: Traces, h': Traces, r: RunID, s: RunState, s': RunState, u: Id, x: Id)
    requires Extends(h, h') && r in h && Explains(h[r], s) && Explains(h'[r], s')
    requires Unsuccessful(s.statuses, u) && Reach(DependencyGraph(h[r].tasks), u, x)
    ensures StatusOf(s'.statuses, x) == Pending && x !in Dispatches(h'[r].acts) && s'.run == Running
  {
    var after := Continues(h, h', r, s, s');
    var tasks := h[r].tasks;
    FailureBlocksDownstream(tasks, h[r].acts, s, after, s', u, x);
    DispatchOrder(tasks, h'[r].acts, s');
    ExplainedIsSafe(h'[r], s');
    ReachLastArc(DependencyGraph(tasks), u, x);
    assert x in tasks;
  }

  // ---------------------------------------------------------------- the operations

  class Deployment {
    const scheduler: FIFOScheduler
    const worker: Worker
    ghost var traces: Traces

    ghost predicate Valid()
      reads this, scheduler, scheduler.store, scheduler.Repr, worker.dlq
    {
      && scheduler.Valid() && worker.store == scheduler.store && worker.dlq.Valid()
      && traces.Keys == scheduler.store.runs.Keys
      && AllExplained(traces, scheduler.store.runs, scheduler.store.taskInstances)
      && DefinitionsHold() && KeysHold()
    }

    /** One definition per DAG ID while its runs are live. */
    ghost predicate DefinitionsHold()
      reads this, scheduler, scheduler.store, scheduler.Repr
    {
      Agree(traces, scheduler.store.runs, Definitions(), scheduler.dagIndex.Keys)
    }

    /** What the scheduler would use for each run. */
    ghost function Definitions(): map<RunID, Option<Tasks>>
      reads scheduler, scheduler.store, scheduler.Repr
    {
      map r | r in scheduler.store.runs :: scheduler.Definition(scheduler.store.runs[r].dagID)
    }

    /** An operation that revives no run and keeps the scheduler's definitions. */
    twostate lemma DefinitionsStay()
      requires old(DefinitionsHold())
      requires old(traces).Keys == old(scheduler.store.runs).Keys
      requires traces.Keys == old(traces.Keys) && scheduler.store.runs.Keys == old(scheduler.store.runs.Keys)
      requires forall r :: r in traces ==> traces[r].tasks == old(traces)[r].tasks
      requires forall r :: r in traces ==> scheduler.store.runs[r].dagID == old(scheduler.store.runs)[r].dagID
      requires forall r :: r in traces && RunsOn(scheduler.store.runs, r) ==> RunsOn(old(scheduler.store.runs), r)
      requires old(scheduler.dagIndex.Keys) <= scheduler.dagIndex.Keys
      requires forall id :: scheduler.Definition(id) == old(scheduler.Definition(id))
      ensures DefinitionsHold()
    {
      hide FIFOScheduler.Definition;
    }

    ghost predicate KeysHold()
      reads scheduler.store
    {
      && Keyed(scheduler.store.taskInstances)
      && (KeysUnique(scheduler.store.taskInstances) ==> scheduler.store.Indexed())
    }

    constructor (scheduler: FIFOScheduler, worker: Worker)
      requires scheduler.Valid() && worker.store == scheduler.store && worker.dlq.Valid()
      requires scheduler.store.runs == map[] && scheduler.store.Indexed()
      ensures Valid() && this.scheduler == scheduler && this.worker == worker && traces == map[]
    {
      this.scheduler, this.worker := scheduler, worker;
      traces := map[];
    }

    method Submit(d: DAG, runID: RunID, ids: map<Id, InstanceID>, now: int)
      requires Valid() && d.Valid() && ids.Keys == d.tasks.Keys
      requires runID !in scheduler.store.runs && Unused(scheduler.store.taskInstances, ids)
      requires forall r :: r in traces && RunsOn(scheduler.store.runs, r) && scheduler.store.runs[r].dagID == d.id ==>
                 traces[r].tasks == d.tasks
      modifies this, scheduler, scheduler.store
      ensures Valid() && Extends(old(traces), traces)
      ensures traces == old(traces)[runID := Trace(d.tasks, [])]
      ensures Submitted(old(scheduler.store.runs), scheduler.store.runs, DAGRun(runID, d.id, Running, now),
                        old(scheduler.store.taskInstances), scheduler.store.taskInstances, ids)
    {
      hide FIFOScheduler.Valid, FIFOScheduler.Definition, DeadLetterQueue.Valid, Agree, Extends, RunsOn, Keyed,
           Submitted, AddsInstances, StatusesOf, OnePerTask, KeysUnique, InverseOfKeys, AllExplained, RecordsOk, Owned,
           KeyedById, KeysClosed, Unused, Initial;
      scheduler.Tables();
      ghost var runs, m := scheduler.store.runs, scheduler.store.taskInstances;
      ghost var h, defs, index := traces, Definitions(), scheduler.dagIndex.Keys;
      var _ := scheduler.Submit(d, runID, ids, now);
      ghost var run, tasks := DAGRun(runID, d.id, Running, now), d.tasks;
      SubmitExplained(traces, runs, scheduler.store.runs, run, m, scheduler.store.taskInstances, ids, tasks);
      SubmitKeyed(runs, scheduler.store.runs, m, scheduler.store.taskInstances, run, ids);
      traces := traces[runID := Trace(tasks, [])];
      assert scheduler.dagIndex.Keys == index + {d.id};
      SubmitAgrees(h, runs, defs, index, run, tasks, Definitions());
    }

    method Schedule() returns (ready: seq<TaskInstance>)
      requires Valid()
      modifies this, scheduler, scheduler.store
      ensures Valid() && Extends(old(traces), traces)
      ensures traces == ScheduledAll(old(traces), ready)
      ensures AllStored(scheduler.store.taskInstances, ready) && Distinct(ready)
      ensures NewestFirst(old(scheduler.store.runs), ready)
      ensures Requeued(old(scheduler.store.runs), old(scheduler.store.taskInstances), scheduler.store.taskInstances)
    {
      hide FIFOScheduler.Valid, FIFOScheduler.Definition, DeadLetterQueue.Valid, Agree, StatusesOf, OnePerTask,
           KeysUnique, InverseOfKeys, AllExplained, RecordsOk, Owned, RunStep, CallDoes, Keyed, Requeued,
           AllStored, NewestFirst;
      ghost var runs, m := scheduler.store.runs, scheduler.store.taskInstances;
      ghost var defs, index := Definitions(), scheduler.dagIndex.Keys;
      ready := scheduler.Schedule();
      StillLive(defs, runs, scheduler.store.runs, m, scheduler.store.taskInstances, ready);
      RequeuedKeys(runs, m, scheduler.store.taskInstances, scheduler.store.idempotencyIdx);
      ScheduleExplained(traces, defs, index, runs, scheduler.store.runs, m, scheduler.store.taskInstances, ready);
      traces := ScheduledAll(traces, ready);
      DefinitionsStay();
    }

    /** What is reported must be an end, of an instance that has been dispatched and has not ended. */
    method Report(taskID: Id, result: TaskResult)
      requires Valid() && result.instanceID in scheduler.store.taskInstances && result.status.IsTerminal()
      requires scheduler.store.taskInstances[result.instanceID].status in {Queued, Running}
      modifies this, scheduler.store
      ensures Valid() && Extends(old(traces), traces)
      ensures var ti := old(scheduler.store.taskInstances)[result.instanceID];
              ti.runID in old(traces)
              && traces == MovedOn(old(traces), ti.runID, Action.Report(ti.taskID, result.status))
              && scheduler.store.taskInstances ==
                 old(scheduler.store.taskInstances)[ti.id := ti.(status := result.status, error := result.error)]
      ensures scheduler.store.runs == old(scheduler.store.runs)
    {
      hide FIFOScheduler.Valid, FIFOScheduler.Definition, DeadLetterQueue.Valid, DefinitionsHold, StatusesOf,
           OnePerTask, KeysUnique,
           InverseOfKeys, AllExplained, Owned, Keyed;
      scheduler.Tables();
      ghost var m := scheduler.store.taskInstances;
      ghost var ti := m[result.instanceID].(status := result.status, error := result.error);
      var _ := scheduler.ReportCompletion(taskID, result);
      MovesOn(traces, scheduler.store.runs, m, ti, Action.Report(ti.taskID, ti.status));
      traces := MovedOn(traces, ti.runID, Action.Report(ti.taskID, ti.status));
      DefinitionsStay();
    }

    /** A worker takes up a queued instance. */
    method Begin(queued: TaskInstance) returns (ti: TaskInstance)
      requires Valid() && Stored(queued) && queued.status == Queued
      modifies this, scheduler.store
      ensures Valid() && Extends(old(traces), traces)
      ensures ti == worker.Started(queued) && Stored(ti)
      ensures queued.runID in old(traces)
              && traces == MovedOn(old(traces), queued.runID, Start(queued.taskID))
      ensures scheduler.store.taskInstances == old(scheduler.store.taskInstances)[ti.id := ti]
      ensures scheduler.store.runs == old(scheduler.store.runs) && scheduler.store.dags == old(scheduler.store.dags)
    {
      hide FIFOScheduler.Valid, FIFOScheduler.Definition, DeadLetterQueue.Valid, DefinitionsHold, StatusesOf,
           OnePerTask, KeysUnique,
           InverseOfKeys, AllExplained, Owned, Keyed;
      scheduler.Tables();
      ghost var m := scheduler.store.taskInstances;
      var known;
      label Before:
      ti, known := worker.Begin(queued);
      scheduler.Rewritten@Before(ti);
      MovesOn(traces, scheduler.store.runs, m, ti, Start(ti.taskID));
      traces := MovedOn(traces, ti.runID, Start(ti.taskID));
      DefinitionsStay();
    }

    /**
     The worker ends what it has begun, whatever happened to other instances meanwhile.  The run sees a report, unless
     the retry count is negative: then the instance stays Running and nothing is seen.
     */
    method Complete(started: TaskInstance, s: Script) returns (ti: TaskInstance, n: nat, waits: seq<int>)
      requires Valid() && Stored(started) && started.status == Running && WellBehaved(s)
      modifies this, scheduler.store, worker.dlq
      ensures Valid() && Extends(old(traces), traces) && Stored(ti)
      ensures started.runID in old(traces) && Identity(ti) == Identity(started) && traces == Ended(old(traces), ti)
      ensures worker.ComesTo(started, s, ti, n, waits)
      ensures scheduler.store.taskInstances == old(scheduler.store.taskInstances)[ti.id := ti]
      ensures scheduler.store.runs == old(scheduler.store.runs) && scheduler.store.dags == old(scheduler.store.dags)
      ensures worker.dlq.pushed == old(worker.dlq.pushed) +
              if worker.Buried(started, s, ti, n) then [Letter(ti)] else []
    {
      hide FIFOScheduler.Valid, FIFOScheduler.Definition, DeadLetterQueue.Valid, DefinitionsHold, StatusesOf,
           OnePerTask, KeysUnique,
           InverseOfKeys, AllExplained, Owned, Keyed, Extends, Ended, Worker.ComesTo, Worker.Buried,
           Worker.Executed, Worker.Letters;
      scheduler.Tables();
      ghost var m := scheduler.store.taskInstances;
      label Before:
      ti, n, waits := worker.Complete(started, s);
      Ends(worker, started, s, ti, n, waits);
      scheduler.Rewritten@Before(ti);
      EndExplained(traces, scheduler.store.runs, m, ti);
      traces := Ended(traces, ti);
      DefinitionsStay();
    }

    /** `executeTask` as a whole: a start, and a report unless the retry count is negative. */
    method Execute(queued: TaskInstance, s: Script) returns (ti: TaskInstance, n: nat, waits: seq<int>)
      requires Valid() && Stored(queued) && queued.status == Queued && WellBehaved(s)
      modifies this, scheduler.store, worker.dlq
      ensures Valid() && Extends(old(traces), traces) && Stored(ti)
      ensures queued.runID in old(traces) && Identity(ti) == Identity(queued)
      ensures traces == Ended(MovedOn(old(traces), queued.runID, Start(queued.taskID)), ti)
      ensures worker.ComesTo(worker.Started(queued), s, ti, n, waits)
      ensures scheduler.store.taskInstances == old(scheduler.store.taskInstances)[ti.id := ti]
      ensures scheduler.store.runs == old(scheduler.store.runs) && scheduler.store.dags == old(scheduler.store.dags)
      ensures worker.dlq.pushed == old(worker.dlq.pushed) +
              if worker.Buried(worker.Started(queued), s, ti, n) then [Letter(ti)] else []
    {
      hide FIFOScheduler.Valid, FIFOScheduler.Definition, DeadLetterQueue.Valid, DefinitionsHold, StatusesOf,
           OnePerTask, KeysUnique,
           InverseOfKeys, AllExplained, Owned, Keyed, Extends, Ended, Worker.ComesTo, Worker.Buried,
           Worker.Executed, Worker.Letters;
      scheduler.Tables();
      ghost var m, begun := scheduler.store.taskInstances, worker.Started(queued);
      label Before:
      ti, n, waits := worker.ExecuteTask(queued, s);
      Ends(worker, begun, s, ti, n, waits);
      scheduler.Rewritten@Before(ti);
      ExecuteExplained(traces, scheduler.store.runs, m, begun, ti);
      traces := Ended(MovedOn(traces, queued.runID, Start(queued.taskID)), ti);
      DefinitionsStay();
    }

    /** What the machine promises, for a run in the store as it is now. */
    lemma RunIsSafe(r: RunID)
      requires Valid() && r in scheduler.store.runs
      ensures r in traces
      ensures var t, s := traces[r], scheduler.View(r);
              && Distinct(Dispatches(t.acts)) && DepsBefore(t.tasks, Dispatches(t.acts))
              && (forall x :: x in Dispatches(t.acts) <==> x in t.tasks && StatusOf(s.statuses, x) != Pending)
              && (forall u, x :: Reach(DependencyGraph(t.tasks), u, x) && StatusOf(s.statuses, x) != Pending ==>
                    StatusOf(s.statuses, u) == Success)
              && (s.run != Running ==>
                    s.statuses.Keys == t.tasks.Keys && AllTerminal(s.statuses) && s.run == RunStatus(s.statuses))
    {
      hide FIFOScheduler.Valid, StatusesOf, Explains, Dispatches, Distinct, DepsBefore, Reach, AllTerminal, RunStatus;
      ExplainedIsSafe(traces[r], scheduler.View(r));
    }

    /**
     A run at rest is where its outcomes put it, in whatever order its tasks were started and reported: exactly the
     tasks with only successful ancestors were executed, and the next call ends the run if no inner task failed.
     */
    lemma QuietRunIsSettled(r: RunID, out: Outcomes)
      requires Valid() && r in scheduler.store.runs && r in traces
      requires var t := traces[r];
               && out.Keys == t.tasks.Keys && AllTerminalOutcomes(out) && Reports(t.acts, out)
               && Closed(DependencyGraph(t.tasks)) && Acyclic(DependencyGraph(t.tasks))
               && Quiet(t.tasks, scheduler.View(r).statuses)
      ensures var t := traces[r];
              && FinalStatuses(t.tasks, out, scheduler.View(r).statuses)
              && Scheduled(t.tasks, scheduler.View(r)).run ==
                 if InnerTasksSucceed(DependencyGraph(t.tasks), out) then EndStatus(out) else Running
    {
      hide FIFOScheduler.Valid, StatusesOf, FinalStatuses, InnerTasksSucceed, EndStatus, Scheduled, Quiet, Closed,
           Acyclic, Leads, Reports, AllTerminalOutcomes;
      var t, s := traces[r], scheduler.View(r);
      assert Explains(t, s);
      QuietIsFinal(t.tasks, out, t.acts, s);
      QuietEndsExactly(t.tasks, out, t.acts, s);
    }

    /** The key index is exact unless some DAG ID contains the ID of a run of another DAG. */
    lemma IndexIsExact()
      requires Valid()
      requires forall k :: k in scheduler.store.taskInstances ==> IsUuid(scheduler.store.taskInstances[k].runID)
      requires forall a, b :: a in scheduler.store.taskInstances && b in scheduler.store.taskInstances ==>
                 !Embeds(scheduler.store.taskInstances[a], scheduler.store.taskInstances[b].dagID)
      ensures scheduler.store.Indexed()
    {
      hide StatusesOf, AllExplained, InverseOfKeys;
      UuidKeysStayUnique(scheduler.store.taskInstances);
    }

    /** The record `end` is what the worker makes of `queued`. */
    ghost predicate CameTo(queued: TaskInstance, s: Script, end: TaskInstance)
      reads worker.store`dags
    {
      exists n: nat, waits :: worker.ComesTo(worker.Started(queued), s, end, n, waits)
    }

    lemma Came(queued: TaskInstance, s: Script, end: TaskInstance, n: nat, waits: seq<int>)
      requires worker.ComesTo(worker.Started(queued), s, end, n, waits)
      ensures CameTo(queued, s, end)
    {
    }

    /** The first `i` instances have been executed, and nothing else has changed since table `m`. */
    ghost predicate ExecutedUpTo(ready: seq<TaskInstance>, scripts: InstanceID -> Script, i: nat, m: Instances)
      reads scheduler.store, worker.store`dags
    {
      && i <= |ready| && scheduler.store.taskInstances.Keys == m.Keys
      && (forall x :: 0 <= x < i ==> ready[x].id in m)
      && (forall x :: 0 <= x < i ==> CameTo(ready[x], scripts(ready[x].id), scheduler.store.taskInstances[ready[x].id]))
      && (forall k :: k in m && (forall x :: 0 <= x < i ==> ready[x].id != k) ==>
            scheduler.store.taskInstances[k] == m[k])
    }

    /** The worker's loop over the instances that reach it, here those that one call to `Schedule` returned. */
    method ExecuteAll(ready: seq<TaskInstance>, scripts: InstanceID -> Script)
      requires Valid() && AllStored(scheduler.store.taskInstances, ready) && Distinct(ready)
      requires forall id :: WellBehaved(scripts(id))
      modifies this, scheduler.store, worker.dlq
      ensures Valid() && Extends(old(traces), traces)
      ensures ExecutedUpTo(ready, scripts, |ready|, old(scheduler.store.taskInstances))
      ensures scheduler.store.runs == old(scheduler.store.runs) && scheduler.store.dags == old(scheduler.store.dags)
    {
      hide Valid, Extends, CameTo, WellBehaved, Distinct, AllStored;
      ghost var m, h := scheduler.store.taskInstances, traces;
      ExtendsSame(traces);
      var i := 0;
      while i < |ready|
        invariant 0 <= i <= |ready|
        invariant Valid() && Extends(h, traces)
        invariant ExecutedUpTo(ready, scripts, i, m)
        invariant scheduler.store.runs == old(scheduler.store.runs) && scheduler.store.dags == old(scheduler.store.dags)
      {
        ghost var before := traces;
        ExecuteNext(ready, scripts, i, m);
        ExtendsJoins(h, before, traces);
        i := i + 1;
      }
    }

    method ExecuteNext(ready: seq<TaskInstance>, scripts: InstanceID -> Script, i: nat, ghost m: Instances)
      requires Valid() && AllStored(m, ready) && Distinct(ready)
      requires i < |ready| && ExecutedUpTo(ready, scripts, i, m) && WellBehaved(scripts(ready[i].id))
      modifies this, scheduler.store, worker.dlq
      ensures Valid() && Extends(old(traces), traces)
      ensures ExecutedUpTo(ready, scripts, i + 1, m)
      ensures scheduler.store.runs == old(scheduler.store.runs) && scheduler.store.dags == old(scheduler.store.dags)
    {
      hide Valid, Extends, CameTo, MovedOn, Ended, Worker.ComesTo, Worker.Buried, Worker.Executed, Worker.Letters,
           Letter, WellBehaved, Distinct, AllStored;
      OthersDiffer(m, ready, i);
      var queued, s := ready[i], scripts(ready[i].id);
      var ti, n, waits := Execute(queued, s);
      Came(queued, s, ti, n, waits);
    }

    /** Saving a definition in the store changes no live run: the scheduler goes by its own index. */
    method Save(d: DagRecord)
      requires Valid() && KeyedById(d.tasks) && KeysClosed(d.tasks.Keys, d.edges)
      modifies scheduler.store
      ensures Valid() && traces == old(traces)
      ensures scheduler.store.dags == old(scheduler.store.dags)[d.id := d]
      ensures scheduler.store.runs == old(scheduler.store.runs)
      ensures scheduler.store.taskInstances == old(scheduler.store.taskInstances)
    {
      hide StatusesOf, OnePerTask, KeysUnique, InverseOfKeys, AllExplained, Owned, Keyed, DeadLetterQueue.Valid;
      scheduler.store.SaveDAG(d);
    }

    /** Registering a definition changes it for live runs too, so theirs must be the same. */
    method Register(d: DAG)
      requires Valid() && d.Valid()
      requires forall r :: r in traces && RunsOn(scheduler.store.runs, r) && scheduler.store.runs[r].dagID == d.id ==>
                 traces[r].tasks == d.tasks
      modifies scheduler, scheduler.store
      ensures Valid() && traces == old(traces)
      ensures scheduler.Definition(d.id) == Some(d.tasks)
      ensures scheduler.store.runs == old(scheduler.store.runs)
      ensures scheduler.store.taskInstances == old(scheduler.store.taskInstances)
    {
      hide FIFOScheduler.Valid, FIFOScheduler.Definition, DeadLetterQueue.Valid, StatusesOf, OnePerTask, KeysUnique,
           InverseOfKeys, AllExplained, Owned, Keyed;
      scheduler.RegisterDAG(d);
    }

    /** The given record is the stored one. */
    predicate Stored(ti: TaskInstance)
      reads scheduler.store
    {
      ti.id in scheduler.store.taskInstances && scheduler.store.taskInstances[ti.id] == ti
    }
  }

  /** Everything a deployment keeps is kept when instance `ti` of table `m` moves on. */
  lemma MovesOn(h: Traces, runs: map<RunID, DAGRun>, m: Instances, ti: TaskInstance, a: Action)
    requires AllExplained(h, runs, m) && FiledById(m) && OnePerTask(m) && Owned(m, runs.Keys) && Keyed(m)
    requires ti.id in m && Identity(ti) == Identity(m[ti.id]) && MayMove(m[ti.id].status, ti, a)
    ensures ti.runID in h && AllExplained(MovedOn(h, ti.runID, a), runs, m[ti.id := ti])
    ensures Extends(h, MovedOn(h, ti.runID, a))
    ensures Keyed(m[ti.id := ti]) && (KeysUnique(m[ti.id := ti]) ==> KeysUnique(m))
  {
    hide AllExplained, OnePerTask, Owned, Extends, MayMove;
    UpdateExplained(h, runs, m, ti, a);
    KeysKept(m, ti);
  }

  /** Executors that return an error or a terminal result. */
  ghost predicate WellBehaved(s: Script) {
    forall i :: Proper(s.replies(i))
  }

  /** What a worker makes of an instance it has begun: it ends, or stays as it is. */
  lemma Ends(w: Worker, started: TaskInstance, s: Script, ti: TaskInstance, n: nat, waits: seq<int>)
    requires w.ComesTo(started, s, ti, n, waits) && started.status == Running && WellBehaved(s)
    ensures Identity(ti) == Identity(started) && (ti.status.IsTerminal() || ti == started)
  {
    if w.Refusal(started).None? {
      HowTasksEnd(started, w.PolicyFor(started), s, n);
    }
  }

  /** The histories once a begun instance has come to `ti`. */
  function Ended(h: Traces, ti: TaskInstance): (h': Traces)
    requires ti.runID in h
    ensures h'.Keys == h.Keys && forall r :: r in h ==> h'[r].tasks == h[r].tasks
  {
    if ti.status == Running then h else MovedOn(h, ti.runID, Action.Report(ti.taskID, ti.status))
  }

  lemma EndExplained(h: Traces, runs: map<RunID, DAGRun>, m: Instances, ti: TaskInstance)
    requires AllExplained(h, runs, m) && FiledById(m) && OnePerTask(m) && Owned(m, runs.Keys) && Keyed(m)
    requires ti.id in m && Identity(ti) == Identity(m[ti.id]) && m[ti.id].status == Running
    requires ti.status.IsTerminal() || ti.status == Running
    ensures ti.runID in h && AllExplained(Ended(h, ti), runs, m[ti.id := ti]) && Extends(h, Ended(h, ti))
    ensures Keyed(m[ti.id := ti]) && (KeysUnique(m[ti.id := ti]) ==> KeysUnique(m))
  {
    KeysKept(m, ti);
    if ti.status == Running {
      hide StatusesOf, OnePerTask, Keyed, KeysUnique;
      SameStatusExplained(h, runs, m, ti);
      assert ti.runID in runs;
    } else {
      hide *;
      MovesOn(h, runs, m, ti, Action.Report(ti.taskID, ti.status));
    }
  }

  lemma ExecuteExplained(h: Traces, runs: map<RunID, DAGRun>, m: Instances, begun: TaskInstance, ti: TaskInstance)
    requires AllExplained(h, runs, m) && FiledById(m) && OnePerTask(m) && Owned(m, runs.Keys) && Keyed(m)
    requires begun.id in m && Identity(begun) == Identity(m[begun.id]) && m[begun.id].status == Queued
    requires begun.status == Running && Identity(ti) == Identity(begun)
    requires (ti.status.IsTerminal() || ti.status == Running)
    ensures begun.runID in h
    ensures var h' := Ended(MovedOn(h, begun.runID, Start(begun.taskID)), ti);
            AllExplained(h', runs, m[ti.id := ti]) && Extends(h, h')
    ensures Keyed(m[ti.id := ti]) && (KeysUnique(m[ti.id := ti]) ==> KeysUnique(m))
  {
    hide AllExplained, Owned, OnePerTask, Keyed, KeysUnique, Ended, Extends;
    var m' := m[begun.id := begun];
    MovesOn(h, runs, m, begun, Start(begun.taskID));
    KeepsIdentityOthers(m, m', begun.runID, begun.runID);
    var h' := MovedOn(h, begun.runID, Start(begun.taskID));
    SameOwners(m, begun, runs.Keys);
    EndExplained(h', runs, m', ti);
    ExtendsJoins(h, h', Ended(h', ti));
    assert m'[ti.id := ti] == m[ti.id := ti];
  }

  lemma ExtendsSame(h: Traces)
    ensures Extends(h, h)
  {
  }

  lemma OthersDiffer(m: Instances, ready: seq<TaskInstance>, i: nat)
    requires AllStored(m, ready) && Distinct(ready) && i < |ready|
    ensures ready[i].id in m && m[ready[i].id] == ready[i] && ready[i].status == Queued
    ensures forall x :: 0 <= x < |ready| && x != i ==> ready[x].id != ready[i].id
  {
    assert forall x :: 0 <= x < |ready| ==> ready[x] in ready;
  }

  lemma ExtendsJoins(a: Traces, b: Traces, c: Traces)
    requires Extends(a, b) && Extends(b, c)
    ensures Extends(a, c)
  {
    forall r | r in a ensures c[r].acts[..|a[r].acts|] == a[r].acts {
      assert c[r].acts[..|a[r].acts|] == c[r].acts[..|b[r].acts|][..|a[r].acts|];
    }
  }

  lemma SameOwners(m: Instances, ti: TaskInstance, runs: set<RunID>)
    requires Owned(m, runs) && ti.id in m && ti.runID == m[ti.id].runID
    ensures Owned(m[ti.id := ti], runs)
  {
  }

  lemma KeysKept(m: Instances, ti: TaskInstance)
    requires Keyed(m) && ti.id in m && Identity(ti) == Identity(m[ti.id])
    ensures Keyed(m[ti.id := ti]) && (KeysUnique(m[ti.id := ti]) ==> KeysUnique(m))
  {
    hide Key;
    assert forall k :: k in m ==> m[ti.id := ti][k].idempotencyKey == m[k].idempotencyKey;
  }

  lemma SubmitKeyed(runs: map<RunID, DAGRun>, runs': map<RunID, DAGRun>, m: Instances, m': Instances, run: DAGRun,
                    ids: map<Id, InstanceID>)
    requires Submitted(runs, runs', run, m, m', ids) && Keyed(m)
    ensures Keyed(m') && (KeysUnique(m') ==> KeysUnique(m)) && runs' == runs[run.id := run]
  {
  }

  /** Calls to `Schedule` end runs, but revive none. */
  lemma StillLive(defs: map<RunID, Option<Tasks>>, runs: map<RunID, DAGRun>, runs': map<RunID, DAGRun>,
                  m: Instances, m': Instances, ready: seq<TaskInstance>)
    requires defs.Keys == runs.Keys == runs'.Keys
    requires forall r :: r in runs ==> RunStep(defs[r], runs, runs', m, m', ready, r)
    ensures forall r :: r in runs ==> runs'[r].dagID == runs[r].dagID && (RunsOn(runs', r) ==> RunsOn(runs, r))
  {
    hide StatusesOf, DispatchList, Project;
  }
}
