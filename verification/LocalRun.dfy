/** The scheduling loop of the `run` command (cmd/sparkflowctl/main.go), which executes a DAG in the calling process. */
module LocalRun {
  import opened Ordering
  import opened Graphs
  import opened DagTypes
  import opened Dag
  import opened EdgeMaps
  import opened Parser
  import opened RunMachine
  import opened Outcomes
  import opened Store
  import opened Views
  import opened Scheduler

  /** What an executor comes back with. */
  datatype Execution = ExecError(msg: string) | ExecResult(status: Status, error: string)

  /** What the loop reports for a task: Failed without an executor or on an error, else the executor's status. */
  function Outcome(task: Task, registered: set<string>, e: Execution): Status {
    if task.executor !in registered then Failed
    else match e
      case ExecError(_) => Failed
      case ExecResult(status, _) => status
  }

  /** An executor that comes back without an error reports an end. */
  predicate Ends(task: Task, registered: set<string>, e: Execution) {
    task.executor in registered && e.ExecResult? ==> e.status.IsTerminal()
  }

  /** No executor, an error, or a result that says so. */
  predicate Fails(task: Task, registered: set<string>, e: Execution) {
    task.executor !in registered || e.ExecError? || e.status == Failed
  }

  /** The statuses after `k` rounds: what lies at depth below `k` behind successful ancestors only has been executed. */
  ghost function LocalStatuses(tasks: Tasks, out: Outcomes, k: nat): (st: Statuses)
    requires out.Keys == tasks.Keys
    ensures st.Keys == tasks.Keys
  {
    map t | t in tasks :: if Executed(tasks, out, k, t) then out[t] else Pending
  }

  ghost predicate Executed(tasks: Tasks, out: Outcomes, k: nat, t: Id) {
    t in Shallow(DependencyGraph(tasks), k) && AncestorsSucceed(DependencyGraph(tasks), out, t)
  }

  /** Dispatched in round `k`. */
  ghost predicate DueIn(tasks: Tasks, out: Outcomes, k: nat, t: Id) {
    t in Layer(DependencyGraph(tasks), k) && AncestorsSucceed(DependencyGraph(tasks), out, t)
  }

  /** Round `k` can dispatch exactly the tasks at depth `k` whose ancestors all succeed. */
  lemma RoundDispatches(tasks: Tasks, out: Outcomes, k: nat, t: Id)
    requires out.Keys == tasks.Keys && AllTerminalOutcomes(out) && Closed(DependencyGraph(tasks))
    ensures Dispatchable(tasks, LocalStatuses(tasks, out, k), t) <==> DueIn(tasks, out, k, t)
  {
    var g, st := DependencyGraph(tasks), LocalStatuses(tasks, out, k);
    AncestorsByDeps(g, out, t);
    ShallowGrows(g, k);
    if t in tasks {
      forall u ensures u in Preds(g, t) <==> u in tasks[t].dependencies {
        PredsAreArcs(g, u, t);
      }
      forall u | u in Preds(g, t)
        ensures StatusOf(st, u) == Success <==> StatusOf(out, u) == Success && Executed(tasks, out, k, u)
      {
        PredsAreArcs(g, u, t);
      }
    }
  }

  /** Executing what is due turns the statuses after `k` rounds into those after `k + 1`. */
  lemma RoundAdvances(tasks: Tasks, out: Outcomes, k: nat, t: Id)
    requires out.Keys == tasks.Keys && t in tasks
    ensures LocalStatuses(tasks, out, k + 1)[t] ==
            if DueIn(tasks, out, k, t) then out[t] else LocalStatuses(tasks, out, k)[t]
  {
    ShallowGrows(DependencyGraph(tasks), k);
  }

  // ---------------------------------------------------------------- when the loop ends

  /** `L` dependency levels: depth `L` is the first that no task reaches. */
  ghost predicate Levels(g: Graph, L: nat) {
    Shallow(g, L) == g.nodes && forall k :: 0 <= k < L ==> Shallow(g, k) != g.nodes
  }

  lemma LevelsExist(g: Graph)
    requires Closed(g) && Acyclic(g)
    ensures exists L: nat :: Levels(g, L) && L <= |g.nodes|
  {
    AcyclicIsShallow(g);
    var L: nat := |g.nodes|;
    while L > 0 && Shallow(g, L - 1) == g.nodes
      invariant Shallow(g, L) == g.nodes && L <= |g.nodes|
    {
      L := L - 1;
    }
    forall k | 0 <= k < L ensures Shallow(g, k) != g.nodes {
      ShallowMonotone(g, k, L - 1);
    }
    assert Levels(g, L);
  }

  /** After `k` rounds all tasks have ended exactly if there are at most `k` levels and every inner task succeeds. */
  lemma RoundsSuffice(tasks: Tasks, out: Outcomes, k: nat, L: nat)
    requires out.Keys == tasks.Keys && AllTerminalOutcomes(out)
    requires Closed(DependencyGraph(tasks)) && Levels(DependencyGraph(tasks), L)
    ensures AllTerminal(LocalStatuses(tasks, out, k)) <==> L <= k && InnerTasksSucceed(DependencyGraph(tasks), out)
  {
    hide LocalStatuses, AllTerminal, AllTerminalOutcomes, AncestorsSucceed, InnerTasksSucceed, Shallow;
    var g := DependencyGraph(tasks);
    InnerMeansAncestors(g, out);
    TerminalMeansExecuted(tasks, out, k);
    if L <= k {
      ShallowMonotone(g, L, k);
    } else {
      ShallowMonotone(g, k, L);
      var t :| t in g.nodes && t !in Shallow(g, k);
      assert !Executed(tasks, out, k, t);
    }
    assert forall t :: t in tasks && Executed(tasks, out, k, t) ==> AncestorsSucceed(g, out, t);
  }

  lemma TerminalMeansExecuted(tasks: Tasks, out: Outcomes, k: nat)
    requires out.Keys == tasks.Keys && AllTerminalOutcomes(out)
    ensures AllTerminal(LocalStatuses(tasks, out, k)) <==> forall t :: t in tasks ==> Executed(tasks, out, k, t)
  {
    hide Executed;
    forall t | t in tasks ensures LocalStatuses(tasks, out, k)[t].IsTerminal() <==> Executed(tasks, out, k, t) {
    }
  }

  /** Once all levels have had their round, exactly the tasks with only successful ancestors have been executed. */
  lemma ExecutedInTheEnd(tasks: Tasks, out: Outcomes, k: nat, L: nat)
    requires out.Keys == tasks.Keys && Levels(DependencyGraph(tasks), L) && L <= k
    ensures FinalStatuses(tasks, out, LocalStatuses(tasks, out, k))
  {
    ShallowMonotone(DependencyGraph(tasks), L, k);
  }

  /** The number of levels is the number of tasks in the longest dependency chain. */
  lemma LevelsMeasureChains(g: Graph, L: nat)
    requires Closed(g) && Levels(g, L)
    ensures L > 0 ==> exists v :: v in g.nodes && HasDepth(g, v, L - 1)
    ensures forall p, v :: v in g.nodes && ChainTo(g, p, v) ==> |p| <= L
  {
    if L > 0 {
      ShallowGrows(g, L - 1);
      var v :| v in g.nodes && v !in Shallow(g, L - 1);
      LayerIsDepth(g, v, L - 1);
    }
    forall v | v in g.nodes ensures forall p :: ChainTo(g, p, v) ==> |p| <= L {
      ShallowMeansShortChains(g, v, L);
    }
  }

  /** If the calls reach all levels, what they dispatch is exactly the tasks all of whose ancestors succeed. */
  lemma ExecutedExactly(tasks: Tasks, out: Outcomes, calls: seq<seq<Id>>, L: nat, t: Id)
    requires Levels(DependencyGraph(tasks), L) && L <= |calls|
    requires forall k :: 0 <= k < |calls| ==> CallOk(tasks, out, k, calls[k])
    ensures (exists k :: 0 <= k < |calls| && t in calls[k]) <==>
            t in tasks && AncestorsSucceed(DependencyGraph(tasks), out, t)
  {
    var g := DependencyGraph(tasks);
    if t in tasks && AncestorsSucceed(g, out, t) {
      var j := LayerOf(g, t, L);
      assert t in Layer(g, j - 1) && t in calls[j - 1];
    }
    forall k | 0 <= k < |calls| && t in calls[k] ensures t in tasks {
      ShallowGrows(g, k);
    }
  }

  /** When every task succeeds, call `k` dispatches exactly the tasks of depth `k`, and the run ends in Success. */
  lemma AllSucceedByDepth(tasks: Tasks, out: Outcomes, k: nat, l: seq<Id>)
    requires out.Keys == tasks.Keys && (forall t :: t in out ==> out[t] == Success)
    requires Closed(DependencyGraph(tasks)) && CallOk(tasks, out, k, l)
    ensures forall t :: t in l <==> t in tasks && HasDepth(DependencyGraph(tasks), t, k)
    ensures InnerTasksSucceed(DependencyGraph(tasks), out) && EndStatus(out) == Success
  {
    hide HasDepth;
    var g := DependencyGraph(tasks);
    assert InnerTasksSucceed(g, out);
    InnerMeansAncestors(g, out);
    forall t ensures t in l <==> t in tasks && HasDepth(g, t, k) {
      if t in tasks {
        LayerIsDepth(g, t, k);
      }
    }
  }

  // ---------------------------------------------------------------- the loop

  function OutcomesOf(tasks: Tasks, registered: set<string>, results: map<Id, Execution>): (out: Outcomes)
    requires results.Keys == tasks.Keys
    ensures out.Keys == tasks.Keys
  {
    map t | t in tasks :: Outcome(tasks[t], registered, results[t])
  }

  /** `l` is what round `k` must dispatch, in the scheduler's order. */
  ghost predicate CallOk(tasks: Tasks, out: Outcomes, k: nat, l: seq<Id>) {
    InReadyOrder(tasks, l) && forall t :: t in l <==> DueIn(tasks, out, k, t)
  }

  /** The statuses once the outcomes of the tasks `l` have been reported. */
  function Reported(st: Statuses, out: Outcomes, l: seq<Id>): (r: Statuses)
    requires st.Keys == out.Keys
    ensures r.Keys == st.Keys
  {
    map t | t in st :: if t in l then out[t] else st[t]
  }

  /** `s` is what the call of round `k` makes of the statuses, with `l` to be executed and reported. */
  ghost predicate RoundMade(tasks: Tasks, out: Outcomes, k: nat, l: seq<Id>, s: RunState)
    requires out.Keys == tasks.Keys
  {
    && CallOk(tasks, out, k, l)
    && s.statuses.Keys == tasks.Keys && Reported(s.statuses, out, l) == LocalStatuses(tasks, out, k + 1)
    && s.run == (if l == [] then RunStatus(LocalStatuses(tasks, out, k)) else Running)
    && (AllTerminal(LocalStatuses(tasks, out, k)) ==> l == [])
  }

  /** One round as the machine sees it: a `Schedule` step, then the reports. */
  lemma RoundOnStatuses(tasks: Tasks, out: Outcomes, k: nat, l: seq<Id>, s': RunState)
    requires out.Keys == tasks.Keys && AllTerminalOutcomes(out) && Closed(DependencyGraph(tasks))
    requires Step(tasks, RunState(LocalStatuses(tasks, out, k), Running), Action.Schedule(l), s')
    ensures RoundMade(tasks, out, k, l, s')
  {
    hide Executed, DueIn, LocalStatuses, Dispatchable, AnyFailed;
    var st := LocalStatuses(tasks, out, k);
    forall t ensures Dispatchable(tasks, st, t) <==> DueIn(tasks, out, k, t) {
      RoundDispatches(tasks, out, k, t);
    }
    forall t | t in tasks
      ensures Reported(s'.statuses, out, l)[t] == LocalStatuses(tasks, out, k + 1)[t]
      ensures s'.statuses[t] == (if t in l then Queued else st[t]) && (t in l ==> st[t] == Pending)
    {
      RoundAdvances(tasks, out, k, t);
      QueueAt(tasks, st, t);
    }
    if l == [] {
      assert s'.statuses == st;
    } else {
      assert l[0] in l;
      DispatchableIsTask(tasks, st, l[0]);
      assert s'.statuses[l[0]] == Queued;
    }
  }

  lemma DispatchableIsTask(tasks: Tasks, st: Statuses, t: Id)
    ensures Dispatchable(tasks, st, t) ==> t in tasks && t in st && st[t] == Pending
  {
  }

  /** Between rounds: one run, of the DAG with these tasks, with its statuses as they must be after `k` rounds. */
  ghost predicate Between(sch: FIFOScheduler, runID: RunID, tasks: Tasks, out: Outcomes, k: nat, run: Status)
    requires out.Keys == tasks.Keys
    reads sch, sch.store, sch.Repr
  {
    && sch.Valid() && sch.store.runs.Keys == {runID}
    && sch.Definition(sch.store.runs[runID].dagID) == Some(tasks)
    && sch.View(runID) == RunState(LocalStatuses(tasks, out, k), run)
  }

  /** Every listed instance is in the table, as itself. */
  ghost predicate AllKnown(m: Instances, ready: seq<TaskInstance>) {
    forall ti :: ti in ready ==> ti.id in m && Identity(m[ti.id]) == Identity(ti)
  }

  /** Reports what came of each dispatched instance. */
  method ReportAll(sch: FIFOScheduler, runID: RunID, ready: seq<TaskInstance>, tasks: Tasks,
                   registered: set<string>, results: map<Id, Execution>)
    requires sch.Valid() && results.Keys == tasks.Keys
    requires AllKnown(sch.store.taskInstances, ready)
    requires forall ti :: ti in ready ==> ti.runID == runID && ti.taskID in tasks
    requires StatusesOf(sch.store.taskInstances, runID).Keys == tasks.Keys
    modifies sch.store`taskInstances
    ensures sch.Valid() && forall id :: sch.Definition(id) == old(sch.Definition(id))
    ensures StatusesOf(sch.store.taskInstances, runID) ==
            Reported(old(StatusesOf(sch.store.taskInstances, runID)), OutcomesOf(tasks, registered, results),
                     TaskIdsOf(ready))
  {
    hide StatusesOf, OnePerTask, KeepsIdentity, RecordsOk, Owned;
    ghost var st, out := StatusesOf(sch.store.taskInstances, runID), OutcomesOf(tasks, registered, results);
    assert Reported(st, out, TaskIdsOf([])) == st;
    var i := 0;
    while i < |ready|
      invariant 0 <= i <= |ready|
      invariant sch.Valid() && forall id :: sch.Definition(id) == old(sch.Definition(id))
      invariant AllKnown(sch.store.taskInstances, ready)
      invariant StatusesOf(sch.store.taskInstances, runID) == Reported(st, out, TaskIdsOf(ready[..i]))
    {
      var ti := ready[i];
      assert ti in ready;
      ghost var before := sch.store.taskInstances;
      ReportOne(sch, ti, tasks[ti.taskID], registered, results[ti.taskID]);
      StillKnown(before, sch.store.taskInstances, runID, ready);
      ReportedNext(st, out, ready, i);
      i := i + 1;
    }
    assert ready[..i] == ready;
  }

  lemma StillKnown(m: Instances, m': Instances, r: RunID, ready: seq<TaskInstance>)
    requires AllKnown(m, ready) && KeepsIdentity(m, m', r)
    ensures AllKnown(m', ready)
  {
  }

  method ReportOne(sch: FIFOScheduler, ti: TaskInstance, task: Task, registered: set<string>, e: Execution)
    requires sch.Valid() && ti.id in sch.store.taskInstances && Identity(sch.store.taskInstances[ti.id]) == Identity(ti)
    modifies sch.store`taskInstances
    ensures sch.Valid() && forall id :: sch.Definition(id) == old(sch.Definition(id))
    ensures KeepsIdentity(old(sch.store.taskInstances), sch.store.taskInstances, ti.runID)
    ensures StatusesOf(sch.store.taskInstances, ti.runID) ==
            old(StatusesOf(sch.store.taskInstances, ti.runID))[ti.taskID := Outcome(task, registered, e)]
    ensures var was, now := old(sch.store.taskInstances), sch.store.taskInstances;
            && now == was[ti.id := was[ti.id].(status := now[ti.id].status, error := now[ti.id].error)]
            && (task.executor !in registered ==> now[ti.id].status == Failed)
            && (task.executor in registered && e.ExecError? ==>
                  now[ti.id].status == Failed && now[ti.id].error == e.msg)
            && (task.executor in registered && e.ExecResult? ==>
                  now[ti.id].status == e.status && now[ti.id].error == e.error)
  {
    hide StatusesOf, OnePerTask, RecordsOk, Owned, InverseOfKeys;
    var report;
    if task.executor !in registered {
      report := TaskResult(ti.id, Failed, "executor not registered");
    } else {
      match e
      case ExecError(msg) => report := TaskResult(ti.id, Failed, msg);
      case ExecResult(status, error) => report := TaskResult(ti.id, status, error);
    }
    ghost var m := sch.store.taskInstances;
    InstanceUpdate(m, m[ti.id].(status := report.status, error := report.error));
    var _ := sch.ReportCompletion(ti.taskID, report);
  }

  lemma ReportedNext(st: Statuses, out: Outcomes, ready: seq<TaskInstance>, i: nat)
    requires st.Keys == out.Keys && i < |ready| && ready[i].taskID in st
    ensures Reported(st, out, TaskIdsOf(ready[..i + 1])) ==
            Reported(st, out, TaskIdsOf(ready[..i]))[ready[i].taskID := out[ready[i].taskID]]
  {
    assert TaskIdsOf(ready[..i + 1]) == TaskIdsOf(ready[..i]) + [ready[i].taskID];
  }

  /** The call to `Schedule` in round `k`. */
  method Call(sch: FIFOScheduler, runID: RunID, tasks: Tasks, ghost out: Outcomes, ghost k: nat)
    returns (ready: seq<TaskInstance>)
    requires out.Keys == tasks.Keys && AllTerminalOutcomes(out) && Closed(DependencyGraph(tasks))
    requires Between(sch, runID, tasks, out, k, Running)
    modifies sch`dagIndex, sch`Repr, sch.store`taskInstances, sch.store`runs
    ensures sch.Valid() && sch.store.runs.Keys == {runID}
    ensures sch.Definition(sch.store.runs[runID].dagID) == Some(tasks)
    ensures AllKnown(sch.store.taskInstances, ready)
    ensures forall ti :: ti in ready ==> ti.runID == runID && ti.taskID in tasks
    ensures RoundMade(tasks, out, k, TaskIdsOf(ready), sch.View(runID))
  {
    hide StatusesOf, OnePerTask, LocalStatuses, CallOk, Step, Requeued, CallDoes, RoundMade, AllTerminalOutcomes,
         Closed;
    ready := sch.Schedule();
    OnlyRun(sch.store.taskInstances, sch.store.runs.Keys, runID, ready);
    RoundOnStatuses(tasks, out, k, TaskIdsOf(ready), sch.View(runID));
    CalledAreTasks(tasks, out, k, ready, sch.View(runID));
  }

  /** One round of the loop: schedule, then either look whether the run has ended or execute and report. */
  method Round(sch: FIFOScheduler, runID: RunID, tasks: Tasks, registered: set<string>, results: map<Id, Execution>,
               ghost k: nat)
    returns (finished: Option<Status>, ghost call: seq<Id>)
    requires results.Keys == tasks.Keys && Closed(DependencyGraph(tasks))
    requires AllTerminalOutcomes(OutcomesOf(tasks, registered, results))
    requires Between(sch, runID, tasks, OutcomesOf(tasks, registered, results), k, Running)
    modifies sch`dagIndex, sch`Repr, sch.store`taskInstances, sch.store`runs
    ensures var out := OutcomesOf(tasks, registered, results);
            && CallOk(tasks, out, k, call)
            && (finished.Some? <==> AllTerminal(LocalStatuses(tasks, out, k)))
            && (finished.Some? ==> finished.value == RunStatus(LocalStatuses(tasks, out, k)))
            && Between(sch, runID, tasks, out, k + 1, if finished.Some? then finished.value else Running)
  {
    hide StatusesOf, OnePerTask, LocalStatuses, CallOk, AnyFailed, AllTerminal, Closed, AllTerminalOutcomes, Reported;
    ghost var out := OutcomesOf(tasks, registered, results);
    var ready := Call(sch, runID, tasks, out, k);
    call := TaskIdsOf(ready);
    finished := None;
    if |ready| == 0 {
      NothingReported(sch.View(runID).statuses, out);
      var run := sch.store.GetRun(runID);
      if run.Ok? && run.value.status.IsTerminal() {
        return Some(run.value.status), call;
      }
    } else {
      ReportAll(sch, runID, ready, tasks, registered, results);
    }
  }

  lemma NothingReported(st: Statuses, out: Outcomes)
    requires st.Keys == out.Keys
    ensures Reported(st, out, []) == st
  {
  }

  lemma OnlyRun(m: Instances, runs: set<RunID>, runID: RunID, ready: seq<TaskInstance>)
    requires Owned(m, runs) && runs == {runID} && AllKnown(m, ready)
    ensures forall ti :: ti in ready ==> ti.runID == runID
    ensures Project(ready, runID) == TaskIdsOf(ready)
  {
  }

  lemma CalledAreTasks(tasks: Tasks, out: Outcomes, k: nat, ready: seq<TaskInstance>, s: RunState)
    requires out.Keys == tasks.Keys && RoundMade(tasks, out, k, TaskIdsOf(ready), s)
    ensures forall ti :: ti in ready ==> ti.taskID in tasks
  {
    ShallowGrows(DependencyGraph(tasks), k);
    forall ti | ti in ready ensures ti.taskID in tasks {
      var x :| 0 <= x < |ready| && ready[x] == ti;
      assert TaskIdsOf(ready)[x] in TaskIdsOf(ready);
    }
  }

  lemma EndedStatus(tasks: Tasks, out: Outcomes, k: nat)
    requires out.Keys == tasks.Keys && AllTerminalOutcomes(out) && AllTerminal(LocalStatuses(tasks, out, k))
    ensures RunStatus(LocalStatuses(tasks, out, k)) == EndStatus(out)
  {
  }

  /**
   What the loop does in at most `rounds` turns.  With `L` dependency levels, call number `k` dispatches exactly the
   tasks at depth `k` all of whose ancestors succeed.  If every task with successors succeeds, the loop ends in call
   number `L`, as Failed exactly if a task failed; otherwise no number of rounds ends it.  After `L` rounds the store
   shows the final statuses.
   */
  ghost predicate Conducted(tasks: Tasks, out: Outcomes, rounds: nat, finished: Option<Status>, calls: seq<seq<Id>>,
                            s: RunState)
    requires out.Keys == tasks.Keys
  {
    var g := DependencyGraph(tasks);
    && (forall k :: 0 <= k < |calls| ==> CallOk(tasks, out, k, calls[k]))
    && (forall L: nat :: Levels(g, L) ==>
          && (finished.Some? <==> L < rounds && InnerTasksSucceed(g, out))
          && |calls| == (if finished.Some? then L + 1 else rounds)
          && (L <= |calls| ==> FinalStatuses(tasks, out, s.statuses)))
    && (finished.Some? ==> finished.value == EndStatus(out))
    && s.run == (if finished.Some? then finished.value else Running)
  }

  /** At most `rounds` turns of the loop of `cmdRun` on a fresh store; `sch` is the scheduler as it leaves it. */
  method RunLocal(d: DAG, runID: RunID, ids: map<Id, InstanceID>, now: int, registered: set<string>,
                  results: map<Id, Execution>, rounds: nat)
    returns (finished: Option<Status>, ghost calls: seq<seq<Id>>, ghost sch: FIFOScheduler)
    requires d.Valid() && ids.Keys == results.Keys == d.tasks.Keys && Unused(map[], ids)
    requires Closed(DependencyGraph(d.tasks)) && Acyclic(DependencyGraph(d.tasks))
    requires forall t :: t in d.tasks ==> Ends(d.tasks[t], registered, results[t])
    ensures sch.Valid() && sch.store.runs.Keys == {runID}
    ensures Conducted(d.tasks, OutcomesOf(d.tasks, registered, results), rounds, finished, calls, sch.View(runID))
    ensures Told(d.tasks, registered, results, finished, calls, sch.store.taskInstances)
  {
    hide Told, Ends, Between, Ran, CallOk, Levels, InnerTasksSucceed, LocalStatuses, AllTerminal, AllTerminalOutcomes,
         RunStatus, EndStatus, FinalStatuses, Conducted, Closed, Acyclic;
    ghost var tasks, out := d.tasks, OutcomesOf(d.tasks, registered, results);
    OutcomesEnd(tasks, registered, results);
    var scheduler := Launch(d, runID, ids, now, out);
    finished, calls := None, [];
    NotYetRan(tasks, out);
    var k := 0;
    while k < rounds && finished.None?
      invariant 0 <= k <= rounds && |calls| == k
      invariant fresh(scheduler) && fresh(scheduler.store) && d.tasks == tasks
      invariant Between(scheduler, runID, tasks, out, k, if finished.Some? then finished.value else Running)
      invariant Ran(tasks, out, calls, finished)
      decreases rounds - k
    {
      ghost var call;
      finished, call := Round(scheduler, runID, d.tasks, registered, results, k);
      RanNext(tasks, out, calls, call, finished);
      calls := calls + [call];
      k := k + 1;
    }
    sch := scheduler;
    LeftBehind(sch, runID, tasks, out, k, if finished.Some? then finished.value else Running);
    Concluded(tasks, out, rounds, finished, calls);
    ToldInTheEnd(sch, runID, tasks, registered, results, finished, calls);
  }

  lemma OutcomesEnd(tasks: Tasks, registered: set<string>, results: map<Id, Execution>)
    requires results.Keys == tasks.Keys && forall t :: t in tasks ==> Ends(tasks[t], registered, results[t])
    ensures AllTerminalOutcomes(OutcomesOf(tasks, registered, results))
  {
  }

  ghost predicate Called(calls: seq<seq<Id>>, t: Id) {
    exists k :: 0 <= k < |calls| && t in calls[k]
  }

  /**
   What the loop leaves, in terms of registry and executors: a task that was never dispatched is Pending, one without
   an executor or with an execution error is stored as Failed, any other as its executor said; and a loop that has
   ended has ended in Failed exactly if some task failed in one of these ways, else in Success.
   */
  ghost predicate Told(tasks: Tasks, registered: set<string>, results: map<Id, Execution>, finished: Option<Status>,
                       calls: seq<seq<Id>>, m: Instances)
    requires results.Keys == tasks.Keys
  {
    && (forall t :: t in tasks ==> exists k :: k in m && m[k].taskID == t)
    && (forall k :: k in m ==> m[k].taskID in tasks && TaskTold(tasks, registered, results, calls, m[k]))
    && (finished.Some? ==>
          finished.value ==
          if exists t :: t in tasks && Fails(tasks[t], registered, results[t]) then Failed else Success)
  }

  ghost predicate TaskTold(tasks: Tasks, registered: set<string>, results: map<Id, Execution>, calls: seq<seq<Id>>,
                           ti: TaskInstance)
    requires ti.taskID in tasks && results.Keys == tasks.Keys
  {
    var task, e := tasks[ti.taskID], results[ti.taskID];
    if !Called(calls, ti.taskID) then ti.status == Pending
    else if task.executor !in registered || e.ExecError? then ti.status == Failed
    else ti.status == e.status
  }

  /** The dispatched tasks are the ones with an outcome. */
  lemma CalledAreExecuted(tasks: Tasks, out: Outcomes, calls: seq<seq<Id>>, t: Id)
    requires out.Keys == tasks.Keys && t in tasks
    requires forall k :: 0 <= k < |calls| ==> CallOk(tasks, out, k, calls[k])
    ensures LocalStatuses(tasks, out, |calls|)[t] == if Called(calls, t) then out[t] else Pending
  {
    hide AncestorsSucceed, InReadyOrder, Shallow;
    var g := DependencyGraph(tasks);
    if Called(calls, t) {
      var k :| 0 <= k < |calls| && t in calls[k];
      assert DueIn(tasks, out, k, t);
      ShallowMonotone(g, k + 1, |calls|);
    }
    if Executed(tasks, out, |calls|, t) {
      var j := LayerOf(g, t, |calls|);
      assert DueIn(tasks, out, j - 1, t) && t in calls[j - 1];
    }
  }

  lemma EndToldExactly(tasks: Tasks, registered: set<string>, results: map<Id, Execution>)
    requires results.Keys == tasks.Keys
    ensures EndStatus(OutcomesOf(tasks, registered, results)) ==
            if exists t :: t in tasks && Fails(tasks[t], registered, results[t]) then Failed else Success
  {
    var out := OutcomesOf(tasks, registered, results);
    forall t | t in tasks ensures out[t] == Failed <==> Fails(tasks[t], registered, results[t]) {
    }
  }

  lemma ToldInTheEnd(sch: FIFOScheduler, runID: RunID, tasks: Tasks, registered: set<string>,
                     results: map<Id, Execution>, finished: Option<Status>, calls: seq<seq<Id>>)
    requires results.Keys == tasks.Keys && sch.Valid() && sch.store.runs.Keys == {runID}
    requires sch.View(runID).statuses == LocalStatuses(tasks, OutcomesOf(tasks, registered, results), |calls|)
    requires Ran(tasks, OutcomesOf(tasks, registered, results), calls, finished)
    ensures Told(tasks, registered, results, finished, calls, sch.store.taskInstances)
  {
    hide LocalStatuses, StatusesOf, OnePerTask, CallOk, Called, EndStatus, AllTerminal, Fails, RecordsOk;
    var m, out := sch.store.taskInstances, OutcomesOf(tasks, registered, results);
    EndToldExactly(tasks, registered, results);
    assert StatusesOf(m, runID) == LocalStatuses(tasks, out, |calls|);
    forall t | t in tasks ensures exists k :: k in m && m[k].taskID == t {
      TaskHasInstance(m, runID, t);
    }
    forall k | k in m ensures m[k].taskID in tasks && TaskTold(tasks, registered, results, calls, m[k]) {
      StatusOfInstance(m, runID, k);
      CalledAreExecuted(tasks, out, calls, m[k].taskID);
    }
  }

  lemma ToldEnd(tasks: Tasks, registered: set<string>, results: map<Id, Execution>, finished: Option<Status>,
                calls: seq<seq<Id>>, m: Instances)
    requires results.Keys == tasks.Keys && Told(tasks, registered, results, finished, calls, m)
    ensures finished.Some? ==>
      finished.value == if exists t :: t in tasks && Fails(tasks[t], registered, results[t]) then Failed else Success
  {
    hide Fails, TaskTold;
  }

  lemma TaskHasInstance(m: Instances, r: RunID, t: Id)
    requires t in StatusesOf(m, r)
    ensures exists k :: k in m && m[k].taskID == t
  {
  }

  lemma LeftBehind(sch: FIFOScheduler, runID: RunID, tasks: Tasks, out: Outcomes, k: nat, run: Status)
    requires out.Keys == tasks.Keys && Between(sch, runID, tasks, out, k, run)
    ensures sch.Valid() && sch.store.runs.Keys == {runID}
    ensures sch.View(runID) == RunState(LocalStatuses(tasks, out, k), run)
  {
  }

  lemma Concluded(tasks: Tasks, out: Outcomes, rounds: nat, finished: Option<Status>, calls: seq<seq<Id>>)
    requires out.Keys == tasks.Keys && AllTerminalOutcomes(out) && Closed(DependencyGraph(tasks))
    requires |calls| <= rounds && (finished.None? ==> |calls| == rounds) && Ran(tasks, out, calls, finished)
    ensures Conducted(tasks, out, rounds, finished, calls,
                      RunState(LocalStatuses(tasks, out, |calls|), if finished.Some? then finished.value else Running))
  {
    hide Ran, CallOk, Levels, InnerTasksSucceed, LocalStatuses, EndStatus, FinalStatuses, Closed;
    EndOfLoop(tasks, out, rounds, calls, finished);
    forall L: nat | Levels(DependencyGraph(tasks), L) && L <= |calls|
      ensures FinalStatuses(tasks, out, LocalStatuses(tasks, out, |calls|))
    {
      ExecutedInTheEnd(tasks, out, |calls|, L);
    }
  }

  /** What holds of the calls made so far: each is as it must be, and only the last can have found all tasks ended. */
  ghost predicate Ran(tasks: Tasks, out: Outcomes, calls: seq<seq<Id>>, finished: Option<Status>)
    requires out.Keys == tasks.Keys
  {
    && (forall j :: 0 <= j < |calls| ==> CallOk(tasks, out, j, calls[j]))
    && (forall j :: 0 <= j < (if finished.Some? then |calls| - 1 else |calls|) ==>
          !AllTerminal(LocalStatuses(tasks, out, j)))
    && (finished.Some? ==>
          calls != [] && AllTerminal(LocalStatuses(tasks, out, |calls| - 1)) && finished.value == EndStatus(out))
  }

  lemma NotYetRan(tasks: Tasks, out: Outcomes)
    requires out.Keys == tasks.Keys
    ensures Ran(tasks, out, [], None)
  {
  }

  lemma RanNext(tasks: Tasks, out: Outcomes, calls: seq<seq<Id>>, call: seq<Id>, finished: Option<Status>)
    requires out.Keys == tasks.Keys && AllTerminalOutcomes(out) && Ran(tasks, out, calls, None)
    requires CallOk(tasks, out, |calls|, call)
    requires finished.Some? <==> AllTerminal(LocalStatuses(tasks, out, |calls|))
    requires finished.Some? ==> finished.value == RunStatus(LocalStatuses(tasks, out, |calls|))
    ensures Ran(tasks, out, calls + [call], finished)
  {
    hide LocalStatuses, AllTerminal, CallOk, RunStatus, EndStatus, AllTerminalOutcomes;
    if finished.Some? {
      EndedStatus(tasks, out, |calls|);
    }
  }

  /** When the first round with all tasks ended comes, in terms of levels and inner tasks. */
  lemma EndOfLoop(tasks: Tasks, out: Outcomes, rounds: nat, calls: seq<seq<Id>>, finished: Option<Status>)
    requires out.Keys == tasks.Keys && AllTerminalOutcomes(out) && Closed(DependencyGraph(tasks))
    requires |calls| <= rounds && (finished.None? ==> |calls| == rounds) && Ran(tasks, out, calls, finished)
    ensures forall k :: 0 <= k < |calls| ==> CallOk(tasks, out, k, calls[k])
    ensures forall L: nat :: Levels(DependencyGraph(tasks), L) ==>
      && (finished.Some? <==> L < rounds && InnerTasksSucceed(DependencyGraph(tasks), out))
      && (finished.Some? ==> |calls| == L + 1)
    ensures finished.Some? ==> finished.value == EndStatus(out)
  {
    hide Levels, InnerTasksSucceed, LocalStatuses, AllTerminal, CallOk, EndStatus;
    forall L: nat | Levels(DependencyGraph(tasks), L)
      ensures finished.Some? <==> L < rounds && InnerTasksSucceed(DependencyGraph(tasks), out)
      ensures finished.Some? ==> |calls| == L + 1
    {
      RoundsSuffice(tasks, out, L, L);
      if finished.Some? {
        RoundsSuffice(tasks, out, |calls| - 1, L);
      }
    }
  }

  /** The start of the command: store, scheduler, submitted run. */
  method Launch(d: DAG, runID: RunID, ids: map<Id, InstanceID>, now: int,
                ghost out: Outcomes) returns (sch: FIFOScheduler)
    requires d.Valid() && ids.Keys == out.Keys == d.tasks.Keys && Unused(map[], ids)
    ensures fresh(sch) && fresh(sch.store)
    ensures Between(sch, runID, d.tasks, out, 0, Running)
  {
    hide StatusesOf, OnePerTask, Submitted, AddsInstances, KeysUnique, LocalStatuses, InverseOfKeys;
    var store := new MemoryStore();
    store.SaveDAG(DagRecord(d.id, d.name, d.tasks, d.edges));
    sch := new FIFOScheduler(store);
    var submitted := sch.Submit(d, runID, ids, now);
    Launched(store.runs, store.taskInstances, DAGRun(runID, d.id, Running, now), ids, d.tasks, out);
  }

  lemma Launched(runs: map<RunID, DAGRun>, m: Instances, run: DAGRun, ids: map<Id, InstanceID>, tasks: Tasks,
                 out: Outcomes)
    requires ids.Keys == out.Keys == tasks.Keys && run.status == Running && Submitted(map[], runs, run, map[], m, ids)
    ensures runs == map[run.id := run]
    ensures RunState(StatusesOf(m, run.id), Running) == RunState(LocalStatuses(tasks, out, 0), Running)
  {
    hide StatusesOf, Created;
    NothingStored(map[]);
    SubmittedView(map[], runs, run, map[], m, ids, tasks, run.id);
    assert LocalStatuses(tasks, out, 0) == Initial(tasks).statuses;
  }

  lemma NothingStored(m: Instances)
    requires m == map[]
    ensures OnePerTask(m) && Owned(m, {})
  {
  }

  // ---------------------------------------------------------------- the command

  /** No task of the record fails for lack of an executor, with an error, or by its result. */
  ghost predicate NoneFails(raw: RawDag, registered: set<string>, results: map<Id, Execution>)
    requires results.Keys == RawIds(raw)
  {
    forall i :: 0 <= i < |raw.tasks| ==>
      var e := results[raw.tasks[i].id];
      raw.tasks[i].executor in registered && e.ExecResult? && e.status != Failed
  }

  /**
   The `run` command, from the decoded record: it starts exactly for an acceptable one, and the loop is then conducted
   on the record's own tasks and dependencies.
   */
  method RunCommand(raw: RawDag, runID: RunID, ids: map<Id, InstanceID>, now: int, registered: set<string>,
                    results: map<Id, Execution>, rounds: nat)
    returns (r: Result<Option<Status>, DagError>, ghost tasks: Tasks, ghost calls: seq<seq<Id>>,
             ghost sch: FIFOScheduler?)
    requires ids.Keys == results.Keys == RawIds(raw) && Unused(map[], ids)
    requires forall i :: 0 <= i < |raw.tasks| ==>
      var e := results[raw.tasks[i].id];
      raw.tasks[i].executor in registered && e.ExecResult? ==> e.status.IsTerminal()
    ensures r.Ok? <==> Acceptable(raw)
    ensures r.Ok? ==>
      && Holds(raw, |raw.tasks|, tasks) && DependencyGraph(tasks) == RawGraph(raw) && tasks.Keys == RawIds(raw)
      && sch != null && sch.Valid() && sch.store.runs.Keys == {runID}
      && Conducted(tasks, OutcomesOf(tasks, registered, results), rounds, r.value, calls, sch.View(runID))
      && Told(tasks, registered, results, r.value, calls, sch.store.taskInstances)
      && (r.value.Some? ==> r.value.value == if NoneFails(raw, registered, results) then Success else Failed)
  {
    hide Acceptable, TaskAsWritten, ConfigAsWritten, Told, Fails, Ends, Conducted, Holds, RawGraph,
         Inverts, Closed, Acyclic, AllAccepted, NoneFails, Rejects;
    tasks, calls, sch := map[], [], null;
    var d := BuildDAG(raw);
    if d.Err? {
      return Err(d.error), tasks, calls, sch;
    }
    tasks := d.value.tasks;
    HoldsGraph(raw, tasks);
    RecordEnds(raw, tasks, registered, results);
    var finished;
    finished, calls, sch := RunLocal(d.value, runID, ids, now, registered, results, rounds);
    RecordFails(raw, tasks, registered, results);
    ToldEnd(tasks, registered, results, finished, calls, sch.store.taskInstances);
    r := Ok(finished);
  }

  lemma RecordEnds(raw: RawDag, tasks: Tasks, registered: set<string>, results: map<Id, Execution>)
    requires Holds(raw, |raw.tasks|, tasks) && results.Keys == RawIds(raw)
    requires forall i :: 0 <= i < |raw.tasks| ==>
      var e := results[raw.tasks[i].id];
      raw.tasks[i].executor in registered && e.ExecResult? ==> e.status.IsTerminal()
    ensures tasks.Keys == RawIds(raw) && forall t :: t in tasks ==> Ends(tasks[t], registered, results[t])
  {
    forall t ensures t in tasks <==> t in RawIds(raw) {
    }
    forall t | t in tasks ensures Ends(tasks[t], registered, results[t]) {
      var i :| 0 <= i < |raw.tasks| && raw.tasks[i].id == t;
    }
  }

  lemma RecordFails(raw: RawDag, tasks: Tasks, registered: set<string>, results: map<Id, Execution>)
    requires Holds(raw, |raw.tasks|, tasks) && results.Keys == RawIds(raw) == tasks.Keys
    ensures NoneFails(raw, registered, results) <==> !exists t :: t in tasks && Fails(tasks[t], registered, results[t])
  {
    hide Fails, TaskMeaning;
    forall i | 0 <= i < |raw.tasks|
      ensures var e := results[raw.tasks[i].id];
              Fails(tasks[raw.tasks[i].id], registered, e) <==>
              !(raw.tasks[i].executor in registered && e.ExecResult? && e.status != Failed)
    {
      TaskFails(raw.tasks[i], DefaultRetry(raw), registered, results[raw.tasks[i].id]);
    }
    if t :| t in tasks && Fails(tasks[t], registered, results[t]) {
      var i :| 0 <= i < |raw.tasks| && raw.tasks[i].id == t;
    }
  }

  lemma TaskFails(raw: RawTask, default: Option<RetryPolicy>, registered: set<string>, e: Execution)
    ensures Fails(TaskMeaning(raw, default), registered, e) <==>
            !(raw.executor in registered && e.ExecResult? && e.status != Failed)
  {
  }

  // ---------------------------------------------------------------- a loop that never ends

  function Sample(id: Id, dependencies: seq<Id>): Task {
    Task(id, id, "shell", None, 0, dependencies, 0)
  }

  /** Two tasks, "b" after "a".  If "a" fails, "b" never runs and the loop polls for ever. */
  lemma PollsForEver(b: Status)
    requires b.IsTerminal()
    ensures var tasks := map["a" := Sample("a", []), "b" := Sample("b", ["a"])];
            var g, out := DependencyGraph(tasks), map["a" := Failed, "b" := b];
            && KeyedById(tasks) && Closed(g) && Acyclic(g) && Levels(g, 2)
            && AllTerminalOutcomes(out) && !InnerTasksSucceed(g, out)
            && forall k: nat :: !AllTerminal(LocalStatuses(tasks, out, k))
  {
    var tasks := map["a" := Sample("a", []), "b" := Sample("b", ["a"])];
    var g, out := DependencyGraph(tasks), map["a" := Failed, "b" := b];
    assert ("a", "b") in g.arcs && g.nodes == {"a", "b"};
    RankedIsAcyclic(g, map["a" := 0, "b" := 1]);
    assert Preds(g, "a") == {} && Preds(g, "b") == {"a"};
    assert Shallow(g, 0) == {} && Shallow(g, 1) == {"a"} && Shallow(g, 2) == {"a", "b"};
    forall k: nat ensures !AllTerminal(LocalStatuses(tasks, out, k)) {
      RoundsSuffice(tasks, out, k, 2);
    }
  }
}
