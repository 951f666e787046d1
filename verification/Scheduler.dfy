/** pkg/scheduler/scheduler.go: the FIFO scheduler over the in-memory store. */
module Scheduler {
  import opened Ordering
  import opened DagTypes
  import opened Dag
  import opened RunMachine
  import opened Store
  import opened Views
  import opened Keys

  datatype TaskResult = TaskResult(instanceID: InstanceID, status: Status, error: string)

  /** A listed instance once the tasks `ids` have been queued. */
  function After(ti: TaskInstance, ids: set<Id>): TaskInstance {
    if ti.status == Pending && ti.taskID in ids then ti.(status := Queued) else ti
  }

  /** The same for one task. */
  function Moved(ti: TaskInstance, t: Id): TaskInstance {
    if ti.status == Pending && ti.taskID == t then ti.(status := Queued) else ti
  }

  ghost predicate Waiting(l: seq<TaskInstance>, t: Id) {
    exists x :: 0 <= x < |l| && l[x].taskID == t && l[x].status == Pending
  }

  /** Every instance belongs to a run. */
  ghost predicate Owned(m: Instances, runs: set<RunID>) {
    forall k :: k in m ==> m[k].runID in runs
  }

  /** Saved definitions are as well-formed as the DAGs they were copied from. */
  ghost predicate RecordsOk(dags: map<string, DagRecord>) {
    forall k :: k in dags ==> KeyedById(dags[k].tasks) && KeysClosed(dags[k].tasks.Keys, dags[k].edges)
  }

  /** The instance IDs are distinct and unused, as UUIDs are. */
  ghost predicate Unused(m: Instances, ids: map<Id, InstanceID>) {
    && (forall t :: t in ids ==> ids[t] !in m)
    && (forall t, u :: t in ids && u in ids && ids[t] == ids[u] ==> t == u)
  }

  class FIFOScheduler {
    const store: MemoryStore
    var dagIndex: map<string, DAG>
    ghost var Repr: set<DAG>  // at least the indexed DAGs

    ghost predicate Valid()
      reads this, store, Repr
    {
      && store.Valid() && OnePerTask(store.taskInstances) && Owned(store.taskInstances, store.runs.Keys)
      && RecordsOk(store.dags) && IndexOk()
    }

    ghost predicate IndexOk()
      reads this, Repr
    {
      forall k :: k in dagIndex ==> dagIndex[k] in Repr && dagIndex[k].Valid()
    }

    /** The tasks `Schedule` will use for a DAG ID: the indexed definition, else the stored one. */
    ghost function Definition(dagID: string): Option<Tasks>
      reads this, store`dags, Repr
    {
      if dagID in dagIndex && dagIndex[dagID] in Repr then Some(dagIndex[dagID].tasks)
      else if dagID in store.dags then Some(store.dags[dagID].tasks)
      else None
    }

    ghost function View(r: RunID): RunState
      requires r in store.runs
      reads store`runs, store`taskInstances
    {
      RunState(StatusesOf(store.taskInstances, r), store.runs[r].status)
    }

    constructor (store: MemoryStore)
      requires store.Valid() && RecordsOk(store.dags) && store.taskInstances == map[]
      ensures Valid() && this.store == store && dagIndex == map[]
    {
      this.store := store;
      dagIndex := map[];
      Repr := {};
    }

    lemma Tables()
      requires Valid()
      ensures store.Valid() && FiledById(store.taskInstances) && OnePerTask(store.taskInstances)
      ensures Owned(store.taskInstances, store.runs.Keys)
    {
    }

    /** A new record for a known instance, whoever writes it, leaves the scheduler in order. */
    twostate lemma Rewritten(ti: TaskInstance)
      requires old(Valid()) && store.Valid() && unchanged(this, old(Repr))
      requires unchanged(store`runs, store`dags, store`idempotencyIdx)
      requires ti.id in old(store.taskInstances) && Identity(ti) == Identity(old(store.taskInstances)[ti.id])
      requires store.taskInstances == old(store.taskInstances)[ti.id := ti]
      ensures Valid() && forall id :: Definition(id) == old(Definition(id))
      ensures old(store.Indexed()) ==> store.Indexed()
    {
      hide OnePerTask, RecordsOk;
      KeepsIdentityOthers(old(store.taskInstances), store.taskInstances, ti.runID, ti.runID);
    }

    // -------------------------------------------------------------- Submit

    static function NewInstance(dagID: string, runID: RunID, t: Id, id: InstanceID, key: string): TaskInstance {
      TaskInstance(id, runID, t, dagID, Pending, 1, "", "", key)
    }

    /** Creates a run with one pending instance per task.  `runID`, `ids` and `now` stand for UUIDs and the clock. */
    method Submit(d: DAG, runID: RunID, ids: map<Id, InstanceID>, now: int) returns (r: Result<RunID, StoreError>)
      requires Valid() && d.Valid() && ids.Keys == d.tasks.Keys
      modifies this`dagIndex, this`Repr, store`runs, store`taskInstances, store`idempotencyIdx
      ensures Valid()
      ensures runID !in old(store.runs) && Unused(old(store.taskInstances), ids) ==> r == Ok(runID)
      ensures dagIndex == if r.Ok? then old(dagIndex)[d.id := d] else old(dagIndex)
      ensures r.Ok? ==> r.value == runID && runID !in old(store.runs)
                        && Submitted(old(store.runs), store.runs, DAGRun(runID, d.id, Running, now),
                                     old(store.taskInstances), store.taskInstances, ids)
      ensures r.Ok? ==> AddsInstances(old(store.taskInstances), store.taskInstances, d.id, runID, ids)
      ensures old(store.Indexed()) && KeysUnique(store.taskInstances) ==> store.Indexed()
      ensures forall id :: Definition(id) == if r.Ok? && id == d.id then Some(d.tasks) else old(Definition(id))
    {
      hide OnePerTask, Owned, RecordsOk, Submitted, AddsInstances, Unused, KeysUnique, InverseOfKeys;
      ghost var runs, m := store.runs, store.taskInstances;
      r := CreateRecords(DAGRun(runID, d.id, Running, now), ids);
      assert IndexOk();
      if r.Ok? {
        SubmittedByFields(runs, store.runs, DAGRun(runID, d.id, Running, now), m, store.taskInstances, ids);
        Index(d.id, d);
      }
    }

    /** Saves a definition and makes it the one that runs of its ID use, those under way included. */
    method RegisterDAG(d: DAG)
      requires Valid() && d.Valid()
      modifies this`dagIndex, this`Repr, store`dags
      ensures Valid()
      ensures store.dags == old(store.dags)[d.id := DagRecord(d.id, d.name, d.tasks, d.edges)]
      ensures dagIndex == old(dagIndex)[d.id := d]
      ensures forall id :: id == d.id || id in old(dagIndex) ==>
        Definition(id) == if id == d.id then Some(d.tasks) else old(Definition(id))
    {
      hide OnePerTask, Owned, InverseOfKeys;
      store.SaveDAG(DagRecord(d.id, d.name, d.tasks, d.edges));
      Index(d.id, d);
    }

    method Index(dagID: string, d: DAG)
      requires IndexOk() && d.Valid()
      modifies this`dagIndex, this`Repr
      ensures IndexOk() && dagIndex == old(dagIndex)[dagID := d] && Repr == old(Repr) + {d}
      ensures forall id :: Definition(id) == if id == dagID then Some(d.tasks) else old(Definition(id))
    {
      dagIndex := dagIndex[dagID := d];
      Repr := Repr + {d};
    }

    /** The part of `Submit` that writes to the store. */
    method CreateRecords(run: DAGRun, ids: map<Id, InstanceID>) returns (r: Result<RunID, StoreError>)
      requires store.Valid() && OnePerTask(store.taskInstances) && Owned(store.taskInstances, store.runs.Keys)
      modifies store`runs, store`taskInstances, store`idempotencyIdx
      ensures store.Valid() && OnePerTask(store.taskInstances) && Owned(store.taskInstances, store.runs.Keys)
      ensures run.id !in old(store.runs) && Unused(old(store.taskInstances), ids) ==> r == Ok(run.id)
      ensures r.Ok? ==> r.value == run.id && run.id !in old(store.runs)
                        && Submitted(old(store.runs), store.runs, run,
                                     old(store.taskInstances), store.taskInstances, ids)
      ensures old(store.Indexed()) && KeysUnique(store.taskInstances) ==> store.Indexed()
    {
      hide Created, Unused, KeysUnique, OnePerTask, StatusesOf;
      ghost var before := store.taskInstances;
      var created := store.CreateRun(run);
      if created.Ok? {
        ghost var done;
        created, done := CreateInstances(run.dagID, run.id, ids);
        CreatedInstances(before, store.taskInstances, run.dagID, run.id, ids, done, store.runs.Keys);
      }
      r := if created.Ok? then Ok(run.id) else Err(created.error);
    }

    /** The loop of `Submit`, over the tasks in any order. */
    method CreateInstances(dagID: string, runID: RunID, ids: map<Id, InstanceID>)
      returns (r: Result<(), StoreError>, ghost done: set<Id>)
      requires store.Valid()
      modifies store`taskInstances, store`idempotencyIdx
      ensures store.Valid() && done <= ids.Keys
      ensures Created(old(store.taskInstances), store.taskInstances, dagID, runID, ids, done)
      ensures r.Ok? ==> done == ids.Keys
      ensures Unused(old(store.taskInstances), ids) ==> r.Ok?
      ensures old(store.Indexed()) && KeysUnique(store.taskInstances) ==> store.Indexed()
    {
      hide Key, Created, Unused, KeysUnique;
      ghost var before := store.taskInstances;
      NoneCreated(before, dagID, runID, ids);
      var todo := ids.Keys;
      done := {};
      while todo != {}
        invariant done + todo == ids.Keys && done !! todo
        invariant store.Valid()
        invariant Created(before, store.taskInstances, dagID, runID, ids, done)
        invariant old(store.Indexed()) && KeysUnique(store.taskInstances) ==> store.Indexed()
        decreases todo
      {
        var t :| t in todo;
        ghost var now := store.taskInstances;
        CreatedNext(before, now, dagID, runID, ids, done, t);
        r := store.CreateTaskInstance(NewInstance(dagID, runID, t, ids[t], Key(dagID, runID, t)));
        if r.Err? {
          return;
        }
        FewerKeys(now, store.taskInstances[ids[t]]);
        todo, done := todo - {t}, done + {t};
      }
      r := Ok(());
    }

    // -------------------------------------------------------------- Schedule

    /** The indexed definition, or the stored one, which is then indexed. */
    method FindDag(dagID: string) returns (r: Result<DAG, StoreError>)
      requires Valid()
      modifies this`dagIndex, this`Repr
      ensures Valid()
      ensures r.Ok? <==> Definition(dagID).Some?
      ensures r.Ok? ==> r.value.Valid() && r.value.tasks == Definition(dagID).value
      ensures dagID in old(dagIndex) ==> r == Ok(old(dagIndex)[dagID]) && dagIndex == old(dagIndex)
      ensures dagID !in old(dagIndex) && dagID in store.dags ==>
        r.Ok? && r.value.tasks == store.dags[dagID].tasks && dagIndex == old(dagIndex)[dagID := r.value]
      ensures dagID !in old(dagIndex) && dagID !in store.dags ==> r == Err(DagNotFound(dagID))
      ensures forall id :: Definition(id) == old(Definition(id))
      ensures old(dagIndex.Keys) <= dagIndex.Keys
    {
      hide OnePerTask, Owned;
      if dagID in dagIndex {
        return Ok(dagIndex[dagID]);
      }
      var rec := store.GetDAG(dagID);
      if rec.Err? {
        return Err(rec.error);
      }
      var d := new DAG(rec.value.id, rec.value.name);
      d.tasks, d.edges := rec.value.tasks, rec.value.edges;
      Index(dagID, d);
      return Ok(d);
    }

    static method StatusMap(instances: seq<TaskInstance>) returns (m: Statuses)
      requires forall x, y :: 0 <= x < y < |instances| ==> instances[x].taskID != instances[y].taskID
      ensures Shows(instances, m)
    {
      m := map[];
      var i := 0;
      while i < |instances|
        invariant 0 <= i <= |instances|
        invariant forall x :: 0 <= x < i ==> instances[x].taskID in m && m[instances[x].taskID] == instances[x].status
        invariant forall t :: t in m ==> exists x :: 0 <= x < i && instances[x].taskID == t
      {
        m := m[instances[i].taskID := instances[i].status];
        i := i + 1;
      }
    }

    /** The search for the instance of one ready task. */
    method QueueTask(r: RunID, t: Id, instances: seq<TaskInstance>) returns (l: seq<TaskInstance>,
                     ready: seq<TaskInstance>)
      requires store.Valid() && OnePerTask(store.taskInstances) && Mirrors(store.taskInstances, r, instances)
      modifies store`taskInstances
      ensures store.Valid() && OnePerTask(store.taskInstances) && Mirrors(store.taskInstances, r, l)
      ensures OnlyQueues(old(store.taskInstances), store.taskInstances, r)
      ensures |l| == |instances| && forall x :: 0 <= x < |l| ==> l[x] == Moved(instances[x], t)
      ensures ready == [] ==> !Waiting(instances, t)
      ensures ready != [] ==> |ready| == 1 && exists x :: 0 <= x < |l| && Queues(instances[x], ready[0], l[x], t)
    {
      hide OnePerTask, OnlyQueues;
      NothingQueued(store.taskInstances, r);
      l, ready := instances, [];
      var i := 0;
      while i < |l|
        invariant 0 <= i <= |l| == |instances|
        invariant store.Valid() && OnePerTask(store.taskInstances) && Mirrors(store.taskInstances, r, l)
        invariant OnlyQueues(old(store.taskInstances), store.taskInstances, r)
        invariant MovedBefore(instances, l, t, i)
        invariant ready == [] ==>
          forall x :: 0 <= x < i ==> !(instances[x].taskID == t && instances[x].status == Pending)
        invariant ready != [] ==> |ready| == 1 && exists x :: 0 <= x < i && Queues(instances[x], ready[0], l[x], t)
      {
        ghost var before, earlier := store.taskInstances, l;
        if l[i].taskID == t && l[i].status == Pending {
          assert instances[i].taskID == t;
          l := QueueInstance(r, l, i);
          OnlyQueuesJoins(old(store.taskInstances), before, store.taskInstances, r);
          ready := ready + [l[i]];
          assert Queues(instances[i], ready[0], l[i], t);
        }
        MovedNext(instances, earlier, l, t, i);
        i := i + 1;
      }
    }

    /** Marks listed instance `i` as queued, in the list and in the store. */
    method QueueInstance(r: RunID, instances: seq<TaskInstance>, i: nat) returns (l: seq<TaskInstance>)
      requires store.Valid() && OnePerTask(store.taskInstances) && Mirrors(store.taskInstances, r, instances)
      requires i < |instances| && instances[i].status == Pending
      modifies store`taskInstances
      ensures store.Valid() && OnePerTask(store.taskInstances) && Mirrors(store.taskInstances, r, l)
      ensures OnlyQueues(old(store.taskInstances), store.taskInstances, r)
      ensures l == instances[i := instances[i].(status := Queued)]
    {
      var ti := instances[i].(status := Queued);
      MirrorUpdate(store.taskInstances, r, instances, i, Queued);
      KeepsIdentityOthers(store.taskInstances, store.taskInstances[ti.id := ti], r, r);
      var _ := store.UpdateTaskInstance(ti);
      l := instances[i := ti];
    }

    /** The nested loops of `Schedule` that queue the ready tasks' instances. */
    method QueueReady(r: RunID, readyTasks: seq<Task>, instances: seq<TaskInstance>)
      returns (l: seq<TaskInstance>, ready: seq<TaskInstance>)
      requires store.Valid() && OnePerTask(store.taskInstances) && Mirrors(store.taskInstances, r, instances)
      requires Distinct(Ids(readyTasks))
      modifies store`taskInstances
      ensures store.Valid() && OnePerTask(store.taskInstances) && Mirrors(store.taskInstances, r, l)
      ensures OnlyQueues(old(store.taskInstances), store.taskInstances, r)
      ensures AllAfter(instances, l, IdSet(readyTasks))
      ensures AllQueued(ready, l) && TaskIdsOf(ready) == Picked(instances, readyTasks)
    {
      l, ready := instances, [];
      var n := 0;
      while n < |readyTasks|
        invariant 0 <= n <= |readyTasks|
        invariant store.Valid() && OnePerTask(store.taskInstances) && Mirrors(store.taskInstances, r, l)
        invariant OnlyQueues(old(store.taskInstances), store.taskInstances, r)
        invariant AllAfter(instances, l, IdSet(readyTasks[..n]))
        invariant AllQueued(ready, l) && TaskIdsOf(ready) == Picked(instances, readyTasks[..n])
      {
        ghost var before, earlier := store.taskInstances, l;
        var more;
        l, more := QueueTask(r, readyTasks[n].id, l);
        OnlyQueuesJoins(old(store.taskInstances), before, store.taskInstances, r);
        PickNext(instances, earlier, l, readyTasks, n, ready, more);
        ready := ready + more;
        n := n + 1;
      }
      assert readyTasks[..n] == readyTasks;
    }

    /** Unless it has ended or is queued, an instance is read again before it is checked. */
    method Reread(ti: TaskInstance) returns (r: TaskInstance)
      ensures r == if !ti.status.IsTerminal() && ti.status != Queued && ti.id in store.taskInstances
                   then store.taskInstances[ti.id] else ti
    {
      r := ti;
      if !ti.status.IsTerminal() && ti.status != Queued {
        var current := store.GetTaskInstance(ti.id);
        if current.Ok? {
          r := current.value;
        }
      }
    }

    /** The completion check of `Schedule`; `st` are the statuses that `instances` shows. */
    method CompleteRun(run: DAGRun, instances: seq<TaskInstance>, ghost st: Statuses)
      requires store.Valid() && run.id in store.runs && store.runs[run.id] == run && run.status == Running
      requires Mirrors(store.taskInstances, run.id, instances) && Shows(instances, st)
      modifies store`runs
      ensures store.Valid()
      ensures store.runs == old(store.runs)[run.id := run.(status := RunStatus(st))]
    {
      hide AllTerminal, AnyFailed, Shows;
      var allComplete, anyFailed := true, false;
      var i := 0;
      while i < |instances|
        modifies {}
        invariant 0 <= i <= |instances|
        invariant allComplete <==> forall x :: 0 <= x < i ==> instances[x].status.IsTerminal()
        invariant anyFailed <==> exists x :: 0 <= x < i && instances[x].status == Failed
      {
        var ti := Reread(instances[i]);
        if !ti.status.IsTerminal() {
          allComplete := false;
        }
        if ti.status == Failed {
          anyFailed := true;
        }
        i := i + 1;
      }
      CheckedStatus(instances, st);
      if allComplete {
        var _ := store.UpdateRun(run.(status := if anyFailed then Failed else Success));
      }
    }

    /** One round of the loop of `Schedule`, for one running run. */
    method ScheduleRun(run: DAGRun) returns (ready: seq<TaskInstance>, ghost def: Option<Tasks>)
      requires Valid() && run.id in store.runs && store.runs[run.id] == run && run.status == Running
      modifies this`dagIndex, this`Repr, store`taskInstances, store`runs
      ensures Valid()
      ensures forall id :: Definition(id) == old(Definition(id))
      ensures def == old(Definition(run.dagID))
      ensures RunScheduled(def, run, old(store.runs), store.runs, old(store.taskInstances), store.taskInstances, ready)
      ensures old(dagIndex.Keys) <= dagIndex.Keys
    {
      hide StatusesOf, Mirrors, RunScheduled, Shows, OnePerTask, Owned, RecordsOk, ListsRun, IndexOk;
      def := Definition(run.dagID);
      var instances := store.ListTaskInstances(run.id);
      ListingMirrors(store.taskInstances, run.id, instances);
      var found := FindDag(run.dagID);
      ready := [];
      if found.Ok? {
        ready := ScheduleWith(run, instances, found.value);
      } else {
        NotScheduled(run, store.runs, store.taskInstances);
      }
    }

    /** That round once the definition is at hand. */
    method ScheduleWith(run: DAGRun, instances: seq<TaskInstance>, d: DAG) returns (ready: seq<TaskInstance>)
      requires store.Valid() && OnePerTask(store.taskInstances) && Owned(store.taskInstances, store.runs.Keys)
      requires run.id in store.runs && store.runs[run.id] == run && run.status == Running
      requires Mirrors(store.taskInstances, run.id, instances) && d.Valid()
      modifies store`taskInstances, store`runs
      ensures store.Valid() && OnePerTask(store.taskInstances) && Owned(store.taskInstances, store.runs.Keys)
      ensures RunScheduled(Some(d.tasks), run, old(store.runs), store.runs,
                           old(store.taskInstances), store.taskInstances, ready)
    {
      hide OnePerTask, Owned, RunScheduled, ReadyListing, Shows, StatusesOf;
      var statusMap := StatusMap(instances);
      var readyTasks := d.ReadyTasks(statusMap);
      ready := ScheduleInstances(run, instances, statusMap, readyTasks, d.tasks);
    }

    /** The part of that round that writes to the store. */
    method ScheduleInstances(run: DAGRun, instances: seq<TaskInstance>, st: Statuses, readyTasks: seq<Task>,
                             ghost tasks: Tasks) returns (ready: seq<TaskInstance>)
      requires store.Valid() && OnePerTask(store.taskInstances) && Owned(store.taskInstances, store.runs.Keys)
      requires run.id in store.runs && store.runs[run.id] == run && run.status == Running
      requires Mirrors(store.taskInstances, run.id, instances) && Shows(instances, st)
      requires KeyedById(tasks) && ReadyListing(tasks, st, readyTasks)
      modifies store`taskInstances, store`runs
      ensures store.Valid() && OnePerTask(store.taskInstances) && Owned(store.taskInstances, store.runs.Keys)
      ensures RunScheduled(Some(tasks), run, old(store.runs), store.runs,
                           old(store.taskInstances), store.taskInstances, ready)
    {
      ghost var before := store.taskInstances;
      ReadyListingDistinct(tasks, st, readyTasks);
      var l;
      l, ready := QueueReady(run.id, readyTasks, instances);
      AfterShowsQueue(tasks, st, instances, l, readyTasks);
      CompleteRun(run, l, Queue(tasks, st));
      RoundDone(tasks, run, old(store.runs), store.runs, before, store.taskInstances,
                instances, l, st, readyTasks, ready);
    }

    /** One pass over the running runs, newest first; each gets one step of its machine. */
    method Schedule() returns (ready: seq<TaskInstance>)
      requires Valid()
      modifies this`dagIndex, this`Repr, store`taskInstances, store`runs
      ensures Valid() && forall id :: Definition(id) == old(Definition(id))
      ensures store.runs.Keys == old(store.runs.Keys)
      ensures Requeued(old(store.runs), old(store.taskInstances), store.taskInstances)
      ensures AllStored(store.taskInstances, ready) && Distinct(ready) && NewestFirst(old(store.runs), ready)
      ensures old(store.Indexed()) ==> store.Indexed()
      ensures forall r :: r in old(store.runs) ==>
        RunStep(old(Definition(store.runs[r].dagID)), old(store.runs), store.runs,
                old(store.taskInstances), store.taskInstances, ready, r)
      ensures forall r :: r in old(store.runs) ==>
        CallDoes(old(Definition(store.runs[r].dagID)), old(store.runs), store.runs,
                 old(store.taskInstances), store.taskInstances, ready, r)
      ensures old(dagIndex.Keys) <= dagIndex.Keys
    {
      hide CallDoes, StatusesOf, OnePerTask, Distinct, Sorted, RunStep, RunScheduled, Passed, Requeued, AllStored,
           InverseOfKeys, ListsRunning, InListOrder, NewestFirst, IndexOk;
      ghost var runs0, m0 := store.runs, store.taskInstances;
      ghost var defs := map r | r in store.runs :: Definition(store.runs[r].dagID);
      ghost var all;
      var runs;
      runs, all := store.ListRuns(RunFilter("", Some(Running), 0, 0));
      RunningListed(runs0, all);
      ready := [];
      NonePassed(defs, runs0, m0);
      NoneListed(runs0, runs);
      var i := 0;
      while i < |runs|
        invariant 0 <= i <= |runs|
        invariant old(dagIndex.Keys) <= dagIndex.Keys
        invariant Valid() && forall id :: Definition(id) == old(Definition(id))
        invariant Passed(defs, runs0, store.runs, m0, store.taskInstances, ready, RunIds(runs[..i]))
        invariant InListOrder(runs0, runs, i, ready)
      {
        ghost var runsI, mI := store.runs, store.taskInstances;
        StillListed(defs, runs0, runsI, m0, mI, ready, runs, i);
        var more;
        ghost var def;
        more, def := ScheduleRun(runs[i]);
        NextPassed(defs, runs0, runsI, store.runs, m0, mI, store.taskInstances, ready, more, runs, i);
        NextListed(runs0, runs, i, ready, more);
        ready := ready + more;
        i := i + 1;
      }
      assert runs[..i] == runs;
      OrderedIsNewest(runs0, runs, i, ready);
      AllPassed(defs, runs0, store.runs, m0, store.taskInstances, ready, runs, store.idempotencyIdx);
      CallByInstances(defs, runs0, store.runs, m0, store.taskInstances, ready);
    }

    /** Records what a task came to, whatever its status was before. */
    method ReportCompletion(taskID: Id, result: TaskResult) returns (r: Result<(), StoreError>)
      requires Valid()
      modifies store`taskInstances
      ensures Valid() && forall id :: Definition(id) == old(Definition(id))
      ensures r == if result.instanceID in old(store.taskInstances) then Ok(())
                   else Err(InstanceNotFound(result.instanceID))
      ensures store.taskInstances ==
              if r.Ok? then
                old(store.taskInstances)[result.instanceID :=
                  old(store.taskInstances)[result.instanceID].(status := result.status, error := result.error)]
              else old(store.taskInstances)
      ensures old(store.Indexed()) ==> store.Indexed()
    {
      hide StatusesOf, OnePerTask, RecordsOk, InverseOfKeys;
      var found := store.GetTaskInstance(result.instanceID);
      if found.Err? {
        return Err(found.error);
      }
      var ti := found.value.(status := result.status, error := result.error);
      InstanceUpdate(store.taskInstances, ti);
      KeepsIdentityOthers(store.taskInstances, store.taskInstances[ti.id := ti], ti.runID, ti.runID);
      r := store.UpdateTaskInstance(ti);
      assert IndexOk() && store.dags == old(store.dags);
    }
  }

  /** The first `i` instances have been checked for task `t`. */
  ghost predicate MovedBefore(instances: seq<TaskInstance>, l: seq<TaskInstance>, t: Id, i: nat) {
    && i <= |l| == |instances|
    && (forall x :: 0 <= x < i ==> l[x] == Moved(instances[x], t))
    && (forall x :: i <= x < |l| ==> l[x] == instances[x])
  }

  lemma MovedNext(instances: seq<TaskInstance>, l: seq<TaskInstance>, l': seq<TaskInstance>, t: Id, i: nat)
    requires MovedBefore(instances, l, t, i) && i < |l|
    requires l' == l[i := Moved(l[i], t)]
    ensures MovedBefore(instances, l', t, i + 1)
  {
  }

  /** `was`, waiting for task `t`, is now queued, and `ready` and the listed `now` say so. */
  predicate Queues(was: TaskInstance, ready: TaskInstance, now: TaskInstance, t: Id) {
    was.taskID == t && was.status == Pending && ready == now == was.(status := Queued)
  }

  /** `ti` is a new instance of task `t`. */
  ghost predicate IsNew(ti: TaskInstance, dagID: string, runID: RunID, t: Id) {
    && ti.runID == runID && ti.taskID == t && ti.dagID == dagID && ti.status == Pending && ti.attempt == 1
    && ti.idempotencyKey == Key(dagID, runID, t) && ti.workerID == "" && ti.error == ""
  }

  /** `now` is `before` plus a new instance for each task of `done`. */
  ghost predicate Created(before: Instances, now: Instances, dagID: string, runID: RunID, ids: map<Id, InstanceID>,
                          done: set<Id>) {
    && done <= ids.Keys
    && (forall k :: k in before ==> k in now && now[k] == before[k])
    && (forall t :: t in done ==> ids[t] in now && ids[t] !in before && IsNew(now[ids[t]], dagID, runID, t))
    && (forall k :: k in now && k !in before ==> now[k].taskID in done && ids[now[k].taskID] == k)
  }

  lemma NoneCreated(before: Instances, dagID: string, runID: RunID, ids: map<Id, InstanceID>)
    ensures Created(before, before, dagID, runID, ids, {})
  {
  }

  lemma CreatedNext(before: Instances, now: Instances, dagID: string, runID: RunID, ids: map<Id, InstanceID>,
                    done: set<Id>, t: Id)
    requires Created(before, now, dagID, runID, ids, done) && t in ids && t !in done
    ensures Unused(before, ids) ==> ids[t] !in now
    ensures ids[t] !in now ==>
      Created(before, now[ids[t] := FIFOScheduler.NewInstance(dagID, runID, t, ids[t], Key(dagID, runID, t))],
              dagID, runID, ids, done + {t})
  {
  }

  lemma FewerKeys(m: Instances, ti: TaskInstance)
    requires ti.id !in m
    ensures KeysUnique(m[ti.id := ti]) ==> KeysUnique(m)
  {
    assert forall k :: k in m ==> m[ti.id := ti][k] == m[k];
  }

  /** A run has been recorded with one new, pending instance per task. */
  ghost predicate Submitted(runs: map<RunID, DAGRun>, runs': map<RunID, DAGRun>, run: DAGRun,
                            before: Instances, now: Instances, ids: map<Id, InstanceID>)
  {
    && runs' == runs[run.id := run]
    && Created(before, now, run.dagID, run.id, ids, ids.Keys)
  }

  /** `m'` is `m` and one new record per task, given in full. */
  ghost predicate AddsInstances(m: Instances, m': Instances, dagID: string, runID: RunID, ids: map<Id, InstanceID>) {
    && m'.Keys == m.Keys + ids.Values && (forall k :: k in m ==> m'[k] == m[k])
    && forall t :: t in ids ==>
         && ids[t] in m'
         && m'[ids[t]] == TaskInstance(ids[t], runID, t, dagID, Pending, 1, "", "", dagID + "-" + runID + "-" + t)
  }

  lemma SubmittedByFields(runs: map<RunID, DAGRun>, runs': map<RunID, DAGRun>, run: DAGRun, m: Instances,
                          m': Instances, ids: map<Id, InstanceID>)
    requires Submitted(runs, runs', run, m, m', ids) && FiledById(m')
    ensures AddsInstances(m, m', run.dagID, run.id, ids)
  {
  }

  /** The submitted run starts in the machine's initial state; the other runs do not notice. */
  lemma SubmittedView(runs: map<RunID, DAGRun>, runs': map<RunID, DAGRun>, run: DAGRun,
                      before: Instances, now: Instances, ids: map<Id, InstanceID>, tasks: Tasks, other: RunID)
    requires Submitted(runs, runs', run, before, now, ids) && run.id !in runs && run.status == Running
    requires OnePerTask(before) && Owned(before, runs.Keys) && ids.Keys == tasks.Keys
    ensures RunState(StatusesOf(now, run.id), runs'[run.id].status) == Initial(tasks)
    ensures other != run.id ==> StatusesOf(now, other) == StatusesOf(before, other)
    ensures other in runs && other != run.id ==> runs'[other] == runs[other]
  {
    hide Key;
    assert runs'.Keys - {run.id} == runs.Keys;
    CreatedInstances(before, now, run.dagID, run.id, ids, ids.Keys, runs'.Keys);
    if other != run.id {
      CreatedElsewhere(before, now, run.dagID, run.id, ids, ids.Keys, other);
    }
  }

  lemma CreatedInstances(before: Instances, now: Instances, dagID: string, runID: RunID, ids: map<Id, InstanceID>,
                         done: set<Id>, runs: set<RunID>)
    requires Created(before, now, dagID, runID, ids, done) && OnePerTask(before)
    requires runID in runs && Owned(before, runs - {runID})
    ensures OnePerTask(now) && Owned(now, runs)
    ensures StatusesOf(now, runID) == map t | t in done :: Pending
  {
    hide Key;
    assert TaskIDs(now, runID) == done by {
      forall t | t in done ensures t in TaskIDs(now, runID) {
        assert now[ids[t]].taskID == t;
      }
    }
  }

  /** The other runs do not notice. */
  lemma CreatedElsewhere(before: Instances, now: Instances, dagID: string, runID: RunID, ids: map<Id, InstanceID>,
                         done: set<Id>, other: RunID)
    requires Created(before, now, dagID, runID, ids, done) && OnePerTask(before) && other != runID
    ensures StatusesOf(now, other) == StatusesOf(before, other)
  {
    hide Key;
    assert TaskIDs(now, other) == TaskIDs(before, other);
    forall t | t in TaskIDs(now, other) ensures StatusesOf(now, other)[t] == StatusesOf(before, other)[t] {
      var k := InstanceOf(now, other, t);
      assert k in before;
      StatusOfInstance(before, other, k);
    }
  }

  // ---------------------------------------------------------------- what one round does

  ghost function IdSet(ts: seq<Task>): set<Id> {
    set x | 0 <= x < |ts| :: ts[x].id
  }

  ghost predicate AllAfter(instances: seq<TaskInstance>, l: seq<TaskInstance>, ids: set<Id>) {
    |l| == |instances| && forall x :: 0 <= x < |l| ==> l[x] == After(instances[x], ids)
  }

  ghost predicate AllQueued(ready: seq<TaskInstance>, l: seq<TaskInstance>) {
    forall ti :: ti in ready ==> ti in l && ti.status == Queued
  }

  ghost function TaskIdsOf(l: seq<TaskInstance>): (r: seq<Id>)
    ensures |r| == |l|
  {
    seq(|l|, x requires 0 <= x < |l| => l[x].taskID)
  }

  /** The ready tasks that have a waiting instance. */
  ghost function Picked(instances: seq<TaskInstance>, readyTasks: seq<Task>): seq<Id> {
    if readyTasks == [] then []
    else
      var last := readyTasks[|readyTasks| - 1];
      Picked(instances, readyTasks[..|readyTasks| - 1]) + if Waiting(instances, last.id) then [last.id] else []
  }

  /** What one round of `Schedule` makes of a running run with tasks `def`: the machine's step, or nothing. */
  ghost predicate RunScheduled(def: Option<Tasks>, run: DAGRun, runs: map<RunID, DAGRun>, runs': map<RunID, DAGRun>,
                               m: Instances, m': Instances, ready: seq<TaskInstance>)
  {
    if def.None? then runs' == runs && m' == m && ready == []
    else
      var st := StatusesOf(m, run.id);
      var next := Scheduled(def.value, RunState(st, Running));
      && OnlyQueues(m, m', run.id)
      && StatusesOf(m', run.id) == next.statuses && runs' == runs[run.id := run.(status := next.run)]
      && DispatchList(def.value, st, TaskIdsOf(ready)) && Handed(m', run.id, ready)
  }

  lemma NotScheduled(run: DAGRun, runs: map<RunID, DAGRun>, m: Instances)
    ensures RunScheduled(None, run, runs, runs, m, m, [])
  {
  }

  /** The returned instances are the stored ones, of run `r`, and queued. */
  ghost predicate Handed(m: Instances, r: RunID, ready: seq<TaskInstance>) {
    forall ti :: ti in ready ==> ti.id in m && m[ti.id] == ti && ti.runID == r && ti.status == Queued
  }

  lemma ReadyListingDistinct(tasks: Tasks, st: Statuses, ready: seq<Task>)
    requires ReadyListing(tasks, st, ready)
    ensures Distinct(Ids(ready)) && FromTasks(tasks, ready)
  {
    forall i, j | 0 <= i < j < |ready| ensures Ids(ready)[i] != Ids(ready)[j] {
      assert ready[i] in ready && ready[j] in ready;
      IdLessAsymmetric(ready[i].id, ready[j].id);
      assert ReadyBefore(ready[i], ready[j]);
    }
  }

  lemma CheckedStatus(instances: seq<TaskInstance>, st: Statuses)
    requires Shows(instances, st)
    ensures (forall x :: 0 <= x < |instances| ==> instances[x].status.IsTerminal()) <==> AllTerminal(st)
    ensures (exists x :: 0 <= x < |instances| && instances[x].status == Failed) <==> AnyFailed(st)
  {
  }

  /** Queueing the instance of one more ready task. */
  lemma PickNext(instances: seq<TaskInstance>, l: seq<TaskInstance>, l': seq<TaskInstance>, ts: seq<Task>, n: nat,
                 ready: seq<TaskInstance>, more: seq<TaskInstance>)
    requires n < |ts| && Distinct(Ids(ts)) && |l'| == |l|
    requires AllAfter(instances, l, IdSet(ts[..n]))
    requires forall x :: 0 <= x < |l| ==> l'[x] == Moved(l[x], ts[n].id)
    requires AllQueued(ready, l) && TaskIdsOf(ready) == Picked(instances, ts[..n])
    requires more == [] ==> !Waiting(l, ts[n].id)
    requires more != [] ==> |more| == 1 && exists x :: 0 <= x < |l| && Queues(l[x], more[0], l'[x], ts[n].id)
    ensures AllAfter(instances, l', IdSet(ts[..n + 1]))
    ensures AllQueued(ready + more, l') && TaskIdsOf(ready + more) == Picked(instances, ts[..n + 1])
  {
    var t, ids := ts[n].id, IdSet(ts[..n]);
    NextId(ts, n);
    assert ts[..n + 1][..n] == ts[..n];
    forall x | 0 <= x < |l'| ensures l'[x] == After(instances[x], ids + {t}) {
      assert l[x] == After(instances[x], ids);
    }
    SameWaiting(instances, l, ids, t);
    forall ti | ti in ready ensures ti in l' {
      var x :| 0 <= x < |l| && l[x] == ti;
      assert l'[x] == ti;
    }
    assert more != [] ==> more[0] in l' && more[0].taskID == t && Waiting(l, t);
  }

  lemma NextId(ts: seq<Task>, n: nat)
    requires n < |ts| && Distinct(Ids(ts))
    ensures ts[n].id !in IdSet(ts[..n]) && IdSet(ts[..n + 1]) == IdSet(ts[..n]) + {ts[n].id}
  {
  }

  lemma SameWaiting(instances: seq<TaskInstance>, l: seq<TaskInstance>, ids: set<Id>, t: Id)
    requires AllAfter(instances, l, ids) && t !in ids
    ensures Waiting(l, t) <==> Waiting(instances, t)
  {
  }

  lemma {:induction false} PickedInOrder(tasks: Tasks, instances: seq<TaskInstance>, ts: seq<Task>)
    requires StrictlySorted(ReadyBefore, ts) && FromTasks(tasks, ts)
    ensures forall t :: t in Picked(instances, ts) <==> t in Ids(ts) && Waiting(instances, t)
    ensures InReadyOrder(tasks, Picked(instances, ts))
  {
    if ts == [] {
    } else {
      var rest, last := ts[..|ts| - 1], ts[|ts| - 1];
      PickedInOrder(tasks, instances, rest);
      var l := Picked(instances, rest);
      assert Ids(ts) == Ids(rest) + [last.id];
      assert FromTasks(tasks, rest);
      forall i | 0 <= i < |l| ensures l[i] in tasks && ReadyBefore(tasks[l[i]], last) {
        assert l[i] in l;
        var a :| 0 <= a < |rest| && rest[a].id == l[i];
        assert rest[a] == ts[a] && ts[a] in ts;
      }
      assert last in ts;
      OrderGrows(tasks, l, last);
      assert l + [] == l;
    }
  }

  lemma OrderGrows(tasks: Tasks, l: seq<Id>, last: Task)
    requires InReadyOrder(tasks, l) && last.id in tasks && tasks[last.id] == last
    requires forall i :: 0 <= i < |l| ==> l[i] in tasks && ReadyBefore(tasks[l[i]], last)
    ensures InReadyOrder(tasks, l + [last.id])
  {
  }

  lemma ReadyAreDispatchable(tasks: Tasks, st: Statuses, readyTasks: seq<Task>, t: Id)
    requires KeyedById(tasks) && ReadyListing(tasks, st, readyTasks) && t in st
    ensures t in IdSet(readyTasks) <==> t in Ids(readyTasks)
    ensures Dispatchable(tasks, st, t) <==> t in Ids(readyTasks)
  {
  }

  lemma PickedIsDispatchList(tasks: Tasks, st: Statuses, instances: seq<TaskInstance>, readyTasks: seq<Task>)
    requires KeyedById(tasks) && ReadyListing(tasks, st, readyTasks) && Shows(instances, st)
    ensures DispatchList(tasks, st, Picked(instances, readyTasks))
  {
    ReadyListingDistinct(tasks, st, readyTasks);
    PickedInOrder(tasks, instances, readyTasks);
    forall t ensures t in Picked(instances, readyTasks) <==> Dispatchable(tasks, st, t) {
      assert Waiting(instances, t) <==> t in st && st[t] == Pending;
      if t in st {
        ReadyAreDispatchable(tasks, st, readyTasks, t);
      }
    }
  }

  lemma AfterShowsQueue(tasks: Tasks, st: Statuses, instances: seq<TaskInstance>, l: seq<TaskInstance>,
                        readyTasks: seq<Task>)
    requires KeyedById(tasks) && ReadyListing(tasks, st, readyTasks) && Shows(instances, st)
    requires AllAfter(instances, l, IdSet(readyTasks))
    ensures Shows(l, Queue(tasks, st))
  {
    hide ReadyListing, Dispatchable, Queue;
    forall x | 0 <= x < |l| ensures l[x].taskID in st && Queue(tasks, st)[l[x].taskID] == l[x].status {
      var t := instances[x].taskID;
      ReadyAreDispatchable(tasks, st, readyTasks, t);
      QueueAt(tasks, st, t);
      assert l[x] == After(instances[x], IdSet(readyTasks));
    }
    forall t | t in st ensures exists x :: 0 <= x < |l| && l[x].taskID == t {
      var x :| 0 <= x < |instances| && instances[x].taskID == t;
      assert l[x].taskID == t;
    }
  }

  lemma QueueAt(tasks: Tasks, st: Statuses, t: Id)
    requires t in st
    ensures Queue(tasks, st)[t] == if Dispatchable(tasks, st, t) then Queued else st[t]
    ensures Dispatchable(tasks, st, t) ==> st[t] == Pending
  {
  }

  /** Putting a round together. */
  lemma RoundDone(tasks: Tasks, run: DAGRun, runs: map<RunID, DAGRun>, runs': map<RunID, DAGRun>, m: Instances,
                  m': Instances,
                  instances: seq<TaskInstance>, l: seq<TaskInstance>, st: Statuses, readyTasks: seq<Task>,
                  ready: seq<TaskInstance>)
    requires OnePerTask(m) && OnePerTask(m') && Mirrors(m, run.id, instances) && Mirrors(m', run.id, l)
    requires Shows(instances, st) && KeyedById(tasks) && ReadyListing(tasks, st, readyTasks)
    requires OnlyQueues(m, m', run.id) && AllAfter(instances, l, IdSet(readyTasks))
    requires AllQueued(ready, l) && TaskIdsOf(ready) == Picked(instances, readyTasks)
    requires runs' == runs[run.id := run.(status := RunStatus(Queue(tasks, st)))]
    ensures RunScheduled(Some(tasks), run, runs, runs', m, m', ready)
  {
    hide StatusesOf, DispatchList, Handed, Mirrors, Shows, AllAfter, AllQueued, ReadyListing, Queue, OnePerTask;
    MirrorShows(m, run.id, instances);
    ShowsUnique(instances, st, StatusesOf(m, run.id));
    AfterShowsQueue(tasks, st, instances, l, readyTasks);
    MirrorShows(m', run.id, l);
    ShowsUnique(l, Queue(tasks, st), StatusesOf(m', run.id));
    PickedIsDispatchList(tasks, st, instances, readyTasks);
    QueuedAreHanded(m', run.id, l, ready);
  }

  lemma QueuedAreHanded(m: Instances, r: RunID, l: seq<TaskInstance>, ready: seq<TaskInstance>)
    requires Mirrors(m, r, l) && AllQueued(ready, l)
    ensures Handed(m, r, ready)
  {
  }

  // ---------------------------------------------------------------- a pass over the runs

  /** Run `r` has made the machine's `Schedule` step; it stood still if it was finished or its DAG is unknown. */
  ghost predicate RunStep(def: Option<Tasks>, runs: map<RunID, DAGRun>, runs': map<RunID, DAGRun>,
                          m: Instances, m': Instances, ready: seq<TaskInstance>, r: RunID)
    requires r in runs
  {
    && r in runs' && runs'[r] == runs[r].(status := runs'[r].status)
    && var s := RunState(StatusesOf(m, r), runs[r].status);
       var s' := RunState(StatusesOf(m', r), runs'[r].status);
       match def
       case None => s' == s && Project(ready, r) == []
       case Some(tasks) => Step(tasks, s, Action.Schedule(Project(ready, r)), s')
  }

  ghost predicate RunSame(runs: map<RunID, DAGRun>, runs': map<RunID, DAGRun>, m: Instances, m': Instances,
                          ready: seq<TaskInstance>, r: RunID)
    requires r in runs
  {
    r in runs' && runs'[r] == runs[r] && StatusesOf(m', r) == StatusesOf(m, r) && Project(ready, r) == []
  }

  ghost function RunIds(runs: seq<DAGRun>): set<RunID> {
    set x | 0 <= x < |runs| :: runs[x].id
  }

  /** The runs of `done` have made their step, the others are as they were. */
  ghost predicate Progress(defs: map<RunID, Option<Tasks>>, runs: map<RunID, DAGRun>, runs': map<RunID, DAGRun>,
                           m: Instances, m': Instances, ready: seq<TaskInstance>, done: set<RunID>)
  {
    && defs.Keys == runs.Keys == runs'.Keys
    && (forall r :: r in runs && r in done ==> RunStep(defs[r], runs, runs', m, m', ready, r))
    && (forall r :: r in runs && r !in done ==> RunSame(runs, runs', m, m', ready, r))
  }

  /** Every returned instance is the stored one, and queued. */
  ghost predicate AllStored(m: Instances, ready: seq<TaskInstance>) {
    forall ti :: ti in ready ==> ti.id in m && m[ti.id] == ti && ti.status == Queued
  }

  /** `m'` is `m` but for waiting instances of running runs that have been queued. */
  ghost predicate Requeued(runs: map<RunID, DAGRun>, m: Instances, m': Instances) {
    && m'.Keys == m.Keys
    && forall k :: k in m ==> m'[k] == m[k] || (RunsOn(runs, m[k].runID) && IsQueued(m[k], m'[k]))
  }

  predicate RunsOn(runs: map<RunID, DAGRun>, r: RunID) {
    r in runs && runs[r].status == Running
  }

  lemma RequeuedNext(runs: map<RunID, DAGRun>, m0: Instances, m: Instances, m': Instances, r: RunID)
    requires Requeued(runs, m0, m) && OnlyQueues(m, m', r) && RunsOn(runs, r)
    ensures Requeued(runs, m0, m')
  {
  }

  /** Queueing leaves the keys alone. */
  lemma RequeuedKeys(runs: map<RunID, DAGRun>, m: Instances, m': Instances, idx: map<string, InstanceID>)
    requires Requeued(runs, m, m')
    ensures InverseOfKeys(idx, m) ==> InverseOfKeys(idx, m')
    ensures Keyed(m) ==> Keyed(m')
    ensures KeysUnique(m') ==> KeysUnique(m)
  {
  }

  lemma NoneYet(defs: map<RunID, Option<Tasks>>, runs: map<RunID, DAGRun>, m: Instances)
    requires defs.Keys == runs.Keys
    ensures Progress(defs, runs, runs, m, m, [], RunIds([]))
  {
  }

  lemma ListedOnce(l: seq<DAGRun>, i: nat, runs: map<RunID, DAGRun>)
    requires i < |l| && Distinct(l) && forall run :: run in l ==> run.id in runs && runs[run.id] == run
    ensures l[i].id !in RunIds(l[..i]) && RunIds(l[..i + 1]) == RunIds(l[..i]) + {l[i].id}
    ensures l[i].id in runs && runs[l[i].id] == l[i]
  {
  }

  /** The state of a pass after the runs of `done`. */
  ghost predicate Passed(defs: map<RunID, Option<Tasks>>, runs: map<RunID, DAGRun>, runs': map<RunID, DAGRun>,
                         m: Instances, m': Instances, ready: seq<TaskInstance>, done: set<RunID>)
  {
    Progress(defs, runs, runs', m, m', ready, done) && Requeued(runs, m, m') && AllStored(m', ready)
  }

  lemma NonePassed(defs: map<RunID, Option<Tasks>>, runs: map<RunID, DAGRun>, m: Instances)
    requires defs.Keys == runs.Keys
    ensures Passed(defs, runs, runs, m, m, [], RunIds([]))
  {
    NoneYet(defs, runs, m);
  }

  /** `l` lists the running runs, each once. */
  ghost predicate ListsRunning(runs: map<RunID, DAGRun>, l: seq<DAGRun>) {
    Distinct(l) && forall run :: run in l <==> run.id in runs && runs[run.id] == run && run.status == Running
  }

  /** A listed run is still as it was when its turn comes. */
  lemma StillListed(defs: map<RunID, Option<Tasks>>, runs0: map<RunID, DAGRun>, runs: map<RunID, DAGRun>,
                    m0: Instances, m: Instances, ready: seq<TaskInstance>, l: seq<DAGRun>, i: nat)
    requires i < |l| && ListsRunning(runs0, l) && Passed(defs, runs0, runs, m0, m, ready, RunIds(l[..i]))
    ensures l[i].id in runs0 && l[i].id in runs && runs[l[i].id] == l[i] && l[i].status == Running
  {
    ListedOnce(l, i, runs0);
    assert l[i] in l;
  }

  lemma NextPassed(defs: map<RunID, Option<Tasks>>, runs0: map<RunID, DAGRun>, runs: map<RunID, DAGRun>,
                   runs': map<RunID, DAGRun>, m0: Instances, m: Instances, m': Instances,
                   ready: seq<TaskInstance>, more: seq<TaskInstance>, l: seq<DAGRun>, i: nat)
    requires i < |l| && ListsRunning(runs0, l) && l[i].id in runs0
    requires Passed(defs, runs0, runs, m0, m, ready, RunIds(l[..i])) && OnePerTask(m)
    requires RunScheduled(defs[l[i].id], l[i], runs, runs', m, m', more)
    ensures Passed(defs, runs0, runs', m0, m', ready + more, RunIds(l[..i + 1]))
    ensures Distinct(TaskIdsOf(more)) && forall x :: 0 <= x < |more| ==> more[x].runID == l[i].id
  {
    StillListed(defs, runs0, runs, m0, m, ready, l, i);
    RunScheduledFrame(defs[l[i].id], l[i], runs, runs', m, m', more);
    RunScheduledDistinct(defs[l[i].id], l[i], runs, runs', m, m', more);
    hide RunScheduled, Progress, Requeued, AllStored, OnePerTask;
    ListedOnce(l, i, runs0);
    assert l[i] in l;
    NextRun(defs, runs0, runs, runs', m0, m, m', ready, more, RunIds(l[..i]), l[i]);
    RequeuedNext(runs0, m0, m, m', l[i].id);
  }

  /** Instances of runs created later stand before those of runs created earlier. */
  ghost predicate NewestFirst(runs: map<RunID, DAGRun>, ready: seq<TaskInstance>) {
    && (forall x :: 0 <= x < |ready| ==> ready[x].runID in runs)
    && (forall x, y :: 0 <= x < y < |ready| ==> runs[ready[x].runID].createdAt >= runs[ready[y].runID].createdAt)
  }

  /** The instances belong to the first `i` listed runs. */
  ghost predicate FromListed(l: seq<DAGRun>, i: nat, ready: seq<TaskInstance>) {
    i <= |l| && forall x :: 0 <= x < |ready| ==> exists j :: 0 <= j < i && l[j].id == ready[x].runID
  }

  ghost predicate InListOrder(runs: map<RunID, DAGRun>, l: seq<DAGRun>, i: nat, ready: seq<TaskInstance>) {
    FromListed(l, i, ready) && NewestFirst(runs, ready) && Distinct(ready)
  }

  lemma OrderedIsNewest(runs: map<RunID, DAGRun>, l: seq<DAGRun>, i: nat, ready: seq<TaskInstance>)
    requires InListOrder(runs, l, i, ready)
    ensures NewestFirst(runs, ready) && Distinct(ready)
  {
  }

  lemma RunningListed(runs: map<RunID, DAGRun>, all: seq<DAGRun>)
    requires Distinct(all)
    requires forall run :: run in all <==>
      run.id in runs && runs[run.id] == run && Matches(run, RunFilter("", Some(Running), 0, 0))
    ensures ListsRunning(runs, all) && Page(all, RunFilter("", Some(Running), 0, 0)) == all
  {
  }

  lemma NoneListed(runs: map<RunID, DAGRun>, l: seq<DAGRun>)
    ensures InListOrder(runs, l, 0, [])
  {
  }

  /** The runs are listed newest first, so their instances come in that order. */
  lemma NextListed(runs: map<RunID, DAGRun>, l: seq<DAGRun>, i: nat, ready: seq<TaskInstance>, more: seq<TaskInstance>)
    requires i < |l| && ListsRunning(runs, l) && Sorted(NewerFirst, l)
    requires InListOrder(runs, l, i, ready) && forall x :: 0 <= x < |more| ==> more[x].runID == l[i].id
    requires Distinct(TaskIdsOf(more))
    ensures InListOrder(runs, l, i + 1, ready + more)
  {
    var all := ready + more;
    forall x | 0 <= x < |all| ensures exists j :: 0 <= j < i + 1 && l[j].id == all[x].runID {
      assert x >= |ready| ==> l[i].id == all[x].runID;
    }
    assert l[i] in l;
    forall x | 0 <= x < |ready| ensures runs[ready[x].runID].createdAt >= l[i].createdAt {
      var j :| 0 <= j < i && l[j].id == ready[x].runID;
      assert l[j] in l && !NewerFirst(l[i], l[j]);
    }
    forall x, y | 0 <= x < y < |all| ensures all[x] != all[y] {
      if x < |ready| <= y {
        var j :| 0 <= j < i && l[j].id == ready[x].runID;
        assert l[j] in l && l[j] != l[i];
      } else if x >= |ready| {
        assert TaskIdsOf(more)[x - |ready|] != TaskIdsOf(more)[y - |ready|];
      }
    }
  }

  /** At the end of the pass every run has made its step, and the keys are as they were. */
  lemma AllPassed(defs: map<RunID, Option<Tasks>>, runs: map<RunID, DAGRun>, runs': map<RunID, DAGRun>, m: Instances,
                  m': Instances, ready: seq<TaskInstance>, l: seq<DAGRun>, idx: map<string, InstanceID>)
    requires Passed(defs, runs, runs', m, m', ready, RunIds(l)) && FiledRuns(runs) && ListsRunning(runs, l)
    ensures runs'.Keys == runs.Keys && forall r :: r in runs ==> RunStep(defs[r], runs, runs', m, m', ready, r)
    ensures Requeued(runs, m, m') && AllStored(m', ready)
    ensures InverseOfKeys(idx, m) ==> InverseOfKeys(idx, m')
  {
    AllRuns(defs, runs, runs', m, m', ready, l);
    RequeuedKeys(runs, m, m', idx);
  }

  /** One more run has made its step; the earlier and the later ones do not notice. */
  lemma NextRun(defs: map<RunID, Option<Tasks>>, runs0: map<RunID, DAGRun>, runs: map<RunID, DAGRun>,
                runs': map<RunID, DAGRun>,
                m0: Instances, m: Instances, m': Instances, ready: seq<TaskInstance>, more: seq<TaskInstance>,
                done: set<RunID>, run: DAGRun)
    requires Progress(defs, runs0, runs, m0, m, ready, done) && AllStored(m, ready) && OnePerTask(m)
    requires run.id in runs0 && runs0[run.id] == run && run.id !in done && run.status == Running
    requires RunScheduled(defs[run.id], run, runs, runs', m, m', more)
    ensures Progress(defs, runs0, runs', m0, m', ready + more, done + {run.id})
    ensures AllStored(m', ready + more) && OnlyQueues(m, m', run.id)
  {
    hide RunStep, RunSame, RunScheduled, AllStored, OnePerTask, OnlyQueues, Handed;
    RunScheduledFrame(defs[run.id], run, runs, runs', m, m', more);
    StillStored(m, m', run.id, ready, more);
    forall r | r in runs0 && r != run.id
      ensures RunStep(defs[r], runs0, runs, m0, m, ready, r) ==> RunStep(defs[r], runs0, runs', m0, m', ready + more, r)
      ensures RunSame(runs0, runs, m0, m, ready, r) ==> RunSame(runs0, runs', m0, m', ready + more, r)
    {
      Elsewhere(defs[r], runs0, runs, runs', m0, m, m', ready, more, run.id, r);
    }
    RunSteps(defs[run.id], run, runs0, runs, runs', m0, m, m', ready, more);
  }

  /** A run other than `run` does not notice that round. */
  lemma Elsewhere(def: Option<Tasks>, runs0: map<RunID, DAGRun>, runs: map<RunID, DAGRun>, runs': map<RunID, DAGRun>,
                  m0: Instances, m: Instances, m': Instances, ready: seq<TaskInstance>, more: seq<TaskInstance>,
                  run: RunID, r: RunID)
    requires r in runs0 && r != run && OnePerTask(m) && OnlyQueues(m, m', run)
    requires runs'.Keys == runs.Keys && forall k :: k in runs && k != run ==> runs'[k] == runs[k]
    requires forall x :: 0 <= x < |more| ==> more[x].runID == run
    ensures RunStep(def, runs0, runs, m0, m, ready, r) ==> RunStep(def, runs0, runs', m0, m', ready + more, r)
    ensures RunSame(runs0, runs, m0, m, ready, r) ==> RunSame(runs0, runs', m0, m', ready + more, r)
  {
    hide StatusesOf, Step, OnlyQueues, OnePerTask;
    ProjectJoins(ready, more, r);
    ProjectOther(more, r);
    OnlyQueuesKeeps(m, m', run);
    KeepsIdentityOthers(m, m', run, r);
    assert Project(ready + more, r) == Project(ready, r);
  }

  lemma StillStored(m: Instances, m': Instances, r: RunID, ready: seq<TaskInstance>, more: seq<TaskInstance>)
    requires AllStored(m, ready) && OnlyQueues(m, m', r) && Handed(m', r, more)
    ensures AllStored(m', ready + more)
  {
  }

  lemma RunScheduledDistinct(def: Option<Tasks>, run: DAGRun, runs: map<RunID, DAGRun>, runs': map<RunID, DAGRun>,
                             m: Instances, m': Instances, more: seq<TaskInstance>)
    requires RunScheduled(def, run, runs, runs', m, m', more)
    ensures Distinct(TaskIdsOf(more))
  {
    if def.Some? {
      DispatchListDistinct(def.value, StatusesOf(m, run.id), TaskIdsOf(more));
    }
  }

  lemma RunScheduledFrame(def: Option<Tasks>, run: DAGRun, runs: map<RunID, DAGRun>, runs': map<RunID, DAGRun>,
                          m: Instances, m': Instances, more: seq<TaskInstance>)
    requires RunScheduled(def, run, runs, runs', m, m', more) && run.id in runs
    ensures OnlyQueues(m, m', run.id) && Handed(m', run.id, more)
    ensures runs'.Keys == runs.Keys && forall r :: r in runs && r != run.id ==> runs'[r] == runs[r]
    ensures forall x :: 0 <= x < |more| ==> more[x].runID == run.id
  {
  }

  lemma RunSteps(def: Option<Tasks>, run: DAGRun, runs0: map<RunID, DAGRun>, runs: map<RunID, DAGRun>,
                 runs': map<RunID, DAGRun>,
                 m0: Instances, m: Instances, m': Instances, ready: seq<TaskInstance>, more: seq<TaskInstance>)
    requires run.id in runs0 && runs0[run.id] == run && run.status == Running
    requires RunSame(runs0, runs, m0, m, ready, run.id)
    requires RunScheduled(def, run, runs, runs', m, m', more)
    requires run.id in runs && forall x :: 0 <= x < |more| ==> more[x].runID == run.id
    ensures RunStep(def, runs0, runs', m0, m', ready + more, run.id)
  {
    hide StatusesOf, OnlyQueues, DispatchList, Handed, Scheduled, Project, TaskIdsOf;
    ProjectFirst(ready, more, run.id);
  }

  lemma ProjectFirst(ready: seq<TaskInstance>, more: seq<TaskInstance>, r: RunID)
    requires Project(ready, r) == [] && forall x :: 0 <= x < |more| ==> more[x].runID == r
    ensures Project(ready + more, r) == TaskIdsOf(more) && (more == [] ==> TaskIdsOf(more) == [])
  {
    ProjectJoins(ready, more, r);
    ProjectOwn(more, r);
    assert Project(more, r) == TaskIdsOf(more);
  }

  /** The runs that were not listed were finished, so standing still was their step. */
  lemma AllRuns(defs: map<RunID, Option<Tasks>>, runs: map<RunID, DAGRun>, runs': map<RunID, DAGRun>,
                m: Instances, m': Instances, ready: seq<TaskInstance>, listed: seq<DAGRun>)
    requires Progress(defs, runs, runs', m, m', ready, RunIds(listed))
    requires FiledRuns(runs)
    requires forall run :: run in listed <==> run.id in runs && runs[run.id] == run && run.status == Running
    ensures forall r :: r in runs ==> RunStep(defs[r], runs, runs', m, m', ready, r)
  {
  }

  // ---------------------------------------------------------------- one call, instance by instance

  /** Run `r` has an instance of task `t` in Success. */
  ghost predicate HasSucceeded(m: Instances, r: RunID, t: Id) {
    exists k :: k in m && m[k].runID == r && m[k].taskID == t && m[k].status == Success
  }

  /** `ti` waits, and in its run all that its task depends on has succeeded. */
  ghost predicate MayGo(tasks: Tasks, m: Instances, ti: TaskInstance) {
    && ti.status == Pending && ti.taskID in tasks
    && forall dep :: dep in tasks[ti.taskID].dependencies ==> HasSucceeded(m, ti.runID, dep)
  }

  ghost predicate AllEnded(m: Instances, r: RunID) {
    forall k :: k in m && m[k].runID == r ==> m[k].status in {Success, Failed, Cancelled, Skipped}
  }

  ghost predicate OneFailed(m: Instances, r: RunID) {
    exists k :: k in m && m[k].runID == r && m[k].status == Failed
  }

  /** Running until all instances of the run have ended, then Failed exactly if one is. */
  ghost function EndOf(m: Instances, r: RunID): Status {
    if !AllEnded(m, r) then Running else if OneFailed(m, r) then Failed else Success
  }

  /**
   What a call makes of a running run: exactly the instances that may go are queued and returned, by falling priority
   and then by ID, and the run ends when all its instances have ended.
   */
  ghost predicate CallMakes(tasks: Tasks, runs: map<RunID, DAGRun>, runs': map<RunID, DAGRun>, m: Instances,
                            m': Instances, ready: seq<TaskInstance>, r: RunID)
    requires r in runs
  {
    && (forall k :: k in m && m[k].runID == r ==>
          k in m' && m'[k] == if MayGo(tasks, m, m[k]) then m[k].(status := Queued) else m[k])
    && (forall k :: k in m && m[k].runID == r && MayGo(tasks, m, m[k]) ==> k in m' && m'[k] in ready)
    && (forall ti :: ti in ready && ti.runID == r ==> ti.id in m && m[ti.id].runID == r && MayGo(tasks, m, m[ti.id]))
    && (forall x, y :: 0 <= x < y < |ready| && ready[x].runID == ready[y].runID == r ==>
          && ready[x].taskID in tasks && ready[y].taskID in tasks
          && GoesBefore(tasks[ready[x].taskID], tasks[ready[y].taskID]))
    && r in runs'
    && runs'[r] == runs[r].(status := EndOf(m', r))
  }

  /** A run that has ended, or whose definition is unknown, is left alone. */
  ghost predicate CallSkips(runs: map<RunID, DAGRun>, runs': map<RunID, DAGRun>, m: Instances, m': Instances,
                            ready: seq<TaskInstance>, r: RunID)
    requires r in runs
  {
    && (forall k :: k in m && m[k].runID == r ==> k in m' && m'[k] == m[k])
    && (forall ti :: ti in ready ==> ti.runID != r)
    && r in runs' && runs'[r] == runs[r]
  }

  ghost predicate CallDoes(def: Option<Tasks>, runs: map<RunID, DAGRun>, runs': map<RunID, DAGRun>, m: Instances,
                           m': Instances, ready: seq<TaskInstance>, r: RunID)
    requires r in runs
  {
    if runs[r].status == Running && def.Some? then CallMakes(def.value, runs, runs', m, m', ready, r)
    else CallSkips(runs, runs', m, m', ready, r)
  }

  /** What a call does follows from the machine's steps of all runs. */
  lemma CallByInstances(defs: map<RunID, Option<Tasks>>, runs: map<RunID, DAGRun>, runs': map<RunID, DAGRun>,
                        m: Instances, m': Instances, ready: seq<TaskInstance>)
    requires defs.Keys == runs.Keys && forall r :: r in runs ==> RunStep(defs[r], runs, runs', m, m', ready, r)
    requires Requeued(runs, m, m') && OnePerTask(m) && AllStored(m', ready)
    ensures forall r :: r in runs ==> CallDoes(defs[r], runs, runs', m, m', ready, r)
  {
    hide CallMakes, CallSkips, RunStep, Requeued, OnePerTask, AllStored;
    forall r | r in runs ensures CallDoes(defs[r], runs, runs', m, m', ready, r) {
      if runs[r].status == Running && defs[r].Some? {
        StepByInstances(defs[r].value, runs, runs', m, m', ready, r);
      } else {
        SkippedByInstances(defs[r], runs, runs', m, m', ready, r);
      }
    }
  }

  lemma DispatchableMayGo(tasks: Tasks, m: Instances, r: RunID, k: InstanceID)
    requires OnePerTask(m) && k in m && m[k].runID == r
    ensures Dispatchable(tasks, StatusesOf(m, r), m[k].taskID) <==> MayGo(tasks, m, m[k])
  {
    hide OnePerTask;
    var st := StatusesOf(m, r);
    StatusOfInstance(m, r, k);
    forall dep ensures StatusOf(st, dep) == Success <==> HasSucceeded(m, r, dep) {
      SuccessShows(m, r, dep);
    }
  }

  lemma SuccessShows(m: Instances, r: RunID, t: Id)
    requires OnePerTask(m)
    ensures StatusOf(StatusesOf(m, r), t) == Success <==> HasSucceeded(m, r, t)
  {
    if k :| k in m && m[k].runID == r && m[k].taskID == t && m[k].status == Success {
      StatusOfInstance(m, r, k);
    }
    if t in StatusesOf(m, r) {
      var k := InstanceOf(m, r, t);
      StatusOfInstance(m, r, k);
    }
  }

  lemma EndShows(m: Instances, r: RunID)
    requires OnePerTask(m)
    ensures RunStatus(StatusesOf(m, r)) == EndOf(m, r)
  {
    var st := StatusesOf(m, r);
    forall k | k in m && m[k].runID == r ensures m[k].taskID in st && st[m[k].taskID] == m[k].status {
      StatusOfInstance(m, r, k);
    }
    forall t | t in st ensures exists k :: k in m && m[k].runID == r && m[k].taskID == t && st[t] == m[k].status {
      StatusOfInstance(m, r, InstanceOf(m, r, t));
    }
  }

  lemma RequeuedStays(runs: map<RunID, DAGRun>, m: Instances, m': Instances)
    requires Requeued(runs, m, m') && OnePerTask(m)
    ensures OnePerTask(m') && forall k :: k in m ==> Identity(m'[k]) == Identity(m[k])
  {
  }

  /** The instances of a running run after a call. */
  lemma InstancesAfterCall(tasks: Tasks, runs: map<RunID, DAGRun>, m: Instances, m': Instances, r: RunID, k: InstanceID)
    requires Requeued(runs, m, m') && OnePerTask(m) && k in m && m[k].runID == r
    requires StatusesOf(m', r) == Queue(tasks, StatusesOf(m, r))
    ensures m'[k] == if MayGo(tasks, m, m[k]) then m[k].(status := Queued) else m[k]
  {
    hide Dispatchable, MayGo, StatusesOf, OnePerTask;
    RequeuedStays(runs, m, m');
    StatusOfInstance(m, r, k);
    StatusOfInstance(m', r, k);
    DispatchableMayGo(tasks, m, r, k);
    QueueAt(tasks, StatusesOf(m, r), m[k].taskID);
  }

  /** Exactly the instances that may go are returned. */
  lemma ReturnedByCall(tasks: Tasks, runs: map<RunID, DAGRun>, m: Instances, m': Instances, ready: seq<TaskInstance>,
                       r: RunID, k: InstanceID)
    requires Requeued(runs, m, m') && OnePerTask(m) && AllStored(m', ready) && k in m && m[k].runID == r
    requires DispatchList(tasks, StatusesOf(m, r), Project(ready, r))
    ensures MayGo(tasks, m, m[k]) <==> m'[k] in ready
  {
    hide Dispatchable, MayGo, StatusesOf, Project;
    RequeuedStays(runs, m, m');
    DispatchableMayGo(tasks, m, r, k);
    if MayGo(tasks, m, m[k]) {
      ProjectedFrom(ready, r, m[k].taskID);
      var x :| 0 <= x < |ready| && ready[x].runID == r && ready[x].taskID == m[k].taskID;
      assert ready[x] in ready;
    }
    if m'[k] in ready {
      var x :| 0 <= x < |ready| && ready[x] == m'[k];
      var i, _ := ProjectKeepsOrder(ready, r, x, x);
      assert Project(ready, r)[i] in Project(ready, r);
    }
  }

  lemma OrderOfCall(tasks: Tasks, ready: seq<TaskInstance>, r: RunID, x: nat, y: nat)
    requires InReadyOrder(tasks, Project(ready, r)) && x < y < |ready| && ready[x].runID == ready[y].runID == r
    ensures ready[x].taskID in tasks && ready[y].taskID in tasks
    ensures GoesBefore(tasks[ready[x].taskID], tasks[ready[y].taskID])
  {
    hide Project;
    var i, j := ProjectKeepsOrder(ready, r, x, y);
    ReadyOrderByFields(tasks, Project(ready, r), i, j);
  }

  lemma StepByInstances(tasks: Tasks, runs: map<RunID, DAGRun>, runs': map<RunID, DAGRun>, m: Instances, m': Instances,
                        ready: seq<TaskInstance>, r: RunID)
    requires r in runs && runs[r].status == Running && RunStep(Some(tasks), runs, runs', m, m', ready, r)
    requires Requeued(runs, m, m') && OnePerTask(m) && AllStored(m', ready)
    ensures CallMakes(tasks, runs, runs', m, m', ready, r)
  {
    hide MayGo, StatusesOf, Project, OnePerTask, InReadyOrder, Queue, RunStatus, AllEnded, OneFailed, GoesBefore;
    RequeuedStays(runs, m, m');
    EndShows(m', r);
    forall k | k in m && m[k].runID == r
      ensures m'[k] == if MayGo(tasks, m, m[k]) then m[k].(status := Queued) else m[k]
      ensures MayGo(tasks, m, m[k]) <==> m'[k] in ready
    {
      InstancesAfterCall(tasks, runs, m, m', r, k);
      ReturnedByCall(tasks, runs, m, m', ready, r, k);
    }
    forall x, y | 0 <= x < y < |ready| && ready[x].runID == ready[y].runID == r
      ensures ready[x].taskID in tasks && ready[y].taskID in tasks
      ensures GoesBefore(tasks[ready[x].taskID], tasks[ready[y].taskID])
    {
      OrderOfCall(tasks, ready, r, x, y);
    }
  }

  lemma SkippedByInstances(def: Option<Tasks>, runs: map<RunID, DAGRun>, runs': map<RunID, DAGRun>, m: Instances,
                           m': Instances, ready: seq<TaskInstance>, r: RunID)
    requires r in runs && RunStep(def, runs, runs', m, m', ready, r) && (runs[r].status == Running ==> def.None?)
    requires Requeued(runs, m, m') && OnePerTask(m)
    ensures CallSkips(runs, runs', m, m', ready, r)
  {
    hide StatusesOf, Project, OnePerTask;
    RequeuedStays(runs, m, m');
    forall k | k in m && m[k].runID == r ensures m'[k] == m[k] {
      StatusOfInstance(m, r, k);
      StatusOfInstance(m', r, k);
    }
    forall ti | ti in ready ensures ti.runID != r {
      var x :| 0 <= x < |ready| && ready[x] == ti;
      if ti.runID == r {
        var _, _ := ProjectKeepsOrder(ready, r, x, x);
      }
    }
  }

  ghost predicate FiledRuns(runs: map<RunID, DAGRun>) {
    forall r :: r in runs ==> runs[r].id == r
  }
}
