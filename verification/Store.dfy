/** pkg/store/memory.go: the in-memory store.  Records go in and come out as copies, so they are values here. */
module Store {
  import opened Ordering
  import opened DagTypes

  type RunID = string
  type InstanceID = string

  datatype DAGRun = DAGRun(id: RunID, dagID: string, status: Status, createdAt: int)

  datatype TaskInstance = TaskInstance(
    id: InstanceID, runID: RunID, taskID: Id, dagID: string, status: Status, attempt: int, workerID: string,
    error: string, idempotencyKey: string)

  datatype DagRecord = DagRecord(id: string, name: string, tasks: Tasks, edges: Edges)

  datatype StoreError =
    | RunExists(run: RunID)
    | RunNotFound(run: RunID)
    | InstanceExists(instance: InstanceID)
    | InstanceNotFound(instance: InstanceID)
    | DagNotFound(dag: string)
    | KeyNotFound(key: string)
    | IndexInconsistency(instance: InstanceID)

  type Instances = map<InstanceID, TaskInstance>

  ghost predicate FiledById(m: Instances) {
    forall k :: k in m ==> m[k].id == k
  }

  predicate NewerFirst(a: DAGRun, b: DAGRun) {
    a.createdAt > b.createdAt
  }

  predicate TaskIdBefore(a: TaskInstance, b: TaskInstance) {
    IdLess(a.taskID, b.taskID)
  }

  /** `l` lists each instance of run `r` once, by task ID. */
  ghost predicate ListsRun(m: Instances, r: RunID, l: seq<TaskInstance>) {
    && Sorted(TaskIdBefore, l) && Distinct(l)
    && forall ti :: ti in l <==> ti.id in m && m[ti.id] == ti && ti.runID == r
  }

  /** No two instances share an idempotency key. */
  ghost predicate KeysUnique(m: Instances) {
    forall a, b :: a in m && b in m && m[a].idempotencyKey == m[b].idempotencyKey != "" ==> a == b
  }

  /** `idx` is exactly the inverse of the keys of the instances that have one. */
  ghost predicate InverseOfKeys(idx: map<string, InstanceID>, m: Instances) {
    && (forall k :: k in m && m[k].idempotencyKey != "" ==> m[k].idempotencyKey in idx && idx[m[k].idempotencyKey] == k)
    && (forall key :: key in idx ==> idx[key] in m && m[idx[key]].idempotencyKey == key)
  }

  /** An empty DAG ID, no status, and a limit or offset that is not positive stand for no restriction. */
  datatype RunFilter = RunFilter(dagID: string, status: Option<Status>, limit: int, offset: int)

  predicate Matches(run: DAGRun, filter: RunFilter) {
    (filter.dagID == "" || run.dagID == filter.dagID) && (filter.status.None? || run.status == filter.status.value)
  }

  /** One page of a listing; an offset past its end is ignored. */
  function Page(all: seq<DAGRun>, filter: RunFilter): seq<DAGRun> {
    var rest := if 0 < filter.offset < |all| then all[filter.offset..] else all;
    if 0 < filter.limit < |rest| then rest[..filter.limit] else rest
  }

  lemma PageByIndices(all: seq<DAGRun>, filter: RunFilter)
    ensures var page, start := Page(all, filter), if 0 < filter.offset < |all| then filter.offset else 0;
            && |page| == (if 0 < filter.limit < |all| - start then filter.limit else |all| - start)
            && forall i :: 0 <= i < |page| ==> page[i] == all[start + i]
  {
  }

  lemma PageInSteps(all: seq<DAGRun>, filter: RunFilter)
    ensures var rest := if filter.offset > 0 && filter.offset < |all| then all[filter.offset..] else all;
            Page(all, filter) == if filter.limit > 0 && |rest| > filter.limit then rest[..filter.limit] else rest
  {
  }

  lemma NewestRunsFirst(all: seq<DAGRun>)
    requires Sorted(NewerFirst, all)
    ensures forall i, j :: 0 <= i < j < |all| ==> all[i].createdAt >= all[j].createdAt
  {
    forall i, j | 0 <= i < j < |all| ensures all[i].createdAt >= all[j].createdAt {
      assert !NewerFirst(all[j], all[i]);
    }
  }

  /** Paging on past the end starts over with the first page. */
  lemma OffsetPastTheEnd(all: seq<DAGRun>, filter: RunFilter)
    requires |all| <= filter.offset
    ensures Page(all, filter) == Page(all, filter.(offset := 0))
  {
  }

  class MemoryStore {
    var dags: map<string, DagRecord>
    var runs: map<RunID, DAGRun>
    var taskInstances: Instances
    var idempotencyIdx: map<string, InstanceID>

    /** Records are filed under their IDs, and the key index never points outside the table. */
    ghost predicate Valid()
      reads this
    {
      && (forall r :: r in runs ==> runs[r].id == r)
      && FiledById(taskInstances)
      && (forall d :: d in dags ==> dags[d].id == d)
      && (forall key :: key in idempotencyIdx ==> idempotencyIdx[key] in taskInstances)
    }

    /** The key index is exactly the inverse of the instances' keys. */
    ghost predicate Indexed()
      reads this`taskInstances, this`idempotencyIdx
    {
      InverseOfKeys(idempotencyIdx, taskInstances)
    }

    constructor ()
      ensures Valid() && Indexed()
      ensures runs == map[] && taskInstances == map[] && dags == map[]
    {
      dags, runs, taskInstances, idempotencyIdx := map[], map[], map[], map[];
    }

    method SaveDAG(d: DagRecord)
      requires Valid()
      modifies this`dags
      ensures Valid() && dags == old(dags)[d.id := d]
    {
      dags := dags[d.id := d];
    }

    method GetDAG(id: string) returns (r: Result<DagRecord, StoreError>)
      ensures r == if id in dags then Ok(dags[id]) else Err(DagNotFound(id))
    {
      return if id in dags then Ok(dags[id]) else Err(DagNotFound(id));
    }

    method CreateRun(run: DAGRun) returns (r: Result<(), StoreError>)
      requires Valid()
      modifies this`runs
      ensures Valid()
      ensures r == if run.id in old(runs) then Err(RunExists(run.id)) else Ok(())
      ensures runs == if r.Ok? then old(runs)[run.id := run] else old(runs)
    {
      if run.id in runs {
        return Err(RunExists(run.id));
      }
      runs := runs[run.id := run];
      return Ok(());
    }

    method GetRun(id: RunID) returns (r: Result<DAGRun, StoreError>)
      ensures r == if id in runs then Ok(runs[id]) else Err(RunNotFound(id))
    {
      return if id in runs then Ok(runs[id]) else Err(RunNotFound(id));
    }

    method UpdateRun(run: DAGRun) returns (r: Result<(), StoreError>)
      requires Valid()
      modifies this`runs
      ensures Valid()
      ensures r == if run.id in old(runs) then Ok(()) else Err(RunNotFound(run.id))
      ensures runs == if r.Ok? then old(runs)[run.id := run] else old(runs)
    {
      if run.id !in runs {
        return Err(RunNotFound(run.id));
      }
      runs := runs[run.id := run];
      return Ok(());
    }

    /** A page of the matching runs, newest first; ties come in any order. */
    method ListRuns(filter: RunFilter) returns (result: seq<DAGRun>, ghost all: seq<DAGRun>)
      requires Valid()
      ensures Sorted(NewerFirst, all) && Distinct(all)
      ensures forall run :: run in all <==> run.id in runs && runs[run.id] == run && Matches(run, filter)
      ensures forall run :: run in all <==>
        && run.id in runs && runs[run.id] == run
        && (filter.dagID != "" ==> run.dagID == filter.dagID)
        && (filter.status.Some? ==> run.status == filter.status.value)
      ensures forall i, j :: 0 <= i < j < |all| ==> all[i].createdAt >= all[j].createdAt
      ensures result == Page(all, filter)
      ensures var start := if 0 < filter.offset < |all| then filter.offset else 0;
              && |result| == (if 0 < filter.limit < |all| - start then filter.limit else |all| - start)
              && forall i :: 0 <= i < |result| ==> result[i] == all[start + i]
    {
      hide Distinct, Page;
      result := SelectRuns(filter);
      SortIsSorted(NewerFirst, result);
      PermutationDistinct(Sort(NewerFirst, result), result);
      MultisetMembers(Sort(NewerFirst, result), result);
      result := Sort(NewerFirst, result);
      all := result;
      NewestRunsFirst(all);
      PageByIndices(all, filter);
      PageInSteps(all, filter);
      if filter.offset > 0 && filter.offset < |result| {
        result := result[filter.offset..];
      }
      if filter.limit > 0 && |result| > filter.limit {
        result := result[..filter.limit];
      }
    }

    /** The loop of `ListRuns`: the matching runs, in whatever order the map yields them. */
    method SelectRuns(filter: RunFilter) returns (result: seq<DAGRun>)
      requires Valid()
      ensures Distinct(result)
      ensures forall run :: run in result <==> run.id in runs && runs[run.id] == run && Matches(run, filter)
    {
      result := [];
      var todo := runs.Keys;
      while todo != {}
        invariant todo <= runs.Keys
        invariant Distinct(result)
        invariant forall run :: run in result <==>
          run.id in runs.Keys - todo && runs[run.id] == run && Matches(run, filter)
        decreases todo
      {
        var k :| k in todo;
        todo := todo - {k};
        if filter.dagID != "" && runs[k].dagID != filter.dagID {
          continue;
        }
        if filter.status.Some? && runs[k].status != filter.status.value {
          continue;
        }
        result := result + [runs[k]];
      }
    }

    method CreateTaskInstance(ti: TaskInstance) returns (r: Result<(), StoreError>)
      requires Valid()
      modifies this`taskInstances, this`idempotencyIdx
      ensures Valid()
      ensures r == if ti.id in old(taskInstances) then Err(InstanceExists(ti.id)) else Ok(())
      ensures taskInstances == if r.Ok? then old(taskInstances)[ti.id := ti] else old(taskInstances)
      ensures idempotencyIdx ==
              if r.Ok? && ti.idempotencyKey != "" then old(idempotencyIdx)[ti.idempotencyKey := ti.id]
              else old(idempotencyIdx)
      ensures old(Indexed()) && KeysUnique(taskInstances) ==> Indexed()
    {
      if ti.id in taskInstances {
        return Err(InstanceExists(ti.id));
      }
      taskInstances := taskInstances[ti.id := ti];
      if ti.idempotencyKey != "" {
        idempotencyIdx := idempotencyIdx[ti.idempotencyKey := ti.id];
      }
      return Ok(());
    }

    method GetTaskInstance(id: InstanceID) returns (r: Result<TaskInstance, StoreError>)
      ensures r == if id in taskInstances then Ok(taskInstances[id]) else Err(InstanceNotFound(id))
    {
      return if id in taskInstances then Ok(taskInstances[id]) else Err(InstanceNotFound(id));
    }

    /** Replaces the record; the key index stays right as long as the key does not change. */
    method UpdateTaskInstance(ti: TaskInstance) returns (r: Result<(), StoreError>)
      requires Valid()
      modifies this`taskInstances
      ensures Valid()
      ensures r == if ti.id in old(taskInstances) then Ok(()) else Err(InstanceNotFound(ti.id))
      ensures taskInstances == if r.Ok? then old(taskInstances)[ti.id := ti] else old(taskInstances)
      ensures old(Indexed()) && (r.Ok? ==> old(taskInstances)[ti.id].idempotencyKey == ti.idempotencyKey) ==> Indexed()
    {
      if ti.id !in taskInstances {
        return Err(InstanceNotFound(ti.id));
      }
      taskInstances := taskInstances[ti.id := ti];
      return Ok(());
    }

    method ListTaskInstances(runID: RunID) returns (result: seq<TaskInstance>)
      requires Valid()
      ensures ListsRun(taskInstances, runID, result)
      ensures forall i, j :: 0 <= i < j < |result| ==> !Precedes(result[j].taskID, result[i].taskID)
    {
      result := [];
      var todo := taskInstances.Keys;
      while todo != {}
        invariant todo <= taskInstances.Keys
        invariant Distinct(result)
        invariant forall ti :: ti in result <==>
          ti.id in taskInstances.Keys - todo && taskInstances[ti.id] == ti && ti.runID == runID
        decreases todo
      {
        var k :| k in todo;
        todo := todo - {k};
        if taskInstances[k].runID == runID {
          result := result + [taskInstances[k]];
        }
      }
      IdOrder();
      SortIsSorted(TaskIdBefore, result);
      PermutationDistinct(Sort(TaskIdBefore, result), result);
      MultisetMembers(Sort(TaskIdBefore, result), result);
      result := Sort(TaskIdBefore, result);
      forall i, j | 0 <= i < j < |result| ensures !Precedes(result[j].taskID, result[i].taskID) {
        IdLessIsLexicographic(result[j].taskID, result[i].taskID);
      }
    }

    /** With an exact index, the lookup finds the one instance that carries the key, if there is one. */
    method GetTaskInstanceByIdempotencyKey(key: string) returns (r: Result<TaskInstance, StoreError>)
      requires Valid()
      ensures r.Err? ==> r.error == KeyNotFound(key)
      ensures r.Ok? ==> r.value.id in taskInstances && taskInstances[r.value.id] == r.value
      ensures Indexed() && key != "" ==>
                (r.Ok? <==> exists k :: k in taskInstances && taskInstances[k].idempotencyKey == key)
      ensures Indexed() && r.Ok? ==>
                r.value.idempotencyKey == key
                && (key != "" ==>
                      forall k :: k in taskInstances && taskInstances[k].idempotencyKey == key ==> k == r.value.id)
    {
      if key !in idempotencyIdx {
        return Err(KeyNotFound(key));
      }
      var id := idempotencyIdx[key];
      if id !in taskInstances {
        return Err(IndexInconsistency(id));
      }
      return Ok(taskInstances[id]);
    }
  }
}
