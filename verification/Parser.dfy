/** pkg/dag/parser.go from the decoded record on: from raw fields to a DAG that satisfies what the algorithms assume. */
module Parser {
  import opened Ordering
  import opened Graphs
  import opened KahnOrders
  import opened DagTypes
  import opened EdgeMaps
  import opened DagSearch
  import opened Dag

  /** A duration field: left empty, a duration, or text that `time.ParseDuration` rejects. */
  datatype RawDuration = Absent | Parsed(d: int) | Malformed {
    function Or(default: int): int {
      if Parsed? then d else default
    }
  }

  datatype RawRetry = RawRetry(
    maxRetries: int, initialBackoff: RawDuration, maxBackoff: RawDuration, backoffFactor: real, retryOn: seq<string>)

  datatype RawTask = RawTask(
    id: Id, name: string, executor: string, retryPolicy: Option<RawRetry>, timeout: RawDuration,
    dependencies: seq<Id>, priority: int)

  datatype RawConfig = RawConfig(
    maxConcurrency: int, timeout: RawDuration, defaultRetry: Option<RawRetry>, owner: string, slaDuration: RawDuration)

  datatype RawDag = RawDag(id: string, name: string, config: Option<RawConfig>, tasks: seq<RawTask>, version: int)

  const SECOND: int := 1_000_000_000
  const DEFAULT_INITIAL_BACKOFF: int := 10 * SECOND
  const DEFAULT_MAX_BACKOFF: int := 300 * SECOND

  // ---------------------------------------------------------------- what a record means

  predicate RetryParses(raw: RawRetry) {
    !raw.initialBackoff.Malformed? && !raw.maxBackoff.Malformed?
  }

  predicate TaskParses(raw: RawTask) {
    !raw.timeout.Malformed? && (raw.retryPolicy.Some? ==> RetryParses(raw.retryPolicy.value))
  }

  predicate ConfigParses(raw: RawDag) {
    raw.config.Some? ==>
      && !raw.config.value.timeout.Malformed? && !raw.config.value.slaDuration.Malformed?
      && (raw.config.value.defaultRetry.Some? ==> RetryParses(raw.config.value.defaultRetry.value))
  }

  function RetryMeaning(raw: RawRetry): RetryPolicy {
    RetryPolicy(raw.maxRetries, raw.initialBackoff.Or(DEFAULT_INITIAL_BACKOFF), raw.maxBackoff.Or(DEFAULT_MAX_BACKOFF),
                if raw.backoffFactor == 0.0 then 2.0 else raw.backoffFactor, raw.retryOn)
  }

  function DefaultRetry(raw: RawDag): Option<RetryPolicy> {
    if raw.config.Some? && raw.config.value.defaultRetry.Some?
    then Some(RetryMeaning(raw.config.value.defaultRetry.value)) else None
  }

  /** A task's own retry policy wins over the DAG-wide default. */
  function TaskMeaning(raw: RawTask, default: Option<RetryPolicy>): Task {
    var retryPolicy := if raw.retryPolicy.Some? then Some(RetryMeaning(raw.retryPolicy.value)) else default;
    Task(raw.id, raw.name, raw.executor, retryPolicy, raw.timeout.Or(0), raw.dependencies, raw.priority)
  }

  // ---------------------------------------------------------------- the same, field by field

  /** What is written, or the default where nothing is. */
  predicate DurationAsWritten(raw: RawDuration, default: int, d: int) {
    (raw.Parsed? ==> d == raw.d) && (raw.Absent? ==> d == default) && !raw.Malformed?
  }

  predicate PolicyAsWritten(raw: RawRetry, rp: RetryPolicy) {
    && rp.maxRetries == raw.maxRetries && rp.retryOn == raw.retryOn
    && DurationAsWritten(raw.initialBackoff, 10_000_000_000, rp.initialBackoff)
    && DurationAsWritten(raw.maxBackoff, 300_000_000_000, rp.maxBackoff)
    && (raw.backoffFactor != 0.0 ==> rp.backoffFactor == raw.backoffFactor)
    && (raw.backoffFactor == 0.0 ==> rp.backoffFactor == 2.0)
  }

  /** The record's own fields; its retry policy if it has one, else the inherited one, if there is one. */
  predicate TaskAsWritten(raw: RawTask, inherited: Option<RetryPolicy>, task: Task) {
    && task.id == raw.id && task.name == raw.name && task.executor == raw.executor
    && task.dependencies == raw.dependencies && task.priority == raw.priority
    && DurationAsWritten(raw.timeout, 0, task.timeout)
    && (raw.retryPolicy.Some? ==>
          task.retryPolicy.Some? && PolicyAsWritten(raw.retryPolicy.value, task.retryPolicy.value))
    && (raw.retryPolicy.None? ==> task.retryPolicy == inherited)
  }

  predicate ConfigAsWritten(raw: Option<RawConfig>, config: DagConfig) {
    match raw
    case None => config == DagConfig(16, 0, 0, None, "")
    case Some(c) =>
      && (c.maxConcurrency != 0 ==> config.maxConcurrency == c.maxConcurrency)
      && (c.maxConcurrency == 0 ==> config.maxConcurrency == 16)
      && DurationAsWritten(c.timeout, 0, config.timeout) && DurationAsWritten(c.slaDuration, 0, config.slaDuration)
      && config.owner == c.owner && (c.defaultRetry.None? ==> config.defaultRetry.None?)
      && (c.defaultRetry.Some? ==>
            config.defaultRetry.Some? && PolicyAsWritten(c.defaultRetry.value, config.defaultRetry.value))
  }

  function RetryDurations(raw: Option<RawRetry>): seq<RawDuration> {
    if raw.Some? then [raw.value.initialBackoff, raw.value.maxBackoff] else []
  }

  /** All durations in the record are empty or well-formed. */
  ghost predicate NoneMalformed(raw: RawDag) {
    && (raw.config.Some? ==>
          var c := raw.config.value; Malformed !in [c.timeout, c.slaDuration] + RetryDurations(c.defaultRetry))
    && forall i :: 0 <= i < |raw.tasks| ==>
         Malformed !in [raw.tasks[i].timeout] + RetryDurations(raw.tasks[i].retryPolicy)
  }

  ghost predicate IdsUsable(raw: RawDag) {
    && (forall i :: 0 <= i < |raw.tasks| ==> raw.tasks[i].id != "")
    && forall i, j :: 0 <= i < j < |raw.tasks| ==> raw.tasks[i].id != raw.tasks[j].id
  }

  /** Every dependency names a task. */
  ghost predicate DependenciesResolve(raw: RawDag) {
    forall i, dep :: 0 <= i < |raw.tasks| && dep in raw.tasks[i].dependencies ==>
      exists j :: 0 <= j < |raw.tasks| && raw.tasks[j].id == dep
  }

  /** A definition is accepted exactly under these conditions. */
  ghost predicate Acceptable(raw: RawDag) {
    && raw.id != "" && raw.tasks != [] && NoneMalformed(raw) && IdsUsable(raw) && DependenciesResolve(raw)
    && (forall i :: 0 <= i < |raw.tasks| ==> raw.tasks[i].executor != "")
    && Acyclic(RawGraph(raw))
  }

  lemma BuildableByFields(raw: RawDag)
    ensures Buildable(raw) <==> Acceptable(raw)
  {
    hide Acyclic;
    ConfigParsesByFields(raw);
    AcceptedByFields(raw);
    ResolvedMeansClosed(raw);
  }

  lemma ConfigParsesByFields(raw: RawDag)
    ensures ConfigParses(raw) <==>
            (raw.config.Some? ==>
               var c := raw.config.value; Malformed !in [c.timeout, c.slaDuration] + RetryDurations(c.defaultRetry))
  {
    if raw.config.Some? {
      var c := raw.config.value;
      MalformedIn([c.timeout, c.slaDuration], c.defaultRetry);
    }
  }

  lemma MalformedIn(ds: seq<RawDuration>, retry: Option<RawRetry>)
    ensures Malformed in ds + RetryDurations(retry) <==> Malformed in ds || (retry.Some? && !RetryParses(retry.value))
  {
  }

  lemma AcceptedByFields(raw: RawDag)
    ensures AllAccepted(raw) <==>
            IdsUsable(raw) && forall i :: 0 <= i < |raw.tasks| ==>
              Malformed !in [raw.tasks[i].timeout] + RetryDurations(raw.tasks[i].retryPolicy)
  {
    forall i | 0 <= i < |raw.tasks|
      ensures TaskParses(raw.tasks[i]) <==>
              Malformed !in [raw.tasks[i].timeout] + RetryDurations(raw.tasks[i].retryPolicy)
    {
      MalformedIn([raw.tasks[i].timeout], raw.tasks[i].retryPolicy);
    }
    if AllAccepted(raw) {
      forall i, j | 0 <= i < j < |raw.tasks| ensures raw.tasks[i].id != raw.tasks[j].id {
        assert Accepted(raw, j);
      }
      forall i | 0 <= i < |raw.tasks| ensures raw.tasks[i].id != "" && TaskParses(raw.tasks[i]) {
        assert Accepted(raw, i);
      }
    }
  }

  lemma ResolvedMeansClosed(raw: RawDag)
    ensures Closed(RawGraph(raw)) <==> DependenciesResolve(raw)
  {
    var g := RawGraph(raw);
    if Closed(g) {
      forall i, dep | 0 <= i < |raw.tasks| && dep in raw.tasks[i].dependencies
        ensures exists j :: 0 <= j < |raw.tasks| && raw.tasks[j].id == dep
      {
        assert (dep, raw.tasks[i].id) in g.arcs;
        assert dep in RawIds(raw);
      }
    }
  }

  /** What the builders produce is what is written. */
  lemma MeaningByFields(raw: RawTask, default: Option<RetryPolicy>)
    requires TaskParses(raw)
    ensures TaskAsWritten(raw, default, TaskMeaning(raw, default))
  {
  }

  lemma BuiltByFields(raw: RawDag, d: DAG)
    requires Buildable(raw) && Built(raw, d)
    ensures ConfigAsWritten(raw.config, d.config)
    ensures forall i :: 0 <= i < |raw.tasks| ==>
      raw.tasks[i].id in d.tasks && TaskAsWritten(raw.tasks[i], d.config.defaultRetry, d.tasks[raw.tasks[i].id])
  {
    hide Coherent, RawGraph, Inverts;
    forall i | 0 <= i < |raw.tasks|
      ensures raw.tasks[i].id in d.tasks
      ensures TaskAsWritten(raw.tasks[i], d.config.defaultRetry, d.tasks[raw.tasks[i].id])
    {
      assert Accepted(raw, i);
      MeaningByFields(raw.tasks[i], DefaultRetry(raw));
    }
  }

  // ---------------------------------------------------------------- acceptance

  /** Task `i` can be added after those before it. */
  ghost predicate Accepted(raw: RawDag, i: nat)
    requires i < |raw.tasks|
  {
    TaskParses(raw.tasks[i]) && raw.tasks[i].id != "" && forall j :: 0 <= j < i ==> raw.tasks[j].id != raw.tasks[i].id
  }

  ghost function RawIds(raw: RawDag): set<Id> {
    set i | 0 <= i < |raw.tasks| :: raw.tasks[i].id
  }

  ghost function RawGraph(raw: RawDag): Graph {
    Graph(RawIds(raw), set i, dep | 0 <= i < |raw.tasks| && dep in raw.tasks[i].dependencies :: (dep, raw.tasks[i].id))
  }

  /** What a definition must satisfy to be accepted, in terms of the record alone. */
  ghost predicate Buildable(raw: RawDag) {
    ConfigParses(raw) && AllAccepted(raw) && Coherent(raw)
  }

  /** The tasks of the first `n` entries, filed by ID. */
  ghost predicate Holds(raw: RawDag, n: nat, tasks: Tasks)
    requires n <= |raw.tasks|
  {
    && (forall i :: 0 <= i < n ==> raw.tasks[i].id in tasks)
    && (forall i :: 0 <= i < n ==> tasks[raw.tasks[i].id] == TaskMeaning(raw.tasks[i], DefaultRetry(raw)))
    && (forall k :: k in tasks ==> exists i :: 0 <= i < n && raw.tasks[i].id == k)
  }

  lemma HoldsGraph(raw: RawDag, tasks: Tasks)
    requires Holds(raw, |raw.tasks|, tasks)
    ensures DependencyGraph(tasks) == RawGraph(raw)
  {
  }

  lemma HoldsExecutors(raw: RawDag, tasks: Tasks)
    requires Holds(raw, |raw.tasks|, tasks)
    ensures tasks == map[] <==> raw.tasks == []
    ensures (forall k :: k in tasks ==> tasks[k].executor != "") <==>
            (forall i :: 0 <= i < |raw.tasks| ==> raw.tasks[i].executor != "")
  {
    if raw.tasks != [] { assert raw.tasks[0].id in tasks; }
    if forall i :: 0 <= i < |raw.tasks| ==> raw.tasks[i].executor != "" {
      forall k | k in tasks ensures tasks[k].executor != "" {
        var i :| 0 <= i < |raw.tasks| && raw.tasks[i].id == k;
      }
    }
    if forall k :: k in tasks ==> tasks[k].executor != "" {
      forall i | 0 <= i < |raw.tasks| ensures raw.tasks[i].executor != "" {
        assert tasks[raw.tasks[i].id].executor != "";
      }
    }
  }

  /** All dependencies exist exactly when the dependency relation stays between tasks. */
  lemma DependenciesExist(tasks: Tasks)
    ensures Closed(DependencyGraph(tasks)) <==>
            forall t, dep :: t in tasks && dep in tasks[t].dependencies ==> dep in tasks
  {
  }

  // ---------------------------------------------------------------- the builders

  method ParseRetryPolicy(raw: RawRetry) returns (r: Result<RetryPolicy, DagError>)
    ensures r == if RetryParses(raw) then Ok(RetryMeaning(raw)) else Err(BadDuration)
    ensures r.Ok? <==> Malformed !in RetryDurations(Some(raw))
    ensures r.Ok? ==> PolicyAsWritten(raw, r.value)
  {
    var rp := RetryPolicy(raw.maxRetries, 0, 0, raw.backoffFactor, raw.retryOn);
    if rp.backoffFactor == 0.0 {
      rp := rp.(backoffFactor := 2.0);
    }
    if !raw.initialBackoff.Absent? {
      if raw.initialBackoff.Malformed? {
        return Err(BadDuration);
      }
      rp := rp.(initialBackoff := raw.initialBackoff.d);
    } else {
      rp := rp.(initialBackoff := DEFAULT_INITIAL_BACKOFF);
    }
    if !raw.maxBackoff.Absent? {
      if raw.maxBackoff.Malformed? {
        return Err(BadDuration);
      }
      rp := rp.(maxBackoff := raw.maxBackoff.d);
    } else {
      rp := rp.(maxBackoff := DEFAULT_MAX_BACKOFF);
    }
    return Ok(rp);
  }

  method BuildTask(raw: RawTask, default: Option<RetryPolicy>) returns (r: Result<Task, DagError>)
    ensures r == if TaskParses(raw) then Ok(TaskMeaning(raw, default)) else Err(BadDuration)
    ensures r.Ok? <==> Malformed !in [raw.timeout] + RetryDurations(raw.retryPolicy)
    ensures r.Ok? ==> TaskAsWritten(raw, default, r.value)
  {
    MalformedIn([raw.timeout], raw.retryPolicy);
    var task := Task(raw.id, raw.name, raw.executor, None, 0, raw.dependencies, raw.priority);
    if !raw.timeout.Absent? {
      if raw.timeout.Malformed? {
        return Err(BadDuration);
      }
      task := task.(timeout := raw.timeout.d);
    }
    if raw.retryPolicy.Some? {
      var rp := ParseRetryPolicy(raw.retryPolicy.value);
      if rp.Err? {
        return Err(rp.error);
      }
      task := task.(retryPolicy := Some(rp.value));
    } else if default.Some? {
      task := task.(retryPolicy := default);
    }
    return Ok(task);
  }

  function ConfigMeaning(raw: RawDag): DagConfig {
    if raw.config.None? then DagConfig(16, 0, 0, None, "")
    else
      var c := raw.config.value;
      DagConfig(if c.maxConcurrency == 0 then 16 else c.maxConcurrency, c.timeout.Or(0), c.slaDuration.Or(0),
                DefaultRetry(raw), c.owner)
  }

  method BuildConfig(raw: RawDag) returns (r: Result<DagConfig, DagError>)
    ensures r == if ConfigParses(raw) then Ok(ConfigMeaning(raw)) else Err(BadDuration)
    ensures r.Ok? ==> ConfigAsWritten(raw.config, r.value)
  {
    var config := DagConfig(16, 0, 0, None, "");
    if raw.config.Some? {
      var c := raw.config.value;
      config := config.(maxConcurrency := c.maxConcurrency, owner := c.owner);
      if config.maxConcurrency == 0 {
        config := config.(maxConcurrency := 16);
      }
      if c.timeout.Malformed? {
        return Err(BadDuration);
      }
      if c.timeout.Parsed? {
        config := config.(timeout := c.timeout.d);
      }
      if c.slaDuration.Malformed? {
        return Err(BadDuration);
      }
      if c.slaDuration.Parsed? {
        config := config.(slaDuration := c.slaDuration.d);
      }
      if c.defaultRetry.Some? {
        var rp := ParseRetryPolicy(c.defaultRetry.value);
        if rp.Err? {
          return Err(rp.error);
        }
        config := config.(defaultRetry := Some(rp.value));
      }
    }
    return Ok(config);
  }

  /** What rejecting task `i` reports. */
  ghost function TaskError(raw: RawTask): DagError {
    if !TaskParses(raw) then BadDuration else if raw.id == "" then EmptyTaskId else DuplicateTask(raw.id)
  }

  /** Task `i` is the first that cannot be added, for the reason `e`. */
  ghost predicate FirstRejected(raw: RawDag, i: int, e: DagError) {
    && 0 <= i < |raw.tasks| && !Accepted(raw, i) && e == TaskError(raw.tasks[i])
    && forall j :: 0 <= j < i ==> Accepted(raw, j)
  }

  ghost predicate AllAccepted(raw: RawDag) {
    forall i :: 0 <= i < |raw.tasks| ==> Accepted(raw, i)
  }

  /** The loop of `buildDAG` over the task records. */
  method AddTasks(raw: RawDag, d: DAG) returns (r: Result<(), DagError>)
    requires d.Valid() && d.tasks == map[] && d.config.defaultRetry == DefaultRetry(raw)
    modifies d`tasks
    ensures d.Valid()
    ensures r.Ok? <==> AllAccepted(raw)
    ensures r.Ok? ==> Holds(raw, |raw.tasks|, d.tasks)
    ensures r.Err? ==> exists i :: FirstRejected(raw, i, r.error)
  {
    hide TaskAsWritten, RetryDurations, TaskMeaning;
    var i := 0;
    while i < |raw.tasks|
      invariant 0 <= i <= |raw.tasks| && d.Valid()
      invariant Holds(raw, i, d.tasks)
      invariant forall j :: 0 <= j < i ==> Accepted(raw, j)
    {
      var task := BuildTask(raw.tasks[i], d.config.defaultRetry);
      if task.Err? {
        assert FirstRejected(raw, i, task.error);
        return Err(task.error);
      }
      r := d.AddTask(task.value);
      if r.Err? {
        assert FirstRejected(raw, i, r.error);
        return;
      }
      i := i + 1;
    }
    return Ok(());
  }

  /** What acceptance of `raw` as `d` means. */
  ghost predicate Built(raw: RawDag, d: DAG)
    reads d
  {
    && d.Valid() && d.Relation() == RawGraph(raw)
    && d.id == raw.id && d.name == raw.name && d.version == (if raw.version == 0 then 1 else raw.version)
    && d.config == ConfigMeaning(raw)
    && Holds(raw, |raw.tasks|, d.tasks) && Inverts(d.tasks, d.tasks.Keys, d.edges)
  }

  /** What the tasks as a whole must satisfy. */
  ghost predicate Coherent(raw: RawDag) {
    && raw.id != "" && raw.tasks != [] && Closed(RawGraph(raw)) && Acyclic(RawGraph(raw))
    && (forall i :: 0 <= i < |raw.tasks| ==> raw.tasks[i].executor != "")
  }

  /** The first of the checks on the tasks as a whole that fails, and what it reports. */
  ghost predicate Rejects(raw: RawDag, e: DagError) {
    var g := RawGraph(raw);
    match e
    case UnknownDependency(t, dep) => (dep, t) in g.arcs && t in g.nodes && dep !in g.nodes
    case EmptyDagId => Closed(g) && raw.id == ""
    case NoTasks => Closed(g) && raw.id != "" && raw.tasks == []
    case CycleFound(path) => Closed(g) && raw.id != "" && raw.tasks != [] && ReverseCycle(g, path)
    case NoExecutor(t) =>
      && Closed(g) && raw.id != "" && raw.tasks != [] && Acyclic(g)
      && exists i :: 0 <= i < |raw.tasks| && raw.tasks[i].id == t && raw.tasks[i].executor == ""
    case _ => false
  }

  /** The checks exclude one another, so each error is reported exactly when its check is the first to fail. */
  lemma RejectsExactly(raw: RawDag, e: DagError)
    requires Rejects(raw, e)
    ensures !Coherent(raw)
    ensures e.UnknownDependency? <==> !Closed(RawGraph(raw))
    ensures e == EmptyDagId <==> Closed(RawGraph(raw)) && raw.id == ""
    ensures e == NoTasks <==> Closed(RawGraph(raw)) && raw.id != "" && raw.tasks == []
    ensures e.CycleFound? <==> Closed(RawGraph(raw)) && raw.id != "" && raw.tasks != [] && !Acyclic(RawGraph(raw))
    ensures e.NoExecutor? <==> Closed(RawGraph(raw)) && raw.id != "" && raw.tasks != [] && Acyclic(RawGraph(raw))
  {
    hide RawGraph;
    if e.CycleFound? {
      ReverseCycleIsCycle(RawGraph(raw), e.path);
    }
  }

  /** The end of `buildDAG`: link, then validate. */
  method LinkAndValidate(raw: RawDag, d: DAG) returns (r: Result<(), DagError>)
    requires d.Valid() && d.id == raw.id && Holds(raw, |raw.tasks|, d.tasks)
    modifies d`edges
    ensures r.Ok? <==> Coherent(raw)
    ensures r.Ok? ==> d.Valid() && d.Relation() == RawGraph(raw) && Inverts(d.tasks, d.tasks.Keys, d.edges)
    ensures r.Err? ==> Rejects(raw, r.error)
  {
    hide Holds, RawGraph, Inverts, Acyclic, ReverseCycle, EdgesClosed, Depicts;
    HoldsGraph(raw, d.tasks);
    HoldsExecutors(raw, d.tasks);
    DependenciesExist(d.tasks);
    r := d.BuildEdgesFromDependencies();
    if r.Err? {
      return;
    }
    r := d.Validate();
    if r.Err? && r.error.NoExecutor? {
      LacksExecutor(raw, d.tasks, r.error.id);
    }
  }

  lemma LacksExecutor(raw: RawDag, tasks: Tasks, k: Id)
    requires Holds(raw, |raw.tasks|, tasks) && k in tasks && tasks[k].executor == ""
    ensures exists i :: 0 <= i < |raw.tasks| && raw.tasks[i].id == k && raw.tasks[i].executor == ""
  {
  }

  method BuildDAG(raw: RawDag) returns (r: Result<DAG, DagError>)
    ensures r.Ok? <==> Buildable(raw)
    ensures r.Ok? <==> Acceptable(raw)
    ensures r.Ok? ==> fresh(r.value) && Built(raw, r.value)
    ensures r.Ok? ==> ConfigAsWritten(raw.config, r.value.config)
    ensures r.Ok? ==> r.value.id == raw.id && r.value.name == raw.name
    ensures r.Ok? && raw.version != 0 ==> r.value.version == raw.version
    ensures r.Ok? && raw.version == 0 ==> r.value.version == 1
    ensures r.Ok? ==> forall i :: 0 <= i < |raw.tasks| ==>
      && raw.tasks[i].id in r.value.tasks
      && TaskAsWritten(raw.tasks[i], r.value.config.defaultRetry, r.value.tasks[raw.tasks[i].id])
    ensures !ConfigParses(raw) ==> r == Err(BadDuration)
    ensures ConfigParses(raw) && !AllAccepted(raw) ==> r.Err? && exists i :: FirstRejected(raw, i, r.error)
    ensures ConfigParses(raw) && AllAccepted(raw) && r.Err? ==> Rejects(raw, r.error)
  {
    hide Holds, Inverts, AllAccepted, Coherent, FirstRejected, RawGraph, Rejects, Acceptable, TaskAsWritten,
         ConfigAsWritten;
    BuildableByFields(raw);
    var d := new DAG(raw.id, raw.name);
    d.version := raw.version;
    if d.version == 0 {
      d.version := 1;
    }
    var config := BuildConfig(raw);
    if config.Err? {
      return Err(config.error);
    }
    d.config := config.value;
    var added := AddTasks(raw, d);
    if added.Err? {
      return Err(added.error);
    }
    var checked := LinkAndValidate(raw, d);
    if checked.Err? {
      return Err(checked.error);
    }
    BuiltByFields(raw, d);
    return Ok(d);
  }

  /**
   The `validate` command: build, then sort.  It reports a definition valid exactly when the record is acceptable;
   the sort never rejects what the builder let through, and the order shown depends on the record alone.
   */
  method ValidateCommand(raw: RawDag) returns (r: Result<seq<Task>, DagError>)
    ensures r.Ok? <==> Buildable(raw)
    ensures r.Ok? <==> Acceptable(raw)
    ensures r.Ok? ==> KahnOrder(RawGraph(raw), Ids(r.value))
    ensures r.Ok? ==> TopologicalOrder(RawGraph(raw), Ids(r.value)) && PlacedByPreds(RawGraph(raw), Ids(r.value))
  {
    hide Acceptable, TaskAsWritten, ConfigAsWritten, PlacedByPreds;
    var d := BuildDAG(raw);
    if d.Err? {
      return Err(d.error);
    }
    r := d.value.TopologicalSort();
  }
}
