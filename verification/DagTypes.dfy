/** The values of package `dag`: statuses, tasks, retry policies and the errors its operations report. */
module DagTypes {
  import opened Ordering
  import opened Graphs

  datatype Option<+T> = None | Some(value: T)

  datatype Result<+T, +E> = Ok(value: T) | Err(error: E)

  datatype Status = Pending | Queued | Running | Success | Failed | Cancelled | Skipped | UpForRetry {
    predicate IsTerminal() {
      this in {Success, Failed, Cancelled, Skipped}
    }
  }

  /** Durations are in nanoseconds. */
  datatype RetryPolicy = RetryPolicy(
    maxRetries: int, initialBackoff: int, maxBackoff: int, backoffFactor: real, retryOn: seq<string>)

  datatype Task = Task(
    id: Id, name: string, executor: string, retryPolicy: Option<RetryPolicy>, timeout: int,
    dependencies: seq<Id>, priority: int)

  datatype DagError =
    | EmptyTaskId
    | DuplicateTask(id: Id)
    | UnknownUpstream(id: Id)
    | UnknownDownstream(id: Id)
    | UnknownDependency(task: Id, dep: Id)
    | EmptyDagId
    | NoTasks
    | UnknownEdgeSource(from: Id)
    | UnknownEdgeTarget(to: Id, from: Id)
    | CycleFound(path: seq<Id>)
    | NoExecutor(id: Id)
    | SortIncomplete(found: nat, total: nat)
    | BadDuration

  type Tasks = map<Id, Task>
  type Edges = map<Id, seq<Id>>

  /** Every task is filed under its own, non-empty ID. */
  ghost predicate KeyedById(tasks: Tasks) {
    forall k :: k in tasks ==> k != "" && tasks[k].id == k
  }

  /** Reading a Go map yields the zero value for a missing key: no edges, and status Pending. */
  function Succ(edges: Edges, u: Id): seq<Id> {
    if u in edges then edges[u] else []
  }

  function StatusOf(statuses: map<Id, Status>, id: Id): Status {
    if id in statuses then statuses[id] else Pending
  }

  /** All that `task` depends on has succeeded. */
  predicate DepsSucceeded(statuses: map<Id, Status>, task: Task) {
    forall dep :: dep in task.dependencies ==> StatusOf(statuses, dep) == Success
  }

  ghost predicate EdgesClosed(nodes: set<Id>, edges: Edges) {
    forall u, v {:trigger v in Succ(edges, u)} :: v in Succ(edges, u) ==> u in nodes && v in nodes
  }

  /** Every key of the edge map is a task too, even one with an empty target list. */
  ghost predicate KeysClosed(nodes: set<Id>, edges: Edges) {
    edges.Keys <= nodes && EdgesClosed(nodes, edges)
  }

  /** The relation that an edge map describes. */
  function GraphOf(nodes: set<Id>, edges: Edges): (g: Graph)
    ensures g.nodes == nodes
    ensures forall u, v :: (u, v) in g.arcs <==> v in Succ(edges, u)
    ensures EdgesClosed(nodes, edges) ==> Closed(g)
  {
    var arcs := set u, v | u in edges && v in edges[u] :: (u, v);
    assert forall a :: a in arcs ==> a.1 in Succ(edges, a.0);
    Graph(nodes, arcs)
  }

  /** `g` is the relation listed in `edges`. */
  ghost predicate Depicts(g: Graph, edges: Edges) {
    Closed(g) && forall u, v :: (u, v) in g.arcs <==> v in Succ(edges, u)
  }

  /** The relation that the tasks' own dependency lists describe. */
  function DependencyGraph(tasks: Tasks): (g: Graph)
    ensures g.nodes == tasks.Keys
    ensures forall u, v :: (u, v) in g.arcs <==> v in tasks && u in tasks[v].dependencies
  {
    var arcs := set v, u | v in tasks && u in tasks[v].dependencies :: (u, v);
    Graph(tasks.Keys, arcs)
  }

  function Ids(ts: seq<Task>): (r: seq<Id>)
    ensures |r| == |ts|
    ensures forall i :: 0 <= i < |ts| ==> r[i] == ts[i].id
  {
    seq(|ts|, i requires 0 <= i < |ts| => ts[i].id)
  }

  /** `ts` lists tasks of the DAG, each as stored. */
  ghost predicate FromTasks(tasks: Tasks, ts: seq<Task>) {
    forall t :: t in ts ==> t.id in tasks && tasks[t.id] == t
  }

  lemma SameIds(a: seq<Task>, b: seq<Task>)
    requires forall t :: t in a <==> t in b
    ensures forall k :: k in Ids(a) <==> k in Ids(b)
  {
    forall k ensures k in Ids(a) <==> k in Ids(b) {
      if k in Ids(a) {
        var i :| 0 <= i < |a| && a[i].id == k;
        assert a[i] in b;
      }
      if k in Ids(b) {
        var i :| 0 <= i < |b| && b[i].id == k;
        assert b[i] in a;
      }
    }
  }

  lemma IdsSnoc(tasks: Tasks, ts: seq<Task>, k: Id)
    requires KeyedById(tasks) && k in tasks && FromTasks(tasks, ts)
    ensures Ids(ts + [tasks[k]]) == Ids(ts) + [k]
    ensures FromTasks(tasks, ts + [tasks[k]])
  {
  }

  // ---------------------------------------------------------------- counting edges

  /** How often `v` is listed as a successor of `u`. */
  ghost function Mult(edges: Edges, u: Id, v: Id): nat {
    multiset(Succ(edges, u))[v]
  }

  /** The number of edges into `v`, with multiplicity, that leave members of `s`. */
  ghost function EdgesInto(edges: Edges, s: set<Id>, v: Id): nat {
    if s == {} then 0
    else
      var u :| u in s;
      Mult(edges, u, v) + EdgesInto(edges, s - {u}, v)
  }

  lemma {:induction false} EdgesIntoRemove(edges: Edges, s: set<Id>, u: Id, v: Id)
    requires u in s
    ensures EdgesInto(edges, s, v) == Mult(edges, u, v) + EdgesInto(edges, s - {u}, v)
  {
    var w :| w in s && EdgesInto(edges, s, v) == Mult(edges, w, v) + EdgesInto(edges, s - {w}, v);
    if w == u {
    } else {
      EdgesIntoRemove(edges, s - {w}, u, v);
      EdgesIntoRemove(edges, s - {u}, w, v);
      assert s - {w} - {u} == s - {u} - {w};
    }
  }

  lemma EdgesIntoGrows(edges: Edges, s: set<Id>, u: Id)
    requires u !in s
    ensures forall v :: EdgesInto(edges, s + {u}, v) == EdgesInto(edges, s, v) + Mult(edges, u, v)
  {
    assert s + {u} - {u} == s;
    forall v ensures EdgesInto(edges, s + {u}, v) == EdgesInto(edges, s, v) + Mult(edges, u, v) {
      EdgesIntoRemove(edges, s + {u}, u, v);
    }
  }

  lemma {:induction false} EdgesIntoZero(edges: Edges, s: set<Id>, v: Id)
    ensures EdgesInto(edges, s, v) == 0 <==> forall u :: u in s ==> v !in Succ(edges, u)
  {
    if s == {} {
    } else {
      var u :| u in s;
      EdgesIntoRemove(edges, s, u, v);
      EdgesIntoZero(edges, s - {u}, v);
      assert v in Succ(edges, u) <==> v in multiset(Succ(edges, u));
    }
  }

  /** Only members that have edges matter. */
  lemma {:induction false} EdgesIntoKeys(edges: Edges, s: set<Id>, v: Id)
    requires edges.Keys <= s
    ensures EdgesInto(edges, s, v) == EdgesInto(edges, edges.Keys, v)
  {
    if s <= edges.Keys {
      assert s == edges.Keys;
    } else {
      var u :| u in s && u !in edges.Keys;
      EdgesIntoRemove(edges, s, u, v);
      EdgesIntoKeys(edges, s - {u}, v);
    }
  }

  // ---------------------------------------------------------------- sorted task lists

  predicate TaskBefore(a: Task, b: Task) {
    IdLess(a.id, b.id)
  }

  /** Higher priority first, then by ID. */
  predicate ReadyBefore(a: Task, b: Task) {
    a.priority > b.priority || (a.priority == b.priority && IdLess(a.id, b.id))
  }

  /** `a` goes before `b`: its priority is higher, or the same and its ID lexicographically smaller. */
  ghost predicate GoesBefore(a: Task, b: Task) {
    a.priority > b.priority || (a.priority == b.priority && Precedes(a.id, b.id))
  }

  lemma ReadyBeforeByFields(a: Task, b: Task)
    ensures ReadyBefore(a, b) <==> GoesBefore(a, b)
  {
    IdLessIsLexicographic(a.id, b.id);
  }

  /** By falling priority, and in ID order where priorities are equal. */
  ghost predicate ByPriority(ts: seq<Task>) {
    forall i, j :: 0 <= i < j < |ts| ==> GoesBefore(ts[i], ts[j])
  }

  lemma SortedByPriority(ts: seq<Task>)
    ensures StrictlySorted(ReadyBefore, ts) <==> ByPriority(ts)
  {
    forall i, j | 0 <= i < j < |ts| ensures ReadyBefore(ts[i], ts[j]) <==> GoesBefore(ts[i], ts[j]) {
      ReadyBeforeByFields(ts[i], ts[j]);
    }
  }

  lemma SortedById(ts: seq<Task>)
    requires StrictlySorted(TaskBefore, ts)
    ensures Lexicographic(Ids(ts))
  {
    forall i, j | 0 <= i < j < |ts| ensures Precedes(ts[i].id, ts[j].id) {
      assert TaskBefore(ts[i], ts[j]);
      IdLessIsLexicographic(ts[i].id, ts[j].id);
    }
  }

  lemma TaskOrders()
    ensures StrictWeak(TaskBefore) && StrictWeak(ReadyBefore)
    ensures forall a, b :: TaskBefore(a, b) || TaskBefore(b, a) || a.id == b.id
    ensures forall a, b :: ReadyBefore(a, b) || ReadyBefore(b, a) || a.id == b.id
  {
    IdOrder();
  }

  /** `sort.Slice` by a comparison that separates different IDs, on a list without repeated IDs. */
  lemma SortTasks(before: (Task, Task) -> bool, ts: seq<Task>)
    requires StrictWeak(before)
    requires forall a, b :: before(a, b) || before(b, a) || a.id == b.id
    requires Distinct(Ids(ts))
    ensures StrictlySorted(before, Sort(before, ts))
    ensures forall t :: t in Sort(before, ts) <==> t in ts
  {
    assert forall i, j :: 0 <= i < j < |ts| ==> Ids(ts)[i] != Ids(ts)[j];
    SortStrictly(before, ts);
    MultisetMembers(Sort(before, ts), ts);
  }
}
