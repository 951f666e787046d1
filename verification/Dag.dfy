/** Class DAG of pkg/dag/dag.go: the task and edge maps, and the graph algorithms that run on them. */
module Dag {
  import opened Ordering
  import opened Graphs
  import opened KahnOrders
  import opened KahnRun
  import opened DagTypes
  import opened DagSearch
  import opened EdgeMaps

  datatype DagConfig = DagConfig(
    maxConcurrency: int, timeout: int, slaDuration: int, defaultRetry: Option<RetryPolicy>, owner: string)

  /** `task` waits, and every task it depends on has succeeded. */
  predicate IsReady(statuses: map<Id, Status>, task: Task) {
    StatusOf(statuses, task.id) == Pending && DepsSucceeded(statuses, task)
  }

  /** The tasks ready under `statuses`, highest priority first and then by ID. */
  ghost predicate ReadyListing(tasks: Tasks, statuses: map<Id, Status>, ready: seq<Task>) {
    && StrictlySorted(ReadyBefore, ready)
    && forall t :: t in ready <==> t.id in tasks && tasks[t.id] == t && IsReady(statuses, t)
  }

  lemma ReadyListingUnique(tasks: Tasks, statuses: map<Id, Status>, a: seq<Task>, b: seq<Task>)
    requires ReadyListing(tasks, statuses, a) && ReadyListing(tasks, statuses, b)
    ensures a == b
  {
    TaskOrders();
    SortedListingUnique(ReadyBefore, a, b);
  }

  /** Everything `Validate` checks. */
  ghost predicate WellFormed(id: string, tasks: Tasks, edges: Edges) {
    && id != "" && tasks != map[]
    && KeysClosed(tasks.Keys, edges) && Acyclic(GraphOf(tasks.Keys, edges))
    && forall k :: k in tasks ==> tasks[k].executor != ""
  }

  /** The sorted sequence is fixed by the tasks and the edges as multisets: map iteration has no say in it. */
  lemma SortedSequenceUnique(tasks: Tasks, a: Edges, b: Edges, ra: seq<Task>, rb: seq<Task>)
    requires KeysClosed(tasks.Keys, a) && SameEdges(a, b) && FromTasks(tasks, ra) && FromTasks(tasks, rb)
    requires KahnOrder(GraphOf(tasks.Keys, a), Ids(ra)) && KahnOrder(GraphOf(tasks.Keys, b), Ids(rb))
    ensures ra == rb
  {
    hide KahnOrder;
    SameEdgesSameGraph(tasks.Keys, a, b);
    KahnOrderUnique(GraphOf(tasks.Keys, a), Ids(ra), Ids(rb));
    assert |ra| == |Ids(ra)| == |rb|;
    forall i | 0 <= i < |ra| ensures ra[i] == rb[i] {
      assert ra[i] in ra && rb[i] in rb && Ids(ra)[i] == Ids(rb)[i];
    }
  }

  lemma NextTarget(targets: seq<Id>, i: nat)
    requires i < |targets|
    ensures multiset(targets[..i + 1]) == multiset(targets[..i]) + multiset{targets[i]}
    ensures multiset(targets[..i])[targets[i]] < multiset(targets)[targets[i]]
    ensures forall v :: v in targets[..i + 1] <==> v in targets[..i] || v == targets[i]
  {
    assert targets == targets[..i] + [targets[i]] + targets[i + 1..];
    assert targets[..i + 1] == targets[..i] + [targets[i]];
  }

  /** One taken off for each of the first `i` targets. */
  ghost predicate Lowered(targets: seq<Id>, i: nat, inDegree: map<Id, int>, degrees: map<Id, int>) {
    && i <= |targets| && degrees.Keys == inDegree.Keys
    && forall v :: v in degrees ==> degrees[v] == inDegree[v] - multiset(targets[..i])[v]
  }

  /** Among the first `i` targets, `freed` are those that have dropped to zero. */
  ghost predicate Freed(targets: seq<Id>, i: nat, degrees: map<Id, int>, freed: seq<Id>) {
    i <= |targets| && Ascending(freed)
    && forall v :: v in freed <==> v in targets[..i] && v in degrees && degrees[v] == 0
  }

  lemma NothingLowered(targets: seq<Id>, inDegree: map<Id, int>)
    ensures Lowered(targets, 0, inDegree, inDegree) && Freed(targets, 0, inDegree, [])
  {
  }

  lemma AllLowered(targets: seq<Id>, inDegree: map<Id, int>, degrees: map<Id, int>, freed: seq<Id>)
    requires Lowered(targets, |targets|, inDegree, degrees) && Freed(targets, |targets|, degrees, freed)
    ensures degrees.Keys == inDegree.Keys && Ascending(freed)
    ensures forall v :: v in degrees ==> degrees[v] == inDegree[v] - multiset(targets)[v]
    ensures forall v :: v in freed <==> v in targets && v in degrees && degrees[v] == 0
  {
    assert targets[..|targets|] == targets;
  }

  lemma LowersNext(targets: seq<Id>, i: nat, inDegree: map<Id, int>, degrees: map<Id, int>)
    requires i < |targets| && targets[i] in inDegree && Lowered(targets, i, inDegree, degrees)
    ensures targets[i] in degrees && Lowered(targets, i + 1, inDegree, degrees[targets[i] := degrees[targets[i]] - 1])
  {
    NextTarget(targets, i);
  }

  lemma FreesNext(targets: seq<Id>, i: nat, inDegree: map<Id, int>, degrees: map<Id, int>, freed: seq<Id>)
    requires i < |targets| && targets[i] in inDegree && inDegree[targets[i]] >= multiset(targets)[targets[i]]
    requires Lowered(targets, i, inDegree, degrees) && Freed(targets, i, degrees, freed)
    requires forall i, j :: 0 <= i < j < |targets| ==> targets[i] == targets[j] || IdLess(targets[i], targets[j])
    ensures var next, degrees' := targets[i], degrees[targets[i] := degrees[targets[i]] - 1];
            Freed(targets, i + 1, degrees', if degrees'[next] == 0 then freed + [next] else freed)
  {
    hide IdLess;
    var next := targets[i];
    NextTarget(targets, i);
    assert degrees[next] > 0;
    forall x | x in freed ensures x != next && IdLess(x, next) {
      var j :| 0 <= j < i && targets[j] == x;
    }
  }

  class DAG {
    var id: string
    var name: string
    var tasks: Tasks
    var edges: Edges
    var config: DagConfig
    var version: int

    /** What the constructors and editing methods keep: tasks filed by ID, edges between tasks. */
    ghost predicate Valid()
      reads this
    {
      KeyedById(tasks) && KeysClosed(tasks.Keys, edges)
    }

    ghost function Relation(): Graph
      reads this
    {
      GraphOf(tasks.Keys, edges)
    }

    constructor (id: string, name: string)
      ensures Valid() && this.id == id && this.name == name && tasks == map[] && edges == map[]
      ensures config == DagConfig(16, 0, 0, None, "") && version == 1
    {
      this.id, this.name := id, name;
      tasks, edges := map[], map[];
      config := DagConfig(16, 0, 0, None, "");
      version := 1;
    }

    method AddTask(task: Task) returns (r: Result<(), DagError>)
      requires Valid()
      modifies this`tasks
      ensures Valid()
      ensures r.Ok? <==> task.id != "" && task.id !in old(tasks)
      ensures r.Ok? ==> tasks == old(tasks)[task.id := task]
      ensures r.Err? ==> tasks == old(tasks)
      ensures r.Err? ==> r.error == if task.id == "" then EmptyTaskId else DuplicateTask(task.id)
    {
      if task.id == "" {
        return Err(EmptyTaskId);
      }
      if task.id in tasks {
        return Err(DuplicateTask(task.id));
      }
      tasks := tasks[task.id := task];
      return Ok(());
    }

    method AddEdge(from: Id, to: Id) returns (r: Result<(), DagError>)
      requires Valid()
      modifies this`edges
      ensures Valid()
      ensures r.Ok? <==> from in tasks && to in tasks
      ensures r.Ok? ==> edges == old(edges)[from := Succ(old(edges), from) + [to]]
      ensures r.Err? ==> edges == old(edges)
      ensures r.Err? ==> r.error == if from !in tasks then UnknownUpstream(from) else UnknownDownstream(to)
    {
      if from !in tasks {
        return Err(UnknownUpstream(from));
      }
      if to !in tasks {
        return Err(UnknownDownstream(to));
      }
      AppendedClosed(tasks.Keys, edges, from, to);
      edges := Appended(edges, from, to);
      return Ok(());
    }

    /** Inverts the dependency lists; a dependency listed twice becomes an edge listed twice. */
    method BuildEdgesFromDependencies() returns (r: Result<(), DagError>)
      requires KeyedById(tasks)
      modifies this`edges
      ensures Valid()
      ensures r.Ok? <==> forall t, dep :: t in tasks && dep in tasks[t].dependencies ==> dep in tasks
      ensures r.Ok? ==> Inverts(tasks, tasks.Keys, edges) && Relation() == DependencyGraph(tasks)
      ensures r.Err? ==> r.error.UnknownDependency? && r.error.task in tasks && r.error.dep !in tasks
                         && r.error.dep in tasks[r.error.task].dependencies
    {
      edges := map[];
      var todo := tasks.Keys;
      while todo != {}
        invariant todo <= tasks.Keys && KeysClosed(tasks.Keys, edges)
        invariant Inverts(tasks, tasks.Keys - todo, edges)
        invariant forall t, dep :: t in tasks.Keys - todo && dep in tasks[t].dependencies ==> dep in tasks
        decreases todo
      {
        var k :| k in todo;
        r := LinkDependencies(tasks[k], tasks.Keys - todo);
        if r.Err? {
          return;
        }
        assert tasks.Keys - (todo - {k}) == (tasks.Keys - todo) + {k};
        todo := todo - {k};
      }
      assert tasks.Keys - todo == tasks.Keys;
      InvertsGraph(tasks, edges);
      r := Ok(());
    }

    /** One round of that loop: the edges into one task. */
    method LinkDependencies(task: Task, ghost done: set<Id>) returns (r: Result<(), DagError>)
      requires KeyedById(tasks) && KeysClosed(tasks.Keys, edges) && task.id in tasks && tasks[task.id] == task
      requires done <= tasks.Keys && task.id !in done && Inverts(tasks, done, edges)
      modifies this`edges
      ensures KeysClosed(tasks.Keys, edges)
      ensures r.Ok? <==> forall dep :: dep in task.dependencies ==> dep in tasks
      ensures r.Ok? ==> Inverts(tasks, done + {task.id}, edges)
      ensures r.Err? ==> r.error.UnknownDependency? && r.error.task == task.id && r.error.dep !in tasks
                         && r.error.dep in task.dependencies
    {
      ghost var before := edges;
      var i := 0;
      while i < |task.dependencies|
        invariant 0 <= i <= |task.dependencies| && KeysClosed(tasks.Keys, edges)
        invariant forall j :: 0 <= j < i ==> task.dependencies[j] in tasks
        invariant Adds(before, edges, task.id, multiset(task.dependencies[..i]))
      {
        var dep := task.dependencies[i];
        if dep !in tasks {
          return Err(UnknownDependency(task.id, dep));
        }
        assert task.dependencies[..i + 1] == task.dependencies[..i] + [dep];
        AddsOne(before, edges, task.id, multiset(task.dependencies[..i]), dep);
        AppendedClosed(tasks.Keys, edges, dep, task.id);
        edges := Appended(edges, dep, task.id);
        i := i + 1;
      }
      assert task.dependencies[..i] == task.dependencies;
      AddsInverts(tasks, done, before, edges, task.id);
      r := Ok(());
    }

    // -------------------------------------------------------------- in-degrees

    /** The degree-counting loops of `TopologicalSort` and `GetRoots`. */
    method CountInDegrees() returns (inDegree: map<Id, int>)
      requires Valid()
      ensures inDegree.Keys == tasks.Keys
      ensures forall v :: v in tasks ==> inDegree[v] == EdgesInto(edges, tasks.Keys, v)
    {
      inDegree := map k | k in tasks :: 0;
      var todo := edges.Keys;
      ghost var done: set<Id> := {};
      while todo != {}
        invariant done + todo == edges.Keys && done !! todo && inDegree.Keys == tasks.Keys
        invariant forall v :: v in inDegree ==> inDegree[v] == EdgesInto(edges, done, v)
        decreases todo
      {
        var u :| u in todo;
        inDegree := CountTargets(inDegree, Succ(edges, u));
        EdgesIntoGrows(edges, done, u);
        todo, done := todo - {u}, done + {u};
      }
      forall v | v in inDegree ensures inDegree[v] == EdgesInto(edges, tasks.Keys, v) {
        EdgesIntoKeys(edges, tasks.Keys, v);
      }
    }

    method CountTargets(inDegree: map<Id, int>, targets: seq<Id>) returns (r: map<Id, int>)
      requires forall t :: t in targets ==> t in inDegree
      ensures r.Keys == inDegree.Keys
      ensures forall v :: v in r ==> r[v] == inDegree[v] + multiset(targets)[v]
    {
      r := inDegree;
      var i := 0;
      while i < |targets|
        invariant 0 <= i <= |targets| && r.Keys == inDegree.Keys
        invariant forall v :: v in r ==> r[v] == inDegree[v] + multiset(targets[..i])[v]
      {
        assert targets[..i + 1] == targets[..i] + [targets[i]];
        r := r[targets[i] := r[targets[i]] + 1];
        i := i + 1;
      }
      assert targets[..i] == targets;
    }

    /** The keys with count zero, in whatever order the map yields them. */
    method ZeroDegrees(inDegree: map<Id, int>) returns (ids: seq<Id>)
      ensures Distinct(ids)
      ensures forall v :: v in ids <==> v in inDegree && inDegree[v] == 0
    {
      ids := [];
      var todo := inDegree.Keys;
      while todo != {}
        invariant todo <= inDegree.Keys && Distinct(ids)
        invariant forall v :: v in ids <==> v in inDegree.Keys - todo && inDegree[v] == 0
        decreases todo
      {
        var v :| v in todo;
        if inDegree[v] == 0 {
          ids := ids + [v];
        }
        todo := todo - {v};
      }
    }

    /** The inner loop of `TopologicalSort`: one in-degree less per edge, and what drops to zero joins the queue. */
    method LowerDegrees(targets: seq<Id>, inDegree: map<Id, int>, queue: seq<Id>)
      returns (degrees: map<Id, int>, rest: seq<Id>, ghost freed: seq<Id>)
      requires forall t :: t in targets ==> t in inDegree && inDegree[t] >= multiset(targets)[t]
      requires forall i, j :: 0 <= i < j < |targets| ==> targets[i] == targets[j] || IdLess(targets[i], targets[j])
      ensures degrees.Keys == inDegree.Keys
      ensures forall v :: v in degrees ==> degrees[v] == inDegree[v] - multiset(targets)[v]
      ensures rest == queue + freed && Ascending(freed)
      ensures forall v :: v in freed <==> v in targets && v in degrees && degrees[v] == 0
    {
      hide Lowered, Freed, IdLess;
      degrees, rest, freed := inDegree, queue, [];
      NothingLowered(targets, inDegree);
      var i := 0;
      while i < |targets|
        invariant 0 <= i <= |targets| && rest == queue + freed
        invariant Lowered(targets, i, inDegree, degrees) && Freed(targets, i, degrees, freed)
      {
        var next := targets[i];
        LowersNext(targets, i, inDegree, degrees);
        FreesNext(targets, i, inDegree, degrees, freed);
        degrees := degrees[next := degrees[next] - 1];
        if degrees[next] == 0 {
          rest := rest + [next];
          freed := freed + [next];
        }
        i := i + 1;
      }
      AllLowered(targets, inDegree, degrees, freed);
    }

    /** `sort.Strings` on the slice stored under `current`, in place. */
    method SortTargets(current: Id, ghost e0: Edges, ghost done: set<Id>) returns (targets: seq<Id>)
      requires edges == SortedAt(e0, done) && current !in done
      modifies this`edges
      ensures edges == SortedAt(e0, done + {current})
      ensures multiset(targets) == multiset(Succ(e0, current))
      ensures forall i, j :: 0 <= i < j < |targets| ==> targets[i] == targets[j] || IdLess(targets[i], targets[j])
    {
      targets := SortIds(Succ(edges, current));
      if current in edges {
        edges := edges[current := targets];
      }
    }

    /** The rest of a round of `TopologicalSort`, once `queue[0]` is emitted. */
    method ReleaseTargets(ghost g: Graph, ghost e0: Edges, ghost order: seq<Id>, inDegree: map<Id, int>, queue: seq<Id>)
      returns (degrees: map<Id, int>, rest: seq<Id>)
      requires edges == SortedAt(e0, Emitted(order)) && Depicts(g, e0)
      requires queue != [] && SortState(g, e0, order, queue, inDegree)
      modifies this`edges
      ensures edges == SortedAt(e0, Emitted(order + [queue[0]]))
      ensures SortState(g, e0, order + [queue[0]], rest, degrees)
    {
      FrontierHead(g, order, queue);
      assert Emitted(order + [queue[0]]) == Emitted(order) + {queue[0]};
      var targets := SortTargets(queue[0], e0, Emitted(order));
      MultisetMembers(targets, Succ(e0, queue[0]));
      SortedBeforeRound(g, e0, order, queue, inDegree, targets);
      ghost var freed;
      degrees, rest, freed := LowerDegrees(targets, inDegree, queue[1..]);
      SortRound(g, e0, order, queue, inDegree, targets, degrees, freed);
    }

    /**
     Kahn's algorithm.  It emits exactly the tasks that no cycle leads to, and leaves their target lists sorted; the
     edges stay the same otherwise.
     */
    method TopologicalSort() returns (r: Result<seq<Task>, DagError>)
      requires Valid()
      modifies this`edges
      ensures Valid() && Relation() == old(Relation())
      ensures SameEdges(edges, old(edges)) && edges == SortedAt(old(edges), Sortable(Relation()))
      ensures r.Ok? <==> Acyclic(Relation())
      ensures r.Ok? ==> FromTasks(tasks, r.value) && KahnOrder(Relation(), Ids(r.value))
      ensures r.Ok? ==> TopologicalOrder(Relation(), Ids(r.value)) && PlacedByPreds(Relation(), Ids(r.value))
      ensures forall u :: u in edges ==>
        if u in Sortable(Relation()) then LexicographicOrSame(edges[u]) else edges[u] == old(edges)[u]
      ensures r.Err? ==> r.error == SortIncomplete(|Sortable(Relation())|, |tasks|)
    {
      ghost var g, e0 := Relation(), edges;
      var inDegree := CountInDegrees();
      var roots := ZeroDegrees(inDegree);
      SortStarts(g, edges, inDegree, roots);
      assert edges == SortedAt(e0, Emitted([]));
      var ordered := Drain(g, e0, inDegree, SortIds(roots));
      FrontierEnd(g, Ids(ordered));
      SortedAtSame(e0, Sortable(g));
      SameEdgesSameGraph(tasks.Keys, e0, edges);
      SortedAtByFields(e0, Sortable(g));
      KahnOrderByPositions(g, Ids(ordered));
      KeyCount(tasks);
      if |ordered| != |tasks| {
        return Err(SortIncomplete(|ordered|, |tasks|));
      }
      return Ok(ordered);
    }

    /** The main loop of `TopologicalSort`. */
    method Drain(ghost g: Graph, ghost e0: Edges, degrees: map<Id, int>, roots: seq<Id>) returns (ordered: seq<Task>)
      requires KeyedById(tasks) && g.nodes == tasks.Keys && Depicts(g, e0) && edges == SortedAt(e0, Emitted([]))
      requires SortState(g, e0, [], roots, degrees)
      modifies this`edges
      ensures edges == SortedAt(e0, Emitted(Ids(ordered)))
      ensures FromTasks(tasks, ordered) && Frontier(g, Ids(ordered), [])
    {
      var inDegree, queue := degrees, roots;
      ordered := [];
      ghost var order: seq<Id> := [];
      while queue != []
        invariant edges == SortedAt(e0, Emitted(order))
        invariant FromTasks(tasks, ordered) && Ids(ordered) == order
        invariant SortState(g, e0, order, queue, inDegree)
        decreases |g.nodes| - |ordered|
      {
        var current := queue[0];
        SortStateFits(g, e0, order, queue, inDegree);
        IdsSnoc(tasks, ordered, current);
        ordered := ordered + [tasks[current]];
        inDegree, queue := ReleaseTargets(g, e0, order, inDegree, queue);
        order := order + [current];
      }
    }

    // -------------------------------------------------------------- cycles

    /** The keys of a map, in whatever order `range` yields them. */
    method TaskIds() returns (ids: seq<Id>)
      ensures forall id :: id in ids <==> id in tasks
    {
      ids := [];
      var todo := tasks.Keys;
      while todo != {}
        invariant todo <= tasks.Keys
        invariant forall id :: id in ids <==> id in tasks.Keys - todo
        decreases todo
      {
        var id :| id in todo;
        ids := ids + [id];
        todo := todo - {id};
      }
    }

    /** Three-colour search: a closed walk when there is one, nothing exactly when the graph is acyclic. */
    method DetectCycle() returns (cycle: seq<Id>)
      requires KeyedById(tasks) && EdgesClosed(tasks.Keys, edges)
      ensures cycle == [] <==> Acyclic(Relation())
      ensures cycle != [] ==> ReverseCycle(Relation(), cycle)
    {
      ghost var g := Relation();
      var search := new CycleSearch(tasks.Keys, edges);
      var ids := TaskIds();
      ids := SortIds(ids);
      var found := search.SearchFrom(ids);
      if found {
        ReverseCycleIsCycle(g, search.cyclePath);
        return search.cyclePath;
      }
      FinishedIsAcyclic(g, search.finish);
      return [];
    }

    /** Reports the first failing check, in the order: ID, tasks, edge ends, cycles, executors. */
    method Validate() returns (r: Result<(), DagError>)
      requires KeyedById(tasks)
      ensures r.Ok? <==> WellFormed(id, tasks, edges)
      ensures r == Err(EmptyDagId) <==> id == ""
      ensures r == Err(NoTasks) <==> id != "" && tasks == map[]
      ensures (r.Err? && (r.error.UnknownEdgeSource? || r.error.UnknownEdgeTarget?)) <==>
              id != "" && tasks != map[] && !KeysClosed(tasks.Keys, edges)
      ensures (r.Err? && r.error.CycleFound?) <==>
              id != "" && tasks != map[] && KeysClosed(tasks.Keys, edges) && !Acyclic(Relation())
      ensures r.Err? && r.error.CycleFound? ==> ReverseCycle(Relation(), r.error.path)
      ensures r.Err? && (r.error.UnknownEdgeSource? || r.error.UnknownEdgeTarget?) ==> StrayEnd(r.error)
      ensures r.Err? && r.error.NoExecutor? ==> r.error.id in tasks && tasks[r.error.id].executor == ""
      ensures r.Err? ==> r.error.EmptyDagId? || r.error.NoTasks? || r.error.UnknownEdgeSource?
                         || r.error.UnknownEdgeTarget? || r.error.CycleFound? || r.error.NoExecutor?
    {
      if id == "" {
        return Err(EmptyDagId);
      }
      if |tasks| == 0 {
        return Err(NoTasks);
      }
      r := CheckEdgeEnds();
      if r.Err? {
        return;
      }
      var cycle := DetectCycle();
      if |cycle| > 0 {
        return Err(CycleFound(cycle));
      }
      var todo := tasks.Keys;
      while todo != {}
        invariant todo <= tasks.Keys
        invariant forall k :: k in tasks.Keys - todo ==> tasks[k].executor != ""
        decreases todo
      {
        var k :| k in todo;
        if tasks[k].executor == "" {
          return Err(NoExecutor(tasks[k].id));
        }
        todo := todo - {k};
      }
      return Ok(());
    }

    /** The error names an edge end that is no task. */
    predicate StrayEnd(e: DagError)
      reads this
    {
      match e
      case UnknownEdgeSource(from) => from in edges && from !in tasks
      case UnknownEdgeTarget(to, from) => from in tasks && to in Succ(edges, from) && to !in tasks
      case _ => false
    }

    method CheckEdgeEnds() returns (r: Result<(), DagError>)
      ensures r.Ok? <==> KeysClosed(tasks.Keys, edges)
      ensures r.Err? ==> StrayEnd(r.error)
    {
      var todo := edges.Keys;
      while todo != {}
        invariant todo <= edges.Keys
        invariant forall u :: u in edges.Keys - todo ==> u in tasks && forall v :: v in edges[u] ==> v in tasks
        decreases todo
      {
        var from :| from in todo;
        if from !in tasks {
          return Err(UnknownEdgeSource(from));
        }
        var i := 0;
        while i < |edges[from]|
          invariant 0 <= i <= |edges[from]|
          invariant forall j :: 0 <= j < i ==> edges[from][j] in tasks
        {
          if edges[from][i] !in tasks {
            assert edges[from][i] in Succ(edges, from);
            return Err(UnknownEdgeTarget(edges[from][i], from));
          }
          i := i + 1;
        }
        todo := todo - {from};
      }
      r := Ok(());
    }

    // -------------------------------------------------------------- queries

    /** Tasks nothing leads to. */
    method GetRoots() returns (roots: seq<Task>)
      requires Valid()
      ensures Lexicographic(Ids(roots)) && FromTasks(tasks, roots)
      ensures forall v :: v in Ids(roots) <==> v in tasks && forall u :: (u, v) !in Relation().arcs
    {
      var inDegree := CountInDegrees();
      var ids := ZeroDegrees(inDegree);
      roots := TasksOf(ids);
      forall v | v in tasks ensures inDegree[v] == 0 <==> forall u :: (u, v) !in Relation().arcs {
        assert tasks.Keys - Emitted([]) == tasks.Keys;
        NoneLeft(Relation(), edges, [], v);
        assert AllPredsIn(Relation(), [], v) <==> forall u :: (u, v) !in Relation().arcs;
      }
    }

    /** Tasks that lead nowhere. */
    method GetLeaves() returns (leaves: seq<Task>)
      requires Valid()
      ensures Lexicographic(Ids(leaves)) && FromTasks(tasks, leaves)
      ensures forall u :: u in Ids(leaves) <==> u in tasks && forall v :: (u, v) !in Relation().arcs
    {
      var hasDownstream := set from | from in edges && |edges[from]| > 0;
      var ids: seq<Id> := [];
      var todo := tasks.Keys;
      while todo != {}
        invariant todo <= tasks.Keys && Distinct(ids)
        invariant forall k :: k in ids <==> k in tasks.Keys - todo && k !in hasDownstream
        decreases todo
      {
        var k :| k in todo;
        if k !in hasDownstream {
          ids := ids + [k];
        }
        todo := todo - {k};
      }
      leaves := TasksOf(ids);
      forall u | u in tasks ensures u !in hasDownstream <==> forall v :: (u, v) !in Relation().arcs {
        if u in hasDownstream {
          assert (u, edges[u][0]) in Relation().arcs;
        }
      }
    }

    /** Looks the IDs up and sorts by ID. */
    method TasksOf(ids: seq<Id>) returns (r: seq<Task>)
      requires KeyedById(tasks) && Distinct(ids) && forall k :: k in ids ==> k in tasks
      ensures Lexicographic(Ids(r)) && FromTasks(tasks, r)
      ensures forall k :: k in Ids(r) <==> k in ids
    {
      var all := tasks;
      assert forall i :: 0 <= i < |ids| ==> ids[i] in ids;
      var ts := seq(|ids|, i requires 0 <= i < |ids| => all[ids[i]]);
      assert Ids(ts) == ids;
      r := SortById(ts);
    }

    method SortById(ts: seq<Task>) returns (r: seq<Task>)
      requires FromTasks(tasks, ts) && Distinct(Ids(ts))
      ensures Lexicographic(Ids(r)) && FromTasks(tasks, r)
      ensures forall k :: k in Ids(r) <==> k in Ids(ts)
    {
      TaskOrders();
      SortTasks(TaskBefore, ts);
      r := Sort(TaskBefore, ts);
      SortedById(r);
      SameIds(r, ts);
    }

    /** Everything `taskID` leads to by one or more edges; an unknown ID leads nowhere. */
    method GetDownstream(taskID: Id) returns (r: seq<Task>)
      requires Valid()
      ensures Lexicographic(Ids(r)) && FromTasks(tasks, r)
      ensures forall v :: v in Ids(r) <==> Reach(Relation(), taskID, v)
    {
      var walker := new Walker(tasks, edges);
      walker.Walk(taskID);
      ReachedAll(walker.G(), taskID, walker.visited);
      r := SortById(walker.result);
    }

    /** Everything that leads to `taskID`: the same walk over the reversed edges. */
    method GetUpstream(taskID: Id) returns (r: seq<Task>)
      requires Valid()
      ensures Lexicographic(Ids(r)) && FromTasks(tasks, r)
      ensures forall u :: u in Ids(r) <==> Reach(Relation(), u, taskID)
    {
      var reverse := ReverseEdges();
      ReversedEdges(tasks.Keys, edges, reverse);
      var walker := new Walker(tasks, reverse);
      walker.Walk(taskID);
      ReachedAll(walker.G(), taskID, walker.visited);
      forall u ensures Reach(walker.G(), taskID, u) <==> Reach(Relation(), u, taskID) {
        ReversedReach(Relation(), u, taskID);
      }
      r := SortById(walker.result);
    }

    method ReverseEdges() returns (reverse: Edges)
      requires Valid()
      ensures forall u, v :: u in Succ(reverse, v) <==> v in Succ(edges, u)
    {
      reverse := map[];
      var todo := edges.Keys;
      while todo != {}
        invariant todo <= edges.Keys
        invariant forall u, v :: u in Succ(reverse, v) <==> u !in todo && v in Succ(edges, u)
        decreases todo
      {
        var from :| from in todo;
        var tos := edges[from];
        var i := 0;
        while i < |tos|
          invariant 0 <= i <= |tos|
          invariant forall u, v :: u in Succ(reverse, v) <==>
            (u !in todo && v in Succ(edges, u)) || (u == from && v in tos[..i])
        {
          assert tos[..i + 1] == tos[..i] + [tos[i]];
          AppendedSucc(reverse, tos[i], from);
          reverse := Appended(reverse, tos[i], from);
          i := i + 1;
        }
        assert tos[..i] == tos == Succ(edges, from);
        todo := todo - {from};
      }
    }

    /** The pending tasks whose dependencies have all succeeded. */
    method ReadyTasks(statuses: map<Id, Status>) returns (ready: seq<Task>)
      requires KeyedById(tasks)
      ensures ReadyListing(tasks, statuses, ready)
      ensures ByPriority(ready)
      ensures forall t :: t in ready <==>
        && t.id in tasks && tasks[t.id] == t && (t.id in statuses ==> statuses[t.id] == Pending)
        && forall dep :: dep in t.dependencies ==> dep in statuses && statuses[dep] == Success
    {
      ready := [];
      var todo := tasks.Keys;
      while todo != {}
        invariant todo <= tasks.Keys && FromTasks(tasks, ready) && Distinct(Ids(ready))
        invariant forall t :: t in ready <==> t.id in tasks.Keys - todo && tasks[t.id] == t && IsReady(statuses, t)
        decreases todo
      {
        var k :| k in todo;
        var task := tasks[k];
        todo := todo - {k};
        if StatusOf(statuses, task.id) != Pending {
          continue;
        }
        var allDepsComplete := true;
        var i := 0;
        while i < |task.dependencies|
          invariant 0 <= i <= |task.dependencies| && allDepsComplete
          invariant forall j :: 0 <= j < i ==> StatusOf(statuses, task.dependencies[j]) == Success
        {
          if StatusOf(statuses, task.dependencies[i]) != Success {
            allDepsComplete := false;
            break;
          }
          i := i + 1;
        }
        if allDepsComplete {
          ghost var before := ready;
          ready := ready + [task];
          assert Ids(ready) == Ids(before) + [task.id];
        }
      }
      TaskOrders();
      SortTasks(ReadyBefore, ready);
      ready := Sort(ReadyBefore, ready);
      SortedByPriority(ready);
    }
  }
}
