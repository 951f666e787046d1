/** Facts about edge maps: what rearranging, inverting and counting edges does to the relation they describe. */
module EdgeMaps {
  import opened Ordering
  import opened Graphs
  import opened KahnRun
  import opened DagTypes

  /** `a` and `b` list the same edges, each as often, possibly in another order. */
  ghost predicate SameEdges(a: Edges, b: Edges) {
    a.Keys == b.Keys && forall u :: u in a ==> multiset(a[u]) == multiset(b[u])
  }

  /** Sorting the target lists of the tasks in `s`, in place. */
  function SortedAt(edges: Edges, s: set<Id>): Edges {
    map u | u in edges :: if u in s then SortIds(edges[u]) else edges[u]
  }

  lemma SortedAtByFields(edges: Edges, s: set<Id>)
    ensures SortedAt(edges, s).Keys == edges.Keys
    ensures forall u :: u in edges ==>
      if u in s then LexicographicOrSame(SortedAt(edges, s)[u]) else SortedAt(edges, s)[u] == edges[u]
  {
    forall u | u in edges && u in s ensures LexicographicOrSame(SortedAt(edges, s)[u]) {
      SortIdsLexicographic(edges[u]);
    }
  }

  lemma SortedAtSame(edges: Edges, s: set<Id>)
    ensures SameEdges(SortedAt(edges, s), edges)
  {
  }

  lemma SameEdgesSameGraph(nodes: set<Id>, a: Edges, b: Edges)
    requires SameEdges(a, b) && KeysClosed(nodes, a)
    ensures GraphOf(nodes, a) == GraphOf(nodes, b) && KeysClosed(nodes, b)
  {
    forall u, v ensures v in Succ(a, u) <==> v in Succ(b, u) {
      if u in a {
        MultisetMembers(a[u], b[u]);
      }
    }
    assert GraphOf(nodes, a).arcs == GraphOf(nodes, b).arcs;
    forall u, v | v in Succ(b, u) ensures u in nodes && v in nodes {
      assert v in Succ(a, u);
    }
  }

  /** The edges are the dependency lists of `done` read backwards, multiplicity for multiplicity. */
  ghost predicate Inverts(tasks: Tasks, done: set<Id>, edges: Edges)
    requires done <= tasks.Keys
  {
    forall u, v {:trigger Mult(edges, u, v)} ::
      Mult(edges, u, v) == if v in done then multiset(tasks[v].dependencies)[u] else 0
  }

  function Appended(edges: Edges, from: Id, to: Id): Edges {
    edges[from := Succ(edges, from) + [to]]
  }

  lemma AppendedSucc(edges: Edges, from: Id, to: Id)
    ensures forall u ::
      Succ(Appended(edges, from, to), u) == if u == from then Succ(edges, u) + [to] else Succ(edges, u)
  {
  }

  lemma ReversedEdges(nodes: set<Id>, edges: Edges, reverse: Edges)
    requires EdgesClosed(nodes, edges)
    requires forall u, v :: u in Succ(reverse, v) <==> v in Succ(edges, u)
    ensures EdgesClosed(nodes, reverse)
    ensures GraphOf(nodes, reverse) == Reversed(GraphOf(nodes, edges))
  {
    var g, r := GraphOf(nodes, edges), GraphOf(nodes, reverse);
    forall a | a in g.arcs ensures (a.1, a.0) in r.arcs {
      assert a.1 in Succ(edges, a.0);
    }
    forall v, u | (v, u) in r.arcs ensures (v, u) in Reversed(g).arcs {
      assert u in Succ(reverse, v);
      assert (u, v) in g.arcs;
    }
    assert r.arcs == Reversed(g).arcs;
  }

  lemma AppendedClosed(nodes: set<Id>, edges: Edges, from: Id, to: Id)
    requires KeysClosed(nodes, edges) && from in nodes && to in nodes
    ensures KeysClosed(nodes, Appended(edges, from, to))
  {
    var next := Appended(edges, from, to);
    forall u, v | v in Succ(next, u) ensures u in nodes && v in nodes {
      assert u != from ==> v in Succ(edges, u);
      assert u == from ==> v in Succ(edges, from) || v == to;
    }
  }

  lemma AddsInverts(tasks: Tasks, done: set<Id>, before: Edges, after: Edges, t: Id)
    requires t in tasks && done <= tasks.Keys && t !in done
    requires Inverts(tasks, done, before) && Adds(before, after, t, multiset(tasks[t].dependencies))
    ensures Inverts(tasks, done + {t}, after)
  {
  }

  /** `after` has, beyond `before`, an edge from each member of `deps` to `t`. */
  ghost predicate Adds(before: Edges, after: Edges, t: Id, deps: multiset<Id>) {
    forall u, v {:trigger Mult(after, u, v)} ::
      Mult(after, u, v) == Mult(before, u, v) + (if v == t then deps[u] else 0)
  }

  lemma AddsOne(before: Edges, after: Edges, t: Id, deps: multiset<Id>, dep: Id)
    requires Adds(before, after, t, deps)
    ensures Adds(before, Appended(after, dep, t), t, deps + multiset{dep})
  {
    var next := Appended(after, dep, t);
    forall u, v ensures Mult(next, u, v) == Mult(before, u, v) + (if v == t then (deps + multiset{dep})[u] else 0) {
      assert Mult(after, u, v) == Mult(before, u, v) + (if v == t then deps[u] else 0);
      assert Succ(next, u) == if u == dep then Succ(after, u) + [t] else Succ(after, u);
    }
  }

  lemma InvertsGraph(tasks: Tasks, edges: Edges)
    requires Inverts(tasks, tasks.Keys, edges)
    ensures GraphOf(tasks.Keys, edges) == DependencyGraph(tasks)
  {
    var a, b := GraphOf(tasks.Keys, edges), DependencyGraph(tasks);
    forall u, v ensures (u, v) in a.arcs <==> (u, v) in b.arcs {
      assert v in Succ(edges, u) <==> Mult(edges, u, v) > 0;
      assert v in tasks ==> (u in tasks[v].dependencies <==> u in multiset(tasks[v].dependencies));
    }
    assert a.arcs == b.arcs;
  }

  /** No edge into `v` is left exactly when all its predecessors have been emitted. */
  lemma NoneLeft(g: Graph, edges: Edges, order: seq<Id>, v: Id)
    requires Depicts(g, edges)
    ensures EdgesInto(edges, g.nodes - Emitted(order), v) == 0 <==> AllPredsIn(g, order, v)
  {
    EdgesIntoZero(edges, g.nodes - Emitted(order), v);
    if AllPredsIn(g, order, v) {
      forall u | u in g.nodes - Emitted(order) ensures v !in Succ(edges, u) {
        assert (u, v) in g.arcs <==> v in Succ(edges, u);
      }
    }
    if forall u :: u in g.nodes - Emitted(order) ==> v !in Succ(edges, u) {
      forall u | (u, v) in g.arcs ensures u in order {
        assert v in Succ(edges, u);
      }
    }
  }

  lemma KeyCount<K, V>(m: map<K, V>)
    ensures |m.Keys| == |m|
  {
  }

  /** The loop invariant of `TopologicalSort`: the frontier, and in-degrees that count the edges from what is left. */
  ghost predicate SortState(g: Graph, edges: Edges, order: seq<Id>, queue: seq<Id>, inDegree: map<Id, int>) {
    && Frontier(g, order, queue)
    && inDegree.Keys == g.nodes
    && forall v :: v in inDegree ==> inDegree[v] == EdgesInto(edges, g.nodes - Emitted(order), v)
  }

  lemma SortStarts(g: Graph, edges: Edges, inDegree: map<Id, int>, roots: seq<Id>)
    requires Depicts(g, edges) && inDegree.Keys == g.nodes
    requires forall v :: v in inDegree ==> inDegree[v] == EdgesInto(edges, g.nodes, v)
    requires Distinct(roots) && forall v :: v in roots <==> v in inDegree && inDegree[v] == 0
    ensures SortState(g, edges, [], SortIds(roots), inDegree)
  {
    assert g.nodes - Emitted([]) == g.nodes;
    SortIdsStrictly(roots);
    forall v ensures v in SortIds(roots) <==> v in g.nodes && forall u :: (u, v) !in g.arcs {
      NoneLeft(g, edges, [], v);
      assert AllPredsIn(g, [], v) <==> forall u :: (u, v) !in g.arcs;
    }
    FrontierStart(g, SortIds(roots));
  }

  lemma SortStateFits(g: Graph, edges: Edges, order: seq<Id>, queue: seq<Id>, inDegree: map<Id, int>)
    requires SortState(g, edges, order, queue, inDegree) && queue != []
    ensures queue[0] in g.nodes && |order| < |g.nodes|
  {
    FrontierHead(g, order, queue);
    DistinctFits(order + queue, g.nodes);
  }

  lemma SortedBeforeRound(g: Graph, edges: Edges, order: seq<Id>, queue: seq<Id>, inDegree: map<Id, int>,
                          targets: seq<Id>)
    requires Closed(g) && SortState(g, edges, order, queue, inDegree) && queue != []
    requires multiset(targets) == multiset(Succ(edges, queue[0]))
    requires forall v :: v in targets <==> (queue[0], v) in g.arcs
    ensures forall v :: v in inDegree ==>
      inDegree[v] == multiset(targets)[v] + EdgesInto(edges, g.nodes - Emitted(order + [queue[0]]), v)
    ensures forall t :: t in targets ==> t in inDegree
  {
    FrontierHead(g, order, queue);
    var left := g.nodes - Emitted(order);
    assert left - {queue[0]} == g.nodes - Emitted(order + [queue[0]]);
    forall v | v in inDegree
      ensures inDegree[v] == multiset(targets)[v] + EdgesInto(edges, left - {queue[0]}, v)
    {
      EdgesIntoRemove(edges, left, queue[0], v);
    }
  }

  /** One round: `queue[0]` is emitted, its edges are taken off, and what drops to zero is released. */
  lemma SortRound(g: Graph, edges: Edges, order: seq<Id>, queue: seq<Id>, inDegree: map<Id, int>,
                  targets: seq<Id>, degrees: map<Id, int>, freed: seq<Id>)
    requires Depicts(g, edges)
    requires SortState(g, edges, order, queue, inDegree) && queue != []
    requires forall v :: v in inDegree ==>
      inDegree[v] == multiset(targets)[v] + EdgesInto(edges, g.nodes - Emitted(order + [queue[0]]), v)
    requires forall v :: v in targets <==> (queue[0], v) in g.arcs
    requires degrees.Keys == inDegree.Keys
    requires forall v :: v in degrees ==> degrees[v] == inDegree[v] - multiset(targets)[v]
    requires Ascending(freed) && forall v :: v in freed <==> v in targets && v in degrees && degrees[v] == 0
    ensures SortState(g, edges, order + [queue[0]], queue[1..] + freed, degrees)
  {
    var x := queue[0];
    forall v ensures v in freed <==> (x, v) in g.arcs && v in g.nodes && AllPredsIn(g, order + [x], v) {
      NoneLeft(g, edges, order + [x], v);
    }
    FrontierStep(g, order, queue, freed);
  }
}
