/** The recursive walks of package `dag`, with the variables their closures share as fields. */
module DagSearch {
  import opened Ordering
  import opened Graphs
  import opened DagTypes

  datatype Color = White | Gray | Black

  /** A closed walk along the arcs, listed against their direction, that repeats only its end point. */
  ghost predicate ReverseCycle(g: Graph, c: seq<Id>) {
    && |c| >= 2 && c[0] == c[|c| - 1]
    && (forall i, j :: 0 <= i < j < |c| && j == i + 1 ==> (c[j], c[i]) in g.arcs)
    && Distinct(c[1..])
  }

  lemma ReverseCycleIsCycle(g: Graph, c: seq<Id>)
    requires ReverseCycle(g, c)
    ensures !Acyclic(g)
  {
    var p := Backwards(c);
    forall i, j | 0 <= i < j < |p| && j == i + 1 ensures (p[i], p[j]) in g.arcs {
      assert (c[|c| - 1 - i], c[|c| - 1 - j]) in g.arcs;
    }
    assert ChainFromTo(g, p, c[0], c[0]);
    assert Reach(g, c[0], c[0]);
  }

  // ---------------------------------------------------------------- what the colours mean

  ghost function Having(color: map<Id, Color>, c: Color): set<Id> {
    set x | x in color && color[x] == c
  }

  ghost function Members(path: seq<Id>): set<Id> {
    set x | x in path
  }

  lemma Recolored(color: map<Id, Color>, x: Id, c: Color)
    ensures forall d :: Having(color[x := c], d) == if d == c then Having(color, d) + {x} else Having(color, d) - {x}
  {
  }

  /** `finish` numbers the black nodes; they lead to black nodes that finished earlier. */
  ghost predicate Finishing(g: Graph, color: map<Id, Color>, finish: map<Id, int>, clock: int) {
    && finish.Keys == Having(color, Black)
    && (forall x :: x in finish ==> finish[x] < clock)
    && (forall a :: a in g.arcs && a.0 in finish ==> a.1 in finish && finish[a.1] < finish[a.0])
  }

  /** The gray nodes are exactly `path`, a chain recorded in the parent pointers. */
  ghost predicate GrayPath(g: Graph, color: map<Id, Color>, parent: map<Id, Id>, path: seq<Id>) {
    Members(path) == Having(color, Gray) && Distinct(path) && Linked(g, path) && Recorded(parent, path)
  }

  /** A missing entry reads as the empty string. */
  function ParentOf(parent: map<Id, Id>, x: Id): Id {
    if x in parent then parent[x] else ""
  }

  ghost predicate Recorded(parent: map<Id, Id>, path: seq<Id>) {
    forall i, j {:trigger path[i], path[j]} ::
      0 <= i < j < |path| && j == i + 1 ==> ParentOf(parent, path[j]) == path[i]
  }

  /** `node` may follow the last member of `path`. */
  ghost predicate Extends(g: Graph, parent: map<Id, Id>, path: seq<Id>, node: Id) {
    path != [] ==>
      (path[|path| - 1], node) in g.arcs && ParentOf(parent, node) == path[|path| - 1]
  }

  lemma MembersSnoc(path: seq<Id>, node: Id)
    ensures Members(path + [node]) == Members(path) + {node}
    ensures Distinct(path + [node]) <==> Distinct(path) && node !in Members(path)
  {
    var full := path + [node];
    assert full[|path|] == node;
    assert forall i :: 0 <= i < |path| ==> full[i] == path[i] && path[i] in Members(path);
  }

  lemma ChainGrows(g: Graph, parent: map<Id, Id>, path: seq<Id>, node: Id)
    requires Linked(g, path) && Recorded(parent, path) && Extends(g, parent, path, node)
    ensures Linked(g, path + [node]) && Recorded(parent, path + [node])
  {
  }

  lemma ChainShrinks(g: Graph, parent: map<Id, Id>, path: seq<Id>, node: Id)
    requires Linked(g, path + [node]) && Recorded(parent, path + [node])
    ensures Linked(g, path) && Recorded(parent, path)
  {
    var full := path + [node];
    forall i, j | 0 <= i < j < |path| && j == i + 1
      ensures ParentOf(parent, path[j]) == path[i] && (path[i], path[j]) in g.arcs
    {
      assert full[i] == path[i] && full[j] == path[j];
    }
  }

  lemma Entered(g: Graph, color: map<Id, Color>, parent: map<Id, Id>, path: seq<Id>, node: Id)
    requires GrayPath(g, color, parent, path) && Extends(g, parent, path, node)
    requires node in color && color[node] == White
    ensures GrayPath(g, color[node := Gray], parent, path + [node])
  {
    Recolored(color, node, Gray);
    MembersSnoc(path, node);
    ChainGrows(g, parent, path, node);
  }

  lemma Blackened(g: Graph, color: map<Id, Color>, parent: map<Id, Id>, path: seq<Id>, node: Id)
    requires GrayPath(g, color, parent, path + [node])
    ensures GrayPath(g, color[node := Black], parent, path)
    ensures node in color && color[node] == Gray
  {
    Recolored(color, node, Black);
    MembersSnoc(path, node);
    ChainShrinks(g, parent, path, node);
    assert node in Having(color, Gray);
  }

  lemma StillRecorded(parent: map<Id, Id>, path: seq<Id>, next: Id, node: Id)
    requires Recorded(parent, path) && next !in Members(path)
    ensures Recorded(parent[next := node], path)
  {
  }

  lemma FinishedNext(g: Graph, color: map<Id, Color>, finish: map<Id, int>, clock: int, node: Id)
    requires Finishing(g, color, finish, clock) && node !in finish
    requires forall v :: (node, v) in g.arcs ==> v in finish
    ensures Finishing(g, color[node := Black], finish[node := clock], clock + 1)
  {
  }

  /** State of `DetectCycle`: three colours and parent pointers. */
  class CycleSearch {
    const edges: Edges
    ghost const g: Graph
    var color: map<Id, Color>
    var parent: map<Id, Id>
    var cyclePath: seq<Id>
    ghost var finish: map<Id, int>
    ghost var clock: int

    ghost predicate Valid()
      reads this
    {
      Depicts(g, edges) && "" !in g.nodes && color.Keys == g.nodes && Finishing(g, color, finish, clock)
    }

    ghost predicate OnPath(path: seq<Id>)
      reads this
    {
      GrayPath(g, color, parent, path)
    }

    ghost function Whites(): set<Id>
      reads this
    {
      Having(color, White)
    }

    constructor (nodes: set<Id>, edges: Edges)
      requires EdgesClosed(nodes, edges) && "" !in nodes
      ensures this.edges == edges && g == GraphOf(nodes, edges)
      ensures Valid() && OnPath([])
    {
      this.edges := edges;
      this.g := GraphOf(nodes, edges);
      this.color := map id | id in nodes :: White;
      this.parent := map[];
      this.cyclePath := [];
      this.finish := map[];
      this.clock := 0;
    }

    /** The outer loop of `DetectCycle`. */
    method SearchFrom(ids: seq<Id>) returns (found: bool)
      requires Valid() && OnPath([])
      requires forall id :: id in ids ==> id in g.nodes
      modifies this
      ensures found ==> ReverseCycle(g, cyclePath)
      ensures !found ==> Valid() && forall id :: id in ids ==> id in finish
    {
      var i := 0;
      while i < |ids|
        invariant 0 <= i <= |ids|
        invariant Valid() && OnPath([])
        invariant forall j :: 0 <= j < i ==> ids[j] in finish
      {
        var id := ids[i];
        assert id !in Members([]);
        if color[id] == White {
          found := Dfs(id, []);
          if found {
            return;
          }
        }
        assert id !in Having(color, White) + Having(color, Gray);
        i := i + 1;
      }
      return false;
    }

    /** Visits a white `node` below the gray nodes of `path`. */
    method Dfs(node: Id, ghost path: seq<Id>) returns (found: bool)
      requires Valid() && OnPath(path)
      requires node in color && color[node] == White && Extends(g, parent, path, node)
      modifies this
      decreases Whites(), 0
      ensures found ==> ReverseCycle(g, cyclePath)
      ensures !found ==> Valid() && OnPath(path) && node in finish && cyclePath == old(cyclePath)
      ensures !found ==> Whites() <= old(Whites()) && old(finish.Keys) <= finish.Keys
    {
      ghost var full := path + [node];
      Enter(node, path);
      var targets := Succ(edges, node);
      var i := 0;
      while i < |targets|
        invariant 0 <= i <= |targets|
        invariant Valid() && OnPath(full) && cyclePath == old(cyclePath)
        invariant forall j :: 0 <= j < i ==> targets[j] in finish
        invariant Whites() < old(Whites()) && old(finish.Keys) <= finish.Keys
      {
        assert (node, targets[i]) in g.arcs;
        found := Visit(node, targets[i], full);
        if found {
          return;
        }
        i := i + 1;
      }
      Leave(node, path);
      found := false;
    }

    /** `node` turns gray. */
    method Enter(node: Id, ghost path: seq<Id>)
      requires Valid() && OnPath(path)
      requires node in color && color[node] == White && Extends(g, parent, path, node)
      modifies this`color
      ensures Valid() && OnPath(path + [node]) && Whites() < old(Whites())
    {
      Entered(g, color, parent, path, node);
      Recolored(color, node, Gray);
      assert node in Whites();
      color := color[node := Gray];
    }

    /** `node` turns black. */
    method Leave(node: Id, ghost path: seq<Id>)
      requires Valid() && OnPath(path + [node])
      requires forall v :: (node, v) in g.arcs ==> v in finish
      modifies this`color, this`finish, this`clock
      ensures Valid() && OnPath(path) && Whites() == old(Whites()) && finish.Keys == old(finish.Keys) + {node}
    {
      Blackened(g, color, parent, path, node);
      FinishedNext(g, color, finish, clock, node);
      Recolored(color, node, Black);
      assert node !in Whites();
      color := color[node := Black];
      finish := finish[node := clock];
      clock := clock + 1;
    }

    /** One round of the loop in `Dfs`: the edge from `node`, the end of the gray path `full`, to `next`. */
    method Visit(node: Id, next: Id, ghost full: seq<Id>) returns (found: bool)
      requires Valid() && OnPath(full) && full != [] && full[|full| - 1] == node
      requires (node, next) in g.arcs
      modifies this
      decreases Whites(), 1
      ensures found ==> ReverseCycle(g, cyclePath)
      ensures !found ==> Valid() && OnPath(full) && next in finish && cyclePath == old(cyclePath)
      ensures !found ==> Whites() <= old(Whites()) && old(finish.Keys) <= finish.Keys
    {
      if color[next] == Gray {
        assert next in Members(full);
        Reconstruct(node, next, full);
        return true;
      }
      if color[next] == White {
        StillRecorded(parent, full, next, node);
        parent := parent[next := node];
        found := Dfs(next, full);
        return;
      }
      assert next in Having(color, Black);
      return false;
    }

    /** Follows the parent pointers from `node` back to the gray node `next`. */
    method Reconstruct(node: Id, next: Id, ghost full: seq<Id>)
      requires Valid() && OnPath(full) && full != [] && full[|full| - 1] == node
      requires next in full && (node, next) in g.arcs
      modifies this`cyclePath
      ensures ReverseCycle(g, cyclePath)
    {
      ghost var a :| 0 <= a < |full| && full[a] == next;
      ghost var k := |full| - 1;
      cyclePath := [next, node];
      var curr := node;
      while curr != next
        invariant a <= k < |full| && curr == full[k]
        invariant Retraces(full, k, next, cyclePath)
        decreases k
      {
        assert full[k - 1] in full;
        curr := ParentOf(parent, curr);
        if curr == "" {
          break;
        }
        cyclePath := cyclePath + [curr];
        k := k - 1;
      }
      CycleFromPath(g, full, k, cyclePath);
    }
  }

  /** `c` is `next` followed by the members of `full` from the last back to number `k`. */
  ghost predicate Retraces(full: seq<Id>, k: nat, next: Id, c: seq<Id>)
    requires k < |full|
  {
    |c| == |full| - k + 1 && c[0] == next && forall m :: 0 < m < |c| ==> c[m] == full[|full| - m]
  }

  lemma CycleFromPath(g: Graph, full: seq<Id>, a: nat, c: seq<Id>)
    requires Distinct(full) && a < |full| && Linked(g, full)
    requires (full[|full| - 1], full[a]) in g.arcs
    requires Retraces(full, a, full[a], c)
    ensures ReverseCycle(g, c)
  {
  }

  /** When every node has finished, the finishing numbers fall along every arc. */
  lemma FinishedIsAcyclic(g: Graph, finish: map<Id, int>)
    requires Closed(g) && g.nodes <= finish.Keys
    requires forall a :: a in g.arcs && a.0 in finish ==> a.1 in finish && finish[a.1] < finish[a.0]
    ensures Acyclic(g)
  {
    RankedIsAcyclic(g, map x | x in finish :: -finish[x]);
  }

  /** A walk that visited only reachable nodes, and all successors of whatever it saw, visited exactly those. */
  lemma ReachedAll(g: Graph, id: Id, visited: set<Id>)
    requires forall v :: (id, v) in g.arcs ==> v in visited
    requires forall a :: a in g.arcs && a.0 in visited ==> a.1 in visited
    requires forall v :: v in visited ==> Reach(g, id, v)
    ensures forall v :: v in visited <==> Reach(g, id, v)
  {
    forall v | Reach(g, id, v) ensures v in visited {
      var p :| ChainFromTo(g, p, id, v);
      forall a | a in g.arcs && (a.0 == p[0] || a.0 in visited) ensures a.1 in visited {
        assert a == (a.0, a.1);
      }
      ClosedUnderArcs(g, visited, p);
    }
  }

  /** State of `GetDownstream` and `GetUpstream`: what has been visited and in which order. */
  class Walker {
    const edges: Edges
    const tasks: Tasks
    var visited: set<Id>
    var result: seq<Task>

    ghost predicate Valid()
      reads this
    {
      && KeyedById(tasks) && EdgesClosed(tasks.Keys, edges)
      && visited <= tasks.Keys
      && FromTasks(tasks, result) && Distinct(Ids(result))
      && forall x :: x in Ids(result) <==> x in visited
    }

    ghost function G(): Graph {
      GraphOf(tasks.Keys, edges)
    }

    constructor (tasks: Tasks, edges: Edges)
      requires KeyedById(tasks) && EdgesClosed(tasks.Keys, edges)
      ensures Valid() && this.tasks == tasks && this.edges == edges && visited == {}
    {
      this.tasks := tasks;
      this.edges := edges;
      visited := {};
      result := [];
    }

    /** Marks everything reachable from `id` that earlier calls have not marked. */
    method Walk(id: Id)
      requires Valid()
      modifies this
      decreases tasks.Keys - visited
      ensures Valid() && old(visited) <= visited
      ensures forall v :: (id, v) in G().arcs ==> v in visited
      ensures forall a :: a in G().arcs && a.0 in visited - old(visited) ==> a.1 in visited
      ensures forall v :: v in visited - old(visited) ==> Reach(G(), id, v)
    {
      var targets := Succ(edges, id);
      var i := 0;
      while i < |targets|
        invariant 0 <= i <= |targets|
        invariant Valid() && old(visited) <= visited
        invariant forall j :: 0 <= j < i ==> targets[j] in visited
        invariant forall a :: a in G().arcs && a.0 in visited - old(visited) ==> a.1 in visited
        invariant forall v :: v in visited - old(visited) ==> Reach(G(), id, v)
      {
        var next := targets[i];
        assert (id, next) in G().arcs;
        ReachArc(G(), id, next);
        if next !in visited {
          Mark(next);
          label Marked:
          Walk(next);
          forall v | v in visited - old@Marked(visited) ensures Reach(G(), id, v) {
            ReachJoins(G(), id, next, v);
          }
        }
        i := i + 1;
      }
    }

    method Mark(next: Id)
      requires Valid() && next in tasks && next !in visited
      modifies this
      ensures Valid() && visited == old(visited) + {next}
    {
      assert next !in Ids(result);
      ghost var before := result;
      visited := visited + {next};
      result := result + [tasks[next]];
      assert Ids(result) == Ids(before) + [next];
    }
  }
}
