/** The state of Kahn's loop between two rounds, and what one round does to it. */
module KahnRun {
  import opened Ordering
  import opened Graphs
  import opened KahnOrders

  ghost predicate AllPredsIn(g: Graph, order: seq<Id>, v: Id) {
    forall u :: (u, v) in g.arcs ==> u in order
  }

  /**
   `order` has been emitted and `queue` waits: together they hold, without repetition and in key order, exactly
   the nodes whose predecessors have all been emitted.
   */
  ghost predicate Frontier(g: Graph, order: seq<Id>, queue: seq<Id>) {
    && Distinct(order + queue) && ArcsForward(g, order)
    && (forall v {:trigger AllPredsIn(g, order, v)} ::
          v in order || v in queue <==> v in g.nodes && AllPredsIn(g, order, v))
    && InKeyOrder(g, order, order + queue)
  }

  ghost predicate InKeyOrder(g: Graph, order: seq<Id>, s: seq<Id>) {
    forall i, j {:trigger KeyLess(g, order, s[i], s[j])} :: 0 <= i < j < |s| ==> KeyLess(g, order, s[i], s[j])
  }

  /** Emitting `x` changes the last predecessor of its own successors only. */
  lemma LastPredSnoc(g: Graph, order: seq<Id>, x: Id, v: Id)
    ensures LastPred(g, order + [x], v) == if (x, v) in g.arcs then |order| else LastPred(g, order, v)
  {
  }

  lemma FrontierStart(g: Graph, queue: seq<Id>)
    requires Ascending(queue)
    requires forall v :: v in queue <==> v in g.nodes && forall u :: (u, v) !in g.arcs
    ensures Frontier(g, [], queue)
  {
    IdOrder();
    assert [] + queue == queue;
    forall i, j | 0 <= i < j < |queue| ensures KeyLess(g, [], queue[i], queue[j]) {
    }
    forall v ensures v in queue <==> v in g.nodes && AllPredsIn(g, [], v) {
      if v in g.nodes && AllPredsIn(g, [], v) {
        forall u ensures (u, v) !in g.arcs { assert (u, v) in g.arcs ==> u in []; }
      }
    }
  }

  /** `freed` holds the successors of `x` whose last missing predecessor was `x`. */
  ghost predicate Released(g: Graph, order: seq<Id>, x: Id, freed: seq<Id>) {
    Ascending(freed)
    && forall v :: v in freed <==> (x, v) in g.arcs && v in g.nodes && AllPredsIn(g, order + [x], v)
  }

  lemma FrontierHead(g: Graph, order: seq<Id>, queue: seq<Id>)
    requires Frontier(g, order, queue) && queue != []
    ensures queue[0] in g.nodes && queue[0] !in order && AllPredsIn(g, order, queue[0])
    ensures forall v :: v in order + queue ==> v in g.nodes
  {
    var all := order + queue;
    assert all[|order|] == queue[0];
    forall i | 0 <= i < |order| ensures order[i] != queue[0] {
      assert all[i] == order[i];
    }
    forall v | v in all ensures AllPredsIn(g, order, v) && v in g.nodes {
      assert v in order || v in queue;
    }
  }

  lemma FrontierStep(g: Graph, order: seq<Id>, queue: seq<Id>, freed: seq<Id>)
    requires Frontier(g, order, queue) && queue != []
    requires Released(g, order, queue[0], freed)
    ensures Frontier(g, order + [queue[0]], queue[1..] + freed)
  {
    var order' := order + [queue[0]];
    assert order' + (queue[1..] + freed) == order + queue + freed;
    FrontierStepMembers(g, order, queue, freed);
    FrontierStepForward(g, order, queue);
    FrontierStepKeys(g, order, queue, freed);
  }

  /** What was listed keeps its key; what is released comes after it. */
  lemma FrontierStepKeys(g: Graph, order: seq<Id>, queue: seq<Id>, freed: seq<Id>)
    requires Frontier(g, order, queue) && queue != []
    requires Released(g, order, queue[0], freed)
    ensures Distinct(order + queue + freed)
    ensures InKeyOrder(g, order + [queue[0]], order + queue + freed)
  {
    var x, order', listed := queue[0], order + [queue[0]], order + queue;
    var all := listed + freed;
    KeysAfterStep(g, order, queue, freed);
    forall i, j | 0 <= i < j < |all| ensures all[i] != all[j] && KeyLess(g, order', all[i], all[j]) {
      if j < |listed| {
        assert KeyLess(g, order, listed[i], listed[j]);
      } else if i >= |listed| {
        assert IdLess(freed[i - |listed|], freed[j - |listed|]);
        IdLessAsymmetric(all[i], all[j]);
        assert all[i] in freed && all[j] in freed;
      } else {
        assert all[i] in listed && all[j] in freed;
      }
    }
  }

  lemma KeysAfterStep(g: Graph, order: seq<Id>, queue: seq<Id>, freed: seq<Id>)
    requires Frontier(g, order, queue) && queue != []
    requires Released(g, order, queue[0], freed)
    ensures forall v :: v in order + queue ==> LastPred(g, order + [queue[0]], v) == LastPred(g, order, v)
    ensures forall v :: v in freed ==> v !in order + queue && LastPred(g, order + [queue[0]], v) == |order|
  {
    var x := queue[0];
    FrontierHead(g, order, queue);
    forall v | v in order + queue ensures (x, v) !in g.arcs && LastPred(g, order + [x], v) == LastPred(g, order, v) {
      assert v in order || v in queue;
      assert AllPredsIn(g, order, v);
      LastPredSnoc(g, order, x, v);
    }
    forall v | v in freed ensures LastPred(g, order + [x], v) == |order| {
      LastPredSnoc(g, order, x, v);
    }
  }

  lemma FrontierStepMembers(g: Graph, order: seq<Id>, queue: seq<Id>, freed: seq<Id>)
    requires Frontier(g, order, queue) && queue != []
    requires Released(g, order, queue[0], freed)
    ensures forall v :: v in order + [queue[0]] || v in queue[1..] + freed
                   <==> v in g.nodes && AllPredsIn(g, order + [queue[0]], v)
  {
    var x, order' := queue[0], order + [queue[0]];
    assert queue == [x] + queue[1..];
    forall v ensures v in order' || v in queue[1..] + freed <==> v in g.nodes && AllPredsIn(g, order', v) {
      assert v in order' || v in queue[1..] <==> v in order || v in queue;
      assert AllPredsIn(g, order, v) ==> AllPredsIn(g, order', v);
      if v in order || v in queue {
        assert AllPredsIn(g, order, v);
      }
      if v in g.nodes && AllPredsIn(g, order', v) && (x, v) !in g.arcs {
        forall u | (u, v) in g.arcs ensures u in order {
          assert u in order';
        }
      }
    }
  }

  lemma FrontierStepForward(g: Graph, order: seq<Id>, queue: seq<Id>)
    requires Frontier(g, order, queue) && queue != []
    ensures ArcsForward(g, order + [queue[0]])
  {
    var x, order' := queue[0], order + [queue[0]];
    assert (order + queue)[|order|] == x;
    forall i, j | 0 <= i < |order'| && 0 <= j < |order'| && (order'[i], order'[j]) in g.arcs ensures i < j {
      assert order'[j] in order || order'[j] in queue;
      assert AllPredsIn(g, order, order'[j]);
      var k :| 0 <= k < |order| && order[k] == order'[i];
      assert (order + queue)[k] == (order + queue)[i];
      assert i == k;
      if j < |order| {
        assert (order[i], order[j]) in g.arcs;
      }
    }
  }

  function Emitted(order: seq<Id>): set<Id> {
    set x | x in order
  }

  // ---------------------------------------------------------------- when the queue runs dry

  /** `v` lies on a cycle, or a cycle leads to it. */
  ghost predicate BehindCycle(g: Graph, v: Id) {
    exists u :: Reach(g, u, u) && (u == v || Reach(g, u, v))
  }

  ghost function Sortable(g: Graph): set<Id> {
    set v | v in g.nodes && !BehindCycle(g, v)
  }

  /** What leads to an emitted node was emitted before it. */
  lemma {:induction false} ChainsEmitted(g: Graph, order: seq<Id>, p: seq<Id>, j: nat)
    requires Frontier(g, order, []) && Chain(g, p) && j < |order| && order[j] == p[|p| - 1]
    ensures exists i :: 0 <= i <= j && order[i] == p[0] && (|p| >= 2 ==> i < j)
  {
    if |p| == 1 {
    } else {
      assert order[j] in order && AllPredsIn(g, order, order[j]);
      assert (p[|p| - 2], p[|p| - 1]) in g.arcs;
      var k :| 0 <= k < |order| && order[k] == p[|p| - 2];
      ChainsEmitted(g, order, p[..|p| - 1], k);
    }
  }

  lemma EmittedIsSortable(g: Graph, order: seq<Id>, j: nat)
    requires Frontier(g, order, []) && j < |order|
    ensures !BehindCycle(g, order[j])
  {
    forall u, p, q | ChainFromTo(g, p, u, u) && (u == order[j] || ChainFromTo(g, q, u, order[j])) ensures false {
      assert order + [] == order;
      var i :| 0 <= i < |order| && order[i] == u by {
        if u != order[j] {
          ChainsEmitted(g, order, q, j);
        }
      }
      ChainsEmitted(g, order, p, i);
    }
  }

  function Inside(g: Graph, s: set<Id>): (r: Graph)
    ensures r.nodes == s && Closed(r)
    ensures forall u, v :: (u, v) in r.arcs <==> (u, v) in g.arcs && u in s && v in s
  {
    Graph(s, set a | a in g.arcs && a.0 in s && a.1 in s)
  }

  lemma InsideReach(g: Graph, s: set<Id>, u: Id)
    ensures Reach(Inside(g, s), u, u) ==> u in s && Reach(g, u, u)
  {
    forall p | ChainFromTo(Inside(g, s), p, u, u) ensures ChainFromTo(g, p, u, u) && u in s {
      assert (p[0], p[1]) in Inside(g, s).arcs;
    }
  }

  lemma InsidePreds(g: Graph, s: set<Id>, v: Id)
    requires v in s && Preds(g, v) * s != {}
    ensures Preds(Inside(g, s), v) * s != {}
  {
  }

  lemma InsideAcyclic(g: Graph, s: set<Id>)
    requires forall v :: v in s ==> !BehindCycle(g, v)
    ensures Acyclic(Inside(g, s))
  {
    forall u ensures !Reach(Inside(g, s), u, u) {
      InsideReach(g, s, u);
    }
  }

  /** A set without sources in which nothing is behind a cycle is empty. */
  lemma SourcelessIsBehindCycle(g: Graph, s: set<Id>)
    requires s <= g.nodes
    requires forall v :: v in s ==> Preds(g, v) * s != {}
    requires forall v :: v in s ==> !BehindCycle(g, v)
    ensures s == {}
  {
    hide Preds, Inside, BehindCycle, Acyclic, Closed;
    forall v | v in s ensures Preds(Inside(g, s), v) * s != {} {
      InsidePreds(g, s, v);
    }
    InsideAcyclic(g, s);
    assert Closed(Inside(g, s));
    if s != {} {
      SourcelessMeansCycle(Inside(g, s), s);
    }
  }

  lemma EmittedAreSortable(g: Graph, order: seq<Id>)
    requires Frontier(g, order, [])
    ensures Emitted(order) <= Sortable(g)
  {
    assert order + [] == order;
    forall v | v in order ensures v in Sortable(g) {
      assert v in g.nodes && AllPredsIn(g, order, v);
      var j :| 0 <= j < |order| && order[j] == v;
      EmittedIsSortable(g, order, j);
    }
  }

  lemma SortableAreEmitted(g: Graph, order: seq<Id>)
    requires Closed(g) && Frontier(g, order, [])
    ensures Sortable(g) <= Emitted(order)
  {
    var rest := Sortable(g) - Emitted(order);
    forall v | v in rest ensures Preds(g, v) * rest != {} {
      assert !AllPredsIn(g, order, v);
      var u :| (u, v) in g.arcs && u !in order;
      PredsAreArcs(g, u, v);
      NotBehindCycle(g, u, v);
      assert u in Preds(g, v) * rest;
    }
    SourcelessIsBehindCycle(g, rest);
    forall v | v in Sortable(g) ensures v in Emitted(order) {
      assert v !in rest;
    }
  }

  /** When the queue runs dry, everything that is not behind a cycle has been emitted. */
  lemma FrontierEnd(g: Graph, order: seq<Id>)
    requires Closed(g) && Frontier(g, order, [])
    ensures Emitted(order) == Sortable(g) && |order| == |Sortable(g)| <= |g.nodes|
    ensures |order| == |g.nodes| <==> Acyclic(g)
    ensures |order| == |g.nodes| ==> KahnOrder(g, order)
  {
    hide Sortable;
    EmittedAreSortable(g, order);
    SortableAreEmitted(g, order);
    assert order + [] == order;
    SetOfDistinct(order);
    AllSortable(g);
    assert forall v :: v in order ==> v in Emitted(order);
    SubsetSize(Sortable(g), g.nodes);
  }

  lemma NotBehindCycle(g: Graph, u: Id, v: Id)
    requires (u, v) in g.arcs && !BehindCycle(g, v)
    ensures !BehindCycle(g, u)
  {
    ReachArc(g, u, v);
    forall w | Reach(g, w, w) && Reach(g, w, u) ensures Reach(g, w, v) {
      ReachJoins(g, w, u, v);
    }
  }

  lemma AllSortable(g: Graph)
    requires Closed(g)
    ensures Sortable(g) <= g.nodes
    ensures Sortable(g) == g.nodes <==> Acyclic(g)
  {
    forall u | Reach(g, u, u) ensures u in g.nodes && BehindCycle(g, u) {
      var p :| ChainFromTo(g, p, u, u);
      assert (p[0], p[1]) in g.arcs;
    }
  }

  lemma SubsetSize(a: set<Id>, b: set<Id>)
    requires a <= b
    ensures |a| <= |b| && (|a| == |b| <==> a == b)
  {
    assert b == a + (b - a);
  }
}
