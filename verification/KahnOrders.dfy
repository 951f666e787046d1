/**
 What the FIFO version of Kahn's algorithm returns, said without the algorithm: the tasks sorted by the position
 of their last-placed predecessor and then by ID.  The description fixes the order completely, so the outcome can
 depend neither on map iteration nor on how often an edge is listed.
 */
module KahnOrders {
  import opened Ordering
  import opened Graphs

  /** Index in `order` of the last predecessor of `v`; -1 when none occurs. */
  ghost function LastPred(g: Graph, order: seq<Id>, v: Id): (m: int)
    ensures -1 <= m < |order|
    ensures m >= 0 ==> (order[m], v) in g.arcs
    ensures forall i :: m < i < |order| ==> (order[i], v) !in g.arcs
  {
    if order == [] then -1
    else if (order[|order| - 1], v) in g.arcs then |order| - 1
    else LastPred(g, order[..|order| - 1], v)
  }

  ghost predicate KeyLess(g: Graph, order: seq<Id>, a: Id, b: Id) {
    || LastPred(g, order, a) < LastPred(g, order, b)
    || (LastPred(g, order, a) == LastPred(g, order, b) && IdLess(a, b))
  }

  ghost predicate ArcsForward(g: Graph, order: seq<Id>) {
    forall i, j {:trigger (order[i], order[j]) in g.arcs} ::
      0 <= i < |order| && 0 <= j < |order| && (order[i], order[j]) in g.arcs ==> i < j
  }

  /** A topological order: a permutation of the nodes in which every arc points forward. */
  ghost predicate TopologicalOrder(g: Graph, order: seq<Id>) {
    Distinct(order) && (forall x :: x in order <==> x in g.nodes) && ArcsForward(g, order)
  }

  ghost predicate KahnOrder(g: Graph, order: seq<Id>) {
    TopologicalOrder(g, order)
    && forall i, j {:trigger KeyLess(g, order, order[i], order[j])} ::
         0 <= i < j < |order| ==> KeyLess(g, order, order[i], order[j])
  }

  /** `m` is the position of the last predecessor of `v` in `order`, or -1 when none occurs. */
  ghost predicate LastPredAt(g: Graph, order: seq<Id>, v: Id, m: int) {
    && -1 <= m < |order| && (m >= 0 ==> (order[m], v) in g.arcs)
    && forall i :: m < i < |order| ==> (order[i], v) !in g.arcs
  }

  /** Whose last predecessor is placed earlier comes first; with the same one, whose ID is lexicographically smaller. */
  ghost predicate PlacedByPreds(g: Graph, order: seq<Id>) {
    forall i, j, m, n {:trigger LastPredAt(g, order, order[i], m), LastPredAt(g, order, order[j], n)} ::
      0 <= i < j < |order| && LastPredAt(g, order, order[i], m) && LastPredAt(g, order, order[j], n) ==>
        m < n || (m == n && Precedes(order[i], order[j]))
  }

  /** The order in terms of positions, without any recursion. */
  lemma KahnOrderByPositions(g: Graph, order: seq<Id>)
    ensures KahnOrder(g, order) <==> TopologicalOrder(g, order) && PlacedByPreds(g, order)
  {
    hide LastPred;
    forall i, j | 0 <= i < j < |order|
      ensures IdLess(order[i], order[j]) <==> Precedes(order[i], order[j])
      ensures LastPredAt(g, order, order[i], LastPred(g, order, order[i]))
      ensures LastPredAt(g, order, order[j], LastPred(g, order, order[j]))
    {
      IdLessIsLexicographic(order[i], order[j]);
    }
    forall i, m | 0 <= i < |order| && LastPredAt(g, order, order[i], m) ensures m == LastPred(g, order, order[i]) {
    }
    if PlacedByPreds(g, order) {
      forall i, j | 0 <= i < j < |order| ensures KeyLess(g, order, order[i], order[j]) {
        assert LastPredAt(g, order, order[i], LastPred(g, order, order[i]));
        assert LastPredAt(g, order, order[j], LastPred(g, order, order[j]));
      }
    }
    if KahnOrder(g, order) {
      forall i, j, m, n | 0 <= i < j < |order| && LastPredAt(g, order, order[i], m) && LastPredAt(g, order, order[j], n)
        ensures m < n || (m == n && Precedes(order[i], order[j]))
      {
        assert KeyLess(g, order, order[i], order[j]);
      }
    }
  }

  /** Predecessors that all lie in a prefix are seen from that prefix. */
  lemma LastPredInPrefix(g: Graph, order: seq<Id>, n: nat, v: Id)
    requires n <= |order|
    requires forall i :: n <= i < |order| ==> (order[i], v) !in g.arcs
    ensures LastPred(g, order, v) == LastPred(g, order[..n], v)
  {
  }

  lemma PrefixesAgree(s: seq<Id>, t: seq<Id>, m: nat)
    requires m <= |s| == |t| && s[..m] == t[..m]
    ensures forall k :: 0 <= k < m ==> s[k] == t[k]
  {
  }

  /** If the predecessors of `a` lie in a prefix of one order, they lie in the same prefix of the other. */
  lemma SamePredsBehind(g: Graph, order: seq<Id>, other: seq<Id>, m: nat)
    requires TopologicalOrder(g, order) && TopologicalOrder(g, other)
    requires m < |order| == |other| && order[..m] == other[..m]
    ensures LastPred(g, order, order[m]) == LastPred(g, other, order[m])
  {
    PrefixesAgree(order, other, m);
    forall i | m <= i < |other| ensures (other[i], order[m]) !in g.arcs {
      assert other[i] in other;
      var k :| 0 <= k < |order| && order[k] == other[i];
      assert m <= k;
    }
    LastPredInPrefix(g, other, m, order[m]);
    LastPredInPrefix(g, order, m, order[m]);
  }

  lemma NextAgrees(g: Graph, order: seq<Id>, other: seq<Id>, m: nat)
    requires KahnOrder(g, order) && KahnOrder(g, other)
    requires m < |order| == |other| && order[..m] == other[..m]
    ensures order[m] == other[m]
  {
    PrefixesAgree(order, other, m);
    SamePredsBehind(g, order, other, m);
    SamePredsBehind(g, other, order, m);
    IdOrder();
    var a, b := order[m], other[m];
    assert a in order && b in other;
    var i :| 0 <= i < |order| && order[i] == b;
    var j :| 0 <= j < |other| && other[j] == a;
    assert m <= i && m <= j;
    assert i > m ==> KeyLess(g, order, a, b) by { assert i > m ==> KeyLess(g, order, order[m], order[i]); }
    assert j > m ==> KeyLess(g, other, b, a) by { assert j > m ==> KeyLess(g, other, other[m], other[j]); }
  }

  /** Two such orders of one graph agree on every prefix. */
  lemma {:induction false} SamePrefix(g: Graph, order: seq<Id>, other: seq<Id>, n: nat)
    requires KahnOrder(g, order) && KahnOrder(g, other)
    requires n <= |order| == |other|
    ensures order[..n] == other[..n]
  {
    if n == 0 {
    } else {
      SamePrefix(g, order, other, n - 1);
      NextAgrees(g, order, other, n - 1);
      assert order[..n] == order[..n - 1] + [order[n - 1]];
      assert other[..n] == other[..n - 1] + [other[n - 1]];
    }
  }

  /** The order is unique. */
  lemma KahnOrderUnique(g: Graph, order: seq<Id>, other: seq<Id>)
    requires KahnOrder(g, order) && KahnOrder(g, other)
    ensures order == other
  {
    SameLength(order, other);
    SamePrefix(g, order, other, |order|);
    assert order[..|order|] == order && other[..|other|] == other;
  }

  lemma SameLength(s: seq<Id>, t: seq<Id>)
    requires Distinct(s) && Distinct(t)
    requires forall x :: x in s <==> x in t
    ensures |s| == |t|
  {
    SetOfDistinct(s);
    SetOfDistinct(t);
    assert (set x | x in s) == (set x | x in t);
  }

  lemma {:induction false} SetOfDistinct(s: seq<Id>)
    requires Distinct(s)
    ensures |set x | x in s| == |s|
  {
    if s == [] {
    } else {
      var rest := s[..|s| - 1];
      SetOfDistinct(rest);
      assert (set x | x in s) == (set x | x in rest) + {s[|s| - 1]};
    }
  }

  /** A graph with a topological order has no cycle. */
  lemma TopologicalOrderIsAcyclic(g: Graph, order: seq<Id>)
    requires Closed(g) && TopologicalOrder(g, order)
    ensures Acyclic(g)
  {
    var rank: map<Id, int> := map x | x in g.nodes :: Position(order, x);
    forall a | a in g.arcs ensures a.0 in rank && a.1 in rank && rank[a.0] < rank[a.1] {
      assert order[Position(order, a.0)] == a.0 && order[Position(order, a.1)] == a.1;
    }
    RankedIsAcyclic(g, rank);
  }

  function Position(s: seq<Id>, x: Id): (i: nat)
    requires x in s
    ensures i < |s| && s[i] == x
  {
    if s[0] == x then 0 else 1 + Position(s[1..], x)
  }

  /** Tasks come out layer by layer: depth never decreases along the order. */
  lemma {:induction false} KahnOrderIsLayered(g: Graph, order: seq<Id>, i: nat, j: nat, k: nat)
    requires Closed(g) && KahnOrder(g, order) && i < j < |order|
    requires order[j] in Shallow(g, k)
    ensures order[i] in Shallow(g, k)
    decreases k
  {
    var mj := LastPred(g, order, order[j]);
    assert KeyLess(g, order, order[i], order[j]);
    assert order[i] in order;
    forall u | u in Preds(g, order[i]) ensures u in Shallow(g, k - 1) {
      PredsAreArcs(g, u, order[i]);
      assert u in order;
      var x := Position(order, u);
      assert x <= LastPred(g, order, order[i]) <= mj;
      PredsAreArcs(g, order[mj], order[j]);
      if x < mj {
        KahnOrderIsLayered(g, order, x, mj, k - 1);
      }
    }
  }

  /** The same in terms of longest dependency chains. */
  lemma KahnOrderByDepth(g: Graph, order: seq<Id>, i: nat, j: nat, a: nat, b: nat)
    requires Closed(g) && KahnOrder(g, order) && i < j < |order|
    requires HasDepth(g, order[i], a) && HasDepth(g, order[j], b)
    ensures a <= b
  {
    assert order[i] in order && order[j] in order;
    LayerIsDepth(g, order[i], a);
    LayerIsDepth(g, order[j], b);
    KahnOrderIsLayered(g, order, i, j, b + 1);
    if a > b {
      ShallowMonotone(g, b + 1, a);
    }
  }
}
