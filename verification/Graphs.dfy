/**
 The relation all the graph algorithms work on, as a value: who depends on whom, without multiplicities.
 Chains, reachability, cycles and dependency depth are defined here from paths alone, so that each
 algorithm can be compared with them and not with another algorithm.
 */
module Graphs {
  import opened Ordering

  /** `(u, v) in arcs` when task `v` depends on task `u`. */
  datatype Graph = Graph(nodes: set<Id>, arcs: set<(Id, Id)>)

  ghost predicate Closed(g: Graph) {
    forall a :: a in g.arcs ==> a.0 in g.nodes && a.1 in g.nodes
  }

  /** Consecutive members are joined by arcs. */
  ghost predicate Linked(g: Graph, p: seq<Id>) {
    forall i, j {:trigger p[i], p[j]} :: 0 <= i < j < |p| && j == i + 1 ==> (p[i], p[j]) in g.arcs
  }

  /** A dependency chain. */
  ghost predicate Chain(g: Graph, p: seq<Id>) {
    p != [] && Linked(g, p)
  }

  ghost predicate ChainTo(g: Graph, p: seq<Id>, v: Id) {
    Chain(g, p) && p[|p| - 1] == v
  }

  ghost predicate ChainFromTo(g: Graph, p: seq<Id>, u: Id, v: Id) {
    |p| >= 2 && p[0] == u && ChainTo(g, p, v)
  }

  /** `v` is reachable from `u` by one or more arcs. */
  ghost predicate Reach(g: Graph, u: Id, v: Id) {
    exists p :: ChainFromTo(g, p, u, v)
  }

  ghost predicate Acyclic(g: Graph) {
    forall v :: !Reach(g, v, v)
  }

  lemma ReachArc(g: Graph, u: Id, v: Id)
    requires (u, v) in g.arcs
    ensures Reach(g, u, v)
  {
    assert ChainFromTo(g, [u, v], u, v);
  }

  lemma ReachJoins(g: Graph, u: Id, v: Id, w: Id)
    requires Reach(g, u, v) && Reach(g, v, w)
    ensures Reach(g, u, w)
  {
    var p :| ChainFromTo(g, p, u, v);
    var q :| ChainFromTo(g, q, v, w);
    assert ChainFromTo(g, p + q[1..], u, w);
  }

  /** Reachability unfolds at its last arc ... */
  lemma ReachLastArc(g: Graph, u: Id, v: Id)
    ensures Reach(g, u, v) <==> exists w :: (w, v) in g.arcs && (u == w || Reach(g, u, w))
  {
    if Reach(g, u, v) {
      var p :| ChainFromTo(g, p, u, v);
      var w := p[|p| - 2];
      assert (w, v) in g.arcs;
      if |p| > 2 {
        assert ChainFromTo(g, p[..|p| - 1], u, w);
      }
    }
    if w :| (w, v) in g.arcs && (u == w || Reach(g, u, w)) {
      ReachArc(g, w, v);
      if u != w {
        ReachJoins(g, u, w, v);
      }
    }
  }

  /** ... and reverses with the arcs. */
  function Reversed(g: Graph): Graph {
    Graph(g.nodes, set a | a in g.arcs :: (a.1, a.0))
  }

  function Backwards<T>(p: seq<T>): (r: seq<T>)
    ensures |r| == |p|
    ensures forall i :: 0 <= i < |p| ==> r[i] == p[|p| - 1 - i]
  {
    seq(|p|, i requires 0 <= i < |p| => p[|p| - 1 - i])
  }

  lemma ReversedChain(g: Graph, p: seq<Id>)
    requires Chain(g, p)
    ensures Chain(Reversed(g), Backwards(p))
  {
  }

  lemma ReversedReach(g: Graph, u: Id, v: Id)
    ensures Reach(Reversed(g), v, u) <==> Reach(g, u, v)
  {
    if Reach(g, u, v) {
      var p :| ChainFromTo(g, p, u, v);
      ReversedChain(g, p);
      assert ChainFromTo(Reversed(g), Backwards(p), v, u);
    }
    if Reach(Reversed(g), v, u) {
      var p :| ChainFromTo(Reversed(g), p, v, u);
      ReversedChain(Reversed(g), p);
      assert Reversed(Reversed(g)).arcs == g.arcs by {
        assert forall a :: a in g.arcs ==> (a.1, a.0) in Reversed(g).arcs;
        assert forall a :: a in Reversed(Reversed(g)).arcs ==> (a.1, a.0) in Reversed(g).arcs;
      }
      assert ChainFromTo(g, Backwards(p), u, v);
    }
  }

  /** A set that holds all direct successors of `u` and of its own members holds everything reachable from `u`. */
  lemma {:induction false} ClosedUnderArcs(g: Graph, s: set<Id>, p: seq<Id>)
    requires Chain(g, p) && |p| >= 2
    requires forall a :: a in g.arcs && (a.0 == p[0] || a.0 in s) ==> a.1 in s
    ensures p[|p| - 1] in s
  {
    assert (p[0], p[1]) in g.arcs;
    if |p| == 2 {
    } else {
      ClosedUnderArcs(g, s, p[1..]);
    }
  }

  // ---------------------------------------------------------------- acyclicity

  /** A numbering that grows along every arc. */
  ghost predicate Ranks(g: Graph, rank: map<Id, int>) {
    forall a :: a in g.arcs ==> a.0 in rank && a.1 in rank && rank[a.0] < rank[a.1]
  }

  lemma {:induction false} RankGrows(g: Graph, rank: map<Id, int>, p: seq<Id>)
    requires Ranks(g, rank) && Chain(g, p) && |p| >= 2
    ensures p[0] in rank && p[|p| - 1] in rank && rank[p[0]] < rank[p[|p| - 1]]
  {
    assert (p[|p| - 2], p[|p| - 1]) in g.arcs;
    if |p| == 2 {
    } else {
      RankGrows(g, rank, p[..|p| - 1]);
    }
  }

  lemma RankedIsAcyclic(g: Graph, rank: map<Id, int>)
    requires Ranks(g, rank)
    ensures Acyclic(g)
  {
    forall v ensures !Reach(g, v, v) {
      forall p | ChainFromTo(g, p, v, v) ensures false {
        RankGrows(g, rank, p);
      }
    }
  }

  // ---------------------------------------------------------------- depth

  function Preds(g: Graph, v: Id): set<Id> {
    set a | a in g.arcs && a.1 == v :: a.0
  }

  lemma PredsAreArcs(g: Graph, u: Id, v: Id)
    ensures u in Preds(g, v) <==> (u, v) in g.arcs
  {
  }

  /** The nodes at depth below `k`, layer by layer: a node is in once all its predecessors are. */
  ghost function Shallow(g: Graph, k: nat): set<Id> {
    if k == 0 then {} else set v | v in g.nodes && Preds(g, v) <= Shallow(g, k - 1)
  }

  ghost function Layer(g: Graph, k: nat): set<Id> {
    Shallow(g, k + 1) - Shallow(g, k)
  }

  /** Depth below `k` means: no dependency chain that ends here has more than `k` members. */
  lemma {:induction false} ShallowMeansShortChains(g: Graph, v: Id, k: nat)
    requires Closed(g) && v in g.nodes
    ensures v in Shallow(g, k) <==> forall p :: ChainTo(g, p, v) ==> |p| <= k
    decreases k
  {
    if k == 0 {
      assert ChainTo(g, [v], v);
    } else {
      forall u | u in Preds(g, v)
        ensures u in Shallow(g, k - 1) <==> forall p :: ChainTo(g, p, u) ==> |p| <= k - 1
      {
        PredsAreArcs(g, u, v);
        ShallowMeansShortChains(g, u, k - 1);
      }
      if v in Shallow(g, k) {
        forall p | ChainTo(g, p, v) ensures |p| <= k {
          if |p| > 1 {
            var u := p[|p| - 2];
            assert (u, v) in g.arcs;
            PredsAreArcs(g, u, v);
            assert ChainTo(g, p[..|p| - 1], u);
          }
        }
      }
      if forall p :: ChainTo(g, p, v) ==> |p| <= k {
        forall u | u in Preds(g, v) ensures u in Shallow(g, k - 1) {
          PredsAreArcs(g, u, v);
          forall p | ChainTo(g, p, u) ensures |p| <= k - 1 {
            assert ChainTo(g, p + [v], v);
          }
        }
      }
    }
  }

  lemma {:induction false} ShallowGrows(g: Graph, k: nat)
    ensures Shallow(g, k) <= Shallow(g, k + 1) <= g.nodes
  {
    if k == 0 {
    } else {
      ShallowGrows(g, k - 1);
    }
  }

  lemma {:induction false} ShallowMonotone(g: Graph, j: nat, k: nat)
    requires j <= k
    ensures Shallow(g, j) <= Shallow(g, k) <= g.nodes
  {
    ShallowGrows(g, k);
    if j == k {
    } else {
      ShallowMonotone(g, j, k - 1);
      ShallowGrows(g, k - 1);
    }
  }

  /** A chain longer than the graph has members repeats one, so it closes a cycle. */
  lemma LongChainsRepeat(g: Graph, p: seq<Id>)
    requires Closed(g) && Acyclic(g) && Chain(g, p) && p[0] in g.nodes
    ensures |p| <= |g.nodes|
  {
    forall i, j | 0 <= i < j < |p| ensures p[i] != p[j] {
      if p[i] == p[j] {
        assert ChainFromTo(g, p[i..j + 1], p[i], p[i]);
        assert Reach(g, p[i], p[i]);
      }
    }
    forall x | x in p ensures x in g.nodes {
      var i :| 0 <= i < |p| && p[i] == x;
      assert i > 0 ==> (p[i - 1], p[i]) in g.arcs;
    }
    DistinctFits(p, g.nodes);
  }

  lemma ChainStartsInside(g: Graph, p: seq<Id>, v: Id)
    requires Closed(g) && v in g.nodes && ChainTo(g, p, v)
    ensures p[0] in g.nodes
  {
    assert |p| > 1 ==> (p[0], p[1]) in g.arcs;
  }

  /** In an acyclic graph every node is in some layer, at the latest the one numbered by the size of the graph. */
  lemma AcyclicIsShallow(g: Graph)
    requires Closed(g) && Acyclic(g)
    ensures Shallow(g, |g.nodes|) == g.nodes
  {
    ShallowMonotone(g, 0, |g.nodes|);
    forall v | v in g.nodes ensures v in Shallow(g, |g.nodes|) {
      forall p | ChainTo(g, p, v) ensures |p| <= |g.nodes| {
        ChainStartsInside(g, p, v);
        LongChainsRepeat(g, p);
      }
      ShallowMeansShortChains(g, v, |g.nodes|);
    }
  }

  /** A set in which every member has a predecessor inside the set meets no layer. */
  lemma {:induction false} SourcelessIsDeep(g: Graph, s: set<Id>, k: nat)
    requires forall v :: v in s ==> Preds(g, v) * s != {}
    ensures s !! Shallow(g, k)
  {
    if k == 0 {
    } else {
      SourcelessIsDeep(g, s, k - 1);
      forall v | v in s ensures v !in Shallow(g, k) {
        var u :| u in Preds(g, v) * s;
        BehindDeep(g, u, v, k);
      }
    }
  }

  lemma BehindDeep(g: Graph, u: Id, v: Id, k: nat)
    requires k > 0 && u in Preds(g, v) && u !in Shallow(g, k - 1)
    ensures v !in Shallow(g, k)
  {
  }

  /** So a non-empty set of that kind proves a cycle. */
  lemma SourcelessMeansCycle(g: Graph, s: set<Id>)
    requires Closed(g) && s <= g.nodes && s != {}
    requires forall v :: v in s ==> Preds(g, v) * s != {}
    ensures !Acyclic(g)
  {
    SourcelessIsDeep(g, s, |g.nodes|);
    if Acyclic(g) {
      AcyclicIsShallow(g);
    }
  }

  /** Length of the longest dependency chain that ends in `v`, counted in arcs. */
  ghost predicate HasDepth(g: Graph, v: Id, k: nat) {
    && (exists p :: ChainTo(g, p, v) && |p| == k + 1)
    && (forall p :: ChainTo(g, p, v) ==> |p| <= k + 1)
  }

  /** Layer `k` is the set of nodes whose longest dependency chain has `k` arcs. */
  lemma LayerIsDepth(g: Graph, v: Id, k: nat)
    requires Closed(g) && v in g.nodes
    ensures v in Layer(g, k) <==> HasDepth(g, v, k)
  {
    ShallowMeansShortChains(g, v, k);
    ShallowMeansShortChains(g, v, k + 1);
    if v in Layer(g, k) {
      var p :| ChainTo(g, p, v) && |p| > k;
      assert |p| == k + 1;
    }
  }

  /** A graph is acyclic exactly when a numbering grows along every arc. */
  lemma AcyclicIffRanked(g: Graph)
    requires Closed(g)
    ensures Acyclic(g) <==> exists rank :: Ranks(g, rank)
  {
    if Acyclic(g) {
      AcyclicIsShallow(g);
      var rank := map v | v in g.nodes :: LayerOf(g, v, |g.nodes|);
      forall a | a in g.arcs ensures rank[a.0] < rank[a.1] {
        ArcDeepens(g, a.0, a.1, |g.nodes|);
      }
      assert Ranks(g, rank);
    }
    if rank :| Ranks(g, rank) {
      RankedIsAcyclic(g, rank);
    }
  }

  /** The least `j` with `v in Shallow(g, j)`. */
  ghost function LayerOf(g: Graph, v: Id, k: nat): (j: nat)
    requires v in Shallow(g, k)
    ensures 0 < j <= k && v in Shallow(g, j) && v !in Shallow(g, j - 1)
  {
    if v in Shallow(g, k - 1) then LayerOf(g, v, k - 1) else k
  }

  lemma ArcDeepens(g: Graph, u: Id, v: Id, k: nat)
    requires (u, v) in g.arcs && u in Shallow(g, k) && v in Shallow(g, k)
    ensures LayerOf(g, u, k) < LayerOf(g, v, k)
  {
  }
}
