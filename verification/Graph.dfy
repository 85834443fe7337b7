/**
 Directed graphs in the planner's own representation: a map from a vertex to the
 list of its targets. A target need not be a key; such a vertex has no successors.
 */
module Graph {
  import opened Names

  type Vertex = ModelName
  type Digraph = map<Vertex, seq<Vertex>>

  function Succ(g: Digraph, v: Vertex): seq<Vertex> {
    if v in g then g[v] else []
  }

  predicate Edge(g: Digraph, u: Vertex, v: Vertex) {
    v in Succ(g, u)
  }

  /** Every vertex the graph mentions, as a key or as a target. */
  ghost function Vertices(g: Digraph): set<Vertex> {
    g.Keys + set u, v | u in g && v in g[u] :: v
  }

  ghost predicate Walk(g: Digraph, p: seq<Vertex>) {
    p != [] && forall i {:trigger p[i]} :: 0 < i < |p| ==> Edge(g, p[i - 1], p[i])
  }

  ghost predicate WalkFromTo(g: Digraph, u: Vertex, v: Vertex, p: seq<Vertex>) {
    Walk(g, p) && p[0] == u && p[|p| - 1] == v
  }

  /** Some walk, possibly empty, leads from `u` to `v`. */
  ghost predicate Reach(g: Digraph, u: Vertex, v: Vertex) {
    exists p :: WalkFromTo(g, u, v, p)
  }

  ghost predicate Mutual(g: Digraph, u: Vertex, v: Vertex) {
    Reach(g, u, v) && Reach(g, v, u)
  }

  /** A non-empty closed walk passes through `v`. */
  ghost predicate OnCycle(g: Digraph, v: Vertex) {
    exists p :: |p| > 1 && WalkFromTo(g, v, v, p)
  }

  ghost predicate SameEdges(g: Digraph, h: Digraph) {
    forall u, v :: Edge(g, u, v) <==> Edge(h, u, v)
  }

  /** Walks depend on the edges only. */
  lemma SameWalks(g: Digraph, h: Digraph)
    requires SameEdges(g, h)
    ensures forall u, v :: Reach(g, u, v) <==> Reach(h, u, v)
    ensures forall v :: OnCycle(g, v) <==> OnCycle(h, v)
  {
    forall p ensures Walk(g, p) <==> Walk(h, p) {}
    forall u, v ensures Reach(g, u, v) <==> Reach(h, u, v) {
      forall p ensures WalkFromTo(g, u, v, p) <==> WalkFromTo(h, u, v, p) {}
    }
    forall v ensures OnCycle(g, v) <==> OnCycle(h, v) {
      forall p ensures WalkFromTo(g, v, v, p) <==> WalkFromTo(h, v, v, p) {}
    }
  }

  ghost predicate ClosedUnder(g: Digraph, s: set<Vertex>) {
    forall u, v :: u in s && Edge(g, u, v) ==> v in s
  }

  lemma ReachRefl(g: Digraph, u: Vertex)
    ensures Reach(g, u, u)
  {
    assert WalkFromTo(g, u, u, [u]);
  }

  lemma ReachEdge(g: Digraph, u: Vertex, v: Vertex)
    requires Edge(g, u, v)
    ensures Reach(g, u, v)
  {
    assert WalkFromTo(g, u, v, [u, v]);
  }

  lemma ReachTrans(g: Digraph, u: Vertex, v: Vertex, w: Vertex)
    requires Reach(g, u, v) && Reach(g, v, w)
    ensures Reach(g, u, w)
  {
    var p :| WalkFromTo(g, u, v, p);
    var q :| WalkFromTo(g, v, w, q);
    WalkJoin(g, p, q);
    assert WalkFromTo(g, u, w, p + q[1..]);
  }

  lemma WalkJoin(g: Digraph, p: seq<Vertex>, q: seq<Vertex>)
    requires Walk(g, p) && Walk(g, q) && p[|p| - 1] == q[0]
    ensures Walk(g, p + q[1..]) && (p + q[1..])[|p| + |q| - 2] == q[|q| - 1]
  {
    var r := p + q[1..];
    forall i | 0 < i < |r| ensures Edge(g, r[i - 1], r[i]) {
      if i < |p| {
        assert Edge(g, p[i - 1], p[i]);
      } else {
        assert Edge(g, q[i - |p|], q[i - |p| + 1]);
      }
    }
  }

  /** A set closed under edges is closed under reachability. */
  lemma ClosedReach(g: Digraph, s: set<Vertex>, u: Vertex, v: Vertex)
    requires ClosedUnder(g, s) && u in s && Reach(g, u, v)
    ensures v in s
  {
    var p :| WalkFromTo(g, u, v, p);
    var i := 0;
    while i < |p| - 1
      invariant 0 <= i < |p| && p[i] in s
    {
      assert Edge(g, p[i], p[i + 1]);
      i := i + 1;
    }
  }

  /** A vertex lies on a cycle exactly when one of its successors leads back to it. */
  lemma OnCycleByEdge(g: Digraph, v: Vertex)
    ensures OnCycle(g, v) <==> exists w :: Edge(g, v, w) && Reach(g, w, v)
  {
    if OnCycle(g, v) {
      var p :| |p| > 1 && WalkFromTo(g, v, v, p);
      assert Edge(g, p[0], p[1]);
      assert WalkFromTo(g, p[1], v, p[1..]) by {
        forall i | 0 < i < |p[1..]| ensures Edge(g, p[1..][i - 1], p[1..][i]) {
          assert Edge(g, p[i], p[i + 1]);
        }
      }
    }
    if w :| Edge(g, v, w) && Reach(g, w, v) {
      var q :| WalkFromTo(g, w, v, q);
      var p := [v] + q;
      forall i | 0 < i < |p| ensures Edge(g, p[i - 1], p[i]) {
        if i > 1 {
          assert Edge(g, q[i - 2], q[i - 1]);
        }
      }
      assert WalkFromTo(g, v, v, p);
    }
  }

  /** A vertex lies on a cycle exactly when it has a self-loop or a mutual partner. */
  lemma OnCycleByClass(g: Digraph, v: Vertex)
    ensures OnCycle(g, v) <==> Edge(g, v, v) || exists w :: w != v && Mutual(g, v, w)
  {
    OnCycleByEdge(g, v);
    if OnCycle(g, v) {
      var w :| Edge(g, v, w) && Reach(g, w, v);
      ReachEdge(g, v, w);
      assert w == v || Mutual(g, v, w);
    }
    if Edge(g, v, v) {
      ReachRefl(g, v);
    } else if w :| w != v && Mutual(g, v, w) {
      var p :| WalkFromTo(g, v, w, p);
      var q :| WalkFromTo(g, w, v, q);
      WalkJoin(g, p, q);
      assert WalkFromTo(g, v, v, p + q[1..]);
      assert |p + q[1..]| > 1;
    }
  }
}
