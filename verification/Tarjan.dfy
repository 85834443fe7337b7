/**
 Tarjan's strongly connected components, as `tarjan_scc` and `strongconnect` compute
 them in the migration planner.

 The class carries the variables that the program threads through the recursion. The
 proof works on snapshots of them (`State`): `Inv` holds between any two steps, where
 `gray` is the set of vertices whose call is still active, and each kind of step has
 one lemma showing what it keeps.
 */
module Tarjan {
  import opened Graph

  datatype State = State(
    index: nat,
    stack: seq<Vertex>,
    onStack: set<Vertex>,
    indices: map<Vertex, nat>,
    lowlinks: map<Vertex, nat>,
    sccs: seq<set<Vertex>>)
  {
    /** Vertices whose component has been emitted. */
    ghost function Done(): set<Vertex> {
      indices.Keys - onStack
    }

    /** The bookkeeping is consistent; the stack is strictly ordered by index. */
    ghost predicate Shape() {
      && lowlinks.Keys == indices.Keys
      && (forall v :: v in indices ==> indices[v] < index)
      && (forall v :: v in stack ==> v in indices)
      && (forall v :: v in onStack <==> v in stack)
      && (forall i, j :: 0 <= i < j < |stack| ==> indices[stack[i]] < indices[stack[j]])
    }
  }

  /** A class of mutual reachability. */
  ghost predicate IsClass(g: Digraph, c: set<Vertex>) {
    c != {} && forall u, v :: u in c ==> (v in c <==> Mutual(g, u, v))
  }

  ghost predicate Listed(sccs: seq<set<Vertex>>, v: Vertex) {
    exists i :: 0 <= i < |sccs| && v in sccs[i]
  }

  /** `sccs` lists each class inside `covered` once, and nothing else. */
  ghost predicate Classes(g: Digraph, sccs: seq<set<Vertex>>, covered: set<Vertex>) {
    && (forall i :: 0 <= i < |sccs| ==> IsClass(g, sccs[i]) && sccs[i] <= covered)
    && (forall v {:trigger Listed(sccs, v)} :: v in covered ==> Listed(sccs, v))
    && (forall i, j :: 0 <= i < j < |sccs| ==> sccs[i] !! sccs[j])
  }

  /** A finished call leaves no successor unvisited. */
  ghost predicate Scanned(g: Digraph, visited: set<Vertex>, gray: set<Vertex>) {
    forall u, w :: u in visited && u !in gray && Edge(g, u, w) ==> w in visited
  }

  /** `y` leads to an active call pushed no later than itself. */
  ghost predicate ToGray(g: Digraph, indices: map<Vertex, nat>, gray: set<Vertex>, y: Vertex)
    requires y in indices && gray <= indices.Keys
  {
    exists x :: x in gray && indices[x] <= indices[y] && Reach(g, y, x)
  }

  /** Active calls reach everything pushed after them, and every stack vertex leads down to one. */
  ghost predicate Linked(g: Digraph, indices: map<Vertex, nat>, onStack: set<Vertex>, gray: set<Vertex>)
    requires gray <= onStack <= indices.Keys
  {
    && (forall x, y :: x in gray && y in onStack && indices[x] <= indices[y] ==> Reach(g, x, y))
    && (forall y {:trigger ToGray(g, indices, gray, y)} :: y in onStack ==> ToGray(g, indices, gray, y))
  }

  ghost predicate Inv(g: Digraph, s: State, gray: set<Vertex>) {
    && s.Shape()
    && s.indices.Keys <= Vertices(g)
    && gray <= s.onStack <= s.indices.Keys
    && Scanned(g, s.indices.Keys, gray)
    && ClosedUnder(g, s.Done())
    && Linked(g, s.indices, s.onStack, gray)
    && Classes(g, s.sccs, s.Done())
  }

  lemma LinkedPush(g: Digraph, indices: map<Vertex, nat>, onStack: set<Vertex>, gray: set<Vertex>, v: Vertex, n: nat)
    requires gray <= onStack <= indices.Keys && v !in indices
    requires forall u :: u in indices ==> indices[u] < n
    requires Linked(g, indices, onStack, gray)
    requires forall x :: x in gray ==> Reach(g, x, v)
    ensures Linked(g, indices[v := n], onStack + {v}, gray + {v})
  {
    var after := indices[v := n];
    ReachRefl(g, v);
    forall y | y in onStack + {v} ensures ToGray(g, after, gray + {v}, y) {
      if y == v {
        assert v in gray + {v} && after[v] <= after[y];
      } else {
        assert ToGray(g, indices, gray, y);
        var x :| x in gray && indices[x] <= indices[y] && Reach(g, y, x);
        assert x in gray + {v} && after[x] <= after[y];
      }
    }
  }

  // ---- What a call keeps -------------------------------------------------------------

  /** `s` is a later snapshot than `s0`: nothing recorded in `s0` has changed. */
  ghost predicate Grow(s0: State, s: State) {
    && (forall v :: v in s0.indices ==> v in s.indices && s.indices[v] == s0.indices[v])
    && (forall v :: v in s0.lowlinks ==> v in s.lowlinks && s.lowlinks[v] == s0.lowlinks[v])
    && (forall v :: v in s.indices && v !in s0.indices ==> s.indices[v] >= s0.index)
    && s0.index <= s.index
    && s0.stack <= s.stack
    && s0.sccs <= s.sccs
    && s.onStack * s0.indices.Keys == s0.onStack
  }

  /** `low` is the index of a stack vertex that `v` reaches. */
  ghost predicate LowAttained(g: Digraph, indices: map<Vertex, nat>, onStack: set<Vertex>, v: Vertex, low: nat)
    requires onStack <= indices.Keys
  {
    exists z :: z in onStack && indices[z] == low && Reach(g, v, z)
  }

  /** No edge from `from` to `below` ends at an index smaller than `low`. */
  ghost predicate LowBounds(g: Digraph, indices: map<Vertex, nat>, below: set<Vertex>, from: set<Vertex>, low: nat)
    requires below <= indices.Keys
  {
    forall y, z :: y in from && z in below && Edge(g, y, z) ==> low <= indices[z]
  }

  /** What `strongconnect(v)` guarantees to its caller. */
  ghost predicate Returned(g: Digraph, s0: State, s: State, v: Vertex)
    requires s.Shape() && s0.Shape() && Grow(s0, s)
  {
    && v in s.indices && v !in s0.indices
    && LowBounds(g, s.indices, s0.onStack, s.onStack - s0.onStack, s.lowlinks[v])
    && if s.stack == s0.stack
       then s.lowlinks[v] == s.indices[v]
       else LowAttained(g, s.indices, s.onStack, v, s.lowlinks[v])
  }

  /** The loop over the successors of `v`, after `n` of them. */
  ghost predicate Scanning(g: Digraph, s0: State, s: State, v: Vertex, gray: set<Vertex>, n: nat) {
    && s0.Shape()
    && Inv(g, s, gray + {v})
    && Grow(s0, s)
    && v !in s0.indices && v in s.onStack && s.indices[v] == s0.index
    && |s.stack| > |s0.stack| && s.stack[|s0.stack|] == v
    && s.lowlinks[v] <= s.indices[v]
    && LowAttained(g, s.indices, s.onStack, v, s.lowlinks[v])
    && LowBounds(g, s.indices, s0.onStack, s.onStack - s0.onStack - {v}, s.lowlinks[v])
    && n <= |Succ(g, v)|
    && forall j :: 0 <= j < n ==> ScannedEdge(s0, s, v, Succ(g, v)[j])
  }

  ghost predicate ScannedEdge(s0: State, s: State, v: Vertex, w: Vertex)
    requires v in s.lowlinks
  {
    w in s.indices && (w in s0.onStack ==> s.lowlinks[v] <= s.indices[w])
  }

  lemma GrowTrans(s0: State, s1: State, s2: State)
    requires Grow(s0, s1) && Grow(s1, s2)
    ensures Grow(s0, s2)
  {}

  function Push(s: State, v: Vertex): State {
    State(s.index + 1, s.stack + [v], s.onStack + {v}, s.indices[v := s.index], s.lowlinks[v := s.index], s.sccs)
  }

  function Lower(s: State, v: Vertex, low: nat): State
    requires v in s.lowlinks
  {
    s.(lowlinks := s.lowlinks[v := if s.lowlinks[v] <= low then s.lowlinks[v] else low])
  }

  lemma Entering(g: Digraph, s0: State, v: Vertex, gray: set<Vertex>)
    requires Inv(g, s0, gray) && v in Vertices(g) && v !in s0.indices
    requires forall x :: x in gray ==> Reach(g, x, v)
    ensures Scanning(g, s0, Push(s0, v), v, gray, 0)
  {
    var s := Push(s0, v);
    LinkedPush(g, s0.indices, s0.onStack, gray, v, s0.index);
    assert s.Done() == s0.Done();
    assert LowAttained(g, s.indices, s.onStack, v, s.lowlinks[v]) by {
      ReachRefl(g, v);
      assert v in s.onStack && s.indices[v] == s.lowlinks[v];
    }
  }

  /** Lowering `lowlinks[v]` touches nothing else the invariant speaks of. */
  lemma LowerKeeps(g: Digraph, s: State, v: Vertex, low: nat, gray: set<Vertex>)
    requires Inv(g, s, gray) && v in s.lowlinks
    ensures Inv(g, Lower(s, v, low), gray)
  {
    assert Lower(s, v, low).Done() == s.Done();
  }

  lemma TreeEdgeLow(g: Digraph, s0: State, s: State, s1: State, v: Vertex, w: Vertex, gray: set<Vertex>, n: nat)
    requires Scanning(g, s0, s, v, gray, n) && Edge(g, v, w)
    requires s1.Shape() && Grow(s, s1) && Returned(g, s, s1, w) && s1.onStack <= s1.indices.Keys
    ensures LowAttained(g, s1.indices, s1.onStack, v, Lower(s1, v, s1.lowlinks[w]).lowlinks[v])
  {
    var low := Lower(s1, v, s1.lowlinks[w]).lowlinks[v];
    assert s1.lowlinks[v] == s.lowlinks[v];
    if low == s.lowlinks[v] {
      var z :| z in s.onStack && s.indices[z] == low && Reach(g, v, z);
      assert z in s1.onStack && s1.indices[z] == low;
    } else {
      assert s1.stack != s.stack;
      var z :| z in s1.onStack && s1.indices[z] == low && Reach(g, w, z);
      ReachEdge(g, v, w);
      ReachTrans(g, v, w, z);
    }
  }

  lemma TreeEdgeBounds(g: Digraph, s0: State, s: State, s1: State, v: Vertex, w: Vertex, gray: set<Vertex>, n: nat)
    requires Scanning(g, s0, s, v, gray, n) && Edge(g, v, w)
    requires s1.Shape() && Grow(s, s1) && Returned(g, s, s1, w) && Grow(s0, s1) && s0.onStack <= s1.indices.Keys
    ensures LowBounds(g, s1.indices, s0.onStack, s1.onStack - s0.onStack - {v}, Lower(s1, v, s1.lowlinks[w]).lowlinks[v])
  {
    var low := Lower(s1, v, s1.lowlinks[w]).lowlinks[v];
    assert s1.lowlinks[v] == s.lowlinks[v];
    forall y, z | y in s1.onStack - s0.onStack - {v} && z in s0.onStack && Edge(g, y, z) ensures low <= s1.indices[z] {
      assert z in s.onStack && s1.indices[z] == s.indices[z];
      if y in s.onStack {
        assert s.lowlinks[v] <= s.indices[z];
      } else {
        assert s1.lowlinks[w] <= s1.indices[z];
      }
    }
  }

  /** Scanned edges stay scanned while indices are kept and the lowlink of `v` only falls. */
  lemma ScannedKeeps(g: Digraph, s0: State, s: State, s2: State, v: Vertex, n: nat)
    requires n <= |Succ(g, v)| && v in s.lowlinks && v in s2.lowlinks && s2.lowlinks[v] <= s.lowlinks[v]
    requires forall u :: u in s.indices ==> u in s2.indices && s2.indices[u] == s.indices[u]
    requires forall j :: 0 <= j < n ==> ScannedEdge(s0, s, v, Succ(g, v)[j])
    ensures forall j :: 0 <= j < n ==> ScannedEdge(s0, s2, v, Succ(g, v)[j])
  {
    forall j | 0 <= j < n ensures ScannedEdge(s0, s2, v, Succ(g, v)[j]) {
      assert ScannedEdge(s0, s, v, Succ(g, v)[j]);
    }
  }

  /** The edge to `w` has been scanned as well. */
  lemma TreeEdgeScanned(g: Digraph, s0: State, s: State, s1: State, v: Vertex, w: Vertex, gray: set<Vertex>, n: nat)
    requires Scanning(g, s0, s, v, gray, n) && n < |Succ(g, v)| && w == Succ(g, v)[n]
    requires s1.Shape() && Grow(s, s1) && Returned(g, s, s1, w)
    ensures forall j :: 0 <= j < n + 1 ==> ScannedEdge(s0, Lower(s1, v, s1.lowlinks[w]), v, Succ(g, v)[j])
  {
    var s2 := Lower(s1, v, s1.lowlinks[w]);
    assert s1.lowlinks[v] == s.lowlinks[v];
    ScannedKeeps(g, s0, s, s2, v, n);
    assert w !in s.indices && w !in s0.onStack;
    assert ScannedEdge(s0, s2, v, w);
  }

  /** After the call on an unvisited successor `w`, from `s` to `s1`. */
  lemma TreeEdge(g: Digraph, s0: State, s: State, s1: State, v: Vertex, gray: set<Vertex>, n: nat)
    requires Scanning(g, s0, s, v, gray, n) && n < |Succ(g, v)|
    requires Inv(g, s1, gray + {v}) && Grow(s, s1) && Returned(g, s, s1, Succ(g, v)[n])
    ensures Scanning(g, s0, Lower(s1, v, s1.lowlinks[Succ(g, v)[n]]), v, gray, n + 1)
  {
    var w := Succ(g, v)[n];
    var s2 := Lower(s1, v, s1.lowlinks[w]);
    GrowTrans(s0, s, s1);
    LowerKeeps(g, s1, v, s1.lowlinks[w], gray + {v});
    TreeEdgeLow(g, s0, s, s1, v, w, gray, n);
    TreeEdgeBounds(g, s0, s, s1, v, w, gray, n);
    TreeEdgeScanned(g, s0, s, s1, v, w, gray, n);
  }

  /** The successor `w` is on the stack already. */
  lemma BackEdge(g: Digraph, s0: State, s: State, v: Vertex, gray: set<Vertex>, n: nat)
    requires Scanning(g, s0, s, v, gray, n) && n < |Succ(g, v)| && Succ(g, v)[n] in s.onStack
    ensures Scanning(g, s0, Lower(s, v, s.indices[Succ(g, v)[n]]), v, gray, n + 1)
  {
    var w := Succ(g, v)[n];
    var s2 := Lower(s, v, s.indices[w]);
    assert s2.Done() == s.Done();
    ReachEdge(g, v, w);
    assert LowAttained(g, s2.indices, s2.onStack, v, s2.lowlinks[v]) by {
      if s2.lowlinks[v] == s.lowlinks[v] {
        var z :| z in s.onStack && s.indices[z] == s.lowlinks[v] && Reach(g, v, z);
        assert z in s2.onStack && s2.indices[z] == s2.lowlinks[v];
      } else {
        assert w in s2.onStack && s2.indices[w] == s2.lowlinks[v];
      }
    }
    ScannedKeeps(g, s0, s, s2, v, n);
    assert ScannedEdge(s0, s2, v, w);
  }

  /** The successor `w` belongs to an emitted component. */
  lemma CrossEdge(g: Digraph, s0: State, s: State, v: Vertex, gray: set<Vertex>, n: nat)
    requires Scanning(g, s0, s, v, gray, n) && n < |Succ(g, v)|
    requires Succ(g, v)[n] in s.indices && Succ(g, v)[n] !in s.onStack
    ensures Scanning(g, s0, s, v, gray, n + 1)
  {
    assert ScannedEdge(s0, s, v, Succ(g, v)[n]);
  }

  /** With every successor scanned, no edge out of the call's own vertices enters the stack below `low`. */
  lemma AllScanned(g: Digraph, s0: State, s: State, v: Vertex, gray: set<Vertex>)
    requires Scanning(g, s0, s, v, gray, |Succ(g, v)|)
    ensures Scanned(g, s.indices.Keys, gray)
    ensures LowBounds(g, s.indices, s0.onStack, s.onStack - s0.onStack, s.lowlinks[v])
  {
    forall w | Edge(g, v, w) ensures ScannedEdge(s0, s, v, w) {
      var j :| 0 <= j < |Succ(g, v)| && Succ(g, v)[j] == w;
    }
  }

  /** The lowlink of `v` is below its index: `v` stays on the stack. */
  lemma Staying(g: Digraph, s0: State, s: State, v: Vertex, gray: set<Vertex>)
    requires Scanning(g, s0, s, v, gray, |Succ(g, v)|) && s.lowlinks[v] != s.indices[v]
    requires gray <= s0.onStack
    ensures Inv(g, s, gray) && Returned(g, s0, s, v)
  {
    AllScanned(g, s0, s, v, gray);
    var x := BelowGray(g, s0, s, v, gray);
    forall y | y in s.onStack ensures ToGray(g, s.indices, gray, y) {
      assert ToGray(g, s.indices, gray + {v}, y);
      StillToGray(g, s.indices, gray, v, x, y);
    }
  }

  /** What reaches `v` reaches a gray vertex further down, if `v` does. */
  lemma StillToGray(g: Digraph, indices: map<Vertex, nat>, gray: set<Vertex>, v: Vertex, x: Vertex, y: Vertex)
    requires y in indices && v in indices && gray <= indices.Keys && ToGray(g, indices, gray + {v}, y)
    requires x in gray && indices[x] <= indices[v] && Reach(g, v, x)
    ensures ToGray(g, indices, gray, y)
  {
    var z :| z in gray + {v} && indices[z] <= indices[y] && Reach(g, y, z);
    if z == v {
      ReachTrans(g, y, v, x);
      assert x in gray && indices[x] <= indices[y];
    }
  }

  lemma BelowGray(g: Digraph, s0: State, s: State, v: Vertex, gray: set<Vertex>) returns (x: Vertex)
    requires Scanning(g, s0, s, v, gray, |Succ(g, v)|) && s.lowlinks[v] != s.indices[v]
    ensures x in gray && s.indices[x] <= s.indices[v] && Reach(g, v, x)
  {
    var z :| z in s.onStack && s.indices[z] == s.lowlinks[v] && Reach(g, v, z);
    assert ToGray(g, s.indices, gray + {v}, z);
    x :| x in gray + {v} && s.indices[x] <= s.indices[z] && Reach(g, z, x);
    ReachTrans(g, v, z, x);
  }

  function Pop(s0: State, s: State): State {
    s.(stack := s0.stack, onStack := s0.onStack, sccs := s.sccs + [s.onStack - s0.onStack])
  }

  /** The vertices popped by the call on `v` are exactly the class of `v`. */
  lemma PoppedIsClass(g: Digraph, s0: State, s: State, v: Vertex, gray: set<Vertex>)
    requires Scanning(g, s0, s, v, gray, |Succ(g, v)|) && s.lowlinks[v] == s.indices[v]
    requires gray <= s0.onStack && forall x :: x in gray ==> Reach(g, x, v)
    ensures IsClass(g, s.onStack - s0.onStack)
    ensures ClosedUnder(g, s.Done() + (s.onStack - s0.onStack))
  {
    var c := s.onStack - s0.onStack;
    AllScanned(g, s0, s, v, gray);
    forall y | y in c ensures Mutual(g, v, y) {
      assert Reach(g, v, y);
      assert ToGray(g, s.indices, gray + {v}, y);
      var x :| x in gray + {v} && s.indices[x] <= s.indices[y] && Reach(g, y, x);
      if x == v {
      } else {
        ReachTrans(g, y, x, v);
      }
    }
    var closed := s.Done() + c;
    forall y, z | y in closed && Edge(g, y, z) ensures z in closed {
      if y in c && z in s0.onStack {
        assert false;
      }
    }
    forall y, z | y in c ensures z in c <==> Mutual(g, y, z) {
      assert Mutual(g, v, y);
      if z in c {
        assert Mutual(g, v, z);
        ReachTrans(g, y, v, z);
        ReachTrans(g, z, v, y);
      }
      if Mutual(g, y, z) {
        ClosedReach(g, closed, y, z);
        if z in s.Done() {
          ClosedReach(g, s.Done(), z, y);
        }
      }
    }
  }

  lemma ClassesAppend(g: Digraph, sccs: seq<set<Vertex>>, covered: set<Vertex>, c: set<Vertex>)
    requires Classes(g, sccs, covered) && IsClass(g, c) && c !! covered
    ensures Classes(g, sccs + [c], covered + c)
  {
    var after := sccs + [c];
    forall v | v in covered + c ensures Listed(after, v) {
      if v in c {
        assert after[|sccs|] == c;
      } else {
        assert Listed(sccs, v);
        var i :| 0 <= i < |sccs| && v in sccs[i];
        assert after[i] == sccs[i];
      }
    }
  }

  /** The lowlink of `v` is its own index: its component is emitted. */
  lemma Emitting(g: Digraph, s0: State, s: State, v: Vertex, gray: set<Vertex>)
    requires Inv(g, s0, gray)
    requires Scanning(g, s0, s, v, gray, |Succ(g, v)|) && s.lowlinks[v] == s.indices[v]
    requires forall x :: x in gray ==> Reach(g, x, v)
    ensures Inv(g, Pop(s0, s), gray) && Grow(s0, Pop(s0, s)) && Returned(g, s0, Pop(s0, s), v)
  {
    var c := s.onStack - s0.onStack;
    var s2 := Pop(s0, s);
    PoppedIsClass(g, s0, s, v, gray);
    AllScanned(g, s0, s, v, gray);
    assert s2.Done() == s.Done() + c;
    ClassesAppend(g, s.sccs, s.Done(), c);
    forall y | y in s2.onStack ensures ToGray(g, s2.indices, gray, y) {
      assert ToGray(g, s.indices, gray + {v}, y);
      var x :| x in gray + {v} && s.indices[x] <= s.indices[y] && Reach(g, y, x);
      assert x in gray && s2.indices[x] <= s2.indices[y];
    }
  }

  lemma GrayReaches(g: Digraph, v: Vertex, w: Vertex, gray: set<Vertex>)
    requires v in Vertices(g) && Edge(g, v, w) && forall x :: x in gray ==> Reach(g, x, v)
    ensures w in Vertices(g) && forall x :: x in gray + {v} ==> Reach(g, x, w)
  {
    assert v in g && w in g[v];
    ReachEdge(g, v, w);
    forall x | x in gray ensures Reach(g, x, w) {
      ReachTrans(g, x, v, w);
    }
  }

  lemma NoDuplicates(s: State)
    requires s.Shape()
    ensures forall i, j :: 0 <= i < j < |s.stack| ==> s.stack[i] != s.stack[j]
  {}

  // ---- The algorithm -----------------------------------------------------------------

  class Search {
    const graph: Digraph
    var index: nat
    var stack: seq<Vertex>
    var onStack: set<Vertex>
    var indices: map<Vertex, nat>
    var lowlinks: map<Vertex, nat>
    var sccs: seq<set<Vertex>>

    constructor (graph: Digraph)
      ensures this.graph == graph && Snapshot() == State(0, [], {}, map[], map[], [])
    {
      this.graph := graph;
      index, stack, onStack, indices, lowlinks, sccs := 0, [], {}, map[], map[], [];
    }

    ghost function Snapshot(): State
      reads this
    {
      State(index, stack, onStack, indices, lowlinks, sccs)
    }

    /**
     Explores everything reachable from `v`. `gray` is the set of vertices whose call is
     still active; the measure is the set of vertices without an index.
     */
    method StrongConnect(v: Vertex, ghost gray: set<Vertex>)
      requires Inv(graph, Snapshot(), gray) && v in Vertices(graph) && v !in indices
      requires forall x :: x in gray ==> Reach(graph, x, v)
      modifies this
      ensures Inv(graph, Snapshot(), gray) && Grow(old(Snapshot()), Snapshot())
      ensures Returned(graph, old(Snapshot()), Snapshot(), v)
      decreases Vertices(graph) - indices.Keys
    {
      ghost var s0 := Snapshot();
      Open(v);
      Entering(graph, s0, v, gray);

      var targets := Succ(graph, v);
      for n := 0 to |targets|
        invariant Scanning(graph, s0, Snapshot(), v, gray, n)
      {
        var w := targets[n];
        ghost var s := Snapshot();
        if w !in indices {
          GrayReaches(graph, v, w, gray);
          StrongConnect(w, gray + {v});
          ghost var s1 := Snapshot();
          TreeEdge(graph, s0, s, s1, v, gray, n);
          LowerTo(v, lowlinks[w]);
        } else if w in onStack {
          BackEdge(graph, s0, s, v, gray, n);
          LowerTo(v, indices[w]);
        } else {
          CrossEdge(graph, s0, s, v, gray, n);
        }
      }

      ghost var s := Snapshot();
      if lowlinks[v] == indices[v] {
        Emitting(graph, s0, s, v, gray);
        NoDuplicates(s);
        PopThrough(v, s0);
      } else {
        Staying(graph, s0, s, v, gray);
      }
    }

    method Open(v: Vertex)
      modifies this
      ensures Snapshot() == Push(old(Snapshot()), v)
    {
      indices := indices[v := index];
      lowlinks := lowlinks[v := index];
      index := index + 1;
      stack := stack + [v];
      onStack := onStack + {v};
    }

    method LowerTo(v: Vertex, low: nat)
      requires v in lowlinks
      modifies this`lowlinks
      ensures Snapshot() == Lower(old(Snapshot()), v, low)
    {
      var lowV := lowlinks[v];
      lowlinks := lowlinks[v := if lowV <= low then lowV else low];
    }

    /** The pop loop: never meets an empty stack, and emits what the call on `v` pushed. */
    method PopThrough(v: Vertex, ghost s0: State)
      requires s0.stack < stack && stack[|s0.stack|] == v
      requires forall i, j :: 0 <= i < j < |stack| ==> stack[i] != stack[j]
      requires forall u :: u in onStack <==> u in stack
      requires forall u :: u in s0.onStack <==> u in s0.stack
      modifies this
      ensures Snapshot() == Pop(s0, old(Snapshot()))
    {
      var scc := {};
      ghost var s := Snapshot();
      while true
        invariant |s0.stack| < |stack| <= |s.stack| && stack == s.stack[..|stack|]
        invariant forall u :: u in onStack <==> u in stack
        invariant scc == s.onStack - onStack
        invariant Snapshot() == s.(stack := stack, onStack := onStack)
        decreases |stack|
      {
        var w := stack[|stack| - 1];
        stack := stack[..|stack| - 1];
        onStack := onStack - {w};
        var done := w == v;
        scc := scc + {w};
        if done {
          break;
        }
      }
      assert stack == s0.stack && onStack == s0.onStack && scc == s.onStack - s0.onStack;
      sccs := sccs + [scc];
      assert Snapshot() == Pop(s0, s);
    }
  }

  /** The strongly connected components of `graph`, whatever order its keys are taken in. */
  method TarjanScc(graph: Digraph) returns (sccs: seq<set<Vertex>>)
    ensures Classes(graph, sccs, Vertices(graph))
  {
    var search := new Search(graph);
    var todo := graph.Keys;
    while todo != {}
      invariant search.graph == graph
      invariant Inv(graph, search.Snapshot(), {})
      invariant todo <= graph.Keys && graph.Keys - todo <= search.indices.Keys
      decreases todo
    {
      var v :| v in todo;
      todo := todo - {v};
      if v !in search.indices {
        search.StrongConnect(v, {});
      }
    }
    AllVisited(graph, search.Snapshot());
    return search.sccs;
  }

  lemma AllVisited(g: Digraph, s: State)
    requires Inv(g, s, {}) && g.Keys <= s.indices.Keys
    ensures s.Done() == Vertices(g)
  {
    forall v | v in Vertices(g) ensures v in s.indices {
      if v !in g {
        var u :| u in g && v in g[u];
        assert Edge(g, u, v);
      }
    }
    assert forall y :: y in s.onStack ==> ToGray(g, s.indices, {}, y);
  }

  /** Two vertices share a returned set exactly when each reaches the other. */
  lemma SameSetIffMutual(g: Digraph, sccs: seq<set<Vertex>>, u: Vertex, v: Vertex)
    requires Classes(g, sccs, Vertices(g)) && u in Vertices(g)
    ensures (exists i :: 0 <= i < |sccs| && u in sccs[i] && v in sccs[i]) <==> Mutual(g, u, v)
  {
    assert Listed(sccs, u);
    var i :| 0 <= i < |sccs| && u in sccs[i];
    assert IsClass(g, sccs[i]);
    if Mutual(g, u, v) {
      assert v in sccs[i];
    }
    if j :| 0 <= j < |sccs| && u in sccs[j] && v in sccs[j] {
      assert IsClass(g, sccs[j]);
    }
  }
}
