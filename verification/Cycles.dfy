/**
 Foreign-key cycles in the planner: the graph of a schema's relations, which models and
 relations lie on a cycle, and whether a migration has to be bracketed by deferred
 foreign-key checks.
 */
module Cycles {
  import opened Names
  import opened Ir
  import opened Graph
  import T = Tarjan

  // ---- The foreign-key graph ---------------------------------------------------------

  predicate Refers(relations: seq<ResolvedRelation>, u: ModelName, v: ModelName) {
    exists r :: r in relations && r.owner == u && r.target == v
  }

  /** `g` is the foreign-key graph of `schema`: an edge per relation, every model a key. */
  ghost predicate IsFkGraph(schema: Schema, g: Digraph) {
    && (forall u, v :: Edge(g, u, v) <==> Refers(schema.relations, u, v))
    && (forall m :: m in g <==> schema.models.Has(m) || exists r :: r in schema.relations && r.owner == m)
  }

  lemma FkGraphsAgree(schema: Schema, g: Digraph, h: Digraph)
    requires IsFkGraph(schema, g) && IsFkGraph(schema, h)
    ensures SameEdges(g, h)
  {
    forall u, v ensures Edge(g, u, v) <==> Edge(h, u, v) {
      assert Edge(g, u, v) <==> Refers(schema.relations, u, v);
    }
  }

  lemma AddEdge(g: Digraph, relations: seq<ResolvedRelation>, r: ResolvedRelation)
    requires forall u, v :: Edge(g, u, v) <==> Refers(relations, u, v)
    ensures forall u, v :: Edge(g[r.owner := Succ(g, r.owner) + [r.target]], u, v) <==> Refers(relations + [r], u, v)
  {
    forall u, v
      ensures Edge(g[r.owner := Succ(g, r.owner) + [r.target]], u, v) <==> Refers(relations + [r], u, v)
    {
      assert Edge(g, u, v) <==> Refers(relations, u, v);
      if Refers(relations, u, v) {
        var q :| q in relations && q.owner == u && q.target == v;
        assert q in relations + [r];
      }
      if u == r.owner && v == r.target {
        assert r in relations + [r];
      }
    }
  }

  method FkGraph(schema: Schema) returns (graph: Digraph)
    requires schema.models.Valid()
    ensures IsFkGraph(schema, graph)
  {
    graph := map[];
    var relations := schema.relations;
    for i := 0 to |relations|
      invariant forall u, v :: Edge(graph, u, v) <==> Refers(relations[..i], u, v)
      invariant forall m :: m in graph <==> exists r :: r in relations[..i] && r.owner == m
    {
      var r := relations[i];
      assert relations[..i + 1] == relations[..i] + [r];
      AddEdge(graph, relations[..i], r);
      graph := graph[r.owner := Succ(graph, r.owner) + [r.target]];
    }
    assert relations[..|relations|] == relations;
    var names := schema.models.keys;
    for i := 0 to |names|
      invariant forall u, v :: Edge(graph, u, v) <==> Refers(relations, u, v)
      invariant forall m :: m in graph <==> m in names[..i] || exists r :: r in relations && r.owner == m
    {
      assert names[..i + 1] == names[..i] + [names[i]];
      graph := graph[names[i] := Succ(graph, names[i])];
    }
    assert names[..|names|] == names;
  }

  // ---- Cycles ------------------------------------------------------------------------

  /** The classes among `sccs` that form a cycle: more than one vertex, or a self-loop. */
  ghost predicate IsCycle(g: Digraph, c: set<Vertex>) {
    T.IsClass(g, c) && forall v :: v in c ==> OnCycle(g, v)
  }

  /** `cycles` are the classes of mutual reachability that lie on cycles, each once. */
  ghost predicate AreCycles(g: Digraph, cycles: seq<set<Vertex>>) {
    && (forall i :: 0 <= i < |cycles| ==> IsCycle(g, cycles[i]))
    && (forall v {:trigger T.Listed(cycles, v)} :: OnCycle(g, v) ==> T.Listed(cycles, v))
    && (forall i, j :: 0 <= i < j < |cycles| ==> cycles[i] !! cycles[j])
  }

  lemma CycleVertexInGraph(g: Digraph, v: Vertex)
    requires OnCycle(g, v)
    ensures v in Vertices(g)
  {
    OnCycleByEdge(g, v);
    var w :| Edge(g, v, w) && Reach(g, w, v);
    assert v in g;
  }

  /** A class with two members lies on a cycle. */
  lemma LargeClass(g: Digraph, c: set<Vertex>)
    requires T.IsClass(g, c) && |c| > 1
    ensures IsCycle(g, c)
  {
    forall v | v in c ensures OnCycle(g, v) {
      assert |c - {v}| == |c| - 1;
      var w :| w in c - {v};
      assert Mutual(g, v, w);
      OnCycleByClass(g, v);
    }
  }

  /** A class with one member lies on a cycle exactly when it has a self-loop. */
  lemma SingletonClass(g: Digraph, c: set<Vertex>, v: Vertex)
    requires T.IsClass(g, c) && |c| <= 1 && v in c
    ensures c == {v}
    ensures OnCycle(g, v) <==> Edge(g, v, v)
  {
    assert c == {v} by {
      if w :| w in c && w != v {
        assert {v, w} <= c;
        SubsetSize({v, w}, c);
      }
    }
    OnCycleByClass(g, v);
  }

  lemma SubsetSize<T>(a: set<T>, b: set<T>)
    requires a <= b
    ensures |a| <= |b|
  {
    assert |b - a| + |a| == |b| by {
      assert (b - a) + a == b;
    }
  }

  /** The selection loop after the components `seen`. */
  ghost predicate Selected(g: Digraph, seen: seq<set<Vertex>>, cycles: seq<set<Vertex>>) {
    && (forall i :: 0 <= i < |cycles| ==> IsCycle(g, cycles[i]))
    && (forall v {:trigger T.Listed(cycles, v)} :: T.Listed(seen, v) && OnCycle(g, v) ==> T.Listed(cycles, v))
    && (forall v {:trigger T.Listed(cycles, v)} :: T.Listed(cycles, v) ==> T.Listed(seen, v))
    && (forall i, j :: 0 <= i < j < |cycles| ==> cycles[i] !! cycles[j])
  }

  lemma ListedAppend(s: seq<set<Vertex>>, c: set<Vertex>, v: Vertex)
    ensures T.Listed(s + [c], v) <==> T.Listed(s, v) || v in c
  {
    if T.Listed(s, v) {
      var i :| 0 <= i < |s| && v in s[i];
      assert (s + [c])[i] == s[i];
    }
    if v in c {
      assert (s + [c])[|s|] == c;
    }
  }

  lemma SelectSkip(g: Digraph, seen: seq<set<Vertex>>, c: set<Vertex>, cycles: seq<set<Vertex>>)
    requires Selected(g, seen, cycles) && forall v :: v in c ==> !OnCycle(g, v)
    ensures Selected(g, seen + [c], cycles)
  {
    forall v ensures T.Listed(seen + [c], v) <==> T.Listed(seen, v) || v in c {
      ListedAppend(seen, c, v);
    }
  }

  lemma SelectAdd(g: Digraph, seen: seq<set<Vertex>>, c: set<Vertex>, cycles: seq<set<Vertex>>)
    requires Selected(g, seen, cycles) && IsCycle(g, c)
    requires forall v :: v in c ==> !T.Listed(seen, v)
    ensures Selected(g, seen + [c], cycles + [c])
  {
    forall v
      ensures T.Listed(seen + [c], v) <==> T.Listed(seen, v) || v in c
      ensures T.Listed(cycles + [c], v) <==> T.Listed(cycles, v) || v in c
    {
      ListedAppend(seen, c, v);
      ListedAppend(cycles, c, v);
    }
    AppendDisjoint(cycles, c, seen);
  }

  lemma AppendDisjoint(cycles: seq<set<Vertex>>, c: set<Vertex>, seen: seq<set<Vertex>>)
    requires forall i, j :: 0 <= i < j < |cycles| ==> cycles[i] !! cycles[j]
    requires forall v {:trigger T.Listed(cycles, v)} :: T.Listed(cycles, v) ==> T.Listed(seen, v)
    requires forall v :: v in c ==> !T.Listed(seen, v)
    ensures forall i, j :: 0 <= i < j < |cycles + [c]| ==> (cycles + [c])[i] !! (cycles + [c])[j]
  {
    forall k | 0 <= k < |cycles| ensures cycles[k] !! c {
      forall v | v in cycles[k] ensures v !in c {
        assert T.Listed(cycles, v);
      }
    }
  }

  lemma FreshClass(g: Digraph, sccs: seq<set<Vertex>>, covered: set<Vertex>, i: nat)
    requires T.Classes(g, sccs, covered) && i < |sccs|
    ensures forall v :: v in sccs[i] ==> !T.Listed(sccs[..i], v)
  {}

  /** A component is kept when it has more than one member, or a self-loop. */
  method IsCyclic(g: Digraph, scc: set<Vertex>) returns (keep: bool)
    requires T.IsClass(g, scc)
    ensures keep ==> IsCycle(g, scc)
    ensures !keep ==> forall v :: v in scc ==> !OnCycle(g, v)
  {
    if |scc| > 1 {
      LargeClass(g, scc);
      return true;
    }
    var model :| model in scc;
    SingletonClass(g, scc, model);
    return model in g && model in g[model];
  }

  method FkCycles(schema: Schema) returns (cycles: seq<set<Vertex>>, ghost graph: Digraph)
    requires schema.models.Valid()
    ensures IsFkGraph(schema, graph)
    ensures forall g {:trigger IsFkGraph(schema, g)} :: IsFkGraph(schema, g) ==> AreCycles(g, cycles)
  {
    var g := FkGraph(schema);
    graph := g;
    var sccs := T.TarjanScc(g);
    cycles := [];
    for i := 0 to |sccs|
      invariant Selected(g, sccs[..i], cycles)
    {
      var scc := sccs[i];
      assert T.IsClass(g, scc);
      FreshClass(g, sccs, Vertices(g), i);
      assert sccs[..i + 1] == sccs[..i] + [scc];
      var keep := IsCyclic(g, scc);
      if keep {
        SelectAdd(g, sccs[..i], scc, cycles);
        cycles := cycles + [scc];
      } else {
        SelectSkip(g, sccs[..i], scc, cycles);
      }
    }
    assert sccs[..|sccs|] == sccs;
    AllSelected(g, sccs, cycles);
    forall h | IsFkGraph(schema, h) ensures AreCycles(h, cycles) {
      CyclesAgree(schema, g, h, cycles);
    }
  }

  lemma CyclesAgree(schema: Schema, g: Digraph, h: Digraph, cycles: seq<set<Vertex>>)
    requires IsFkGraph(schema, g) && IsFkGraph(schema, h) && AreCycles(g, cycles)
    ensures AreCycles(h, cycles)
  {
    FkGraphsAgree(schema, g, h);
    SameWalks(g, h);
    forall i | 0 <= i < |cycles| ensures IsCycle(h, cycles[i]) {
      assert IsCycle(g, cycles[i]);
      CycleAgrees(g, h, cycles[i]);
    }
    forall v | OnCycle(h, v) ensures T.Listed(cycles, v) {
      assert OnCycle(g, v);
    }
  }

  lemma CycleAgrees(g: Digraph, h: Digraph, c: set<Vertex>)
    requires SameEdges(g, h) && IsCycle(g, c)
    ensures IsCycle(h, c)
  {
    SameWalks(g, h);
    forall u, v ensures Mutual(g, u, v) <==> Mutual(h, u, v) {}
  }

  lemma AllSelected(g: Digraph, sccs: seq<set<Vertex>>, cycles: seq<set<Vertex>>)
    requires T.Classes(g, sccs, Vertices(g)) && Selected(g, sccs, cycles)
    ensures AreCycles(g, cycles)
  {
    forall v | OnCycle(g, v) ensures T.Listed(cycles, v) {
      CycleVertexInGraph(g, v);
      assert T.Listed(sccs, v);
    }
  }

  datatype CycleInfo = CycleInfo(
    models: set<ModelName>,
    relations: set<string>,
    fields: map<ModelName, set<string>>)

  /** The relation's target leads back to its owner. */
  ghost predicate ClosesCycle(g: Digraph, r: ResolvedRelation) {
    Reach(g, r.target, r.owner)
  }

  /** `x` names the navigation field or a foreign-key column of `r`. */
  predicate FieldOf(r: ResolvedRelation, x: string) {
    x == r.ownerField.text || x in r.ownerCols
  }

  ghost predicate CycleField(relations: seq<ResolvedRelation>, g: Digraph, m: ModelName, x: string) {
    exists r :: r in relations && r.owner == m && ClosesCycle(g, r) && FieldOf(r, x)
  }

  predicate HasField(fields: map<ModelName, set<string>>, m: ModelName, x: string) {
    m in fields && x in fields[m]
  }

  /** What cycle detection reports, stated by walks in the foreign-key graph. */
  ghost predicate Exact(schema: Schema, g: Digraph, info: CycleInfo) {
    && (forall m :: m in info.models <==> OnCycle(g, m))
    && (forall n :: n in info.relations <==> NamesClosing(schema.relations, g, n))
    && (forall m, x :: HasField(info.fields, m, x) <==> CycleField(schema.relations, g, m, x))
  }

  lemma SameClassIffCloses(g: Digraph, cycles: seq<set<Vertex>>, r: ResolvedRelation, i: nat, j: nat)
    requires AreCycles(g, cycles) && Edge(g, r.owner, r.target)
    requires i < |cycles| && r.owner in cycles[i] && j < |cycles| && r.target in cycles[j]
    ensures i == j <==> ClosesCycle(g, r)
  {
    ReachEdge(g, r.owner, r.target);
    assert IsCycle(g, cycles[i]);
    if i == j {
      assert Mutual(g, r.owner, r.target);
    } else if ClosesCycle(g, r) {
      assert Mutual(g, r.owner, r.target);
    }
  }

  lemma ClosingIsListed(g: Digraph, r: ResolvedRelation)
    requires Edge(g, r.owner, r.target) && ClosesCycle(g, r)
    ensures OnCycle(g, r.owner) && OnCycle(g, r.target)
  {
    ReachEdge(g, r.owner, r.target);
    OnCycleByEdge(g, r.owner);
    ReachRefl(g, r.owner);
    OnCycleByClass(g, r.target);
    if r.owner != r.target {
      assert Mutual(g, r.target, r.owner);
    }
  }

  /** Every vertex on a cycle, with the position of its component. */
  ghost predicate IsSccIndex(g: Digraph, cycles: seq<set<Vertex>>, modelToScc: map<ModelName, nat>) {
    && (forall m :: m in modelToScc <==> OnCycle(g, m))
    && (forall m :: m in modelToScc ==> modelToScc[m] < |cycles| && m in cycles[modelToScc[m]])
  }

  /** Gives the number `i` to every member of one component. */
  method NumberAll(component: set<Vertex>, index: map<ModelName, nat>, i: nat) returns (after: map<ModelName, nat>)
    ensures forall m :: m in after <==> m in index || m in component
    ensures forall m :: m in after ==> after[m] == if m in component then i else index[m]
  {
    after := index;
    var rest := component;
    while rest != {}
      invariant rest <= component
      invariant forall m :: m in after <==> m in index || m in component - rest
      invariant forall m :: m in after ==> after[m] == if m in component - rest then i else index[m]
      decreases rest
    {
      var m :| m in rest;
      rest := rest - {m};
      after := after[m := i];
    }
  }

  ghost predicate Within(component: set<Vertex>, index: map<ModelName, nat>) {
    forall m :: m in component ==> m in index
  }

  /** The members of the first `n` components, each with the number of a component it is in. */
  ghost predicate Numbered(cycles: seq<set<Vertex>>, n: nat, index: map<ModelName, nat>)
    requires n <= |cycles|
  {
    && (forall m :: m in index ==> index[m] < n && m in cycles[index[m]])
    && (forall k :: 0 <= k < n ==> Within(cycles[k], index))
  }

  method IndexCycles(ghost g: Digraph, cycles: seq<set<Vertex>>) returns (modelToScc: map<ModelName, nat>)
    requires AreCycles(g, cycles)
    ensures IsSccIndex(g, cycles, modelToScc)
  {
    modelToScc := map[];
    for i := 0 to |cycles|
      invariant Numbered(cycles, i, modelToScc)
    {
      ghost var before := modelToScc;
      modelToScc := NumberAll(cycles[i], modelToScc, i);
      NumberStep(cycles, i, before, modelToScc);
    }
    AllNumbered(g, cycles, modelToScc);
  }

  lemma NumberStep(cycles: seq<set<Vertex>>, i: nat, before: map<ModelName, nat>, after: map<ModelName, nat>)
    requires i < |cycles| && Numbered(cycles, i, before)
    requires forall m :: m in after <==> m in before || m in cycles[i]
    requires forall m :: m in after ==> after[m] == if m in cycles[i] then i else before[m]
    ensures Numbered(cycles, i + 1, after)
  {
    forall m | m in after ensures after[m] < i + 1 && m in cycles[after[m]] {
      if m !in cycles[i] {
        assert m in before;
      }
    }
    forall k | 0 <= k < i + 1 ensures Within(cycles[k], after) {
      if k < i {
        assert Within(cycles[k], before);
      }
    }
  }

  lemma AllNumbered(g: Digraph, cycles: seq<set<Vertex>>, index: map<ModelName, nat>)
    requires AreCycles(g, cycles) && Numbered(cycles, |cycles|, index)
    ensures IsSccIndex(g, cycles, index)
  {
    forall m ensures m in index <==> OnCycle(g, m) {
      if OnCycle(g, m) {
        assert T.Listed(cycles, m);
        var k :| 0 <= k < |cycles| && m in cycles[k];
        assert Within(cycles[k], index);
      }
      if m in index {
        assert IsCycle(g, cycles[index[m]]);
      }
    }
  }

  predicate SameNumber(index: map<ModelName, nat>, r: ResolvedRelation) {
    r.owner in index && r.target in index && index[r.owner] == index[r.target]
  }

  /** Both ends carry the same component number exactly when the relation closes a cycle. */
  lemma SameNumberIffCloses(g: Digraph, cycles: seq<set<Vertex>>, index: map<ModelName, nat>, r: ResolvedRelation)
    requires AreCycles(g, cycles) && IsSccIndex(g, cycles, index) && Edge(g, r.owner, r.target)
    ensures SameNumber(index, r) <==> ClosesCycle(g, r)
  {
    if r.owner in index && r.target in index {
      SameClassIffCloses(g, cycles, r, index[r.owner], index[r.target]);
    } else if ClosesCycle(g, r) {
      ClosingIsListed(g, r);
    }
  }

  lemma FieldPut(fields: map<ModelName, set<string>>, o: ModelName, x: string)
    requires o in fields
    ensures forall m, y :: HasField(fields[o := fields[o] + {x}], m, y) <==> HasField(fields, m, y) || (m == o && y == x)
  {}

  /** The field of `r` and the first `i` of its columns have been added. */
  ghost predicate FieldsSoFar(fields: map<ModelName, set<string>>, r: ResolvedRelation, i: nat, after: map<ModelName, set<string>>)
    requires i <= |r.ownerCols|
  {
    && r.owner in after
    && (forall m, x :: HasField(after, m, x) <==>
          HasField(fields, m, x) || (m == r.owner && (x == r.ownerField.text || x in r.ownerCols[..i])))
  }

  lemma FieldsNext(fields: map<ModelName, set<string>>, r: ResolvedRelation, i: nat, after: map<ModelName, set<string>>)
    requires i < |r.ownerCols| && FieldsSoFar(fields, r, i, after)
    ensures FieldsSoFar(fields, r, i + 1, after[r.owner := after[r.owner] + {r.ownerCols[i]}])
  {
    var column := r.ownerCols[i];
    var later := after[r.owner := after[r.owner] + {column}];
    FieldPut(after, r.owner, column);
    forall m, x
      ensures HasField(later, m, x) <==>
                HasField(fields, m, x) || (m == r.owner && (x == r.ownerField.text || x in r.ownerCols[..i + 1]))
    {
      assert r.ownerCols[..i + 1] == r.ownerCols[..i] + [column];
      assert HasField(later, m, x) <==> HasField(after, m, x) || (m == r.owner && x == column);
    }
  }

  method AddFields(fields: map<ModelName, set<string>>, r: ResolvedRelation)
    returns (after: map<ModelName, set<string>>)
    ensures forall m, x :: HasField(after, m, x) <==> HasField(fields, m, x) || (m == r.owner && FieldOf(r, x))
  {
    after := fields[r.owner := (if r.owner in fields then fields[r.owner] else {}) + {r.ownerField.text}];
    for i := 0 to |r.ownerCols|
      invariant FieldsSoFar(fields, r, i, after)
    {
      FieldsNext(fields, r, i, after);
      after := after[r.owner := after[r.owner] + {r.ownerCols[i]}];
    }
    assert r.ownerCols[..|r.ownerCols|] == r.ownerCols;
  }

  ghost predicate NamesClosing(relations: seq<ResolvedRelation>, g: Digraph, n: string) {
    exists r :: r in relations && r.name == n && ClosesCycle(g, r)
  }

  lemma ClosingStep(relations: seq<ResolvedRelation>, g: Digraph, r: ResolvedRelation)
    ensures forall n :: NamesClosing(relations + [r], g, n) <==>
                          NamesClosing(relations, g, n) || (r.name == n && ClosesCycle(g, r))
    ensures forall m, x :: CycleField(relations + [r], g, m, x) <==>
                             CycleField(relations, g, m, x) || (m == r.owner && ClosesCycle(g, r) && FieldOf(r, x))
  {
    forall n
      ensures NamesClosing(relations + [r], g, n) <==>
                NamesClosing(relations, g, n) || (r.name == n && ClosesCycle(g, r))
    {
      if q :| q in relations && q.name == n && ClosesCycle(g, q) {
        assert q in relations + [r];
      }
      assert r in relations + [r];
    }
    forall m, x
      ensures CycleField(relations + [r], g, m, x) <==>
                CycleField(relations, g, m, x) || (m == r.owner && ClosesCycle(g, r) && FieldOf(r, x))
    {
      if q :| q in relations && q.owner == m && ClosesCycle(g, q) && FieldOf(q, x) {
        assert q in relations + [r];
      }
      assert r in relations + [r];
    }
  }

  method CollectClosing(relations: seq<ResolvedRelation>, ghost g: Digraph, modelToScc: map<ModelName, nat>)
    returns (names: set<string>, fields: map<ModelName, set<string>>)
    requires forall r :: r in relations ==> (SameNumber(modelToScc, r) <==> ClosesCycle(g, r))
    ensures forall n :: n in names <==> NamesClosing(relations, g, n)
    ensures forall m, x :: HasField(fields, m, x) <==> CycleField(relations, g, m, x)
  {
    names, fields := {}, map[];
    ghost var seen := [];
    for i := 0 to |relations|
      invariant seen == relations[..i]
      invariant forall n :: n in names <==> NamesClosing(seen, g, n)
      invariant forall m, x :: HasField(fields, m, x) <==> CycleField(seen, g, m, x)
    {
      var r := relations[i];
      ClosingStep(seen, g, r);
      seen := seen + [r];
      if SameNumber(modelToScc, r) {
        names := names + {r.name};
        fields := AddFields(fields, r);
      }
    }
    assert seen == relations;
  }

  method DetectCycles(schema: Schema) returns (info: CycleInfo, ghost graph: Digraph)
    requires schema.models.Valid()
    ensures IsFkGraph(schema, graph)
    ensures forall g {:trigger IsFkGraph(schema, g)} :: IsFkGraph(schema, g) ==> Exact(schema, g, info)
  {
    var cycles, g := FkCycles(schema);
    graph := g;
    var modelToScc := IndexCycles(g, cycles);
    forall r | r in schema.relations ensures SameNumber(modelToScc, r) <==> ClosesCycle(g, r) {
      assert Refers(schema.relations, r.owner, r.target);
      SameNumberIffCloses(g, cycles, modelToScc, r);
    }
    var names, fields := CollectClosing(schema.relations, g, modelToScc);
    info := CycleInfo(modelToScc.Keys, names, fields);
    forall h | IsFkGraph(schema, h) ensures Exact(schema, h, info) {
      ReportsAgree(schema, g, h, info);
    }
  }

  lemma ReportsAgree(schema: Schema, g: Digraph, h: Digraph, info: CycleInfo)
    requires IsFkGraph(schema, g) && IsFkGraph(schema, h) && Exact(schema, g, info)
    ensures Exact(schema, h, info)
  {
    FkGraphsAgree(schema, g, h);
    SameWalks(g, h);
    forall r ensures ClosesCycle(g, r) <==> ClosesCycle(h, r) {}
    forall n ensures NamesClosing(schema.relations, g, n) <==> NamesClosing(schema.relations, h, n) {}
    forall m, x ensures CycleField(schema.relations, g, m, x) <==> CycleField(schema.relations, h, m, x) {}
  }
}
