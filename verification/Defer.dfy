/**
 Whether a migration has to be bracketed by deferred foreign-key checks, and what leaving
 the bracket out is good for: the created models can then be created one after another.
 */
module Defer {
  import opened Names
  import opened Ir
  import opened Graph
  import opened Cycles

  /** Whether the change touches a reported cycle: the arms of `affects_cycle`. */
  predicate TouchesReported(info: CycleInfo, c: Change) {
    match c
    case CreateModel(m) => m.name in info.models
    case DropModel(m, _) => m in info.models
    case RenameModel(from, to, _) => from in info.models || to in info.models
    case AddColumn(m, f) => m in info.models && NamesField(info, m, f.name, f.column)
    case AlterColumn(m, from, to, _) =>
      m in info.models && (NamesField(info, m, from.name, from.column) || NamesField(info, m, to.name, to.column))
    case DropColumn(m, column) => m in info.models && HasField(info.fields, m, column)
    case RenameColumn(m, from, to, fromColumn, toColumn) =>
      m in info.models && (NamesField(info, m, from, fromColumn) || NamesField(info, m, to, toColumn))
    case AddForeignKey(_, r) => r.name in info.relations
    case DropForeignKey(_, r) => r.name in info.relations
    case _ => false
  }

  predicate NamesField(info: CycleInfo, m: ModelName, field: FieldName, column: string) {
    HasField(info.fields, m, field.text) || HasField(info.fields, m, column)
  }

  method AffectsCycle(info: CycleInfo, changes: seq<Change>) returns (touched: bool)
    ensures touched <==> exists i :: 0 <= i < |changes| && TouchesReported(info, changes[i])
  {
    for i := 0 to |changes|
      invariant forall k :: 0 <= k < i ==> !TouchesReported(info, changes[k])
    {
      if TouchesReported(info, changes[i]) {
        return true;
      }
    }
    return false;
  }

  // ---- The same question, asked of walks in the foreign-key graph -----------------------

  ghost predicate OnForeignKeyCycle(schema: Schema, g: Digraph, m: ModelName, field: FieldName, column: string) {
    CycleField(schema.relations, g, m, field.text) || CycleField(schema.relations, g, m, column)
  }

  ghost predicate Touches(schema: Schema, g: Digraph, c: Change) {
    match c
    case CreateModel(m) => OnCycle(g, m.name)
    case DropModel(m, _) => OnCycle(g, m)
    case RenameModel(from, to, _) => OnCycle(g, from) || OnCycle(g, to)
    case AddColumn(m, f) => OnForeignKeyCycle(schema, g, m, f.name, f.column)
    case AlterColumn(m, from, to, _) =>
      OnForeignKeyCycle(schema, g, m, from.name, from.column) || OnForeignKeyCycle(schema, g, m, to.name, to.column)
    case DropColumn(m, column) => CycleField(schema.relations, g, m, column)
    case RenameColumn(m, from, to, fromColumn, toColumn) =>
      OnForeignKeyCycle(schema, g, m, from, fromColumn) || OnForeignKeyCycle(schema, g, m, to, toColumn)
    case AddForeignKey(_, r) => NamesClosing(schema.relations, g, r.name)
    case DropForeignKey(_, r) => NamesClosing(schema.relations, g, r.name)
    case _ => false
  }

  ghost predicate TouchesAny(schema: Schema, g: Digraph, changes: seq<Change>) {
    exists i :: 0 <= i < |changes| && Touches(schema, g, changes[i])
  }

  /** A foreign-key column on a cycle sits on a model on that cycle. */
  lemma CycleFieldOnCycle(schema: Schema, g: Digraph, m: ModelName, x: string)
    requires IsFkGraph(schema, g) && CycleField(schema.relations, g, m, x)
    ensures OnCycle(g, m)
  {
    var r :| r in schema.relations && r.owner == m && ClosesCycle(g, r) && FieldOf(r, x);
    assert Refers(schema.relations, r.owner, r.target);
    ClosingIsListed(g, r);
  }

  lemma TouchesReportedExact(schema: Schema, g: Digraph, info: CycleInfo, c: Change)
    requires IsFkGraph(schema, g) && Exact(schema, g, info)
    ensures TouchesReported(info, c) <==> Touches(schema, g, c)
  {
    forall m, x | CycleField(schema.relations, g, m, x) ensures m in info.models {
      CycleFieldOnCycle(schema, g, m, x);
    }
  }

  lemma TouchedMeansCycle(schema: Schema, g: Digraph, info: CycleInfo, c: Change)
    requires IsFkGraph(schema, g) && Exact(schema, g, info) && Touches(schema, g, c)
    ensures info.models != {}
  {
    TouchesReportedExact(schema, g, info, c);
    if c.AddForeignKey? || c.DropForeignKey? {
      var r :| r in schema.relations && r.name == c.relation.name && ClosesCycle(g, r);
      assert Refers(schema.relations, r.owner, r.target);
      ClosingIsListed(g, r);
      assert r.owner in info.models;
    }
  }

  /** Dialects and directions that bracket at all. */
  predicate CanBracket(dialect: Dialect, down: bool) {
    !(down && dialect.Postgres?) && (dialect.DeferrableFks() || dialect.Mysql?)
  }

  /** A migration is bracketed exactly when it touches a cycle of the schema it creates (or tears down). */
  method NeedsDefer(prev: Schema, next: Schema, dialect: Dialect, changes: seq<Change>, down: bool)
    returns (defer: bool, ghost graph: Digraph)
    requires prev.models.Valid() && next.models.Valid()
    ensures IsFkGraph(if down then prev else next, graph)
    ensures forall g {:trigger IsFkGraph(if down then prev else next, g)} :: IsFkGraph(if down then prev else next, g) ==>
              (defer <==> CanBracket(dialect, down) && TouchesAny(if down then prev else next, g, changes))
  {
    var schema := if down then prev else next;
    if down && dialect.Postgres? {
      graph := FkGraph(schema);
      return false, graph;
    }
    if !dialect.DeferrableFks() && !dialect.Mysql? {
      graph := FkGraph(schema);
      return false, graph;
    }
    var info;
    info, graph := DetectCycles(schema);
    forall g | IsFkGraph(schema, g)
      ensures info.models == {} ==> !TouchesAny(schema, g, changes)
      ensures TouchesAny(schema, g, changes) <==> exists i :: 0 <= i < |changes| && TouchesReported(info, changes[i])
    {
      ReportedExact(schema, g, info, changes);
    }
    if info.models == {} {
      return false, graph;
    }
    defer := AffectsCycle(info, changes);
  }

  /** Asking the report is asking the graph. */
  lemma ReportedExact(schema: Schema, g: Digraph, info: CycleInfo, changes: seq<Change>)
    requires IsFkGraph(schema, g) && Exact(schema, g, info)
    ensures info.models == {} ==> !TouchesAny(schema, g, changes)
    ensures TouchesAny(schema, g, changes) <==> exists i :: 0 <= i < |changes| && TouchesReported(info, changes[i])
  {
    forall c ensures TouchesReported(info, c) <==> Touches(schema, g, c) {
      TouchesReportedExact(schema, g, info, c);
    }
    if i :| 0 <= i < |changes| && Touches(schema, g, changes[i]) {
      TouchedMeansCycle(schema, g, info, changes[i]);
    }
  }

  // ---- What an unbracketed migration can rely on ------------------------------------------

  /** Each model refers only to models created before it, or not created at all. */
  ghost predicate IsCreationOrder(relations: seq<ResolvedRelation>, created: set<ModelName>, order: seq<ModelName>) {
    && (forall m :: m in order <==> m in created)
    && (forall i, j :: 0 <= i < j < |order| ==> order[i] != order[j])
    && (forall r, i :: r in relations && 0 <= i < |order| && r.owner == order[i] ==> r.target !in order[i..])
  }

  ghost function ReachableIn(g: Digraph, within: set<ModelName>, u: ModelName): set<ModelName> {
    set w | w in within && Reach(g, u, w)
  }

  lemma SuccessorReachesLess(g: Digraph, within: set<ModelName>, u: ModelName, w: ModelName)
    requires Edge(g, u, w) && !OnCycle(g, u) && u in within
    ensures ReachableIn(g, within, w) < ReachableIn(g, within, u)
  {
    ReachEdge(g, u, w);
    forall x | x in ReachableIn(g, within, w) ensures Reach(g, u, x) {
      ReachTrans(g, u, w, x);
    }
    ReachRefl(g, u);
    OnCycleByEdge(g, u);
    assert u !in ReachableIn(g, within, w);
  }

  /** Following edges inside an acyclic set ends at a member that refers to no other member. */
  lemma Sink(g: Digraph, within: set<ModelName>, u: ModelName) returns (v: ModelName)
    requires u in within && forall m :: m in within ==> !OnCycle(g, m)
    ensures v in within && forall w :: w in within ==> !Edge(g, v, w)
    decreases ReachableIn(g, within, u)
  {
    if w :| w in within && Edge(g, u, w) {
      SuccessorReachesLess(g, within, u, w);
      v := Sink(g, within, w);
    } else {
      v := u;
    }
  }

  lemma CreationOrder(schema: Schema, g: Digraph, created: set<ModelName>) returns (order: seq<ModelName>)
    requires IsFkGraph(schema, g) && forall m :: m in created ==> !OnCycle(g, m)
    ensures IsCreationOrder(schema.relations, created, order)
    decreases created
  {
    if created == {} {
      order := [];
    } else {
      var u :| u in created;
      var v := Sink(g, created, u);
      var rest := CreationOrder(schema, g, created - {v});
      order := [v] + rest;
      forall r, i | r in schema.relations && 0 <= i < |order| && r.owner == order[i]
        ensures r.target !in order[i..]
      {
        if i == 0 {
          assert Refers(schema.relations, r.owner, r.target);
        } else {
          assert order[i..] == rest[i - 1..];
        }
      }
    }
  }

  predicate Creates(changes: seq<Change>, m: ModelName) {
    exists c :: c in changes && c.CreateModel? && c.created.name == m
  }

  /** The columns that a change of a column is about. */
  function ColumnsOf(c: Change): set<string> {
    match c
    case AddColumn(_, f) => {f.column}
    case AlterColumn(_, from, to, _) => {from.column, to.column}
    case DropColumn(_, column) => {column}
    case RenameColumn(_, _, _, from, to) => {from, to}
    case _ => {}
  }

  /** No change of a column is about one of a foreign key that closes a cycle. */
  ghost predicate SparesCycles(relations: seq<ResolvedRelation>, g: Digraph, changes: seq<Change>) {
    forall c, r, x :: c in changes && x in ColumnsOf(c) && r in relations && r.owner == c.model && ClosesCycle(g, r) ==>
      x !in r.ownerCols
  }

  lemma UntouchedSpares(schema: Schema, g: Digraph, changes: seq<Change>)
    requires forall c :: c in changes ==> !Touches(schema, g, c)
    ensures SparesCycles(schema.relations, g, changes)
  {
    forall c, r, x | c in changes && x in ColumnsOf(c) && r in schema.relations && r.owner == c.model && ClosesCycle(g, r)
      ensures x !in r.ownerCols
    {
      assert !CycleField(schema.relations, g, c.model, x);
    }
  }

  /**
   An up migration that is not bracketed, on any dialect: no added foreign key closes a
   cycle of the new schema, and the created models have a creation order.
   */
  lemma UnbracketedUpMigration(next: Schema, g: Digraph, dialect: Dialect, changes: seq<Change>, created: set<ModelName>)
    returns (order: seq<ModelName>)
    requires IsFkGraph(next, g)
    requires !(CanBracket(dialect, false) && TouchesAny(next, g, changes))
    requires forall m :: m in created ==> Creates(changes, m)
    ensures IsCreationOrder(next.relations, created, order)
    ensures forall c :: c in changes && c.AddForeignKey? && c.relation in next.relations ==> !ClosesCycle(g, c.relation)
    ensures SparesCycles(next.relations, g, changes)
  {
    forall c | c in changes ensures !Touches(next, g, c) {
      var i :| 0 <= i < |changes| && changes[i] == c;
    }
    UntouchedSpares(next, g, changes);
    forall m | m in created ensures !OnCycle(g, m) {
      var c :| c in changes && c.CreateModel? && c.created.name == m;
      assert !Touches(next, g, c);
    }
    order := CreationOrder(next, g, created);
    forall c | c in changes && c.AddForeignKey? && c.relation in next.relations ensures !ClosesCycle(g, c.relation) {
      assert !Touches(next, g, c);
      assert !NamesClosing(next.relations, g, c.relation.name);
    }
  }

  /** Each model goes before the models it refers to, unless those stay. */
  ghost predicate IsDropOrder(relations: seq<ResolvedRelation>, dropped: set<ModelName>, order: seq<ModelName>) {
    && (forall m :: m in order <==> m in dropped)
    && (forall i, j :: 0 <= i < j < |order| ==> order[i] != order[j])
    && (forall r, i :: r in relations && 0 <= i < |order| && r.owner == order[i] ==> r.target !in order[..i + 1])
  }

  lemma DropOrder(schema: Schema, g: Digraph, dropped: set<ModelName>) returns (order: seq<ModelName>)
    requires IsFkGraph(schema, g) && forall m :: m in dropped ==> !OnCycle(g, m)
    ensures IsDropOrder(schema.relations, dropped, order)
    decreases dropped
  {
    if dropped == {} {
      order := [];
    } else {
      var u :| u in dropped;
      var v := Sink(g, dropped, u);
      var rest := DropOrder(schema, g, dropped - {v});
      order := rest + [v];
      forall r, i | r in schema.relations && 0 <= i < |order| && r.owner == order[i]
        ensures r.target !in order[..i + 1]
      {
        assert Refers(schema.relations, r.owner, r.target);
        if i < |rest| {
          assert order[..i + 1] == rest[..i + 1];
        } else {
          assert order[..i + 1] == order;
        }
      }
    }
  }

  predicate Drops(changes: seq<Change>, m: ModelName) {
    exists c :: c in changes && c.DropModel? && c.dropped == m
  }

  /**
   A down migration that is not bracketed, on a dialect that could: no dropped foreign key
   closes a cycle of the schema it came from, and the dropped models can go one by one,
   each before those it refers to. Postgres never brackets on the way down.
   */
  lemma UnbracketedDownMigration(prev: Schema, g: Digraph, dialect: Dialect, changes: seq<Change>, dropped: set<ModelName>)
    returns (order: seq<ModelName>)
    requires IsFkGraph(prev, g) && !dialect.Postgres?
    requires !(CanBracket(dialect, true) && TouchesAny(prev, g, changes))
    requires forall m :: m in dropped ==> Drops(changes, m)
    ensures IsDropOrder(prev.relations, dropped, order)
    ensures forall c :: c in changes && c.DropForeignKey? && c.relation in prev.relations ==> !ClosesCycle(g, c.relation)
    ensures SparesCycles(prev.relations, g, changes)
  {
    forall c | c in changes ensures !Touches(prev, g, c) {
      var i :| 0 <= i < |changes| && changes[i] == c;
    }
    UntouchedSpares(prev, g, changes);
    forall m | m in dropped ensures !OnCycle(g, m) {
      var c :| c in changes && c.DropModel? && c.dropped == m;
      assert !Touches(prev, g, c);
    }
    order := DropOrder(prev, g, dropped);
    forall c | c in changes && c.DropForeignKey? && c.relation in prev.relations ensures !ClosesCycle(g, c.relation) {
      assert !Touches(prev, g, c);
      assert !NamesClosing(prev.relations, g, c.relation.name);
    }
  }
}
