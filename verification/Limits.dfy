/**
 Tidy pairs of schemas of one model on which a migration does not do what one would hope,
 as concrete inputs. `Migrate` and `Conform` say when this happens; here is that it does.
 */
module Limits {
  import opened Names
  import opened Ir
  import opened Catalogue
  import opened Diff
  import opened Plan
  import opened Effects
  import opened Tidy
  import opened Trace
  import opened Refine
  import opened Fates
  import opened Constraints
  import opened Tables
  import opened ConDiff
  import opened Outcome
  import opened ConRun
  import opened Migrate
  import opened Conform

  const NAME := ModelName("Account")
  const ID := FieldName("id")
  const A := FieldName("a")
  const B := FieldName("b")

  const INT := Scalar(ScalarType.Int)
  const BIG := Scalar(ScalarType.BigInt)
  const TEXT := Scalar(ScalarType.String)

  lemma NamesDiffer()
    ensures ID != A && ID != B && A != B
    ensures "id" != "a" && "id" != "b" && "a" != "b" && "id" != "years" && "a" != "years" && "id" != "tag" && "a" != "tag"
  {
    assert "id"[0] != "a"[0] && "id"[0] != "b"[0] && "a"[0] != "b"[0];
    assert "years"[0] != "id"[0] && "years"[0] != "a"[0] && "tag"[0] != "id"[0] && "tag"[0] != "a"[0];
  }

  // ---- Schemas of one model -------------------------------------------------------------------

  function Account(fields: IndexMap<FieldName, Field>, key: FieldName, indexes: seq<IndexDef>, uniques: seq<IndexDef>): Model {
    Model(NAME, "accounts", fields, [key], indexes, uniques)
  }

  function Only(m: Model): Schema {
    Schema(IndexMap([], map[]), IndexMap([NAME], map[NAME := m]), [])
  }

  function Nothing(): Schema {
    Schema(IndexMap([], map[]), IndexMap([], map[]), [])
  }

  /** A model that can stand alone: with a key, and with definitions on its own columns that are named apart. */
  ghost predicate Alone(m: Model) {
    && m.Valid() && m.HasOneKey() && SoundKey(m) && m.name == NAME && m.table == "accounts"
    && DistinctNames(m.indexes) && DistinctNames(m.uniques) && KindsNamedApart(m)
    && ColumnTargets(m, m.indexes) && ColumnTargets(m, m.uniques)
  }

  lemma OnlyIs(m: Model)
    requires Alone(m)
    ensures Only(m).Valid() && SoundConstraints(Only(m))
    ensures (forall k :: Only(m).models.Has(k) <==> k == NAME) && Only(m).models.Get(NAME) == m && Only(m).Table(NAME) == "accounts"
  {}

  lemma OnlyTidy(p: Model, q: Model)
    requires Alone(p) && Alone(q) && TidyModel(p, q)
    ensures TidySchemas(Only(p), Only(q)) && TidyConstraints(Only(p), Only(q))
  {
    OnlyIs(p);
    OnlyIs(q);
  }

  lemma OnlyNoOthers(p: Model, q: Model, c: Change)
    ensures !EmittedEnum(Only(p), Only(q), c) && !EmittedForeignKey(Only(p), Only(q), c)
  {
    assert ForeignKeys([]) == map[];
  }

  lemma OnlyWithin(p: Model, q: Model, c: Change)
    ensures EmittedModel(Only(p), Only(q), c) <==> EmittedWithin(NAME, p, q, c)
  {}

  /** The changes between two such schemas are those within the model. */
  lemma OnlyEmitted(p: Model, q: Model, c: Change)
    ensures Emitted(Only(p), Only(q), c) <==> EmittedWithin(NAME, p, q, c)
  {
    OnlyWithin(p, q, c);
    OnlyNoOthers(p, q, c);
  }

  lemma OnlyDiff(p: Model, q: Model, all: seq<Change>)
    requires NoDup(all) && forall c :: c in all <==> EmittedWithin(NAME, p, q, c)
    ensures IsDiff(Only(p), Only(q), all)
  {
    forall c {
      OnlyEmitted(p, q, c);
    }
  }

  lemma OnlyPair(p: Model, q: Model, all: seq<Change>)
    requires Alone(p) && Alone(q) && TidyModel(p, q) && NoDup(all) && forall c :: c in all <==> EmittedWithin(NAME, p, q, c)
    ensures TidyPair(Only(p), Only(q), all)
  {
    OnlyTidy(p, q);
    OnlyDiff(p, q, all);
  }

  /** The database of one model without indexes: one table with these columns and keys. */
  ghost predicate Houses(d: Dialect, m: Model, cat: Catalog) {
    && TableIs(d, m, "accounts", cat) && cat.checks
    && (forall t :: t in cat.rows <==> t == "accounts") && (forall k :: k in cat.cols ==> k.table == "accounts")
    && (forall k, con :: ConAt(cat.cons, k) == Some(con) <==>
                         k.table == "accounts" && (k.kind.PrimaryCon? || k.kind.UniqueCon?) && Wants(Only(m), NAME, k.kind, k.name, con))
  }

  lemma HousesConforms(d: Dialect, m: Model, cat: Catalog)
    requires Alone(m) && Houses(d, m, cat) && m.indexes == [] && forall n :: m.OwnsColumn(n) ==> !m.fields.Get(n).isUnique
    ensures Conforms(d, Only(m), cat)
  {
    OnlyIs(m);
    var s := Only(m);
    forall k | k in cat.cons ensures k.table == "accounts" {
      assert ConAt(cat.cons, k) == Some(cat.cons[k]);
    }
    assert NAME in s.models.entries;
    forall t ensures t in cat.rows <==> IsTable(s, t) {}
    forall r ensures !IsFk(s, r) {}
    assert ConsAre(s, NAME, cat.cons);
  }

  lemma EmptySelect(p: Phase, all: seq<Change>)
    requires forall c :: c in all ==> !InPhase(p, all, c)
    ensures Select(p, all, all) == []
  {
    SelectMembers(p, all, all);
    if Select(p, all, all) != [] {
      assert Select(p, all, all)[0] in Select(p, all, all);
    }
  }

  const NONE := Choices([], [], {})

  lemma NoModelChanges(all: seq<Change>)
    requires forall c :: c in all ==> !c.CreateModel? && !c.DropModel?
    ensures Chosen(all, NONE)
  {
    EmptySelect(Creating, all);
    EmptySelect(DroppingTables, all);
  }

  /** The pair is tidy, the database what `prev` describes, and yet the plan does not run. */
  ghost predicate Fails(w: World, d: Dialect, prev: Schema, next: Schema, all: seq<Change>, cat: Catalog) {
    && TidyPair(prev, next, all) && Conforms(d, prev, cat) && Chosen(all, NONE) && Plannable(next, all, NONE)
    && Exec(w, PlanStmts(d, next, all, NONE, false), cat).None?
  }

  /** One column that is not ready is enough. */
  lemma NotReady(w: World, d: Dialect, prev: Schema, next: Schema, m: ModelName, n: FieldName, cat: Catalog)
    requires TidySchemas(prev, next) && Conforms(d, prev, cat) && Surviving(prev, next, m)
    ensures Starts(d, prev, next, cat)
    ensures (Added(prev.models.Get(m), next.models.Get(m), n) && next.Table(m) in cat.rows &&
             Unaddable(w, d, Key(next.Table(m), next.models.Get(m).Column(n)), next.models.Get(m).fields.Get(n),
                       cat.rows[next.Table(m)]))
            ==> !Ready(w, d, prev, next, cat)
    ensures MovesAndAlters(prev.models.Get(m), next.models.Get(m), n) ==> !Ready(w, d, prev, next, cat)
    ensures (Continued(prev.models.Get(m), next.models.Get(m), n) &&
             !Convertible(w, d, prev.models.Get(m), next.models.Get(m), n, next.Table(m), cat)) ==> !Ready(w, d, prev, next, cat)
  {
    assert Starts(d, prev, next, cat) by {
      forall k | Surviving(prev, next, k) ensures TableIs(d, prev.models.Get(k), next.Table(k), cat) {
        TidyWithin(prev, next, k);
      }
    }
    assert MovesAndAlters(prev.models.Get(m), next.models.Get(m), n) ==> Continued(prev.models.Get(m), next.models.Get(m), n);
    assert Ready(w, d, prev, next, cat) ==> ReadyModel(w, d, prev.models.Get(m), next.models.Get(m), next.Table(m), cat);
  }

  lemma UnreadyFails(w: World, d: Dialect, prev: Schema, next: Schema, all: seq<Change>, cat: Catalog)
    requires w.server == d && d.AltersDirectly() && TidyPair(prev, next, all) && Conforms(d, prev, cat) && Chosen(all, NONE)
    requires Starts(d, prev, next, cat) && !Ready(w, d, prev, next, cat)
    ensures Fails(w, d, prev, next, all, cat)
  {
    PlanMigrates(w, d, prev, next, all, NONE, false, cat);
  }

  /** The plan runs, and its result is not what `next` describes. */
  ghost predicate FallsShort(w: World, d: Dialect, prev: Schema, next: Schema, all: seq<Change>, o: Choices, cat: Catalog) {
    && TidyPair(prev, next, all) && Conforms(d, prev, cat) && Chosen(all, o) && Plannable(next, all, o)
    && var run := Exec(w, PlanStmts(d, next, all, o, false), cat);
       run.Some? && !Conforms(d, next, run.value)
  }

  lemma IncompleteFallsShort(w: World, d: Dialect, prev: Schema, next: Schema, all: seq<Change>, o: Choices, cat: Catalog)
    requires w.server == d && d.AltersDirectly() && TidyPair(prev, next, all) && Conforms(d, prev, cat) && Chosen(all, o)
    requires Starts(d, prev, next, cat) && Ready(w, d, prev, next, cat) && !Complete(d, prev, next)
    requires (forall c :: c in o.drops ==> c.DropModel?) && ConsReady(w, next, all, o, false, WithCreated(o.creates, cat.cons))
    ensures FallsShort(w, d, prev, next, all, o, cat)
  {
    PlanMigrates(w, d, prev, next, all, o, false, cat);
    MigratedConforms(w, d, prev, next, all, o, false, cat);
  }

  lemma ConsUnreadyFails(w: World, d: Dialect, prev: Schema, next: Schema, all: seq<Change>, cat: Catalog)
    requires w.server == d && d.AltersDirectly() && TidyPair(prev, next, all) && Conforms(d, prev, cat) && Chosen(all, NONE)
    requires !ConsReady(w, next, all, NONE, false, cat.cons)
    ensures Fails(w, d, prev, next, all, cat)
  {
    PlanMigrates(w, d, prev, next, all, NONE, false, cat);
  }

  lemma BlockedFails(w: World, d: Dialect, prev: Schema, next: Schema, all: seq<Change>, cat: Catalog, k: ConKey)
    requires w.server == d && d.AltersDirectly() && TidyPair(prev, next, all) && Conforms(d, prev, cat) && Chosen(all, NONE)
    requires k in cat.cons && Blocked(d, next, all, k, cat.cons[k])
    ensures Fails(w, d, prev, next, all, cat)
  {
    assert !NoneBlocked(d, next, all, cat.cons);
    ConsUnreadyFails(w, d, prev, next, all, cat);
  }

  // ---- Models of two fields ---------------------------------------------------------------------

  function Two(f: Field, g: Field, indexes: seq<IndexDef>, uniques: seq<IndexDef>): Model {
    Account(IndexMap([f.name, g.name], map[f.name := f, g.name := g]), f.name, indexes, uniques)
  }

  /** A key field and another one, with columns of their own. */
  predicate Apart2(f: Field, g: Field) {
    f.name != g.name && f.column != g.column && f.kind.Scalar? && g.kind.Scalar? && !f.optional && !g.isId
  }

  /** No definitions, or one of these fields. */
  predicate OneDef(names: set<FieldName>, indexes: seq<IndexDef>, uniques: seq<IndexDef>) {
    |indexes| + |uniques| <= 1 && forall e, n :: e in indexes + uniques && n in e.targets ==> n in names
  }

  lemma TwoFields(f: Field, g: Field, indexes: seq<IndexDef>, uniques: seq<IndexDef>)
    requires f.name != g.name && f.kind.Scalar? && g.kind.Scalar?
    ensures var m := Two(f, g, indexes, uniques);
            && m.fields.Valid() && m.fields.keys == [f.name, g.name] && m.fields.Get(f.name) == f && m.fields.Get(g.name) == g
            && (forall n :: m.fields.Has(n) <==> n == f.name || n == g.name)
            && (forall n :: m.OwnsColumn(n) <==> n == f.name || n == g.name)
            && TargetColumns(m, m.primary) == [f.column] && m.indexes == indexes && m.uniques == uniques
  {}

  lemma OneDefSound(m: Model, names: set<FieldName>)
    requires OneDef(names, m.indexes, m.uniques) && forall n :: n in names ==> m.OwnsColumn(n)
    ensures DistinctNames(m.indexes) && DistinctNames(m.uniques) && KindsNamedApart(m)
    ensures ColumnTargets(m, m.indexes) && ColumnTargets(m, m.uniques)
  {
    forall e | e in m.indexes || e in m.uniques ensures e in m.indexes + m.uniques {}
  }

  lemma TwoAre(f: Field, g: Field, indexes: seq<IndexDef>, uniques: seq<IndexDef>)
    requires Apart2(f, g) && OneDef({f.name, g.name}, indexes, uniques)
    ensures Alone(Two(f, g, indexes, uniques))
  {
    TwoFields(f, g, indexes, uniques);
    OneDefSound(Two(f, g, indexes, uniques), {f.name, g.name});
  }

  /** One table of two columns. */
  function Stored(d: Dialect, f: Field, g: Field, x: seq<Cell>, y: seq<Cell>): Catalog {
    Catalog(map["accounts" := |x|],
            map[Key("accounts", f.column) := Column(DefOf(d, f), x), Key("accounts", g.column) := Column(DefOf(d, g), y)],
            map[PrimaryOf("accounts") := OnColumns([f.column])], true)
  }

  lemma StoredConforms(d: Dialect, f: Field, g: Field, x: seq<Cell>, y: seq<Cell>)
    requires Apart2(f, g) && |x| == |y| && Null !in x && Null !in y && !f.isUnique && !g.isUnique
    ensures Conforms(d, Only(Two(f, g, [], [])), Stored(d, f, g, x, y))
  {
    TwoAre(f, g, [], []);
    TwoFields(f, g, [], []);
    var m, cat := Two(f, g, [], []), Stored(d, f, g, x, y);
    StoredTable(d, f, g, x, y);
    assert Houses(d, m, cat);
    HousesConforms(d, m, cat);
  }

  lemma StoredTable(d: Dialect, f: Field, g: Field, x: seq<Cell>, y: seq<Cell>)
    requires Apart2(f, g) && |x| == |y| && Null !in x && Null !in y
    ensures TableIs(d, Two(f, g, [], []), "accounts", Stored(d, f, g, x, y))
  {
    TwoFields(f, g, [], []);
    var m := Two(f, g, [], []);
    assert m.Column(f.name) == f.column && m.Column(g.name) == g.column;
    assert HasColumnNamed(m, f.column) && HasColumnNamed(m, g.column);
  }

  /** What the diff has for a field that both models have. */
  function FieldChanges(f: Field, g: Field): seq<Change> {
    (if f.column != g.column then [RenameColumn(NAME, f.name, g.name, f.column, g.column)] else []) +
    (if ColumnAspects(f, g) != [] then [AlterColumn(NAME, f, g, ColumnAspects(f, g))] else [])
  }

  lemma OneFieldChanges(f: Field, g: Field, c: Change)
    ensures c in FieldChanges(f, g) <==>
              || (f.column != g.column && c == RenameColumn(NAME, f.name, g.name, f.column, g.column))
              || (ColumnAspects(f, g) != [] && c == AlterColumn(NAME, f, g, ColumnAspects(f, g)))
  {}

  lemma SameField(f: Field)
    ensures FieldChanges(f, f) == []
  {}

  lemma Aspects(f: Field, g: Field)
    requires f.kind != g.kind && f.optional == g.optional
    ensures ColumnAspects(f, g) == if f.default == g.default then [TypeAspect] else [TypeAspect, DefaultAspect]
  {}

  /** The second model has the same two fields, redefined; only `g` may change its column. */
  predicate Follow2(f: Field, g: Field, f2: Field, g2: Field) {
    && Apart2(f, g) && Apart2(f2, g2) && f.name == f2.name && g.name == g2.name && f.column == f2.column
    && f2.renamedFrom.None? && g2.renamedFrom.None?
  }

  lemma FollowRoles(f: Field, g: Field, f2: Field, g2: Field)
    requires Follow2(f, g, f2, g2)
    ensures var p, q := Two(f, g, [], []), Two(f2, g2, [], []);
            && (forall n :: Diff.Kept(p, q, n) <==> n == f.name || n == g.name)
            && (forall n :: !Hinted(p, q, n) && !Added(p, q, n) && !Dropped(p, q, n))
  {
    TwoFields(f, g, [], []);
    TwoFields(f2, g2, [], []);
  }

  lemma FollowTidy(f: Field, g: Field, f2: Field, g2: Field)
    requires Follow2(f, g, f2, g2)
    ensures Alone(Two(f, g, [], [])) && Alone(Two(f2, g2, [], [])) && TidyModel(Two(f, g, [], []), Two(f2, g2, [], []))
  {
    TwoAre(f, g, [], []);
    TwoAre(f2, g2, [], []);
    TwoFields(f, g, [], []);
    TwoFields(f2, g2, [], []);
    FollowRoles(f, g, f2, g2);
  }

  lemma FollowWithin(f: Field, g: Field, f2: Field, g2: Field, c: Change)
    requires Follow2(f, g, f2, g2)
    ensures EmittedWithin(NAME, Two(f, g, [], []), Two(f2, g2, [], []), c) <==> c in FieldChanges(f, f2) + FieldChanges(g, g2)
  {
    FollowRoles(f, g, f2, g2);
    TwoFields(f, g, [], []);
    TwoFields(f2, g2, [], []);
    OneFieldChanges(f, f2, c);
    OneFieldChanges(g, g2, c);
  }

  lemma ChangesOnce(f: Field, g: Field, f2: Field, g2: Field)
    requires Follow2(f, g, f2, g2)
    ensures NoDup(FieldChanges(f, f2) + FieldChanges(g, g2))
    ensures forall c :: c in FieldChanges(f, f2) + FieldChanges(g, g2) ==> c.RenameColumn? || c.AlterColumn?
  {
    forall c ensures c in FieldChanges(f, f2) + FieldChanges(g, g2) ==> c.RenameColumn? || c.AlterColumn? {
      OneFieldChanges(f, f2, c);
      OneFieldChanges(g, g2, c);
    }
    forall c | c in FieldChanges(f, f2) ensures c !in FieldChanges(g, g2) {
      OneFieldChanges(f, f2, c);
      OneFieldChanges(g, g2, c);
    }
    AppendNoDup(FieldChanges(f, f2), FieldChanges(g, g2));
  }

  lemma FollowPair(f: Field, g: Field, f2: Field, g2: Field)
    requires Follow2(f, g, f2, g2)
    ensures TidyPair(Only(Two(f, g, [], [])), Only(Two(f2, g2, [], [])), FieldChanges(f, f2) + FieldChanges(g, g2))
    ensures Chosen(FieldChanges(f, f2) + FieldChanges(g, g2), NONE)
  {
    var all := FieldChanges(f, f2) + FieldChanges(g, g2);
    FollowTidy(f, g, f2, g2);
    ChangesOnce(f, g, f2, g2);
    forall c ensures c in all <==> EmittedWithin(NAME, Two(f, g, [], []), Two(f2, g2, [], []), c) {
      FollowWithin(f, g, f2, g2, c);
    }
    OnlyPair(Two(f, g, [], []), Two(f2, g2, [], []), all);
    NoModelChanges(all);
  }

  /** If the second field stands in the way, the plan fails. */
  lemma FollowFails(w: World, d: Dialect, f: Field, g: Field, f2: Field, g2: Field)
    requires w.server == d && d.AltersDirectly() && Follow2(f, g, f2, g2) && !f.isUnique && !g.isUnique
    requires var p, q, cat := Two(f, g, [], []), Two(f2, g2, [], []), Stored(d, f, g, [], []);
             MovesAndAlters(p, q, g.name) || (Continued(p, q, g.name) && !Convertible(w, d, p, q, g.name, "accounts", cat))
    ensures Fails(w, d, Only(Two(f, g, [], [])), Only(Two(f2, g2, [], [])), FieldChanges(f, f2) + FieldChanges(g, g2),
                  Stored(d, f, g, [], []))
  {
    var p, q, cat := Two(f, g, [], []), Two(f2, g2, [], []), Stored(d, f, g, [], []);
    FollowPair(f, g, f2, g2);
    FollowTidy(f, g, f2, g2);
    OnlyIs(p);
    OnlyIs(q);
    StoredConforms(d, f, g, [], []);
    NotReady(w, d, Only(p), Only(q), NAME, g.name, cat);
    UnreadyFails(w, d, Only(p), Only(q), FieldChanges(f, f2) + FieldChanges(g, g2), cat);
  }

  // ---- A field that is altered -----------------------------------------------------------------

  function IdField(kind: FieldKind): Field {
    Field(ID, "id", kind, false, None, None, false, true)
  }

  function FieldA(column: string, kind: FieldKind, default: Option<DefaultValue>): Field {
    Field(A, column, kind, false, default, None, false, false)
  }

  /** A model of an `@id` and a field `a`. */
  function Plain(a: Field): Model {
    Two(IdField(INT), a, [], [])
  }

  /** A field that changes its column and its type at once is renamed twice, even without any data. */
  lemma MovedAndRetyped(w: World, d: Dialect)
    requires w.server == d && d.AltersDirectly()
    ensures var a, a2 := FieldA("a", INT, None), FieldA("years", BIG, None);
            var all := [RenameColumn(NAME, A, A, "a", "years"), AlterColumn(NAME, a, a2, [TypeAspect])];
            Fails(w, d, Only(Plain(a)), Only(Plain(a2)), all, Stored(d, IdField(INT), a, [], []))
  {
    NamesDiffer();
    var id, a, a2 := IdField(INT), FieldA("a", INT, None), FieldA("years", BIG, None);
    FollowRoles(id, a, id, a2);
    TwoFields(id, a, [], []);
    TwoFields(id, a2, [], []);
    assert MovesAndAlters(Plain(a), Plain(a2), A);
    SameField(id);
    Aspects(a, a2);
    assert FieldChanges(id, id) + FieldChanges(a, a2) ==
           [RenameColumn(NAME, A, A, "a", "years"), AlterColumn(NAME, a, a2, [TypeAspect])];
    FollowFails(w, d, id, a, id, a2);
  }

  function TextDefault(): Option<DefaultValue> {
    Some(LiteralDefault(StringLit("x")))
  }

  function IntDefault(): Option<DefaultValue> {
    Some(LiteralDefault(IntLit(0)))
  }

  lemma TextStays(w: World)
    requires !w.recasts(LiteralSql(StringLit("x")), TEXT, INT)
    ensures var a, a2 := FieldA("a", TEXT, TextDefault()), FieldA("a", INT, IntDefault());
            Continued(Plain(a), Plain(a2), A) &&
            !Convertible(w, Postgres, Plain(a), Plain(a2), A, "accounts", Stored(Postgres, IdField(INT), a, [], []))
  {
    NamesDiffer();
    var id, a, a2 := IdField(INT), FieldA("a", TEXT, TextDefault()), FieldA("a", INT, IntDefault());
    FollowRoles(id, a, id, a2);
    TwoFields(id, a, [], []);
    var cat := Stored(Postgres, id, a, [], []);
    assert Plain(a).Column(A) == "a" && Key("accounts", "a") in cat.cols;
    assert cat.cols[Key("accounts", "a")].def == ColumnDef(TEXT, true, Some(LiteralSql(StringLit("x"))));
  }

  /**
   Postgres changes the type before the default. A default that has no counterpart in the new
   type stops the migration, even on an empty table, and although the new default would do.
   */
  lemma OldDefaultInTheWay(w: World)
    requires w.server == Postgres && !w.recasts(LiteralSql(StringLit("x")), TEXT, INT)
    ensures var a, a2 := FieldA("a", TEXT, TextDefault()), FieldA("a", INT, IntDefault());
            var all := [AlterColumn(NAME, a, a2, [TypeAspect, DefaultAspect])];
            Fails(w, Postgres, Only(Plain(a)), Only(Plain(a2)), all, Stored(Postgres, IdField(INT), a, [], []))
  {
    NamesDiffer();
    var id, a, a2 := IdField(INT), FieldA("a", TEXT, TextDefault()), FieldA("a", INT, IntDefault());
    TextStays(w);
    SameField(id);
    Aspects(a, a2);
    assert FieldChanges(id, id) + FieldChanges(a, a2) == [AlterColumn(NAME, a, a2, [TypeAspect, DefaultAspect])];
    FollowFails(w, Postgres, id, a, id, a2);
  }

  /** MySQL restates `PRIMARY KEY` when it changes the type of an `@id`, and so refuses, even on an empty table. */
  lemma KeyCannotBeRetyped(w: World)
    requires w.server == Mysql
    ensures var id, id2, a := IdField(INT), IdField(BIG), FieldA("a", INT, None);
            var all := [AlterColumn(NAME, id, id2, [TypeAspect])];
            Fails(w, Mysql, Only(Two(id, a, [], [])), Only(Two(id2, a, [], [])), all, Stored(Mysql, id, a, [], []))
  {
    NamesDiffer();
    var id, id2, a := IdField(INT), IdField(BIG), FieldA("a", INT, None);
    var next, cat, all := Only(Two(id2, a, [], [])), Stored(Mysql, id, a, [], []), [AlterColumn(NAME, id, id2, [TypeAspect])];
    SameField(a);
    Aspects(id, id2);
    assert FieldChanges(id, id2) + FieldChanges(a, a) == all;
    FollowPair(id, a, id2, a);
    StoredConforms(Mysql, id, a, [], []);
    RetypeBlocks(id, id2, a);
    BlockedFails(w, Mysql, Only(Two(id, a, [], [])), next, all, cat, PrimaryOf("accounts"));
  }

  lemma RetypeBlocks(id: Field, id2: Field, a: Field)
    requires Apart2(id2, a) && id2.isId
    ensures Blocked(Mysql, Only(Two(id2, a, [], [])), [AlterColumn(NAME, id, id2, [TypeAspect])], PrimaryOf("accounts"),
                    OnColumns(["id"]))
  {
    var next, all := Only(Two(id2, a, [], [])), [AlterColumn(NAME, id, id2, [TypeAspect])];
    TwoAre(id2, a, [], []);
    OnlyIs(Two(id2, a, [], []));
    RestatedKeyBlocks(next, all, all[0], OnColumns(["id"]));
  }

  /** Any alter of an `@id` field. */
  lemma RestatedKeyBlocks(next: Schema, all: seq<Change>, c: Change, con: Con)
    requires c in all && c.AlterColumn? && c.to.isId && WellNamed(next, c) && con.OnColumns?
    requires forall e :: e in all ==> e.AlterColumn?
    ensures Blocked(Mysql, next, all, PrimaryOf(next.Table(c.model)), con)
  {
    var k := PrimaryOf(next.Table(c.model));
    SelectMembers(Altering, all, all);
    EmptySelect(ClearingWay, all);
    assert EarlyGone(next, all) == [];
    assert Remains(Mysql, KeySet(EarlyGone(next, all)), k, con) == Some(con);
    assert ChangeObjects(Mysql, next, c, k, Shifted(Renamings(next, all), k, con));
  }

  // ---- A field that becomes unique ------------------------------------------------------------------------

  lemma EmptyPlan(w: World, d: Dialect, next: Schema, cat: Catalog)
    ensures Plannable(next, [], NONE) && Exec(w, PlanStmts(d, next, [], NONE, false), cat) == Some(cat)
  {}

  /** A field that becomes `@unique` changes nothing: the diff is empty, and the database not what `next` describes. */
  lemma UniqueIsNotMigrated(w: World, d: Dialect)
    requires w.server == d && d.AltersDirectly()
    ensures var a := FieldA("a", TEXT, None);
            var prev, next, cat := Only(Plain(a)), Only(Plain(a.(isUnique := true))), Stored(d, IdField(INT), a, [Of(1)], [Of(7)]);
            && TidyPair(prev, next, []) && Conforms(d, prev, cat) && Plannable(next, [], NONE)
            && Exec(w, PlanStmts(d, next, [], NONE, false), cat) == Some(cat) && !Conforms(d, next, cat)
  {
    NamesDiffer();
    var id, a := IdField(INT), FieldA("a", TEXT, None);
    var a2 := a.(isUnique := true);
    var prev, next, cat := Only(Plain(a)), Only(Plain(a2)), Stored(d, id, a, [Of(1)], [Of(7)]);
    FollowPair(id, a, id, a2);
    SameField(id);
    assert FieldChanges(a, a2) == [];
    assert FieldChanges(id, id) + FieldChanges(a, a2) == [];
    StoredConforms(d, id, a, [Of(1)], [Of(7)]);
    EmptyPlan(w, d, next, cat);
    MigratedConforms(w, d, prev, next, [], NONE, false, cat);
    UniqueIncomplete(d, id, a, a2);
  }

  lemma UniqueIncomplete(d: Dialect, id: Field, a: Field, a2: Field)
    requires Follow2(id, a, id, a2) && a2.isUnique && !a.isUnique
    ensures !Complete(d, Only(Two(id, a, [], [])), Only(Two(id, a2, [], [])))
  {
    var p, q := Two(id, a, [], []), Two(id, a2, [], []);
    FollowRoles(id, a, id, a2);
    FollowTidy(id, a, id, a2);
    TwoFields(id, a, [], []);
    TwoFields(id, a2, [], []);
    OnlyIs(p);
    OnlyIs(q);
    assert a.name in q.fields.entries && q.OwnsColumn(a.name) && !InheritsUnique(p, q, a.name);
    assert !KeepsUniques(p, q);
    assert !KeepsAll(d, Only(p), Only(q), NAME);
  }

  // ---- A field that is added ---------------------------------------------------------------------

  function ThreeMap(f: Field, g: Field, h: Field): IndexMap<FieldName, Field> {
    IndexMap([f.name, g.name, h.name], map[f.name := f, g.name := g, h.name := h])
  }

  function Three(f: Field, g: Field, h: Field, key: FieldName, uniques: seq<IndexDef>): Model {
    Account(ThreeMap(f, g, h), key, [], uniques)
  }

  predicate Apart3(f: Field, g: Field, h: Field, key: FieldName) {
    && f.name != g.name && f.name != h.name && g.name != h.name && key in {f.name, g.name, h.name}
    && f.column != g.column && f.column != h.column && g.column != h.column
    && f.kind.Scalar? && g.kind.Scalar? && h.kind.Scalar?
    && (f.name == key ==> !f.optional) && (g.name == key ==> !g.optional) && (h.name == key ==> !h.optional)
    && (f.isId ==> f.name == key) && (g.isId ==> g.name == key) && (h.isId ==> h.name == key)
  }

  lemma ThreeFields(f: Field, g: Field, h: Field, key: FieldName, uniques: seq<IndexDef>)
    requires f.name != g.name && f.name != h.name && g.name != h.name && f.kind.Scalar? && g.kind.Scalar? && h.kind.Scalar?
    ensures var m := Three(f, g, h, key, uniques);
            && m.fields.Valid() && m.fields.keys == [f.name, g.name, h.name]
            && m.fields.Get(f.name) == f && m.fields.Get(g.name) == g && m.fields.Get(h.name) == h
            && (forall n :: m.fields.Has(n) <==> n == f.name || n == g.name || n == h.name)
            && (forall n :: m.OwnsColumn(n) <==> n == f.name || n == g.name || n == h.name)
            && m.primary == [key] && m.indexes == [] && m.uniques == uniques
  {}

  lemma ThreeAre(f: Field, g: Field, h: Field, key: FieldName, uniques: seq<IndexDef>)
    requires Apart3(f, g, h, key) && OneDef({f.name, g.name, h.name}, [], uniques)
    ensures Alone(Three(f, g, h, key, uniques))
  {
    ThreeFields(f, g, h, key, uniques);
    OneDefSound(Three(f, g, h, key, uniques), {f.name, g.name, h.name});
  }

  /** The third field is new; of the others, only the `@id` may change. */
  predicate Extends(f: Field, g: Field, f2: Field, h: Field, key: FieldName) {
    && Apart2(f, g) && Apart3(f2, g, h, key) && f2 == f.(isId := f2.isId)
    && f2.renamedFrom.None? && g.renamedFrom.None? && h.renamedFrom.None?
  }

  lemma ExtendRoles(f: Field, g: Field, f2: Field, h: Field, key: FieldName, q: Model)
    requires Extends(f, g, f2, h, key) && q.fields == ThreeMap(f2, g, h)
    ensures var p := Two(f, g, [], []);
            && (forall n :: Diff.Kept(p, q, n) <==> n == f.name || n == g.name) && (forall n :: Added(p, q, n) <==> n == h.name)
            && (forall n :: !Hinted(p, q, n) && !Dropped(p, q, n))
  {
    TwoFields(f, g, [], []);
    ThreeFields(f2, g, h, key, []);
  }

  lemma ExtendTidy(f: Field, g: Field, f2: Field, h: Field, key: FieldName, q: Model)
    requires Extends(f, g, f2, h, key) && q.fields == ThreeMap(f2, g, h)
    ensures Alone(Two(f, g, [], [])) && TidyModel(Two(f, g, [], []), q)
  {
    TwoAre(f, g, [], []);
    TwoFields(f, g, [], []);
    ThreeFields(f2, g, h, key, []);
    ExtendRoles(f, g, f2, h, key, q);
  }

  lemma ExtendColumns(f: Field, g: Field, f2: Field, h: Field, key: FieldName, q: Model, c: Change)
    requires Extends(f, g, f2, h, key) && q.fields == ThreeMap(f2, g, h)
    ensures EmittedColumn(NAME, Two(f, g, [], []), q, c) <==> c == AddColumn(NAME, h)
  {
    ExtendRoles(f, g, f2, h, key, q);
    TwoFields(f, g, [], []);
    ThreeFields(f2, g, h, key, []);
    assert ColumnAspects(f, f2) == [] && ColumnAspects(g, g) == [];
    assert !EmittedDrop(NAME, Two(f, g, [], []), q, c);
  }

  lemma ExtendPair(f: Field, g: Field, f2: Field, h: Field, key: FieldName)
    requires Extends(f, g, f2, h, key)
    ensures TidyPair(Only(Two(f, g, [], [])), Only(Three(f2, g, h, key, [])), [AddColumn(NAME, h)])
    ensures Chosen([AddColumn(NAME, h)], NONE)
  {
    var q := Three(f2, g, h, key, []);
    ThreeAre(f2, g, h, key, []);
    ExtendTidy(f, g, f2, h, key, q);
    forall c ensures c in [AddColumn(NAME, h)] <==> EmittedWithin(NAME, Two(f, g, [], []), q, c) {
      ExtendColumns(f, g, f2, h, key, q, c);
    }
    OnlyPair(Two(f, g, [], []), Three(f2, g, h, key, []), [AddColumn(NAME, h)]);
    NoModelChanges([AddColumn(NAME, h)]);
  }

  const UUID := Scalar(ScalarType.Uuid)

  /** A required field whose default the client generates. */
  function Tag(): Field {
    Field(B, "tag", UUID, false, Some(FunctionDefault(Uuid7)), None, false, false)
  }

  lemma TagUnaddable(w: World, d: Dialect, k: Key, rows: nat)
    requires rows > 0
    ensures Unaddable(w, d, k, Tag(), rows) <==> Implicit(w, UUID).None?
  {
    assert DefOf(d, Tag()).default == None;
    if Implicit(w, UUID).None? {
      assert NewCells(w, k, DefOf(d, Tag()), rows)[0] == Null;
    }
  }

  /**
   A required column with a client-side default cannot be added to a table that has a row,
   unless the server fills it in by itself; Postgres never does.
   */
  lemma ClientDefaultNeedsEmptyTable(w: World, d: Dialect)
    requires w.server == d && d.AltersDirectly() && (d.Mysql? ==> w.implicit(UUID).None?)
    ensures var id, a := IdField(INT), FieldA("a", INT, None);
            Fails(w, d, Only(Plain(a)), Only(Three(id, a, Tag(), ID, [])), [AddColumn(NAME, Tag())], Stored(d, id, a, [Of(1)], [Of(7)]))
  {
    NamesDiffer();
    var id, a := IdField(INT), FieldA("a", INT, None);
    var p, q, cat := Plain(a), Three(id, a, Tag(), ID, []), Stored(d, id, a, [Of(1)], [Of(7)]);
    ExtendPair(id, a, id, Tag(), ID);
    StoredConforms(d, id, a, [Of(1)], [Of(7)]);
    TagNotReady(w, d, cat);
    UnreadyFails(w, d, Only(p), Only(q), [AddColumn(NAME, Tag())], cat);
  }

  lemma TagNotReady(w: World, d: Dialect, cat: Catalog)
    requires w.server == d && d.AltersDirectly() && (d.Mysql? ==> w.implicit(UUID).None?)
    requires var a := FieldA("a", INT, None); Conforms(d, Only(Plain(a)), cat) && "accounts" in cat.rows && cat.rows["accounts"] > 0
    requires TidySchemas(Only(Plain(FieldA("a", INT, None))), Only(Three(IdField(INT), FieldA("a", INT, None), Tag(), ID, [])))
    ensures var prev, next := Only(Plain(FieldA("a", INT, None))), Only(Three(IdField(INT), FieldA("a", INT, None), Tag(), ID, []));
            Starts(d, prev, next, cat) && !Ready(w, d, prev, next, cat)
  {
    NamesDiffer();
    var id, a := IdField(INT), FieldA("a", INT, None);
    TwoAre(id, a, [], []);
    ThreeAre(id, a, Tag(), ID, []);
    ExtendRoles(id, a, id, Tag(), ID, Three(id, a, Tag(), ID, []));
    ThreeFields(id, a, Tag(), ID, []);
    OnlyIs(Plain(a));
    OnlyIs(Three(id, a, Tag(), ID, []));
    TagUnaddable(w, d, Key("accounts", "tag"), cat.rows["accounts"]);
    NotReady(w, d, Only(Plain(a)), Only(Three(id, a, Tag(), ID, [])), NAME, B, cat);
  }

  lemma KeyAddFails(w: World, f: Field, g: Field, f2: Field, h: Field, key: FieldName)
    requires w.server == Mysql && Extends(f, g, f2, h, key) && h.isId && !f.isUnique && !g.isUnique
    ensures Fails(w, Mysql, Only(Two(f, g, [], [])), Only(Three(f2, g, h, key, [])), [AddColumn(NAME, h)],
                  Stored(Mysql, f, g, [], []))
  {
    var next, all := Only(Three(f2, g, h, key, [])), [AddColumn(NAME, h)];
    ExtendPair(f, g, f2, h, key);
    StoredConforms(Mysql, f, g, [], []);
    AddedKeyBlocks(f, g, f2, h, key);
    BlockedFails(w, Mysql, Only(Two(f, g, [], [])), next, all, Stored(Mysql, f, g, [], []), PrimaryOf("accounts"));
  }

  lemma AddedKeyBlocks(f: Field, g: Field, f2: Field, h: Field, key: FieldName)
    requires Extends(f, g, f2, h, key) && h.isId
    ensures Blocked(Mysql, Only(Three(f2, g, h, key, [])), [AddColumn(NAME, h)], PrimaryOf("accounts"), OnColumns([f.column]))
  {
    var next, all := Only(Three(f2, g, h, key, [])), [AddColumn(NAME, h)];
    ThreeAre(f2, g, h, key, []);
    OnlyIs(Three(f2, g, h, key, []));
    SelectMembers(Adding, all, all);
    assert all[0] in all;
    KeyAddBlocked(Mysql, next, all, all[0], OnColumns([f.column]));
  }

  /** MySQL renders `PRIMARY KEY` when it adds an `@id` field, which the table's key rules out, even without rows. */
  lemma KeyCannotBeAdded(w: World)
    requires w.server == Mysql
    ensures var a, b := FieldA("a", INT, None).(isId := true), FieldA("b", INT, None).(name := B);
            var all := [AddColumn(NAME, IdField(INT))];
            Fails(w, Mysql, Only(Two(a, b, [], [])), Only(Three(a.(isId := false), b, IdField(INT), ID, [])), all,
                  Stored(Mysql, a, b, [], []))
  {
    NamesDiffer();
    var a, b := FieldA("a", INT, None).(isId := true), FieldA("b", INT, None).(name := B);
    KeyAddFails(w, a, b, a.(isId := false), IdField(INT), ID);
  }

  // ---- A model that is created ---------------------------------------------------------------------

  function Empty(): Catalog {
    Catalog(map[], map[], map[], true)
  }

  lemma NothingIs(d: Dialect)
    ensures Nothing().Valid() && SoundConstraints(Nothing()) && (forall m :: !Nothing().models.Has(m)) && Conforms(d, Nothing(), Empty())
  {}

  lemma CreatedOnly(m: Model, c: Change)
    requires Alone(m)
    ensures Emitted(Nothing(), Only(m), c) <==> c == CreateModel(m)
  {
    OnlyIs(m);
    assert ForeignKeys([]) == map[];
  }

  lemma CreatedPair(m: Model)
    requires Alone(m)
    ensures TidyPair(Nothing(), Only(m), [CreateModel(m)])
    ensures Chosen([CreateModel(m)], Choices([CreateModel(m)], [], {}))
  {
    OnlyIs(m);
    NothingIs(Postgres);
    forall c ensures c in [CreateModel(m)] <==> Emitted(Nothing(), Only(m), c) {
      CreatedOnly(m, c);
    }
    var all := [CreateModel(m)];
    assert Select(Creating, all, all) == all;
    assert Select(DroppingTables, all, all) == [];
  }

  /** Creating a model asks nothing of the constraints. */
  lemma CreatedConsReady(w: World, next: Schema, m: Model, cons: map<ConKey, Con>)
    ensures ConsReady(w, next, [CreateModel(m)], Choices([CreateModel(m)], [], {}), false, cons)
  {
    var all := [CreateModel(m)];
    forall k | k in cons ensures !Blocked(w.server, next, all, k, cons[k]) {
      CreatesUnblocked(w.server, next, all, k, cons[k]);
    }
    CreatesUndone(next, all);
    EmptySelect(Renaming, all);
    NothingHeld(w, Unlinked(w.server, next, all, cons));
    assert Dying([], cons) == map[];
  }

  lemma CreatesUnblocked(d: Dialect, next: Schema, all: seq<Change>, k: ConKey, con: Con)
    requires forall c :: c in all ==> c.CreateModel?
    ensures !Blocked(d, next, all, k, con)
  {
    EmptySelect(Adding, all);
    EmptySelect(ClearingWay, all);
    EmptySelect(Renaming, all);
    EmptySelect(Altering, all);
  }

  lemma CreatesUndone(next: Schema, all: seq<Change>)
    requires forall c :: c in all ==> c.CreateModel?
    ensures FkDrops(all) == [] && KeyDrops(all) == [] && FkAdds(all) == [] && DroppedKeys(next, KeyDrops(all)) == {}
  {
    EmptySelect(DroppingFks, all);
    EmptySelect(DroppingIndexes, all);
    EmptySelect(DroppingUniques, all);
    EmptySelect(AddingFks, all);
  }

  lemma CreatedReady(w: World, d: Dialect, m: Model)
    requires TidySchemas(Nothing(), Only(m))
    ensures Starts(d, Nothing(), Only(m), Empty()) && Ready(w, d, Nothing(), Only(m), Empty())
  {}

  lemma CreatedIncomplete(d: Dialect, m: Model)
    requires Alone(m) && !FullyMade(m)
    ensures !Complete(d, Nothing(), Only(m))
  {
    OnlyIs(m);
  }

  lemma HalfMade(w: World, d: Dialect, m: Model)
    requires w.server == d && d.AltersDirectly() && Alone(m) && !FullyMade(m)
    ensures FallsShort(w, d, Nothing(), Only(m), [CreateModel(m)], Choices([CreateModel(m)], [], {}), Empty())
  {
    var o := Choices([CreateModel(m)], [], {});
    NothingIs(d);
    CreatedPair(m);
    CreatedReady(w, d, m);
    CreatedConsReady(w, Only(m), m, WithCreated(o.creates, Empty().cons));
    CreatedIncomplete(d, m);
    IncompleteFallsShort(w, d, Nothing(), Only(m), [CreateModel(m)], o, Empty());
  }

  /** The index of a new model is never created. */
  lemma NewIndexIsMissing(w: World, d: Dialect)
    requires w.server == d && d.AltersDirectly()
    ensures var m := Two(IdField(INT), FieldA("a", INT, None), [IndexDef("i", [A], 0)], []);
            FallsShort(w, d, Nothing(), Only(m), [CreateModel(m)], Choices([CreateModel(m)], [], {}), Empty())
  {
    NamesDiffer();
    TwoAre(IdField(INT), FieldA("a", INT, None), [IndexDef("i", [A], 0)], []);
    HalfMade(w, d, Two(IdField(INT), FieldA("a", INT, None), [IndexDef("i", [A], 0)], []));
  }

  /** A block `@@id` of one field makes no primary key: the field is not an `@id`, and the block not composite. */
  lemma BlockKeyIsMissing(w: World, d: Dialect)
    requires w.server == d && d.AltersDirectly()
    ensures var m := Two(IdField(INT).(isId := false), FieldA("a", INT, None), [], []);
            m.primary == [ID] &&
            FallsShort(w, d, Nothing(), Only(m), [CreateModel(m)], Choices([CreateModel(m)], [], {}), Empty())
  {
    NamesDiffer();
    TwoAre(IdField(INT).(isId := false), FieldA("a", INT, None), [], []);
    TwoFields(IdField(INT).(isId := false), FieldA("a", INT, None), [], []);
    HalfMade(w, d, Two(IdField(INT).(isId := false), FieldA("a", INT, None), [], []));
  }

  // ---- A schema and itself ---------------------------------------------------------------------------

  /** A hint whose source is still there is followed again and again. */
  lemma HintIsNeverDone(all: seq<Change>)
    ensures var m := Three(IdField(INT), FieldA("a", INT, None), FieldA("b", INT, None).(name := B, renamedFrom := Some(A)), ID, []);
            Only(m).Valid() && (IsDiff(Only(m), Only(m), all) ==> RenameColumn(NAME, A, B, "a", "b") in all)
  {
    NamesDiffer();
    var b := FieldA("b", INT, None).(name := B, renamedFrom := Some(A));
    var m, c := Three(IdField(INT), FieldA("a", INT, None), b, ID, []), RenameColumn(NAME, A, B, "a", "b");
    ThreeAre(IdField(INT), FieldA("a", INT, None), b, ID, []);
    ThreeFields(IdField(INT), FieldA("a", INT, None), b, ID, []);
    OnlyIs(m);
    OnlyEmitted(m, m, c);
    assert Hinted(m, m, B) && HintSource(m, B) == A && m.Column(A) == "a" && m.Column(B) == "b";
    assert EmittedRename(NAME, m, m, c);
  }
}
