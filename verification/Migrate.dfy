/**
 The whole plan: when it runs, and the catalogue it ends in.
 */
module Migrate {
  import opened Names
  import opened Ir
  import opened Catalogue
  import opened Diff
  import opened Plan
  import opened Effects
  import opened Tidy
  import opened Phases
  import opened Trace
  import opened Refine
  import opened Fates
  import opened Constraints
  import opened Tables
  import opened ConDiff
  import opened ColumnRun
  import opened Outcome
  import opened ConRun
  import opened LateFks

  predicate IsTable(s: Schema, t: string) {
    exists m :: m in s.models.entries && s.Table(m) == t
  }

  /** The tables of the catalogue are those of the schema, with exactly its columns. */
  ghost predicate HasTables(d: Dialect, s: Schema, cat: Catalog) {
    && Sound(cat)
    && (forall t :: t in cat.rows <==> IsTable(s, t))
    && (forall m :: s.models.Has(m) ==> TableIs(d, s.models.Get(m), s.Table(m), cat))
  }

  /** Some constraint that came with a field's own `UNIQUE` is `con`; the server names it. */
  ghost predicate InlineAt(cons: map<ConKey, Con>, t: string, con: Con) {
    exists x :: ConAt(cons, ConKey(InlineCon, t, x)) == Some(con)
  }

  /** The constraints on the table of `m` are those that the schema asks for. */
  ghost predicate ConsAre(s: Schema, m: ModelName, cons: map<ConKey, Con>)
    requires s.models.Has(m)
  {
    && (forall kind: ConKind, x, con {:trigger Wants(s, m, kind, x, con)} :: !kind.InlineCon? ==>
          (ConAt(cons, ConKey(kind, s.Table(m), x)) == Some(con) <==> Wants(s, m, kind, x, con)))
    && (forall con :: InlineAt(cons, s.Table(m), con) <==> WantsInline(s.models.Get(m), con))
  }

  /** The catalogue is what the schema describes. */
  ghost predicate Conforms(d: Dialect, s: Schema, cat: Catalog) {
    HasTables(d, s, cat) && cat.checks && forall m :: s.models.Has(m) ==> ConsAre(s, m, cat.cons)
  }

  // ---- Orders of the model changes -------------------------------------------------------------------

  lemma {:induction false} Multiplicity<T>(s: seq<T>)
    ensures NoDup(s) <==> forall x :: multiset(s)[x] <= 1
  {
    if s != [] {
      var init, last := s[..|s| - 1], s[|s| - 1];
      assert s == init + [last];
      Multiplicity(init);
      assert multiset(s)[last] == multiset(init)[last] + 1;
      if NoDup(s) {
        assert last !in init;
      } else if NoDup(init) {
        var i, j :| 0 <= i < j < |s| && s[i] == s[j];
        assert last in init by {
          assert j == |s| - 1;
          assert init[i] == last;
        }
        assert multiset(init)[last] >= 1;
      } else {
        var x :| multiset(init)[x] > 1;
        assert multiset(s)[x] > 1;
      }
    }
  }

  lemma ReorderedMembers(p: Phase, all: seq<Change>, order: seq<Change>)
    requires Reordered(p, all, order) && NoDup(all)
    ensures NoDup(order) && forall c :: c in order <==> c in all && InPhase(p, all, c)
  {
    SelectMembers(p, all, all);
    SelectNoDup(p, all, all);
    Multiplicity(order);
    Multiplicity(Select(p, all, all));
    forall c ensures c in order <==> c in Select(p, all, all) {
      assert c in order <==> c in multiset(order);
      assert c in Select(p, all, all) <==> c in multiset(Select(p, all, all));
    }
  }

  /** The planner never meets a change on a model it cannot look up. */
  lemma DiffRenderable(prev: Schema, next: Schema, all: seq<Change>)
    requires TidyPair(prev, next, all)
    ensures Renderable(next, all)
  {
    forall c | c in all ensures Known(next, c) && (c.CreateModel? ==> c.created.Valid()) {
      assert Emitted(prev, next, c);
      if c.DropForeignKey? {
        EmittedFkDrop(prev, next, c);
      } else if c.AddForeignKey? {
        EmittedFkAdd(prev, next, c);
        assert GroundedFk(next, c.relation);
      }
    }
  }

  lemma CreatesAre(prev: Schema, next: Schema, all: seq<Change>, creates: seq<Change>)
    requires TidyPair(prev, next, all) && Reordered(Creating, all, creates)
    ensures forall c :: c in creates <==> c.CreateModel? && Emitted(prev, next, c)
    ensures DistinctCreates(creates)
  {
    ReorderedMembers(Creating, all, creates);
    forall c | c in creates ensures c.CreateModel? && c.created.Valid() {
      assert Emitted(prev, next, c);
    }
    forall i, j | 0 <= i < j < |creates|
      ensures creates[i].CreateModel? && creates[j].CreateModel? && creates[i].created.table != creates[j].created.table
    {
      var c, e := creates[i], creates[j];
      assert c in creates && e in creates && c != e;
      assert Emitted(prev, next, c) && Emitted(prev, next, e);
      DistinctTables(next, c.created.name, e.created.name);
    }
  }

  /** The created tables are those of the models that are new. */
  lemma CreatedTables(prev: Schema, next: Schema, all: seq<Change>, creates: seq<Change>, t: string)
    requires TidyPair(prev, next, all) && Reordered(Creating, all, creates)
    ensures CreatesTable(creates, t) <==> exists m :: next.models.Has(m) && !prev.models.Has(m) && next.Table(m) == t
  {
    CreatesAre(prev, next, all, creates);
    if CreatesTable(creates, t) {
      var c :| c in creates && c.CreateModel? && c.created.table == t;
      assert Emitted(prev, next, c);
    }
    if m :| next.models.Has(m) && !prev.models.Has(m) && next.Table(m) == t {
      var c := CreateModel(next.models.Get(m));
      assert Emitted(prev, next, c);
      assert c in creates;
    }
  }

  /** The dropped tables are those of the models that are gone. */
  lemma DroppedTables(prev: Schema, next: Schema, all: seq<Change>, drops: seq<Change>)
    requires TidyPair(prev, next, all) && Reordered(DroppingTables, all, drops)
    ensures forall c :: c in drops ==> c.DropModel?
    ensures DyingTables(prev, next, TablesOf(drops))
  {
    ReorderedMembers(DroppingTables, all, drops);
    forall t ensures t in TablesOf(drops) <==> IsDyingTable(prev, next, t) {
      if t in TablesOf(drops) {
        var c :| c in drops && c.DropModel? && c.table == t;
        assert Emitted(prev, next, c);
      }
      if m :| prev.models.Has(m) && !next.models.Has(m) && prev.Table(m) == t {
        var c := DropModel(m, t);
        assert Emitted(prev, next, c);
        assert c in drops;
      }
    }
  }

  // ---- From the old catalogue to the first stage ---------------------------------------------------------

  ghost predicate IsNew(prev: Schema, next: Schema, m: ModelName) {
    next.models.Has(m) && !prev.models.Has(m)
  }

  /** New tables stand beside the old ones. */
  ghost predicate Created(d: Dialect, prev: Schema, next: Schema, cat: Catalog, k0: Catalog) {
    && Sound(k0)
    && (forall t :: IsTable(prev, t) ==> SameTable(cat, k0, t))
    && (forall m :: IsNew(prev, next, m) ==> Built(d, next.models.Get(m), k0))
    && (forall t :: t in k0.rows <==> IsTable(prev, t) || IsTable(next, t))
  }

  lemma FreshTable(prev: Schema, next: Schema, m: ModelName)
    requires TidySchemas(prev, next) && IsNew(prev, next, m)
    ensures !IsTable(prev, next.Table(m))
  {}

  lemma AfterCreates(w: World, d: Dialect, prev: Schema, next: Schema, all: seq<Change>, creates: seq<Change>, cat: Catalog)
    returns (k0: Catalog)
    requires TidyPair(prev, next, all) && Reordered(Creating, all, creates) && Renderable(next, creates)
    requires HasTables(d, prev, cat)
    ensures Exec(w, RenderAll(d, next, creates), cat) == Some(k0)
    ensures Created(d, prev, next, cat, k0)
    ensures k0.cons == WithCreated(creates, cat.cons) && k0.checks == cat.checks
  {
    CreatesAre(prev, next, all, creates);
    forall t ensures CreatesTable(creates, t) <==> exists m :: IsNew(prev, next, m) && next.Table(m) == t {
      CreatedTables(prev, next, all, creates, t);
    }
    forall t | CreatesTable(creates, t) ensures t !in cat.rows {
      var m :| IsNew(prev, next, m) && next.Table(m) == t;
      FreshTable(prev, next, m);
    }
    k0 := RunCreates(w, d, next, creates, cat);
    CreatedFrom(d, prev, next, creates, cat, k0);
  }

  lemma CreatedFrom(d: Dialect, prev: Schema, next: Schema, creates: seq<Change>, cat: Catalog, k0: Catalog)
    requires TidySchemas(prev, next) && HasTables(d, prev, cat)
    requires forall c :: c in creates <==> c.CreateModel? && Emitted(prev, next, c)
    requires forall t :: CreatesTable(creates, t) <==> exists m :: IsNew(prev, next, m) && next.Table(m) == t
    requires Sound(k0) && OthersSame(creates, cat, k0) && AllBuilt(d, creates, k0)
    ensures Created(d, prev, next, cat, k0)
  {
    forall m | IsNew(prev, next, m) ensures Built(d, next.models.Get(m), k0) {
      assert Emitted(prev, next, CreateModel(next.models.Get(m)));
      assert CreateModel(next.models.Get(m)) in creates;
    }
    forall m | IsNew(prev, next, m) ensures !IsTable(prev, next.Table(m)) {
      FreshTable(prev, next, m);
    }
    forall t | IsTable(prev, t) ensures SameTable(cat, k0, t) {
      assert !CreatesTable(creates, t);
    }
    forall t ensures t in k0.rows <==> IsTable(prev, t) || IsTable(next, t) {
      TableOrigin(d, prev, next, creates, cat, k0, t);
    }
  }

  lemma TableOrigin(d: Dialect, prev: Schema, next: Schema, creates: seq<Change>, cat: Catalog, k0: Catalog, t: string)
    requires TidySchemas(prev, next) && HasTables(d, prev, cat)
    requires CreatesTable(creates, t) <==> exists m :: IsNew(prev, next, m) && next.Table(m) == t
    requires OthersSame(creates, cat, k0)
    requires forall m :: IsNew(prev, next, m) ==> Built(d, next.models.Get(m), k0)
    ensures t in k0.rows <==> IsTable(prev, t) || IsTable(next, t)
  {
    if CreatesTable(creates, t) {
      var m :| IsNew(prev, next, m) && next.Table(m) == t;
      assert Built(d, next.models.Get(m), k0);
    } else {
      assert SameTable(cat, k0, t);
      assert t in k0.rows <==> t in cat.rows by {
        assert RowsOf(cat, t) == RowsOf(k0, t);
      }
      if m :| m in next.models.entries && next.Table(m) == t {
        assert Surviving(prev, next, m);
        TidyWithin(prev, next, m);
      }
    }
  }

  lemma SurvivorsStart(w: World, d: Dialect, prev: Schema, next: Schema, cat: Catalog, k0: Catalog)
    requires TidySchemas(prev, next) && HasTables(d, prev, cat) && Created(d, prev, next, cat, k0)
    ensures Starts(d, prev, next, cat) && Starts(d, prev, next, k0)
    ensures Ready(w, d, prev, next, cat) <==> Ready(w, d, prev, next, k0)
  {
    forall m | Surviving(prev, next, m)
      ensures TableIs(d, prev.models.Get(m), next.Table(m), cat) && TableIs(d, prev.models.Get(m), next.Table(m), k0)
      ensures ReadyModel(w, d, prev.models.Get(m), next.models.Get(m), next.Table(m), cat) <==>
              ReadyModel(w, d, prev.models.Get(m), next.models.Get(m), next.Table(m), k0)
    {
      TidyWithin(prev, next, m);
      assert IsTable(prev, next.Table(m));
      TableKeeps(d, prev.models.Get(m), next.Table(m), cat, k0);
      ReadySame(w, d, prev.models.Get(m), next.models.Get(m), next.Table(m), cat, k0);
    }
  }

  lemma ReadySame(w: World, d: Dialect, prev: Model, next: Model, t: string, a: Catalog, b: Catalog)
    requires prev.Valid() && next.Valid() && TidyModel(prev, next)
    requires TableIs(d, prev, t, a) && TableIs(d, prev, t, b) && SameData(a, b, t)
    ensures ReadyModel(w, d, prev, next, t, a) <==> ReadyModel(w, d, prev, next, t, b)
  {
    assert RowsOf(a, t) == RowsOf(b, t);
    forall n | Continued(prev, next, n)
      ensures NullFree(prev, next, n, t, a) <==> NullFree(prev, next, n, t, b)
      ensures Convertible(w, d, prev, next, n, t, a) <==> Convertible(w, d, prev, next, n, t, b)
      ensures Rekeyable(w, d, prev, next, n, t, a) <==> Rekeyable(w, d, prev, next, n, t, b)
    {
      var k := Key(t, prev.Column(Source(prev, next, n)));
      assert Lookup(a.cols, k) == Lookup(b.cols, k);
    }
  }

  // ---- The constraints at the start ---------------------------------------------------------------------

  lemma NewIsBystander(prev: Schema, next: Schema, m: ModelName)
    requires TidySchemas(prev, next) && IsNew(prev, next, m)
    ensures Bystander(prev, next, next.Table(m))
  {}

  /** A created table has no index and no foreign key. */
  lemma NewStands(d: Dialect, prev: Schema, next: Schema, m: ModelName, k0: Catalog)
    requires next.Valid() && IsNew(prev, next, m) && Built(d, next.models.Get(m), k0)
    ensures ConsStand(prev, next, m, k0.cons)
  {
    var q := next.models.Get(m);
    forall kind: ConKind, x | ConKey(kind, q.table, x) in k0.cons ensures !kind.IndexCon? && !kind.ForeignKeyCon? {
      assert ConAt(k0.cons, ConKey(kind, q.table, x)) == ConAt(CreatedKeys(q.table, KeysOfTable(q)), ConKey(kind, q.table, x));
    }
  }

  lemma OldStands(d: Dialect, prev: Schema, next: Schema, m: ModelName, cat: Catalog, k0: Catalog)
    requires TidySchemas(prev, next) && Surviving(prev, next, m)
    requires Conforms(d, prev, cat) && Created(d, prev, next, cat, k0)
    ensures ConsStand(prev, next, m, k0.cons)
  {
    TidyWithin(prev, next, m);
    assert IsTable(prev, prev.Table(m)) && ConsAre(prev, m, cat.cons);
    forall kind: ConKind, x, con | !kind.InlineCon?
      ensures ConAt(k0.cons, ConKey(kind, next.Table(m), x)) == Some(con) <==> Wants(prev, m, kind, x, con)
    {
      assert ConAt(cat.cons, ConKey(kind, prev.Table(m), x)) == ConAt(k0.cons, ConKey(kind, next.Table(m), x));
    }
  }

  lemma AllStandFirst(d: Dialect, prev: Schema, next: Schema, cat: Catalog, k0: Catalog)
    requires TidySchemas(prev, next) && Conforms(d, prev, cat) && Created(d, prev, next, cat, k0)
    ensures AllStand(prev, next, k0.cons)
  {
    forall m | next.models.Has(m) ensures ConsStand(prev, next, m, k0.cons) {
      if prev.models.Has(m) {
        OldStands(d, prev, next, m, cat, k0);
      } else {
        NewStands(d, prev, next, m, k0);
      }
    }
  }

  lemma PrevFkAt(d: Dialect, prev: Schema, m: ModelName, cat: Catalog, k: ConKey)
    requires prev.models.Has(m) && Conforms(d, prev, cat) && k.table == prev.Table(m)
    requires k in cat.cons && cat.cons[k].References?
    ensures IsPrevFk(prev, m, k, cat.cons[k])
  {
    assert ConsAre(prev, m, cat.cons);
    assert ConAt(cat.cons, ConKey(k.kind, k.table, k.name)) == Some(cat.cons[k]);
    assert k.kind.InlineCon? ==> InlineAt(cat.cons, k.table, cat.cons[k]);
    assert Wants(prev, m, k.kind, k.name, cat.cons[k]);
  }

  /** All foreign keys at the start are those of `prev`. */
  lemma PrevFksFirst(d: Dialect, prev: Schema, next: Schema, cat: Catalog, k0: Catalog)
    requires TidySchemas(prev, next) && Conforms(d, prev, cat) && Created(d, prev, next, cat, k0)
    ensures PrevFks(prev, k0.cons)
  {
    forall k | k in k0.cons && k0.cons[k].References? ensures exists m :: IsPrevFk(prev, m, k, k0.cons[k]) {
      assert k.table in k0.rows;
      if m :| prev.models.Has(m) && prev.Table(m) == k.table {
        assert IsTable(prev, k.table);
        assert ConAt(cat.cons, ConKey(k.kind, k.table, k.name)) == ConAt(k0.cons, ConKey(k.kind, k.table, k.name));
        PrevFkAt(d, prev, m, cat, k);
      } else {
        var m :| m in next.models.entries && next.Table(m) == k.table;
        assert IsNew(prev, next, m) by {
          if prev.models.Has(m) {
            TidyWithin(prev, next, m);
          }
        }
        BuiltHasNoFk(d, next.models.Get(m), k0, k);
      }
    }
  }

  lemma BuiltHasNoFk(d: Dialect, m: Model, k0: Catalog, k: ConKey)
    requires Built(d, m, k0) && k in k0.cons && k.table == m.table
    ensures k0.cons[k].OnColumns?
  {
    CreatedOn(m.table, KeysOfTable(m));
    assert ConAt(k0.cons, ConKey(k.kind, k.table, k.name)) == ConAt(CreatedKeys(m.table, KeysOfTable(m)), ConKey(k.kind, k.table, k.name));
  }

  // ---- The columns on the way ----------------------------------------------------------------------------------

  /** If the data is ready, no field is altered under a column name that it has already left. */
  lemma ReadyStill(w: World, d: Dialect, prev: Schema, next: Schema, all: seq<Change>, k0: Catalog)
    requires Tidied(d, prev, next, all) && Starts(d, prev, next, k0) && Ready(w, d, prev, next, k0)
    ensures StillAlters(all)
  {
    forall c | c in all && c.AlterColumn? ensures c.from.column == c.to.column {
      assert Emitted(prev, next, c);
      EmittedRole(prev, next, c);
      var p, q := prev.models.Get(c.model), next.models.Get(c.model);
      assert ReadyModel(w, d, p, q, next.Table(c.model), k0);
      assert Alters(p, q, c.to.name) && !MovesAndAlters(p, q, c.to.name);
    }
  }

  lemma NewThere(w: World, d: Dialect, prev: Schema, next: Schema, all: seq<Change>, s: Stages, m: ModelName)
    requires TidySchemas(prev, next) && IsDiff(prev, next, all) && IsNew(prev, next, m)
    requires Built(d, next.models.Get(m), s.k0) && Staged(w, d, next, all, s)
    ensures TableIs(d, next.models.Get(m), next.Table(m), s.k4) && RowsOf(s.k4, next.Table(m)) == Some(0)
    ensures ColumnsThere(next, m, s.k4)
  {
    NewIsBystander(prev, next, m);
    StagesSpare(w, d, prev, next, all, s, next.Table(m));
    TableKeeps(d, next.models.Get(m), next.Table(m), s.k0, s.k4);
  }

  /** Every table of `next` has its columns when the constraint phases begin. */
  lemma AllThereStaged(w: World, d: Dialect, prev: Schema, next: Schema, all: seq<Change>, cat: Catalog, s: Stages, k4: Catalog)
    requires Tidied(d, prev, next, all) && Created(d, prev, next, cat, s.k0) && Starts(d, prev, next, s.k0)
    requires Staged(w, d, next, all, s) && k4 == s.k4.(cons := k4.cons)
    ensures AllThere(next, k4)
  {
    forall m | next.models.Has(m) ensures ColumnsThere(next, m, k4) {
      if prev.models.Has(m) {
        ColumnsArrived(w, d, prev, next, all, s, m);
      } else {
        NewThere(w, d, prev, next, all, s, m);
      }
      assert ColumnsThere(next, m, s.k4);
    }
  }

  lemma FitsMeansDefined(d: Dialect, m: Model, t: string, cat: Catalog, n: FieldName)
    requires TableIs(d, m, t, cat) && m.OwnsColumn(n)
    ensures DefThere(d, m, n, t, cat)
  {}

  lemma DefArrived(w: World, d: Dialect, prev: Schema, next: Schema, all: seq<Change>, s: Stages, k6: Catalog,
                   m: ModelName, n: FieldName)
    requires TidySchemas(prev, next) && IsDiff(prev, next, all) && Surviving(prev, next, m) && next.models.Get(m).OwnsColumn(n)
    requires PhaseDone(w, d, next, all, Dropping, s.k4, k6) && TableIs(d, next.models.Get(m), next.Table(m), k6)
    ensures DefThere(d, next.models.Get(m), n, next.Table(m), s.k4)
  {
    FitsMeansDefined(d, next.models.Get(m), next.Table(m), k6, n);
    SparedColumn(w, d, prev, next, all, m, n, s.k4, k6);
  }

  /** And they are defined as `next` says. */
  lemma DefsThereStaged(w: World, d: Dialect, prev: Schema, next: Schema, all: seq<Change>, cat: Catalog, s: Stages, k4: Catalog)
    requires Tidied(d, prev, next, all) && Created(d, prev, next, cat, s.k0) && Starts(d, prev, next, s.k0)
    requires Staged(w, d, next, all, s) && k4 == s.k4.(cons := k4.cons)
    ensures DefsThere(d, next, k4)
  {
    var k6 := RunLateDrops(w, d, prev, next, all, s, s.k4);
    forall m, n | next.models.Has(m) && next.models.Get(m).OwnsColumn(n)
      ensures DefThere(d, next.models.Get(m), n, next.Table(m), k4)
    {
      if prev.models.Has(m) {
        TableMigrated(w, d, prev, next, all, m, s.k0, s.k1, s.k2, s.k3, s.k4, s.k4, k6);
        DefArrived(w, d, prev, next, all, s, k6, m, n);
      } else {
        NewThere(w, d, prev, next, all, s, m);
        FitsMeansDefined(d, next.models.Get(m), next.Table(m), s.k4, n);
      }
      assert DefThere(d, next.models.Get(m), n, next.Table(m), s.k4);
    }
  }

  /** A table that stays has a primary key when the column phases begin. */
  lemma KeysMeet(d: Dialect, prev: Schema, next: Schema, all: seq<Change>, cons: map<ConKey, Con>)
    requires TidySchemas(prev, next) && IsDiff(prev, next, all) && AllStand(prev, next, cons)
    ensures KeyAddsMeet(d, next, all, cons)
  {
    forall c | c in all && c.AddColumn? && KeyStmt(d, next, c) ensures PrimaryOf(next.Table(c.model)) in cons {
      assert Emitted(prev, next, c);
      EmittedRole(prev, next, c);
      KeyStands(prev, next, c.model, cons);
    }
  }

  lemma KeyStands(prev: Schema, next: Schema, m: ModelName, cons: map<ConKey, Con>)
    requires prev.Valid() && Surviving(prev, next, m) && ConsStand(prev, next, m, cons)
    ensures PrimaryOf(next.Table(m)) in cons
  {
    var p := prev.models.Get(m);
    assert p.HasOneKey();
    var con := OnColumns(TargetColumns(p, p.primary));
    assert Wants(prev, m, PrimaryCon, "", con);
    assert ConAt(cons, ConKey(PrimaryCon, next.Table(m), "")) == Some(con);
  }

  // ---- The phases one after the other ------------------------------------------------------------------------------

  /** The four column phases run if the data is ready and no constraint stands in the way. */
  lemma RunColumnStmts(w: World, d: Dialect, prev: Schema, next: Schema, all: seq<Change>, k0: Catalog)
    returns (s: Stages)
    requires w.server == d && Tidied(d, prev, next, all) && Starts(d, prev, next, k0) && KeyAddsMeet(d, next, all, k0.cons)
    ensures Exec(w, ColumnStmts(d, next, all), k0).Some? <==>
              Ready(w, d, prev, next, k0) && NoneBlocked(d, next, all, k0.cons) && KeysOnce(d, next, all)
    ensures Ready(w, d, prev, next, k0) ==> s.k0 == k0 && Staged(w, d, next, all, s)
    ensures Exec(w, ColumnStmts(d, next, all), k0).Some? ==>
              Exec(w, ColumnStmts(d, next, all), k0) == Some(s.k4.(cons := Early(d, next, all, k0.cons)))
  {
    var stmts := ColumnStmts(d, next, all);
    ColumnStmtsAbout(d, next, all);
    RunHalves(w, stmts, k0);
    if Ready(w, d, prev, next, k0) || DataExec(w, stmts, k0).Some? {
      s := RunColumns(w, d, prev, next, all, k0);
      StagedWasReady(w, d, prev, next, all, s);
      ReadyStill(w, d, prev, next, all, k0);
      ColumnsFared(d, prev, next, all, k0.cons);
    } else {
      s := Stages(k0, k0, k0, k0, k0);
    }
  }

  /** The late drops run if no foreign key of a model that goes stands in the way. */
  lemma RunLate(w: World, d: Dialect, prev: Schema, next: Schema, all: seq<Change>, o: Choices, s: Stages, k5: Catalog)
    returns (k6: Catalog)
    requires w.server == d && TidyPair(prev, next, all) && Tidied(d, prev, next, all) && Starts(d, prev, next, s.k0)
    requires Staged(w, d, next, all, s) && k5 == s.k4.(cons := Linked(d, next, all, s.k0.cons), checks := k5.checks)
    requires PrevFks(prev, s.k0.cons) && DyingTables(prev, next, TablesOf(o.drops))
    ensures PhaseDone(w, d, next, all, Dropping, k5, k6)
    ensures Exec(w, PhaseStmts(d, next, Dropping, all), k5) ==
            if NonePinned(d, LateGone(next, all), Dying(o.drops, s.k0.cons))
            then Some(k6.(cons := Final(d, next, all, s.k0.cons))) else None
  {
    k6 := RunLateDrops(w, d, prev, next, all, s, k5);
    ColumnStmtsAbout(d, next, all);
    RunHalves(w, PhaseStmts(d, next, Dropping, all), k5);
    LateFared(d, next, all, k5.cons);
    LatePins(d, prev, next, all, o.drops, s.k0.cons);
  }

  // ---- Where the plan ends -------------------------------------------------------------------------------------------

  /** The table of `m` after a migration that ran. */
  ghost predicate ModelArrived(w: World, d: Dialect, prev: Schema, next: Schema, m: ModelName, cat: Catalog, after: Catalog)
    requires next.models.Has(m)
  {
    var t := next.Table(m);
    && TableIs(d, next.models.Get(m), t, after)
    // The rows are all there, and every column holds what its source, its default or its backfill says.
    && (prev.models.Has(m) ==> RowsOf(after, t) == RowsOf(cat, t) && Migrated(w, d, prev, next, m, cat, after))
    && (!prev.models.Has(m) ==> RowsOf(after, t) == Some(0))
  }

  /** What a migration that runs leaves behind. */
  ghost predicate Arrived(w: World, d: Dialect, prev: Schema, next: Schema, all: seq<Change>, o: Choices, cat: Catalog, after: Catalog) {
    && HasTables(d, next, after) && after.checks
    && (forall m :: next.models.Has(m) ==> ModelArrived(w, d, prev, next, m, cat, after))
    && (forall k :: ConAt(after.cons, k) ==
                    if k.table in TablesOf(o.drops) then None
                    else ConAt(Final(d, next, all, WithCreated(o.creates, cat.cons)), k))
  }

  lemma ModelArrivedKeeps(w: World, d: Dialect, prev: Schema, next: Schema, m: ModelName, cat: Catalog, a: Catalog, b: Catalog)
    requires next.models.Has(m) && ModelArrived(w, d, prev, next, m, cat, a) && SameData(a, b, next.Table(m))
    ensures ModelArrived(w, d, prev, next, m, cat, b)
  {
    TableKeeps(d, next.models.Get(m), next.Table(m), a, b);
  }

  lemma MigratedFrom(w: World, d: Dialect, prev: Schema, next: Schema, m: ModelName, cat: Catalog, k0: Catalog, k: Catalog)
    requires Surviving(prev, next, m) && SameData(cat, k0, next.Table(m)) && Migrated(w, d, prev, next, m, k0, k)
    ensures Migrated(w, d, prev, next, m, cat, k)
  {
    var p, q := prev.models.Get(m), next.models.Get(m);
    assert RowsOf(cat, next.Table(m)) == RowsOf(k0, next.Table(m));
    forall n | Continued(p, q, n)
      ensures OldKey(prev, next, m, n) in cat.cols
      ensures cat.cols[OldKey(prev, next, m, n)] == k0.cols[OldKey(prev, next, m, n)]
    {
      var key := OldKey(prev, next, m, n);
      assert Lookup(cat.cols, Key(next.Table(m), key.name)) == Lookup(k0.cols, Key(next.Table(m), key.name));
    }
  }

  lemma SurvivorArrives(w: World, d: Dialect, prev: Schema, next: Schema, all: seq<Change>, cat: Catalog, s: Stages,
                        k5: Catalog, k6: Catalog, m: ModelName)
    requires Tidied(d, prev, next, all) && Surviving(prev, next, m)
    requires Created(d, prev, next, cat, s.k0) && Starts(d, prev, next, s.k0) && Staged(w, d, next, all, s)
    requires k5.cols == s.k4.cols && k5.rows == s.k4.rows && PhaseDone(w, d, next, all, Dropping, k5, k6)
    ensures ModelArrived(w, d, prev, next, m, cat, k6)
  {
    TidyWithin(prev, next, m);
    assert IsTable(prev, next.Table(m));
    TableMigrated(w, d, prev, next, all, m, s.k0, s.k1, s.k2, s.k3, s.k4, k5, k6);
    MigratedFrom(w, d, prev, next, m, cat, s.k0, k6);
    assert k6.rows == s.k0.rows;
    assert RowsOf(cat, next.Table(m)) == RowsOf(s.k0, next.Table(m));
  }

  lemma NewcomerArrives(w: World, d: Dialect, prev: Schema, next: Schema, all: seq<Change>, cat: Catalog, s: Stages,
                        k5: Catalog, k6: Catalog, m: ModelName)
    requires Tidied(d, prev, next, all) && IsNew(prev, next, m)
    requires Created(d, prev, next, cat, s.k0) && Staged(w, d, next, all, s)
    requires k5.cols == s.k4.cols && k5.rows == s.k4.rows && PhaseDone(w, d, next, all, Dropping, k5, k6)
    ensures ModelArrived(w, d, prev, next, m, cat, k6)
  {
    var t := next.Table(m);
    NewThere(w, d, prev, next, all, s, m);
    TableKeeps(d, next.models.Get(m), t, s.k4, k5);
    NewIsBystander(prev, next, m);
    PhaseSpares(w, d, prev, next, all, Dropping, t, k5, k6);
    TableKeeps(d, next.models.Get(m), t, k5, k6);
    assert RowsOf(k6, t) == RowsOf(s.k4, t);
  }

  /** A column on a table that no surviving model owns was there from the start. */
  lemma ColumnsOnTables(w: World, d: Dialect, prev: Schema, next: Schema, all: seq<Change>, s: Stages,
                        k5: Catalog, k6: Catalog, k: Key)
    requires Tidied(d, prev, next, all) && Sound(s.k0) && Starts(d, prev, next, s.k0) && Staged(w, d, next, all, s)
    requires k5.cols == s.k4.cols && k5.rows == s.k4.rows && PhaseDone(w, d, next, all, Dropping, k5, k6)
    requires k in k6.cols
    ensures k.table in k6.rows
  {
    if m :| Surviving(prev, next, m) && next.Table(m) == k.table {
      assert TableIs(d, prev.models.Get(m), next.Table(m), s.k0);
    } else {
      StagesSpare(w, d, prev, next, all, s, k.table);
      PhaseSpares(w, d, prev, next, all, Dropping, k.table, k5, k6);
      assert Lookup(s.k0.cols, Key(k.table, k.name)) == Lookup(s.k4.cols, Key(k.table, k.name));
      assert Lookup(k5.cols, Key(k.table, k.name)) == Lookup(k6.cols, Key(k.table, k.name));
    }
  }

  /** A constraint that is left was there from the start, or was added to a table of `next`. */
  lemma RestoredOnTables(d: Dialect, next: Schema, all: seq<Change>, k: ConKey)
    requires k in Restored(d, next, all)
    ensures exists m :: next.models.Has(m) && next.Table(m) == k.table
  {
    GainedKeys(d, next, RenameList(all), k);
    GainedKeys(d, next, AlterList(all), k);
  }

  lemma AddedOnTables(next: Schema, cs: seq<Change>, k: ConKey)
    requires k in AddedCons(next, cs)
    ensures exists m :: next.models.Has(m) && next.Table(m) == k.table
  {
    AddedKeys(next, cs, k);
  }

  lemma ConsOnTables(d: Dialect, next: Schema, all: seq<Change>, cons: map<ConKey, Con>, k: ConKey)
    requires k in Final(d, next, all, cons)
    ensures k in cons || exists m :: next.models.Has(m) && next.Table(m) == k.table
  {
    LinkedAt(d, next, all, cons, k);
    if k in AddedCons(next, FkAdds(all)) {
      AddedOnTables(next, FkAdds(all), k);
    } else if k in AddedCons(next, KeyAdds(all)) {
      AddedOnTables(next, KeyAdds(all), k);
    } else if k in Restored(d, next, all) {
      RestoredOnTables(d, next, all, k);
    }
  }

  // ---- Up to the drops of tables ------------------------------------------------------------------------------------

  /** What the plan needs of the constraints up to the drops of tables. */
  predicate MainReady(w: World, next: Schema, all: seq<Change>, o: Choices, defer: bool, cons: map<ConKey, Con>)
    requires forall c :: c in o.drops ==> c.DropModel?
  {
    && NoneBlocked(w.server, next, all, cons) && KeysOnce(w.server, next, all)
    && NonePinned(w.server, LateGone(next, all), Dying(o.drops, cons))
    && ConsCanRun(w, w.server, next, all, cons, Checked(w.server, defer))
  }

  /** What is there when the drops of tables begin. */
  ghost predicate MainDone(w: World, d: Dialect, prev: Schema, next: Schema, all: seq<Change>, defer: bool, cat: Catalog,
                           cons: map<ConKey, Con>, k: Catalog) {
    && Sound(k) && k.checks == Checked(d, defer) && k.cons == Final(d, next, all, cons)
    && (forall t :: t in k.rows <==> IsTable(prev, t) || IsTable(next, t))
    && forall m :: next.models.Has(m) ==> ModelArrived(w, d, prev, next, m, cat, k)
  }

  lemma MainArrives(w: World, d: Dialect, prev: Schema, next: Schema, all: seq<Change>, defer: bool, cat: Catalog, s: Stages,
                    k5: Catalog, k6: Catalog)
    requires Tidied(d, prev, next, all)
    requires Created(d, prev, next, cat, s.k0) && Starts(d, prev, next, s.k0) && Staged(w, d, next, all, s)
    requires k5.cols == s.k4.cols && k5.rows == s.k4.rows && k5.checks == Checked(d, defer)
    requires PhaseDone(w, d, next, all, Dropping, k5, k6)
    ensures MainDone(w, d, prev, next, all, defer, cat, s.k0.cons, k6.(cons := Final(d, next, all, s.k0.cons)))
  {
    assert k6.rows == s.k0.rows;
    var k := k6.(cons := Final(d, next, all, s.k0.cons));
    forall m | next.models.Has(m) ensures ModelArrived(w, d, prev, next, m, cat, k) {
      if prev.models.Has(m) {
        SurvivorArrives(w, d, prev, next, all, cat, s, k5, k6, m);
      } else {
        NewcomerArrives(w, d, prev, next, all, cat, s, k5, k6, m);
      }
      ModelArrivedKeeps(w, d, prev, next, m, cat, k6, k);
    }
    forall c | c in k.cols ensures c.table in k.rows {
      ColumnsOnTables(w, d, prev, next, all, s, k5, k6, c);
    }
    forall c | c in k.cons ensures c.table in k.rows {
      ConsOnTables(d, next, all, s.k0.cons, c);
      if m :| next.models.Has(m) && next.Table(m) == c.table {
        assert IsTable(next, c.table);
      }
    }
  }

  /** From the created tables to the drops of tables. */
  lemma RunMiddle(w: World, d: Dialect, prev: Schema, next: Schema, all: seq<Change>, o: Choices, defer: bool, cat: Catalog,
                  k0: Catalog) returns (k: Catalog)
    requires w.server == d && TidyPair(prev, next, all) && Tidied(d, prev, next, all)
    requires Created(d, prev, next, cat, k0) && Starts(d, prev, next, k0) && k0.checks == Checked(d, defer)
    requires AllStand(prev, next, k0.cons) && PrevFks(prev, k0.cons)
    requires (forall c :: c in o.drops ==> c.DropModel?) && DyingTables(prev, next, TablesOf(o.drops))
    ensures Exec(w, ColumnStmts(d, next, all) + (ConStmts(d, next, all) + PhaseStmts(d, next, Dropping, all)), k0) ==
            if Ready(w, d, prev, next, k0) && MainReady(w, next, all, o, defer, k0.cons) then Some(k) else None
    ensures Ready(w, d, prev, next, k0) && MainReady(w, next, all, o, defer, k0.cons) ==>
              MainDone(w, d, prev, next, all, defer, cat, k0.cons, k)
  {
    var cols, cons, late := ColumnStmts(d, next, all), ConStmts(d, next, all), PhaseStmts(d, next, Dropping, all);
    ExecConcat(w, cols, cons + late, k0);
    KeysMeet(d, prev, next, all, k0.cons);
    var s := RunColumnStmts(w, d, prev, next, all, k0);
    k := k0;
    if Exec(w, cols, k0).Some? {
      var k4 := s.k4.(cons := Early(d, next, all, k0.cons));
      AllThereStaged(w, d, prev, next, all, cat, s, k4);
      DefsThereStaged(w, d, prev, next, all, cat, s, k4);
      RunCons(w, d, prev, next, all, k0.cons, k4);
      ExecConcat(w, cons, late, k4);
      var k5 := k4.(cons := Linked(d, next, all, k0.cons));
      var k6 := RunLate(w, d, prev, next, all, o, s, k5);
      MainArrives(w, d, prev, next, all, defer, cat, s, k5, k6);
      k := k6.(cons := Final(d, next, all, k0.cons));
    }
  }

  lemma HasTablesSame(d: Dialect, s: Schema, a: Catalog, b: Catalog)
    requires HasTables(d, s, a) && b == a.(checks := b.checks)
    ensures HasTables(d, s, b)
  {
    forall m | s.models.Has(m) ensures TableIs(d, s.models.Get(m), s.Table(m), b) {
      assert RowsOf(a, s.Table(m)) == RowsOf(b, s.Table(m));
      TableKeeps(d, s.models.Get(m), s.Table(m), a, b);
    }
  }

  /** What the created tables leave. */
  lemma FirstStage(w: World, d: Dialect, prev: Schema, next: Schema, all: seq<Change>, creates: seq<Change>, start: Catalog,
                   cat: Catalog) returns (k0: Catalog)
    requires d.AltersDirectly() && TidyPair(prev, next, all) && Conforms(d, prev, cat)
    requires start == cat.(checks := start.checks) && Reordered(Creating, all, creates) && Renderable(next, creates)
    ensures Exec(w, RenderAll(d, next, creates), start) == Some(k0) && k0.checks == start.checks
    ensures k0.cons == WithCreated(creates, cat.cons) && Created(d, prev, next, cat, k0)
    ensures Starts(d, prev, next, cat) && Starts(d, prev, next, k0)
    ensures Ready(w, d, prev, next, cat) <==> Ready(w, d, prev, next, k0)
    ensures AllStand(prev, next, k0.cons) && PrevFks(prev, k0.cons)
  {
    HasTablesSame(d, prev, cat, start);
    k0 := AfterCreates(w, d, prev, next, all, creates, start);
    CreatedSame(d, prev, next, start, cat, k0);
    SurvivorsStart(w, d, prev, next, cat, k0);
    AllStandFirst(d, prev, next, cat, k0);
    PrevFksFirst(d, prev, next, cat, k0);
  }

  /** Up to the drops of tables. */
  lemma RunMain(w: World, d: Dialect, prev: Schema, next: Schema, all: seq<Change>, o: Choices, defer: bool, cat: Catalog)
    returns (k: Catalog)
    requires w.server == d && d.AltersDirectly() && TidyPair(prev, next, all) && Conforms(d, prev, cat)
    requires Chosen(all, o) && Plannable(next, all, o)
    ensures Starts(d, prev, next, cat)
    ensures Exec(w, MainStmts(d, next, all, o.creates), cat.(checks := Checked(d, defer))) ==
            if Ready(w, d, prev, next, cat) && MainReady(w, next, all, o, defer, WithCreated(o.creates, cat.cons))
            then Some(k) else None
    ensures Ready(w, d, prev, next, cat) && MainReady(w, next, all, o, defer, WithCreated(o.creates, cat.cons)) ==>
              MainDone(w, d, prev, next, all, defer, cat, WithCreated(o.creates, cat.cons), k)
  {
    var start := cat.(checks := Checked(d, defer));
    var k0 := FirstStage(w, d, prev, next, all, o.creates, start, cat);
    DroppedTables(prev, next, all, o.drops);
    k := RunMiddle(w, d, prev, next, all, o, defer, cat, k0);
    ExecConcat(w, RenderAll(d, next, o.creates),
               ColumnStmts(d, next, all) + (ConStmts(d, next, all) + PhaseStmts(d, next, Dropping, all)), start);
  }

  lemma CreatedSame(d: Dialect, prev: Schema, next: Schema, a: Catalog, b: Catalog, k0: Catalog)
    requires Created(d, prev, next, a, k0) && b == a.(checks := b.checks)
    ensures Created(d, prev, next, b, k0)
  {
    forall t | IsTable(prev, t) ensures SameTable(b, k0, t) {
      assert SameTable(a, k0, t);
      assert RowsOf(a, t) == RowsOf(b, t);
    }
  }

  // ---- The whole plan -----------------------------------------------------------------------------------------------

  lemma PurgedKeeps(cascade: set<string>, gone: set<string>, k: Catalog, t: string)
    requires t !in gone
    ensures SameData(k, Purged(cascade, gone, k), t)
  {}

  lemma StayingUndropped(prev: Schema, next: Schema, gone: set<string>, m: ModelName)
    requires TidySchemas(prev, next) && DyingTables(prev, next, gone) && next.models.Has(m)
    ensures next.Table(m) !in gone
  {
    if IsDyingTable(prev, next, next.Table(m)) {
      DyingNotNext(prev, next, next.Table(m), m);
    }
  }

  lemma TablesLeft(prev: Schema, next: Schema, gone: set<string>, t: string)
    requires TidySchemas(prev, next) && DyingTables(prev, next, gone)
    ensures (IsTable(prev, t) || IsTable(next, t)) && t !in gone <==> IsTable(next, t)
  {
    if m :| m in next.models.entries && next.Table(m) == t {
      StayingUndropped(prev, next, gone, m);
    }
    if m :| m in prev.models.entries && prev.Table(m) == t {
      assert IsDyingTable(prev, next, t) || Surviving(prev, next, m);
      if Surviving(prev, next, m) {
        TidyWithin(prev, next, m);
      }
    }
  }

  lemma ConsLeft(d: Dialect, prev: Schema, next: Schema, all: seq<Change>, cascade: set<string>, gone: set<string>,
                 cons: map<ConKey, Con>, k: Catalog)
    requires TidyPair(prev, next, all) && PrevFks(prev, cons) && DyingTables(prev, next, gone)
    requires k.cons == Final(d, next, all, cons)
    ensures forall c :: ConAt(Purged(cascade, gone, k).cons, c) == if c.table in gone then None else ConAt(k.cons, c)
  {
    forall c | c in k.cons && c.table !in gone ensures !RefersToAny(c, k.cons[c], gone * cascade) {
      StayingRefers(d, prev, next, all, cons, c, gone);
    }
  }

  lemma AfterDrops(w: World, d: Dialect, prev: Schema, next: Schema, all: seq<Change>, o: Choices, defer: bool, cat: Catalog,
                   k: Catalog, after: Catalog)
    requires TidyPair(prev, next, all) && PrevFks(prev, WithCreated(o.creates, cat.cons))
    requires DyingTables(prev, next, TablesOf(o.drops))
    requires MainDone(w, d, prev, next, all, defer, cat, WithCreated(o.creates, cat.cons), k)
    requires after == Purged(o.cascade, TablesOf(o.drops), k).(checks := true)
    ensures Arrived(w, d, prev, next, all, o, cat, after)
  {
    var gone := TablesOf(o.drops);
    forall m | next.models.Has(m) ensures ModelArrived(w, d, prev, next, m, cat, after) {
      StayingUndropped(prev, next, gone, m);
      PurgedKeeps(o.cascade, gone, k, next.Table(m));
      ModelArrivedKeeps(w, d, prev, next, m, cat, k, after);
    }
    ConsLeft(d, prev, next, all, o.cascade, gone, WithCreated(o.creates, cat.cons), k);
    assert HasTables(d, next, after) by {
      forall t ensures t in after.rows <==> IsTable(next, t) {
        TablesLeft(prev, next, gone, t);
      }
      PurgedSound(o.cascade, gone, k);
      forall m | next.models.Has(m) ensures TableIs(d, next.models.Get(m), next.Table(m), after) {
        assert ModelArrived(w, d, prev, next, m, cat, after);
      }
    }
  }

  lemma PurgedSound(cascade: set<string>, gone: set<string>, k: Catalog)
    requires Sound(k)
    ensures Sound(Purged(cascade, gone, k))
  {}

  lemma PlanPlannable(prev: Schema, next: Schema, all: seq<Change>, o: Choices)
    requires TidyPair(prev, next, all) && Chosen(all, o)
    ensures Plannable(next, all, o)
  {
    DiffRenderable(prev, next, all);
    ReorderedMembers(Creating, all, o.creates);
    ReorderedMembers(DroppingTables, all, o.drops);
  }

  lemma RunDefer(w: World, on: bool, defer: bool, cat: Catalog)
    ensures Exec(w, if defer then [DeferChecks(on)] else [], cat) ==
            Some(if defer && w.server.Mysql? then cat.(checks := !on) else cat)
  {
    if defer {
      ExecOne(w, DeferChecks(on), cat);
    }
  }

  lemma ReadyParts(w: World, next: Schema, all: seq<Change>, o: Choices, defer: bool, cons: map<ConKey, Con>)
    requires forall c :: c in o.drops ==> c.DropModel?
    ensures ConsReady(w, next, all, o, defer, cons) <==>
              MainReady(w, next, all, o, defer, cons) &&
              (Checked(w.server, defer) ==> InOrder(o.cascade, o.drops, Dying(o.drops, cons)))
  {}

  /**
   The migration theorem. On a tidy pair, the plan runs if and only if the data and the
   constraints are ready; when it runs, it ends in next's tables and columns with all data
   carried over, and in the constraints that `Outcome.Final` computes from the old ones.
   */
  lemma PlanMigrates(w: World, d: Dialect, prev: Schema, next: Schema, all: seq<Change>, o: Choices, defer: bool, cat: Catalog)
    requires w.server == d && d.AltersDirectly() && TidyPair(prev, next, all) && Conforms(d, prev, cat) && Chosen(all, o)
    ensures Plannable(next, all, o) && Starts(d, prev, next, cat)
    ensures var run := Exec(w, PlanStmts(d, next, all, o, defer), cat);
            && (run.Some? <==> Ready(w, d, prev, next, cat) &&
                               ConsReady(w, next, all, o, defer, WithCreated(o.creates, cat.cons)))
            && (run.Some? ==> Arrived(w, d, prev, next, all, o, cat, run.value))
  {
    PlanPlannable(prev, next, all, o);
    var cons := WithCreated(o.creates, cat.cons);
    var k := RunMain(w, d, prev, next, all, o, defer, cat);
    ReadyParts(w, next, all, o, defer, cons);
    PlanEnds(w, d, next, all, o, defer, cat, k);
    if Ready(w, d, prev, next, cat) && MainReady(w, next, all, o, defer, cons) {
      DroppedTables(prev, next, all, o.drops);
      var k0 := FirstStage(w, d, prev, next, all, o.creates, cat, cat);
      LateOrder(d, prev, next, all, o, cons);
      if Checked(d, defer) ==> InOrder(o.cascade, o.drops, k.cons) {
        AfterDrops(w, d, prev, next, all, o, defer, cat, k, Purged(o.cascade, TablesOf(o.drops), k).(checks := true));
      }
    }
  }

  /** The bracket and the drops of tables around the rest of the plan. */
  lemma PlanEnds(w: World, d: Dialect, next: Schema, all: seq<Change>, o: Choices, defer: bool, cat: Catalog, k: Catalog)
    requires w.server == d && Plannable(next, all, o) && cat.checks
    requires var main := Exec(w, MainStmts(d, next, all, o.creates), cat.(checks := Checked(d, defer)));
             main.None? || (main == Some(k) && k.checks == Checked(d, defer))
    ensures Exec(w, PlanStmts(d, next, all, o, defer), cat) ==
            if Exec(w, MainStmts(d, next, all, o.creates), cat.(checks := Checked(d, defer))).Some? &&
               (Checked(d, defer) ==> InOrder(o.cascade, o.drops, k.cons))
            then Some(Purged(o.cascade, TablesOf(o.drops), k).(checks := true)) else None
  {
    var main, drops := MainStmts(d, next, all, o.creates), DropStmts(o.cascade, o.drops);
    var pre, post := if defer then [DeferChecks(true)] else [], if defer then [DeferChecks(false)] else [];
    var start := cat.(checks := Checked(d, defer));
    ExecConcat(w, pre, main + (drops + post), cat);
    RunDefer(w, true, defer, cat);
    assert Exec(w, pre, cat) == Some(start);
    ExecConcat(w, main, drops + post, start);
    if Exec(w, main, start).Some? {
      RunDropTables(w, o.cascade, o.drops, k);
      ExecConcat(w, drops, post, k);
      RunDefer(w, false, defer, Purged(o.cascade, TablesOf(o.drops), k));
    }
  }

  /** When the table drops begin, no foreign key of a table that stays refers to a table that goes. */
  lemma DropsUnreferenced(w: World, d: Dialect, prev: Schema, next: Schema, all: seq<Change>, o: Choices, defer: bool, cat: Catalog,
                          m: ModelName, x: string, fk: FkDef)
    requires w.server == d && d.AltersDirectly() && TidyPair(prev, next, all) && Conforms(d, prev, cat)
    requires Chosen(all, o) && Plannable(next, all, o) && next.models.Has(m)
    ensures var k := Exec(w, MainStmts(d, next, all, o.creates), cat.(checks := Checked(d, defer)));
            k.Some? && ConAt(k.value.cons, ConKey(ForeignKeyCon, next.Table(m), x)) == Some(References(fk)) ==>
              fk.targetTable in k.value.rows && fk.targetTable !in TablesOf(o.drops)
  {
    var k := RunMain(w, d, prev, next, all, o, defer, cat);
    var cons, key := WithCreated(o.creates, cat.cons), ConKey(ForeignKeyCon, next.Table(m), x);
    var k0 := FirstStage(w, d, prev, next, all, o.creates, cat, cat);
    DroppedTables(prev, next, all, o.drops);
    StayingUndropped(prev, next, TablesOf(o.drops), m);
    if Ready(w, d, prev, next, cat) && MainReady(w, next, all, o, defer, cons) && ConAt(k.cons, key) == Some(References(fk)) {
      StayingRefers(d, prev, next, all, cons, key, TablesOf(o.drops));
      FinalFk(d, prev, next, all, cons, key);
      if r :| IsNextFk(next, r, key, References(fk)) {
        assert IsTable(next, next.Table(r.target));
      }
    }
  }
}
