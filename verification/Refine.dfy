/**
 The four column phases that come first, and the drops that come last, over all surviving
 models at once: when they run, and what they leave behind.
 */
module Refine {
  import opened Names
  import opened Ir
  import opened Catalogue
  import opened Diff
  import opened Plan
  import opened Effects
  import opened Tidy
  import opened Phases
  import opened Trace

  /** The tables of all surviving models are as `prev` describes them. */
  ghost predicate Starts(d: Dialect, prev: Schema, next: Schema, k: Catalog) {
    forall m :: Surviving(prev, next, m) ==> TableIs(d, prev.models.Get(m), next.Table(m), k)
  }

  ghost predicate Tidied(d: Dialect, prev: Schema, next: Schema, all: seq<Change>) {
    d.AltersDirectly() && TidySchemas(prev, next) && IsDiff(prev, next, all) && Renderable(next, all)
  }

  /** What the data and the diff must satisfy for the column statements to run. */
  ghost predicate ReadyModel(w: World, d: Dialect, prev: Model, next: Model, t: string, k0: Catalog)
    requires TableIs(d, prev, t, k0) && prev.Valid() && next.Valid() && TidyModel(prev, next)
  {
    // A new required column needs a default the server knows or supplies, unless the table is empty.
    && (forall n :: Added(prev, next, n) ==> !Unaddable(w, d, Key(t, next.Column(n)), next.fields.Get(n), k0.rows[t]))
    // A column that becomes required holds no nulls; one that changes type holds what can be converted, default
    // included; one that moves under its old field name is not also altered; what MySQL makes the key again is one.
    && (forall n :: Continued(prev, next, n) ==>
          && !MovesAndAlters(prev, next, n)
          && NullFree(prev, next, n, t, k0) && Convertible(w, d, prev, next, n, t, k0)
          && Rekeyable(w, d, prev, next, n, t, k0))
  }

  ghost predicate Rekeyable(w: World, d: Dialect, prev: Model, next: Model, n: FieldName, t: string, k0: Catalog)
    requires Continued(prev, next, n)
  {
    var a := Key(t, prev.Column(Source(prev, next, n)));
    a in k0.cols && Restated(prev, next, n) ==> KeyFits(w, d, next.fields.Get(n), k0.cols[a])
  }

  ghost predicate Convertible(w: World, d: Dialect, prev: Model, next: Model, n: FieldName, t: string, k0: Catalog)
    requires Continued(prev, next, n)
  {
    var a := Key(t, prev.Column(Source(prev, next, n)));
    a in k0.cols ==> Converts(w, d, next.fields.Get(n), k0.cols[a])
  }

  ghost predicate NullFree(prev: Model, next: Model, n: FieldName, t: string, k0: Catalog)
    requires Continued(prev, next, n)
  {
    var a := Key(t, prev.Column(Source(prev, next, n)));
    a in k0.cols ==> !Blocks(!next.fields.Get(n).optional, k0.cols[a].cells)
  }

  ghost predicate Ready(w: World, d: Dialect, prev: Schema, next: Schema, k0: Catalog)
    requires TidySchemas(prev, next) && Starts(d, prev, next, k0)
  {
    forall m :: Surviving(prev, next, m) ==>
      ReadyModel(w, d, prev.models.Get(m), next.models.Get(m), next.Table(m), k0)
  }

  // ---- When each phase runs ---------------------------------------------------------------------

  lemma ClearAdding(w: World, d: Dialect, prev: Schema, next: Schema, all: seq<Change>, k0: Catalog)
    requires Tidied(d, prev, next, all) && Starts(d, prev, next, k0)
    ensures AllAnchored(next, all, Adding, k0.cols)
    ensures Clear(w, d, next, all, Adding, k0) <==>
            forall m, n :: Surviving(prev, next, m) && Added(prev.models.Get(m), next.models.Get(m), n) ==>
              !Unaddable(w, d, NewKey(next, m, n), next.models.Get(m).fields.Get(n), k0.rows[next.Table(m)])
  {
    forall c | Scheduled(all, Adding, c)
      ensures WellNamed(next, c) && Anchored(next, c, k0.cols) && Surviving(prev, next, c.model)
      ensures Added(prev.models.Get(c.model), next.models.Get(c.model), c.field.name)
      ensures EffectOf(w, d, next, c, k0).Stuck? <==> Unaddable(w, d, NewKey(next, c.model, c.field.name), c.field, k0.rows[next.Table(c.model)])
      ensures c.field == next.models.Get(c.model).fields.Get(c.field.name)
    {
      assert Emitted(prev, next, c);
      EmittedWellNamed(prev, next, c);
      EmittedRole(prev, next, c);
      AddOutcome(w, d, prev, next, all, c.model, c.field.name, k0);
    }
    forall m, n | Surviving(prev, next, m) && Added(prev.models.Get(m), next.models.Get(m), n)
      ensures Scheduled(all, Adding, AddColumn(m, next.models.Get(m).fields.Get(n)))
    {
      AddOutcome(w, d, prev, next, all, m, n, k0);
    }
  }

  lemma ClearClearing(w: World, d: Dialect, prev: Schema, next: Schema, all: seq<Change>, k0: Catalog, k1: Catalog)
    requires Tidied(d, prev, next, all) && Starts(d, prev, next, k0)
    requires PhaseDone(w, d, next, all, Adding, k0, k1)
    ensures AllAnchored(next, all, ClearingWay, k1.cols)
    ensures Clear(w, d, next, all, ClearingWay, k1)
  {
    forall c | Scheduled(all, ClearingWay, c)
      ensures WellNamed(next, c) && Anchored(next, c, k1.cols) && !EffectOf(w, d, next, c, k1).Stuck?
    {
      assert Emitted(prev, next, c);
      EmittedWellNamed(prev, next, c);
      EmittedRole(prev, next, c);
      BeforeClearing(w, d, prev, next, all, c.model, c.column, k0, k1);
    }
  }

  lemma ClearRenaming(w: World, d: Dialect, prev: Schema, next: Schema, all: seq<Change>,
                      k0: Catalog, k1: Catalog, k2: Catalog)
    requires Tidied(d, prev, next, all) && Starts(d, prev, next, k0)
    requires PhaseDone(w, d, next, all, Adding, k0, k1) && PhaseDone(w, d, next, all, ClearingWay, k1, k2)
    ensures AllAnchored(next, all, Renaming, k2.cols)
    ensures Ready(w, d, prev, next, k0) ==> Clear(w, d, next, all, Renaming, k2)
  {
    forall c | Scheduled(all, Renaming, c)
      ensures WellNamed(next, c) && Anchored(next, c, k2.cols)
      ensures Ready(w, d, prev, next, k0) ==> !EffectOf(w, d, next, c, k2).Stuck?
    {
      assert Emitted(prev, next, c);
      EmittedRole(prev, next, c);
      BeforeRename(w, d, prev, next, all, c.model, c.toName, k0, k1, k2);
      RenameOutcome(w, d, prev, next, all, c.model, c.toName, k2);
      if Ready(w, d, prev, next, k0) {
        assert NullFree(prev.models.Get(c.model), next.models.Get(c.model), c.toName, next.Table(c.model), k0);
        assert Convertible(w, d, prev.models.Get(c.model), next.models.Get(c.model), c.toName, next.Table(c.model), k0);
        assert Rekeyable(w, d, prev.models.Get(c.model), next.models.Get(c.model), c.toName, next.Table(c.model), k0);
      }
    }
  }

  lemma ClearAltering(w: World, d: Dialect, prev: Schema, next: Schema, all: seq<Change>,
                      k0: Catalog, k1: Catalog, k2: Catalog, k3: Catalog)
    requires Tidied(d, prev, next, all) && Starts(d, prev, next, k0)
    requires PhaseDone(w, d, next, all, Adding, k0, k1) && PhaseDone(w, d, next, all, ClearingWay, k1, k2)
    requires PhaseDone(w, d, next, all, Renaming, k2, k3)
    ensures AllAnchored(next, all, Altering, k3.cols)
    ensures Ready(w, d, prev, next, k0) ==> Clear(w, d, next, all, Altering, k3)
  {
    forall c | Scheduled(all, Altering, c)
      ensures WellNamed(next, c) && Anchored(next, c, k3.cols)
      ensures Ready(w, d, prev, next, k0) ==> !EffectOf(w, d, next, c, k3).Stuck?
    {
      assert Emitted(prev, next, c);
      EmittedRole(prev, next, c);
      var m, n := c.model, c.to.name;
      var col := OldColumn(w, d, prev, next, all, m, n, k0, k1, k2, k3);
      AlterOutcome(w, d, prev, next, all, m, n, k0.rows[next.Table(m)], col, k3);
      if Ready(w, d, prev, next, k0) {
        assert NullFree(prev.models.Get(m), next.models.Get(m), n, next.Table(m), k0);
        assert Convertible(w, d, prev.models.Get(m), next.models.Get(m), n, next.Table(m), k0);
        assert Rekeyable(w, d, prev.models.Get(m), next.models.Get(m), n, next.Table(m), k0);
      }
    }
  }

  /** Where the column behind `n` starts, and where the renames have put it. */
  lemma OldColumn(w: World, d: Dialect, prev: Schema, next: Schema, all: seq<Change>, m: ModelName, n: FieldName,
                  k0: Catalog, k1: Catalog, k2: Catalog, k3: Catalog)
    returns (col: Column)
    requires Tidied(d, prev, next, all) && Starts(d, prev, next, k0) && Surviving(prev, next, m)
    requires Continued(prev.models.Get(m), next.models.Get(m), n)
    requires PhaseDone(w, d, next, all, Adding, k0, k1) && PhaseDone(w, d, next, all, ClearingWay, k1, k2)
    requires PhaseDone(w, d, next, all, Renaming, k2, k3)
    ensures Lookup(k0.cols, OldKey(prev, next, m, n)) == Some(col)
    ensures Fits(d, prev.models.Get(m).fields.Get(Source(prev.models.Get(m), next.models.Get(m), n)),
                 k0.rows[next.Table(m)], col)
    ensures Lookup(k3.cols, NewKey(next, m, n)) ==
            Some(MaybeRenamed(w, d, prev.models.Get(m), next.models.Get(m), n, col))
    ensures Moves(prev.models.Get(m), next.models.Get(m), n) ==> OldKey(prev, next, m, n) !in k3.cols
    ensures RenameConverts(w, d, prev.models.Get(m), next.models.Get(m), n, col)
  {
    BeforeRename(w, d, prev, next, all, m, n, k0, k1, k2);
    AfterRename(w, d, prev, next, all, m, n, k2, k3);
    SettingModel(d, prev, next, all, m);
    SourceNotDropped(prev.models.Get(m), next.models.Get(m), n);
    col := k0.cols[OldKey(prev, next, m, n)];
  }

  lemma ClearDropping(w: World, d: Dialect, prev: Schema, next: Schema, all: seq<Change>,
                      k0: Catalog, k1: Catalog, k2: Catalog, k3: Catalog, k4: Catalog, k5: Catalog)
    requires Tidied(d, prev, next, all) && Starts(d, prev, next, k0)
    requires PhaseDone(w, d, next, all, Adding, k0, k1) && PhaseDone(w, d, next, all, ClearingWay, k1, k2)
    requires PhaseDone(w, d, next, all, Renaming, k2, k3) && PhaseDone(w, d, next, all, Altering, k3, k4)
    requires k5.cols == k4.cols
    ensures AllAnchored(next, all, Dropping, k5.cols) && Clear(w, d, next, all, Dropping, k5)
  {
    forall c | Scheduled(all, Dropping, c)
      ensures WellNamed(next, c) && Anchored(next, c, k5.cols) && !EffectOf(w, d, next, c, k5).Stuck?
    {
      assert Emitted(prev, next, c);
      EmittedWellNamed(prev, next, c);
      EmittedRole(prev, next, c);
      ShadowedMeansWanted(prev, next, all, c.model, c.column);
      BeforeClearing(w, d, prev, next, all, c.model, c.column, k0, k1);
      BeforeDropping(w, d, prev, next, all, c.model, c.column, k1, k2, k3, k4);
    }
  }

  // ---- What the phases leave behind ------------------------------------------------------------------

  /** Every column of the new model holds what the old data, the defaults or the backfill say it should. */
  ghost predicate Migrated(w: World, d: Dialect, prev: Schema, next: Schema, m: ModelName, k0: Catalog, k: Catalog)
    requires Surviving(prev, next, m)
  {
    var p, q := prev.models.Get(m), next.models.Get(m);
    && (forall n :: Continued(p, q, n) ==>
          && OldKey(prev, next, m, n) in k0.cols
          && Lookup(k.cols, NewKey(next, m, n)) ==
             Some(FinalCol(w, d, q.fields.Get(n), k0.cols[OldKey(prev, next, m, n)])))
    && (forall n :: Added(p, q, n) ==>
          && next.Table(m) in k0.rows
          && Lookup(k.cols, NewKey(next, m, n)) ==
             Some(Column(DefOf(d, q.fields.Get(n)),
                         AddedCells(w, d, NewKey(next, m, n), q.fields.Get(n), k0.rows[next.Table(m)]))))
  }

  lemma ContinuedArrives(w: World, d: Dialect, prev: Schema, next: Schema, all: seq<Change>, m: ModelName, n: FieldName,
                         k0: Catalog, k1: Catalog, k2: Catalog, k3: Catalog, k4: Catalog, k5: Catalog, k6: Catalog)
    requires Tidied(d, prev, next, all) && Starts(d, prev, next, k0) && Surviving(prev, next, m)
    requires Continued(prev.models.Get(m), next.models.Get(m), n)
    requires PhaseDone(w, d, next, all, Adding, k0, k1) && PhaseDone(w, d, next, all, ClearingWay, k1, k2)
    requires PhaseDone(w, d, next, all, Renaming, k2, k3) && PhaseDone(w, d, next, all, Altering, k3, k4)
    requires k5.cols == k4.cols && PhaseDone(w, d, next, all, Dropping, k5, k6)
    ensures OldKey(prev, next, m, n) in k0.cols
    ensures var f, col := next.models.Get(m).fields.Get(n), k0.cols[OldKey(prev, next, m, n)];
            && Lookup(k6.cols, NewKey(next, m, n)) == Some(FinalCol(w, d, f, col))
            && Fits(d, f, k0.rows[next.Table(m)], FinalCol(w, d, f, col))
    ensures NullFree(prev.models.Get(m), next.models.Get(m), n, next.Table(m), k0)
    ensures Convertible(w, d, prev.models.Get(m), next.models.Get(m), n, next.Table(m), k0)
    ensures Rekeyable(w, d, prev.models.Get(m), next.models.Get(m), n, next.Table(m), k0)
    ensures !MovesAndAlters(prev.models.Get(m), next.models.Get(m), n)
  {
    SettingModel(d, prev, next, all, m);
    var p, q := prev.models.Get(m), next.models.Get(m);
    var col := OldColumn(w, d, prev, next, all, m, n, k0, k1, k2, k3);
    AfterAlter(w, d, prev, next, all, m, n, k0.rows[next.Table(m)], col, k3, k4);
    TargetNames(p, q, n);
    QuietName(prev, next, all, Dropping, m, q.Column(n));
    CastKeepsNulls(w, col.def.kind, q.fields.Get(n).kind, col.cells);
  }

  lemma AddedFits(w: World, d: Dialect, k: Key, f: Field, rows: nat)
    requires !Unaddable(w, d, k, f, rows)
    ensures Fits(d, f, rows, Column(DefOf(d, f), AddedCells(w, d, k, f, rows)))
  {
    NewNulls(w, k, Filled(DefOf(d, f), MakesKey(d, f)), rows);
  }

  lemma AddedArrives(w: World, d: Dialect, prev: Schema, next: Schema, all: seq<Change>, m: ModelName, n: FieldName,
                     k0: Catalog, k1: Catalog, k2: Catalog, k3: Catalog, k4: Catalog, k5: Catalog, k6: Catalog)
    requires Tidied(d, prev, next, all) && Starts(d, prev, next, k0) && Surviving(prev, next, m)
    requires Added(prev.models.Get(m), next.models.Get(m), n)
    requires PhaseDone(w, d, next, all, Adding, k0, k1) && PhaseDone(w, d, next, all, ClearingWay, k1, k2)
    requires PhaseDone(w, d, next, all, Renaming, k2, k3) && PhaseDone(w, d, next, all, Altering, k3, k4)
    requires k5.cols == k4.cols && PhaseDone(w, d, next, all, Dropping, k5, k6)
    ensures var f, rows := next.models.Get(m).fields.Get(n), k0.rows[next.Table(m)];
            var col := Column(DefOf(d, f), AddedCells(w, d, NewKey(next, m, n), f, rows));
            Lookup(k6.cols, NewKey(next, m, n)) == Some(col) && Fits(d, f, rows, col)
  {
    SettingModel(d, prev, next, all, m);
    var q := next.models.Get(m);
    AddOutcome(w, d, prev, next, all, m, n, k0);
    AddedFits(w, d, NewKey(next, m, n), q.fields.Get(n), k0.rows[next.Table(m)]);
    var c := AddColumn(m, q.fields.Get(n));
    assert Settled(next, c, EffectOf(w, d, next, c, k0), k1.cols);
    AddedNames(prev.models.Get(m), q, n);
    QuietName(prev, next, all, ClearingWay, m, q.Column(n));
    QuietName(prev, next, all, Renaming, m, q.Column(n));
    QuietName(prev, next, all, Altering, m, q.Column(n));
    QuietName(prev, next, all, Dropping, m, q.Column(n));
  }

  /** A dropped column whose name nobody wants goes in the last phase. */
  lemma DropGoes(w: World, d: Dialect, prev: Schema, next: Schema, all: seq<Change>, m: ModelName, x: string,
                 k5: Catalog, k6: Catalog)
    requires Setting(d, prev, next, all, m) && PhaseDone(w, d, next, all, Dropping, k5, k6)
    requires NameDropped(prev.models.Get(m), next.models.Get(m), x) && !NameWanted(prev.models.Get(m), next.models.Get(m), x)
    ensures Key(next.Table(m), x) !in k6.cols
  {
    DropInDiff(prev, next, all, m, x);
    ShadowedMeansWanted(prev, next, all, m, x);
    var c := DropColumn(m, x);
    assert Scheduled(all, Dropping, c);
    assert Settled(next, c, EffectOf(w, d, next, c, k5), k6.cols);
  }

  lemma OthersGo(w: World, d: Dialect, prev: Schema, next: Schema, all: seq<Change>, m: ModelName, x: string,
                 k0: Catalog, k1: Catalog, k2: Catalog, k3: Catalog, k4: Catalog, k5: Catalog, k6: Catalog)
    requires Tidied(d, prev, next, all) && Starts(d, prev, next, k0) && Surviving(prev, next, m)
    requires !HasColumnNamed(next.models.Get(m), x)
    requires PhaseDone(w, d, next, all, Adding, k0, k1) && PhaseDone(w, d, next, all, ClearingWay, k1, k2)
    requires PhaseDone(w, d, next, all, Renaming, k2, k3) && PhaseDone(w, d, next, all, Altering, k3, k4)
    requires k5.cols == k4.cols && PhaseDone(w, d, next, all, Dropping, k5, k6)
    ensures Key(next.Table(m), x) !in k6.cols
  {
    SettingModel(d, prev, next, all, m);
    var p, q := prev.models.Get(m), next.models.Get(m);
    if NameDropped(p, q, x) {
      DropGoes(w, d, prev, next, all, m, x, k5, k6);
    } else {
      assert Key(next.Table(m), x) !in k4.cols by {
        GoneByRename(w, d, prev, next, all, m, x, k0, k1, k2, k3);
        StaysGone(w, d, prev, next, all, m, x, k0, k1, k2, k3, k4);
      }
      QuietName(prev, next, all, Dropping, m, x);
    }
  }

  lemma GoneByRename(w: World, d: Dialect, prev: Schema, next: Schema, all: seq<Change>, m: ModelName, x: string,
                     k0: Catalog, k1: Catalog, k2: Catalog, k3: Catalog)
    requires Tidied(d, prev, next, all) && Starts(d, prev, next, k0) && Surviving(prev, next, m)
    requires !HasColumnNamed(next.models.Get(m), x) && !NameDropped(prev.models.Get(m), next.models.Get(m), x)
    requires PhaseDone(w, d, next, all, Adding, k0, k1) && PhaseDone(w, d, next, all, ClearingWay, k1, k2)
    requires PhaseDone(w, d, next, all, Renaming, k2, k3)
    ensures Key(next.Table(m), x) !in k3.cols
  {
    SettingModel(d, prev, next, all, m);
    var p, q := prev.models.Get(m), next.models.Get(m);
    if o :| p.OwnsColumn(o) && p.Column(o) == x {
      var n := OldRole(p, q, o);
      assert Moves(p, q, n);
      var col := OldColumn(w, d, prev, next, all, m, n, k0, k1, k2, k3);
    } else {
      assert !HasColumnNamed(p, x);
      NotRenamed(p, q, x);
      QuietName(prev, next, all, Adding, m, x);
      QuietName(prev, next, all, ClearingWay, m, x);
      QuietName(prev, next, all, Renaming, m, x);
    }
  }

  lemma NotRenamed(prev: Model, next: Model, x: string)
    requires prev.Valid() && next.Valid() && TidyModel(prev, next)
    requires !HasColumnNamed(prev, x) && !HasColumnNamed(next, x)
    ensures !NameRenamed(prev, next, x) && !NameAdded(prev, next, x)
  {
    forall n | Continued(prev, next, n) ensures prev.Column(Source(prev, next, n)) != x {
      SourceNotDropped(prev, next, n);
    }
  }

  lemma StaysGone(w: World, d: Dialect, prev: Schema, next: Schema, all: seq<Change>, m: ModelName, x: string,
                  k0: Catalog, k1: Catalog, k2: Catalog, k3: Catalog, k4: Catalog)
    requires Tidied(d, prev, next, all) && Starts(d, prev, next, k0) && Surviving(prev, next, m)
    requires !HasColumnNamed(next.models.Get(m), x) && Key(next.Table(m), x) !in k3.cols
    requires PhaseDone(w, d, next, all, Adding, k0, k1) && PhaseDone(w, d, next, all, ClearingWay, k1, k2)
    requires PhaseDone(w, d, next, all, Renaming, k2, k3) && PhaseDone(w, d, next, all, Altering, k3, k4)
    ensures Key(next.Table(m), x) !in k4.cols
  {
    SettingModel(d, prev, next, all, m);
    var p, q := prev.models.Get(m), next.models.Get(m);
    forall n | Alters(p, q, n) ensures FromField(p, q, n).column != x && q.Column(n) != x {
      var col := OldColumn(w, d, prev, next, all, m, n, k0, k1, k2, k3);
      AfterAlter(w, d, prev, next, all, m, n, k0.rows[next.Table(m)], col, k3, k4);
    }
    QuietName(prev, next, all, Altering, m, x);
  }

  /** After the column phases, the table of a surviving model is as `next` describes it, with its data. */
  lemma TableMigrated(w: World, d: Dialect, prev: Schema, next: Schema, all: seq<Change>, m: ModelName,
                      k0: Catalog, k1: Catalog, k2: Catalog, k3: Catalog, k4: Catalog, k5: Catalog, k6: Catalog)
    requires Tidied(d, prev, next, all) && Starts(d, prev, next, k0) && Surviving(prev, next, m)
    requires PhaseDone(w, d, next, all, Adding, k0, k1) && PhaseDone(w, d, next, all, ClearingWay, k1, k2)
    requires PhaseDone(w, d, next, all, Renaming, k2, k3) && PhaseDone(w, d, next, all, Altering, k3, k4)
    requires k5.cols == k4.cols && k5.rows == k4.rows && PhaseDone(w, d, next, all, Dropping, k5, k6)
    ensures TableIs(d, next.models.Get(m), next.Table(m), k6) && Migrated(w, d, prev, next, m, k0, k6)
  {
    SettingModel(d, prev, next, all, m);
    var p, q := prev.models.Get(m), next.models.Get(m);
    forall n | Continued(p, q, n) {
      ContinuedArrives(w, d, prev, next, all, m, n, k0, k1, k2, k3, k4, k5, k6);
    }
    forall n | Added(p, q, n) {
      AddedArrives(w, d, prev, next, all, m, n, k0, k1, k2, k3, k4, k5, k6);
    }
    forall x | !HasColumnNamed(q, x) ensures Key(next.Table(m), x) !in k6.cols {
      OthersGo(w, d, prev, next, all, m, x, k0, k1, k2, k3, k4, k5, k6);
    }
    forall n | q.OwnsColumn(n) ensures Added(p, q, n) || Continued(p, q, n) {}
  }
}
