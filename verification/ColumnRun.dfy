/**
 Running the four column phases that come before the constraints: they run exactly when
 the data is ready, and leave every column that `next` asks for in place.
 */
module ColumnRun {
  import opened Names
  import opened Ir
  import opened Catalogue
  import opened Diff
  import opened Plan
  import opened Effects
  import opened Tidy
  import opened Phases
  import opened Trace
  import opened Refine

  /** The catalogues between the phases. */
  datatype Stages = Stages(k0: Catalog, k1: Catalog, k2: Catalog, k3: Catalog, k4: Catalog)

  ghost predicate Staged(w: World, d: Dialect, next: Schema, all: seq<Change>, s: Stages) {
    && PhaseDone(w, d, next, all, Adding, s.k0, s.k1)
    && PhaseDone(w, d, next, all, ClearingWay, s.k1, s.k2)
    && PhaseDone(w, d, next, all, Renaming, s.k2, s.k3)
    && PhaseDone(w, d, next, all, Altering, s.k3, s.k4)
  }

  lemma ReadyToAdd(w: World, d: Dialect, prev: Schema, next: Schema, all: seq<Change>, k0: Catalog)
    requires Tidied(d, prev, next, all) && Starts(d, prev, next, k0) && Ready(w, d, prev, next, k0)
    ensures Clear(w, d, next, all, Adding, k0)
  {
    ClearAdding(w, d, prev, next, all, k0);
    forall m, n | Surviving(prev, next, m) && Added(prev.models.Get(m), next.models.Get(m), n)
      ensures !Unaddable(w, d, NewKey(next, m, n), next.models.Get(m).fields.Get(n), k0.rows[next.Table(m)])
    {
      assert ReadyModel(w, d, prev.models.Get(m), next.models.Get(m), next.Table(m), k0);
    }
  }

  /** If the column statements run, or the data is ready, every phase gets done. */
  lemma RunColumns(w: World, d: Dialect, prev: Schema, next: Schema, all: seq<Change>, k0: Catalog) returns (s: Stages)
    requires Tidied(d, prev, next, all) && Starts(d, prev, next, k0)
    requires Ready(w, d, prev, next, k0) || DataExec(w, ColumnStmts(d, next, all), k0).Some?
    ensures s.k0 == k0 && Staged(w, d, next, all, s)
    ensures DataExec(w, ColumnStmts(d, next, all), k0) == Some(s.k4)
  {
    var s1, s2 := PhaseStmts(d, next, Adding, all), PhaseStmts(d, next, ClearingWay, all);
    var s3, s4 := PhaseStmts(d, next, Renaming, all), PhaseStmts(d, next, Altering, all);
    DataConcat(w, s1, s2 + (s3 + s4), k0);
    ClearAdding(w, d, prev, next, all, k0);
    if Ready(w, d, prev, next, k0) {
      ReadyToAdd(w, d, prev, next, all, k0);
    }
    RunScheduled(w, d, prev, next, all, Adding, k0);
    var k1 := DataExec(w, s1, k0).value;

    DataConcat(w, s2, s3 + s4, k1);
    ClearClearing(w, d, prev, next, all, k0, k1);
    RunScheduled(w, d, prev, next, all, ClearingWay, k1);
    var k2 := DataExec(w, s2, k1).value;

    DataConcat(w, s3, s4, k2);
    ClearRenaming(w, d, prev, next, all, k0, k1, k2);
    RunScheduled(w, d, prev, next, all, Renaming, k2);
    var k3 := DataExec(w, s3, k2).value;

    ClearAltering(w, d, prev, next, all, k0, k1, k2, k3);
    RunScheduled(w, d, prev, next, all, Altering, k3);
    s := Stages(k0, k1, k2, k3, DataExec(w, s4, k3).value);
  }

  /** The late drops always run, on any catalogue with the columns of the last stage. */
  lemma RunLateDrops(w: World, d: Dialect, prev: Schema, next: Schema, all: seq<Change>, s: Stages, k5: Catalog)
    returns (k6: Catalog)
    requires Tidied(d, prev, next, all) && Starts(d, prev, next, s.k0) && Staged(w, d, next, all, s)
    requires k5.cols == s.k4.cols
    ensures DataExec(w, PhaseStmts(d, next, Dropping, all), k5) == Some(k6)
    ensures PhaseDone(w, d, next, all, Dropping, k5, k6)
  {
    ClearDropping(w, d, prev, next, all, s.k0, s.k1, s.k2, s.k3, s.k4, k5);
    RunScheduled(w, d, prev, next, all, Dropping, k5);
    k6 := DataExec(w, PhaseStmts(d, next, Dropping, all), k5).value;
  }

  /** If the phases get done, the data was ready. */
  lemma StagedWasReady(w: World, d: Dialect, prev: Schema, next: Schema, all: seq<Change>, s: Stages)
    requires Tidied(d, prev, next, all) && Starts(d, prev, next, s.k0) && Staged(w, d, next, all, s)
    ensures Ready(w, d, prev, next, s.k0)
  {
    var k6 := RunLateDrops(w, d, prev, next, all, s, s.k4);
    ClearAdding(w, d, prev, next, all, s.k0);
    forall m | Surviving(prev, next, m)
      ensures ReadyModel(w, d, prev.models.Get(m), next.models.Get(m), next.Table(m), s.k0)
    {
      forall n | Continued(prev.models.Get(m), next.models.Get(m), n) {
        ContinuedArrives(w, d, prev, next, all, m, n, s.k0, s.k1, s.k2, s.k3, s.k4, s.k4, k6);
      }
    }
  }

  /** The columns that a model of `next` asks for are there. */
  ghost predicate ColumnsThere(next: Schema, m: ModelName, cat: Catalog)
    requires next.models.Has(m)
  {
    && next.Table(m) in cat.rows
    && forall x :: HasColumnNamed(next.models.Get(m), x) ==> Key(next.Table(m), x) in cat.cols
  }

  /** No late drop is about a column that `next` asks for. */
  lemma LateDropsSpare(prev: Schema, next: Schema, all: seq<Change>, m: ModelName, n: FieldName)
    requires TidySchemas(prev, next) && IsDiff(prev, next, all) && Surviving(prev, next, m)
    requires next.models.Get(m).OwnsColumn(n)
    ensures Quiet(next, all, Dropping, NewKey(next, m, n))
  {
    var p, q := prev.models.Get(m), next.models.Get(m);
    TidyWithin(prev, next, m);
    if Added(p, q, n) {
      AddedNames(p, q, n);
    } else {
      assert Continued(p, q, n);
      TargetNames(p, q, n);
    }
    QuietName(prev, next, all, Dropping, m, q.Column(n));
  }

  /** They are there before the late drops already. */
  lemma ColumnsArrived(w: World, d: Dialect, prev: Schema, next: Schema, all: seq<Change>, s: Stages, m: ModelName)
    requires Tidied(d, prev, next, all) && Starts(d, prev, next, s.k0) && Staged(w, d, next, all, s)
    requires Surviving(prev, next, m)
    ensures ColumnsThere(next, m, s.k4)
  {
    var k6 := RunLateDrops(w, d, prev, next, all, s, s.k4);
    var q := next.models.Get(m);
    TableMigrated(w, d, prev, next, all, m, s.k0, s.k1, s.k2, s.k3, s.k4, s.k4, k6);
    forall x | HasColumnNamed(q, x) ensures Key(next.Table(m), x) in s.k4.cols {
      var n :| q.OwnsColumn(n) && q.Column(n) == x;
      SparedColumn(w, d, prev, next, all, m, n, s.k4, k6);
    }
  }

  lemma SparedColumn(w: World, d: Dialect, prev: Schema, next: Schema, all: seq<Change>, m: ModelName, n: FieldName,
                     a: Catalog, b: Catalog)
    requires TidySchemas(prev, next) && IsDiff(prev, next, all) && Surviving(prev, next, m) && next.models.Get(m).OwnsColumn(n)
    requires PhaseDone(w, d, next, all, Dropping, a, b)
    ensures Lookup(a.cols, NewKey(next, m, n)) == Lookup(b.cols, NewKey(next, m, n))
  {
    LateDropsSpare(prev, next, all, m, n);
  }

  // ---- Tables that the column phases leave alone -----------------------------------------------------

  ghost predicate Bystander(prev: Schema, next: Schema, t: string) {
    forall m :: Surviving(prev, next, m) ==> next.Table(m) != t
  }

  lemma QuietBystander(prev: Schema, next: Schema, all: seq<Change>, p: Phase, t: string, x: string)
    requires TidySchemas(prev, next) && IsDiff(prev, next, all) && IsColumnPhase(p) && Bystander(prev, next, t)
    ensures Quiet(next, all, p, Key(t, x))
  {
    ScheduledCalledFor(prev, next, all, p);
    forall c | Scheduled(all, p, c) ensures WellNamed(next, c) && !Touches(next, c, Key(t, x)) {
      assert CalledFor(prev, next, c);
    }
  }

  lemma PhaseSpares(w: World, d: Dialect, prev: Schema, next: Schema, all: seq<Change>, p: Phase, t: string,
                    a: Catalog, b: Catalog)
    requires TidySchemas(prev, next) && IsDiff(prev, next, all) && IsColumnPhase(p) && Bystander(prev, next, t)
    requires PhaseDone(w, d, next, all, p, a, b)
    ensures SameData(a, b, t)
  {
    forall x ensures Lookup(a.cols, Key(t, x)) == Lookup(b.cols, Key(t, x)) {
      QuietBystander(prev, next, all, p, t, x);
    }
  }

  lemma StagesSpare(w: World, d: Dialect, prev: Schema, next: Schema, all: seq<Change>, s: Stages, t: string)
    requires TidySchemas(prev, next) && IsDiff(prev, next, all) && Bystander(prev, next, t)
    requires Staged(w, d, next, all, s)
    ensures SameData(s.k0, s.k4, t)
  {
    PhaseSpares(w, d, prev, next, all, Adding, t, s.k0, s.k1);
    PhaseSpares(w, d, prev, next, all, ClearingWay, t, s.k1, s.k2);
    PhaseSpares(w, d, prev, next, all, Renaming, t, s.k2, s.k3);
    PhaseSpares(w, d, prev, next, all, Altering, t, s.k3, s.k4);
    SameDataTrans(s.k0, s.k1, s.k2, t);
    SameDataTrans(s.k0, s.k2, s.k3, t);
    SameDataTrans(s.k0, s.k3, s.k4, t);
  }
}
