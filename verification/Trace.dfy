/**
 Following one column of a surviving model through the phases of a plan.
 */
module Trace {
  import opened Names
  import opened Ir
  import opened Catalogue
  import opened Diff
  import opened Plan
  import opened Effects
  import opened Tidy
  import opened Phases

  /** What a column's `DEFAULT` says of the field; a column without one leaves the field's default to the client. */
  predicate DefaultIs(d: Dialect, default: Option<DefaultValue>, sql: Option<SqlDefault>) {
    match sql
    case Some(LiteralSql(lit)) => default == Some(LiteralDefault(lit))
    case Some(NowSql) => default == Some(FunctionDefault(Now))
    case Some(UuidSql) => !d.Sqlite? && default == Some(FunctionDefault(Uuid4))
    case Some(RawSql(text)) => text != "" && default == Some(DbGenerated(text))
    case None =>
      match default
      case None => true
      case Some(LiteralDefault(_)) => false
      case Some(FunctionDefault(fn)) => !fn.Now? && (fn.Uuid4? ==> d.Sqlite?)
      case Some(DbGenerated(text)) => text == ""
  }

  /** The definition says of a column what the schema says of the field; the planner renders just that one. */
  predicate Describes(d: Dialect, f: Field, def: ColumnDef)
    ensures Describes(d, f, def) <==> def == DefOf(d, f)
  {
    def.kind == f.kind && def.notNull == !f.optional && DefaultIs(d, f.default, def.default)
  }

  /** The column fits the field: same definition, one cell per row, no nulls where none are allowed. */
  ghost predicate Fits(d: Dialect, f: Field, rows: nat, c: Column) {
    Describes(d, f, c.def) && |c.cells| == rows && !Blocks(!f.optional, c.cells)
  }

  ghost predicate HasColumnNamed(m: Model, x: string) {
    exists n :: m.OwnsColumn(n) && m.Column(n) == x
  }

  /** The table `t` holds exactly the columns of `m`. */
  ghost predicate TableIs(d: Dialect, m: Model, t: string, cat: Catalog) {
    && t in cat.rows
    && (forall n :: m.OwnsColumn(n) ==>
          Key(t, m.Column(n)) in cat.cols && Fits(d, m.fields.Get(n), cat.rows[t], cat.cols[Key(t, m.Column(n))]))
    && (forall x {:trigger HasColumnNamed(m, x)} :: Key(t, x) in cat.cols ==> HasColumnNamed(m, x))
  }

  /** Table `t` has the same rows and columns in both catalogues. */
  ghost predicate SameData(a: Catalog, b: Catalog, t: string) {
    && RowsOf(a, t) == RowsOf(b, t)
    && (forall x :: Lookup(a.cols, Key(t, x)) == Lookup(b.cols, Key(t, x)))
  }

  lemma SameDataTrans(a: Catalog, b: Catalog, c: Catalog, t: string)
    requires SameData(a, b, t) && SameData(b, c, t)
    ensures SameData(a, c, t)
  {
    forall x ensures Lookup(a.cols, Key(t, x)) == Lookup(c.cols, Key(t, x)) {
      assert Lookup(a.cols, Key(t, x)) == Lookup(b.cols, Key(t, x));
    }
  }

  lemma TableKeeps(d: Dialect, m: Model, t: string, a: Catalog, b: Catalog)
    requires TableIs(d, m, t, a) && SameData(a, b, t)
    ensures TableIs(d, m, t, b)
  {
    assert RowsOf(a, t) == RowsOf(b, t);
    forall x ensures Lookup(a.cols, Key(t, x)) == Lookup(b.cols, Key(t, x)) {}
  }

  /** What the claims about one model's columns are relative to. */
  ghost predicate Setting(d: Dialect, prev: Schema, next: Schema, all: seq<Change>, m: ModelName) {
    && d.AltersDirectly() && TidySchemas(prev, next) && IsDiff(prev, next, all)
    && Surviving(prev, next, m)
  }

  function OldKey(prev: Schema, next: Schema, m: ModelName, n: FieldName): Key
    requires Surviving(prev, next, m) && Continued(prev.models.Get(m), next.models.Get(m), n)
  {
    Key(next.Table(m), prev.models.Get(m).Column(Source(prev.models.Get(m), next.models.Get(m), n)))
  }

  function NewKey(next: Schema, m: ModelName, n: FieldName): Key
    requires next.models.Has(m) && next.models.Get(m).fields.Has(n)
  {
    Key(next.Table(m), next.models.Get(m).Column(n))
  }

  lemma SettingModel(d: Dialect, prev: Schema, next: Schema, all: seq<Change>, m: ModelName)
    requires Setting(d, prev, next, all, m)
    ensures prev.models.Get(m).Valid() && next.models.Get(m).Valid()
    ensures prev.Table(m) == next.Table(m) && TidyModel(prev.models.Get(m), next.models.Get(m))
  {
    TidyWithin(prev, next, m);
  }

  // ---- Which names the phases leave alone -----------------------------------------------------------

  lemma SourceNames(prev: Model, next: Model, n: FieldName)
    requires prev.Valid() && next.Valid() && TidyModel(prev, next) && Continued(prev, next, n)
    ensures !NameAdded(prev, next, prev.Column(Source(prev, next, n)))
    ensures !NameDropped(prev, next, prev.Column(Source(prev, next, n)))
  {
    SourceNotDropped(prev, next, n);
  }

  lemma TargetNames(prev: Model, next: Model, n: FieldName)
    requires prev.Valid() && next.Valid() && TidyModel(prev, next) && Continued(prev, next, n)
    ensures !NameAdded(prev, next, next.Column(n))
    ensures NameDropped(prev, next, next.Column(n)) ==> NameWanted(prev, next, next.Column(n))
    ensures Moves(prev, next, n) && HasColumnNamed(prev, next.Column(n)) ==> NameDropped(prev, next, next.Column(n))
  {
    SourceNotDropped(prev, next, n);
  }

  lemma AddedNames(prev: Model, next: Model, n: FieldName)
    requires prev.Valid() && next.Valid() && TidyModel(prev, next) && Added(prev, next, n)
    ensures !HasColumnNamed(prev, next.Column(n))
    ensures !NameDropped(prev, next, next.Column(n))
    ensures !NameRenamed(prev, next, next.Column(n))
    ensures !NameAltered(prev, next, next.Column(n))
  {
    forall k | Continued(prev, next, k)
      ensures prev.Column(Source(prev, next, k)) != next.Column(n) && next.Column(k) != next.Column(n)
    {
      SourceNotDropped(prev, next, k);
    }
  }

  /** A field that is neither renamed nor altered is alone on its column in those phases. */
  lemma StillNames(prev: Model, next: Model, n: FieldName)
    requires prev.Valid() && next.Valid() && TidyModel(prev, next) && Continued(prev, next, n)
    ensures !Renames(prev, next, n) ==> !NameRenamed(prev, next, next.Column(n))
    ensures !Alters(prev, next, n) ==> !NameAltered(prev, next, next.Column(n))
  {
    forall k | Continued(prev, next, k) && k != n
      ensures prev.Column(Source(prev, next, k)) != next.Column(n) && next.Column(k) != next.Column(n)
    {
      SourcesDiffer(prev, next, k, n);
    }
  }

  // ---- Up to the renames ---------------------------------------------------------------------------

  lemma BeforeRename(w: World, d: Dialect, prev: Schema, next: Schema, all: seq<Change>, m: ModelName, n: FieldName,
                     k0: Catalog, k1: Catalog, k2: Catalog)
    requires Setting(d, prev, next, all, m) && Continued(prev.models.Get(m), next.models.Get(m), n)
    requires TableIs(d, prev.models.Get(m), next.Table(m), k0)
    requires PhaseDone(w, d, next, all, Adding, k0, k1) && PhaseDone(w, d, next, all, ClearingWay, k1, k2)
    ensures OldKey(prev, next, m, n) in k0.cols
    ensures Lookup(k2.cols, OldKey(prev, next, m, n)) == Lookup(k0.cols, OldKey(prev, next, m, n))
    ensures Moves(prev.models.Get(m), next.models.Get(m), n) ==> NewKey(next, m, n) !in k2.cols
  {
    SettingModel(d, prev, next, all, m);
    var p, q := prev.models.Get(m), next.models.Get(m);
    var a, b := OldKey(prev, next, m, n), NewKey(next, m, n);
    SourceNotDropped(p, q, n);
    SourceNames(p, q, n);
    QuietName(prev, next, all, Adding, m, a.name);
    QuietName(prev, next, all, ClearingWay, m, a.name);
    if Moves(p, q, n) {
      TargetNames(p, q, n);
      if HasColumnNamed(p, b.name) {
        Cleared(w, d, prev, next, all, m, b.name, k1, k2);
      } else {
        QuietName(prev, next, all, Adding, m, b.name);
        QuietName(prev, next, all, ClearingWay, m, b.name);
      }
    }
  }

  /** A dropped column whose name is wanted is gone before the renames. */
  lemma Cleared(w: World, d: Dialect, prev: Schema, next: Schema, all: seq<Change>, m: ModelName, x: string,
                k1: Catalog, k2: Catalog)
    requires Setting(d, prev, next, all, m) && PhaseDone(w, d, next, all, ClearingWay, k1, k2)
    requires NameDropped(prev.models.Get(m), next.models.Get(m), x) && NameWanted(prev.models.Get(m), next.models.Get(m), x)
    ensures Key(next.Table(m), x) !in k2.cols
  {
    DropInDiff(prev, next, all, m, x);
    ShadowedMeansWanted(prev, next, all, m, x);
    var c := DropColumn(m, x);
    assert Scheduled(all, ClearingWay, c);
    assert Settled(next, c, EffectOf(w, d, next, c, k1), k2.cols);
  }

  // ---- The renames -----------------------------------------------------------------------------------

  /** Converting keeps nulls, and only nulls, null. */
  lemma CastKeepsNulls(w: World, from: FieldKind, to: FieldKind, cells: seq<Cell>)
    ensures |CastCells(w, from, to, cells)| == |cells|
    ensures Null in CastCells(w, from, to, cells) <==> Null in cells
  {
    if from != to {
      var after := CastCells(w, from, to, cells);
      assert forall i :: 0 <= i < |cells| ==> (after[i] == Null <==> cells[i] == Null);
      if Null in cells {
        var i :| 0 <= i < |cells| && cells[i] == Null;
        assert after[i] == Null;
      }
      if Null in after {
        var i :| 0 <= i < |after| && after[i] == Null;
        assert cells[i] == Null;
      }
    }
  }

  /** A rename carries the column over; on MySQL it also restates the definition. */
  function RenamedCol(w: World, d: Dialect, f: Field, c: Column): Column {
    if d.Mysql? then Column(DefOf(d, f), CastCells(w, c.def.kind, f.kind, c.cells)) else c
  }

  function MaybeRenamed(w: World, d: Dialect, prev: Model, next: Model, n: FieldName, c: Column): Column
    requires next.fields.Has(n)
  {
    if Renames(prev, next, n) then RenamedCol(w, d, next.fields.Get(n), c) else c
  }

  /** What MySQL makes the primary key once more has to be one. */
  predicate KeyFits(w: World, d: Dialect, f: Field, c: Column) {
    d.Mysql? ==> !Unfit(f.isId, CastCells(w, c.def.kind, f.kind, c.cells))
  }

  /** The rename of MySQL already converts. */
  ghost predicate RenameConverts(w: World, d: Dialect, prev: Model, next: Model, n: FieldName, c: Column)
    requires next.fields.Has(n)
  {
    d.Mysql? && Renames(prev, next, n) ==> Converts(w, d, next.fields.Get(n), c) && KeyFits(w, d, next.fields.Get(n), c)
  }

  lemma RenameScheduled(d: Dialect, prev: Schema, next: Schema, all: seq<Change>, m: ModelName, n: FieldName)
    requires Setting(d, prev, next, all, m) && Renames(prev.models.Get(m), next.models.Get(m), n)
    ensures var c := RenameChange(m, prev.models.Get(m), next.models.Get(m), n);
            && Scheduled(all, Renaming, c) && WellNamed(next, c)
            && FromKey(next, c) == OldKey(prev, next, m, n) && ToKey(next, c) == NewKey(next, m, n)
  {
    EmittedHere(prev, next, m, n);
  }

  /** A rename restates the target's definition on MySQL, and so can be blocked by a null. */
  lemma RenameEffect(w: World, d: Dialect, f: Field, oldName: FieldName, oldColumn: string, col: Column, dst: Option<Column>)
    requires d.AltersDirectly() && (oldColumn != f.column ==> dst.None?)
    ensures AlterEffect(w, d, f.(name := oldName, column := oldColumn), f, Some(col), dst) ==
            if d.Mysql? && (Blocks(!f.optional, col.cells) || !Converts(w, d, f, col) || !KeyFits(w, d, f, col)) then Stuck
            else Becomes(RenamedCol(w, d, f, col))
  {
    CastKeepsNulls(w, col.def.kind, f.kind, col.cells);
  }

  lemma RenameOutcome(w: World, d: Dialect, prev: Schema, next: Schema, all: seq<Change>, m: ModelName, n: FieldName,
                      k2: Catalog)
    requires Setting(d, prev, next, all, m) && Renames(prev.models.Get(m), next.models.Get(m), n)
    requires OldKey(prev, next, m, n) in k2.cols
    requires Moves(prev.models.Get(m), next.models.Get(m), n) ==> NewKey(next, m, n) !in k2.cols
    ensures var c := RenameChange(m, prev.models.Get(m), next.models.Get(m), n);
            var f := next.models.Get(m).fields.Get(n);
            var col := k2.cols[OldKey(prev, next, m, n)];
            && Scheduled(all, Renaming, c) && WellNamed(next, c)
            && FromKey(next, c) == OldKey(prev, next, m, n) && ToKey(next, c) == NewKey(next, m, n)
            && EffectOf(w, d, next, c, k2) ==
               if d.Mysql? && (Blocks(!f.optional, col.cells) || !Converts(w, d, f, col) || !KeyFits(w, d, f, col)) then Stuck
               else Becomes(RenamedCol(w, d, f, col))
  {
    var p, q := prev.models.Get(m), next.models.Get(m);
    RenameScheduled(d, prev, next, all, m, n);
    var c := RenameChange(m, p, q, n);
    RenameEffect(w, d, q.fields.Get(n), c.fromName, c.fromColumn, k2.cols[OldKey(prev, next, m, n)],
                 Lookup(k2.cols, NewKey(next, m, n)));
  }

  lemma AfterRename(w: World, d: Dialect, prev: Schema, next: Schema, all: seq<Change>, m: ModelName, n: FieldName,
                    k2: Catalog, k3: Catalog)
    requires Setting(d, prev, next, all, m) && Continued(prev.models.Get(m), next.models.Get(m), n)
    requires OldKey(prev, next, m, n) in k2.cols
    requires Moves(prev.models.Get(m), next.models.Get(m), n) ==> NewKey(next, m, n) !in k2.cols
    requires PhaseDone(w, d, next, all, Renaming, k2, k3)
    ensures Lookup(k3.cols, NewKey(next, m, n)) ==
            Some(MaybeRenamed(w, d, prev.models.Get(m), next.models.Get(m), n, k2.cols[OldKey(prev, next, m, n)]))
    ensures Moves(prev.models.Get(m), next.models.Get(m), n) ==> OldKey(prev, next, m, n) !in k3.cols
    ensures RenameConverts(w, d, prev.models.Get(m), next.models.Get(m), n, k2.cols[OldKey(prev, next, m, n)])
  {
    SettingModel(d, prev, next, all, m);
    var p, q := prev.models.Get(m), next.models.Get(m);
    if Renames(p, q, n) {
      RenameOutcome(w, d, prev, next, all, m, n, k2);
      var c := RenameChange(m, p, q, n);
      assert Settled(next, c, EffectOf(w, d, next, c, k2), k3.cols);
    } else {
      StillNames(p, q, n);
      QuietName(prev, next, all, Renaming, m, q.Column(n));
    }
  }

  // ---- The alters ------------------------------------------------------------------------------------

  /** The column that `n` ends up with: next's definition over the (converted) old cells. */
  function FinalCol(w: World, d: Dialect, f: Field, c: Column): Column {
    Column(DefOf(d, f), CastCells(w, c.def.kind, f.kind, c.cells))
  }

  /** Altering in place, after the renames, gives the final column or is blocked by a null. */
  lemma AlterInPlace(w: World, d: Dialect, prev: Model, next: Model, n: FieldName, rows: nat, col: Column)
    requires d.AltersDirectly() && Continued(prev, next, n)
    requires Fits(d, prev.fields.Get(Source(prev, next, n)), rows, col)
    requires FromField(prev, next, n).column == next.Column(n) && RenameConverts(w, d, prev, next, n, col)
    ensures var f := next.fields.Get(n);
            var here := Some(MaybeRenamed(w, d, prev, next, n, col));
            AlterEffect(w, d, FromField(prev, next, n), f, here, here) ==
            if Blocks(!f.optional, col.cells) || !Converts(w, d, f, col) || !KeyFits(w, d, f, col) then Stuck
            else Becomes(FinalCol(w, d, f, col))
  {
    var f := next.fields.Get(n);
    CastKeepsNulls(w, col.def.kind, f.kind, col.cells);
  }

  /** Without an alter there is nothing left to change. */
  lemma NothingToAlter(w: World, d: Dialect, prev: Model, next: Model, n: FieldName, rows: nat, col: Column)
    requires d.AltersDirectly() && Continued(prev, next, n) && !Alters(prev, next, n)
    requires Fits(d, prev.fields.Get(Source(prev, next, n)), rows, col)
    ensures MaybeRenamed(w, d, prev, next, n, col) == FinalCol(w, d, next.fields.Get(n), col)
    ensures !Blocks(!next.fields.Get(n).optional, col.cells) && Converts(w, d, next.fields.Get(n), col)
  {
    var from, f := FromField(prev, next, n), next.fields.Get(n);
    assert from.kind == f.kind && from.optional == f.optional && from.default == f.default;
  }

  /** A statement of the plan is about the column behind `n`. */
  predicate Restated(prev: Model, next: Model, n: FieldName) {
    Renames(prev, next, n) || Alters(prev, next, n)
  }

  /** An un-hinted field that changes its column and its definition at once. */
  predicate MovesAndAlters(prev: Model, next: Model, n: FieldName) {
    Kept(prev, next, n) && Moves(prev, next, n) && Alters(prev, next, n)
  }

  lemma AlterScheduled(d: Dialect, prev: Schema, next: Schema, all: seq<Change>, m: ModelName, n: FieldName)
    requires Setting(d, prev, next, all, m) && Alters(prev.models.Get(m), next.models.Get(m), n)
    ensures var p, q := prev.models.Get(m), next.models.Get(m);
            var c := AlterChange(m, p, q, n);
            && Scheduled(all, Altering, c) && WellNamed(next, c)
            && ToKey(next, c) == NewKey(next, m, n)
            && FromKey(next, c) == if MovesAndAlters(p, q, n) then OldKey(prev, next, m, n) else NewKey(next, m, n)
  {
    EmittedHere(prev, next, m, n);
  }

  lemma AlterOutcome(w: World, d: Dialect, prev: Schema, next: Schema, all: seq<Change>, m: ModelName, n: FieldName,
                     rows: nat, col: Column, k3: Catalog)
    requires Setting(d, prev, next, all, m) && Alters(prev.models.Get(m), next.models.Get(m), n)
    requires Fits(d, prev.models.Get(m).fields.Get(Source(prev.models.Get(m), next.models.Get(m), n)), rows, col)
    requires Lookup(k3.cols, NewKey(next, m, n)) ==
             Some(MaybeRenamed(w, d, prev.models.Get(m), next.models.Get(m), n, col))
    requires Moves(prev.models.Get(m), next.models.Get(m), n) ==> OldKey(prev, next, m, n) !in k3.cols
    requires RenameConverts(w, d, prev.models.Get(m), next.models.Get(m), n, col)
    ensures var p, q := prev.models.Get(m), next.models.Get(m);
            var c := AlterChange(m, p, q, n);
            && Scheduled(all, Altering, c) && WellNamed(next, c)
            && ToKey(next, c) == NewKey(next, m, n)
            && (!MovesAndAlters(p, q, n) ==> FromKey(next, c) == NewKey(next, m, n))
            && EffectOf(w, d, next, c, k3) ==
               if MovesAndAlters(p, q, n) || Blocks(!q.fields.Get(n).optional, col.cells) ||
                  !Converts(w, d, q.fields.Get(n), col) || !KeyFits(w, d, q.fields.Get(n), col) then Stuck
               else Becomes(FinalCol(w, d, q.fields.Get(n), col))
  {
    var p, q := prev.models.Get(m), next.models.Get(m);
    AlterScheduled(d, prev, next, all, m, n);
    if !MovesAndAlters(p, q, n) {
      AlterInPlace(w, d, p, q, n, rows, col);
    }
  }

  lemma AfterAlter(w: World, d: Dialect, prev: Schema, next: Schema, all: seq<Change>, m: ModelName, n: FieldName,
                   rows: nat, col: Column, k3: Catalog, k4: Catalog)
    requires Setting(d, prev, next, all, m) && Continued(prev.models.Get(m), next.models.Get(m), n)
    requires Fits(d, prev.models.Get(m).fields.Get(Source(prev.models.Get(m), next.models.Get(m), n)), rows, col)
    requires Lookup(k3.cols, NewKey(next, m, n)) ==
             Some(MaybeRenamed(w, d, prev.models.Get(m), next.models.Get(m), n, col))
    requires Moves(prev.models.Get(m), next.models.Get(m), n) ==> OldKey(prev, next, m, n) !in k3.cols
    requires RenameConverts(w, d, prev.models.Get(m), next.models.Get(m), n, col)
    requires PhaseDone(w, d, next, all, Altering, k3, k4)
    ensures Lookup(k4.cols, NewKey(next, m, n)) == Some(FinalCol(w, d, next.models.Get(m).fields.Get(n), col))
    ensures !Blocks(!next.models.Get(m).fields.Get(n).optional, col.cells)
    ensures Converts(w, d, next.models.Get(m).fields.Get(n), col)
    ensures Restated(prev.models.Get(m), next.models.Get(m), n) ==> KeyFits(w, d, next.models.Get(m).fields.Get(n), col)
    ensures !MovesAndAlters(prev.models.Get(m), next.models.Get(m), n)
  {
    SettingModel(d, prev, next, all, m);
    var p, q := prev.models.Get(m), next.models.Get(m);
    if Alters(p, q, n) {
      AlterOutcome(w, d, prev, next, all, m, n, rows, col, k3);
      var c := AlterChange(m, p, q, n);
      assert Settled(next, c, EffectOf(w, d, next, c, k3), k4.cols);
    } else {
      StillNames(p, q, n);
      QuietName(prev, next, all, Altering, m, q.Column(n));
      NothingToAlter(w, d, p, q, n, rows, col);
    }
  }

  // ---- Added columns -----------------------------------------------------------------------------------

  lemma AddOutcome(w: World, d: Dialect, prev: Schema, next: Schema, all: seq<Change>, m: ModelName, n: FieldName, k0: Catalog)
    requires Setting(d, prev, next, all, m) && Added(prev.models.Get(m), next.models.Get(m), n)
    requires TableIs(d, prev.models.Get(m), next.Table(m), k0)
    ensures var f := next.models.Get(m).fields.Get(n);
            var c := AddColumn(m, f);
            var rows := k0.rows[next.Table(m)];
            && Scheduled(all, Adding, c) && WellNamed(next, c) && ToKey(next, c) == NewKey(next, m, n)
            && EffectOf(w, d, next, c, k0) ==
               if Unaddable(w, d, NewKey(next, m, n), f, rows) then Stuck
               else Becomes(Column(DefOf(d, f), AddedCells(w, d, NewKey(next, m, n), f, rows)))
  {
    SettingModel(d, prev, next, all, m);
    EmittedHere(prev, next, m, n);
    AddedNames(prev.models.Get(m), next.models.Get(m), n);
  }

  // ---- Dropped columns ---------------------------------------------------------------------------------

  lemma DroppedNames(prev: Model, next: Model, x: string)
    requires prev.Valid() && next.Valid() && TidyModel(prev, next) && NameDropped(prev, next, x)
    ensures !NameAdded(prev, next, x) && HasColumnNamed(prev, x)
    ensures !NameWanted(prev, next, x) ==> !NameRenamed(prev, next, x) && !NameAltered(prev, next, x)
    ensures !NameWanted(prev, next, x) ==> !HasColumnNamed(next, x)
  {
    var o :| Dropped(prev, next, o) && prev.Column(o) == x;
    forall k | Continued(prev, next, k)
      ensures prev.Column(Source(prev, next, k)) != x
      ensures next.Column(k) == x ==> NameWanted(prev, next, x)
    {
      SourceNotDropped(prev, next, k);
      if next.Column(k) == x {
        assert Moves(prev, next, k);
      }
    }
    forall k | next.OwnsColumn(k) && next.Column(k) == x ensures NameWanted(prev, next, x) {
      if Added(prev, next, k) {
        assert false;
      }
      assert Continued(prev, next, k);
    }
  }

  /** A dropped column is there until its phase. */
  lemma BeforeClearing(w: World, d: Dialect, prev: Schema, next: Schema, all: seq<Change>, m: ModelName, x: string,
                       k0: Catalog, k1: Catalog)
    requires Setting(d, prev, next, all, m) && NameDropped(prev.models.Get(m), next.models.Get(m), x)
    requires TableIs(d, prev.models.Get(m), next.Table(m), k0)
    requires PhaseDone(w, d, next, all, Adding, k0, k1)
    ensures Key(next.Table(m), x) in k1.cols
  {
    SettingModel(d, prev, next, all, m);
    DroppedNames(prev.models.Get(m), next.models.Get(m), x);
    QuietName(prev, next, all, Adding, m, x);
  }

  lemma BeforeDropping(w: World, d: Dialect, prev: Schema, next: Schema, all: seq<Change>, m: ModelName, x: string,
                       k1: Catalog, k2: Catalog, k3: Catalog, k4: Catalog)
    requires Setting(d, prev, next, all, m)
    requires NameDropped(prev.models.Get(m), next.models.Get(m), x) && !NameWanted(prev.models.Get(m), next.models.Get(m), x)
    requires Key(next.Table(m), x) in k1.cols
    requires PhaseDone(w, d, next, all, ClearingWay, k1, k2)
    requires PhaseDone(w, d, next, all, Renaming, k2, k3)
    requires PhaseDone(w, d, next, all, Altering, k3, k4)
    ensures Key(next.Table(m), x) in k4.cols
  {
    SettingModel(d, prev, next, all, m);
    DroppedNames(prev.models.Get(m), next.models.Get(m), x);
    QuietName(prev, next, all, ClearingWay, m, x);
    QuietName(prev, next, all, Renaming, m, x);
    QuietName(prev, next, all, Altering, m, x);
  }

  /** Every old column is dropped or carried on. */
  lemma OldRole(prev: Model, next: Model, o: FieldName) returns (n: FieldName)
    requires prev.Valid() && next.Valid() && TidyModel(prev, next) && prev.OwnsColumn(o)
    ensures Dropped(prev, next, o) || (Continued(prev, next, n) && Source(prev, next, n) == o)
  {
    if Consumed(prev, next, o) {
      n :| n in next.fields.keys && Hinted(prev, next, n) && HintSource(next, n) == o;
    } else {
      n := o;
    }
  }
}
