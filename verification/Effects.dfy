/**
 What each column change does to the catalogue when its statements run: an effect on at
 most two keys, computed from those keys alone. Changes on separate keys can then be run
 in any order, so a whole phase has a pointwise description (`RunPhase`).
 */
module Effects {
  import opened Ir
  import opened Catalogue
  import opened Plan

  datatype Effect = Stuck | Gone | Becomes(col: Column)

  function Lookup<V>(m: map<Key, V>, k: Key): Option<V> {
    if k in m then Some(m[k]) else None
  }

  function RowsOf(cat: Catalog, table: string): Option<nat> {
    if table in cat.rows then Some(cat.rows[table]) else None
  }

  predicate IsColumnChange(c: Change) {
    c.AddColumn? || c.DropColumn? || c.AlterColumn? || c.RenameColumn?
  }

  function FromColumn(c: Change): string
    requires IsColumnChange(c)
  {
    match c
    case AddColumn(_, f) => f.column
    case DropColumn(_, column) => column
    case AlterColumn(_, from, _, _) => from.column
    case RenameColumn(_, _, _, from, _) => from
  }

  function ToColumn(c: Change): string
    requires IsColumnChange(c)
  {
    match c
    case AddColumn(_, f) => f.column
    case DropColumn(_, column) => column
    case AlterColumn(_, _, to, _) => to.column
    case RenameColumn(_, _, _, _, to) => to
  }

  // ---- Altering a column -------------------------------------------------------------------

  function Retyped(w: World, from: Field, to: Field, c: Column): Column {
    if from.kind == to.kind then c
    else Column(c.def.(kind := to.kind), CastCells(w, c.def.kind, to.kind, c.cells))
  }

  function Redefaulted(d: Dialect, from: Field, to: Field, c: Column): Column {
    if DefaultSql(d, from.default) == DefaultSql(d, to.default) then c
    else c.(def := c.def.(default := DefaultSql(d, to.default)))
  }

  function Renulled(from: Field, to: Field, c: Column): Effect {
    if from.optional == to.optional then Becomes(c)
    else if Blocks(!to.optional, c.cells) then Stuck
    else Becomes(c.(def := c.def.(notNull := !to.optional)))
  }

  /** The column's values can follow to the new kind; on Postgres the old default has to as well. */
  predicate Converts(w: World, d: Dialect, to: Field, c: Column) {
    Castable(w, c.def.kind, to.kind, c.cells) && (!d.Mysql? ==> DefaultRecasts(w, c.def, to.kind))
  }

  /** The column found under `from.column` is there, and the one under `to.column` is free. */
  predicate Movable(from: Field, to: Field, src: Option<Column>, dst: Option<Column>) {
    src.Some? && (from.column != to.column ==> dst.None?)
  }

  function AlterEffect(w: World, d: Dialect, from: Field, to: Field, src: Option<Column>, dst: Option<Column>): Effect {
    if !Movable(from, to, src, dst) then Stuck
    else if (d.Mysql? || from.kind != to.kind) && !Converts(w, d, to, src.value) then Stuck
    else if d.Mysql? then
      var cells := CastCells(w, src.value.def.kind, to.kind, src.value.cells);
      if Blocks(!to.optional, cells) || Unfit(to.isId, cells) then Stuck else Becomes(Column(DefOf(d, to), cells))
    else
      Renulled(from, to, Redefaulted(d, from, to, Retyped(w, from, to, src.value)))
  }

  function Moved(cols: map<Key, Column>, from: Key, to: Key, e: Effect): map<Key, Column>
    requires !e.Stuck?
  {
    if e.Gone? then cols - {from} else (cols - {from})[to := e.col]
  }

  function Outcome(cat: Catalog, from: Key, to: Key, e: Effect): Option<Catalog> {
    if e.Stuck? then None else Some(cat.(cols := Moved(cat.cols, from, to, e)))
  }

  lemma RunMysqlAlter(w: World, d: Dialect, table: string, from: Field, to: Field, cat: Catalog)
    requires d.Mysql?
    ensures var a, b := Key(table, from.column), Key(table, to.column);
            DataExec(w, MysqlAlter(d, table, from, to), cat) ==
            Outcome(cat, a, b, AlterEffect(w, d, from, to, Lookup(cat.cols, a), Lookup(cat.cols, b)))
  {
    DataOne(w, ChangeCol(Key(table, from.column), to.column, DefOf(d, to), to.isId), cat);
  }

  lemma WithSame(cat: Catalog, k: Key)
    requires k in cat.cols
    ensures WithCol(cat, k, cat.cols[k]) == cat
  {
    assert cat.cols[k := cat.cols[k]] == cat.cols;
  }

  lemma RunRetype(w: World, k: Key, from: Field, to: Field, cat: Catalog)
    requires k in cat.cols
    ensures DataExec(w, RetypeStmts(k, from, to), cat) ==
            if from.kind == to.kind ||
               (Castable(w, cat.cols[k].def.kind, to.kind, cat.cols[k].cells) && DefaultRecasts(w, cat.cols[k].def, to.kind))
            then Some(WithCol(cat, k, Retyped(w, from, to, cat.cols[k]))) else None
  {
    WithSame(cat, k);
    DataOne(w, SetType(k, to.kind), cat);
  }

  lemma RunRedefault(w: World, d: Dialect, k: Key, from: Field, to: Field, cat: Catalog)
    requires k in cat.cols
    ensures DataExec(w, RedefaultStmts(d, k, from, to), cat) == Some(WithCol(cat, k, Redefaulted(d, from, to, cat.cols[k])))
  {
    WithSame(cat, k);
    DataOne(w, ChangeDefault(k, DefaultSql(d, to.default)), cat);
  }

  lemma RunRenull(w: World, k: Key, from: Field, to: Field, cat: Catalog)
    requires k in cat.cols
    ensures DataExec(w, RenullStmts(k, from, to), cat) == Outcome(cat, k, k, Renulled(from, to, cat.cols[k]))
  {
    WithSame(cat, k);
    DataOne(w, SetNullability(k, !to.optional), cat);
    var e := Renulled(from, to, cat.cols[k]);
    if e.Becomes? {
      assert Moved(cat.cols, k, k, e) == cat.cols[k := e.col];
    }
  }

  /** What the statements of Postgres after the rename make of a column. */
  function InPlace(w: World, d: Dialect, from: Field, to: Field, c: Column): Effect {
    if from.kind != to.kind && !Converts(w, d, to, c) then Stuck
    else Renulled(from, to, Redefaulted(d, from, to, Retyped(w, from, to, c)))
  }

  lemma RunInPlace(w: World, d: Dialect, table: string, from: Field, to: Field, cat: Catalog)
    requires d.Postgres? && Key(table, to.column) in cat.cols && from.column == to.column
    ensures var k := Key(table, to.column);
            DataExec(w, PostgresAlter(d, table, from, to), cat) == Outcome(cat, k, k, InPlace(w, d, from, to, cat.cols[k]))
  {
    var k := Key(table, to.column);
    var s1, s2, s3 := RetypeStmts(k, from, to), RedefaultStmts(d, k, from, to), RenullStmts(k, from, to);
    assert PostgresAlter(d, table, from, to) == s1 + (s2 + s3);
    RunRetype(w, k, from, to, cat);
    DataConcat(w, s1, s2 + s3, cat);
    if from.kind == to.kind || Converts(w, d, to, cat.cols[k]) {
      RunAfterRetype(w, d, k, from, to, cat, Retyped(w, from, to, cat.cols[k]));
    }
  }

  /** The default, and then the nullability. */
  lemma RunAfterRetype(w: World, d: Dialect, k: Key, from: Field, to: Field, cat: Catalog, c: Column)
    requires k in cat.cols
    ensures DataExec(w, RedefaultStmts(d, k, from, to) + RenullStmts(k, from, to), WithCol(cat, k, c)) ==
            Outcome(cat, k, k, Renulled(from, to, Redefaulted(d, from, to, c)))
  {
    var s2, s3 := RedefaultStmts(d, k, from, to), RenullStmts(k, from, to);
    var cat1 := WithCol(cat, k, c);
    RunRedefault(w, d, k, from, to, cat1);
    var cat2 := WithCol(cat1, k, Redefaulted(d, from, to, c));
    RunRenull(w, k, from, to, cat2);
    DataConcat(w, s2, s3, cat1);
    var e := Renulled(from, to, cat2.cols[k]);
    if e.Becomes? {
      assert Moved(cat2.cols, k, k, e) == Moved(cat.cols, k, k, e);
    }
  }

  /** The rename moves the column; the rest then runs in place. */
  lemma RunRenamed(w: World, d: Dialect, table: string, from: Field, to: Field, cat: Catalog)
    requires d.Postgres? && from.column != to.column
    requires Key(table, from.column) in cat.cols && Key(table, to.column) !in cat.cols
    ensures var a, b := Key(table, from.column), Key(table, to.column);
            DataExec(w, PostgresAlter(d, table, from.(column := to.column), to), cat.(cols := (cat.cols - {a})[b := cat.cols[a]])) ==
            Outcome(cat, a, b, InPlace(w, d, from, to, cat.cols[a]))
  {
    var a, b := Key(table, from.column), Key(table, to.column);
    var here := from.(column := to.column);
    var mid := cat.(cols := (cat.cols - {a})[b := cat.cols[a]]);
    RunInPlace(w, d, table, here, to, mid);
    var e := InPlace(w, d, here, to, mid.cols[b]);
    if e.Becomes? {
      assert Moved(mid.cols, b, b, e) == Moved(cat.cols, a, b, e);
    }
  }

  lemma RunPostgresAlter(w: World, d: Dialect, table: string, from: Field, to: Field, cat: Catalog)
    requires d.Postgres?
    requires from.column == to.column ==> Key(table, to.column) in cat.cols
    ensures var a, b := Key(table, from.column), Key(table, to.column);
            DataExec(w, PostgresAlter(d, table, from, to), cat) ==
            Outcome(cat, a, b, AlterEffect(w, d, from, to, Lookup(cat.cols, a), Lookup(cat.cols, b)))
  {
    if from.column == to.column {
      RunInPlace(w, d, table, from, to, cat);
    } else {
      RunMoved(w, d, table, from, to, cat);
    }
  }

  lemma RunMoved(w: World, d: Dialect, table: string, from: Field, to: Field, cat: Catalog)
    requires d.Postgres? && from.column != to.column
    ensures var a, b := Key(table, from.column), Key(table, to.column);
            DataExec(w, PostgresAlter(d, table, from, to), cat) ==
            Outcome(cat, a, b, AlterEffect(w, d, from, to, Lookup(cat.cols, a), Lookup(cat.cols, b)))
  {
    var a, b := Key(table, from.column), Key(table, to.column);
    var rename := [RenameCol(a, to.column)];
    var rest := PostgresAlter(d, table, from.(column := to.column), to);
    assert PostgresAlter(d, table, from, to) == rename + rest;
    DataConcat(w, rename, rest, cat);
    DataOne(w, rename[0], cat);
    if a in cat.cols && b !in cat.cols {
      RunRenamed(w, d, table, from, to, cat);
    }
  }

  lemma RunAlter(w: World, d: Dialect, table: string, from: Field, to: Field, cat: Catalog)
    requires d.AltersDirectly()
    requires from.column == to.column ==> Key(table, to.column) in cat.cols
    ensures var a, b := Key(table, from.column), Key(table, to.column);
            DataExec(w, AlterStmts(d, table, from, to), cat) ==
            Outcome(cat, a, b, AlterEffect(w, d, from, to, Lookup(cat.cols, a), Lookup(cat.cols, b)))
  {
    if d.Mysql? {
      RunMysqlAlter(w, d, table, from, to, cat);
    } else {
      RunPostgresAlter(w, d, table, from, to, cat);
    }
  }

  // ---- Adding a column -----------------------------------------------------------------------

  predicate NeedsBackfill(f: Field) {
    !f.optional && f.default.None?
  }

  /** MySQL makes the column of an `@id` the key as it is added; Postgres does not. */
  predicate MakesKey(d: Dialect, f: Field) {
    d.Mysql? && f.isId
  }

  /** The old rows of a new column: a key is filled in by the server before any backfill. */
  function AddedCells(w: World, d: Dialect, k: Key, f: Field, rows: nat): seq<Cell> {
    if MakesKey(d, f) then NewCells(w, k, Filled(DefOf(d, f), true), rows)
    else if NeedsBackfill(f) then seq(rows, i requires 0 <= i < rows => Of(w.fill(k, i)))
    else NewCells(w, k, DefOf(d, f), rows)
  }

  /**
   A required column whose declared default has no `DEFAULT` clause cannot be added to a
   table with rows, unless the server fills it in by itself: the planner takes it to have a
   default and emits no backfill. What is added as the key has to be one.
   */
  predicate Unaddable(w: World, d: Dialect, k: Key, f: Field, rows: nat) {
    if MakesKey(d, f) then Unfit(true, AddedCells(w, d, k, f, rows))
    else
      && !f.optional && f.default.Some? && DefaultSql(d, f.default).None? && rows > 0
      && Implicit(w, f.kind).None?
  }

  function AddEffect(w: World, d: Dialect, k: Key, f: Field, rows: Option<nat>, dst: Option<Column>): Effect {
    if rows.None? || dst.Some? || Unaddable(w, d, k, f, rows.value) then Stuck
    else Becomes(Column(DefOf(d, f), AddedCells(w, d, k, f, rows.value)))
  }

  lemma RunBackfill(w: World, d: Dialect, table: string, f: Field, rows: nat, cat: Catalog)
    requires d.AltersDirectly() && NeedsBackfill(f)
    requires var k := Key(table, f.column);
             var nullable := f.(optional := true);
             k in cat.cols &&
             cat.cols[k] == Column(DefOf(d, nullable), NewCells(w, k, Filled(DefOf(d, nullable), RestatesKey(d, f)), rows))
    requires MakesKey(d, f) ==> !Unfit(true, AddedCells(w, d, Key(table, f.column), f, rows))
    ensures var k := Key(table, f.column);
            DataExec(w, [Backfill(k)] + AlterStmts(d, table, f.(optional := true), f), cat) ==
            Some(WithCol(cat, k, Column(DefOf(d, f), AddedCells(w, d, k, f, rows))))
  {
    var k := Key(table, f.column);
    var nullable := f.(optional := true);
    var filled := WithCol(cat, k, cat.cols[k].(cells := FillCells(w, k, cat.cols[k].cells)));
    assert filled.cols[k].cells == AddedCells(w, d, k, f, rows);
    DataConcat(w, [Backfill(k)], AlterStmts(d, table, nullable, f), cat);
    DataOne(w, Backfill(k), cat);
    RunAlter(w, d, table, nullable, f, filled);
    var e := AlterEffect(w, d, nullable, f, Some(filled.cols[k]), Some(filled.cols[k]));
    assert e == Becomes(Column(DefOf(d, f), filled.cols[k].cells));
    assert Moved(filled.cols, k, k, e) == cat.cols[k := e.col];
  }

  /** New rows hold NULL exactly if nothing says what else. */
  lemma NewNulls(w: World, k: Key, def: ColumnDef, rows: nat)
    ensures Null in NewCells(w, k, def, rows) <==>
              rows > 0 && def.default.None? && !(def.notNull && Implicit(w, def.kind).Some?)
  {
    if rows > 0 {
      assert NewCells(w, k, def, rows)[0] == NewCell(w, k, def, 0);
    }
  }

  lemma RunAdd(w: World, d: Dialect, table: string, f: Field, cat: Catalog)
    requires d.AltersDirectly()
    ensures var k := Key(table, f.column);
            DataExec(w, AddStmts(d, table, f), cat) ==
            Outcome(cat, k, k, AddEffect(w, d, k, f, RowsOf(cat, table), Lookup(cat.cols, k)))
  {
    var k := Key(table, f.column);
    var e := AddEffect(w, d, k, f, RowsOf(cat, table), Lookup(cat.cols, k));
    if e.Becomes? {
      assert Moved(cat.cols, k, k, e) == cat.cols[k := e.col];
    }
    if NeedsBackfill(f) {
      var add := [AddCol(k, DefOf(d, f.(optional := true)), RestatesKey(d, f))];
      var rest := [Backfill(k)] + AlterStmts(d, table, f.(optional := true), f);
      assert AddStmts(d, table, f) == add + rest;
      DataConcat(w, add, rest, cat);
      DataOne(w, add[0], cat);
      if e.Becomes? {
        var first := Filled(DefOf(d, f.(optional := true)), RestatesKey(d, f));
        var mid := WithCol(cat, k, Column(DefOf(d, f.(optional := true)), NewCells(w, k, first, cat.rows[table])));
        RunBackfill(w, d, table, f, cat.rows[table], mid);
        assert mid.cols[k := e.col] == cat.cols[k := e.col];
      }
    } else {
      DataOne(w, AddCol(k, DefOf(d, f), RestatesKey(d, f)), cat);
      if k.table in cat.rows {
        NewNulls(w, k, DefOf(d, f), cat.rows[k.table]);
      }
    }
  }

  // ---- Any column change -----------------------------------------------------------------------

  predicate WellNamed(next: Schema, c: Change) {
    && IsColumnChange(c)
    && next.models.Has(c.model)
    && (c.RenameColumn? ==> next.models.Get(c.model).fields.Has(c.toName) &&
                            next.models.Get(c.model).Column(c.toName) == c.toColumn)
  }

  function FromKey(next: Schema, c: Change): Key
    requires WellNamed(next, c)
  {
    Key(next.Table(c.model), FromColumn(c))
  }

  function ToKey(next: Schema, c: Change): Key
    requires WellNamed(next, c)
  {
    Key(next.Table(c.model), ToColumn(c))
  }

  function RenameTo(next: Schema, c: Change): Field
    requires c.RenameColumn? && WellNamed(next, c)
  {
    next.models.Get(c.model).fields.Get(c.toName)
  }

  function RenameFrom(next: Schema, c: Change): Field
    requires c.RenameColumn? && WellNamed(next, c)
  {
    RenameTo(next, c).(name := c.fromName, column := c.fromColumn)
  }

  /** The effect of a change, from its table's rows and the columns at its two keys. */
  function EffectFrom(w: World, d: Dialect, next: Schema, c: Change, rows: Option<nat>, src: Option<Column>, dst: Option<Column>)
    : Effect
    requires WellNamed(next, c)
  {
    match c
    case AddColumn(_, f) => AddEffect(w, d, ToKey(next, c), f, rows, dst)
    case DropColumn(_, _) => if src.None? then Stuck else Gone
    case AlterColumn(_, from, to, _) => AlterEffect(w, d, from, to, src, dst)
    case RenameColumn(_, _, _, _, _) => AlterEffect(w, d, RenameFrom(next, c), RenameTo(next, c), src, dst)
  }

  function EffectOf(w: World, d: Dialect, next: Schema, c: Change, cat: Catalog): Effect
    requires WellNamed(next, c)
  {
    EffectFrom(w, d, next, c, RowsOf(cat, next.Table(c.model)),
               Lookup(cat.cols, FromKey(next, c)), Lookup(cat.cols, ToKey(next, c)))
  }

  /** A change that stays on its column finds it. */
  predicate Anchored(next: Schema, c: Change, cols: map<Key, Column>)
    requires WellNamed(next, c)
  {
    (c.AlterColumn? || c.RenameColumn?) && FromColumn(c) == ToColumn(c) ==> ToKey(next, c) in cols
  }

  lemma RunChange(w: World, d: Dialect, next: Schema, c: Change, cat: Catalog)
    requires d.AltersDirectly()
    requires WellNamed(next, c) && Anchored(next, c, cat.cols)
    ensures DataExec(w, Render(d, next, c), cat) ==
            Outcome(cat, FromKey(next, c), ToKey(next, c), EffectOf(w, d, next, c, cat))
  {
    var table := next.Table(c.model);
    match c
    case AddColumn(_, f) => RunAdd(w, d, table, f, cat);
    case DropColumn(_, column) => DataOne(w, DropCol(Key(table, column)), cat);
    case AlterColumn(_, from, to, _) => RunAlter(w, d, table, from, to, cat);
    case RenameColumn(_, _, _, _, _) => RunAlter(w, d, table, RenameFrom(next, c), RenameTo(next, c), cat);
  }

  // ---- A whole phase -----------------------------------------------------------------------------

  predicate Touches(next: Schema, c: Change, k: Key)
    requires WellNamed(next, c)
  {
    k == FromKey(next, c) || k == ToKey(next, c)
  }

  ghost predicate Apart(next: Schema, c: Change, e: Change)
    requires WellNamed(next, c) && WellNamed(next, e)
  {
    forall k :: !(Touches(next, c, k) && Touches(next, e, k))
  }

  ghost predicate Separate(next: Schema, c: Change, e: Change) {
    WellNamed(next, c) && WellNamed(next, e) && Apart(next, c, e)
  }

  ghost predicate PairwiseApart(next: Schema, cs: seq<Change>) {
    forall i, j :: 0 <= i < j < |cs| ==> Separate(next, cs[i], cs[j])
  }

  /** Changes of one phase: each well named and anchored, no two on a common key. */
  ghost predicate Independent(next: Schema, cs: seq<Change>, cols: map<Key, Column>) {
    && (forall c :: c in cs ==> WellNamed(next, c) && Anchored(next, c, cols))
    && PairwiseApart(next, cs)
  }

  /** `k` after a change: what the change makes of it, or what was there. */
  ghost predicate Settled(next: Schema, c: Change, e: Effect, after: map<Key, Column>)
    requires WellNamed(next, c)
  {
    var a, b := FromKey(next, c), ToKey(next, c);
    match e
    case Stuck => false
    case Gone => a !in after
    case Becomes(col) => b in after && after[b] == col && (a != b ==> a !in after)
  }

  ghost predicate Untouched(next: Schema, cs: seq<Change>, k: Key)
    requires forall c :: c in cs ==> WellNamed(next, c)
  {
    forall c :: c in cs ==> !Touches(next, c, k)
  }

  /** The columns after a phase, described change by change and key by key. */
  ghost predicate PhaseResult(w: World, d: Dialect, next: Schema, cs: seq<Change>, cat: Catalog, after: Catalog)
    requires forall c :: c in cs ==> WellNamed(next, c)
  {
    && after == cat.(cols := after.cols)
    && (forall c :: c in cs ==> Settled(next, c, EffectOf(w, d, next, c, cat), after.cols))
    && (forall k {:trigger Untouched(next, cs, k)} :: Untouched(next, cs, k) ==> Lookup(after.cols, k) == Lookup(cat.cols, k))
  }

  ghost predicate Runnable(w: World, d: Dialect, next: Schema, cs: seq<Change>, cat: Catalog)
    requires forall c :: c in cs ==> WellNamed(next, c)
  {
    forall c :: c in cs ==> !EffectOf(w, d, next, c, cat).Stuck?
  }

  /** A change does not disturb the keys of the others. */
  lemma Undisturbed(w: World, d: Dialect, next: Schema, c: Change, e: Effect, cat: Catalog, k: Key)
    requires WellNamed(next, c) && !e.Stuck? && !Touches(next, c, k)
    ensures Lookup(Moved(cat.cols, FromKey(next, c), ToKey(next, c), e), k) == Lookup(cat.cols, k)
  {}

  lemma OthersKeep(w: World, d: Dialect, next: Schema, c: Change, e: Effect, cat: Catalog, other: Change)
    requires WellNamed(next, c) && WellNamed(next, other) && Apart(next, c, other) && !e.Stuck?
    ensures var mid := cat.(cols := Moved(cat.cols, FromKey(next, c), ToKey(next, c), e));
            && EffectOf(w, d, next, other, mid) == EffectOf(w, d, next, other, cat)
            && (Anchored(next, other, cat.cols) ==> Anchored(next, other, mid.cols))
  {
    assert Touches(next, other, FromKey(next, other)) && Touches(next, other, ToKey(next, other));
    Undisturbed(w, d, next, c, e, cat, FromKey(next, other));
    Undisturbed(w, d, next, c, e, cat, ToKey(next, other));
  }

  lemma ApartTail(next: Schema, cs: seq<Change>)
    requires cs != [] && PairwiseApart(next, cs)
    ensures PairwiseApart(next, cs[1..])
  {
    forall i, j | 0 <= i < j < |cs[1..]| ensures Separate(next, cs[1..][i], cs[1..][j]) {
      assert Separate(next, cs[i + 1], cs[j + 1]);
    }
  }

  lemma {:induction false} RunPhase(w: World, d: Dialect, next: Schema, cs: seq<Change>, cat: Catalog)
    requires d.AltersDirectly() && Renderable(next, cs) && Independent(next, cs, cat.cols)
    ensures DataExec(w, RenderAll(d, next, cs), cat).Some? <==> Runnable(w, d, next, cs, cat)
    ensures Runnable(w, d, next, cs, cat) ==>
              PhaseResult(w, d, next, cs, cat, DataExec(w, RenderAll(d, next, cs), cat).value)
  {
    if cs == [] {
    } else {
      var c, rest := cs[0], cs[1..];
      var e := EffectOf(w, d, next, c, cat);
      RunChange(w, d, next, c, cat);
      DataConcat(w, Render(d, next, c), RenderAll(d, next, rest), cat);
      if !e.Stuck? {
        var mid := cat.(cols := Moved(cat.cols, FromKey(next, c), ToKey(next, c), e));
        forall other | other in rest
          ensures EffectOf(w, d, next, other, mid) == EffectOf(w, d, next, other, cat) && Anchored(next, other, mid.cols)
        {
          var j :| 0 <= j < |rest| && rest[j] == other;
          assert Separate(next, cs[0], cs[j + 1]);
          OthersKeep(w, d, next, c, e, cat, other);
        }
        ApartTail(next, cs);
        RunPhase(w, d, next, rest, mid);
        if Runnable(w, d, next, cs, cat) {
          PhaseStep(w, d, next, cs, cat, mid, DataExec(w, RenderAll(d, next, rest), mid).value);
        }
      }
    }
  }

  /** What the first change touches, the others leave alone. */
  lemma FirstAlone(next: Schema, cs: seq<Change>, k: Key)
    requires cs != [] && (forall c :: c in cs ==> WellNamed(next, c)) && PairwiseApart(next, cs) && Touches(next, cs[0], k)
    ensures Untouched(next, cs[1..], k)
  {
    forall other | other in cs[1..] ensures !Touches(next, other, k) {
      var j :| 0 <= j < |cs[1..]| && cs[1..][j] == other;
      assert Separate(next, cs[0], cs[j + 1]);
    }
  }

  lemma PhaseStep(w: World, d: Dialect, next: Schema, cs: seq<Change>, cat: Catalog, mid: Catalog, after: Catalog)
    requires cs != [] && Independent(next, cs, cat.cols) && Runnable(w, d, next, cs, cat)
    requires mid == cat.(cols := Moved(cat.cols, FromKey(next, cs[0]), ToKey(next, cs[0]), EffectOf(w, d, next, cs[0], cat)))
    requires forall c :: c in cs[1..] ==> EffectOf(w, d, next, c, mid) == EffectOf(w, d, next, c, cat)
    requires PhaseResult(w, d, next, cs[1..], mid, after)
    ensures PhaseResult(w, d, next, cs, cat, after)
  {
    var c, rest := cs[0], cs[1..];
    var e := EffectOf(w, d, next, c, cat);
    forall k | Touches(next, c, k) ensures Lookup(after.cols, k) == Lookup(mid.cols, k) {
      FirstAlone(next, cs, k);
      assert Untouched(next, rest, k);
    }
    assert Touches(next, c, FromKey(next, c)) && Touches(next, c, ToKey(next, c));
    assert Settled(next, c, e, after.cols);
    forall k | Untouched(next, cs, k) ensures Lookup(after.cols, k) == Lookup(cat.cols, k) {
      assert Untouched(next, rest, k);
      Undisturbed(w, d, next, c, e, cat, k);
    }
  }
}
