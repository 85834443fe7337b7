/**
 Turning changes into statements on a dialect that alters columns directly
 (`crates/migrate/src/plan.rs`, with `postgres.rs` and `mysql.rs` of the dialect crate).
 The planner only filters the changes and renders them, phase by phase.
 */
module Plan {
  import opened Names
  import opened Ir
  import opened Catalogue

  /** `default_sql`: client-side and identity defaults have no `DEFAULT` clause. */
  function DefaultSql(d: Dialect, default: Option<DefaultValue>): Option<SqlDefault> {
    match default
    case None => None
    case Some(LiteralDefault(lit)) => Some(LiteralSql(lit))
    case Some(FunctionDefault(Uuid4)) => if d.Sqlite? then None else Some(UuidSql)
    case Some(FunctionDefault(Now)) => Some(NowSql)
    case Some(FunctionDefault(_)) => None
    case Some(DbGenerated(sql)) => if sql == "" then None else Some(RawSql(sql))
  }

  function DefOf(d: Dialect, f: Field): ColumnDef {
    ColumnDef(f.kind, !f.optional, DefaultSql(d, f.default))
  }

  function RetypeStmts(key: Key, from: Field, to: Field): seq<Stmt> {
    if from.kind != to.kind then [SetType(key, to.kind)] else []
  }

  function RedefaultStmts(d: Dialect, key: Key, from: Field, to: Field): seq<Stmt> {
    if DefaultSql(d, from.default) != DefaultSql(d, to.default) then [ChangeDefault(key, DefaultSql(d, to.default))]
    else []
  }

  function RenullStmts(key: Key, from: Field, to: Field): seq<Stmt> {
    if from.optional != to.optional then [SetNullability(key, !to.optional)] else []
  }

  /** `alter_column` of Postgres: up to four statements, rename first. */
  function PostgresAlter(d: Dialect, table: string, from: Field, to: Field): seq<Stmt> {
    var key := Key(table, to.column);
    (if from.column != to.column then [RenameCol(Key(table, from.column), to.column)] else []) +
    (RetypeStmts(key, from, to) + (RedefaultStmts(d, key, from, to) + RenullStmts(key, from, to)))
  }

  /** `alter_column` of MySQL: one MODIFY or CHANGE that restates the whole column, `PRIMARY KEY` included. */
  function MysqlAlter(d: Dialect, table: string, from: Field, to: Field): seq<Stmt> {
    [ChangeCol(Key(table, from.column), to.column, DefOf(d, to), to.isId)]
  }

  function AlterStmts(d: Dialect, table: string, from: Field, to: Field): seq<Stmt> {
    if d.Mysql? then MysqlAlter(d, table, from, to) else PostgresAlter(d, table, from, to)
  }

  /** `add_column`: Postgres leaves `PRIMARY KEY` out. */
  function RestatesKey(d: Dialect, f: Field): bool {
    !d.Postgres? && f.isId
  }

  /** A required column without a declared default is added nullable, backfilled, then tightened. */
  function AddStmts(d: Dialect, table: string, f: Field): seq<Stmt> {
    var key := Key(table, f.column);
    if !f.optional && f.default.None? then
      var nullable := f.(optional := true);
      [AddCol(key, DefOf(d, nullable), RestatesKey(d, f)), Backfill(key)] + AlterStmts(d, table, nullable, f)
    else
      [AddCol(key, DefOf(d, f), RestatesKey(d, f))]
  }

  function FallbackField(name: FieldName, column: string): Field {
    Field(name, column, Scalar(ScalarType.String), true, None, None, false, false)
  }

  function RenameStmts(d: Dialect, target: Model, c: Change): seq<Stmt>
    requires c.RenameColumn?
  {
    var toField := if target.fields.Has(c.toName) then target.fields.Get(c.toName)
                   else FallbackField(c.toName, c.toColumn);
    AlterStmts(d, target.table, toField.(name := c.fromName, column := c.fromColumn), toField)
  }

  /** The columns that an index or unique constraint covers. */
  function TargetColumns(m: Model, targets: seq<FieldName>): seq<string> {
    seq(|targets|, i requires 0 <= i < |targets| =>
      if m.fields.Has(targets[i]) then m.Column(targets[i]) else targets[i].text)
  }

  function TableColumns(d: Dialect, m: Model): map<string, ColumnDef>
    requires m.Valid()
  {
    map n | n in m.fields.entries && m.OwnsColumn(n) :: m.Column(n) := DefOf(d, m.fields.Get(n))
  }

  /** Named definitions as a map; the names are distinct in a schema that validates. */
  function ByName(m: Model, defs: seq<IndexDef>): map<string, seq<string>> {
    if defs == [] then map[]
    else ByName(m, defs[..|defs| - 1])[defs[|defs| - 1].dbName := TargetColumns(m, defs[|defs| - 1].targets)]
  }

  /** The columns that carry a `UNIQUE` of their own. */
  function InlineUniques(m: Model): set<string> {
    set n | n in m.fields.entries && m.OwnsColumn(n) && m.fields.Get(n).isUnique :: m.Column(n)
  }

  /** `CREATE TABLE` has the key of the `@id` field, or that of a block with more than one field. */
  predicate RendersKey(m: Model) {
    |m.primary| > 1 || (|m.primary| == 1 && m.fields.Has(m.primary[0]) && m.fields.Get(m.primary[0]).isId)
  }

  function KeysOfTable(m: Model): TableKeys {
    TableKeys(if RendersKey(m) then TargetColumns(m, m.primary) else [], InlineUniques(m), ByName(m, m.uniques))
  }

  function FkDefOf(r: ResolvedRelation): FkDef {
    FkDef(r.ownerCols, r.targetTable, r.targetCols, r.onDelete, r.onUpdate)
  }

  datatype Phase =
    | Creating | Adding | ClearingWay | Renaming | Altering
    | DroppingFks | DroppingIndexes | DroppingUniques
    | AddingUniques | AddingIndexes | AddingFks
    | Dropping | DroppingTables

  /** A drop that makes room for a column renamed onto its name (K11). */
  predicate IsShadowedDrop(all: seq<Change>, m: ModelName, column: string) {
    exists c :: c in all && c.RenameColumn? && c.model == m && c.toColumn == column && c.fromColumn != column
  }

  predicate InPhase(p: Phase, all: seq<Change>, c: Change) {
    match p
    case Creating => c.CreateModel?
    case Adding => c.AddColumn?
    case ClearingWay => c.DropColumn? && IsShadowedDrop(all, c.model, c.column)
    case Renaming => c.RenameColumn?
    case Altering => c.AlterColumn?
    case DroppingFks => c.DropForeignKey?
    case DroppingIndexes => c.DropIndex?
    case DroppingUniques => c.DropUnique?
    case AddingUniques => c.AddUnique?
    case AddingIndexes => c.CreateIndex?
    case AddingFks => c.AddForeignKey?
    case Dropping => c.DropColumn? && !IsShadowedDrop(all, c.model, c.column)
    case DroppingTables => c.DropModel?
  }

  /** Whether the planner can look up the model the change names; it panics otherwise. */
  predicate Known(next: Schema, c: Change) {
    IsEnumChange(c) || c.CreateModel? || c.DropModel? || c.RenameModel? || next.models.Has(c.model)
  }

  predicate IsConChange(c: Change) {
    || c.CreateIndex? || c.DropIndex? || c.AddUnique? || c.DropUnique? || c.AddForeignKey? || c.DropForeignKey?
  }

  /** A many-to-many relation has no foreign key of its own. */
  function RenderCon(d: Dialect, m: Model, c: Change): seq<Stmt>
    requires IsConChange(c)
  {
    match c
    case CreateIndex(_, ix) => [AddCon(ConKey(IndexCon, m.table, ix.dbName), TargetColumns(m, ix.targets))]
    case DropIndex(_, name) => [DropCon(ConKey(IndexCon, m.table, name), d.Postgres?)]
    case AddUnique(_, uq) => [AddCon(ConKey(UniqueCon, m.table, uq.dbName), TargetColumns(m, uq.targets))]
    case DropUnique(_, name) => [DropCon(ConKey(UniqueCon, m.table, name), false)]
    case AddForeignKey(_, r) =>
      if r.kind.ManyToMany? then [] else [AddFk(ConKey(ForeignKeyCon, m.table, r.constraintName), FkDefOf(r))]
    case DropForeignKey(_, r) =>
      if r.kind.ManyToMany? then [] else [DropCon(ConKey(ForeignKeyCon, m.table, r.constraintName), false)]
  }

  /** Types are not in the catalogue, and `DropStmts` renders the dropped tables. */
  function Render(d: Dialect, next: Schema, c: Change): seq<Stmt>
    requires Known(next, c)
    requires c.CreateModel? ==> c.created.Valid()
  {
    match c
    case CreateEnum(_) => []
    case DropEnum(_, _) => []
    case AddEnumVariant(_, _) => []
    case DropEnumVariant(_, _) => []
    case CreateModel(m) => [CreateTable(m.table, TableColumns(d, m), KeysOfTable(m))]
    case DropModel(_, _) => []
    case RenameModel(_, _, _) => []
    case AddColumn(m, f) => AddStmts(d, next.Table(m), f)
    case DropColumn(m, column) => [DropCol(Key(next.Table(m), column))]
    case AlterColumn(m, from, to, _) => AlterStmts(d, next.Table(m), from, to)
    case RenameColumn(m, _, _, _, _) => RenameStmts(d, next.models.Get(m), c)
    case _ => RenderCon(d, next.models.Get(c.model), c)
  }

  function Select(p: Phase, all: seq<Change>, changes: seq<Change>): seq<Change> {
    if changes == [] then []
    else (if InPhase(p, all, changes[0]) then [changes[0]] else []) + Select(p, all, changes[1..])
  }

  ghost predicate Renderable(next: Schema, changes: seq<Change>) {
    forall c :: c in changes ==> Known(next, c) && (c.CreateModel? ==> c.created.Valid())
  }

  function RenderAll(d: Dialect, next: Schema, changes: seq<Change>): seq<Stmt>
    requires Renderable(next, changes)
  {
    if changes == [] then [] else Render(d, next, changes[0]) + RenderAll(d, next, changes[1..])
  }

  lemma {:induction false} SelectMembers(p: Phase, all: seq<Change>, changes: seq<Change>)
    ensures forall c :: c in Select(p, all, changes) <==> c in changes && InPhase(p, all, c)
  {
    if changes != [] {
      SelectMembers(p, all, changes[1..]);
    }
  }

  function PhaseStmts(d: Dialect, next: Schema, p: Phase, changes: seq<Change>): seq<Stmt>
    requires Renderable(next, changes)
  {
    SelectMembers(p, changes, changes);
    RenderAll(d, next, Select(p, changes, changes))
  }

  /** Columns are added, cleared out of the way, renamed and altered, in that order. */
  function ColumnStmts(d: Dialect, next: Schema, changes: seq<Change>): seq<Stmt>
    requires Renderable(next, changes)
  {
    PhaseStmts(d, next, Adding, changes) +
    (PhaseStmts(d, next, ClearingWay, changes) +
     (PhaseStmts(d, next, Renaming, changes) + PhaseStmts(d, next, Altering, changes)))
  }

  /** Dependent objects are dropped before they are recreated with new definitions. */
  function ConStmts(d: Dialect, next: Schema, changes: seq<Change>): seq<Stmt>
    requires Renderable(next, changes)
  {
    (PhaseStmts(d, next, DroppingFks, changes) +
     PhaseStmts(d, next, DroppingIndexes, changes) +
     PhaseStmts(d, next, DroppingUniques, changes)) +
    (PhaseStmts(d, next, AddingUniques, changes) +
     PhaseStmts(d, next, AddingIndexes, changes) +
     PhaseStmts(d, next, AddingFks, changes))
  }

  /** The same changes in another order. */
  ghost predicate Reordered(p: Phase, changes: seq<Change>, order: seq<Change>) {
    multiset(order) == multiset(Select(p, changes, changes))
  }

  /** Everything between the deferral brackets, up to the table drops. */
  function MainStmts(d: Dialect, next: Schema, changes: seq<Change>, creates: seq<Change>): seq<Stmt>
    requires Renderable(next, changes) && Renderable(next, creates)
  {
    RenderAll(d, next, creates) +
    (ColumnStmts(d, next, changes) + (ConStmts(d, next, changes) + PhaseStmts(d, next, Dropping, changes)))
  }

  /** The dropped tables; down migrations of Postgres drop those on a foreign-key cycle with CASCADE. */
  function DropStmts(cascade: set<string>, drops: seq<Change>): seq<Stmt>
    requires forall c :: c in drops ==> c.DropModel?
  {
    if drops == [] then []
    else [DropTable(drops[0].table, drops[0].table in cascade)] + DropStmts(cascade, drops[1..])
  }

  /** What the planner's comparators leave open: the orders of created and dropped tables, and which drops cascade. */
  datatype Choices = Choices(creates: seq<Change>, drops: seq<Change>, cascade: set<string>)

  ghost predicate Chosen(changes: seq<Change>, o: Choices) {
    && Reordered(Creating, changes, o.creates) && Reordered(DroppingTables, changes, o.drops)
  }

  ghost predicate Plannable(next: Schema, changes: seq<Change>, o: Choices) {
    && Renderable(next, changes) && Renderable(next, o.creates) && forall c :: c in o.drops ==> c.DropModel?
  }

  /**
   The planner's statements. The model changes come in the order that the planner's sort
   leaves them in; the claims about the plan are made for every order.
   */
  function PlanStmts(d: Dialect, next: Schema, changes: seq<Change>, o: Choices, defer: bool): seq<Stmt>
    requires Plannable(next, changes, o)
  {
    (if defer then [DeferChecks(true)] else []) +
    (MainStmts(d, next, changes, o.creates) +
     (DropStmts(o.cascade, o.drops) +
      (if defer then [DeferChecks(false)] else [])))
  }
}
