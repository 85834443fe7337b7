/**
 A database as the planner's statements see it: tables with their rows, columns with
 their definitions and cells, and the constraints on them. Every statement is a partial
 step; `None` means that the server rejects it. A step has two halves that do not read
 each other's results: what it does to the data, and what it does to the constraints.
 */
module Catalogue {
  import opened Ir

  /** A column, by table and name. */
  datatype Key = Key(table: string, name: string)

  /** `PrimaryCon` is a primary key, and `InlineCon` a field's own `UNIQUE`, which only comes with `CREATE TABLE`. */
  datatype ConKind = PrimaryCon | InlineCon | UniqueCon | IndexCon | ForeignKeyCon

  /** A constraint or index, by table and name. */
  datatype ConKey = ConKey(kind: ConKind, table: string, name: string)

  type Value = int

  datatype Cell = Null | Of(value: Value)

  /** A `DEFAULT` expression as rendered for a dialect. */
  datatype SqlDefault = LiteralSql(lit: Literal) | NowSql | UuidSql | RawSql(sql: string)

  /** `notNull` is what the column says of itself; a primary key rules out NULL besides. */
  datatype ColumnDef = ColumnDef(kind: FieldKind, notNull: bool, default: Option<SqlDefault>)

  /** A column with one cell per row of its table. */
  datatype Column = Column(def: ColumnDef, cells: seq<Cell>)

  datatype FkDef = FkDef(
    ownerCols: seq<string>,
    targetTable: string,
    targetCols: seq<string>,
    onDelete: ReferentialAction,
    onUpdate: ReferentialAction)

  /** What a constraint is over: columns of its own table, or a reference from them to another table. */
  datatype Con = OnColumns(cols: seq<string>) | References(fk: FkDef)

  /** `checks` is off while MySQL's foreign-key checks are disabled. */
  datatype Catalog = Catalog(rows: map<string, nat>, cols: map<Key, Column>, cons: map<ConKey, Con>, checks: bool)

  /**
   What the server and the author of the migration contribute: which values and which old
   defaults can be converted to another type, defaults and backfills as evaluated for each row,
   the value that MySQL puts into a new NOT NULL column that has no default, and which of
   several keys a foreign key of Postgres was built on.
   */
  datatype World = World(
    server: Dialect,
    cast: (FieldKind, FieldKind, Value) -> Option<Value>,
    recasts: (SqlDefault, FieldKind, FieldKind) -> bool,
    eval: (SqlDefault, Key, nat) -> Value,
    fill: (Key, nat) -> Value,
    implicit: FieldKind -> Option<Value>,
    relies: (ConKey, ConKey) -> bool)

  /** The keys inside `CREATE TABLE`. */
  datatype TableKeys = TableKeys(primary: seq<string>, inline: set<string>, uniques: map<string, seq<string>>)

  /** `primary` says that a column's definition ends in `PRIMARY KEY`. */
  datatype Stmt =
    | CreateTable(table: string, columns: map<string, ColumnDef>, keys: TableKeys)
    | DropTable(table: string, cascade: bool)
    | AddCol(key: Key, def: ColumnDef, primary: bool)
    | Backfill(key: Key)
    | DropCol(key: Key)
    | RenameCol(key: Key, newName: string)
    | SetType(key: Key, kind: FieldKind)
    | ChangeDefault(key: Key, default: Option<SqlDefault>)
    | SetNullability(key: Key, notNull: bool)
    | ChangeCol(key: Key, newName: string, def: ColumnDef, primary: bool)
    | AddCon(con: ConKey, cols: seq<string>)
    | AddFk(con: ConKey, fk: FkDef)
    | DropCon(con: ConKey, ifExists: bool)
    | DeferChecks(on: bool)

  // ---- The data half -----------------------------------------------------------------------

  /** Every value has a counterpart of the new kind. */
  predicate Castable(w: World, from: FieldKind, to: FieldKind, cells: seq<Cell>) {
    from == to || forall c :: c in cells && c.Of? ==> w.cast(from, to, c.value).Some?
  }

  /** A value without a counterpart stays; `Castable` rules that out where cells are converted. */
  function CastCell(w: World, from: FieldKind, to: FieldKind, c: Cell): Cell {
    if c.Null? || w.cast(from, to, c.value).None? then c else Of(w.cast(from, to, c.value).value)
  }

  /** Cells are converted only when the kind really changes. */
  function CastCells(w: World, from: FieldKind, to: FieldKind, cells: seq<Cell>): seq<Cell> {
    if from == to then cells else seq(|cells|, i requires 0 <= i < |cells| => CastCell(w, from, to, cells[i]))
  }

  /** `TYPE … USING` converts the cells, but the old default has to follow by itself. */
  predicate DefaultRecasts(w: World, def: ColumnDef, to: FieldKind) {
    def.kind == to || def.default.None? || w.recasts(def.default.value, def.kind, to)
  }

  function FillCells(w: World, k: Key, cells: seq<Cell>): seq<Cell> {
    seq(|cells|, i requires 0 <= i < |cells| => if cells[i].Null? then Of(w.fill(k, i)) else cells[i])
  }

  /** What a new column without a default holds in old rows, if NULL is not allowed. */
  function Implicit(w: World, kind: FieldKind): Option<Value> {
    if w.server.Mysql? then w.implicit(kind) else None
  }

  function NewCell(w: World, k: Key, def: ColumnDef, i: nat): Cell {
    if def.default.Some? then Of(w.eval(def.default.value, k, i))
    else if def.notNull && Implicit(w, def.kind).Some? then Of(Implicit(w, def.kind).value)
    else Null
  }

  function NewCells(w: World, k: Key, def: ColumnDef, rows: nat): seq<Cell> {
    seq(rows, i requires 0 <= i < rows => NewCell(w, k, def, i))
  }

  predicate Blocks(notNull: bool, cells: seq<Cell>) {
    notNull && Null in cells
  }

  /** The cells cannot be those of a primary key. */
  predicate Unfit(primary: bool, cells: seq<Cell>) {
    primary && (Null in cells || exists i, j :: 0 <= i < j < |cells| && cells[i] == cells[j])
  }

  /** A column that is added as the primary key is NOT NULL whatever it says. */
  function Filled(def: ColumnDef, primary: bool): ColumnDef {
    if primary then def.(notNull := true) else def
  }

  function WithCol(cat: Catalog, k: Key, c: Column): Catalog {
    cat.(cols := cat.cols[k := c])
  }

  function KeysOf(t: string, names: set<string>): set<Key> {
    set n | n in names :: Key(t, n)
  }

  function DataStep(w: World, s: Stmt, cat: Catalog): Option<Catalog> {
    match s
    case CreateTable(t, columns, _) =>
      if t in cat.rows then None else
      Some(cat.(rows := cat.rows[t := 0],
                cols := cat.cols + map k | k in KeysOf(t, columns.Keys) :: Column(columns[k.name], [])))
    case DropTable(t, _) =>
      Some(cat.(rows := cat.rows - {t}, cols := map k | k in cat.cols && k.table != t :: cat.cols[k]))
    case AddCol(k, def, primary) =>
      if k.table !in cat.rows || k in cat.cols then None else
      var cells := NewCells(w, k, Filled(def, primary), cat.rows[k.table]);
      if Blocks(def.notNull, cells) || Unfit(primary, cells) then None else
      Some(WithCol(cat, k, Column(def, cells)))
    case Backfill(k) =>
      if k !in cat.cols then None else
      Some(WithCol(cat, k, cat.cols[k].(cells := FillCells(w, k, cat.cols[k].cells))))
    case DropCol(k) =>
      if k !in cat.cols then None else Some(cat.(cols := cat.cols - {k}))
    case RenameCol(k, n) =>
      if k !in cat.cols || Key(k.table, n) in cat.cols then None else
      Some(cat.(cols := (cat.cols - {k})[Key(k.table, n) := cat.cols[k]]))
    case SetType(k, kind) =>
      if k !in cat.cols then None else
      var c := cat.cols[k];
      if !Castable(w, c.def.kind, kind, c.cells) || !DefaultRecasts(w, c.def, kind) then None else
      Some(WithCol(cat, k, Column(c.def.(kind := kind), CastCells(w, c.def.kind, kind, c.cells))))
    case ChangeDefault(k, default) =>
      if k !in cat.cols then None else
      Some(WithCol(cat, k, cat.cols[k].(def := cat.cols[k].def.(default := default))))
    case SetNullability(k, notNull) =>
      if k !in cat.cols || Blocks(notNull, cat.cols[k].cells) then None else
      Some(WithCol(cat, k, cat.cols[k].(def := cat.cols[k].def.(notNull := notNull))))
    case ChangeCol(k, n, def, primary) =>
      if k !in cat.cols || (n != k.name && Key(k.table, n) in cat.cols) then None else
      var c := cat.cols[k];
      var cells := CastCells(w, c.def.kind, def.kind, c.cells);
      if !Castable(w, c.def.kind, def.kind, c.cells) || Blocks(def.notNull, cells) || Unfit(primary, cells) then None else
      Some(cat.(cols := (cat.cols - {k})[Key(k.table, n) := Column(def, cells)]))
    case _ => Some(cat)
  }

  // ---- The constraint half: statements about columns ------------------------------------------

  /** What a statement about a column makes of one constraint. */
  datatype Fate = Refused | Lost | Stands(con: Con)

  function WithoutName(names: seq<string>, x: string): seq<string> {
    if names == [] then [] else (if names[0] == x then [] else [names[0]]) + WithoutName(names[1..], x)
  }

  function ReplacedName(names: seq<string>, x: string, y: string): seq<string> {
    seq(|names|, i requires 0 <= i < |names| => if names[i] == x then y else names[i])
  }

  /**
   Dropping a column. Postgres drops what is over it, MySQL takes it out of indexes and
   drops those that become empty. A foreign key goes with its own columns on Postgres; it
   holds on to them on MySQL, and to the columns it refers to on both.
   */
  function DropFate(d: Dialect, key: Key, k: ConKey, con: Con): Fate {
    match con
    case OnColumns(cols) =>
      if k.table != key.table || key.name !in cols then Stands(con)
      else if d.Mysql? && WithoutName(cols, key.name) != [] then Stands(OnColumns(WithoutName(cols, key.name)))
      else Lost
    case References(fk) =>
      if Owns(k, fk, key) then (if d.Mysql? then Refused else Lost)
      else if Aims(fk, key) then Refused
      else Stands(con)
  }

  predicate Owns(k: ConKey, fk: FkDef, key: Key) {
    k.table == key.table && key.name in fk.ownerCols
  }

  predicate Aims(fk: FkDef, key: Key) {
    fk.targetTable == key.table && key.name in fk.targetCols
  }

  /** Every server follows its columns when they are renamed. */
  function Followed(key: Key, y: string, k: ConKey, con: Con): Con {
    match con
    case OnColumns(cols) => if k.table == key.table then OnColumns(ReplacedName(cols, key.name, y)) else con
    case References(fk) =>
      var owner := if k.table == key.table then ReplacedName(fk.ownerCols, key.name, y) else fk.ownerCols;
      var target := if fk.targetTable == key.table then ReplacedName(fk.targetCols, key.name, y) else fk.targetCols;
      References(fk.(ownerCols := owner, targetCols := target))
  }

  function PrimaryOf(t: string): ConKey {
    ConKey(PrimaryCon, t, "")
  }

  /** The column is part of the primary key. */
  predicate InKey(k: ConKey, con: Con, key: Key) {
    k == PrimaryOf(key.table) && con.OnColumns? && key.name in con.cols
  }

  predicate SetsNull(fk: FkDef) {
    fk.onDelete.SetNull? || fk.onUpdate.SetNull?
  }

  /** The foreign key may set the column to NULL. */
  predicate Nulls(k: ConKey, con: Con, key: Key) {
    con.References? && SetsNull(con.fk) && Owns(k, con.fk, key)
  }

  /**
   What the constraint objects to in a new definition of a column: a second primary key,
   NULL in the primary key, and NOT NULL where a foreign key may set NULL. Only MySQL
   restates whole columns.
   */
  predicate Objects(k: ConKey, con: Con, key: Key, def: ColumnDef, primary: bool) {
    || (primary && k == PrimaryOf(key.table))
    || (!def.notNull && InKey(k, con, key))
    || (def.notNull && Nulls(k, con, key))
  }

  function Fated(d: Dialect, s: Stmt, k: ConKey, con: Con): Fate {
    match s
    case AddCol(key, _, primary) => if primary && k == PrimaryOf(key.table) then Refused else Stands(con)
    case DropCol(key) => DropFate(d, key, k, con)
    case RenameCol(key, n) => Stands(Followed(key, n, k, con))
    case SetNullability(key, notNull) => if !notNull && InKey(k, con, key) then Refused else Stands(con)
    case ChangeCol(key, n, def, primary) =>
      if Objects(k, con, key, def, primary) then Refused else Stands(Followed(key, n, k, con))
    case _ => Stands(con)
  }

  /** The primary key that a statement about a column brings along. */
  function Gain(s: Stmt): map<ConKey, Con> {
    match s
    case AddCol(key, _, primary) => if primary then map[PrimaryOf(key.table) := OnColumns([key.name])] else map[]
    case ChangeCol(key, n, _, primary) => if primary then map[PrimaryOf(key.table) := OnColumns([n])] else map[]
    case _ => map[]
  }

  /** A statement about columns acts on every constraint by itself, and may add a primary key. */
  function ColumnCons(d: Dialect, s: Stmt, cons: map<ConKey, Con>): Option<map<ConKey, Con>> {
    if exists k :: k in cons && Fated(d, s, k, cons[k]).Refused? then None
    else Some((map k | k in cons && Fated(d, s, k, cons[k]).Stands? :: Fated(d, s, k, cons[k]).con) + Gain(s))
  }

  // ---- The constraint half: keys that foreign keys need ------------------------------------------

  /** Columns that some key has to cover. */
  datatype Need = Need(table: string, cols: seq<string>)

  /** A foreign key needs a key over its target; on MySQL also an index over its own columns. */
  function Needs(d: Dialect, f: ConKey, fk: FkDef): set<Need> {
    {Need(fk.targetTable, fk.targetCols)} + if d.Mysql? then {Need(f.table, fk.ownerCols)} else {}
  }

  predicate SameNames(a: seq<string>, b: seq<string>) {
    |a| == |b| && (forall x :: x in a ==> x in b) && forall x :: x in b ==> x in a
  }

  /** Postgres wants a unique key over just these columns, MySQL any index that begins with them. */
  predicate Serves(d: Dialect, need: Need, k: ConKey, con: Con) {
    && k.table == need.table && con.OnColumns?
    && if d.Mysql? then need.cols <= con.cols else k.kind != IndexCon && SameNames(con.cols, need.cols)
  }

  predicate Served(d: Dialect, need: Need, cons: map<ConKey, Con>) {
    exists k :: k in cons && Serves(d, need, k, cons[k])
  }

  /** Without the keys `gone`, the need of `f` is no longer met: on MySQL by any key, on Postgres by the one it was built on. */
  predicate Loses(w: World, cons: map<ConKey, Con>, gone: set<ConKey>, f: ConKey, need: Need) {
    && (exists k :: k in gone && k in cons && Serves(w.server, need, k, cons[k]) && (w.server.Mysql? || w.relies(f, k)))
    && (w.server.Mysql? ==> !Served(w.server, need, cons - gone))
  }

  /** Foreign key `f` holds on to one of the keys `gone`. */
  predicate Holds(w: World, cons: map<ConKey, Con>, gone: set<ConKey>, f: ConKey)
    requires f in cons
  {
    cons[f].References? && exists need :: need in Needs(w.server, f, cons[f].fk) && Loses(w, cons, gone, f, need)
  }

  predicate Held(w: World, cons: map<ConKey, Con>, gone: set<ConKey>) {
    exists f :: f in cons && Holds(w, cons, gone, f)
  }

  // ---- The constraint half: the other statements ------------------------------------------------

  predicate HasColumns(cols: map<Key, Column>, table: string, names: seq<string>) {
    forall n :: n in names ==> Key(table, n) in cols
  }

  /** The keys that come with a new table `t`. */
  function CreatedKeys(t: string, keys: TableKeys): map<ConKey, Con> {
    (if keys.primary == [] then map[] else map[ConKey(PrimaryCon, t, "") := OnColumns(keys.primary)]) +
    (map k | k in ConKeysOf(InlineCon, t, keys.inline) :: OnColumns([k.name])) +
    (map k | k in ConKeysOf(UniqueCon, t, keys.uniques.Keys) :: OnColumns(keys.uniques[k.name]))
  }

  function ConKeysOf(kind: ConKind, t: string, names: set<string>): set<ConKey> {
    set n | n in names :: ConKey(kind, t, n)
  }

  /** Another table's foreign key refers to `t`. */
  predicate RefersTo(k: ConKey, con: Con, t: string) {
    k.table != t && con.References? && con.fk.targetTable == t
  }

  /** An index and a unique of one table cannot have the same name. */
  predicate Taken(k: ConKey, cons: map<ConKey, Con>) {
    || k in cons
    || (k.kind.IndexCon? && k.(kind := UniqueCon) in cons)
    || (k.kind.UniqueCon? && k.(kind := IndexCon) in cons)
  }

  /** MySQL knows no SET DEFAULT, and sets no column to NULL that does not allow it. */
  predicate Acceptable(d: Dialect, t: string, fk: FkDef, cols: map<Key, Column>)
    requires HasColumns(cols, t, fk.ownerCols)
  {
    d.Mysql? ==>
      && !fk.onDelete.SetDefault? && !fk.onUpdate.SetDefault?
      && (SetsNull(fk) ==> forall x :: x in fk.ownerCols ==> !cols[Key(t, x)].def.notNull)
  }

  function ConStep(w: World, s: Stmt, cat: Catalog): Option<Catalog> {
    match s
    case CreateTable(t, _, keys) => Some(cat.(cons := cat.cons + CreatedKeys(t, keys)))
    case DropTable(t, cascade) =>
      if cat.checks && !cascade && exists k :: k in cat.cons && RefersTo(k, cat.cons[k], t) then None else
      Some(cat.(cons := map k | k in cat.cons && k.table != t && !(cascade && RefersTo(k, cat.cons[k], t)) :: cat.cons[k]))
    case AddCon(k, cols) =>
      if k.table !in cat.rows || Taken(k, cat.cons) || !HasColumns(cat.cols, k.table, cols) then None else
      Some(cat.(cons := cat.cons[k := OnColumns(cols)]))
    case AddFk(k, fk) =>
      if k.table !in cat.rows || k in cat.cons || fk.targetTable !in cat.rows then None else
      if !HasColumns(cat.cols, k.table, fk.ownerCols) || !HasColumns(cat.cols, fk.targetTable, fk.targetCols) then None else
      if !Served(w.server, Need(fk.targetTable, fk.targetCols), cat.cons) then None else
      if !Acceptable(w.server, k.table, fk, cat.cols) then None else
      Some(cat.(cons := cat.cons[k := References(fk)]))
    case DropCon(k, ifExists) =>
      if k !in cat.cons && !ifExists then None else
      if cat.checks && Held(w, cat.cons, {k}) then None else
      Some(cat.(cons := cat.cons - {k}))
    case DeferChecks(on) => Some(if w.server.Mysql? then cat.(checks := !on) else cat)
    case _ =>
      (match ColumnCons(w.server, s, cat.cons)
       case None => None
       case Some(cons) => Some(cat.(cons := cons)))
  }

  // ---- Running statements ---------------------------------------------------------------------------

  function Step(w: World, s: Stmt, cat: Catalog): Option<Catalog> {
    var data, cons := DataStep(w, s, cat), ConStep(w, s, cat);
    if data.None? || cons.None? then None
    else Some(cons.value.(rows := data.value.rows, cols := data.value.cols))
  }

  /** Runs statements in order; one rejected statement stops the run. */
  function Exec(w: World, stmts: seq<Stmt>, cat: Catalog): Option<Catalog> {
    if stmts == [] then Some(cat) else
    match Step(w, stmts[0], cat)
    case None => None
    case Some(after) => Exec(w, stmts[1..], after)
  }

  /** The data half of a run. */
  function DataExec(w: World, stmts: seq<Stmt>, cat: Catalog): Option<Catalog> {
    if stmts == [] then Some(cat) else
    match DataStep(w, stmts[0], cat)
    case None => None
    case Some(after) => DataExec(w, stmts[1..], after)
  }

  lemma {:induction false} ExecConcat(w: World, a: seq<Stmt>, b: seq<Stmt>, cat: Catalog)
    ensures Exec(w, a + b, cat) == match Exec(w, a, cat) case None => None case Some(mid) => Exec(w, b, mid)
  {
    if a == [] {
      assert a + b == b;
    } else {
      assert (a + b)[1..] == a[1..] + b;
      var mid := Step(w, a[0], cat);
      if mid.Some? {
        ExecConcat(w, a[1..], b, mid.value);
      }
    }
  }

  lemma {:induction false} DataConcat(w: World, a: seq<Stmt>, b: seq<Stmt>, cat: Catalog)
    ensures DataExec(w, a + b, cat) == match DataExec(w, a, cat) case None => None case Some(mid) => DataExec(w, b, mid)
  {
    if a == [] {
      assert a + b == b;
    } else {
      assert (a + b)[1..] == a[1..] + b;
      var mid := DataStep(w, a[0], cat);
      if mid.Some? {
        DataConcat(w, a[1..], b, mid.value);
      }
    }
  }

  lemma ExecOne(w: World, s: Stmt, cat: Catalog)
    ensures Exec(w, [s], cat) == Step(w, s, cat)
  {}

  lemma DataOne(w: World, s: Stmt, cat: Catalog)
    ensures DataExec(w, [s], cat) == DataStep(w, s, cat)
  {
    assert [s][1..] == [];
  }
}
