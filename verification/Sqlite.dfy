/**
 Adding columns on SQLite, which cannot alter a column: a required column without a default
 is added nullable, filled, and then the whole table is rebuilt (`columns_to_add` of
 `crates/migrate/src/plan.rs`, `rebuild_table` of `crates/dialect/src/sqlite.rs`).
 */
module Sqlite {
  import opened Names
  import opened Ir
  import opened Catalogue
  import opened Diff
  import opened Plan
  import opened Effects
  import opened Trace

  // ---- One table on disk ---------------------------------------------------------------------

  /** `uniques` are the columns with a `UNIQUE` of their own. */
  datatype Table = Table(rows: nat, cols: map<string, Column>, uniques: set<string>)

  /** An index of the table: its name, its columns, and whether it is `UNIQUE`. */
  datatype LiteIndex = LiteIndex(name: string, over: seq<string>, unique: bool)

  /** A table, the copy that is being built beside it, and its indexes. */
  datatype Disk = Disk(table: Option<Table>, copy: Option<Table>, indexes: set<LiteIndex>)

  predicate IndexNamed(indexes: set<LiteIndex>, name: string) {
    exists i :: i in indexes && i.name == name
  }

  /** What the server and the author contribute: see `World`; a default is constant or computed. */
  datatype Lite = Lite(world: World, isConstant: SqlDefault -> bool)

  datatype LiteStmt =
    | Add(column: string, definition: ColumnDef, unique: bool, primary: bool)
    | Fill(filled: string)
    | Build(columns: map<string, ColumnDef>, inline: set<string>, keys: set<seq<string>>, mentioned: set<string>)
    | Copy(into: seq<string>, from: seq<string>)
    | DropOld
    | RenameCopy
    | Index(name: string, over: seq<string>, uniqueIndex: bool)
    | Pragma

  /** A new column must be empty-proof, and its default constant, unless the table is empty. */
  predicate Rejects(l: Lite, def: ColumnDef, rows: nat) {
    rows > 0 && ((def.notNull && def.default.None?) || (def.default.Some? && !l.isConstant(def.default.value)))
  }

  /** The cells that the copied column `x` gets. */
  function CopiedCells(l: Lite, was: Table, def: ColumnDef, x: string, into: seq<string>, from: seq<string>): seq<Cell>
    requires |into| == |from| && forall c :: c in from ==> c in was.cols
  {
    if into == [] then NewCells(l.world, Key("", x), def, was.rows)
    else if into[0] == x then (assert from[0] in from; was.cols[from[0]].cells)
    else CopiedCells(l, was, def, x, into[1..], from[1..])
  }

  predicate CanCopy(was: Table, made: Table, into: seq<string>, from: seq<string>) {
    |into| == |from| && (forall c :: c in from ==> c in was.cols) && forall c :: c in into ==> c in made.cols
  }

  function Copied(l: Lite, was: Table, made: Table, into: seq<string>, from: seq<string>): Table
    requires CanCopy(was, made, into, from)
  {
    Table(was.rows, map x | x in made.cols ::
            Column(made.cols[x].def, CopiedCells(l, was, made.cols[x].def, x, into, from)), made.uniques)
  }

  /** A table has one primary key at most. */
  predicate TwoKeys(keys: set<seq<string>>) {
    exists a, b :: a in keys && b in keys && a != b
  }

  predicate Buildable(columns: map<string, ColumnDef>, keys: set<seq<string>>, mentioned: set<string>) {
    !TwoKeys(keys) && mentioned <= columns.Keys
  }

  predicate NullsOk(t: Table) {
    forall x :: x in t.cols ==> !Blocks(t.cols[x].def.notNull, t.cols[x].cells)
  }

  function LiteStep(l: Lite, s: LiteStmt, d: Disk): Option<Disk> {
    match s
    case Add(x, def, unique, primary) =>
      // `ADD COLUMN … UNIQUE` and `… PRIMARY KEY` are errors whatever the table holds.
      if d.table.None? || x in d.table.value.cols || unique || primary || Rejects(l, def, d.table.value.rows) then None else
      var t := d.table.value;
      Some(d.(table := Some(t.(cols := t.cols[x := Column(def, NewCells(l.world, Key("", x), def, t.rows))]))))
    case Fill(x) =>
      if d.table.None? || x !in d.table.value.cols then None else
      var t := d.table.value;
      Some(d.(table := Some(t.(cols := t.cols[x := t.cols[x].(cells := FillCells(l.world, Key("", x), t.cols[x].cells))]))))
    case Build(columns, inline, keys, mentioned) =>
      if d.copy.Some? || !Buildable(columns, keys, mentioned) then None else
      Some(d.(copy := Some(Empty(columns, inline))))
    case Copy(into, from) =>
      if d.table.None? || d.copy.None? || !CanCopy(d.table.value, d.copy.value, into, from) then None else
      var made := Copied(l, d.table.value, d.copy.value, into, from);
      if NullsOk(made) then Some(d.(copy := Some(made))) else None
    case DropOld => if d.table.None? then None else Some(d.(table := None, indexes := {}))
    case RenameCopy => if d.copy.None? || d.table.Some? then None else Some(d.(table := d.copy, copy := None))
    case Index(n, over, unique) =>
      if IndexNamed(d.indexes, n) || d.table.None? || !(forall x :: x in over ==> x in d.table.value.cols) then None
      else Some(d.(indexes := d.indexes + {LiteIndex(n, over, unique)}))
    case Pragma => Some(d)
  }

  function LiteExec(l: Lite, stmts: seq<LiteStmt>, d: Disk): Option<Disk> {
    if stmts == [] then Some(d)
    else
      match LiteStep(l, stmts[0], d)
      case None => None
      case Some(after) => LiteExec(l, stmts[1..], after)
  }

  lemma {:induction false} LiteConcat(l: Lite, a: seq<LiteStmt>, b: seq<LiteStmt>, d: Disk)
    ensures LiteExec(l, a + b, d) ==
            match LiteExec(l, a, d) case None => None case Some(mid) => LiteExec(l, b, mid)
  {
    if a == [] {
      assert a + b == b;
    } else {
      assert (a + b)[1..] == a[1..] + b;
      var mid := LiteStep(l, a[0], d);
      if mid.Some? {
        LiteConcat(l, a[1..], b, mid.value);
      }
    }
  }

  // ---- The statements ----------------------------------------------------------------------------

  function Without<K(==,!new), V>(m: IndexMap<K, V>, k: K): IndexMap<K, V> {
    IndexMap(Dropping(m.keys, k), m.entries - {k})
  }

  function Dropping<K(==)>(keys: seq<K>, k: K): seq<K> {
    if keys == [] then [] else (if keys[0] == k then [] else [keys[0]]) + Dropping(keys[1..], k)
  }

  function WithField(m: Model, f: Field): Model {
    m.(fields := Put(m.fields, f.name, f))
  }

  function Replaced(m: Model, f: Field): Model {
    m.(fields := Put(Without(m.fields, f.name), f.name, f))
  }

  /**
   The columns that the constraints inside `CREATE TABLE` mention: a composite primary key,
   uniques and foreign keys of the target.
   */
  function Mentioned(next: Schema, target: Model, made: Model): set<string> {
    (if |target.primary| > 1 then set x | x in TargetColumns(made, target.primary) :: x else {}) +
    (set u, x | u in target.uniques && x in TargetColumns(made, u.targets) :: x) +
    (set r, x | r in next.relations && r.owner == made.name && !r.kind.ManyToMany? && x in r.ownerCols :: x)
  }

  /** The primary keys inside `CREATE TABLE`: one with each `@id` field of the table, and a composite one of the target. */
  function KeysMade(target: Model, made: Model): set<seq<string>> {
    (set n | n in made.fields.entries && made.OwnsColumn(n) && made.fields.Get(n).isId :: [made.Column(n)]) +
    (if |target.primary| > 1 then {TargetColumns(made, target.primary)} else {})
  }

  function ColumnNames(m: Model, names: seq<FieldName>): seq<string> {
    if names == [] then []
    else (if m.OwnsColumn(names[0]) then [m.Column(names[0])] else []) + ColumnNames(m, names[1..])
  }

  /** The definitions of the target that the rebuilt table can have. */
  function Recreated(made: Model, defs: seq<IndexDef>, unique: bool): seq<LiteStmt> {
    if defs == [] then []
    else (if forall f :: f in defs[0].targets ==> made.fields.Has(f)
          then [Index(defs[0].dbName, TargetColumns(made, defs[0].targets), unique)] else []) +
         Recreated(made, defs[1..], unique)
  }

  function SourceNames(made: Model, source: Model, from: Field, to: Field, names: seq<FieldName>): seq<string>
    requires forall n :: n in names && made.OwnsColumn(n) && n != to.name ==> source.fields.Has(n)
  {
    if names == [] then []
    else
      (if !made.OwnsColumn(names[0]) then [] else if names[0] == to.name then [from.column] else [source.Column(names[0])]) +
      SourceNames(made, source, from, to, names[1..])
  }

  /** `rebuild_table`: the source with `from` replaced by `to`, built beside the table and renamed over it. */
  function Rebuild(next: Schema, target: Model, source: Model, from: Field, to: Field): seq<LiteStmt>
    requires source.Valid() && from.name == to.name && Replaced(source, to).Valid()
  {
    var made := Replaced(source, to);
    [Pragma, Build(TableColumns(Dialect.Sqlite, made), InlineUniques(made), KeysMade(target, made), Mentioned(next, target, made)),
     Copy(ColumnNames(made, made.fields.keys), SourceNames(made, source, from, to, made.fields.keys)),
     DropOld, RenameCopy] +
    (Recreated(made, target.indexes, false) + Recreated(made, target.uniques, true) + [Pragma, Pragma])
  }

  /** The field and its column are new. */
  ghost predicate Fresh(source: Model, f: Field) {
    && !source.fields.Has(f.name) && f.HasColumn()
    && forall n :: source.OwnsColumn(n) ==> source.Column(n) != f.column
  }

  lemma {:induction false} DroppingMembers<K>(keys: seq<K>, k: K)
    ensures forall x :: x in Dropping(keys, k) <==> x in keys && x != k
    ensures NoDup(keys) ==> NoDup(Dropping(keys, k))
  {
    if keys != [] {
      DroppingMembers(keys[1..], k);
      if NoDup(keys) {
        assert keys[0] !in keys[1..];
        AppendNoDup(if keys[0] == k then [] else [keys[0]], Dropping(keys[1..], k));
      }
    }
  }

  /** `b` is `a` with `f` put in, wherever its key ended up. */
  ghost predicate PutIn(a: Model, b: Model, f: Field) {
    && b == a.(fields := b.fields) && b.fields.entries == a.fields.entries[f.name := f]
    && NoDup(b.fields.keys) && forall n :: n in b.fields.keys <==> n in a.fields.keys || n == f.name
  }

  lemma PutInEither(m: Model, f: Field)
    requires m.Valid()
    ensures PutIn(m, WithField(m, f), f) && PutIn(m, Replaced(m, f), f)
  {
    DroppingMembers(m.fields.keys, f.name);
    assert NoDup(m.fields.keys);
    assert (m.fields.entries - {f.name})[f.name := f] == m.fields.entries[f.name := f];
  }

  /** Putting a field in keeps a model valid, if the field's column is not taken by another field. */
  lemma PutInValid(a: Model, b: Model, f: Field)
    requires a.Valid() && PutIn(a, b, f)
    requires forall n :: a.OwnsColumn(n) && n != f.name ==> a.Column(n) != f.column
    ensures b.Valid()
    ensures forall n :: n != f.name ==> (b.OwnsColumn(n) <==> a.OwnsColumn(n)) && (a.OwnsColumn(n) ==> b.Column(n) == a.Column(n))
  {
    forall n | n != f.name
      ensures (b.OwnsColumn(n) <==> a.OwnsColumn(n)) && (a.OwnsColumn(n) ==> b.Column(n) == a.Column(n))
    {
      assert n in b.fields.entries <==> n in a.fields.entries;
    }
    forall n | n in b.fields.entries ensures b.fields.entries[n].name == n {}
    forall n ensures n in b.fields.keys <==> n in b.fields.entries {
      assert n in a.fields.keys <==> n in a.fields.entries;
    }
    forall n, k | b.OwnsColumn(n) && b.OwnsColumn(k) && b.Column(n) == b.Column(k) ensures n == k {}
  }

  lemma ReplacedValid(m: Model, f: Field)
    requires m.Valid() && forall n :: m.OwnsColumn(n) && n != f.name ==> m.Column(n) != f.column
    ensures Replaced(m, f).Valid() && WithField(m, f).Valid()
    ensures PutIn(m, WithField(m, f), f) && PutIn(m, Replaced(m, f), f)
    ensures forall n :: n != f.name ==>
              (Replaced(m, f).OwnsColumn(n) <==> m.OwnsColumn(n)) && (m.OwnsColumn(n) ==> Replaced(m, f).Column(n) == m.Column(n))
  {
    PutInEither(m, f);
    PutInValid(m, WithField(m, f), f);
    PutInValid(m, Replaced(m, f), f);
  }

  /** `add_column_with_backfill` on SQLite. */
  function AddLite(next: Schema, target: Model, source: Model, f: Field): seq<LiteStmt>
    requires source.Valid() && Fresh(source, f)
  {
    if NeedsBackfill(f) then
      var nullable := f.(optional := true);
      ReplacedValid(source, nullable);
      ReplacedValid(Replaced(source, nullable), f);
      [Add(f.column, DefOf(Dialect.Sqlite, nullable), f.isUnique, f.isId), Fill(f.column)] +
      Rebuild(next, target, Replaced(source, nullable), nullable, f)
    else
      [Add(f.column, DefOf(Dialect.Sqlite, f), f.isUnique, f.isId)]
  }

  // ---- One add ------------------------------------------------------------------------------------

  /** The table on disk is exactly what the model describes. */
  ghost predicate Physical(m: Model, d: Disk) {
    && d.table.Some? && d.copy.None? && d.table.value.uniques == InlineUniques(m)
    && (forall n :: m.OwnsColumn(n) ==>
          m.Column(n) in d.table.value.cols &&
          Fits(Dialect.Sqlite, m.fields.Get(n), d.table.value.rows, d.table.value.cols[m.Column(n)]))
    && (forall x {:trigger HasColumnNamed(m, x)} :: x in d.table.value.cols ==> HasColumnNamed(m, x))
  }

  /** The column that `next` means by a field is there: that of the field or, while there is no field, one of its name. */
  ghost predicate Reaches(now: Model, f: FieldName) {
    HasColumnNamed(now, if now.fields.Has(f) then now.Column(f) else f.text)
  }

  /** The columns of the model's foreign keys, of its uniques and of a key of several fields are there by now. */
  ghost predicate AllReached(next: Schema, target: Model, now: Model) {
    && (forall r, x :: r in next.relations && r.owner == now.name && !r.kind.ManyToMany? && x in r.ownerCols ==>
          HasColumnNamed(now, x))
    && (forall u, f :: u in target.uniques && f in u.targets ==> Reaches(now, f))
    && (|target.primary| > 1 ==> forall f :: f in target.primary ==> Reaches(now, f))
  }

  /** The table has one `@id` field at most, and none beside a key of several fields. */
  predicate OneKeyLeft(target: Model, now: Model) {
    forall n :: n in now.fields.entries && now.OwnsColumn(n) && now.fields.Get(n).isId ==>
      |target.primary| <= 1 && forall k :: k in now.fields.entries && now.OwnsColumn(k) && now.fields.Get(k).isId ==> k == n
  }

  /** What lets one add go through. */
  ghost predicate AddOk(l: Lite, next: Schema, target: Model, source: Model, f: Field, rows: nat) {
    !f.isUnique && !f.isId &&
    if NeedsBackfill(f) then
      OneKeyLeft(target, WithField(source, f)) && AllReached(next, target, WithField(source, f))
    else
      !Rejects(l, DefOf(Dialect.Sqlite, f), rows)
  }

  /** The old columns are untouched, and the new one holds its default or its backfill. */
  ghost predicate AddDone(l: Lite, source: Model, f: Field, before: Disk, after: Disk)
    requires before.table.Some?
  {
    && Physical(WithField(source, f), after)
    && after.table.value.rows == before.table.value.rows
    && (forall x :: x in before.table.value.cols ==>
          x in after.table.value.cols && after.table.value.cols[x] == before.table.value.cols[x])
    && f.column in after.table.value.cols
    && after.table.value.cols[f.column].cells ==
       AddedCells(l.world, Dialect.Sqlite, Key("", f.column), f, before.table.value.rows)
  }

  lemma LiteOne(l: Lite, s: LiteStmt, d: Disk)
    ensures LiteExec(l, [s], d) == LiteStep(l, s, d)
  {}

  /** A table with one column more. */
  lemma PhysicalAdds(m: Model, f: Field, d: Disk, c: Column, indexes: set<LiteIndex>)
    requires m.Valid() && Physical(m, d) && Fresh(m, f) && !f.isUnique && Fits(Dialect.Sqlite, f, d.table.value.rows, c)
    ensures var t := d.table.value;
            Physical(WithField(m, f), Disk(Some(t.(cols := t.cols[f.column := c])), None, indexes))
  {
    var t := d.table.value;
    var after := WithField(m, f);
    forall x | x in t.cols[f.column := c] ensures HasColumnNamed(after, x) {
      if x == f.column {
        assert after.OwnsColumn(f.name) && after.Column(f.name) == x;
      } else {
        assert HasColumnNamed(m, x);
        var n :| m.OwnsColumn(n) && m.Column(n) == x;
        assert after.OwnsColumn(n) && after.Column(n) == x;
      }
    }
    forall n | after.OwnsColumn(n)
      ensures after.Column(n) in t.cols[f.column := c]
      ensures Fits(Dialect.Sqlite, after.fields.Get(n), t.rows, t.cols[f.column := c][after.Column(n)])
    {
      if n != f.name {
        assert m.OwnsColumn(n);
      }
    }
    SameUniques(m, after, f);
  }

  /** A field that is not unique adds none to the uniques of the table. */
  lemma SameUniques(m: Model, after: Model, f: Field)
    requires m.Valid() && Fresh(m, f) && !f.isUnique && after.fields.entries == m.fields.entries[f.name := f]
    ensures InlineUniques(after) == InlineUniques(m)
  {
    forall x | x in InlineUniques(m) ensures x in InlineUniques(after) {
      var n :| n in m.fields.entries && m.OwnsColumn(n) && m.fields.Get(n).isUnique && m.Column(n) == x;
      assert n in after.fields.entries && after.OwnsColumn(n) && after.Column(n) == x;
    }
    forall x | x in InlineUniques(after) ensures x in InlineUniques(m) {
      var n :| n in after.fields.entries && after.OwnsColumn(n) && after.fields.Get(n).isUnique && after.Column(n) == x;
      assert n != f.name && n in m.fields.entries && m.OwnsColumn(n) && m.Column(n) == x;
    }
  }

  lemma FreshColumn(m: Model, f: Field, d: Disk)
    requires Physical(m, d) && Fresh(m, f)
    ensures f.column !in d.table.value.cols
  {
    assert f.column in d.table.value.cols ==> HasColumnNamed(m, f.column);
  }

  lemma PlainAdd(l: Lite, next: Schema, target: Model, source: Model, f: Field, d: Disk)
    requires source.Valid() && Physical(source, d) && Fresh(source, f) && !NeedsBackfill(f)
    ensures LiteExec(l, AddLite(next, target, source, f), d).Some? <==> AddOk(l, next, target, source, f, d.table.value.rows)
    ensures AddOk(l, next, target, source, f, d.table.value.rows) ==>
              AddDone(l, source, f, d, LiteExec(l, AddLite(next, target, source, f), d).value) &&
              LiteExec(l, AddLite(next, target, source, f), d).value.indexes == d.indexes
  {
    var def := DefOf(Dialect.Sqlite, f);
    LiteOne(l, Add(f.column, def, f.isUnique, f.isId), d);
    var t := d.table.value;
    FreshColumn(source, f, d);
    if !f.isUnique && !f.isId && !Rejects(l, def, t.rows) {
      PhysicalAdds(source, f, d, Column(def, NewCells(l.world, Key("", f.column), def, t.rows)), d.indexes);
    }
  }

  // ---- The rebuild -----------------------------------------------------------------------------------

  /** Models with the same fields describe the same table. */
  lemma SamePhysical(a: Model, b: Model, d: Disk)
    requires a.fields.entries == b.fields.entries && Physical(a, d)
    ensures Physical(b, d)
  {
    SameColumnNames(a, b);
    assert InlineUniques(a) == InlineUniques(b);
    forall x | x in d.table.value.cols ensures HasColumnNamed(b, x) {
      assert HasColumnNamed(a, x);
    }
    forall n | b.OwnsColumn(n)
      ensures b.Column(n) in d.table.value.cols
      ensures Fits(Dialect.Sqlite, b.fields.Get(n), d.table.value.rows, d.table.value.cols[b.Column(n)])
    {
      assert a.OwnsColumn(n);
    }
  }

  /** All columns of these fields are there. */
  lemma TargetsReached(now: Model, targets: seq<FieldName>)
    ensures (forall x :: x in TargetColumns(now, targets) ==> HasColumnNamed(now, x)) <==>
              forall f :: f in targets ==> Reaches(now, f)
  {
    var cols := TargetColumns(now, targets);
    if forall x :: x in cols ==> HasColumnNamed(now, x) {
      forall f | f in targets ensures Reaches(now, f) {
        var i :| 0 <= i < |targets| && targets[i] == f;
        assert cols[i] in cols;
      }
    }
    forall x | x in cols ensures exists f :: f in targets && x == (if now.fields.Has(f) then now.Column(f) else f.text) {
      var i :| 0 <= i < |cols| && cols[i] == x;
      assert targets[i] in targets;
    }
  }

  lemma MentionedByKey(next: Schema, target: Model, now: Model)
    ensures |target.primary| > 1 ==> forall x :: x in TargetColumns(now, target.primary) ==> x in Mentioned(next, target, now)
  {}

  lemma MentionedByUnique(next: Schema, target: Model, now: Model, u: IndexDef, x: string)
    requires u in target.uniques && x in TargetColumns(now, u.targets)
    ensures x in Mentioned(next, target, now)
  {}

  lemma MentionedByFk(next: Schema, target: Model, now: Model, r: ResolvedRelation, x: string)
    requires r in next.relations && r.owner == now.name && !r.kind.ManyToMany? && x in r.ownerCols
    ensures x in Mentioned(next, target, now)
  {}

  /** What `CREATE TABLE` mentions is there. */
  lemma MentionedThere(next: Schema, target: Model, now: Model)
    ensures (forall x :: x in Mentioned(next, target, now) ==> HasColumnNamed(now, x)) <==> AllReached(next, target, now)
  {
    TargetsReached(now, target.primary);
    forall u | u in target.uniques {
      TargetsReached(now, u.targets);
    }
    if forall x :: x in Mentioned(next, target, now) ==> HasColumnNamed(now, x) {
      MentionedByKey(next, target, now);
      forall u, f | u in target.uniques && f in u.targets ensures Reaches(now, f) {
        forall x | x in TargetColumns(now, u.targets) ensures HasColumnNamed(now, x) {
          MentionedByUnique(next, target, now, u, x);
        }
      }
      forall r, x | r in next.relations && r.owner == now.name && !r.kind.ManyToMany? && x in r.ownerCols
        ensures HasColumnNamed(now, x)
      {
        MentionedByFk(next, target, now, r, x);
      }
    }
  }

  /** Two primary keys are those of two fields, or of one field and of several. */
  lemma KeyLeft(target: Model, now: Model)
    requires now.Valid()
    ensures !TwoKeys(KeysMade(target, now)) <==> OneKeyLeft(target, now)
  {
    var keys := KeysMade(target, now);
    forall n | n in now.fields.entries && now.OwnsColumn(n) && now.fields.Get(n).isId ensures [now.Column(n)] in keys {}
    if !TwoKeys(keys) {
      forall n, k | n in now.fields.entries && now.OwnsColumn(n) && now.fields.Get(n).isId &&
                    k in now.fields.entries && now.OwnsColumn(k) && now.fields.Get(k).isId
        ensures n == k
      {
        assert [now.Column(n)] == [now.Column(k)];
        assert [now.Column(n)][0] == [now.Column(k)][0];
      }
      var whole := TargetColumns(now, target.primary);
      forall n | n in now.fields.entries && now.OwnsColumn(n) && now.fields.Get(n).isId ensures |target.primary| <= 1 {
        assert |whole| != |[now.Column(n)]| ==> whole != [now.Column(n)];
      }
    }
  }

  /** Models with the same fields lack the same columns. */
  lemma SameThere(next: Schema, target: Model, a: Model, b: Model)
    requires a.fields.entries == b.fields.entries && a.name == b.name
    ensures AllReached(next, target, a) == AllReached(next, target, b) && OneKeyLeft(target, a) == OneKeyLeft(target, b)
  {
    SameColumnNames(a, b);
    SameColumnNames(b, a);
    forall f ensures Reaches(a, f) == Reaches(b, f) {}
    forall n ensures a.OwnsColumn(n) == b.OwnsColumn(n) {}
  }

  lemma SameColumnNames(a: Model, b: Model)
    requires a.fields.entries == b.fields.entries
    ensures forall x :: HasColumnNamed(a, x) ==> HasColumnNamed(b, x)
  {
    forall x | HasColumnNamed(a, x) ensures HasColumnNamed(b, x) {
      var n :| a.OwnsColumn(n) && a.Column(n) == x;
      assert b.OwnsColumn(n) && b.Column(n) == x;
    }
  }

  lemma {:induction false} NamesAgree(made: Model, source: Model, from: Field, to: Field, names: seq<FieldName>)
    requires forall n :: n in names && made.OwnsColumn(n) && n != to.name ==> source.fields.Has(n) && source.Column(n) == made.Column(n)
    requires made.OwnsColumn(to.name) && made.Column(to.name) == from.column
    ensures SourceNames(made, source, from, to, names) == ColumnNames(made, names)
  {
    if names != [] {
      NamesAgree(made, source, from, to, names[1..]);
    }
  }

  lemma {:induction false} ColumnNamesMembers(m: Model, names: seq<FieldName>)
    ensures forall x :: x in ColumnNames(m, names) <==> exists n :: n in names && m.OwnsColumn(n) && m.Column(n) == x
  {
    if names != [] {
      ColumnNamesMembers(m, names[1..]);
      assert names == [names[0]] + names[1..];
    }
  }

  lemma AllColumnNames(m: Model)
    requires m.Valid()
    ensures forall x :: x in ColumnNames(m, m.fields.keys) <==> HasColumnNamed(m, x)
  {
    ColumnNamesMembers(m, m.fields.keys);
    forall x | HasColumnNamed(m, x) ensures x in ColumnNames(m, m.fields.keys) {
      var n :| m.OwnsColumn(n) && m.Column(n) == x;
      assert n in m.fields.keys;
    }
  }

  /** Copying a column onto its own name keeps its cells. */
  lemma {:induction false} CopiedSame(l: Lite, was: Table, def: ColumnDef, x: string, names: seq<string>)
    requires (forall c :: c in names ==> c in was.cols) && x in names
    ensures CopiedCells(l, was, def, x, names, names) == was.cols[x].cells
  {
    if names[0] != x {
      CopiedSame(l, was, def, x, names[1..]);
    }
  }

  /** The definitions that only name fields the table has. */
  function Possible(made: Model, defs: seq<IndexDef>, unique: bool): set<LiteIndex> {
    set e | e in defs && (forall f :: f in e.targets ==> made.fields.Has(f)) ::
      LiteIndex(e.dbName, TargetColumns(made, e.targets), unique)
  }

  /** The indexes and uniques of the target that the rebuilt table can have. */
  function AllPossible(target: Model, made: Model): set<LiteIndex> {
    Possible(made, target.indexes, false) + Possible(made, target.uniques, true)
  }

  /** The targets that the table has are columns. */
  ghost predicate Indexable(m: Model, defs: seq<IndexDef>) {
    forall e, f :: e in defs && f in e.targets && m.fields.Has(f) ==> m.OwnsColumn(f)
  }

  function IndexOf(made: Model, e: IndexDef, unique: bool): LiteIndex {
    LiteIndex(e.dbName, TargetColumns(made, e.targets), unique)
  }

  lemma IndexRuns(l: Lite, made: Model, e: IndexDef, unique: bool, d: Disk)
    requires Physical(made, d) && !IndexNamed(d.indexes, e.dbName) && forall f :: f in e.targets ==> made.OwnsColumn(f)
    ensures LiteStep(l, Index(e.dbName, TargetColumns(made, e.targets), unique), d) ==
            Some(d.(indexes := d.indexes + {IndexOf(made, e, unique)}))
  {
    var over := TargetColumns(made, e.targets);
    forall x | x in over ensures x in d.table.value.cols {
      var i :| 0 <= i < |over| && over[i] == x;
      assert e.targets[i] in e.targets;
    }
  }

  function PossibleOne(made: Model, e: IndexDef, unique: bool): set<LiteIndex> {
    if forall f :: f in e.targets ==> made.fields.Has(f) then {IndexOf(made, e, unique)} else {}
  }

  lemma PossibleStep(made: Model, e: IndexDef, rest: seq<IndexDef>, unique: bool)
    ensures Possible(made, [e] + rest, unique) ==
            PossibleOne(made, e, unique) + Possible(made, rest, unique)
  {
    forall d ensures d in [e] + rest <==> d == e || d in rest {}
  }

  lemma {:induction false} RunRecreated(l: Lite, made: Model, defs: seq<IndexDef>, unique: bool, d: Disk) returns (after: Disk)
    requires Physical(made, d) && Indexable(made, defs) && DistinctNames(defs)
    requires forall e :: e in defs ==> !IndexNamed(d.indexes, e.dbName)
    ensures LiteExec(l, Recreated(made, defs, unique), d) == Some(after)
    ensures after == d.(indexes := d.indexes + Possible(made, defs, unique))
  {
    after := d;
    if defs != [] {
      var e := defs[0];
      assert e in defs && defs == [e] + defs[1..];
      var mid := RunOneRecreated(l, made, e, unique, d, Recreated(made, defs[1..], unique));
      StillFree(made, defs, unique, d.indexes);
      after := RunRecreated(l, made, defs[1..], unique, mid);
      PossibleStep(made, e, defs[1..], unique);
      InSteps(d.indexes, PossibleOne(made, e, unique), Possible(made, defs[1..], unique));
    } else {
      assert Possible(made, [], unique) == {} && d.indexes + {} == d.indexes;
    }
  }

  lemma InSteps<T>(a: set<T>, b: set<T>, c: set<T>)
    ensures (a + b) + c == a + (b + c)
  {}

  /** The names of the other definitions are free after the first. */
  lemma StillFree(made: Model, defs: seq<IndexDef>, unique: bool, indexes: set<LiteIndex>)
    requires DistinctNames(defs) && defs != [] && forall e :: e in defs ==> !IndexNamed(indexes, e.dbName)
    ensures forall k :: k in defs[1..] ==> !IndexNamed(indexes + PossibleOne(made, defs[0], unique), k.dbName)
  {
    forall k | k in defs[1..] ensures !IndexNamed(indexes + PossibleOne(made, defs[0], unique), k.dbName) {
      assert k in defs;
      NamedApart(defs, k);
    }
  }

  lemma NamedApart(defs: seq<IndexDef>, k: IndexDef)
    requires DistinctNames(defs) && defs != [] && k in defs[1..]
    ensures k.dbName != defs[0].dbName
  {
    var i :| 0 <= i < |defs[1..]| && defs[1..][i] == k;
    assert defs[i + 1] == k;
  }

  /** The first index of several, if the table can have it. */
  lemma RunOneRecreated(l: Lite, made: Model, e: IndexDef, unique: bool, d: Disk, rest: seq<LiteStmt>) returns (after: Disk)
    requires Physical(made, d) && !IndexNamed(d.indexes, e.dbName)
    requires forall f :: f in e.targets && made.fields.Has(f) ==> made.OwnsColumn(f)
    ensures Physical(made, after)
    ensures after == d.(indexes := d.indexes + PossibleOne(made, e, unique))
    ensures LiteExec(l, (if forall f :: f in e.targets ==> made.fields.Has(f)
                         then [Index(e.dbName, TargetColumns(made, e.targets), unique)] else []) + rest, d) == LiteExec(l, rest, after)
  {
    after := d;
    if forall f :: f in e.targets ==> made.fields.Has(f) {
      var create := Index(e.dbName, TargetColumns(made, e.targets), unique);
      IndexRuns(l, made, e, unique, d);
      LiteOne(l, create, d);
      LiteConcat(l, [create], rest, d);
      after := d.(indexes := d.indexes + {IndexOf(made, e, unique)});
      SamePhysical(made, made, after);
    } else {
      assert [] + rest == rest;
    }
  }

  /** The table between the fill and the rebuild: with the new column, nullable but full. */
  ghost predicate Filled(l: Lite, source: Model, f: Field, before: Disk, d: Disk)
    requires before.table.Some?
  {
    && d.table.Some? && d.copy.None?
    && d.table.value == before.table.value.(
         cols := before.table.value.cols[f.column := Column(DefOf(Dialect.Sqlite, f.(optional := true)),
                   AddedCells(l.world, Dialect.Sqlite, Key("", f.column), f, before.table.value.rows))])
  }

  lemma RunFill(l: Lite, source: Model, f: Field, d: Disk) returns (mid: Disk)
    requires source.Valid() && Physical(source, d) && Fresh(source, f) && NeedsBackfill(f) && !f.isUnique && !f.isId
    ensures LiteExec(l, [Add(f.column, DefOf(Dialect.Sqlite, f.(optional := true)), false, false), Fill(f.column)], d) == Some(mid)
    ensures Filled(l, source, f, d, mid)
  {
    FreshColumn(source, f, d);
    var def := DefOf(Dialect.Sqlite, f.(optional := true));
    var t := d.table.value;
    var added := LiteStep(l, Add(f.column, def, false, false), d);
    mid := LiteStep(l, Fill(f.column), added.value).value;
    LiteConcat(l, [Add(f.column, def, false, false)], [Fill(f.column)], d);
    LiteOne(l, Add(f.column, def, false, false), d);
    LiteOne(l, Fill(f.column), added.value);
    var cells := added.value.table.value.cols[f.column].cells;
    assert FillCells(l.world, Key("", f.column), cells) ==
           AddedCells(l.world, Dialect.Sqlite, Key("", f.column), f, t.rows);
    assert t.cols[f.column := Column(def, cells)][f.column := mid.table.value.cols[f.column]] ==
           t.cols[f.column := mid.table.value.cols[f.column]];
  }

  function Empty(columns: map<string, ColumnDef>, inline: set<string>): Table {
    Table(0, map x | x in columns :: Column(columns[x], []), inline)
  }

  /** Copying every column onto itself gives the new definitions over the old cells. */
  lemma CopyAll(l: Lite, was: Table, columns: map<string, ColumnDef>, inline: set<string>, names: seq<string>)
    requires (forall x :: x in names <==> x in columns) && forall x :: x in columns <==> x in was.cols
    ensures CanCopy(was, Empty(columns, inline), names, names)
    ensures Copied(l, was, Empty(columns, inline), names, names) ==
            Table(was.rows, map x | x in columns :: Column(columns[x], was.cols[x].cells), inline)
  {
    forall x | x in columns ensures CopiedCells(l, was, columns[x], x, names, names) == was.cols[x].cells {
      CopiedSame(l, was, columns[x], x, names);
    }
  }

  /** With one column redefined, only that column's definition changes. */
  lemma CopyInto(l: Lite, before: Table, c: string, filled: Column, columns: map<string, ColumnDef>, inline: set<string>,
                 names: seq<string>)
    requires c !in before.cols && (forall x :: x in columns <==> x == c || x in before.cols)
    requires forall x :: x in before.cols ==> columns[x] == before.cols[x].def
    requires forall x :: x in names <==> x in columns
    ensures var was := before.(cols := before.cols[c := filled]);
            && CanCopy(was, Empty(columns, inline), names, names)
            && Copied(l, was, Empty(columns, inline), names, names) ==
               Table(before.rows, before.cols[c := Column(columns[c], filled.cells)], inline)
  {
    var was := before.(cols := before.cols[c := filled]);
    CopyAll(l, was, columns, inline, names);
    var got := map x | x in columns :: Column(columns[x], was.cols[x].cells);
    assert got == before.cols[c := Column(columns[c], filled.cells)];
  }

  /** The columns of the rebuilt table, and their definitions. */
  lemma MadeColumns(source: Model, made: Model, f: Field, d: Disk)
    requires source.Valid() && made.Valid() && Physical(source, d) && Fresh(source, f)
    requires made.fields.entries == source.fields.entries[f.name := f]
    ensures forall x :: x in TableColumns(Dialect.Sqlite, made) <==> HasColumnNamed(made, x)
    ensures forall x :: HasColumnNamed(made, x) <==> x == f.column || x in d.table.value.cols
    ensures TableColumns(Dialect.Sqlite, made)[f.column] == DefOf(Dialect.Sqlite, f)
    ensures forall x :: x in d.table.value.cols ==> TableColumns(Dialect.Sqlite, made)[x] == d.table.value.cols[x].def
  {
    var columns := TableColumns(Dialect.Sqlite, made);
    assert made.OwnsColumn(f.name) && made.Column(f.name) == f.column;
    forall x | x in d.table.value.cols
      ensures HasColumnNamed(made, x) && x in columns && columns[x] == d.table.value.cols[x].def
    {
      assert HasColumnNamed(source, x);
      var n :| source.OwnsColumn(n) && source.Column(n) == x;
      assert made.OwnsColumn(n) && made.Column(n) == x;
    }
    forall x | HasColumnNamed(made, x) ensures x == f.column || x in d.table.value.cols {
      var n :| made.OwnsColumn(n) && made.Column(n) == x;
      assert n == f.name || source.OwnsColumn(n);
    }
  }

  lemma LiteFive(l: Lite, a: LiteStmt, b: LiteStmt, c: LiteStmt, e: LiteStmt, d0: Disk, d1: Disk, d2: Disk, d3: Disk, d4: Disk)
    requires LiteStep(l, a, d0) == Some(d1) && LiteStep(l, b, d1) == Some(d2)
    requires LiteStep(l, c, d2) == Some(d3) && LiteStep(l, e, d3) == Some(d4)
    ensures LiteExec(l, [Pragma, a, b, c, e], d0) == Some(d4)
  {
    LiteOne(l, e, d3);
    assert [c, e][1..] == [e] && [b, c, e][1..] == [c, e] && [a, b, c, e][1..] == [b, c, e];
    assert [Pragma, a, b, c, e][1..] == [a, b, c, e];
    assert LiteExec(l, [c, e], d2) == Some(d4);
    assert LiteExec(l, [b, c, e], d1) == Some(d4);
    assert LiteExec(l, [a, b, c, e], d0) == Some(d4);
  }

  /** A rebuild whose constraints mention a column that is not there stops at `CREATE TABLE`. */
  lemma BuildStuck(l: Lite, columns: map<string, ColumnDef>, inline: set<string>, keys: set<seq<string>>, mentioned: set<string>,
                   rest: seq<LiteStmt>, d: Disk)
    requires !Buildable(columns, keys, mentioned)
    ensures LiteExec(l, [Pragma, Build(columns, inline, keys, mentioned)] + rest, d).None?
  {
    LiteConcat(l, [Pragma, Build(columns, inline, keys, mentioned)], rest, d);
    assert [Pragma, Build(columns, inline, keys, mentioned)][1..] == [Build(columns, inline, keys, mentioned)];
    LiteOne(l, Build(columns, inline, keys, mentioned), d);
  }

  function Nullable(f: Field): Field {
    f.(optional := true)
  }

  /** The model of the rebuilt table, as the program arrives at it. */
  function Made(source: Model, f: Field): Model {
    Replaced(Replaced(source, Nullable(f)), f)
  }

  lemma MadeEntries(source: Model, f: Field)
    requires source.Valid()
    ensures Replaced(source, Nullable(f)).fields.entries == source.fields.entries[f.name := Nullable(f)]
    ensures Made(source, f).fields.entries == source.fields.entries[f.name := f]
    ensures Made(source, f).name == source.name
  {
    TwicePut(source.fields.entries, f.name, Nullable(f), f);
  }

  lemma TwicePut<K, V>(m: map<K, V>, k: K, v: V, w: V)
    ensures (m - {k})[k := v] == m[k := v]
    ensures ((m - {k})[k := v] - {k})[k := w] == m[k := w]
  {}

  lemma MadeValid(source: Model, f: Field)
    requires source.Valid() && Fresh(source, f)
    ensures Replaced(source, Nullable(f)).Valid() && Made(source, f).Valid()
  {
    ReplacedValid(source, Nullable(f));
    ReplacedValid(Replaced(source, Nullable(f)), f);
  }

  lemma MadeNames(source: Model, from: Model, made: Model, f: Field)
    requires from.fields.entries == source.fields.entries[f.name := Nullable(f)]
    requires made.fields.entries == source.fields.entries[f.name := f] && f.HasColumn()
    ensures forall n :: n in made.fields.keys && made.OwnsColumn(n) && n != f.name ==> from.fields.Has(n)
    ensures SourceNames(made, from, Nullable(f), f, made.fields.keys) == ColumnNames(made, made.fields.keys)
  {
    NamesAgree(made, from, Nullable(f), f, made.fields.keys);
  }

  /** The uniques and indexes of the target can be told apart, and lie on columns wherever their fields exist. */
  ghost predicate IndexesOk(target: Model, made: Model) {
    Indexable(made, target.indexes) && Indexable(made, target.uniques) && DistinctNames(target.indexes + target.uniques)
  }

  lemma RunIndexes(l: Lite, target: Model, made: Model, d: Disk)
    requires Physical(made, d) && IndexesOk(target, made) && d.indexes == {}
    ensures LiteExec(l, Recreated(made, target.indexes, false) + Recreated(made, target.uniques, true) + [Pragma, Pragma], d) ==
            Some(d.(indexes := AllPossible(target, made)))
  {
    var all := target.indexes + target.uniques;
    var first, second := Recreated(made, target.indexes, false), Recreated(made, target.uniques, true);
    assert DistinctNames(target.indexes) by {
      forall i, j | 0 <= i < j < |target.indexes| ensures target.indexes[i].dbName != target.indexes[j].dbName {
        assert all[i] == target.indexes[i] && all[j] == target.indexes[j];
      }
    }
    assert DistinctNames(target.uniques) by {
      forall i, j | 0 <= i < j < |target.uniques| ensures target.uniques[i].dbName != target.uniques[j].dbName {
        assert all[|target.indexes| + i] == target.uniques[i] && all[|target.indexes| + j] == target.uniques[j];
      }
    }
    var mid := RunRecreated(l, made, target.indexes, false, d);
    forall e | e in target.uniques ensures !IndexNamed(mid.indexes, e.dbName) {
      NamesApart(target, made, e);
    }
    var last := RunRecreated(l, made, target.uniques, true, mid);
    LiteConcat(l, first, second, d);
    LiteConcat(l, first + second, [Pragma, Pragma], d);
    TwoPragmas(l, last);
    assert {} + Possible(made, target.indexes, false) == Possible(made, target.indexes, false);
  }

  lemma TwoPragmas(l: Lite, d: Disk)
    ensures LiteExec(l, [Pragma, Pragma], d) == Some(d)
  {
    assert [Pragma, Pragma][1..] == [Pragma];
    LiteOne(l, Pragma, d);
  }

  lemma NamesApart(target: Model, made: Model, e: IndexDef)
    requires DistinctNames(target.indexes + target.uniques) && e in target.uniques
    ensures !IndexNamed(Possible(made, target.indexes, false), e.dbName)
  {
    var all := target.indexes + target.uniques;
    var j :| 0 <= j < |target.uniques| && target.uniques[j] == e;
    forall k | k in target.indexes ensures k.dbName != e.dbName {
      var i :| 0 <= i < |target.indexes| && target.indexes[i] == k;
      assert all[i] == k && all[|target.indexes| + j] == e;
    }
  }

  /** `CREATE TABLE` accepts the keys of the rebuilt table and what its constraints mention. */
  ghost predicate CanBuild(next: Schema, target: Model, made: Model)
    requires made.Valid()
  {
    Buildable(TableColumns(Dialect.Sqlite, made), KeysMade(target, made), Mentioned(next, target, made))
  }

  /** Building the copy, filling it, and putting it in the table's place. */
  lemma RunSwap(l: Lite, before: Table, c: string, filled: Column, columns: map<string, ColumnDef>, inline: set<string>,
                keys: set<seq<string>>, mentioned: set<string>, names: seq<string>, mid: Disk)
    requires mid.table == Some(before.(cols := before.cols[c := filled])) && mid.copy.None?
    requires c !in before.cols && (forall x :: x in columns <==> x == c || x in before.cols)
    requires forall x :: x in before.cols ==> columns[x] == before.cols[x].def
    requires (forall x :: x in names <==> x in columns) && Buildable(columns, keys, mentioned)
    requires NullsOk(Table(before.rows, before.cols[c := Column(columns[c], filled.cells)], inline))
    ensures LiteExec(l, [Pragma, Build(columns, inline, keys, mentioned), Copy(names, names), DropOld, RenameCopy], mid) ==
            Some(Disk(Some(Table(before.rows, before.cols[c := Column(columns[c], filled.cells)], inline)), None, {}))
  {
    CopyInto(l, before, c, filled, columns, inline, names);
    var table := Table(before.rows, before.cols[c := Column(columns[c], filled.cells)], inline);
    var d1 := mid.(copy := Some(Empty(columns, inline)));
    var d2 := mid.(copy := Some(table));
    var d3 := d2.(table := None, indexes := {});
    LiteFive(l, Build(columns, inline, keys, mentioned), Copy(names, names), DropOld, RenameCopy, mid, d1, d2, d3,
             Disk(Some(table), None, {}));
  }

  /** The rebuild of a filled table, when its constraints only mention columns that are there. */
  lemma RunRebuild(l: Lite, next: Schema, target: Model, source: Model, f: Field, before: Disk, mid: Disk) returns (after: Disk)
    requires source.Valid() && Physical(source, before) && Fresh(source, f) && NeedsBackfill(f) && !f.isUnique && !f.isId
    requires Filled(l, source, f, before, mid) && IndexesOk(target, Made(source, f))
    requires Replaced(source, Nullable(f)).Valid() && Made(source, f).Valid()
    requires CanBuild(next, target, Made(source, f))
    ensures LiteExec(l, Rebuild(next, target, Replaced(source, Nullable(f)), Nullable(f), f), mid) == Some(after)
    ensures AddDone(l, source, f, before, after)
    ensures after.indexes == AllPossible(target, Made(source, f))
  {
    var made, from := Made(source, f), Replaced(source, Nullable(f));
    MadeEntries(source, f);
    MadeNames(source, from, made, f);
    MadeColumns(source, made, f, before);
    AllColumnNames(made);
    FreshColumn(source, f, before);
    var columns, names := TableColumns(Dialect.Sqlite, made), ColumnNames(made, made.fields.keys);
    var last := Column(DefOf(Dialect.Sqlite, f), mid.table.value.cols[f.column].cells);
    var d4 := Disk(Some(before.table.value.(cols := before.table.value.cols[f.column := last])), None, {});
    RebuiltFits(l, source, f, before, last);
    SameUniques(source, made, f);
    RunSwap(l, before.table.value, f.column, mid.table.value.cols[f.column], columns, InlineUniques(made),
            KeysMade(target, made), Mentioned(next, target, made), names, mid);
    SamePhysical(WithField(source, f), made, d4);
    RunIndexes(l, target, made, d4);
    LiteConcat(l, [Pragma, Build(columns, InlineUniques(made), KeysMade(target, made), Mentioned(next, target, made)),
                   Copy(names, names), DropOld, RenameCopy],
               Recreated(made, target.indexes, false) + Recreated(made, target.uniques, true) + [Pragma, Pragma], mid);
    after := d4.(indexes := AllPossible(target, made));
    RebuiltDone(l, source, f, before, last, after.indexes);
  }

  lemma RebuiltDone(l: Lite, source: Model, f: Field, before: Disk, last: Column, indexes: set<LiteIndex>)
    requires source.Valid() && Physical(source, before) && Fresh(source, f) && NeedsBackfill(f) && !f.isUnique && !f.isId
    requires last == Column(DefOf(Dialect.Sqlite, f), AddedCells(l.world, Dialect.Sqlite, Key("", f.column), f, before.table.value.rows))
    ensures AddDone(l, source, f, before,
                    Disk(Some(before.table.value.(cols := before.table.value.cols[f.column := last])), None, indexes))
  {
    FreshColumn(source, f, before);
    PhysicalAdds(source, f, before, last, indexes);
  }

  lemma RebuiltFits(l: Lite, source: Model, f: Field, before: Disk, last: Column)
    requires source.Valid() && Physical(source, before) && Fresh(source, f) && NeedsBackfill(f) && !f.isUnique && !f.isId
    requires last == Column(DefOf(Dialect.Sqlite, f), AddedCells(l.world, Dialect.Sqlite, Key("", f.column), f, before.table.value.rows))
    ensures Fits(Dialect.Sqlite, f, before.table.value.rows, last)
    ensures var table := before.table.value.(cols := before.table.value.cols[f.column := last]);
            NullsOk(table) && Physical(WithField(source, f), Disk(Some(table), None, {}))
  {
    PhysicalAdds(source, f, before, last, {});
    var t := before.table.value;
    forall x | x in t.cols ensures !Blocks(t.cols[x].def.notNull, t.cols[x].cells) {
      assert HasColumnNamed(source, x);
      var n :| source.OwnsColumn(n) && source.Column(n) == x;
      assert Fits(Dialect.Sqlite, source.fields.Get(n), t.rows, t.cols[x]);
    }
  }

  lemma OkMeansMentioned(l: Lite, next: Schema, target: Model, source: Model, f: Field, d: Disk)
    requires source.Valid() && Made(source, f).Valid() && Physical(source, d) && Fresh(source, f)
    requires NeedsBackfill(f) && !f.isUnique && !f.isId
    ensures CanBuild(next, target, Made(source, f)) <==>
            AddOk(l, next, target, source, f, d.table.value.rows)
  {
    var made := Made(source, f);
    MadeEntries(source, f);
    MadeColumns(source, made, f, d);
    MentionedThere(next, target, made);
    KeyLeft(target, made);
    SameThere(next, target, made, WithField(source, f));
  }

  lemma RebuildStuck(l: Lite, next: Schema, target: Model, source: Model, f: Field, d: Disk)
    requires Replaced(source, Nullable(f)).Valid() && Made(source, f).Valid()
    requires !CanBuild(next, target, Made(source, f))
    ensures LiteExec(l, Rebuild(next, target, Replaced(source, Nullable(f)), Nullable(f), f), d).None?
  {
    var rebuild := Rebuild(next, target, Replaced(source, Nullable(f)), Nullable(f), f);
    var columns, mentioned := TableColumns(Dialect.Sqlite, Made(source, f)), Mentioned(next, target, Made(source, f));
    var inline, keys := InlineUniques(Made(source, f)), KeysMade(target, Made(source, f));
    assert rebuild == [Pragma, Build(columns, inline, keys, mentioned)] + rebuild[2..];
    BuildStuck(l, columns, inline, keys, mentioned, rebuild[2..], d);
  }

  /** A required column: added, filled, and rebuilt, or stopped at `CREATE TABLE`. */
  lemma RebuiltAdd(l: Lite, next: Schema, target: Model, source: Model, f: Field, d: Disk)
    requires source.Valid() && Physical(source, d) && Fresh(source, f) && NeedsBackfill(f)
    requires IndexesOk(target, Made(source, f))
    ensures LiteExec(l, AddLite(next, target, source, f), d).Some? <==> AddOk(l, next, target, source, f, d.table.value.rows)
    ensures AddOk(l, next, target, source, f, d.table.value.rows) ==>
              AddDone(l, source, f, d, LiteExec(l, AddLite(next, target, source, f), d).value)
  {
    MadeValid(source, f);
    var rebuild := Rebuild(next, target, Replaced(source, Nullable(f)), Nullable(f), f);
    if f.isUnique || f.isId {
      KeyStuck(l, f, rebuild, d);
    } else {
      OkMeansMentioned(l, next, target, source, f, d);
      var mid := RunFill(l, source, f, d);
      LiteConcat(l, [Add(f.column, DefOf(Dialect.Sqlite, Nullable(f)), false, false), Fill(f.column)], rebuild, d);
      if CanBuild(next, target, Made(source, f)) {
        var after := RunRebuild(l, next, target, source, f, d, mid);
      } else {
        RebuildStuck(l, next, target, source, f, mid);
      }
    }
  }

  lemma KeyStuck(l: Lite, f: Field, rest: seq<LiteStmt>, d: Disk)
    requires f.isUnique || f.isId
    ensures LiteExec(l, [Add(f.column, DefOf(Dialect.Sqlite, Nullable(f)), f.isUnique, f.isId), Fill(f.column)] + rest, d).None?
  {}

  /** The indexes that a required add leaves behind are those of the target that the table can have. */
  lemma RebuiltIndexes(l: Lite, next: Schema, target: Model, source: Model, f: Field, d: Disk)
    requires source.Valid() && Physical(source, d) && Fresh(source, f) && NeedsBackfill(f)
    requires IndexesOk(target, Made(source, f)) && AddOk(l, next, target, source, f, d.table.value.rows)
    ensures var after := LiteExec(l, AddLite(next, target, source, f), d);
            after.Some? &&
            after.value.indexes == AllPossible(target, Made(source, f))
  {
    MadeValid(source, f);
    OkMeansMentioned(l, next, target, source, f, d);
    var mid := RunFill(l, source, f, d);
    LiteConcat(l, [Add(f.column, DefOf(Dialect.Sqlite, Nullable(f)), false, false), Fill(f.column)],
               Rebuild(next, target, Replaced(source, Nullable(f)), Nullable(f), f), d);
    var after := RunRebuild(l, next, target, source, f, d, mid);
  }
}
