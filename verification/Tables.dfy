/**
 The first and the last phase of a plan: whole tables created, whole tables dropped.
 */
module Tables {
  import opened Ir
  import opened Catalogue
  import opened Plan
  import opened Effects
  import opened Trace
  import opened Fates

  /** Columns and constraints only exist on tables. */
  ghost predicate Sound(cat: Catalog) {
    && (forall k :: k in cat.cols ==> k.table in cat.rows)
    && (forall k :: k in cat.cons ==> k.table in cat.rows)
  }

  /** Everything about table `t` is the same in both catalogues. */
  ghost predicate SameTable(a: Catalog, b: Catalog, t: string) {
    && SameData(a, b, t)
    && (forall kind, x :: ConAt(a.cons, ConKey(kind, t, x)) == ConAt(b.cons, ConKey(kind, t, x)))
  }

  /** The table of `m` is new and empty; it has the keys of its `CREATE TABLE`, and no index or foreign key. */
  ghost predicate Built(d: Dialect, m: Model, k: Catalog) {
    && TableIs(d, m, m.table, k)
    && k.rows[m.table] == 0
    && (forall kind, x :: ConAt(k.cons, ConKey(kind, m.table, x)) ==
                          ConAt(CreatedKeys(m.table, KeysOfTable(m)), ConKey(kind, m.table, x)))
  }

  predicate CreatesTable(cs: seq<Change>, t: string) {
    exists c :: c in cs && c.CreateModel? && c.created.table == t
  }

  lemma CreatedOn(t: string, keys: TableKeys)
    ensures forall k :: k in CreatedKeys(t, keys) ==> k.table == t && CreatedKeys(t, keys)[k].OnColumns?
  {}

  function EmptyColumns(t: string, columns: map<string, ColumnDef>): map<Key, Column> {
    map k | k in KeysOf(t, columns.Keys) :: Column(columns[k.name], [])
  }

  lemma EmptyColumnsOn(t: string, columns: map<string, ColumnDef>)
    ensures forall k :: k in EmptyColumns(t, columns) ==> k.table == t
    ensures forall x :: Lookup(EmptyColumns(t, columns), Key(t, x)) == if x in columns then Some(Column(columns[x], [])) else None
  {
    forall x ensures Key(t, x) in EmptyColumns(t, columns) <==> x in columns {
      assert Key(t, x) in KeysOf(t, columns.Keys) <==> x in columns.Keys;
    }
  }

  lemma CreateStep(w: World, t: string, columns: map<string, ColumnDef>, keys: TableKeys, cat: Catalog)
    requires t !in cat.rows
    ensures Step(w, CreateTable(t, columns, keys), cat) ==
            Some(Catalog(cat.rows[t := 0], cat.cols + EmptyColumns(t, columns), cat.cons + CreatedKeys(t, keys), cat.checks))
  {}

  /** Entries for one table join those of the others. */
  lemma ColumnsJoin(cols: map<Key, Column>, more: map<Key, Column>, t: string)
    requires forall k :: k in more ==> k.table == t
    requires forall k :: k in cols ==> k.table != t
    ensures forall u, x :: Lookup(cols + more, Key(u, x)) == if u == t then Lookup(more, Key(u, x)) else Lookup(cols, Key(u, x))
  {}

  lemma ConsJoin(cons: map<ConKey, Con>, more: map<ConKey, Con>, t: string)
    requires forall k :: k in more ==> k.table == t
    requires forall k :: k in cons ==> k.table != t
    ensures forall kind, u, x :: ConAt(cons + more, ConKey(kind, u, x)) ==
                                 if u == t then ConAt(more, ConKey(kind, u, x)) else ConAt(cons, ConKey(kind, u, x))
  {}

  /** What joins the catalogue with table `t`: its columns and its keys. */
  lemma JoinsTable(cat: Catalog, after: Catalog, t: string, more: map<Key, Column>, keys: map<ConKey, Con>)
    requires Sound(cat) && t !in cat.rows
    requires (forall k :: k in more ==> k.table == t) && forall k :: k in keys ==> k.table == t
    requires after.rows == cat.rows[t := 0] && after.cols == cat.cols + more && after.cons == cat.cons + keys
    ensures forall x :: Lookup(after.cols, Key(t, x)) == Lookup(more, Key(t, x))
    ensures forall kind, x :: ConAt(after.cons, ConKey(kind, t, x)) == ConAt(keys, ConKey(kind, t, x))
    ensures forall u :: u != t ==> SameTable(cat, after, u)
  {
    ColumnsJoin(cat.cols, more, t);
    ConsJoin(cat.cons, keys, t);
  }

  /** What CREATE TABLE adds, name by name. */
  lemma CreatedNames(w: World, t: string, columns: map<string, ColumnDef>, keys: TableKeys, cat: Catalog) returns (after: Catalog)
    requires Sound(cat) && t !in cat.rows
    ensures Step(w, CreateTable(t, columns, keys), cat) == Some(after) && after.checks == cat.checks
    ensures after.rows == cat.rows[t := 0]
    ensures after.cons == cat.cons + CreatedKeys(t, keys)
    ensures forall x :: Lookup(after.cols, Key(t, x)) == if x in columns then Some(Column(columns[x], [])) else None
    ensures forall kind, x :: ConAt(after.cons, ConKey(kind, t, x)) == ConAt(CreatedKeys(t, keys), ConKey(kind, t, x))
    ensures forall u :: u != t ==> SameTable(cat, after, u)
    ensures Sound(after)
  {
    after := Catalog(cat.rows[t := 0], cat.cols + EmptyColumns(t, columns), cat.cons + CreatedKeys(t, keys), cat.checks);
    CreateStep(w, t, columns, keys, cat);
    CreatedOn(t, keys);
    EmptyColumnsOn(t, columns);
    JoinsTable(cat, after, t, EmptyColumns(t, columns), CreatedKeys(t, keys));
  }

  lemma CreatedTable(d: Dialect, m: Model, k: Catalog)
    requires m.Valid() && RowsOf(k, m.table) == Some(0)
    requires forall x :: Lookup(k.cols, Key(m.table, x)) ==
                         if x in TableColumns(d, m) then Some(Column(TableColumns(d, m)[x], [])) else None
    ensures TableIs(d, m, m.table, k)
  {
    var t := m.table;
    forall n | m.OwnsColumn(n)
      ensures Key(t, m.Column(n)) in k.cols && Fits(d, m.fields.Get(n), 0, k.cols[Key(t, m.Column(n))])
    {
      assert m.Column(n) in TableColumns(d, m);
      assert Lookup(k.cols, Key(t, m.Column(n))).Some?;
    }
    forall x | Key(t, x) in k.cols ensures HasColumnNamed(m, x) {
      assert Lookup(k.cols, Key(t, x)).Some?;
    }
  }

  lemma CreateOne(w: World, d: Dialect, m: Model, cat: Catalog) returns (after: Catalog)
    requires m.Valid() && Sound(cat) && m.table !in cat.rows
    ensures Step(w, CreateTable(m.table, TableColumns(d, m), KeysOfTable(m)), cat) == Some(after)
    ensures after.rows == cat.rows[m.table := 0] && after.checks == cat.checks
    ensures after.cons == cat.cons + CreatedKeys(m.table, KeysOfTable(m))
    ensures Sound(after) && Built(d, m, after)
    ensures forall t :: t != m.table ==> SameTable(cat, after, t)
  {
    after := CreatedNames(w, m.table, TableColumns(d, m), KeysOfTable(m), cat);
    CreatedTable(d, m, after);
  }

  lemma BuiltKeeps(d: Dialect, m: Model, a: Catalog, b: Catalog)
    requires Built(d, m, a) && SameTable(a, b, m.table)
    ensures Built(d, m, b)
  {
    TableKeeps(d, m, m.table, a, b);
    assert RowsOf(b, m.table) == Some(0);
  }

  ghost predicate DistinctCreates(cs: seq<Change>) {
    && (forall c :: c in cs ==> c.CreateModel? && c.created.Valid())
    && (forall i, j :: 0 <= i < j < |cs| ==> cs[i].CreateModel? && cs[j].CreateModel? &&
                                             cs[i].created.table != cs[j].created.table)
  }

  lemma DistinctCreatesTail(cs: seq<Change>)
    requires cs != [] && DistinctCreates(cs)
    ensures cs[0].CreateModel? && DistinctCreates(cs[1..]) && !CreatesTable(cs[1..], cs[0].created.table)
  {
    assert cs[0] in cs;
  }

  lemma CreateHead(w: World, d: Dialect, next: Schema, cs: seq<Change>, cat: Catalog) returns (mid: Catalog)
    requires Renderable(next, cs) && DistinctCreates(cs) && Sound(cat) && cs != []
    requires forall t :: CreatesTable(cs, t) ==> t !in cat.rows
    ensures Exec(w, RenderAll(d, next, cs), cat) == Exec(w, RenderAll(d, next, cs[1..]), mid)
    ensures cs[0].CreateModel? && mid.cons == cat.cons + CreatedKeys(cs[0].created.table, KeysOfTable(cs[0].created))
    ensures Sound(mid) && mid.checks == cat.checks && cs[0].CreateModel? && Built(d, cs[0].created, mid)
    ensures forall t :: t != cs[0].created.table ==> SameTable(cat, mid, t)
    ensures forall t :: CreatesTable(cs[1..], t) ==> t !in mid.rows
    ensures forall t :: CreatesTable(cs, t) <==> t == cs[0].created.table || CreatesTable(cs[1..], t)
  {
    var c, rest := cs[0], cs[1..];
    assert c in cs && cs == [c] + rest;
    DistinctCreatesTail(cs);
    CreatesCons(c, rest);
    var stmt := CreateTable(c.created.table, TableColumns(d, c.created), KeysOfTable(c.created));
    assert Render(d, next, c) == [stmt];
    mid := CreateOne(w, d, c.created, cat);
    ExecOne(w, stmt, cat);
    ExecConcat(w, [stmt], RenderAll(d, next, rest), cat);
  }

  /** Every table created by `cs` is as its model describes it. */
  ghost predicate AllBuilt(d: Dialect, cs: seq<Change>, k: Catalog) {
    forall c {:trigger c in cs} :: c in cs ==> c.CreateModel? && Built(d, c.created, k)
  }

  /** The tables that `cs` does not create are untouched. */
  ghost predicate OthersSame(cs: seq<Change>, a: Catalog, b: Catalog) {
    forall t {:trigger CreatesTable(cs, t)} :: !CreatesTable(cs, t) ==> SameTable(a, b, t)
  }

  /** The constraints with the keys of the created tables. */
  function WithCreated(cs: seq<Change>, cons: map<ConKey, Con>): map<ConKey, Con> {
    if cs == [] then cons
    else if cs[0].CreateModel? then
      WithCreated(cs[1..], cons + CreatedKeys(cs[0].created.table, KeysOfTable(cs[0].created)))
    else WithCreated(cs[1..], cons)
  }

  lemma {:induction false} RunCreates(w: World, d: Dialect, next: Schema, cs: seq<Change>, cat: Catalog) returns (after: Catalog)
    requires Renderable(next, cs) && DistinctCreates(cs) && Sound(cat)
    requires forall t :: CreatesTable(cs, t) ==> t !in cat.rows
    ensures Exec(w, RenderAll(d, next, cs), cat) == Some(after) && Sound(after) && after.checks == cat.checks
    ensures OthersSame(cs, cat, after)
    ensures AllBuilt(d, cs, after)
    ensures after.cons == WithCreated(cs, cat.cons)
  {
    if cs == [] {
      after := cat;
    } else {
      DistinctCreatesTail(cs);
      var mid := CreateHead(w, d, next, cs, cat);
      after := RunCreates(w, d, next, cs[1..], mid);
      BuiltStep(d, cs, mid, after);
      SameOutside(cs, cs[0].created.table, cat, mid, after);
    }
  }

  lemma BuiltStep(d: Dialect, cs: seq<Change>, mid: Catalog, after: Catalog)
    requires cs != [] && cs[0].CreateModel? && !CreatesTable(cs[1..], cs[0].created.table)
    requires Built(d, cs[0].created, mid) && AllBuilt(d, cs[1..], after) && OthersSame(cs[1..], mid, after)
    ensures AllBuilt(d, cs, after)
  {
    BuiltKeeps(d, cs[0].created, mid, after);
    forall c | c in cs ensures c.CreateModel? && Built(d, c.created, after) {
      assert c == cs[0] || c in cs[1..];
    }
  }

  lemma CreatesCons(c: Change, rest: seq<Change>)
    requires c.CreateModel?
    ensures forall t :: CreatesTable([c] + rest, t) <==> c.created.table == t || CreatesTable(rest, t)
  {
    assert c in [c] + rest;
    forall t | CreatesTable(rest, t) ensures CreatesTable([c] + rest, t) {
      var e :| e in rest && e.CreateModel? && e.created.table == t;
      assert e in [c] + rest;
    }
  }

  lemma SameOutside(cs: seq<Change>, t0: string, a: Catalog, b: Catalog, c: Catalog)
    requires forall t :: t != t0 ==> SameTable(a, b, t)
    requires cs != [] && OthersSame(cs[1..], b, c)
    requires forall t :: CreatesTable(cs, t) <==> t == t0 || CreatesTable(cs[1..], t)
    ensures OthersSame(cs, a, c)
  {
    forall t | !CreatesTable(cs, t) ensures SameTable(a, c, t) {
      SameTrans(a, b, c, t);
    }
  }

  lemma SameTrans(a: Catalog, b: Catalog, c: Catalog, t: string)
    requires SameTable(a, b, t) && SameTable(b, c, t)
    ensures SameTable(a, c, t)
  {
    forall x ensures Lookup(a.cols, Key(t, x)) == Lookup(c.cols, Key(t, x)) {
      assert Lookup(a.cols, Key(t, x)) == Lookup(b.cols, Key(t, x));
    }
    forall kind, x ensures ConAt(a.cons, ConKey(kind, t, x)) == ConAt(c.cons, ConKey(kind, t, x)) {
      assert ConAt(a.cons, ConKey(kind, t, x)) == ConAt(b.cons, ConKey(kind, t, x));
    }
  }

  // ---- Dropped tables ------------------------------------------------------------------------------

  function TablesOf(drops: seq<Change>): set<string> {
    set c | c in drops && c.DropModel? :: c.table
  }

  /** Nothing is dropped while another table still refers to it, unless the drop cascades. */
  predicate InOrder(cascade: set<string>, drops: seq<Change>, cons: map<ConKey, Con>)
    requires forall c :: c in drops ==> c.DropModel?
  {
    forall i, k :: 0 <= i < |drops| && k in cons && RefersTo(k, cons[k], drops[i].table) && drops[i].table !in cascade ==>
      k.table in TablesOf(drops[..i])
  }

  /** The catalogue without the tables `gone`, and without the foreign keys that cascading drops took along. */
  function Purged(cascade: set<string>, gone: set<string>, cat: Catalog): Catalog {
    cat.(rows := cat.rows - gone,
         cols := map k | k in cat.cols && k.table !in gone :: cat.cols[k],
         cons := map k | k in cat.cons && k.table !in gone && !RefersToAny(k, cat.cons[k], gone * cascade) :: cat.cons[k])
  }

  predicate RefersToAny(k: ConKey, con: Con, tables: set<string>) {
    con.References? && con.fk.targetTable in tables
  }

  lemma PurgedOne(w: World, cascade: set<string>, t: string, cat: Catalog)
    ensures Step(w, DropTable(t, t in cascade), cat) ==
            if cat.checks && t !in cascade && exists k :: k in cat.cons && RefersTo(k, cat.cons[k], t) then None
            else Some(Purged(cascade, {t}, cat))
  {
    var after := Purged(cascade, {t}, cat);
    if t in cascade {
      assert {t} * cascade == {t};
    } else {
      assert {t} * cascade == {};
    }
    assert after.rows == cat.rows - {t};
    assert after.cols == map k | k in cat.cols && k.table != t :: cat.cols[k];
    assert after.cons == map k | k in cat.cons && k.table != t && !(t in cascade && RefersTo(k, cat.cons[k], t)) :: cat.cons[k];
  }

  lemma PurgedTwice(cascade: set<string>, t: string, gone: set<string>, cat: Catalog)
    ensures Purged(cascade, gone, Purged(cascade, {t}, cat)) == Purged(cascade, {t} + gone, cat)
  {
    var mid, last := Purged(cascade, {t}, cat), Purged(cascade, {t} + gone, cat);
    var after := Purged(cascade, gone, mid);
    assert after.rows == last.rows;
    assert after.cols == last.cols;
    forall k ensures k in after.cons <==> k in last.cons {}
    assert after.cons == last.cons;
  }

  lemma TablesCons(c: Change, rest: seq<Change>)
    requires c.DropModel?
    ensures TablesOf([c] + rest) == {c.table} + TablesOf(rest)
  {
    assert forall e :: e in [c] + rest <==> e == c || e in rest;
  }

  lemma InOrderTail(cascade: set<string>, c: Change, rest: seq<Change>, cat: Catalog)
    requires c.DropModel? && (forall e :: e in rest ==> e.DropModel?) && InOrder(cascade, [c] + rest, cat.cons)
    ensures c.table in cascade || !exists k :: k in cat.cons && RefersTo(k, cat.cons[k], c.table)
    ensures InOrder(cascade, rest, Purged(cascade, {c.table}, cat).cons)
  {
    var drops, later := [c] + rest, Purged(cascade, {c.table}, cat).cons;
    forall k | k in cat.cons && c.table !in cascade ensures !RefersTo(k, cat.cons[k], c.table) {
      assert drops[0] == c && TablesOf(drops[..0]) == {};
    }
    forall i, k | 0 <= i < |rest| && k in later && RefersTo(k, later[k], rest[i].table) && rest[i].table !in cascade
      ensures k.table in TablesOf(rest[..i])
    {
      assert drops[i + 1] == rest[i] && drops[..i + 1] == [c] + rest[..i];
      TablesCons(c, rest[..i]);
      assert k.table in TablesOf(drops[..i + 1]);
    }
  }

  /** One drop, and what it leaves to the others. */
  lemma InOrderCons(cascade: set<string>, c: Change, rest: seq<Change>, cat: Catalog)
    requires c.DropModel? && forall e :: e in rest ==> e.DropModel?
    ensures InOrder(cascade, [c] + rest, cat.cons) <==>
              && (c.table in cascade || !exists k :: k in cat.cons && RefersTo(k, cat.cons[k], c.table))
              && InOrder(cascade, rest, Purged(cascade, {c.table}, cat).cons)
  {
    var drops, later := [c] + rest, Purged(cascade, {c.table}, cat).cons;
    assert drops[..0] == [] && drops[0] == c;
    if InOrder(cascade, drops, cat.cons) {
      InOrderTail(cascade, c, rest, cat);
    }
    if (c.table in cascade || !exists k :: k in cat.cons && RefersTo(k, cat.cons[k], c.table)) && InOrder(cascade, rest, later) {
      forall i, k | 0 <= i < |drops| && k in cat.cons && RefersTo(k, cat.cons[k], drops[i].table) && drops[i].table !in cascade
        ensures k.table in TablesOf(drops[..i])
      {
        if i > 0 {
          assert drops[..i] == [c] + rest[..i - 1];
          TablesCons(c, rest[..i - 1]);
          LaterInOrder(cascade, c, rest, cat, i - 1, k);
        }
      }
    }
  }

  lemma LaterInOrder(cascade: set<string>, c: Change, rest: seq<Change>, cat: Catalog, i: nat, k: ConKey)
    requires c.DropModel? && (forall e :: e in rest ==> e.DropModel?) && i < |rest|
    requires InOrder(cascade, rest, Purged(cascade, {c.table}, cat).cons)
    requires k in cat.cons && RefersTo(k, cat.cons[k], rest[i].table) && rest[i].table !in cascade
    ensures k.table in {c.table} + TablesOf(rest[..i])
  {
    var later := Purged(cascade, {c.table}, cat).cons;
    if k.table != c.table {
      assert k in later && later[k] == cat.cons[k];
    }
  }

  /** The table drops run if they come in order, or if the checks are off, and remove exactly what they should. */
  lemma {:induction false} RunDropTables(w: World, cascade: set<string>, drops: seq<Change>, cat: Catalog)
    requires forall c :: c in drops ==> c.DropModel?
    ensures Exec(w, DropStmts(cascade, drops), cat) ==
            if cat.checks ==> InOrder(cascade, drops, cat.cons) then Some(Purged(cascade, TablesOf(drops), cat)) else None
  {
    if drops == [] {
      NothingPurged(cascade, cat);
    } else {
      var c, rest := drops[0], drops[1..];
      assert c in drops && drops == [c] + rest;
      PurgedOne(w, cascade, c.table, cat);
      InOrderCons(cascade, c, rest, cat);
      var mid := Purged(cascade, {c.table}, cat);
      RunDropTables(w, cascade, rest, mid);
      PurgedTwice(cascade, c.table, TablesOf(rest), cat);
      TablesCons(c, rest);
      ExecFirst(w, DropTable(c.table, c.table in cascade), DropStmts(cascade, rest), cat);
    }
  }

  lemma ExecFirst(w: World, s: Stmt, rest: seq<Stmt>, cat: Catalog)
    ensures Exec(w, [s] + rest, cat) == match Step(w, s, cat) case None => None case Some(mid) => Exec(w, rest, mid)
  {
    assert ([s] + rest)[1..] == rest;
  }

  lemma NothingPurged(cascade: set<string>, cat: Catalog)
    ensures TablesOf([]) == {} && Purged(cascade, {}, cat) == cat
  {
    assert Purged(cascade, {}, cat).rows == cat.rows;
    assert Purged(cascade, {}, cat).cols == cat.cols;
    assert Purged(cascade, {}, cat).cons == cat.cons;
  }
}
