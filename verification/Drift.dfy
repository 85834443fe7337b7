/**
 Comparing a live database with a snapshot (`detect` of `crates/migrate/src/drift.rs`,
 after the tables have been fetched).
 */
module Drift {
  import opened Names
  import opened Ir
  import opened Catalogue
  import opened Diff
  import opened Trace
  import opened Migrate

  /** What is fetched: tables to columns to whether they are NOT NULL. */
  type Live = map<string, map<string, bool>>

  datatype Difference =
    | ExtraTable(table: string)
    | MissingTable(table: string)
    | ExtraColumn(table: string, column: string)
    | MissingColumn(table: string, column: string)
    | NotNullHere(table: string, column: string)
    | NullableHere(table: string, column: string)

  /** What the snapshot says: columns to whether they are optional. */
  function Expected(m: Model): map<string, bool>
    requires m.Valid()
  {
    map n | n in m.fields.entries && m.OwnsColumn(n) :: m.Column(n) := m.fields.Get(n).optional
  }

  /** Live and expected columns of one table differ in this. */
  predicate ColumnDiffers(live: map<string, bool>, expected: map<string, bool>, d: Difference) {
    match d
    case ExtraColumn(_, x) => x in live && x !in expected
    case MissingColumn(_, x) => x !in live && x in expected
    case NotNullHere(_, x) => x in live && x in expected && live[x] && expected[x]
    case NullableHere(_, x) => x in live && x in expected && !live[x] && !expected[x]
    case _ => false
  }

  ghost predicate Differs(live: Live, s: Schema, d: Difference)
    requires s.Valid()
  {
    match d
    case ExtraTable(t) => t in live && !IsTable(s, t)
    case MissingTable(t) => t !in live && IsTable(s, t)
    case _ => d.table in live && exists m :: ColumnDiffersAt(live[d.table], s, m, d)
  }

  ghost predicate ColumnDiffersAt(live: map<string, bool>, s: Schema, m: ModelName, d: Difference)
    requires s.Valid()
  {
    s.models.Has(m) && s.Table(m) == d.table && ColumnDiffers(live, Expected(s.models.Get(m)), d)
  }

  /** The database is what the snapshot says: same tables, same columns, same nullability. */
  ghost predicate Matches(live: Live, s: Schema)
    requires s.Valid()
  {
    && (forall t :: t in live <==> IsTable(s, t))
    && (forall m :: s.models.Has(m) && s.Table(m) in live ==>
          var expected := Expected(s.models.Get(m));
          && live[s.Table(m)].Keys == expected.Keys
          && forall x :: x in expected ==> live[s.Table(m)][x] == !expected[x])
  }

  /** The inner loops: one table's columns. */
  method CompareColumns(table: string, live: map<string, bool>, expected: map<string, bool>) returns (drift: seq<Difference>)
    ensures forall d :: d in drift <==> d.table == table && ColumnDiffers(live, expected, d)
  {
    drift := [];
    var todo := live.Keys;
    while todo != {}
      invariant todo <= live.Keys
      invariant forall d :: d in drift <==> d.table == table && d.ExtraColumn? && d.column in live.Keys - todo && d.column !in expected
      decreases todo
    {
      var x :| x in todo;
      todo := todo - {x};
      if x !in expected {
        drift := drift + [ExtraColumn(table, x)];
      }
    }
    ghost var extra := drift;
    todo := expected.Keys;
    while todo != {}
      invariant todo <= expected.Keys
      invariant forall d :: d in drift <==>
                  d in extra || (d.table == table && d.MissingColumn? && d.column in expected.Keys - todo && d.column !in live)
      decreases todo
    {
      var x :| x in todo;
      todo := todo - {x};
      if x !in live {
        drift := drift + [MissingColumn(table, x)];
      }
    }
    ghost var named := drift;
    todo := expected.Keys;
    while todo != {}
      invariant todo <= expected.Keys
      invariant forall d :: d in drift <==>
                  d in named || (d.table == table && (d.NotNullHere? || d.NullableHere?) && d.column in expected.Keys - todo &&
                                 ColumnDiffers(live, expected, d))
      decreases todo
    {
      var x :| x in todo;
      todo := todo - {x};
      if x in live {
        if live[x] && expected[x] {
          drift := drift + [NotNullHere(table, x)];
        } else if !live[x] && !expected[x] {
          drift := drift + [NullableHere(table, x)];
        }
      }
    }
  }

  /** The model of a table, looked up in declaration order. */
  method FindTable(s: Schema, table: string) returns (m: Option<ModelName>)
    requires s.Valid()
    ensures m.Some? ==> s.models.Has(m.value) && s.Table(m.value) == table
    ensures m.None? ==> !IsTable(s, table)
  {
    var names := s.models.keys;
    for i := 0 to |names|
      invariant forall k :: k in names[..i] ==> s.Table(k) != table
    {
      assert names[..i + 1] == names[..i] + [names[i]];
      if s.Table(names[i]) == table {
        return Some(names[i]);
      }
    }
    assert names[..|names|] == names;
    return None;
  }

  function Tables(s: Schema): set<string>
    requires s.models.Valid()
  {
    set m | m in s.models.keys :: s.Table(m)
  }

  method CompareTables(live: Live, s: Schema) returns (drift: seq<Difference>)
    requires s.Valid()
    ensures forall d :: d in drift <==> (d.ExtraTable? || d.MissingTable?) && Differs(live, s, d)
  {
    drift := [];
    var expected := Tables(s);
    assert forall t :: t in expected <==> IsTable(s, t);
    var todo := live.Keys;
    while todo != {}
      invariant todo <= live.Keys
      invariant forall d :: d in drift <==> d.ExtraTable? && d.table in live.Keys - todo && d.table !in expected
      decreases todo
    {
      var t :| t in todo;
      todo := todo - {t};
      if t !in expected {
        drift := drift + [ExtraTable(t)];
      }
    }
    ghost var extra := drift;
    todo := expected;
    while todo != {}
      invariant todo <= expected
      invariant forall d :: d in drift <==> d in extra || (d.MissingTable? && d.table in expected - todo && d.table !in live)
      decreases todo
    {
      var t :| t in todo;
      todo := todo - {t};
      if t !in live {
        drift := drift + [MissingTable(t)];
      }
    }
  }

  /** `detect`: exactly the differences. */
  method Detect(live: Live, s: Schema) returns (drift: seq<Difference>)
    requires s.Valid()
    ensures forall d :: d in drift <==> Differs(live, s, d)
    ensures drift == [] <==> Matches(live, s)
  {
    drift := CompareTables(live, s);
    ghost var tables := drift;
    var todo := live.Keys;
    while todo != {}
      invariant todo <= live.Keys
      invariant forall d :: d in drift <==>
                  d in tables || (!d.ExtraTable? && !d.MissingTable? && d.table in live.Keys - todo && Differs(live, s, d))
      decreases todo
    {
      var t :| t in todo;
      todo := todo - {t};
      var m := FindTable(s, t);
      if m.Some? {
        var here := CompareColumns(t, live[t], Expected(s.models.Get(m.value)));
        OneModelPerTable(live, s, m.value, t);
        drift := drift + here;
      }
    }
    NoDifference(live, s, drift);
  }

  lemma OneModelPerTable(live: Live, s: Schema, m: ModelName, t: string)
    requires s.Valid() && s.models.Has(m) && s.Table(m) == t && t in live
    ensures forall d: Difference :: d.table == t && !d.ExtraTable? && !d.MissingTable? ==>
              (Differs(live, s, d) <==> ColumnDiffers(live[t], Expected(s.models.Get(m)), d))
  {
    forall d: Difference | d.table == t && !d.ExtraTable? && !d.MissingTable?
      ensures Differs(live, s, d) <==> ColumnDiffers(live[t], Expected(s.models.Get(m)), d)
    {
      assert ColumnDiffersAt(live[t], s, m, d) <==> ColumnDiffers(live[t], Expected(s.models.Get(m)), d);
    }
  }

  /** The comparison is sound and complete: it is silent exactly when the database matches. */
  lemma NoDifference(live: Live, s: Schema, drift: seq<Difference>)
    requires s.Valid() && forall d :: d in drift <==> Differs(live, s, d)
    ensures drift == [] <==> Matches(live, s)
  {
    if Matches(live, s) {
      forall d ensures !Differs(live, s, d) {
        if !d.ExtraTable? && !d.MissingTable? && d.table in live {
          forall m ensures !ColumnDiffersAt(live[d.table], s, m, d) {}
        }
      }
      FirstIn(drift);
    }
    if drift == [] {
      forall t ensures t in live <==> IsTable(s, t) {
        assert !Differs(live, s, ExtraTable(t)) && !Differs(live, s, MissingTable(t));
      }
      forall m | s.models.Has(m) && s.Table(m) in live
        ensures live[s.Table(m)].Keys == Expected(s.models.Get(m)).Keys
        ensures forall x :: x in Expected(s.models.Get(m)) ==> live[s.Table(m)][x] == !Expected(s.models.Get(m))[x]
      {
        SilentTable(live, s, drift, m);
      }
    }
  }

  lemma SilentTable(live: Live, s: Schema, drift: seq<Difference>, m: ModelName)
    requires s.Valid() && (forall d :: !Differs(live, s, d)) && s.models.Has(m) && s.Table(m) in live
    ensures live[s.Table(m)].Keys == Expected(s.models.Get(m)).Keys
    ensures forall x :: x in Expected(s.models.Get(m)) ==> live[s.Table(m)][x] == !Expected(s.models.Get(m))[x]
  {
    var t := s.Table(m);
    OneModelPerTable(live, s, m, t);
    forall x ensures x in live[t] <==> x in Expected(s.models.Get(m)) {
      assert !Differs(live, s, ExtraColumn(t, x)) && !Differs(live, s, MissingColumn(t, x));
    }
    forall x | x in Expected(s.models.Get(m)) ensures live[t][x] == !Expected(s.models.Get(m))[x] {
      assert !Differs(live, s, NotNullHere(t, x)) && !Differs(live, s, NullableHere(t, x));
    }
  }

  // ---- After a migration --------------------------------------------------------------------------------

  /** What would be fetched from a catalogue. */
  function Fetched(cat: Catalog): Live {
    map t | t in cat.rows :: FetchedTable(cat, t)
  }

  function FetchedTable(cat: Catalog, t: string): map<string, bool> {
    map x | x in ColumnsOf(cat, t) :: cat.cols[Key(t, x)].def.notNull
  }

  function ColumnsOf(cat: Catalog, t: string): (names: set<string>)
    ensures forall x :: x in names <==> Key(t, x) in cat.cols
  {
    set k | k in cat.cols && k.table == t :: k.name
  }

  /** A catalogue that has a schema's tables shows no drift from it; so no migration that runs leaves any. */
  lemma NoDriftAfter(d: Dialect, s: Schema, cat: Catalog)
    requires s.Valid() && HasTables(d, s, cat)
    ensures Matches(Fetched(cat), s)
  {
    var live := Fetched(cat);
    forall m | s.models.Has(m) && s.Table(m) in live
      ensures live[s.Table(m)].Keys == Expected(s.models.Get(m)).Keys
      ensures forall x :: x in Expected(s.models.Get(m)) ==> live[s.Table(m)][x] == !Expected(s.models.Get(m))[x]
    {
      TableMatches(d, s, cat, m);
    }
  }

  lemma TableMatches(d: Dialect, s: Schema, cat: Catalog, m: ModelName)
    requires s.Valid() && s.models.Has(m) && TableIs(d, s.models.Get(m), s.Table(m), cat)
    ensures var here, expected := Fetched(cat)[s.Table(m)], Expected(s.models.Get(m));
            here.Keys == expected.Keys && forall x :: x in expected ==> here[x] == !expected[x]
  {
    var model, t := s.models.Get(m), s.Table(m);
    forall x ensures x in Fetched(cat)[t] <==> x in Expected(model)
      ensures x in Expected(model) ==> Fetched(cat)[t][x] == !Expected(model)[x]
    {
      FetchedColumn(cat, t, x);
      ColumnMatches(d, model, t, cat, x);
    }
  }

  lemma FetchedColumn(cat: Catalog, t: string, x: string)
    requires t in cat.rows
    ensures x in Fetched(cat)[t] <==> Key(t, x) in cat.cols
    ensures Key(t, x) in cat.cols ==> Fetched(cat)[t][x] == cat.cols[Key(t, x)].def.notNull
  {}

  lemma ColumnMatches(d: Dialect, m: Model, t: string, cat: Catalog, x: string)
    requires m.Valid() && TableIs(d, m, t, cat)
    ensures Key(t, x) in cat.cols <==> x in Expected(m)
    ensures x in Expected(m) ==> cat.cols[Key(t, x)].def.notNull == !Expected(m)[x]
  {
    if Key(t, x) in cat.cols {
      assert HasColumnNamed(m, x);
      var n :| m.OwnsColumn(n) && m.Column(n) == x;
      ExpectedAt(m, n);
    }
    if x in Expected(m) {
      var n :| n in m.fields.entries && m.OwnsColumn(n) && m.Column(n) == x;
      ExpectedAt(m, n);
      assert Key(t, m.Column(n)) in cat.cols;
    }
  }

  lemma ExpectedAt(m: Model, n: FieldName)
    requires m.Valid() && m.OwnsColumn(n)
    ensures m.Column(n) in Expected(m) && Expected(m)[m.Column(n)] == m.fields.Get(n).optional
  {
    assert n in m.fields.entries;
  }
}
