/**
 Tidy pairs of schemas whose added columns SQLite does not accept, or not with what comes
 after them, as concrete inputs.
 */
module LiteLimits {
  import opened Names
  import opened Ir
  import opened Catalogue
  import opened Diff
  import opened Plan
  import opened Effects
  import opened Trace
  import opened ConRun
  import opened Sqlite
  import opened LiteAdds
  import opened Limits

  const C := FieldName("c")

  lemma ColumnsDiffer()
    ensures ID != C && A != C && B != C && "id" != "c" && "a" != "c" && "b" != "c"
  {
    assert "id"[0] != "c"[0] && "a"[0] != "c"[0] && "b"[0] != "c"[0];
  }

  function IntField(name: FieldName): Field {
    Field(name, name.text, INT, false, None, None, false, false)
  }

  /** The table of the one model, before the columns are added that the diff calls for. */
  ghost predicate Start(prev: Model, next: Model, all: seq<Change>, d: Disk) {
    && Alone(prev) && Alone(next) && TidyPair(Only(prev), Only(next), all) && Physical(prev, d)
    && AllFresh(prev, FieldsFor(all, NAME))
  }

  /** The statements for these columns. */
  function AddedBy(prev: Model, next: Model, all: seq<Change>): seq<LiteStmt>
    requires AllFresh(prev, FieldsFor(all, NAME))
  {
    AddAll(Only(next), next, prev, FieldsFor(all, NAME))
  }

  /** They are those that the planner has for the table. */
  lemma AddedByPlan(prev: Model, next: Model, all: seq<Change>, d: Disk)
    requires Start(prev, next, all, d)
    ensures AddsFresh(Only(prev), Only(next), all) && Only(next).models.Has(NAME) && StartOf(Only(prev), Only(next), NAME) == prev
    ensures AddedBy(prev, next, all) ==
            AddAll(Only(next), Only(next).models.Get(NAME), StartOf(Only(prev), Only(next), NAME), FieldsFor(all, NAME))
  {
    OnlyIs(prev);
    OnlyIs(next);
    TidyAddsFresh(Only(prev), Only(next), all);
  }

  lemma StartsFresh(prev: Model, next: Model, all: seq<Change>, d: Disk)
    requires Alone(prev) && Alone(next) && TidyPair(Only(prev), Only(next), all) && Physical(prev, d)
    ensures Start(prev, next, all, d)
  {
    OnlyIs(prev);
    OnlyIs(next);
    TidyAddsFresh(Only(prev), Only(next), all);
    assert AllFresh(StartOf(Only(prev), Only(next), NAME), FieldsFor(all, NAME));
  }

  /** An add that is not all right stops the others too. */
  lemma FirstStops(l: Lite, prev: Model, next: Model, all: seq<Change>, d: Disk)
    requires Start(prev, next, all, d) && TargetOk(next, prev)
    requires FieldsFor(all, NAME) != [] && !AddOk(l, Only(next), next, prev, FieldsFor(all, NAME)[0], d.table.value.rows)
    ensures LiteExec(l, AddedBy(prev, next, all), d).None?
  {
    RunAddAll(l, Only(next), next, prev, FieldsFor(all, NAME), d);
  }

  lemma OneFor(c: Change, more: seq<Change>)
    requires c.AddColumn? && c.model == NAME && forall e :: e in more ==> !e.AddColumn?
    ensures FieldsFor([c] + more, NAME) == [c.field]
    decreases |more|
  {
    var all := [c] + more;
    if more == [] {
      assert all[..0] == [] && all[|all| - 1] == c;
      assert FieldsFor([], NAME) == [];
    } else {
      assert all[..|all| - 1] == [c] + more[..|more| - 1] && all[|all| - 1] == more[|more| - 1];
      OneFor(c, more[..|more| - 1]);
    }
  }

  // ---- Two fields and a third -----------------------------------------------------------------------

  function Table2(f: Field, g: Field): Disk {
    var f0, g0 := Column(DefOf(Dialect.Sqlite, f), []), Column(DefOf(Dialect.Sqlite, g), []);
    Disk(Some(Table(0, map[f.column := f0, g.column := g0], {})), None, {})
  }

  lemma Table2Is(f: Field, g: Field)
    requires Apart2(f, g) && !f.isUnique && !g.isUnique
    ensures Physical(Two(f, g, [], []), Table2(f, g))
  {
    TwoFields(f, g, [], []);
    var m := Two(f, g, [], []);
    assert InlineUniques(m) == {};
    assert HasColumnNamed(m, f.column) by {
      assert m.OwnsColumn(f.name) && m.Column(f.name) == f.column;
    }
    assert HasColumnNamed(m, g.column) by {
      assert m.OwnsColumn(g.name) && m.Column(g.name) == g.column;
    }
  }

  lemma ThirdPair(f: Field, g: Field, f2: Field, h: Field, key: FieldName)
    requires Extends(f, g, f2, h, key) && !f.isUnique && !g.isUnique
    ensures Start(Two(f, g, [], []), Three(f2, g, h, key, []), [AddColumn(NAME, h)], Table2(f, g))
    ensures FieldsFor([AddColumn(NAME, h)], NAME) == [h] && TargetOk(Three(f2, g, h, key, []), Two(f, g, [], []))
  {
    TwoAre(f, g, [], []);
    ThreeAre(f2, g, h, key, []);
    ExtendPair(f, g, f2, h, key);
    Table2Is(f, g);
    StartsFresh(Two(f, g, [], []), Three(f2, g, h, key, []), [AddColumn(NAME, h)], Table2(f, g));
    JustOne(h);
  }

  lemma JustOne(h: Field)
    ensures FieldsFor([AddColumn(NAME, h)], NAME) == [h]
  {
    OneFor(AddColumn(NAME, h), []);
    assert [AddColumn(NAME, h)] + [] == [AddColumn(NAME, h)];
  }

  /** Even on an empty table, SQLite adds no column that is `@unique`. */
  lemma UniqueCannotBeAdded(l: Lite)
    ensures var id, a, b := IdField(INT), IntField(A), IntField(B).(optional := true, isUnique := true);
            var prev, next, all := Two(id, a, [], []), Three(id, a, b, ID, []), [AddColumn(NAME, b)];
            Start(prev, next, all, Table2(id, a)) && LiteExec(l, AddedBy(prev, next, all), Table2(id, a)).None?
  {
    NamesDiffer();
    var id, a, b := IdField(INT), IntField(A), IntField(B).(optional := true, isUnique := true);
    ThirdPair(id, a, id, b, ID);
    FirstStops(l, Two(id, a, [], []), Three(id, a, b, ID, []), [AddColumn(NAME, b)], Table2(id, a));
  }

  /** Nor one that is the `@id`. */
  lemma IdCannotBeAdded(l: Lite)
    ensures var a, b, id := IntField(A).(isId := true), IntField(B), IdField(INT);
            var prev, next, all := Two(a, b, [], []), Three(IntField(A), b, id, ID, []), [AddColumn(NAME, id)];
            Start(prev, next, all, Table2(a, b)) && LiteExec(l, AddedBy(prev, next, all), Table2(a, b)).None?
  {
    NamesDiffer();
    var a, b, id := IntField(A).(isId := true), IntField(B), IdField(INT);
    ThirdPair(a, b, IntField(A), id, ID);
    FirstStops(l, Two(a, b, [], []), Three(IntField(A), b, id, ID, []), [AddColumn(NAME, id)], Table2(a, b));
  }

  // ---- A key that is rebuilt ------------------------------------------------------------------------

  /** The model with a block key over the former `@id` and another field. */
  function Composite(f: Field, g: Field, h: Field): Model {
    Three(f.(isId := false), g, h, f.name, []).(primary := [f.name, g.name])
  }

  lemma CompositeAlone(f: Field, g: Field, h: Field)
    requires Extends(f, g, f.(isId := false), h, f.name) && !g.optional && !h.isId
    ensures Alone(Composite(f, g, h))
  {
    ThreeAre(f.(isId := false), g, h, f.name, []);
    ThreeFields(f.(isId := false), g, h, f.name, []);
    var m := Composite(f, g, h);
    forall n | m.fields.Has(n) ensures !m.fields.Get(n).isId {}
  }

  lemma CompositeWithin(f: Field, g: Field, h: Field, c: Change)
    requires Extends(f, g, f.(isId := false), h, f.name)
    ensures EmittedWithin(NAME, Two(f, g, [], []), Composite(f, g, h), c) <==> c == AddColumn(NAME, h)
  {
    ExtendColumns(f, g, f.(isId := false), h, f.name, Composite(f, g, h), c);
  }

  lemma CompositePair(f: Field, g: Field, h: Field)
    requires Extends(f, g, f.(isId := false), h, f.name) && !g.optional && !h.isId
    ensures TidyPair(Only(Two(f, g, [], [])), Only(Composite(f, g, h)), [AddColumn(NAME, h)])
  {
    TwoAre(f, g, [], []);
    CompositeAlone(f, g, h);
    ExtendTidy(f, g, f.(isId := false), h, f.name, Composite(f, g, h));
    forall c ensures c in [AddColumn(NAME, h)] <==> EmittedWithin(NAME, Two(f, g, [], []), Composite(f, g, h), c) {
      CompositeWithin(f, g, h, c);
    }
    OnlyPair(Two(f, g, [], []), Composite(f, g, h), [AddColumn(NAME, h)]);
  }

  lemma BothKeys(f: Field, g: Field, h: Field)
    requires Extends(f, g, f.(isId := false), h, f.name) && f.isId
    ensures !OneKeyLeft(Composite(f, g, h), WithField(Two(f, g, [], []), h))
  {
    TwoFields(f, g, [], []);
    var made := WithField(Two(f, g, [], []), h);
    assert f.name in made.fields.entries && made.OwnsColumn(f.name) && made.fields.Get(f.name).isId;
  }

  lemma KeyTwice(l: Lite, f: Field, g: Field, h: Field)
    requires Extends(f, g, f.(isId := false), h, f.name) && !g.optional && !h.isId && f.isId && NeedsBackfill(h)
    requires !f.isUnique && !g.isUnique
    ensures var prev, next, all := Two(f, g, [], []), Composite(f, g, h), [AddColumn(NAME, h)];
            Start(prev, next, all, Table2(f, g)) && LiteExec(l, AddedBy(prev, next, all), Table2(f, g)).None?
  {
    var prev, next, all := Two(f, g, [], []), Composite(f, g, h), [AddColumn(NAME, h)];
    TwoAre(f, g, [], []);
    CompositeAlone(f, g, h);
    CompositePair(f, g, h);
    Table2Is(f, g);
    StartsFresh(prev, next, all, Table2(f, g));
    JustOne(h);
    BothKeys(f, g, h);
    FirstStops(l, prev, next, all, Table2(f, g));
  }

  /**
   A required column next to an `@id` that turns into a block key: the rebuild takes the
   columns from the old model and the key from the new one, and has two primary keys.
   */
  lemma KeyMadeTwice(l: Lite)
    ensures var id, a, b := IdField(INT), IntField(A), IntField(B);
            var prev, next, all := Two(id, a, [], []), Composite(id, a, b), [AddColumn(NAME, b)];
            Start(prev, next, all, Table2(id, a)) && LiteExec(l, AddedBy(prev, next, all), Table2(id, a)).None?
  {
    NamesDiffer();
    KeyTwice(l, IdField(INT), IntField(A), IntField(B));
  }

  // ---- An index that is created twice -------------------------------------------------------------------

  function IndexOn(g: FieldName): IndexDef {
    IndexDef("i", [g], 0)
  }

  function Indexed(f: Field, g: Field, h: Field): Model {
    Three(f, g, h, f.name, []).(indexes := [IndexOn(g.name)])
  }

  lemma IndexedAlone(f: Field, g: Field, h: Field)
    requires Extends(f, g, f, h, f.name)
    ensures Alone(Indexed(f, g, h))
  {
    ThreeAre(f, g, h, f.name, []);
    ThreeFields(f, g, h, f.name, []);
    OneDefSound(Indexed(f, g, h), {f.name, g.name, h.name});
  }

  lemma IndexedPair(f: Field, g: Field, h: Field)
    requires Extends(f, g, f, h, f.name)
    ensures TidyPair(Only(Two(f, g, [], [])), Only(Indexed(f, g, h)), [AddColumn(NAME, h), CreateIndex(NAME, IndexOn(g.name))])
  {
    var p, q, all := Two(f, g, [], []), Indexed(f, g, h), [AddColumn(NAME, h), CreateIndex(NAME, IndexOn(g.name))];
    TwoAre(f, g, [], []);
    IndexedAlone(f, g, h);
    ExtendTidy(f, g, f, h, f.name, q);
    forall c ensures c in all <==> EmittedWithin(NAME, p, q, c) {
      ExtendColumns(f, g, f, h, f.name, q, c);
      assert EmittedIndex(NAME, p, q, c) <==> c == CreateIndex(NAME, IndexOn(g.name));
    }
    OnlyPair(p, q, all);
  }

  lemma IndexedOk(l: Lite, f: Field, g: Field, h: Field)
    requires Extends(f, g, f, h, f.name) && f.isId && !h.isUnique && NeedsBackfill(h) && h.HasColumn()
    ensures AddOk(l, Only(Indexed(f, g, h)), Indexed(f, g, h), Two(f, g, [], []), h, 0)
    ensures TargetOk(Indexed(f, g, h), Two(f, g, [], []))
  {
    TwoFields(f, g, [], []);
    var target, made := Indexed(f, g, h), WithField(Two(f, g, [], []), h);
    assert AllReached(Only(target), target, made);
    assert forall n :: made.OwnsColumn(n) && made.fields.Get(n).isId ==> n == f.name;
  }

  lemma RebuildMakesIndex(f: Field, g: Field, h: Field)
    requires Extends(f, g, f, h, f.name) && NeedsBackfill(h)
    ensures IndexNamed(IndexesAfter(Indexed(f, g, h), Two(f, g, [], []), [h], {}), "i")
  {
    var target, source := Indexed(f, g, h), Two(f, g, [], []);
    TwoAre(f, g, [], []);
    TwoFields(f, g, [], []);
    MadeEntries(source, h);
    var made := Made(source, h);
    assert IndexOn(g.name) in target.indexes && IndexOf(made, IndexOn(g.name), false) in Possible(made, target.indexes, false);
    LastRebuildDecides(target, source, [], h, [], {});
    assert [] + [h] + [] == [h];
  }

  lemma IndexTwice(l: Lite, f: Field, g: Field, h: Field)
    requires Extends(f, g, f, h, f.name) && f.isId && !f.isUnique && !g.isUnique && !h.isUnique && NeedsBackfill(h) && h.HasColumn()
    ensures var prev, next := Two(f, g, [], []), Indexed(f, g, h);
            var all := [AddColumn(NAME, h), CreateIndex(NAME, IndexOn(g.name))];
            && Start(prev, next, all, Table2(f, g)) && LiteExec(l, AddedBy(prev, next, all), Table2(f, g)).Some?
            && LiteExec(l, AddedBy(prev, next, all) + [Index("i", [g.column], false)], Table2(f, g)).None?
  {
    IndexedStart(f, g, h);
    IndexedOk(l, f, g, h);
    RebuildMakesIndex(f, g, h);
    OnceThenTwice(l, Only(Indexed(f, g, h)), Indexed(f, g, h), Two(f, g, [], []), h, Table2(f, g), "i", [g.column]);
  }

  lemma IndexedStart(f: Field, g: Field, h: Field)
    requires Extends(f, g, f, h, f.name) && f.isId && !f.isUnique && !g.isUnique && !h.isUnique
    ensures var all := [AddColumn(NAME, h), CreateIndex(NAME, IndexOn(g.name))];
            Start(Two(f, g, [], []), Indexed(f, g, h), all, Table2(f, g)) && FieldsFor(all, NAME) == [h]
  {
    var prev, next, all := Two(f, g, [], []), Indexed(f, g, h), [AddColumn(NAME, h), CreateIndex(NAME, IndexOn(g.name))];
    TwoAre(f, g, [], []);
    IndexedAlone(f, g, h);
    IndexedPair(f, g, h);
    Table2Is(f, g);
    StartsFresh(prev, next, all, Table2(f, g));
    OneAndIndex(h, IndexOn(g.name));
  }

  lemma OneAndIndex(h: Field, ix: IndexDef)
    ensures FieldsFor([AddColumn(NAME, h), CreateIndex(NAME, ix)], NAME) == [h]
  {
    OneFor(AddColumn(NAME, h), [CreateIndex(NAME, ix)]);
    assert [AddColumn(NAME, h)] + [CreateIndex(NAME, ix)] == [AddColumn(NAME, h), CreateIndex(NAME, ix)];
  }

  /** One add that runs, and an index that it has created. */
  lemma OnceThenTwice(l: Lite, next: Schema, target: Model, source: Model, h: Field, d: Disk, name: string, over: seq<string>)
    requires AllFresh(source, [h]) && TargetOk(target, source) && Physical(source, d)
    requires AddOk(l, next, target, source, h, d.table.value.rows) && IndexNamed(IndexesAfter(target, source, [h], d.indexes), name)
    ensures LiteExec(l, AddAll(next, target, source, [h]), d).Some?
    ensures LiteExec(l, AddAll(next, target, source, [h]) + [Index(name, over, false)], d).None?
  {
    assert [h][1..] == [];
    RunAddAll(l, next, target, source, [h], d);
    NewIndexTwice(l, next, target, source, [h], d, name, over, false);
  }

  /** An index that is new over an old column, next to a required add: the index phase creates it once more. */
  lemma IndexCreatedTwice(l: Lite)
    ensures var id, a, b := IdField(INT), IntField(A), IntField(B);
            var prev, next, all := Two(id, a, [], []), Indexed(id, a, b), [AddColumn(NAME, b), CreateIndex(NAME, IndexOn(A))];
            && Start(prev, next, all, Table2(id, a)) && LiteExec(l, AddedBy(prev, next, all), Table2(id, a)).Some?
            && LiteExec(l, AddedBy(prev, next, all) + [Index("i", ["a"], false)], Table2(id, a)).None?
  {
    NamesDiffer();
    IndexTwice(l, IdField(INT), IntField(A), IntField(B));
  }

  // ---- A unique over a column that is yet to come ---------------------------------------------------------

  function One(f: Field): Model {
    Account(IndexMap([f.name], map[f.name := f]), f.name, [], [])
  }

  function Table1(f: Field): Disk {
    Disk(Some(Table(0, map[f.column := Column(DefOf(Dialect.Sqlite, f), [])], {})), None, {})
  }

  lemma OneIs(f: Field)
    requires f.kind.Scalar? && !f.optional && !f.isUnique
    ensures var m := One(f);
            && Alone(m) && m.fields.keys == [f.name] && (forall n :: m.fields.Has(n) <==> n == f.name) && m.fields.Get(f.name) == f
            && (forall n :: m.OwnsColumn(n) <==> n == f.name) && Physical(m, Table1(f))
  {
    var m := One(f);
    assert InlineUniques(m) == {};
    assert m.OwnsColumn(f.name) && m.Column(f.name) == f.column;
  }

  function UniqueOn(h: FieldName): IndexDef {
    IndexDef("u", [h], 0)
  }

  /** Two more fields, the last of which is unique by a block. */
  function Grown(f: Field, g: Field, h: Field): Model {
    Three(f, g, h, f.name, [UniqueOn(h.name)])
  }

  predicate Grows(f: Field, g: Field, h: Field) {
    && Apart3(f, g, h, f.name) && !f.optional && !f.isUnique && f.isId
    && f.renamedFrom.None? && g.renamedFrom.None? && h.renamedFrom.None?
    && NeedsBackfill(g) && !g.isUnique && !h.isUnique && h.name.text == h.column
  }

  function GrownChanges(g: Field, h: Field): seq<Change> {
    [AddColumn(NAME, g), AddColumn(NAME, h), AddUnique(NAME, UniqueOn(h.name))]
  }

  lemma GrownRoles(f: Field, g: Field, h: Field)
    requires Grows(f, g, h)
    ensures var p, q := One(f), Grown(f, g, h);
            && (forall n :: Diff.Kept(p, q, n) <==> n == f.name) && (forall n :: Added(p, q, n) <==> n == g.name || n == h.name)
            && (forall n :: !Hinted(p, q, n) && !Dropped(p, q, n))
  {
    OneIs(f);
    ThreeFields(f, g, h, f.name, [UniqueOn(h.name)]);
  }

  lemma GrownWithin(f: Field, g: Field, h: Field, c: Change)
    requires Grows(f, g, h)
    ensures EmittedWithin(NAME, One(f), Grown(f, g, h), c) <==> c in GrownChanges(g, h)
  {
    var p, q := One(f), Grown(f, g, h);
    OneIs(f);
    ThreeFields(f, g, h, f.name, [UniqueOn(h.name)]);
    GrownRoles(f, g, h);
    assert ColumnAspects(f, f) == [];
    assert EmittedColumn(NAME, p, q, c) <==> c == AddColumn(NAME, g) || c == AddColumn(NAME, h);
    assert EmittedUnique(NAME, p, q, c) <==> c == AddUnique(NAME, UniqueOn(h.name));
  }

  lemma GrownPair(f: Field, g: Field, h: Field)
    requires Grows(f, g, h)
    ensures TidyPair(Only(One(f)), Only(Grown(f, g, h)), GrownChanges(g, h))
    ensures Alone(One(f)) && Alone(Grown(f, g, h))
  {
    OneIs(f);
    ThreeAre(f, g, h, f.name, [UniqueOn(h.name)]);
    ThreeFields(f, g, h, f.name, [UniqueOn(h.name)]);
    GrownRoles(f, g, h);
    forall c ensures c in GrownChanges(g, h) <==> EmittedWithin(NAME, One(f), Grown(f, g, h), c) {
      GrownWithin(f, g, h, c);
    }
    OnlyPair(One(f), Grown(f, g, h), GrownChanges(g, h));
  }

  lemma GrownFields(g: Field, h: Field)
    ensures FieldsFor(GrownChanges(g, h), NAME) == [g, h]
  {
    var all := GrownChanges(g, h);
    assert all[..2] == [AddColumn(NAME, g), AddColumn(NAME, h)] && all[..2][..1] == [AddColumn(NAME, g)] && all[..1][..0] == [];
    assert FieldsFor(all, NAME) == FieldsFor(all[..2], NAME);
    assert FieldsFor(all[..2], NAME) == FieldsFor(all[..1], NAME) + [h];
    assert FieldsFor(all[..1], NAME) == [g];
  }

  lemma MentionedEarly(l: Lite, f: Field, g: Field, h: Field)
    requires Grows(f, g, h)
    ensures !AddOk(l, Only(Grown(f, g, h)), Grown(f, g, h), One(f), g, 0) && TargetOk(Grown(f, g, h), One(f))
  {
    OneIs(f);
    var target, made := Grown(f, g, h), WithField(One(f), g);
    assert UniqueOn(h.name) in target.uniques && h.name in UniqueOn(h.name).targets;
    assert !HasColumnNamed(made, h.column);
    assert !Reaches(made, h.name);
  }

  lemma TooEarly(l: Lite, f: Field, g: Field, h: Field)
    requires Grows(f, g, h)
    ensures var prev, next, all := One(f), Grown(f, g, h), GrownChanges(g, h);
            Start(prev, next, all, Table1(f)) && LiteExec(l, AddedBy(prev, next, all), Table1(f)).None?
  {
    OneIs(f);
    GrownPair(f, g, h);
    StartsFresh(One(f), Grown(f, g, h), GrownChanges(g, h), Table1(f));
    GrownFields(g, h);
    MentionedEarly(l, f, g, h);
    FirstStops(l, One(f), Grown(f, g, h), GrownChanges(g, h), Table1(f));
  }

  /** Two required columns of which the second is in a unique: the rebuild for the first fails. */
  lemma UniqueTooEarly(l: Lite)
    ensures var id, b, c := IdField(INT), IntField(B), IntField(C);
            var prev, next, all := One(id), Grown(id, b, c), GrownChanges(b, c);
            Start(prev, next, all, Table1(id)) && LiteExec(l, AddedBy(prev, next, all), Table1(id)).None?
  {
    NamesDiffer();
    ColumnsDiffer();
    TooEarly(l, IdField(INT), IntField(B), IntField(C));
  }
}
