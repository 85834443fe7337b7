/**
 A unique whose column goes, as a concrete input: the field it is on takes over another column.
 */
module LostUnique {
  import opened Names
  import opened Ir
  import opened Catalogue
  import opened Diff
  import opened Plan
  import opened Effects
  import opened Tidy
  import opened Phases
  import opened Trace
  import opened Refine
  import opened Fates
  import opened Constraints
  import opened ConDiff
  import opened Outcome
  import opened ConRun
  import opened Migrate
  import opened Conform
  import opened Limits

  function FieldB(): Field {
    Field(B, "b", TEXT, false, None, None, false, false)
  }

  function UniqueOnA(): IndexDef {
    IndexDef("u", [A], 0)
  }

  function Before(): Model {
    Three(IdField(INT), FieldA("a", TEXT, None), FieldB(), ID, [UniqueOnA()])
  }

  /** Field `a` takes over the column of `b`, under this name. */
  function After(column: string, uniques: seq<IndexDef>): Model {
    Two(IdField(INT), FieldA(column, TEXT, None).(renamedFrom := Some(B)), [], uniques)
  }

  /** The old column of `a` goes, early if its name is wanted and late if not. */
  function TakeOver(column: string): seq<Change> {
    [DropColumn(NAME, "a"), RenameColumn(NAME, B, A, "b", column)]
  }

  predicate Fresh(column: string, uniques: seq<IndexDef>) {
    (column == "a" || column == "b") && (uniques == [] || uniques == [UniqueOnA()])
  }

  function ThreeColumns(d: Dialect): Catalog {
    Catalog(map["accounts" := 1],
            map[Key("accounts", "id") := Column(DefOf(d, IdField(INT)), [Of(1)]),
                Key("accounts", "a") := Column(DefOf(d, FieldA("a", TEXT, None)), [Of(2)]),
                Key("accounts", "b") := Column(DefOf(d, FieldB()), [Of(3)])],
            map[PrimaryOf("accounts") := OnColumns(["id"]), ConKey(UniqueCon, "accounts", "u") := OnColumns(["a"])], true)
  }

  lemma BeforeIs()
    ensures var m := Before();
            && Alone(m) && (forall n :: m.fields.Has(n) <==> n == ID || n == A || n == B)
            && (forall n :: m.OwnsColumn(n) <==> n == ID || n == A || n == B)
            && m.fields.Get(ID) == IdField(INT) && m.fields.Get(A) == FieldA("a", TEXT, None) && m.fields.Get(B) == FieldB()
            && m.fields.keys == [ID, A, B] && m.primary == [ID] && m.indexes == [] && m.uniques == [UniqueOnA()]
            && TargetColumns(m, [A]) == ["a"] && TargetColumns(m, [ID]) == ["id"]
  {
    NamesDiffer();
    ThreeFields(IdField(INT), FieldA("a", TEXT, None), FieldB(), ID, [UniqueOnA()]);
    ThreeAre(IdField(INT), FieldA("a", TEXT, None), FieldB(), ID, [UniqueOnA()]);
  }

  lemma AfterIs(column: string, uniques: seq<IndexDef>)
    requires Fresh(column, uniques)
    ensures var m := After(column, uniques);
            && Alone(m) && (forall n :: m.fields.Has(n) <==> n == ID || n == A) && (forall n :: m.OwnsColumn(n) <==> n == ID || n == A)
            && m.fields.Get(ID) == IdField(INT) && m.fields.Get(A) == FieldA(column, TEXT, None).(renamedFrom := Some(B))
            && m.fields.keys == [ID, A] && m.indexes == [] && m.uniques == uniques
  {
    NamesDiffer();
    TwoFields(IdField(INT), FieldA(column, TEXT, None).(renamedFrom := Some(B)), [], uniques);
    TwoAre(IdField(INT), FieldA(column, TEXT, None).(renamedFrom := Some(B)), [], uniques);
  }

  lemma TakeOverRoles(column: string, uniques: seq<IndexDef>)
    requires Fresh(column, uniques)
    ensures var p, q := Before(), After(column, uniques);
            && (forall n :: Hinted(p, q, n) <==> n == A) && (forall n :: Diff.Kept(p, q, n) <==> n == ID)
            && Source(p, q, A) == B && Source(p, q, ID) == ID && p.Column(B) == "b" && q.Column(A) == column
            && (forall n :: !Added(p, q, n)) && (forall o :: Dropped(p, q, o) <==> o == A) && (forall n :: !Alters(p, q, n))
            && p.Column(ID) == "id" && q.Column(ID) == "id"
  {
    NamesDiffer();
    BeforeIs();
    AfterIs(column, uniques);
    TakeOverHint(column, uniques);
    var p, q := Before(), After(column, uniques);
    assert ColumnAspects(FromField(p, q, A), q.fields.Get(A)) == [];
    assert ColumnAspects(FromField(p, q, ID), q.fields.Get(ID)) == [];
  }

  lemma TakeOverHint(column: string, uniques: seq<IndexDef>)
    requires Fresh(column, uniques)
    ensures var p, q := Before(), After(column, uniques);
            && (forall n :: Hinted(p, q, n) <==> n == A) && HintSource(q, A) == B && (forall o :: Consumed(p, q, o) <==> o == B)
  {
    BeforeIs();
    AfterIs(column, uniques);
    var p, q := Before(), After(column, uniques);
    assert Hinted(p, q, A) && HintSource(q, A) == B;
    assert A in q.fields.keys;
  }

  lemma TakeOverTidy(column: string, uniques: seq<IndexDef>)
    requires Fresh(column, uniques)
    ensures Alone(Before()) && Alone(After(column, uniques)) && TidyModel(Before(), After(column, uniques))
  {
    NamesDiffer();
    BeforeIs();
    AfterIs(column, uniques);
    TakeOverRoles(column, uniques);
  }

  lemma TakeOverMembers(column: string, c: Change)
    ensures c in TakeOver(column) <==> c == DropColumn(NAME, "a") || c == RenameColumn(NAME, B, A, "b", column)
    ensures c in TakeOver(column) + [DropUnique(NAME, "u")] <==> c in TakeOver(column) || c == DropUnique(NAME, "u")
  {}

  lemma TakeOverColumns(column: string, uniques: seq<IndexDef>, c: Change)
    requires Fresh(column, uniques)
    ensures EmittedColumn(NAME, Before(), After(column, uniques), c) <==> c in TakeOver(column)
  {
    BeforeIs();
    AfterIs(column, uniques);
    TakeOverRoles(column, uniques);
    TakeOverMembers(column, c);
    var p, q := Before(), After(column, uniques);
    assert EmittedDrop(NAME, p, q, c) <==> c == DropColumn(NAME, "a") by {
      assert A in p.fields.keys && Dropped(p, q, A) && p.Column(A) == "a";
    }
    assert !EmittedAdd(NAME, p, q, c);
    if c.AlterColumn? {
      assert !Alters(p, q, c.to.name);
    }
    assert EmittedRename(NAME, p, q, c) <==> c == RenameColumn(NAME, B, A, "b", column);
  }

  lemma TakeOverWithin(column: string, c: Change)
    requires column == "a" || column == "b"
    ensures EmittedWithin(NAME, Before(), After(column, [UniqueOnA()]), c) <==> c in TakeOver(column)
    ensures EmittedWithin(NAME, Before(), After(column, []), c) <==> c in TakeOver(column) + [DropUnique(NAME, "u")]
  {
    TakeOverColumns(column, [], c);
    TakeOverColumns(column, [UniqueOnA()], c);
    TakeOverMembers(column, c);
    TakeOverUniques(column, c);
  }

  lemma TakeOverUniques(column: string, c: Change)
    requires column == "a" || column == "b"
    ensures !EmittedUnique(NAME, Before(), After(column, [UniqueOnA()]), c)
    ensures !EmittedIndex(NAME, Before(), After(column, [UniqueOnA()]), c)
    ensures EmittedUnique(NAME, Before(), After(column, []), c) <==> c == DropUnique(NAME, "u")
    ensures !EmittedIndex(NAME, Before(), After(column, []), c)
  {
    assert Before().uniques == [UniqueOnA()] && Before().indexes == [] && After(column, []).indexes == [];
    assert UniqueOnA() in Before().uniques;
  }

  lemma TakeOverOnce(column: string)
    ensures NoDup(TakeOver(column)) && forall c :: c in TakeOver(column) ==> c.DropColumn? || c.RenameColumn?
  {}

  lemma TakeOverPair(column: string)
    requires column == "a" || column == "b"
    ensures TidyPair(Only(Before()), Only(After(column, [UniqueOnA()])), TakeOver(column)) && Chosen(TakeOver(column), NONE)
  {
    TakeOverTidy(column, [UniqueOnA()]);
    TakeOverOnce(column);
    forall c ensures c in TakeOver(column) <==> EmittedWithin(NAME, Before(), After(column, [UniqueOnA()]), c) {
      TakeOverWithin(column, c);
    }
    OnlyPair(Before(), After(column, [UniqueOnA()]), TakeOver(column));
    NoModelChanges(TakeOver(column));
  }

  lemma TakeOverDropPair()
    ensures TidyPair(Only(Before()), Only(After("a", [])), TakeOver("a") + [DropUnique(NAME, "u")])
    ensures Chosen(TakeOver("a") + [DropUnique(NAME, "u")], NONE)
  {
    TakeOverTidy("a", []);
    var all := TakeOver("a") + [DropUnique(NAME, "u")];
    forall c ensures c in all <==> EmittedWithin(NAME, Before(), After("a", []), c) {
      TakeOverWithin("a", c);
    }
    OnlyPair(Before(), After("a", []), all);
    forall c | c in all ensures !c.CreateModel? && !c.DropModel? {
      TakeOverMembers("a", c);
    }
    NoModelChanges(all);
  }

  lemma ThreeColumnsCons(d: Dialect, k: ConKey, con: Con)
    ensures ConAt(ThreeColumns(d).cons, k) == Some(con) <==>
              k.table == "accounts" && (k.kind.PrimaryCon? || k.kind.UniqueCon?) && Wants(Only(Before()), NAME, k.kind, k.name, con)
  {
    BeforeIs();
    assert DefinedIn(Before(), Before().uniques, k.name, con) <==> k.name == "u" && con == OnColumns(["a"]) by {
      assert UniqueOnA() in Before().uniques;
    }
  }

  lemma ThreeColumnsThere(d: Dialect)
    ensures TableIs(d, Before(), "accounts", ThreeColumns(d))
  {
    BeforeIs();
    ThreeColumnsHold(d);
    var m := Before();
    assert m.Column(ID) == "id" && m.Column(A) == "a" && m.Column(B) == "b";
    assert HasColumnNamed(m, "id") && HasColumnNamed(m, "a") && HasColumnNamed(m, "b");
  }

  lemma OneCell(d: Dialect, f: Field, v: Value)
    ensures Fits(d, f, 1, Column(DefOf(d, f), [Of(v)]))
  {}

  lemma ThreeColumnsHold(d: Dialect)
    ensures var cat := ThreeColumns(d);
            && cat.rows["accounts"] == 1
            && (forall x :: Key("accounts", x) in cat.cols <==> x == "id" || x == "a" || x == "b")
            && Fits(d, IdField(INT), 1, cat.cols[Key("accounts", "id")])
            && Fits(d, FieldA("a", TEXT, None), 1, cat.cols[Key("accounts", "a")])
            && Fits(d, FieldB(), 1, cat.cols[Key("accounts", "b")])
  {
    NamesDiffer();
    OneCell(d, IdField(INT), 1);
    OneCell(d, FieldA("a", TEXT, None), 2);
    OneCell(d, FieldB(), 3);
    assert forall x :: Key("accounts", x) == Key("accounts", "id") <==> x == "id";
  }

  lemma ThreeColumnsConform(d: Dialect)
    ensures Conforms(d, Only(Before()), ThreeColumns(d))
  {
    BeforeIs();
    ThreeColumnsThere(d);
    forall k, con {
      ThreeColumnsCons(d, k, con);
    }
    assert Houses(d, Before(), ThreeColumns(d));
    HousesConforms(d, Before(), ThreeColumns(d));
  }

  /** The columns that stay are as they were, and hold no NULL. */
  lemma TakeOverReadyField(w: World, d: Dialect, column: string, uniques: seq<IndexDef>, n: FieldName)
    requires d.AltersDirectly() && Fresh(column, uniques) && Continued(Before(), After(column, uniques), n)
    ensures var p, q, cat := Before(), After(column, uniques), ThreeColumns(d);
            && !MovesAndAlters(p, q, n) && NullFree(p, q, n, "accounts", cat) && Convertible(w, d, p, q, n, "accounts", cat)
            && Rekeyable(w, d, p, q, n, "accounts", cat)
  {
    BeforeIs();
    AfterIs(column, uniques);
    TakeOverRoles(column, uniques);
    ThreeColumnsHold(d);
    assert n == ID ==> !Restated(Before(), After(column, uniques), n);
  }

  lemma TakeOverReadyModel(w: World, d: Dialect, column: string, uniques: seq<IndexDef>)
    requires d.AltersDirectly() && Fresh(column, uniques)
    requires TableIs(d, Before(), "accounts", ThreeColumns(d)) && TidyModel(Before(), After(column, uniques))
    requires Before().Valid() && After(column, uniques).Valid()
    ensures ReadyModel(w, d, Before(), After(column, uniques), "accounts", ThreeColumns(d))
  {
    TakeOverRoles(column, uniques);
    forall n | Continued(Before(), After(column, uniques), n) {
      TakeOverReadyField(w, d, column, uniques, n);
    }
  }

  lemma TakeOverReady(w: World, d: Dialect, column: string, uniques: seq<IndexDef>)
    requires d.AltersDirectly() && Fresh(column, uniques)
    ensures var prev, next := Only(Before()), Only(After(column, uniques));
            TidySchemas(prev, next) && Starts(d, prev, next, ThreeColumns(d)) && Ready(w, d, prev, next, ThreeColumns(d))
  {
    BeforeIs();
    AfterIs(column, uniques);
    TakeOverTidy(column, uniques);
    OnlyTidy(Before(), After(column, uniques));
    ThreeColumnsThere(d);
    OnlyIs(Before());
    OnlyIs(After(column, uniques));
    TakeOverReadyModel(w, d, column, uniques);
  }

  lemma TakeOverLists(column: string)
    ensures var all := TakeOver(column);
            FkDrops(all) == [] && KeyDrops(all) == [] && FkAdds(all) == [] && AlterList(all) == [] && Select(Adding, all, all) == []
  {
    var all := TakeOver(column);
    forall c | c in all ensures c.DropColumn? || c.RenameColumn? {
      TakeOverMembers(column, c);
    }
    EmptySelect(DroppingFks, all);
    EmptySelect(AddingFks, all);
    EmptySelect(DroppingIndexes, all);
    EmptySelect(DroppingUniques, all);
    EmptySelect(Altering, all);
    EmptySelect(Adding, all);
  }

  /** A rename of a required field that is not the `@id` is nobody's business. */
  lemma PlainRename(d: Dialect, next: Schema, c: Change, k: ConKey, con: Con)
    requires d.AltersDirectly() && WellNamed(next, c) && c.RenameColumn? && !RenameTo(next, c).isId && !RenameTo(next, c).optional
    requires con.OnColumns?
    ensures !ChangeObjects(d, next, c, k, con) && !KeyStmt(d, next, c)
  {}

  lemma TakeOverRename(d: Dialect, column: string, c: Change, k: ConKey, con: Con)
    requires d.AltersDirectly() && Fresh(column, [UniqueOnA()]) && con.OnColumns? && c in RenameList(TakeOver(column))
    ensures !ChangeObjects(d, Only(After(column, [UniqueOnA()])), c, k, con) && !KeyStmt(d, Only(After(column, [UniqueOnA()])), c)
  {
    AfterIs(column, [UniqueOnA()]);
    OnlyIs(After(column, [UniqueOnA()]));
    SelectMembers(Renaming, TakeOver(column), TakeOver(column));
    TakeOverMembers(column, c);
    PlainRename(d, Only(After(column, [UniqueOnA()])), c, k, con);
  }

  lemma TakeOverGains(d: Dialect, column: string)
    requires d.AltersDirectly() && Fresh(column, [UniqueOnA()])
    ensures GainedBy(d, Only(After(column, [UniqueOnA()])), RenameList(TakeOver(column))) == map[]
  {
    forall c | c in RenameList(TakeOver(column)) ensures !KeyStmt(d, Only(After(column, [UniqueOnA()])), c) {
      TakeOverRename(d, column, c, PrimaryOf("accounts"), OnColumns([]));
    }
    forall k ensures k !in GainedBy(d, Only(After(column, [UniqueOnA()])), RenameList(TakeOver(column))) {
      GainedKeys(d, Only(After(column, [UniqueOnA()])), RenameList(TakeOver(column)), k);
    }
  }

  lemma TakeOverFree(d: Dialect, column: string, k: ConKey, con: Con)
    requires d.AltersDirectly() && Fresh(column, [UniqueOnA()]) && con.OnColumns?
    ensures !Blocked(d, Only(After(column, [UniqueOnA()])), TakeOver(column), k, con)
  {
    var next, all := Only(After(column, [UniqueOnA()])), TakeOver(column);
    TakeOverLists(column);
    forall c, left: Con | c in RenameList(all) && left.OnColumns? ensures !ChangeObjects(d, next, c, k, left) {
      TakeOverRename(d, column, c, k, left);
    }
  }

  lemma TakeOverConsReady(w: World, d: Dialect, column: string, cons: map<ConKey, Con>)
    requires w.server == d && d.AltersDirectly() && Fresh(column, [UniqueOnA()]) && forall k :: k in cons ==> cons[k].OnColumns?
    ensures ConsReady(w, Only(After(column, [UniqueOnA()])), TakeOver(column), NONE, false, cons)
  {
    var next, all := Only(After(column, [UniqueOnA()])), TakeOver(column);
    TakeOverLists(column);
    forall k | k in cons ensures !Blocked(d, next, all, k, cons[k]) {
      TakeOverFree(d, column, k, cons[k]);
    }
    TakeOverGains(d, column);
    assert DroppedKeys(next, KeyDrops(all)) == {};
    assert Dying(NONE.drops, cons) == map[];
  }

  lemma NoFkAround(d: Dialect)
    ensures forall k :: k in ThreeColumns(d).cons ==> ThreeColumns(d).cons[k].OnColumns?
  {}

  lemma TakeOverIncomplete(d: Dialect, column: string)
    requires column == "a" || column == "b"
    ensures !Complete(d, Only(Before()), Only(After(column, [UniqueOnA()])))
  {
    var p, q := Before(), After(column, [UniqueOnA()]);
    BeforeIs();
    AfterIs(column, [UniqueOnA()]);
    TakeOverRoles(column, [UniqueOnA()]);
    OnlyIs(p);
    OnlyIs(q);
    assert UniqueOnA() in p.uniques && UniqueOnA() in q.uniques && A in UniqueOnA().targets;
    assert !KeepsDefs(p, q);
    assert !KeepsAll(d, Only(p), Only(q), NAME);
  }

  /**
   A unique that both schemas have is lost when its field takes over another column: the old
   column is dropped, early if the other one is renamed onto its name and late if the field
   follows the other's name, the unique goes with it, and nothing creates it again.
   */
  lemma UniqueIsLost(w: World, d: Dialect, column: string)
    requires w.server == d && d.AltersDirectly() && (column == "a" || column == "b")
    ensures var prev, next, all := Only(Before()), Only(After(column, [UniqueOnA()])), TakeOver(column);
            FallsShort(w, d, prev, next, all, NONE, ThreeColumns(d))
  {
    var prev, next, all := Only(Before()), Only(After(column, [UniqueOnA()])), TakeOver(column);
    TakeOverPair(column);
    ThreeColumnsConform(d);
    TakeOverReady(w, d, column, [UniqueOnA()]);
    NoFkAround(d);
    TakeOverConsReady(w, d, column, ThreeColumns(d).cons);
    TakeOverIncomplete(d, column);
    IncompleteFallsShort(w, d, prev, next, all, NONE, ThreeColumns(d));
  }

  lemma NoUniqueLeft(d: Dialect, next: Schema, all: seq<Change>)
    requires next == Only(After("a", [])) && all == TakeOver("a") + [DropUnique(NAME, "u")]
    ensures ConKey(UniqueCon, "accounts", "u") !in Early(d, next, all, ThreeColumns(d).cons)
  {
    AfterIs("a", []);
    OnlyIs(After("a", []));
    TakeOverShadows(all);
    EarlyKey(next, all, DropColumn(NAME, "a"));
    OneColumnLost(d, next, all, ThreeColumns(d).cons, ConKey(UniqueCon, "accounts", "u"), "a");
  }

  lemma TakeOverShadows(all: seq<Change>)
    requires all == TakeOver("a") + [DropUnique(NAME, "u")]
    ensures DropColumn(NAME, "a") in all && IsShadowedDrop(all, NAME, "a")
  {
    assert all[0] == DropColumn(NAME, "a") && all[1] == RenameColumn(NAME, B, A, "b", "a");
    assert all[1] in all;
    NamesDiffer();
  }

  /** A shadowed drop goes early. */
  lemma EarlyKey(next: Schema, all: seq<Change>, c: Change)
    requires c in all && c.DropColumn? && IsShadowedDrop(all, c.model, c.column) && next.models.Has(c.model)
    ensures Key(next.Table(c.model), c.column) in KeySet(EarlyGone(next, all))
  {
    SelectMembers(ClearingWay, all, all);
    var cs := Select(ClearingWay, all, all);
    assert c in cs;
    var i :| 0 <= i < |cs| && cs[i] == c;
    assert KeysDropped(next, cs)[i] == Key(next.Table(c.model), c.column);
  }

  /** A constraint on an early dropped column alone goes with it. */
  lemma OneColumnLost(d: Dialect, next: Schema, all: seq<Change>, cons: map<ConKey, Con>, k: ConKey, x: string)
    requires Key(k.table, x) in KeySet(EarlyGone(next, all)) && k in cons && cons[k] == OnColumns([x]) && !k.kind.PrimaryCon?
    ensures k !in Early(d, next, all, cons)
  {
    EarlyAt(d, next, all, cons, k);
    assert Left(KeySet(EarlyGone(next, all)), k.table, [x]) == [];
    assert x in [x];
  }

  lemma LostIsNotFound(w: World, next: Schema, all: seq<Change>, c: Change, cons: map<ConKey, Con>)
    requires c in FkDrops(all) + KeyDrops(all) && OnModel(next, c) && !MayBeMissing(w.server, c)
    requires ConKeyOf(next, c) !in Early(w.server, next, all, cons)
    ensures !ConsReady(w, next, all, NONE, false, cons)
  {
    assert !AllFound(w.server, next, FkDrops(all) + KeyDrops(all), Early(w.server, next, all, cons));
  }

  lemma UniqueDropFails(w: World, d: Dialect, next: Schema, all: seq<Change>)
    requires w.server == d && next == Only(After("a", [])) && all == TakeOver("a") + [DropUnique(NAME, "u")]
    ensures !ConsReady(w, next, all, NONE, false, ThreeColumns(d).cons)
  {
    NoUniqueLeft(d, next, all);
    TakeOverMembers("a", DropUnique(NAME, "u"));
    KeyAddIn(all, DropUnique(NAME, "u"));
    AfterIs("a", []);
    OnlyIs(After("a", []));
    LostIsNotFound(w, next, all, DropUnique(NAME, "u"), ThreeColumns(d).cons);
  }

  /** And if the new schema has no such unique, the plan stops: it drops by name what is gone already. */
  lemma LostUniqueCannotBeDropped(w: World, d: Dialect)
    requires w.server == d && d.AltersDirectly()
    ensures var prev, next, all := Only(Before()), Only(After("a", [])), TakeOver("a") + [DropUnique(NAME, "u")];
            && Fails(w, d, prev, next, all, ThreeColumns(d))
            && Starts(d, prev, next, ThreeColumns(d)) && Ready(w, d, prev, next, ThreeColumns(d))
  {
    var prev, next, all := Only(Before()), Only(After("a", [])), TakeOver("a") + [DropUnique(NAME, "u")];
    TakeOverDropPair();
    ThreeColumnsConform(d);
    TakeOverReady(w, d, "a", []);
    PlanMigrates(w, d, prev, next, all, NONE, false, ThreeColumns(d));
    UniqueDropFails(w, d, next, all);
  }
}
