/**
 The order in which the planner drops tables (`models_to_drop` of `crates/migrate/src/plan.rs`).
 Its comparator is no order: it puts a referencing table before the one it refers to, and
 goes by name otherwise.
 */
module DropOrder {
  import opened Names
  import opened Ir
  import opened Catalogue
  import opened Diff
  import opened Plan
  import opened Trace
  import opened Fates
  import opened Tables
  import opened ConDiff
  import opened Outcome
  import opened ConRun
  import opened LateFks
  import opened Migrate
  import Limits

  datatype Order = Less | Equal | Greater

  function CompareText(a: string, b: string): Order {
    if a == [] then (if b == [] then Equal else Less)
    else if b == [] then Greater
    else if a[0] < b[0] then Less
    else if a[0] > b[0] then Greater
    else CompareText(a[1..], b[1..])
  }

  /** Some relation leads from the model of table `a` to that of table `b`. */
  predicate Refers(s: Schema, a: string, b: string) {
    exists r :: r in s.relations && s.models.Has(r.owner) && s.models.Has(r.target) &&
                s.Table(r.owner) == a && s.Table(r.target) == b
  }

  /** `table_dependency_order`. */
  function CompareTables(s: Schema, a: string, b: string): Order {
    if Refers(s, a, b) && !Refers(s, b, a) then Less
    else if Refers(s, b, a) && !Refers(s, a, b) then Greater
    else CompareText(a, b)
  }

  /** What any sort by comparisons of neighbours makes sure of. */
  predicate NeighboursSorted(s: Schema, drops: seq<Change>)
    requires forall c :: c in drops ==> c.DropModel?
  {
    forall i :: 0 <= i < |drops| - 1 ==> !CompareTables(s, drops[i].table, drops[i + 1].table).Greater?
  }

  predicate AllSorted(s: Schema, drops: seq<Change>)
    requires forall c :: c in drops ==> c.DropModel?
  {
    forall i, j :: 0 <= i < j < |drops| ==> !CompareTables(s, drops[i].table, drops[j].table).Greater?
  }

  /** No two of these tables refer to each other. */
  predicate Oneway(s: Schema, drops: seq<Change>)
    requires forall c :: c in drops ==> c.DropModel?
  {
    forall i, j :: 0 <= i < |drops| && 0 <= j < |drops| && i != j ==>
      !(Refers(s, drops[i].table, drops[j].table) && Refers(s, drops[j].table, drops[i].table))
  }

  lemma FkRefers(prev: Schema, m: ModelName, k: ConKey, con: Con, t: string)
    requires SoundConstraints(prev) && IsPrevFk(prev, m, k, con) && RefersTo(k, con, t)
    ensures Refers(prev, k.table, t)
  {
    var r :| IsFk(prev, r) && r.owner == m && r.constraintName == k.name && con == References(FkDefOf(r));
    assert GroundedFk(prev, r);
  }

  /** If the comparator is respected by every pair, not just by neighbours, the drops come in order. */
  lemma SortedInOrder(prev: Schema, cascade: set<string>, drops: seq<Change>, cons: map<ConKey, Con>)
    requires SoundConstraints(prev) && PrevFks(prev, cons) && forall c :: c in drops ==> c.DropModel?
    requires AllSorted(prev, drops) && Oneway(prev, drops)
    ensures InOrder(cascade, drops, Dying(drops, cons))
  {
    var dying := Dying(drops, cons);
    forall i, k | 0 <= i < |drops| && k in dying && RefersTo(k, dying[k], drops[i].table) && drops[i].table !in cascade
      ensures k.table in TablesOf(drops[..i])
    {
      var m :| IsPrevFk(prev, m, k, cons[k]);
      FkRefers(prev, m, k, cons[k], drops[i].table);
      var c :| c in drops && c.DropModel? && c.table == k.table;
      var j :| 0 <= j < |drops| && drops[j] == c;
      assert i != j && Refers(prev, drops[j].table, drops[i].table);
      assert CompareTables(prev, drops[i].table, drops[j].table).Greater?;
      assert j < i;
      assert drops[j] in drops[..i];
    }
  }

  // ---- Three tables -----------------------------------------------------------------------------------

  const P := ModelName("P")
  const Q := ModelName("Q")
  const R := ModelName("R")
  const ID := FieldName("id")
  const LINK := FieldName("link")

  function IdField(): Field {
    Field(ID, "id", Scalar(ScalarType.Int), false, None, None, false, true)
  }

  /** The relation field of `P` or `R`. */
  function LinkField(kind: FieldKind): Field {
    Field(LINK, "link", kind, false, None, None, false, false)
  }

  function IdFields(name: ModelName): IndexMap<FieldName, Field> {
    if name == Q then IndexMap([ID], map[ID := IdField()])
    else IndexMap([ID, LINK], map[ID := IdField(), LINK := LinkField(if name == P then List(Relation(R)) else Relation(P))])
  }

  function IdModel(name: ModelName, table: string): Model {
    Model(name, table, IdFields(name), [ID], [], [])
  }

  function RtoP(): ResolvedRelation {
    ResolvedRelation("RToP", ManyToOne, R, ["id"], LINK, P, "p", ["id"], NoAction, NoAction, "r_id_fkey")
  }

  /** Three models, of which the last refers to the first. */
  function Three(): Schema {
    Schema(IndexMap([], map[]),
           IndexMap([P, Q, R], map[P := IdModel(P, "p"), Q := IdModel(Q, "q"), R := IdModel(R, "r")]), [RtoP()])
  }

  function DropsInNameOrder(): seq<Change> {
    [DropModel(P, "p"), DropModel(Q, "q"), DropModel(R, "r")]
  }

  lemma NamesApart()
    ensures P != Q && Q != R && P != R && "p" != "q" && "q" != "r" && "p" != "r"
  {
    assert "P"[0] != "Q"[0] && "Q"[0] != "R"[0] && "P"[0] != "R"[0];
    assert "p"[0] != "q"[0] && "q"[0] != "r"[0] && "p"[0] != "r"[0];
  }

  lemma ThreeSorted()
    ensures NeighboursSorted(Three(), DropsInNameOrder())
  {
    NamesApart();
    var s := Three();
    forall a, b ensures Refers(s, a, b) ==> a == "r" && b == "p" {
      forall r | r in s.relations ensures r == RtoP() {}
    }
    assert CompareText("p", "q") == Less && CompareText("q", "r") == Less;
    assert CompareTables(s, "p", "q") == Less && CompareTables(s, "q", "r") == Less;
  }

  lemma IdModelIs(name: ModelName, table: string)
    ensures var m := IdModel(name, table);
            && m.Valid() && m.HasOneKey() && SoundKey(m) && m.name == name && m.table == table && m.indexes == [] && m.uniques == []
            && (forall n :: m.OwnsColumn(n) <==> n == ID) && m.Column(ID) == "id" && m.fields.Get(ID) == IdField()
            && (forall x :: HasColumnNamed(m, x) <==> x == "id")
            && (forall f :: f in m.primary ==> f == ID)
            && TargetColumns(m, m.primary) == ["id"]
            && (forall con :: !WantsInline(m, con))
  {
    var m := IdModel(name, table);
    assert "id"[0] != "link"[0];
    assert ID != LINK;
    assert m.OwnsColumn(ID) && m.Column(ID) == "id";
  }

  lemma ThreeModels()
    ensures var s := Three();
            && (forall m :: s.models.Has(m) <==> m == P || m == Q || m == R)
            && s.models.Get(P) == IdModel(P, "p") && s.models.Get(Q) == IdModel(Q, "q") && s.models.Get(R) == IdModel(R, "r")
            && s.models.Valid() && s.relations == [RtoP()]
            && s.Table(P) == "p" && s.Table(Q) == "q" && s.Table(R) == "r"
  {
    NamesApart();
  }

  lemma ThreeValid()
    ensures Three().Valid()
  {
    NamesApart();
    ThreeModels();
    IdModelIs(P, "p");
    IdModelIs(Q, "q");
    IdModelIs(R, "r");
  }

  lemma OnlyRtoP(r: ResolvedRelation)
    ensures IsFk(Three(), r) <==> r == RtoP()
  {
    ThreeModels();
  }

  lemma ThreeSound()
    ensures SoundConstraints(Three())
  {
    ThreeModels();
    forall m | Three().models.Has(m)
      ensures var q := Three().models.Get(m); q.indexes == [] && q.uniques == [] && SoundKey(q) && HasColumnNamed(q, "id")
    {
      IdModelIs(m, Three().Table(m));
    }
    forall r ensures IsFk(Three(), r) <==> r == RtoP() {
      OnlyRtoP(r);
    }
    assert GroundedFk(Three(), RtoP());
  }

  lemma ThreeModelChanges(c: Change)
    ensures EmittedModel(Three(), Limits.Nothing(), c) <==> c in DropsInNameOrder()
  {
    ThreeModels();
    Limits.NothingIs(Postgres);
    assert c in DropsInNameOrder() <==> c == DropModel(P, "p") || c == DropModel(Q, "q") || c == DropModel(R, "r");
  }

  lemma ThreeFkChanges(c: Change)
    ensures !EmittedForeignKey(Three(), Limits.Nothing(), c) && !EmittedEnum(Three(), Limits.Nothing(), c)
  {
    ThreeModels();
    Limits.NothingIs(Postgres);
    assert ForeignKeys(Limits.Nothing().relations) == map[];
    if c.DropForeignKey? && c.relation.name in ForeignKeys(Three().relations) {
      ThreeKeys(c.relation.name);
    }
  }

  lemma ThreeEmitted(c: Change)
    ensures Emitted(Three(), Limits.Nothing(), c) <==> c in DropsInNameOrder()
  {
    ThreeModelChanges(c);
    ThreeFkChanges(c);
  }

  lemma ThreeKeys(name: string)
    requires name in ForeignKeys(Three().relations)
    ensures ForeignKeys(Three().relations)[name] == RtoP()
  {
    ThreeModels();
    var relations := [RtoP()];
    assert relations[..|relations| - 1] == [];
    assert ForeignKeys(relations) == ForeignKeys([])[RtoP().name := RtoP()];
  }

  lemma ThreeTidy()
    ensures TidyPair(Three(), Limits.Nothing(), DropsInNameOrder())
  {
    ThreeValid();
    ThreeSound();
    Limits.NothingIs(Postgres);
    DropsOnce();
    forall c ensures c in DropsInNameOrder() <==> Emitted(Three(), Limits.Nothing(), c) {
      ThreeEmitted(c);
    }
    TidyAway(Three(), Limits.Nothing(), DropsInNameOrder());
  }

  lemma DropsOnce()
    ensures NoDup(DropsInNameOrder())
  {
    NamesApart();
  }

  /** Dropping everything is tidy. */
  lemma TidyAway(prev: Schema, next: Schema, all: seq<Change>)
    requires prev.Valid() && SoundConstraints(prev) && next.Valid() && SoundConstraints(next)
    requires (forall m :: !next.models.Has(m)) && NoDup(all) && forall c :: c in all <==> Emitted(prev, next, c)
    ensures TidyPair(prev, next, all)
  {
    forall r | IsFk(next, r) ensures next.models.Has(r.owner) {
      assert GroundedFk(next, r);
    }
  }

  /** The database of the three models, empty. */
  function ThreeTables(d: Dialect): Catalog {
    var column := Column(DefOf(d, IdField()), []);
    Catalog(map["p" := 0, "q" := 0, "r" := 0],
            map[Key("p", "id") := column, Key("q", "id") := column, Key("r", "id") := column],
            map[ConKey(PrimaryCon, "p", "") := OnColumns(["id"]), ConKey(PrimaryCon, "q", "") := OnColumns(["id"]),
                ConKey(PrimaryCon, "r", "") := OnColumns(["id"]),
                ConKey(ForeignKeyCon, "r", "r_id_fkey") := References(FkDefOf(RtoP()))],
            true)
  }

  lemma IdTable(d: Dialect, name: ModelName, t: string, cat: Catalog)
    requires t in cat.rows && cat.rows[t] == 0 && (forall x :: Key(t, x) in cat.cols <==> x == "id")
    requires cat.cols[Key(t, "id")] == Column(DefOf(d, IdField()), [])
    ensures TableIs(d, IdModel(name, t), t, cat)
  {
    IdModelIs(name, t);
  }

  lemma ThreeTableIs(d: Dialect, m: ModelName)
    requires Three().models.Has(m)
    ensures TableIs(d, Three().models.Get(m), Three().Table(m), ThreeTables(d))
  {
    NamesApart();
    ThreeModels();
    var t, cat := Three().Table(m), ThreeTables(d);
    assert forall x :: Key(t, x) in cat.cols <==> x == "id";
    assert cat.cols[Key(t, "id")] == Column(DefOf(d, IdField()), []);
    IdTable(d, m, t, cat);
  }

  lemma ThreeRows(t: string)
    ensures IsTable(Three(), t) <==> t == "p" || t == "q" || t == "r"
  {
    ThreeModels();
    assert P in Three().models.entries && Q in Three().models.entries && R in Three().models.entries;
  }

  lemma ThreeCatalog(d: Dialect)
    ensures var cat := ThreeTables(d);
            Sound(cat) && cat.checks && forall t :: t in cat.rows <==> t == "p" || t == "q" || t == "r"
  {}

  lemma ThreeHasTables(d: Dialect)
    ensures HasTables(d, Three(), ThreeTables(d))
  {
    ThreeCatalog(d);
    forall t ensures t in ThreeTables(d).rows <==> IsTable(Three(), t) {
      ThreeRows(t);
    }
    forall m | Three().models.Has(m) {
      ThreeTableIs(d, m);
    }
  }

  lemma ThreeConsAt(d: Dialect, m: ModelName, kind: ConKind, x: string)
    requires m == P || m == Q || m == R
    ensures ConAt(ThreeTables(d).cons, ConKey(kind, Three().Table(m), x)) ==
            if kind.PrimaryCon? && x == "" then Some(OnColumns(["id"]))
            else if kind.ForeignKeyCon? && m == R && x == "r_id_fkey" then Some(References(FkDefOf(RtoP())))
            else None
  {
    NamesApart();
    ThreeModels();
  }

  lemma ThreeWants(m: ModelName, kind: ConKind, x: string, con: Con)
    requires (m == P || m == Q || m == R) && Three().models.Has(m)
    ensures Wants(Three(), m, kind, x, con) <==>
            if kind.PrimaryCon? then x == "" && con == OnColumns(["id"])
            else kind.ForeignKeyCon? && m == R && x == "r_id_fkey" && con == References(FkDefOf(RtoP()))
  {
    ThreeModels();
    IdModelIs(P, "p");
    IdModelIs(Q, "q");
    IdModelIs(R, "r");
    forall r {
      OnlyRtoP(r);
    }
    assert WantsFk(Three(), m, x, con) <==> m == R && x == "r_id_fkey" && con == References(FkDefOf(RtoP()));
  }

  lemma ThreeConsAre(d: Dialect, m: ModelName)
    requires Three().models.Has(m)
    ensures ConsAre(Three(), m, ThreeTables(d).cons)
  {
    ThreeModels();
    var s, cons, t := Three(), ThreeTables(d).cons, Three().Table(m);
    IdModelIs(m, t);
    forall kind: ConKind, x, con | !kind.InlineCon?
      ensures ConAt(cons, ConKey(kind, t, x)) == Some(con) <==> Wants(s, m, kind, x, con)
    {
      ThreeConsAt(d, m, kind, x);
      ThreeWants(m, kind, x, con);
    }
    forall con ensures !InlineAt(cons, t, con) {
      forall x {
        ThreeConsAt(d, m, InlineCon, x);
      }
    }
  }

  lemma ThreeConforms(d: Dialect)
    ensures Conforms(d, Three(), ThreeTables(d))
  {
    ThreeHasTables(d);
    forall m | Three().models.Has(m) {
      ThreeConsAre(d, m);
    }
  }

  lemma OutOfOrder(d: Dialect)
    ensures !InOrder({}, DropsInNameOrder(), Dying(DropsInNameOrder(), ThreeTables(d).cons))
  {
    var all, cons, k := DropsInNameOrder(), ThreeTables(d).cons, ConKey(ForeignKeyCon, "r", "r_id_fkey");
    NamesApart();
    assert all[2] in all && "r" in TablesOf(all);
    assert k in Dying(all, cons) && RefersTo(k, cons[k], all[0].table);
    assert all[..0] == [];
  }

  lemma AllAreDrops()
    ensures Chosen(DropsInNameOrder(), Choices([], DropsInNameOrder(), {}))
  {
    var all := DropsInNameOrder();
    assert Select(Creating, all, all) == [];
    SelectAll(all, all);
  }

  lemma {:induction false} SelectAll(all: seq<Change>, cs: seq<Change>)
    requires forall c :: c in cs ==> c.DropModel?
    ensures Select(DroppingTables, all, cs) == cs
  {
    if cs != [] {
      assert cs[0] in cs && cs == [cs[0]] + cs[1..];
      SelectAll(all, cs[1..]);
    }
  }

  /**
   The comparator has nothing against the order p, q, r, and a sort that compares neighbours
   leaves it; but p is dropped while r still refers to it, and the plan stops there.
   */
  lemma NeighboursAreNotEnough(w: World, d: Dialect)
    requires w.server == d && d.AltersDirectly()
    ensures var prev, next, all, cat := Three(), Limits.Nothing(), DropsInNameOrder(), ThreeTables(d);
            var o := Choices([], all, {});
            && TidyPair(prev, next, all) && Conforms(d, prev, cat) && Chosen(all, o) && Plannable(next, all, o)
            && NeighboursSorted(prev, o.drops)
            && Exec(w, PlanStmts(d, next, all, o, false), cat).None?
  {
    ThreeSorted();
    ThreeTidy();
    ThreeConforms(d);
    AllAreDrops();
    OutOfOrder(d);
    PlanMigrates(w, d, Three(), Limits.Nothing(), DropsInNameOrder(), Choices([], DropsInNameOrder(), {}), false, ThreeTables(d));
  }
}
