/**
 Where the promises of relation resolution end: when the names of made-up join models clash,
 which names rule that out, and what happens when partners do not face each other.
 */
module Clashes {
  import opened Names
  import opened Ir
  import opened Links
  import opened Sides
  import opened Resolve
  import opened Relations

  // ---- Names that cannot clash -------------------------------------------------------------------------

  /** `t` occurs in `s` at `i`. */
  predicate OccursAt(s: string, t: string, i: nat) {
    i + |t| <= |s| && s[i..i + |t|] == t
  }

  /** Without `_`, and without the `To` that joins the two models' names. */
  ghost predicate PlainName(s: string) {
    '_' !in s && forall i: nat :: !OccursAt(s, "To", i)
  }

  ghost predicate PlainNames(ms: Models) {
    forall m :: ms.Has(m) ==> PlainName(m.text)
  }

  function Suffix(r: Option<string>): string {
    if r.Some? then "_" + r.value else ""
  }

  /** A `To` that ends a shorter first name lies within a longer one. */
  lemma ToWithin(a: string, b: string, c: string, d: string)
    requires a + "To" + b == c + "To" + d && |a| < |c|
    ensures OccursAt(c, "To", |a|)
  {
    var s, t := a + "To" + b, c + "To" + d;
    assert s[|a|] == 'T' && s[|a| + 1] == 'o' && t[|c|] == 'T';
    assert |a| + 1 < |c|;
    assert t[|a|] == c[|a|] && t[|a| + 1] == c[|a| + 1];
    assert c[|a|..|a| + 2] == "To";
  }

  lemma CutFirst(a: string, b: string, c: string, d: string)
    requires a + "To" + b == c + "To" + d && PlainName(a) && PlainName(c)
    ensures a == c && b == d
  {
    var s, t := a + "To" + b, c + "To" + d;
    if |a| < |c| {
      ToWithin(a, b, c, d);
    } else if |c| < |a| {
      ToWithin(c, d, a, b);
    } else {
      assert a == s[..|a|] && c == t[..|c|];
      assert b == s[|a| + 2..] && d == t[|c| + 2..];
    }
  }

  /** The suffix of a shorter second name begins within a longer one. */
  lemma SuffixWithin(b: string, r: Option<string>, d: string, q: Option<string>)
    requires b + Suffix(r) == d + Suffix(q) && |b| < |d|
    ensures '_' in d
  {
    assert (b + Suffix(r))[|b|] == d[|b|] == '_';
  }

  lemma CutSecond(b: string, r: Option<string>, d: string, q: Option<string>)
    requires b + Suffix(r) == d + Suffix(q) && '_' !in b && '_' !in d
    ensures b == d && r == q
  {
    var s, t := b + Suffix(r), d + Suffix(q);
    if |b| < |d| {
      SuffixWithin(b, r, d, q);
    } else if |d| < |b| {
      SuffixWithin(d, q, b, r);
    } else {
      assert b == s[..|b|] && d == t[..|d|];
      assert Suffix(r) == s[|b|..] && Suffix(q) == t[|d|..];
      assert r.Some? ==> r.value == Suffix(r)[1..];
      assert q.Some? ==> q.value == Suffix(q)[1..];
    }
  }

  lemma Regroup(a: string, b: string, s: string)
    ensures ("_" + a + "To" + b + s)[1..] == a + "To" + (b + s)
  {}

  /** Of plain names, the name of a join model tells the models and the relation apart. */
  lemma JoinNameTells(a: string, b: string, r: Option<string>, c: string, d: string, q: Option<string>)
    requires PlainName(a) && PlainName(b) && PlainName(c) && PlainName(d)
    requires "_" + a + "To" + b + Suffix(r) == "_" + c + "To" + d + Suffix(q)
    ensures a == c && b == d && r == q
  {
    Regroup(a, b, Suffix(r));
    Regroup(c, d, Suffix(q));
    CutFirst(a, b + Suffix(r), c, d + Suffix(q));
    CutSecond(b, r, d, q);
  }

  /** Partners that face each other are grouped by the models that name their join model. */
  lemma KeyOfOpposite(s: Side, t: Side)
    requires Opposite(s, t)
    ensures KeyOf(s) == GroupKey(s.relName, FirstOf(s, t), SecondOf(s, t))
  {}

  /** With plain names, and partners that face each other, no two implicit relations share a join model. */
  lemma PlainNamesApart(ms: Models)
    requires PlainNames(ms) && AllOpposite(ms)
    ensures NoClash(ms)
  {
    forall s, t, u, v | ListPartners(ms, s, t) && ListPartners(ms, u, v) && KeyOf(s) != KeyOf(u)
      ensures JoinName(s, t) != JoinName(u, v)
    {
      KeyOfOpposite(s, t);
      KeyOfOpposite(u, v);
      if JoinName(s, t) == JoinName(u, v) {
        assert JoinName(s, t).text == "_" + FirstOf(s, t).text + "To" + SecondOf(s, t).text + Suffix(s.relName);
        assert JoinName(u, v).text == "_" + FirstOf(u, v).text + "To" + SecondOf(u, v).text + Suffix(u.relName);
        JoinNameTells(FirstOf(s, t).text, SecondOf(s, t).text, s.relName, FirstOf(u, v).text, SecondOf(u, v).text, u.relName);
        assert false;
      }
    }
  }

  /** A made-up name begins with `_`. */
  lemma UnderscoreIsFree(ms: Models)
    requires forall m :: ms.Has(m) && m.text != "" ==> m.text[0] != '_'
    ensures JoinsUndeclared(ms)
  {
    forall s, t | ListPartners(ms, s, t) ensures !ms.Has(JoinName(s, t)) {
      assert JoinName(s, t).text[0] == '_';
    }
  }

  // ---- A clash -----------------------------------------------------------------------------------------

  const ID := FieldName("id")
  const XS := FieldName("xs")
  const YS := FieldName("ys")
  const MODEL_A := ModelName("A")
  const MODEL_B := ModelName("B")
  const MODEL_BX := ModelName("B_x")

  function IdField(): SchemaField {
    SchemaField("id", Plain(0), false, false)
  }

  function ListOf(target: ModelName, relName: Option<string>): SchemaField {
    SchemaField("", Many(RelationRef(target, relName, None, [], [], None)), false, false)
  }

  function WithId(table: string, names: seq<FieldName>, fields: map<FieldName, SchemaField>): SchemaModel {
    SchemaModel(table, IndexMap([ID] + names, fields[ID := IdField()]), [ID], [])
  }

  /** `A` and `B_x` with a list of each other, and `A` and `B` with lists of each other by the name of `x`. */
  function CollidingSchema(): Models {
    IndexMap([MODEL_A, MODEL_BX, MODEL_B],
             map[MODEL_A := WithId("as", [XS, YS], map[XS := ListOf(MODEL_BX, None), YS := ListOf(MODEL_B, Some("x"))]),
                 MODEL_BX := WithId("bxs", [XS], map[XS := ListOf(MODEL_A, None)]),
                 MODEL_B := WithId("bs", [YS], map[YS := ListOf(MODEL_A, Some("x"))])])
  }

  function ListSide(m: ModelName, f: FieldName, target: ModelName, relName: Option<string>): Side {
    Side(m, f, target, relName, None, false, true, false)
  }

  const LEFT := ListSide(MODEL_A, XS, MODEL_BX, None)
  const LEFT_BACK := ListSide(MODEL_BX, XS, MODEL_A, None)
  const RIGHT := ListSide(MODEL_A, YS, MODEL_B, Some("x"))
  const RIGHT_BACK := ListSide(MODEL_B, YS, MODEL_A, Some("x"))

  lemma NamesDiffer()
    ensures MODEL_A != MODEL_B && MODEL_A != MODEL_BX && MODEL_B != MODEL_BX
    ensures ID != XS && ID != YS && XS != YS
  {
    assert "A"[0] != "B"[0] && "A"[0] != "B_x"[0] && |"B"| != |"B_x"|;
    assert "id"[0] != "xs"[0] && "id"[0] != "ys"[0] && "xs"[0] != "ys"[0];
  }

  lemma CollidingFields(e: End)
    ensures IsRelation(CollidingSchema(), e) <==>
            e == EndOf(LEFT) || e == EndOf(LEFT_BACK) || e == EndOf(RIGHT) || e == EndOf(RIGHT_BACK)
    ensures IsRelation(CollidingSchema(), e) ==>
            var s := SideOf(CollidingSchema(), e);
            s == if e == EndOf(LEFT) then LEFT else if e == EndOf(LEFT_BACK) then LEFT_BACK else if e == EndOf(RIGHT) then RIGHT else RIGHT_BACK
  {
    NamesDiffer();
  }

  /** A model whose `id` is its key. */
  predicate HasId(m: SchemaModel) {
    m.primaryKey == [ID] && m.fields.Has(ID) && m.fields.Get(ID) == IdField()
  }

  lemma KeyedByIds(ms: Models)
    requires forall m :: ms.Has(m) ==> HasId(ms.Get(m))
    ensures AllKeyed(ms) && forall m :: ColumnKey(ms, m)
  {
    forall m | ms.Has(m) ensures Keyed(ms, m) && ColumnKey(ms, m) {
      assert HasId(ms.Get(m));
    }
  }

  lemma WithIdIsValid(table: string, names: seq<FieldName>, fields: map<FieldName, SchemaField>)
    requires (forall i, j :: 0 <= i < j < |names| ==> names[i] != names[j]) && ID !in names
    requires forall n :: n in names <==> n in fields
    ensures WithId(table, names, fields).fields.Valid() && HasId(WithId(table, names, fields))
  {}

  lemma CollidingTables()
    ensures var ms := CollidingSchema(); ms.Valid() && forall m :: ms.Has(m) ==> ms.Get(m).fields.Valid() && HasId(ms.Get(m))
  {
    NamesDiffer();
    WithIdIsValid("as", [XS, YS], map[XS := ListOf(MODEL_BX, None), YS := ListOf(MODEL_B, Some("x"))]);
    WithIdIsValid("bxs", [XS], map[XS := ListOf(MODEL_A, None)]);
    WithIdIsValid("bs", [YS], map[YS := ListOf(MODEL_A, Some("x"))]);
  }

  lemma CollidingJoins()
    ensures JoinsUndeclared(CollidingSchema())
  {
    assert "A"[0] != '_' && "B"[0] != '_' && "B_x"[0] != '_';
    UnderscoreIsFree(CollidingSchema());
  }

  lemma CollidingTarget(e: End)
    requires IsRelation(CollidingSchema(), e)
    ensures var ms := CollidingSchema();
            ms.Has(RefAt(ms, e).target) && RefAt(ms, e).resolved.None? && !RefusedAt(ms, e)
  {
    CollidingFields(e);
    NamesDiffer();
  }

  lemma CollidingLowered()
    ensures Lowered(CollidingSchema()) && AllKeyed(CollidingSchema())
    ensures forall e :: !RefusedAt(CollidingSchema(), e)
  {
    var ms := CollidingSchema();
    CollidingTables();
    KeyedByIds(ms);
    forall e | IsRelation(ms, e) ensures ms.Has(RefAt(ms, e).target) && RefAt(ms, e).resolved.None? && !RefusedAt(ms, e) {
      CollidingTarget(e);
    }
  }

  lemma CollidingPair(s: Side, t: Side)
    requires (s == LEFT && t == LEFT_BACK) || (s == LEFT_BACK && t == LEFT) || (s == RIGHT && t == RIGHT_BACK) || (s == RIGHT_BACK && t == RIGHT)
    ensures PairsWith(CollidingSchema(), s, t)
  {
    var ms := CollidingSchema();
    NamesDiffer();
    CollidingFields(EndOf(s));
    CollidingFields(EndOf(t));
    SameGroup(s, t);
    forall u | Partners(ms, s, u) ensures u == t {
      CollidingFields(EndOf(u));
      SameGroup(s, u);
    }
  }

  lemma CollidingFlawless()
    ensures Flawless(CollidingSchema())
  {
    var ms := CollidingSchema();
    CollidingLowered();
    forall s | IsRegular(ms, s) ensures exists t :: PairsWith(ms, s, t) {
      CollidingFields(EndOf(s));
      var t := if s == LEFT then LEFT_BACK else if s == LEFT_BACK then LEFT else if s == RIGHT then RIGHT_BACK else RIGHT;
      CollidingPair(s, t);
    }
    forall s ensures !IsJoined(ms, s) {
      CollidingFields(EndOf(s));
    }
  }

  /** A relation's name can be read as part of a model's. */
  lemma JoinNamesCollide()
    ensures ListPartners(CollidingSchema(), LEFT, LEFT_BACK) && ListPartners(CollidingSchema(), RIGHT, RIGHT_BACK)
    ensures KeyOf(LEFT) != KeyOf(RIGHT) && JoinName(LEFT, LEFT_BACK) == JoinName(RIGHT, RIGHT_BACK)
    ensures !NoClash(CollidingSchema())
  {
    CollidingPair(LEFT, LEFT_BACK);
    CollidingPair(RIGHT, RIGHT_BACK);
    SameGroup(LEFT, RIGHT);
    assert "_" + "A" + "To" + "B_x" + "" == "_" + "A" + "To" + "B" + ("_" + "x");
    assert 'A' < 'B' && "A"[0] == 'A' && "B"[0] == 'B' && "B_x"[0] == 'B';
    assert Le("A", "B_x") && Le("A", "B");
  }

  /** Such a schema resolves without complaint, and the two relations share a join model and its foreign keys. */
  method ClashGoesUnreported() returns (r: Work)
    ensures r.problems == [] && !OwnFields(r.entries) && !Paired(r.models, r.entries)
  {
    CollidingLowered();
    CollidingJoins();
    CollidingFlawless();
    JoinNamesCollide();
    r := ResolveRelations(CollidingSchema());
  }

  // ---- Partners that do not face each other ----------------------------------------------------------------

  const POST := ModelName("Post")
  const USER := ModelName("User")
  const AUTHOR := FieldName("author")
  const READERS := FieldName("readers")

  /** A model with a foreign key to `User` and, besides, a list of `User`; `User` has neither field. */
  function CrossedSchema(): Models {
    IndexMap([POST, USER],
             map[POST := WithId("posts", [AUTHOR, READERS],
                                map[AUTHOR := SchemaField("", One(RelationRef(USER, None, None, [ID], [ID], None)), false, false),
                                    READERS := ListOf(USER, None)]),
                 USER := WithId("users", [], map[])])
  }

  const OWNER := Side(POST, AUTHOR, USER, None, None, true, false, false)
  const LIST := ListSide(POST, READERS, USER, None)

  lemma CrossedNames()
    ensures POST != USER && ID != AUTHOR && ID != READERS && AUTHOR != READERS
  {
    assert "Post"[0] != "User"[0] && |"id"| != |"author"| && |"id"| != |"readers"| && |"author"| != |"readers"|;
  }

  lemma CrossedFields(e: End)
    ensures IsRelation(CrossedSchema(), e) <==> e == EndOf(OWNER) || e == EndOf(LIST)
    ensures IsRelation(CrossedSchema(), e) ==> SideOf(CrossedSchema(), e) == if e == EndOf(OWNER) then OWNER else LIST
  {
    CrossedNames();
    assert !RoutesThrough(CrossedSchema().Get(USER), POST);
  }

  lemma CrossedTables()
    ensures var ms := CrossedSchema(); ms.Valid() && forall m :: ms.Has(m) ==> ms.Get(m).fields.Valid() && HasId(ms.Get(m))
  {
    CrossedNames();
  }

  lemma CrossedJoins()
    ensures FreshJoins(CrossedSchema())
  {
    var ms := CrossedSchema();
    forall s, t ensures !ListPartners(ms, s, t) {
      CrossedFields(EndOf(s));
      CrossedFields(EndOf(t));
    }
  }

  lemma CrossedLowered()
    ensures Lowered(CrossedSchema()) && AllKeyed(CrossedSchema())
    ensures forall e :: !RefusedAt(CrossedSchema(), e)
  {
    var ms := CrossedSchema();
    CrossedTables();
    KeyedByIds(ms);
    forall e | IsRelation(ms, e) ensures ms.Has(RefAt(ms, e).target) && RefAt(ms, e).resolved.None? && !RefusedAt(ms, e) {
      CrossedFields(e);
    }
  }

  lemma CrossedPartners(s: Side, t: Side)
    requires (s == OWNER && t == LIST) || (s == LIST && t == OWNER)
    ensures PairsWith(CrossedSchema(), s, t) && !Opposite(s, t)
  {
    var ms := CrossedSchema();
    CrossedNames();
    CrossedFields(EndOf(s));
    CrossedFields(EndOf(t));
    SameGroup(s, t);
    CrossedOwnerIsGood();
    forall u | Partners(ms, s, u) ensures u == t {
      CrossedFields(EndOf(u));
    }
  }

  lemma CrossedOwnerIsGood()
    ensures GoodOwner(CrossedSchema(), OWNER)
  {
    CrossedNames();
    CrossedFields(EndOf(OWNER));
  }

  lemma CrossedFlawless()
    ensures Flawless(CrossedSchema()) && !AllOpposite(CrossedSchema())
  {
    var ms := CrossedSchema();
    CrossedLowered();
    CrossedPartners(OWNER, LIST);
    forall s | IsRegular(ms, s) ensures exists t :: PairsWith(ms, s, t) {
      CrossedFields(EndOf(s));
      CrossedPartners(s, if s == OWNER then LIST else OWNER);
    }
    forall s ensures !IsJoined(ms, s) {
      CrossedFields(EndOf(s));
    }
  }

  /** Two relation fields of one model that lead the same way are paired, without any problem being reported. */
  method CrossedPair() returns (r: Work)
    ensures r.problems == [] && Paired(r.models, r.entries) && !Coherent(r.models, r.entries)
  {
    CrossedLowered();
    CrossedJoins();
    CrossedFlawless();
    r := ResolveRelations(CrossedSchema());
  }
}
