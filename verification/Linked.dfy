/**
 Tidy pairs of schemas of two models, one of which refers to the other, on which the plan
 does not run, as concrete inputs.
 */
module Linked {
  import opened Names
  import opened Ir
  import opened Catalogue
  import opened Diff
  import opened Plan
  import opened Effects
  import opened Tidy
  import opened Trace
  import opened Fates
  import opened Constraints
  import opened Tables
  import opened ConDiff
  import opened Outcome
  import opened ConRun
  import opened Migrate
  import opened Conform
  import opened Limits

  const USER := ModelName("User")
  const POST := ModelName("Post")
  const CODE := FieldName("code")
  const BY := FieldName("by")
  const AUTHOR := FieldName("author")
  const POSTS := FieldName("posts")

  // ---- Users and their posts ---------------------------------------------------------------------

  function Code(): Field {
    Field(CODE, "code", TEXT, false, None, None, false, false)
  }

  /** The column of the foreign key. */
  function By(optional: bool): Field {
    Field(BY, "by", TEXT, optional, None, None, false, false)
  }

  function Author(optional: bool): Field {
    Field(AUTHOR, "author", Relation(USER), optional, None, None, false, false)
  }

  function Written(): Field {
    Field(POSTS, "posts", List(Relation(POST)), false, None, None, false, false)
  }

  /** The posts refer to this unique; `span` is where it is written. */
  function UniqueCode(span: nat): IndexDef {
    IndexDef("u", [CODE], span)
  }

  function User(span: nat): Model {
    Model(USER, "users", IndexMap([ID, CODE, POSTS], map[ID := IdField(INT), CODE := Code(), POSTS := Written()]),
          [ID], [], [UniqueCode(span)])
  }

  function Post(optional: bool): Model {
    Model(POST, "posts", IndexMap([ID, BY, AUTHOR], map[ID := IdField(INT), BY := By(optional), AUTHOR := Author(optional)]),
          [ID], [], [])
  }

  /** By default, an optional author is set to NULL with its user, and a required one keeps the user. */
  function Link(optional: bool): ResolvedRelation {
    ResolvedRelation("PostToUser", ManyToOne, POST, ["by"], AUTHOR, USER, "users", ["code"],
                     if optional then SetNull else Restrict, ReferentialAction.Cascade, "posts_by_fkey")
  }

  function Blog(span: nat, optional: bool): Schema {
    Schema(IndexMap([], map[]), IndexMap([USER, POST], map[USER := User(span), POST := Post(optional)]), [Link(optional)])
  }

  lemma TextsDiffer()
    ensures USER != POST && ID != CODE && ID != BY && ID != AUTHOR && ID != POSTS && CODE != POSTS && BY != AUTHOR
    ensures "id" != "code" && "id" != "by" && "users" != "posts"
  {
    assert "User"[0] != "Post"[0] && "id"[0] != "code"[0] && "id"[0] != "by"[0] && "id"[0] != "author"[0];
    assert "id"[0] != "posts"[0] && "code"[0] != "posts"[0] && "by"[0] != "author"[0] && "users"[0] != "posts"[0];
  }

  lemma UserIs(span: nat)
    ensures var m := User(span);
            && m.Valid() && m.HasOneKey() && SoundKey(m) && (forall n :: m.OwnsColumn(n) <==> n == ID || n == CODE)
            && (forall n :: m.fields.Has(n) <==> n == ID || n == CODE || n == POSTS)
            && m.fields.Get(ID) == IdField(INT) && m.fields.Get(CODE) == Code() && m.fields.Get(POSTS) == Written()
            && m.Column(ID) == "id" && m.Column(CODE) == "code"
            && (forall x :: HasColumnNamed(m, x) <==> x == "id" || x == "code")
            && TargetColumns(m, [ID]) == ["id"] && TargetColumns(m, [CODE]) == ["code"]
  {
    TextsDiffer();
    var m := User(span);
    assert m.OwnsColumn(ID) && m.OwnsColumn(CODE) && m.Column(ID) == "id" && m.Column(CODE) == "code";
  }

  lemma PostIs(optional: bool)
    ensures var m := Post(optional);
            && m.Valid() && m.HasOneKey() && SoundKey(m) && (forall n :: m.OwnsColumn(n) <==> n == ID || n == BY)
            && (forall n :: m.fields.Has(n) <==> n == ID || n == BY || n == AUTHOR)
            && m.fields.Get(ID) == IdField(INT) && m.fields.Get(BY) == By(optional) && m.fields.Get(AUTHOR) == Author(optional)
            && m.Column(ID) == "id" && m.Column(BY) == "by"
            && (forall x :: HasColumnNamed(m, x) <==> x == "id" || x == "by")
            && TargetColumns(m, [ID]) == ["id"]
  {
    TextsDiffer();
    var m := Post(optional);
    assert m.OwnsColumn(ID) && m.OwnsColumn(BY) && m.Column(ID) == "id" && m.Column(BY) == "by";
  }

  lemma BlogModels(span: nat, optional: bool)
    ensures var s := Blog(span, optional);
            && (forall m :: s.models.Has(m) <==> m == USER || m == POST)
            && s.models.Get(USER) == User(span) && s.models.Get(POST) == Post(optional)
            && s.Table(USER) == "users" && s.Table(POST) == "posts" && s.relations == [Link(optional)] && s.models.Valid()
  {
    TextsDiffer();
  }

  lemma BlogFk(span: nat, optional: bool, r: ResolvedRelation)
    ensures IsFk(Blog(span, optional), r) <==> r == Link(optional)
  {}

  lemma BlogSound(span: nat, optional: bool)
    ensures Blog(span, optional).Valid() && SoundConstraints(Blog(span, optional))
  {
    TextsDiffer();
    BlogModels(span, optional);
    UserIs(span);
    PostIs(optional);
    BlogGrounded(span, optional);
    forall r ensures IsFk(Blog(span, optional), r) <==> r == Link(optional) {
      BlogFk(span, optional, r);
    }
    BlogKeys(span, optional);
  }

  lemma BlogGrounded(span: nat, optional: bool)
    ensures GroundedFk(Blog(span, optional), Link(optional))
  {
    BlogModels(span, optional);
    UserIs(span);
    PostIs(optional);
  }

  lemma BlogKeys(span: nat, optional: bool)
    ensures forall m :: m in Blog(span, optional).models.entries ==>
              var q := Blog(span, optional).models.Get(m);
              && DistinctNames(q.indexes) && DistinctNames(q.uniques) && ColumnTargets(q, q.indexes) && ColumnTargets(q, q.uniques)
              && SoundKey(q) && KindsNamedApart(q)
  {
    BlogModels(span, optional);
    UserIs(span);
    PostIs(optional);
  }

  /** Neither a span nor a nullability makes a pair untidy. */
  lemma BlogTidy(span: nat, optional: bool, span2: nat, optional2: bool)
    ensures var prev, next := Blog(span, optional), Blog(span2, optional2);
            TidySchemas(prev, next) && TidyConstraints(prev, next)
  {
    BlogModels(span, optional);
    BlogModels(span2, optional2);
    BlogSound(span, optional);
    BlogSound(span2, optional2);
    TextsDiffer();
    UserTidy(span, span2);
    PostTidy(optional, optional2);
    forall r
      ensures IsFk(Blog(span, optional), r) <==> r == Link(optional)
      ensures IsFk(Blog(span2, optional2), r) <==> r == Link(optional2)
    {
      BlogFk(span, optional, r);
      BlogFk(span2, optional2, r);
    }
  }

  lemma UserRoles(span: nat, span2: nat)
    ensures var p, q := User(span), User(span2);
            && (forall n :: Diff.Kept(p, q, n) <==> n == ID || n == CODE)
            && (forall n :: !Hinted(p, q, n) && !Added(p, q, n) && !Dropped(p, q, n))
  {
    UserIs(span);
    UserIs(span2);
  }

  lemma UserTidy(span: nat, span2: nat)
    ensures TidyModel(User(span), User(span2))
  {
    UserIs(span);
    UserIs(span2);
    UserRoles(span, span2);
    TextsDiffer();
  }

  lemma UserColumns(span: nat, span2: nat, c: Change)
    ensures !EmittedColumn(USER, User(span), User(span2), c) && !EmittedIndex(USER, User(span), User(span2), c)
  {
    UserIs(span);
    UserIs(span2);
    UserRoles(span, span2);
    var p, q := User(span), User(span2);
    assert ColumnAspects(FromField(p, q, ID), q.fields.Get(ID)) == [] && ColumnAspects(FromField(p, q, CODE), q.fields.Get(CODE)) == [];
    assert !EmittedDrop(USER, p, q, c) && !EmittedAdd(USER, p, q, c) && !EmittedRename(USER, p, q, c);
  }

  lemma PostRoles(optional: bool, optional2: bool)
    ensures var p, q := Post(optional), Post(optional2);
            && (forall n :: Diff.Kept(p, q, n) <==> n == ID || n == BY)
            && (forall n :: !Hinted(p, q, n) && !Added(p, q, n) && !Dropped(p, q, n))
  {
    PostIs(optional);
    PostIs(optional2);
  }

  lemma PostTidy(optional: bool, optional2: bool)
    ensures TidyModel(Post(optional), Post(optional2))
  {
    PostIs(optional);
    PostIs(optional2);
    PostRoles(optional, optional2);
    TextsDiffer();
  }

  // ---- Their database -----------------------------------------------------------------------------

  const LINK_KEY := ConKey(ForeignKeyCon, "posts", "posts_by_fkey")
  const CODE_KEY := ConKey(UniqueCon, "users", "u")

  function BlogCons(optional: bool): map<ConKey, Con> {
    map[PrimaryOf("users") := OnColumns(["id"]), PrimaryOf("posts") := OnColumns(["id"]), CODE_KEY := OnColumns(["code"]),
        LINK_KEY := References(FkDefOf(Link(optional)))]
  }

  function Stored2(d: Dialect, optional: bool): Catalog {
    Catalog(map["users" := 0, "posts" := 0],
            map[Key("users", "id") := Column(DefOf(d, IdField(INT)), []), Key("users", "code") := Column(DefOf(d, Code()), []),
                Key("posts", "id") := Column(DefOf(d, IdField(INT)), []), Key("posts", "by") := Column(DefOf(d, By(optional)), [])],
            BlogCons(optional), true)
  }

  lemma StoredColumns(d: Dialect, optional: bool)
    ensures var cat := Stored2(d, optional);
            && (forall k :: k in cat.cols <==> k in {Key("users", "id"), Key("users", "code"), Key("posts", "id"), Key("posts", "by")})
            && cat.cols[Key("users", "id")].def == DefOf(d, IdField(INT)) && cat.cols[Key("users", "code")].def == DefOf(d, Code())
            && cat.cols[Key("posts", "id")].def == DefOf(d, IdField(INT)) && cat.cols[Key("posts", "by")].def == DefOf(d, By(optional))
            && (forall k :: k in cat.cols ==> cat.cols[k].cells == [])
            && (forall t :: t in cat.rows <==> t == "users" || t == "posts") && cat.rows["users"] == 0 && cat.rows["posts"] == 0
  {
    TextsDiffer();
  }

  lemma UserTable(d: Dialect, span: nat, optional: bool)
    ensures TableIs(d, User(span), "users", Stored2(d, optional))
  {
    TextsDiffer();
    StoredColumns(d, optional);
    UserIs(span);
  }

  lemma PostTable(d: Dialect, optional: bool)
    ensures TableIs(d, Post(optional), "posts", Stored2(d, optional))
  {
    TextsDiffer();
    StoredColumns(d, optional);
    PostIs(optional);
  }

  lemma StoredTables(d: Dialect, span: nat, optional: bool)
    ensures HasTables(d, Blog(span, optional), Stored2(d, optional))
  {
    TextsDiffer();
    BlogModels(span, optional);
    StoredColumns(d, optional);
    UserTable(d, span, optional);
    PostTable(d, optional);
    var s := Blog(span, optional);
    assert USER in s.models.entries && POST in s.models.entries;
    forall t ensures t in Stored2(d, optional).rows <==> IsTable(s, t) {}
  }

  lemma ConsAt(optional: bool, k: ConKey)
    ensures ConAt(BlogCons(optional), k) ==
            if k == PrimaryOf("users") || k == PrimaryOf("posts") then Some(OnColumns(["id"]))
            else if k == CODE_KEY then Some(OnColumns(["code"]))
            else if k == LINK_KEY then Some(References(FkDefOf(Link(optional)))) else None
  {
    TextsDiffer();
  }

  lemma BlogWants(span: nat, optional: bool, m: ModelName, kind: ConKind, x: string, con: Con)
    requires (m == USER || m == POST) && Blog(span, optional).models.Has(m)
    ensures Wants(Blog(span, optional), m, kind, x, con) <==>
            match kind
            case PrimaryCon => x == "" && con == OnColumns(["id"])
            case UniqueCon => m == USER && x == "u" && con == OnColumns(["code"])
            case ForeignKeyCon => m == POST && x == "posts_by_fkey" && con == References(FkDefOf(Link(optional)))
            case _ => false
  {
    TextsDiffer();
    BlogModels(span, optional);
    UserIs(span);
    PostIs(optional);
    assert UniqueCode(span) in User(span).uniques;
    BlogFk(span, optional, Link(optional));
    forall r {
      BlogFk(span, optional, r);
    }
  }

  lemma BlogConsAre(span: nat, optional: bool, m: ModelName)
    requires Blog(span, optional).models.Has(m)
    ensures ConsAre(Blog(span, optional), m, BlogCons(optional))
  {
    TextsDiffer();
    BlogModels(span, optional);
    var s, t := Blog(span, optional), Blog(span, optional).Table(m);
    forall kind: ConKind, x, con | !kind.InlineCon?
      ensures ConAt(BlogCons(optional), ConKey(kind, t, x)) == Some(con) <==> Wants(s, m, kind, x, con)
    {
      ConsAt(optional, ConKey(kind, t, x));
      BlogWants(span, optional, m, kind, x, con);
    }
    forall con ensures InlineAt(BlogCons(optional), t, con) <==> WantsInline(s.models.Get(m), con) {
      BlogWants(span, optional, m, InlineCon, "", con);
      forall x {
        ConsAt(optional, ConKey(InlineCon, t, x));
      }
    }
  }

  lemma BlogConforms(d: Dialect, span: nat, optional: bool)
    ensures Conforms(d, Blog(span, optional), Stored2(d, optional))
  {
    StoredTables(d, span, optional);
    forall m | Blog(span, optional).models.Has(m) {
      BlogConsAre(span, optional, m);
    }
  }

  // ---- What the diff has ----------------------------------------------------------------------------

  lemma OneKey(r: ResolvedRelation)
    requires !r.kind.ManyToMany?
    ensures ForeignKeys([r]) == map[r.name := r]
  {
    assert [r][..0] == [];
    assert ForeignKeys([]) == map[];
  }

  lemma BlogFkEmitted(span: nat, optional: bool, span2: nat, optional2: bool, c: Change)
    ensures EmittedForeignKey(Blog(span, optional), Blog(span2, optional2), c) <==>
              optional != optional2 && (c == AddForeignKey(POST, Link(optional2)) || c == DropForeignKey(POST, Link(optional)))
  {
    OneKey(Link(optional));
    OneKey(Link(optional2));
  }

  lemma PostColumns(optional: bool, optional2: bool, c: Change)
    ensures EmittedColumn(POST, Post(optional), Post(optional2), c) <==>
              optional != optional2 && c == AlterColumn(POST, By(optional), By(optional2), [NullabilityAspect])
  {
    PostIs(optional);
    PostIs(optional2);
    PostRoles(optional, optional2);
    TextsDiffer();
    var p, q := Post(optional), Post(optional2);
    assert ColumnAspects(FromField(p, q, ID), q.fields.Get(ID)) == [];
    assert ColumnAspects(FromField(p, q, BY), q.fields.Get(BY)) == if optional == optional2 then [] else [NullabilityAspect];
    assert !EmittedAdd(POST, p, q, c) && !EmittedDrop(POST, p, q, c) && !EmittedRename(POST, p, q, c);
    assert EmittedAlter(POST, p, q, c) ==> c.to.name == BY;
  }

  lemma PostWithin(optional: bool, optional2: bool, c: Change)
    ensures EmittedWithin(POST, Post(optional), Post(optional2), c) <==>
              optional != optional2 && c == AlterColumn(POST, By(optional), By(optional2), [NullabilityAspect])
  {
    PostColumns(optional, optional2, c);
    assert Post(optional).uniques == [] && Post(optional2).uniques == [];
    assert Post(optional).indexes == [] && Post(optional2).indexes == [];
  }

  lemma UserWithin(span: nat, span2: nat, c: Change)
    ensures EmittedWithin(USER, User(span), User(span2), c) <==>
              span != span2 && (c == DropUnique(USER, "u") || c == AddUnique(USER, UniqueCode(span2)))
  {
    UserColumns(span, span2, c);
    assert UniqueCode(span) in User(span).uniques && UniqueCode(span2) in User(span2).uniques;
  }

  lemma BlogEmitted(span: nat, optional: bool, span2: nat, optional2: bool, c: Change)
    ensures Emitted(Blog(span, optional), Blog(span2, optional2), c) <==>
              || (span != span2 && (c == DropUnique(USER, "u") || c == AddUnique(USER, UniqueCode(span2))))
              || (optional != optional2 && c == AlterColumn(POST, By(optional), By(optional2), [NullabilityAspect]))
              || (optional != optional2 && (c == AddForeignKey(POST, Link(optional2)) || c == DropForeignKey(POST, Link(optional))))
  {
    TextsDiffer();
    BlogModels(span, optional);
    BlogModels(span2, optional2);
    BlogFkEmitted(span, optional, span2, optional2, c);
    PostWithin(optional, optional2, c);
    UserWithin(span, span2, c);
  }

  // ---- A unique that only moved in its file --------------------------------------------------------

  /** Without column changes, every constraint is where it was when the constraint phases begin. */
  lemma NothingCarried(d: Dialect, next: Schema, all: seq<Change>, cons: map<ConKey, Con>)
    requires forall c :: c in all ==> !IsColumnChange(c)
    ensures Early(d, next, all, cons) == cons
  {
    EmptySelect(ClearingWay, all);
    EmptySelect(Renaming, all);
    EmptySelect(Altering, all);
    forall k | k in cons ensures CarriedOver(d, next, all, k, cons[k]) == Some(cons[k]) {
      ShiftedByNone(k, cons[k]);
    }
    assert Restored(d, next, all) == map[];
  }

  lemma NothingUnlinked(d: Dialect, next: Schema, all: seq<Change>, cons: map<ConKey, Con>)
    requires (forall c :: c in all ==> !IsColumnChange(c)) && FkDrops(all) == []
    ensures Unlinked(d, next, all, cons) == cons
  {
    NothingCarried(d, next, all, cons);
    NothingDropped(next, cons);
  }

  lemma HeldFails(w: World, next: Schema, all: seq<Change>, cons: map<ConKey, Con>, gone: set<ConKey>)
    requires (forall c :: c in all ==> !IsColumnChange(c)) && FkDrops(all) == []
    requires Held(w, cons, gone) && gone == DroppedKeys(next, KeyDrops(all))
    ensures !ConsReady(w, next, all, NONE, false, cons)
  {
    NothingUnlinked(w.server, next, all, cons);
  }

  lemma LinkHolds(w: World, optional: bool)
    requires w.server.AltersDirectly() && (w.server.Postgres? ==> w.relies(LINK_KEY, CODE_KEY))
    ensures Held(w, BlogCons(optional), {CODE_KEY})
  {
    var d, cons, need := w.server, BlogCons(optional), Need("users", ["code"]);
    forall k {
      ConsAt(optional, k);
    }
    TextsDiffer();
    assert need in Needs(d, LINK_KEY, FkDefOf(Link(optional)));
    assert ConAt(cons, CODE_KEY) == Some(OnColumns(["code"])) && Serves(d, need, CODE_KEY, cons[CODE_KEY]);
    forall k | k in cons - {CODE_KEY} ensures d.Mysql? ==> !Serves(d, need, k, cons[k]) {
      assert ConAt(cons, k).Some?;
      assert ["id"][0] != ["code"][0];
    }
    assert Loses(w, cons, {CODE_KEY}, LINK_KEY, need);
    assert ConAt(cons, LINK_KEY).Some?;
    assert Holds(w, cons, {CODE_KEY}, LINK_KEY);
  }

  function Moved(): seq<Change> {
    [DropUnique(USER, "u"), AddUnique(USER, UniqueCode(1))]
  }

  lemma PairOf(prev: Schema, next: Schema, all: seq<Change>)
    requires TidySchemas(prev, next) && TidyConstraints(prev, next) && NoDup(all) && forall c :: c in all <==> Emitted(prev, next, c)
    ensures TidyPair(prev, next, all)
  {}

  lemma MovedMembers(c: Change)
    ensures c in Moved() <==> c == DropUnique(USER, "u") || c == AddUnique(USER, UniqueCode(1))
    ensures NoDup(Moved()) && forall e :: e in Moved() ==> !IsColumnChange(e)
  {}

  lemma MovedPair()
    ensures TidyPair(Blog(0, false), Blog(1, false), Moved()) && Chosen(Moved(), NONE)
  {
    BlogTidy(0, false, 1, false);
    forall c ensures c in Moved() <==> Emitted(Blog(0, false), Blog(1, false), c) {
      MovedMembers(c);
      BlogEmitted(0, false, 1, false, c);
    }
    MovedMembers(DropUnique(USER, "u"));
    PairOf(Blog(0, false), Blog(1, false), Moved());
    NoModelChanges(Moved());
  }

  lemma MovedDrops()
    ensures FkDrops(Moved()) == [] && DroppedKeys(Blog(1, false), KeyDrops(Moved())) == {CODE_KEY}
  {
    var next, c := Blog(1, false), DropUnique(USER, "u");
    BlogModels(1, false);
    forall e ensures e in KeyDrops(Moved()) <==> e == c {
      MovedMembers(e);
      KeyAddIn(Moved(), e);
    }
    forall e | e in Moved() ensures !InPhase(DroppingFks, Moved(), e) {
      MovedMembers(e);
    }
    EmptySelect(DroppingFks, Moved());
    assert OnModel(next, c) && ConKeyOf(next, c) == CODE_KEY;
    assert forall k :: k in DroppedKeys(next, KeyDrops(Moved())) <==> k == CODE_KEY;
  }

  lemma MovedUnready(w: World)
    requires w.server.AltersDirectly() && (w.server.Postgres? ==> w.relies(LINK_KEY, CODE_KEY))
    ensures !ConsReady(w, Blog(1, false), Moved(), NONE, false, BlogCons(false))
  {
    MovedDrops();
    MovedMembers(DropUnique(USER, "u"));
    LinkHolds(w, false);
    HeldFails(w, Blog(1, false), Moved(), BlogCons(false), {CODE_KEY});
  }

  /**
   A unique that is written elsewhere in the file is dropped, to be added as it was, and the
   unchanged foreign key that depends on it does not let it go.
   */
  lemma UniqueIsHeld(w: World, d: Dialect)
    requires w.server == d && d.AltersDirectly() && (d.Postgres? ==> w.relies(LINK_KEY, CODE_KEY))
    ensures Fails(w, d, Blog(0, false), Blog(1, false), Moved(), Stored2(d, false))
  {
    MovedPair();
    BlogConforms(d, 0, false);
    MovedUnready(w);
    ConsUnreadyFails(w, d, Blog(0, false), Blog(1, false), Moved(), Stored2(d, false));
  }

  // ---- An optional relation that becomes required ---------------------------------------------------

  function Required(): seq<Change> {
    [AlterColumn(POST, By(true), By(false), [NullabilityAspect]), DropForeignKey(POST, Link(true)), AddForeignKey(POST, Link(false))]
  }

  lemma RequiredMembers(c: Change)
    ensures c in Required() <==>
              || c == AlterColumn(POST, By(true), By(false), [NullabilityAspect])
              || c == DropForeignKey(POST, Link(true)) || c == AddForeignKey(POST, Link(false))
    ensures NoDup(Required())
  {}

  lemma RequiredPair()
    ensures TidyPair(Blog(0, true), Blog(0, false), Required()) && Chosen(Required(), NONE)
  {
    BlogTidy(0, true, 0, false);
    forall c ensures c in Required() <==> Emitted(Blog(0, true), Blog(0, false), c) {
      RequiredMembers(c);
      BlogEmitted(0, true, 0, false, c);
    }
    RequiredMembers(DropForeignKey(POST, Link(true)));
    PairOf(Blog(0, true), Blog(0, false), Required());
    forall c | c in Required() ensures !c.CreateModel? && !c.DropModel? {
      RequiredMembers(c);
    }
    NoModelChanges(Required());
  }

  /** Making its column required meets the foreign key that may set it to NULL. */
  lemma RequiredObjects(c: Change)
    requires c == AlterColumn(POST, By(true), By(false), [NullabilityAspect])
    ensures ChangeObjects(Mysql, Blog(0, false), c, LINK_KEY, References(FkDefOf(Link(true))))
  {
    BlogModels(0, false);
  }

  /** An alter without any drop or rename around. */
  lemma AlterBlocks(d: Dialect, next: Schema, all: seq<Change>, c: Change, k: ConKey, con: Con)
    requires c in all && c.AlterColumn? && ChangeObjects(d, next, c, k, con)
    requires forall e :: e in all ==> !e.DropColumn? && !e.RenameColumn?
    ensures Blocked(d, next, all, k, con)
  {
    EmptySelect(ClearingWay, all);
    EmptySelect(Renaming, all);
    SelectMembers(Altering, all, all);
    ShiftedByNone(k, con);
    assert c in AlterList(all);
  }

  lemma RequiredBlocks()
    ensures Blocked(Mysql, Blog(0, false), Required(), LINK_KEY, References(FkDefOf(Link(true))))
  {
    var c := AlterColumn(POST, By(true), By(false), [NullabilityAspect]);
    RequiredObjects(c);
    forall e | e in Required() ensures !e.DropColumn? && !e.RenameColumn? {
      RequiredMembers(e);
    }
    RequiredMembers(c);
    AlterBlocks(Mysql, Blog(0, false), Required(), c, LINK_KEY, References(FkDefOf(Link(true))));
  }

  /**
   On MySQL, a relation whose default action turns from SET NULL to RESTRICT because it
   becomes required cannot be migrated: its column becomes NOT NULL before the foreign key
   that may set it to NULL is dropped. The tables need not have a row.
   */
  lemma RequiredTooEarly(w: World)
    requires w.server == Mysql
    ensures Fails(w, Mysql, Blog(0, true), Blog(0, false), Required(), Stored2(Mysql, true))
  {
    RequiredPair();
    BlogConforms(Mysql, 0, true);
    RequiredBlocks();
    ConsAt(true, LINK_KEY);
    BlockedFails(w, Mysql, Blog(0, true), Blog(0, false), Required(), Stored2(Mysql, true), LINK_KEY);
  }

  // ---- A reference to a block key of one field ------------------------------------------------------

  /** Users whose key is a block over one field. */
  function BlockUser(): Model {
    Model(USER, "users", IndexMap([ID, POSTS], map[ID := IdField(INT).(isId := false), POSTS := Written()]), [ID], [], [])
  }

  function Note(): Model {
    Model(POST, "posts", IndexMap([ID, BY, AUTHOR], map[ID := IdField(INT), BY := By(false).(kind := INT), AUTHOR := Author(false)]),
          [ID], [], [])
  }

  function NoteLink(): ResolvedRelation {
    ResolvedRelation("PostToUser", ManyToOne, POST, ["by"], AUTHOR, USER, "users", ["id"],
                     Restrict, ReferentialAction.Cascade, "posts_by_fkey")
  }

  function Notes(): Schema {
    Schema(IndexMap([], map[]), IndexMap([USER, POST], map[USER := BlockUser(), POST := Note()]), [NoteLink()])
  }

  function NotesCreated(): seq<Change> {
    [CreateModel(BlockUser()), CreateModel(Note())]
  }

  function NotesChanges(): seq<Change> {
    NotesCreated() + [AddForeignKey(POST, NoteLink())]
  }

  lemma BlockUserIs()
    ensures var m := BlockUser();
            m.Valid() && m.HasOneKey() && SoundKey(m) && HasColumnNamed(m, "id") && m.indexes == [] && m.uniques == [] && !RendersKey(m)
  {
    TextsDiffer();
    assert BlockUser().OwnsColumn(ID) && BlockUser().Column(ID) == "id";
  }

  lemma NoteIs()
    ensures var m := Note();
            m.Valid() && m.HasOneKey() && SoundKey(m) && HasColumnNamed(m, "by") && m.indexes == [] && m.uniques == []
  {
    NoteFields();
    assert Note().OwnsColumn(BY) && Note().Column(BY) == "by";
  }

  lemma NoteFields()
    ensures var m := Note();
            && m.fields.Valid() && (forall n :: m.fields.Has(n) <==> n == ID || n == BY || n == AUTHOR)
            && m.fields.Get(ID) == IdField(INT) && m.fields.Get(BY) == By(false).(kind := INT) && m.fields.Get(AUTHOR) == Author(false)
            && (forall n :: m.OwnsColumn(n) <==> n == ID || n == BY) && m.Column(ID) != m.Column(BY)
  {
    TextsDiffer();
  }

  lemma NotesModels()
    ensures var s := Notes();
            && (forall m :: s.models.Has(m) <==> m == USER || m == POST)
            && s.models.Get(USER) == BlockUser() && s.models.Get(POST) == Note()
            && s.Table(USER) == "users" && s.Table(POST) == "posts" && s.relations == [NoteLink()] && s.models.Valid()
            && (forall r :: IsFk(s, r) <==> r == NoteLink())
  {
    TextsDiffer();
  }

  lemma NotesDefined()
    ensures forall m :: m in Notes().models.entries ==>
              var q := Notes().models.Get(m);
              q.Valid() && q.HasOneKey() && q.indexes == [] && q.uniques == [] && SoundKey(q) && q.name == m
  {
    NotesModels();
    BlockUserIs();
    NoteIs();
  }

  lemma NotesGrounded()
    ensures GroundedFk(Notes(), NoteLink())
  {
    NotesModels();
    BlockUserIs();
    NoteIs();
  }

  lemma NotesSound()
    ensures Notes().Valid() && SoundConstraints(Notes())
  {
    TextsDiffer();
    NotesModels();
    NotesDefined();
    NotesGrounded();
  }

  lemma NotesEmitted(c: Change)
    ensures Emitted(Nothing(), Notes(), c) <==> c in NotesChanges()
  {
    NotesModels();
    OneKey(NoteLink());
    assert ForeignKeys([]) == map[];
    assert c in NotesChanges() <==> c == CreateModel(BlockUser()) || c == CreateModel(Note()) || c == AddForeignKey(POST, NoteLink());
  }

  lemma NotesOnce()
    ensures NoDup(NotesChanges()) && forall c :: c in NotesChanges() ==> !IsColumnChange(c) && (c.CreateModel? || c.AddForeignKey?)
  {
    TextsDiffer();
  }

  lemma CreatesOf(a: Model, b: Model, c: Change)
    requires !c.CreateModel? && !c.DropModel?
    ensures Chosen([CreateModel(a), CreateModel(b)] + [c], Choices([CreateModel(a), CreateModel(b)], [], {}))
  {
    var all := [CreateModel(a), CreateModel(b)] + [c];
    assert all == [CreateModel(a)] + ([CreateModel(b)] + [c]);
    assert all[1..] == [CreateModel(b)] + [c] && all[1..][1..] == [c] && [c][1..] == [];
    assert Select(Creating, all, [c]) == [];
    assert Select(Creating, all, all) == [CreateModel(a), CreateModel(b)];
    EmptySelect(DroppingTables, all);
  }

  lemma NotesPair()
    ensures TidyPair(Nothing(), Notes(), NotesChanges()) && Chosen(NotesChanges(), Choices(NotesCreated(), [], {}))
  {
    NotesSound();
    NothingIs(Postgres);
    NotesOnce();
    forall c ensures c in NotesChanges() <==> Emitted(Nothing(), Notes(), c) {
      NotesEmitted(c);
    }
    TidyFromNothing(Notes(), NotesChanges());
    CreatesOf(BlockUser(), Note(), AddForeignKey(POST, NoteLink()));
  }

  lemma TidyFromNothing(next: Schema, all: seq<Change>)
    requires next.Valid() && SoundConstraints(next) && NoDup(all) && forall c :: c in all <==> Emitted(Nothing(), next, c)
    ensures TidyPair(Nothing(), next, all)
  {
    NothingIs(Postgres);
    PairOf(Nothing(), next, all);
  }

  lemma KeylessKeys(m: Model)
    requires !RendersKey(m) && InlineUniques(m) == {} && m.uniques == []
    ensures CreatedKeys(m.table, KeysOfTable(m)) == map[]
  {}

  /** The created users have no key at all. */
  lemma NotesKeys(k: ConKey)
    ensures k in WithCreated(NotesCreated(), map[]) ==> k.table == "posts"
  {
    BlockUserIs();
    assert InlineUniques(BlockUser()) == {};
    KeylessKeys(BlockUser());
    CreatedTwo(BlockUser(), Note(), map[]);
    CreatedOn("posts", KeysOfTable(Note()));
  }

  lemma CreatedTwo(a: Model, b: Model, cons: map<ConKey, Con>)
    ensures WithCreated([CreateModel(a), CreateModel(b)], cons) ==
            cons + CreatedKeys(a.table, KeysOfTable(a)) + CreatedKeys(b.table, KeysOfTable(b))
  {
    CreatedOne(a, [CreateModel(b)], cons);
    CreatedOne(b, [], cons + CreatedKeys(a.table, KeysOfTable(a)));
    assert [CreateModel(a)] + [CreateModel(b)] == [CreateModel(a), CreateModel(b)];
    assert [CreateModel(b)] + [] == [CreateModel(b)];
  }

  lemma CreatedOne(a: Model, rest: seq<Change>, cons: map<ConKey, Con>)
    ensures WithCreated([CreateModel(a)] + rest, cons) == WithCreated(rest, cons + CreatedKeys(a.table, KeysOfTable(a)))
  {
    assert ([CreateModel(a)] + rest)[1..] == rest;
  }

  /** A created foreign key that finds no key. */
  lemma MissingKeyUnready(w: World, next: Schema, all: seq<Change>, o: Choices, cons: map<ConKey, Con>, c: Change)
    requires (forall e :: e in all ==> e.CreateModel? || e.AddForeignKey?) && c in all && IsFkAdd(c) && !KeyThere(w.server, c, cons)
    requires forall e :: e in o.drops ==> e.DropModel?
    ensures !ConsReady(w, next, all, o, false, cons)
  {
    SelectMembers(AddingFks, all, all);
    EmptySelect(DroppingFks, all);
    EmptySelect(DroppingIndexes, all);
    EmptySelect(DroppingUniques, all);
    EmptySelect(AddingUniques, all);
    EmptySelect(AddingIndexes, all);
    NothingUnlinked(w.server, next, all, cons);
    NothingDropped(next, cons);
    assert Keyed(w.server, next, all, cons) == cons;
    assert c in FkAdds(all);
  }

  lemma NotesUnready(w: World)
    ensures !ConsReady(w, Notes(), NotesChanges(), Choices(NotesCreated(), [], {}), false, WithCreated(NotesCreated(), map[]))
  {
    var cons, c := WithCreated(NotesCreated(), map[]), AddForeignKey(POST, NoteLink());
    NotesOnce();
    forall k | k in cons ensures k.table != "users" {
      NotesKeys(k);
      TextsDiffer();
    }
    assert !KeyThere(w.server, c, cons);
    MissingKeyUnready(w, Notes(), NotesChanges(), Choices(NotesCreated(), [], {}), cons, c);
  }

  /** A foreign key to a block key of one field cannot be created: there is no key. */
  lemma BlockKeyCannotBeReferred(w: World, d: Dialect)
    requires w.server == d && d.AltersDirectly()
    ensures var prev, next, all, o := Nothing(), Notes(), NotesChanges(), Choices(NotesCreated(), [], {});
            && TidyPair(prev, next, all) && Conforms(d, prev, Empty()) && Chosen(all, o) && Plannable(next, all, o)
            && Exec(w, PlanStmts(d, next, all, o, false), Empty()).None?
  {
    NotesPair();
    NothingIs(d);
    NotesUnready(w);
    PlanMigrates(w, d, Nothing(), Notes(), NotesChanges(), Choices(NotesCreated(), [], {}), false, Empty());
  }
}
