/**
 A pair of schemas of two models whose added columns SQLite does not accept: a foreign key
 gets into the rebuilt table before its column does.
 */
module LiteLinks {
  import opened Names
  import opened Ir
  import opened Catalogue
  import opened Diff
  import opened Plan
  import opened Effects
  import opened Tidy
  import opened Trace
  import opened ConDiff
  import opened ConRun
  import opened Sqlite
  import opened LiteAdds
  import opened Limits
  import opened Linked

  const SLUG := FieldName("slug")
  const AUTHOR_ID := FieldName("authorId")

  function Slug(): Field {
    Field(SLUG, "slug", TEXT, false, None, None, false, false)
  }

  /** The field has a column of another name. */
  function AuthorId(): Field {
    Field(AUTHOR_ID, "author_id", INT, false, None, None, false, false)
  }

  /** Before anybody writes anything. */
  function BareUsers(): Model {
    Model(USER, "users", IndexMap([ID], map[ID := IdField(INT)]), [ID], [], [])
  }

  function BarePosts(): Model {
    Model(POST, "posts", IndexMap([ID], map[ID := IdField(INT)]), [ID], [], [])
  }

  function Users(): Model {
    Model(USER, "users", IndexMap([ID, POSTS], map[ID := IdField(INT), POSTS := Written()]), [ID], [], [])
  }

  function Posts(): Model {
    Model(POST, "posts",
          IndexMap([ID, SLUG, AUTHOR_ID, AUTHOR],
                   map[ID := IdField(INT), SLUG := Slug(), AUTHOR_ID := AuthorId(), AUTHOR := Author(false)]), [ID], [], [])
  }

  /** The author of a post. */
  function Authorship(): ResolvedRelation {
    ResolvedRelation("PostToUser", ManyToOne, POST, ["author_id"], AUTHOR, USER, "users", ["id"],
                     Restrict, ReferentialAction.Cascade, "posts_author_id_fkey")
  }

  function Bare(): Schema {
    Schema(IndexMap([], map[]), IndexMap([USER, POST], map[USER := BareUsers(), POST := BarePosts()]), [])
  }

  function Site(): Schema {
    Schema(IndexMap([], map[]), IndexMap([USER, POST], map[USER := Users(), POST := Posts()]), [Authorship()])
  }

  function SiteChanges(): seq<Change> {
    [AddColumn(POST, Slug()), AddColumn(POST, AuthorId()), AddForeignKey(POST, Authorship())]
  }

  /** The table of posts without rows. */
  function EmptyPosts(): Disk {
    Disk(Some(Table(0, map["id" := Column(DefOf(Dialect.Sqlite, IdField(INT)), [])], {})), None, {})
  }

  lemma SiteNames()
    ensures ID != SLUG && ID != AUTHOR_ID && SLUG != AUTHOR_ID && SLUG != AUTHOR && AUTHOR_ID != AUTHOR && ID != AUTHOR && ID != POSTS
    ensures USER != POST && "id" != "slug" && "id" != "author_id" && "slug" != "author_id" && "users" != "posts"
  {
    TextsDiffer();
    assert "id"[0] != "slug"[0] && "id"[0] != "authorId"[0] && "slug"[0] != "authorId"[0] && "slug"[0] != "author"[0];
    assert |"authorId"| != |"author"| && "id"[0] != "author_id"[0] && "slug"[0] != "author_id"[0];
  }

  /** A model whose only column is its key. */
  ghost predicate OnlyId(m: Model) {
    && m.Valid() && m.HasOneKey() && SoundKey(m) && (forall n :: m.OwnsColumn(n) <==> n == ID) && m.fields.Has(ID)
    && m.fields.Get(ID) == IdField(INT) && m.Column(ID) == "id" && (forall x :: HasColumnNamed(m, x) <==> x == "id")
    && m.indexes == [] && m.uniques == []
  }

  lemma BareUsersAre()
    ensures var m := BareUsers(); OnlyId(m) && forall n :: m.fields.Has(n) <==> n == ID
  {
    var m := BareUsers();
    assert m.OwnsColumn(ID) && m.Column(ID) == "id";
  }

  lemma BarePostsAre()
    ensures var m := BarePosts(); OnlyId(m) && forall n :: m.fields.Has(n) <==> n == ID
  {
    var m := BarePosts();
    assert m.OwnsColumn(ID) && m.Column(ID) == "id";
  }

  lemma UsersAre()
    ensures var m := Users(); OnlyId(m) && forall n :: m.fields.Has(n) <==> n == ID || n == POSTS
  {
    SiteNames();
    var m := Users();
    assert m.OwnsColumn(ID) && m.Column(ID) == "id";
  }

  lemma PostFields()
    ensures var m := Posts();
            && (forall n :: m.fields.Has(n) <==> n == ID || n == SLUG || n == AUTHOR_ID || n == AUTHOR)
            && m.fields.Get(ID) == IdField(INT) && m.fields.Get(SLUG) == Slug() && m.fields.Get(AUTHOR_ID) == AuthorId()
            && m.fields.Get(AUTHOR) == Author(false)
  {
    SiteNames();
  }

  lemma PostColumnsAre()
    ensures var m := Posts();
            && (forall n :: m.OwnsColumn(n) <==> n == ID || n == SLUG || n == AUTHOR_ID)
            && m.Column(ID) == "id" && m.Column(SLUG) == "slug" && m.Column(AUTHOR_ID) == "author_id"
  {
    PostFields();
  }

  lemma PostsAre()
    ensures var m := Posts();
            m.fields.Valid() && m.Valid() && m.HasOneKey() && SoundKey(m) && m.indexes == [] && m.uniques == []
    ensures forall x :: HasColumnNamed(Posts(), x) <==> x == "id" || x == "slug" || x == "author_id"
  {
    SiteNames();
    PostFields();
    PostColumnsAre();
    var m := Posts();
    assert m.OwnsColumn(ID) && m.OwnsColumn(SLUG) && m.OwnsColumn(AUTHOR_ID);
  }

  lemma BareModels()
    ensures var s := Bare();
            && (forall m :: s.models.Has(m) <==> m == USER || m == POST)
            && s.models.Get(USER) == BareUsers() && s.models.Get(POST) == BarePosts()
            && s.Table(USER) == "users" && s.Table(POST) == "posts" && s.models.Valid() && (forall r :: !IsFk(s, r))
  {
    SiteNames();
  }

  lemma SiteModels()
    ensures var s := Site();
            && (forall m :: s.models.Has(m) <==> m == USER || m == POST)
            && s.models.Get(USER) == Users() && s.models.Get(POST) == Posts()
            && s.Table(USER) == "users" && s.Table(POST) == "posts" && s.models.Valid()
            && (forall r :: IsFk(s, r) <==> r == Authorship())
  {
    SiteNames();
  }

  lemma BareSound()
    ensures Bare().Valid() && SoundConstraints(Bare())
  {
    SiteNames();
    BareModels();
    BareUsersAre();
    BarePostsAre();
  }

  lemma SiteGrounded()
    ensures GroundedFk(Site(), Authorship())
  {
    SiteModels();
    UsersAre();
    PostsAre();
  }

  /** Both models have a sound key, and neither has indexes or uniques. */
  lemma SiteKeys()
    ensures forall m :: m in Site().models.entries ==>
              var q := Site().models.Get(m); q.Valid() && q.HasOneKey() && SoundKey(q) && q.indexes == [] && q.uniques == []
  {
    SiteModels();
    UsersAre();
    PostsAre();
  }

  lemma SiteSound()
    ensures Site().Valid() && SoundConstraints(Site())
  {
    SiteNames();
    SiteModels();
    SiteKeys();
    SiteGrounded();
  }

  lemma UsersTidy()
    ensures TidyModel(BareUsers(), Users())
    ensures var p, q := BareUsers(), Users();
            && (forall n :: Diff.Kept(p, q, n) <==> n == ID) && (forall n :: !Hinted(p, q, n) && !Added(p, q, n) && !Dropped(p, q, n))
  {
    BareUsersAre();
    UsersAre();
  }

  lemma PostRoles()
    ensures var p, q := BarePosts(), Posts();
            && (forall n :: Diff.Kept(p, q, n) <==> n == ID) && (forall n :: Added(p, q, n) <==> n == SLUG || n == AUTHOR_ID)
            && (forall n :: !Hinted(p, q, n) && !Dropped(p, q, n))
  {
    SiteNames();
    BarePostsAre();
    PostFields();
    PostColumnsAre();
  }

  lemma PostsTidy()
    ensures TidyModel(BarePosts(), Posts())
  {
    SiteNames();
    BarePostsAre();
    PostColumnsAre();
    PostRoles();
  }

  lemma SiteTidy()
    ensures TidySchemas(Bare(), Site()) && TidyConstraints(Bare(), Site())
  {
    SiteNames();
    BareModels();
    SiteModels();
    BareSound();
    SiteSound();
    UsersTidy();
    PostsTidy();
  }

  lemma UsersWithin(c: Change)
    ensures !EmittedWithin(USER, BareUsers(), Users(), c)
  {
    BareUsersAre();
    UsersAre();
    UsersTidy();
    var p, q := BareUsers(), Users();
    assert ColumnAspects(FromField(p, q, ID), q.fields.Get(ID)) == [];
    assert !EmittedDrop(USER, p, q, c) && !EmittedAdd(USER, p, q, c) && !EmittedRename(USER, p, q, c);
    assert !EmittedColumn(USER, p, q, c);
  }

  lemma PostColumns(c: Change)
    ensures EmittedColumn(POST, BarePosts(), Posts(), c) <==>
              c == AddColumn(POST, Slug()) || c == AddColumn(POST, AuthorId())
  {
    PostFields();
    PostRoles();
    var p, q := BarePosts(), Posts();
    assert ColumnAspects(FromField(p, q, ID), q.fields.Get(ID)) == [];
    assert EmittedAdd(POST, p, q, c) <==> c == AddColumn(POST, Slug()) || c == AddColumn(POST, AuthorId());
    assert !EmittedDrop(POST, p, q, c) && !EmittedRename(POST, p, q, c);
  }

  lemma PostsWithin(c: Change)
    ensures EmittedWithin(POST, BarePosts(), Posts(), c) <==>
              c == AddColumn(POST, Slug()) || c == AddColumn(POST, AuthorId())
  {
    PostColumns(c);
    assert BarePosts().uniques == [] && Posts().uniques == [] && BarePosts().indexes == [] && Posts().indexes == [];
  }

  lemma SiteEmitted(c: Change)
    ensures Emitted(Bare(), Site(), c) <==> c in SiteChanges()
  {
    BareModels();
    SiteModels();
    UsersWithin(c);
    PostsWithin(c);
    OneKey(Authorship());
    assert ForeignKeys([]) == map[];
    assert EmittedForeignKey(Bare(), Site(), c) <==> c == AddForeignKey(POST, Authorship());
  }

  lemma SitePair()
    ensures TidyPair(Bare(), Site(), SiteChanges())
  {
    SiteTidy();
    SiteDiff();
  }

  lemma SiteDiff()
    ensures IsDiff(Bare(), Site(), SiteChanges())
  {
    forall c ensures c in SiteChanges() <==> Emitted(Bare(), Site(), c) {
      SiteEmitted(c);
    }
    SiteOnce();
  }

  lemma SiteOnce()
    ensures NoDup(SiteChanges())
  {
    SiteNames();
    assert SiteChanges()[0].field.name != SiteChanges()[1].field.name;
  }

  lemma SiteFields()
    ensures FieldsFor(SiteChanges(), POST) == [Slug(), AuthorId()]
  {
    var all := SiteChanges();
    assert all[..2] == [all[0], all[1]] && all[..2][..1] == [all[0]] && all[..1][..0] == [];
    assert FieldsFor(all, POST) == FieldsFor(all[..2], POST);
    assert FieldsFor(all[..2], POST) == FieldsFor(all[..1], POST) + [AuthorId()];
    assert FieldsFor(all[..1], POST) == [Slug()];
  }

  lemma PostsStart()
    ensures Physical(BarePosts(), EmptyPosts()) && TargetOk(Posts(), BarePosts())
  {
    BarePostsAre();
    assert InlineUniques(BarePosts()) == {};
  }

  /** Its own column is missing, though the table has the other new one. */
  lemma AuthorMissing(l: Lite)
    ensures !AddOk(l, Site(), Posts(), BarePosts(), Slug(), 0)
  {
    SiteNames();
    BarePostsAre();
    var now := WithField(BarePosts(), Slug());
    assert Authorship() in Site().relations && "author_id" in Authorship().ownerCols;
    assert !HasColumnNamed(now, "author_id");
  }

  /**
   Two required columns, the second of which is the column of a new foreign key: the rebuild
   for the first has the foreign key in its `CREATE TABLE`, and fails.
   */
  lemma ForeignKeyTooEarly(l: Lite)
    ensures TidyPair(Bare(), Site(), SiteChanges()) && Physical(BarePosts(), EmptyPosts())
    ensures FieldsFor(SiteChanges(), POST) == [Slug(), AuthorId()] && AllFresh(BarePosts(), [Slug(), AuthorId()])
    ensures LiteExec(l, AddAll(Site(), Posts(), BarePosts(), [Slug(), AuthorId()]), EmptyPosts()).None?
  {
    SitePair();
    BareModels();
    SiteModels();
    SiteFields();
    PostsStart();
    AuthorMissing(l);
    TidyAddsFresh(Bare(), Site(), SiteChanges());
    assert AllFresh(StartOf(Bare(), Site(), POST), FieldsFor(SiteChanges(), POST));
    RunAddAll(l, Site(), Posts(), BarePosts(), [Slug(), AuthorId()], EmptyPosts());
  }
}
