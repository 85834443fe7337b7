/**
 The constraints a schema asks for, and which of them a diff drops, adds and keeps.
 */
module ConDiff {
  import opened Names
  import opened Ir
  import opened Catalogue
  import opened Diff
  import opened Plan
  import opened Tidy
  import opened Trace

  /** `r` owns a foreign key. */
  predicate IsFk(s: Schema, r: ResolvedRelation) {
    r in s.relations && !r.kind.ManyToMany?
  }

  /** `con` is the foreign key that `r` asks for. */
  predicate IsLink(r: ResolvedRelation, con: Con) {
    && con.References?
    && con.fk.ownerCols == r.ownerCols
    && con.fk.targetTable == r.targetTable
    && con.fk.targetCols == r.targetCols
    && con.fk.onDelete == r.onDelete
    && con.fk.onUpdate == r.onUpdate
  }

  ghost predicate WantsFk(s: Schema, m: ModelName, x: string, con: Con) {
    exists r :: IsFk(s, r) && r.owner == m && r.constraintName == x && IsLink(r, con)
  }

  /** One of `defs` is named `x` and lies on the columns of `con`. */
  ghost predicate DefinedIn(m: Model, defs: seq<IndexDef>, x: string, con: Con) {
    exists e :: e in defs && e.dbName == x && con == OnColumns(TargetColumns(m, e.targets))
  }

  /** Model `m` of the schema asks for constraint `con` under the name `x`. */
  ghost predicate Wants(s: Schema, m: ModelName, kind: ConKind, x: string, con: Con)
    requires s.models.Has(m)
  {
    var model := s.models.Get(m);
    match kind
    case PrimaryCon => x == "" && model.primary != [] && con == OnColumns(TargetColumns(model, model.primary))
    case InlineCon => WantsInline(model, con)
    case UniqueCon => DefinedIn(model, model.uniques, x, con)
    case IndexCon => DefinedIn(model, model.indexes, x, con)
    case ForeignKeyCon => WantsFk(s, m, x, con)
  }

  /** A field of the model is `@unique`, and `con` is over its column. */
  ghost predicate WantsInline(m: Model, con: Con) {
    exists n :: m.OwnsColumn(n) && m.fields.Get(n).isUnique && con == OnColumns([m.Column(n)])
  }

  ghost predicate ColumnTargets(m: Model, defs: seq<IndexDef>) {
    forall e, f :: e in defs && f in e.targets ==> m.OwnsColumn(f)
  }

  ghost predicate ColumnNames(m: Model, names: seq<string>) {
    forall x :: x in names ==> HasColumnNamed(m, x)
  }

  /** What lowering guarantees of a foreign key: it joins existing columns of existing models. */
  ghost predicate GroundedFk(s: Schema, r: ResolvedRelation) {
    && s.models.Has(r.owner) && s.models.Has(r.target) && r.targetTable == s.Table(r.target)
    && ColumnNames(s.models.Get(r.owner), r.ownerCols) && ColumnNames(s.models.Get(r.target), r.targetCols)
  }

  /** The fields of a key are there, and required. */
  ghost predicate SoundKey(m: Model) {
    forall f :: f in m.primary ==> m.OwnsColumn(f) && !m.fields.Get(f).optional
  }

  /** No index has the name of a unique. */
  ghost predicate KindsNamedApart(m: Model) {
    forall e, u :: e in m.indexes && u in m.uniques ==> e.dbName != u.dbName
  }

  /** Constraints are named unambiguously and refer to columns that exist. */
  ghost predicate SoundConstraints(s: Schema) {
    && DistinctConstraints(s)
    && (forall m :: m in s.models.entries ==>
          && ColumnTargets(s.models.Get(m), s.models.Get(m).indexes) && ColumnTargets(s.models.Get(m), s.models.Get(m).uniques)
          && SoundKey(s.models.Get(m)) && KindsNamedApart(s.models.Get(m)))
    && (forall r :: IsFk(s, r) ==> GroundedFk(s, r))
    && (forall r, q :: IsFk(s, r) && IsFk(s, q) && r.name == q.name ==> r == q)
    && (forall r, q :: IsFk(s, r) && IsFk(s, q) && r.owner == q.owner && r.constraintName == q.constraintName ==> r == q)
  }

  /** A relation that survives keeps its owner. */
  ghost predicate TidyConstraints(prev: Schema, next: Schema) {
    && SoundConstraints(prev) && SoundConstraints(next)
    && (forall p, r :: IsFk(prev, p) && IsFk(next, r) && p.name == r.name ==> p.owner == r.owner)
  }

  // ---- Indexes and uniques -----------------------------------------------------------------

  /** A new definition takes a name that was free or is being freed. */
  lemma DefRoom(before: seq<IndexDef>, after: seq<IndexDef>, e: IndexDef, k: IndexDef)
    requires DistinctNames(after) && e in after && e !in before && k in before && k.dbName == e.dbName
    ensures Removed(before, after, e.dbName)
  {
    if k in after {
      SameDef(after, k, e);
    }
  }

  lemma SameDef(defs: seq<IndexDef>, a: IndexDef, b: IndexDef)
    requires DistinctNames(defs) && a in defs && b in defs && a.dbName == b.dbName
    ensures a == b
  {}

  // ---- Foreign keys --------------------------------------------------------------------------

  lemma {:induction false} ForeignKeysByName(relations: seq<ResolvedRelation>, r: ResolvedRelation)
    requires forall p, q :: (p in relations && q in relations && !p.kind.ManyToMany? && !q.kind.ManyToMany? &&
                             p.name == q.name) ==> p == q
    ensures (r.name in ForeignKeys(relations) && ForeignKeys(relations)[r.name] == r) <==>
            r in relations && !r.kind.ManyToMany?
  {
    if relations != [] {
      var init, last := relations[..|relations| - 1], relations[|relations| - 1];
      assert relations == init + [last];
      ForeignKeysByName(init, r);
      if r in init && !r.kind.ManyToMany? && !last.kind.ManyToMany? && r.name == last.name {
        assert r in relations && last in relations;
      }
    }
  }

  /** The foreign key of `p` does not outlive `prev` unchanged. */
  ghost predicate FkGone(next: Schema, p: ResolvedRelation) {
    forall r :: IsFk(next, r) && r.name == p.name ==> Redefined(p, r)
  }

  ghost predicate FkNew(prev: Schema, r: ResolvedRelation) {
    forall p :: IsFk(prev, p) && p.name == r.name ==> Redefined(p, r)
  }

  lemma EmittedFkAdd(prev: Schema, next: Schema, c: Change)
    requires TidyConstraints(prev, next) && c.AddForeignKey?
    ensures Emitted(prev, next, c) <==> c.model == c.relation.owner && IsFk(next, c.relation) && FkNew(prev, c.relation)
  {
    var r := c.relation;
    ForeignKeysByName(next.relations, r);
    FkNamed(prev, r.name);
    assert Emitted(prev, next, c) <==> EmittedForeignKey(prev, next, c);
  }

  lemma EmittedFkDrop(prev: Schema, next: Schema, c: Change)
    requires TidyConstraints(prev, next) && c.DropForeignKey?
    ensures Emitted(prev, next, c) <==> c.model == c.relation.owner && IsFk(prev, c.relation) &&
                                        FkGone(next, c.relation) && next.models.Has(c.model)
  {
    var r := c.relation;
    ForeignKeysByName(prev.relations, r);
    FkNamed(next, r.name);
    assert Emitted(prev, next, c) <==> EmittedForeignKey(prev, next, c);
    if IsFk(prev, r) {
      assert GroundedFk(prev, r);
    }
    if r.name in ForeignKeys(next.relations) {
      assert GroundedFk(next, ForeignKeys(next.relations)[r.name]);
    }
  }

  /** A name is in the map exactly when some foreign key bears it. */
  lemma FkNamed(s: Schema, n: string)
    requires SoundConstraints(s)
    ensures n in ForeignKeys(s.relations) <==> exists r :: IsFk(s, r) && r.name == n
    ensures n in ForeignKeys(s.relations) ==>
              IsFk(s, ForeignKeys(s.relations)[n]) && ForeignKeys(s.relations)[n].name == n
    ensures forall r :: IsFk(s, r) && r.name == n ==> n in ForeignKeys(s.relations) && ForeignKeys(s.relations)[n] == r
  {
    ForeignKeyName(s.relations);
    if n in ForeignKeys(s.relations) {
      ForeignKeysByName(s.relations, ForeignKeys(s.relations)[n]);
    }
    forall r | IsFk(s, r) && r.name == n ensures n in ForeignKeys(s.relations) && ForeignKeys(s.relations)[n] == r {
      ForeignKeysByName(s.relations, r);
    }
  }

  /** An unchanged foreign key is the same constraint in both schemas. */
  lemma SameFk(prev: Schema, next: Schema, p: ResolvedRelation, r: ResolvedRelation)
    requires TidySchemas(prev, next) && TidyConstraints(prev, next)
    requires IsFk(prev, p) && IsFk(next, r) && p.name == r.name && !Redefined(p, r)
    ensures p.owner == r.owner && p.constraintName == r.constraintName
    ensures forall con :: IsLink(p, con) <==> IsLink(r, con)
  {
    assert GroundedFk(prev, p) && GroundedFk(next, r);
    assert Surviving(prev, next, p.target);
    TidyWithin(prev, next, p.target);
  }

  ghost predicate FkDroppedAt(prev: Schema, next: Schema, m: ModelName, x: string) {
    exists p :: IsFk(prev, p) && p.owner == m && p.constraintName == x && FkGone(next, p)
  }

  /** A foreign key that is added was not there, unless it is dropped first. */
  lemma FkRoom(prev: Schema, next: Schema, r: ResolvedRelation, con: Con)
    requires TidySchemas(prev, next) && TidyConstraints(prev, next) && IsFk(next, r) && FkNew(prev, r)
    requires WantsFk(prev, r.owner, r.constraintName, con)
    ensures FkDroppedAt(prev, next, r.owner, r.constraintName)
  {
    var p :| IsFk(prev, p) && p.owner == r.owner && p.constraintName == r.constraintName && IsLink(p, con);
    if q :| IsFk(next, q) && q.name == p.name && !Redefined(p, q) {
      SameFk(prev, next, p, q);
      assert q == r;
    }
  }
}
