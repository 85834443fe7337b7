/**
 Running the six constraint phases: new names are always free by then and new constraints
 find their columns, so that the drops and the keys of new foreign keys decide.
 */
module ConRun {
  import opened Names
  import opened Ir
  import opened Catalogue
  import opened Diff
  import opened Plan
  import opened Tidy
  import opened Trace
  import opened Fates
  import opened Constraints
  import opened ConDiff
  import opened ColumnRun
  import opened Outcome

  ghost predicate TidyPair(prev: Schema, next: Schema, all: seq<Change>) {
    TidySchemas(prev, next) && TidyConstraints(prev, next) && IsDiff(prev, next, all)
  }

  predicate IsDropping(c: Change) {
    c.DropForeignKey? || c.DropIndex? || c.DropUnique?
  }

  predicate IsAdding(c: Change) {
    c.AddForeignKey? || c.CreateIndex? || c.AddUnique?
  }

  lemma SelectTwo(p: Phase, q: Phase, all: seq<Change>)
    requires forall c :: !(InPhase(p, all, c) && InPhase(q, all, c))
    ensures forall c :: c in Select(p, all, all) + Select(q, all, all) <==> c in all && (InPhase(p, all, c) || InPhase(q, all, c))
    ensures NoDup(all) ==> NoDup(Select(p, all, all) + Select(q, all, all))
  {
    SelectMembers(p, all, all);
    SelectMembers(q, all, all);
    if NoDup(all) {
      SelectNoDup(p, all, all);
      SelectNoDup(q, all, all);
      AppendNoDup(Select(p, all, all), Select(q, all, all));
    }
  }

  /** The members of the four lists. */
  lemma ConLists(all: seq<Change>)
    requires NoDup(all)
    ensures forall c :: c in FkDrops(all) <==> c in all && c.DropForeignKey?
    ensures forall c :: c in KeyDrops(all) <==> c in all && (c.DropIndex? || c.DropUnique?)
    ensures forall c :: c in KeyAdds(all) <==> c in all && (c.CreateIndex? || c.AddUnique?)
    ensures forall c :: c in FkAdds(all) <==> c in all && c.AddForeignKey?
    ensures NoDup(FkDrops(all)) && NoDup(KeyDrops(all)) && NoDup(KeyAdds(all)) && NoDup(FkAdds(all))
  {
    SelectMembers(DroppingFks, all, all);
    SelectMembers(AddingFks, all, all);
    SelectNoDup(DroppingFks, all, all);
    SelectNoDup(AddingFks, all, all);
    SelectTwo(DroppingIndexes, DroppingUniques, all);
    SelectTwo(AddingUniques, AddingIndexes, all);
  }

  lemma SelectRenderable(next: Schema, p: Phase, all: seq<Change>)
    requires Renderable(next, all)
    ensures Renderable(next, Select(p, all, all))
  {
    SelectMembers(p, all, all);
  }

  /** All drops come before all adds. */
  lemma FourLists(d: Dialect, next: Schema, all: seq<Change>)
    requires Renderable(next, all)
    ensures Renderable(next, FkDrops(all)) && Renderable(next, KeyDrops(all))
    ensures Renderable(next, KeyAdds(all)) && Renderable(next, FkAdds(all))
    ensures ConStmts(d, next, all) ==
            RenderAll(d, next, FkDrops(all)) +
            (RenderAll(d, next, KeyDrops(all)) + (RenderAll(d, next, KeyAdds(all)) + RenderAll(d, next, FkAdds(all))))
  {
    SelectRenderable(next, DroppingFks, all);
    SelectRenderable(next, DroppingIndexes, all);
    SelectRenderable(next, DroppingUniques, all);
    SelectRenderable(next, AddingUniques, all);
    SelectRenderable(next, AddingIndexes, all);
    SelectRenderable(next, AddingFks, all);
    RenderAllConcat(d, next, Select(DroppingIndexes, all, all), Select(DroppingUniques, all, all));
    RenderAllConcat(d, next, Select(AddingUniques, all, all), Select(AddingIndexes, all, all));
    Regroup(RenderAll(d, next, FkDrops(all)), PhaseStmts(d, next, DroppingIndexes, all), PhaseStmts(d, next, DroppingUniques, all),
            PhaseStmts(d, next, AddingUniques, all), PhaseStmts(d, next, AddingIndexes, all), RenderAll(d, next, FkAdds(all)));
  }

  lemma Regroup<T>(a: seq<T>, b: seq<T>, c: seq<T>, e: seq<T>, f: seq<T>, g: seq<T>)
    ensures (a + b + c) + (e + f + g) == a + ((b + c) + ((e + f) + g))
  {}

  // ---- What each constraint change is about ------------------------------------------------------------

  /** Why the diff has constraint change `c`. */
  ghost predicate ConRole(prev: Schema, next: Schema, c: Change) {
    match c
    case CreateIndex(m, ix) =>
      Surviving(prev, next, m) && ix in next.models.Get(m).indexes && ix !in prev.models.Get(m).indexes
    case AddUnique(m, uq) =>
      Surviving(prev, next, m) && uq in next.models.Get(m).uniques && uq !in prev.models.Get(m).uniques
    case DropIndex(m, x) =>
      Surviving(prev, next, m) && Removed(prev.models.Get(m).indexes, next.models.Get(m).indexes, x)
    case DropUnique(m, x) =>
      Surviving(prev, next, m) && Removed(prev.models.Get(m).uniques, next.models.Get(m).uniques, x)
    case AddForeignKey(m, r) => m == r.owner && IsFk(next, r) && FkNew(prev, r)
    case DropForeignKey(m, r) => m == r.owner && IsFk(prev, r) && FkGone(next, r) && next.models.Has(m)
    case _ => false
  }

  lemma ConEmittedRole(prev: Schema, next: Schema, c: Change)
    requires TidyConstraints(prev, next) && (IsDropping(c) || IsAdding(c))
    ensures Emitted(prev, next, c) <==> ConRole(prev, next, c)
  {
    if c.AddForeignKey? {
      EmittedFkAdd(prev, next, c);
    } else if c.DropForeignKey? {
      EmittedFkDrop(prev, next, c);
    }
  }

  /** A drop of the diff concerns a constraint that `prev` asks for on a surviving model. */
  lemma DropWanted(prev: Schema, next: Schema, c: Change) returns (con: Con)
    requires TidySchemas(prev, next) && TidyConstraints(prev, next) && ConRole(prev, next, c)
    requires IsDropping(c)
    ensures IsConDrop(c) && OnModel(next, c) && Surviving(prev, next, c.model)
    ensures ConKeyOf(next, c) == ConKey(ConKeyOf(next, c).kind, next.Table(c.model), ConKeyOf(next, c).name)
    ensures Wants(prev, c.model, ConKeyOf(next, c).kind, ConKeyOf(next, c).name, con)
  {
    match c
    case DropForeignKey(m, r) =>
      assert GroundedFk(prev, r);
      con := References(FkDefOf(r));
    case DropIndex(m, x) =>
      var e :| e in prev.models.Get(m).indexes && e !in next.models.Get(m).indexes && e.dbName == x;
      con := OnColumns(TargetColumns(prev.models.Get(m), e.targets));
    case DropUnique(m, x) =>
      var e :| e in prev.models.Get(m).uniques && e !in next.models.Get(m).uniques && e.dbName == x;
      con := OnColumns(TargetColumns(prev.models.Get(m), e.targets));
  }

  lemma DropKeysDiffer(prev: Schema, next: Schema, c: Change, e: Change)
    requires TidySchemas(prev, next) && TidyConstraints(prev, next) && ConRole(prev, next, c) && ConRole(prev, next, e)
    requires IsDropping(c) && IsDropping(e)
    requires c != e
    ensures OnModel(next, c) && OnModel(next, e) && ConKeyOf(next, c) != ConKeyOf(next, e)
  {
    var _ := DropWanted(prev, next, c);
    var _ := DropWanted(prev, next, e);
    if c.model != e.model {
      DistinctTables(next, c.model, e.model);
    }
  }

  /** An add of the diff concerns a constraint that `next` asks for. */
  lemma AddWanted(prev: Schema, next: Schema, c: Change)
    requires TidySchemas(prev, next) && TidyConstraints(prev, next) && ConRole(prev, next, c)
    requires IsAdding(c)
    ensures IsConAdd(c) && OnModel(next, c) && (c.AddForeignKey? || Surviving(prev, next, c.model))
    ensures ConKeyOf(next, c) == ConKey(ConKeyOf(next, c).kind, next.Table(c.model), ConKeyOf(next, c).name)
    ensures Wants(next, c.model, ConKeyOf(next, c).kind, ConKeyOf(next, c).name, ConOf(next.models.Get(c.model), c))
  {
    if c.AddForeignKey? {
      assert GroundedFk(next, c.relation);
    }
  }

  lemma AddKeysDiffer(prev: Schema, next: Schema, c: Change, e: Change)
    requires TidySchemas(prev, next) && TidyConstraints(prev, next) && ConRole(prev, next, c) && ConRole(prev, next, e)
    requires IsAdding(c) && IsAdding(e)
    requires c != e
    ensures OnModel(next, c) && OnModel(next, e) && !Clash(ConKeyOf(next, c), ConKeyOf(next, e))
  {
    AddWanted(prev, next, c);
    AddWanted(prev, next, e);
    if c.model != e.model {
      DistinctTables(next, c.model, e.model);
    } else if c.CreateIndex? && e.CreateIndex? && c.index.dbName == e.index.dbName {
      SameDef(next.models.Get(c.model).indexes, c.index, e.index);
    } else if c.AddUnique? && e.AddUnique? && c.unique.dbName == e.unique.dbName {
      SameDef(next.models.Get(c.model).uniques, c.unique, e.unique);
    } else {
      assert KindsNamedApart(next.models.Get(c.model));
    }
  }

  lemma TargetsThere(next: Schema, m: ModelName, defs: seq<IndexDef>, e: IndexDef, cat: Catalog)
    requires next.models.Has(m) && ColumnsThere(next, m, cat)
    requires ColumnTargets(next.models.Get(m), defs) && e in defs
    ensures HasColumns(cat.cols, next.Table(m), TargetColumns(next.models.Get(m), e.targets))
  {
    var q := next.models.Get(m);
    var names := TargetColumns(q, e.targets);
    forall x | x in names ensures Key(next.Table(m), x) in cat.cols {
      var i :| 0 <= i < |names| && names[i] == x;
      assert e.targets[i] in e.targets;
      assert q.OwnsColumn(e.targets[i]) && q.Column(e.targets[i]) == x;
      assert HasColumnNamed(q, x);
    }
  }

  /** A new constraint finds its tables and columns. */
  lemma AddSupported(prev: Schema, next: Schema, c: Change, cat: Catalog)
    requires TidySchemas(prev, next) && TidyConstraints(prev, next) && ConRole(prev, next, c)
    requires IsAdding(c)
    requires forall m :: next.models.Has(m) ==> ColumnsThere(next, m, cat)
    ensures IsConAdd(c) && OnModel(next, c) && Supported(next, c, cat)
  {
    AddWanted(prev, next, c);
    match c
    case AddForeignKey(m, r) =>
      assert GroundedFk(next, r);
      assert ColumnsThere(next, r.owner, cat) && ColumnsThere(next, r.target, cat);
    case CreateIndex(m, ix) =>
      TargetsThere(next, m, next.models.Get(m).indexes, ix, cat);
    case AddUnique(m, uq) =>
      TargetsThere(next, m, next.models.Get(m).uniques, uq, cat);
  }

  // ---- The constraints of before ---------------------------------------------------------------------------

  /** The constraints that the table of a surviving model starts with, and the few that a created one does. */
  ghost predicate ConsStand(prev: Schema, next: Schema, m: ModelName, cons: map<ConKey, Con>)
    requires next.models.Has(m)
  {
    if prev.models.Has(m) then
      forall kind: ConKind, x, con {:trigger Wants(prev, m, kind, x, con)} :: !kind.InlineCon? ==>
        (ConAt(cons, ConKey(kind, next.Table(m), x)) == Some(con) <==> Wants(prev, m, kind, x, con))
    else
      forall kind: ConKind, x :: ConKey(kind, next.Table(m), x) in cons ==> !kind.IndexCon? && !kind.ForeignKeyCon?
  }

  ghost predicate AllStand(prev: Schema, next: Schema, cons: map<ConKey, Con>) {
    forall m :: next.models.Has(m) ==> ConsStand(prev, next, m, cons)
  }

  lemma StoodAs(prev: Schema, next: Schema, m: ModelName, cons: map<ConKey, Con>, kind: ConKind, x: string)
    requires Surviving(prev, next, m) && ConsStand(prev, next, m, cons) && !kind.InlineCon?
    requires ConKey(kind, next.Table(m), x) in cons
    ensures Wants(prev, m, kind, x, cons[ConKey(kind, next.Table(m), x)])
  {
    var con := cons[ConKey(kind, next.Table(m), x)];
    assert ConAt(cons, ConKey(kind, next.Table(m), x)) == Some(con);
    assert Wants(prev, m, kind, x, con) || !Wants(prev, m, kind, x, con);
  }

  /** Nothing turns a key into a foreign key on the way, and nothing but primary keys joins. */
  lemma EarlyKinds(d: Dialect, next: Schema, all: seq<Change>, cons: map<ConKey, Con>, k: ConKey)
    requires k in Early(d, next, all, cons) && !k.kind.PrimaryCon?
    ensures k in cons && (Early(d, next, all, cons)[k].References? <==> cons[k].References?)
  {
    EarlyAt(d, next, all, cons, k);
  }

  // ---- The drops ------------------------------------------------------------------------------------------------

  /** What a drop finds under its key, if anything. */
  lemma DropFinds(d: Dialect, prev: Schema, next: Schema, all: seq<Change>, cons: map<ConKey, Con>, c: Change)
    requires TidyPair(prev, next, all) && AllStand(prev, next, cons) && c in all && IsDropping(c)
    ensures IsConDrop(c) && OnModel(next, c)
    ensures var early := Early(d, next, all, cons);
            ConKeyOf(next, c) in early ==> (early[ConKeyOf(next, c)].References? <==> c.DropForeignKey?)
  {
    ConEmittedRole(prev, next, c);
    var con := DropWanted(prev, next, c);
    var key := ConKeyOf(next, c);
    if key in Early(d, next, all, cons) {
      EarlyKinds(d, next, all, cons, key);
      StoodAs(prev, next, c.model, cons, key.kind, key.name);
    }
  }

  lemma DropListOk(prev: Schema, next: Schema, all: seq<Change>, cs: seq<Change>)
    requires TidyPair(prev, next, all) && NoDup(cs) && forall c :: c in cs ==> c in all && IsDropping(c)
    ensures (forall c :: c in cs ==> IsConDrop(c) && OnModel(next, c)) && DistinctKeys(next, cs)
  {
    forall c | c in cs ensures IsConDrop(c) && OnModel(next, c) {
      ConEmittedRole(prev, next, c);
      var _ := DropWanted(prev, next, c);
    }
    forall i, j | 0 <= i < j < |cs| ensures ConKeyOf(next, cs[i]) != ConKeyOf(next, cs[j]) {
      assert cs[i] in cs && cs[j] in cs;
      ConEmittedRole(prev, next, cs[i]);
      ConEmittedRole(prev, next, cs[j]);
      DropKeysDiffer(prev, next, cs[i], cs[j]);
    }
  }

  /** Foreign keys and other keys do not get in each other's way. */
  lemma FoundTogether(d: Dialect, next: Schema, fks: seq<Change>, keys: seq<Change>, cons: map<ConKey, Con>)
    requires forall c :: c in fks ==> c.DropForeignKey?
    requires forall c :: c in keys ==> IsKeyDrop(c)
    ensures AllFound(d, next, fks + keys, cons) <==>
              AllFound(d, next, fks, cons) && AllFound(d, next, keys, cons - DroppedKeys(next, fks))
  {
    forall c | c in keys && OnModel(next, c) ensures ConKeyOf(next, c) !in DroppedKeys(next, fks) {}
    forall c ensures c in fks + keys <==> c in fks || c in keys {}
    if AllFound(d, next, fks + keys, cons) {
      forall c | c in fks && OnModel(next, c) ensures ConKeyOf(next, c) in cons || MayBeMissing(d, c) {
        assert c in fks + keys;
      }
      forall c | c in keys && OnModel(next, c)
        ensures ConKeyOf(next, c) in cons - DroppedKeys(next, fks) || MayBeMissing(d, c)
      {
        assert c in fks + keys;
      }
    }
    if AllFound(d, next, fks, cons) && AllFound(d, next, keys, cons - DroppedKeys(next, fks)) {
      forall c | c in fks + keys && OnModel(next, c) ensures ConKeyOf(next, c) in cons || MayBeMissing(d, c) {
        assert c in fks || c in keys;
      }
    }
  }

  /** The drops run if each finds what it drops and no foreign key that stays holds on to a key. */
  lemma RunConDrops(w: World, d: Dialect, prev: Schema, next: Schema, all: seq<Change>, cons: map<ConKey, Con>, cat: Catalog)
    requires TidyPair(prev, next, all) && Renderable(next, FkDrops(all)) && Renderable(next, KeyDrops(all))
    requires AllStand(prev, next, cons) && cat.cons == Early(d, next, all, cons)
    ensures var unlinked := Unlinked(d, next, all, cons);
            var dropped := DroppedKeys(next, KeyDrops(all));
            Exec(w, RenderAll(d, next, FkDrops(all)) + RenderAll(d, next, KeyDrops(all)), cat) ==
            if AllFound(d, next, FkDrops(all) + KeyDrops(all), cat.cons) && !(cat.checks && Held(w, unlinked, dropped))
            then Some(cat.(cons := unlinked - dropped)) else None
  {
    ConLists(all);
    var fks, keys := FkDrops(all), KeyDrops(all);
    DropListOk(prev, next, all, fks);
    DropListOk(prev, next, all, keys);
    forall c | c in fks || c in keys
      ensures ConKeyOf(next, c) in cat.cons ==> (cat.cons[ConKeyOf(next, c)].References? <==> c.DropForeignKey?)
    {
      DropFinds(d, prev, next, all, cons, c);
    }
    RunFkDrops(w, d, next, fks, cat);
    ExecConcat(w, RenderAll(d, next, fks), RenderAll(d, next, keys), cat);
    var mid := cat.(cons := cat.cons - DroppedKeys(next, fks));
    RunKeyDrops(w, d, next, keys, mid);
    FoundTogether(d, next, fks, keys, cat.cons);
  }

  // ---- The adds -------------------------------------------------------------------------------------------------

  /** A constraint that is added finds its name free, once the drops are done. */
  lemma NameFreed(d: Dialect, prev: Schema, next: Schema, all: seq<Change>, cons: map<ConKey, Con>, c: Change)
    requires TidyPair(prev, next, all) && AllStand(prev, next, cons) && c in all && IsAdding(c)
    ensures IsConAdd(c) && OnModel(next, c)
    ensures !Taken(ConKeyOf(next, c), Unlinked(d, next, all, cons) - DroppedKeys(next, KeyDrops(all)))
  {
    ConEmittedRole(prev, next, c);
    AddWanted(prev, next, c);
    forall key | Clash(ConKeyOf(next, c), key) ensures key !in Unlinked(d, next, all, cons) - DroppedKeys(next, KeyDrops(all)) {
      KeyFreed(d, prev, next, all, cons, c, key);
    }
    TakenBySome(ConKeyOf(next, c), Unlinked(d, next, all, cons) - DroppedKeys(next, KeyDrops(all)));
  }

  lemma KeyFreed(d: Dialect, prev: Schema, next: Schema, all: seq<Change>, cons: map<ConKey, Con>, c: Change, key: ConKey)
    requires TidyPair(prev, next, all) && AllStand(prev, next, cons) && c in all && IsAdding(c) && ConRole(prev, next, c)
    requires IsConAdd(c) && OnModel(next, c) && Clash(ConKeyOf(next, c), key)
    ensures key !in Unlinked(d, next, all, cons) - DroppedKeys(next, KeyDrops(all))
  {
    ConLists(all);
    AddWanted(prev, next, c);
    assert ConsStand(prev, next, c.model, cons);
    if key in Early(d, next, all, cons) {
      EarlyKinds(d, next, all, cons, key);
      if prev.models.Has(c.model) {
        StoodAs(prev, next, c.model, cons, key.kind, key.name);
        var e := DropForAdd(prev, next, c, key, cons[key]);
        ConEmittedRole(prev, next, e);
        assert e in all;
      }
    }
  }

  /** A constraint of `prev` whose name is wanted again is dropped. */
  lemma DropForAdd(prev: Schema, next: Schema, c: Change, key: ConKey, older: Con) returns (e: Change)
    requires TidySchemas(prev, next) && TidyConstraints(prev, next) && ConRole(prev, next, c) && IsAdding(c)
    requires IsConAdd(c) && OnModel(next, c) && Surviving(prev, next, c.model) && Clash(ConKeyOf(next, c), key)
    requires Wants(prev, c.model, key.kind, key.name, older)
    ensures IsDropping(e) && ConRole(prev, next, e) && OnModel(next, e) && ConKeyOf(next, e) == key
  {
    if c.AddForeignKey? {
      FkRoom(prev, next, c.relation, older);
      var g :| IsFk(prev, g) && g.owner == c.model && g.constraintName == c.relation.constraintName && FkGone(next, g);
      e := DropForeignKey(c.model, g);
    } else {
      e := DropForKeyAdd(prev, next, c, key, older);
    }
  }

  /** The definitions of a kind. */
  function DefsOf(m: Model, kind: ConKind): seq<IndexDef> {
    if kind.UniqueCon? then m.uniques else m.indexes
  }

  lemma DropForKeyAdd(prev: Schema, next: Schema, c: Change, key: ConKey, older: Con) returns (e: Change)
    requires TidySchemas(prev, next) && TidyConstraints(prev, next) && ConRole(prev, next, c) && IsKeyAdd(c)
    requires IsConAdd(c) && OnModel(next, c) && Surviving(prev, next, c.model) && Clash(ConKeyOf(next, c), key)
    requires Wants(prev, c.model, key.kind, key.name, older)
    ensures IsDropping(e) && ConRole(prev, next, e) && OnModel(next, e) && ConKeyOf(next, e) == key
  {
    var p, q := prev.models.Get(c.model), next.models.Get(c.model);
    var def := if c.CreateIndex? then c.index else c.unique;
    var before, after := DefsOf(p, key.kind), DefsOf(q, key.kind);
    NamesDistinct(next, c.model);
    var k :| k in before && k.dbName == key.name && older == OnColumns(TargetColumns(p, k.targets));
    if key == ConKeyOf(next, c) {
      DefRoom(before, after, def, k);
    }
    assert k !in after;
    e := if key.kind.UniqueCon? then DropUnique(c.model, key.name) else DropIndex(c.model, key.name);
  }

  lemma NamesDistinct(s: Schema, m: ModelName)
    requires SoundConstraints(s) && s.models.Has(m)
    ensures DistinctNames(s.models.Get(m).indexes) && DistinctNames(s.models.Get(m).uniques)
    ensures KindsNamedApart(s.models.Get(m))
  {}

  lemma AddListOk(prev: Schema, next: Schema, all: seq<Change>, cs: seq<Change>)
    requires TidyPair(prev, next, all) && NoDup(cs) && forall c :: c in cs ==> c in all && IsAdding(c)
    ensures (forall c :: c in cs ==> IsConAdd(c) && OnModel(next, c)) && NamesApart(next, cs)
  {
    forall c | c in cs ensures IsConAdd(c) && OnModel(next, c) {
      ConEmittedRole(prev, next, c);
      AddWanted(prev, next, c);
    }
    forall i, j | 0 <= i < j < |cs| ensures !Clash(ConKeyOf(next, cs[j]), ConKeyOf(next, cs[i])) {
      assert cs[i] in cs && cs[j] in cs;
      ConEmittedRole(prev, next, cs[i]);
      ConEmittedRole(prev, next, cs[j]);
      AddKeysDiffer(prev, next, cs[j], cs[i]);
    }
  }

  /** Every table of `next` has its columns. */
  ghost predicate AllThere(next: Schema, cat: Catalog) {
    forall m :: next.models.Has(m) ==> ColumnsThere(next, m, cat)
  }

  lemma KeysAddable(d: Dialect, prev: Schema, next: Schema, all: seq<Change>, cons: map<ConKey, Con>, mid: Catalog)
    requires TidyPair(prev, next, all) && AllStand(prev, next, cons) && AllThere(next, mid)
    requires mid.cons == Unlinked(d, next, all, cons) - DroppedKeys(next, KeyDrops(all))
    ensures Addable(next, KeyAdds(all), mid)
  {
    ConLists(all);
    AddListOk(prev, next, all, KeyAdds(all));
    forall c | c in KeyAdds(all) ensures !Taken(ConKeyOf(next, c), mid.cons) && Supported(next, c, mid) {
      ConEmittedRole(prev, next, c);
      NameFreed(d, prev, next, all, cons, c);
      AddSupported(prev, next, c, mid);
    }
  }

  lemma FksAddable(d: Dialect, prev: Schema, next: Schema, all: seq<Change>, cons: map<ConKey, Con>, mid: Catalog)
    requires TidyPair(prev, next, all) && AllStand(prev, next, cons) && AllThere(next, mid)
    requires mid.cons == Keyed(d, next, all, cons)
    ensures Addable(next, FkAdds(all), mid) && forall c :: c in FkAdds(all) ==> c.AddForeignKey? && IsFkAdd(c)
  {
    ConLists(all);
    AddListOk(prev, next, all, FkAdds(all));
    forall c | c in FkAdds(all) ensures !Taken(ConKeyOf(next, c), mid.cons) && Supported(next, c, mid) {
      ConEmittedRole(prev, next, c);
      NameFreed(d, prev, next, all, cons, c);
      AddedKeys(next, KeyAdds(all), ConKeyOf(next, c));
      AddSupported(prev, next, c, mid);
    }
  }

  /** The columns of `next` are defined as it says. */
  ghost predicate DefsThere(d: Dialect, next: Schema, cat: Catalog) {
    forall m, n :: next.models.Has(m) && next.models.Get(m).OwnsColumn(n) ==>
      DefThere(d, next.models.Get(m), n, next.Table(m), cat)
  }

  predicate DefThere(d: Dialect, m: Model, n: FieldName, t: string, cat: Catalog)
    requires m.OwnsColumn(n)
  {
    Key(t, m.Column(n)) in cat.cols && Describes(d, m.fields.Get(n), cat.cols[Key(t, m.Column(n))].def)
  }

  /** So the server decides by what `next` says. */
  lemma AllowedMeansAccepted(d: Dialect, next: Schema, c: Change, cat: Catalog)
    requires next.Valid() && IsFkAdd(c) && c.model == c.relation.owner && GroundedFk(next, c.relation)
    requires DefsThere(d, next, cat) && HasColumns(cat.cols, next.Table(c.model), c.relation.ownerCols)
    ensures FkAccepted(d, next.models.Get(c.model), c, cat.cols) <==> Allowed(d, next, c.relation)
  {
    var q, names, t := next.models.Get(c.model), c.relation.ownerCols, next.Table(c.model);
    forall n | q.OwnsColumn(n) ensures DefThere(d, q, n, t, cat) {}
    if Nullable(q, names) {
      forall x | x in names ensures !cat.cols[Key(t, x)].def.notNull {
        var n :| q.OwnsColumn(n) && q.Column(n) == x;
        assert n in q.fields.entries;
      }
    }
  }

  lemma FksAllowed(d: Dialect, prev: Schema, next: Schema, all: seq<Change>, cs: seq<Change>, cat: Catalog)
    requires TidyPair(prev, next, all) && DefsThere(d, next, cat) && forall c :: c in cs ==> c in all && c.AddForeignKey?
    requires forall c :: c in cs ==> IsFkAdd(c) && IsConAdd(c) && OnModel(next, c) && Supported(next, c, cat)
    ensures AllFksReady(d, next, cs, cat) <==> forall c :: c in cs ==> KeyThere(d, c, cat.cons) && Allowed(d, next, c.relation)
  {
    forall c | c in cs ensures FkReady(d, next, c, cat) <==> KeyThere(d, c, cat.cons) && Allowed(d, next, c.relation) {
      ConEmittedRole(prev, next, c);
      FkIsGrounded(next, c.relation);
      AllowedMeansAccepted(d, next, c, cat);
    }
  }

  lemma FkIsGrounded(s: Schema, r: ResolvedRelation)
    requires SoundConstraints(s) && IsFk(s, r)
    ensures GroundedFk(s, r)
  {}

  lemma RunConAdds(w: World, d: Dialect, prev: Schema, next: Schema, all: seq<Change>, cons: map<ConKey, Con>, mid: Catalog)
    requires TidyPair(prev, next, all) && Renderable(next, KeyAdds(all)) && Renderable(next, FkAdds(all))
    requires w.server == d && AllStand(prev, next, cons) && AllThere(next, mid) && DefsThere(d, next, mid)
    requires mid.cons == Unlinked(d, next, all, cons) - DroppedKeys(next, KeyDrops(all))
    ensures Exec(w, RenderAll(d, next, KeyAdds(all)) + RenderAll(d, next, FkAdds(all)), mid) ==
            if FksCanJoin(d, next, all, Keyed(d, next, all, cons))
            then Some(mid.(cons := Linked(d, next, all, cons))) else None
  {
    ConLists(all);
    KeysAddable(d, prev, next, all, cons, mid);
    RunKeyAdds(w, d, next, KeyAdds(all), mid);
    ExecConcat(w, RenderAll(d, next, KeyAdds(all)), RenderAll(d, next, FkAdds(all)), mid);
    var keyed := mid.(cons := Keyed(d, next, all, cons));
    assert AllThere(next, keyed) by {
      forall m | next.models.Has(m) ensures ColumnsThere(next, m, keyed) {
        assert ColumnsThere(next, m, mid);
      }
    }
    assert DefsThere(d, next, keyed) by {
      forall m, n | next.models.Has(m) && next.models.Get(m).OwnsColumn(n)
        ensures DefThere(d, next.models.Get(m), n, next.Table(m), keyed)
      {
        assert DefThere(d, next.models.Get(m), n, next.Table(m), mid);
      }
    }
    FksAddable(d, prev, next, all, cons, keyed);
    RunFkAdds(w, d, next, FkAdds(all), keyed);
    FksAllowed(d, prev, next, all, FkAdds(all), keyed);
  }

  /** When the constraint phases run, and what they leave. */
  predicate ConsCanRun(w: World, d: Dialect, next: Schema, all: seq<Change>, cons: map<ConKey, Con>, checks: bool) {
    && AllFound(d, next, FkDrops(all) + KeyDrops(all), Early(d, next, all, cons))
    && !(checks && Held(w, Unlinked(d, next, all, cons), DroppedKeys(next, KeyDrops(all))))
    && FksCanJoin(d, next, all, Keyed(d, next, all, cons))
  }

  lemma RunCons(w: World, d: Dialect, prev: Schema, next: Schema, all: seq<Change>, cons: map<ConKey, Con>, cat: Catalog)
    requires TidyPair(prev, next, all) && Renderable(next, all) && AllStand(prev, next, cons) && AllThere(next, cat)
    requires w.server == d && DefsThere(d, next, cat) && cat.cons == Early(d, next, all, cons)
    ensures Exec(w, ConStmts(d, next, all), cat) ==
            if ConsCanRun(w, d, next, all, cons, cat.checks) then Some(cat.(cons := Linked(d, next, all, cons))) else None
  {
    FourLists(d, next, all);
    var s1, s2 := RenderAll(d, next, FkDrops(all)), RenderAll(d, next, KeyDrops(all));
    var s3, s4 := RenderAll(d, next, KeyAdds(all)), RenderAll(d, next, FkAdds(all));
    Associate(s1, s2, s3 + s4);
    RunConDrops(w, d, prev, next, all, cons, cat);
    ExecConcat(w, s1 + s2, s3 + s4, cat);
    var mid := cat.(cons := Unlinked(d, next, all, cons) - DroppedKeys(next, KeyDrops(all)));
    assert AllThere(next, mid) by {
      forall m | next.models.Has(m) ensures ColumnsThere(next, m, mid) {
        assert ColumnsThere(next, m, cat);
      }
    }
    assert DefsThere(d, next, mid) by {
      forall m, n | next.models.Has(m) && next.models.Get(m).OwnsColumn(n)
        ensures DefThere(d, next.models.Get(m), n, next.Table(m), mid)
      {
        assert DefThere(d, next.models.Get(m), n, next.Table(m), cat);
      }
    }
    RunConAdds(w, d, prev, next, all, cons, mid);
  }
}
