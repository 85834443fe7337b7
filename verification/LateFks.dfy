/**
 The foreign keys that are around when the late drops begin: those that `next` asks for,
 and those of tables that are about to go. Only the latter can stand in the way.
 */
module LateFks {
  import opened Names
  import opened Ir
  import opened Catalogue
  import opened Diff
  import opened Plan
  import opened Effects
  import opened Tidy
  import opened Phases
  import opened Trace
  import opened Fates
  import opened Constraints
  import opened Tables
  import opened ConDiff
  import opened Outcome
  import opened ConRun

  ghost predicate IsPrevFk(prev: Schema, m: ModelName, k: ConKey, con: Con) {
    prev.models.Has(m) && k == ConKey(ForeignKeyCon, prev.Table(m), k.name) && WantsFk(prev, m, k.name, con)
  }

  /** Every foreign key is one that `prev` asks for. */
  ghost predicate PrevFks(prev: Schema, cons: map<ConKey, Con>) {
    forall k :: k in cons && cons[k].References? ==> exists m :: IsPrevFk(prev, m, k, cons[k])
  }

  /** `k` is a foreign key of `next`, as `next` defines it. */
  ghost predicate IsNextFk(next: Schema, r: ResolvedRelation, k: ConKey, con: Con) {
    && IsFk(next, r) && GroundedFk(next, r)
    && k == ConKey(ForeignKeyCon, next.Table(r.owner), r.constraintName) && IsLink(r, con)
  }

  /** `k` belongs to a model that goes. */
  ghost predicate IsDyingFk(prev: Schema, next: Schema, m: ModelName, k: ConKey, con: Con) {
    IsPrevFk(prev, m, k, con) && !next.models.Has(m)
  }

  // ---- Names that stay where they are -----------------------------------------------------------

  lemma StaysPut(prev: Model, next: Model, n: FieldName, x: string)
    requires prev.Valid() && next.Valid() && TidyModel(prev, next) && Renames(prev, next, n)
    requires HasColumnNamed(prev, x) && HasColumnNamed(next, x) && prev.Column(Source(prev, next, n)) == x
    ensures next.Column(n) == x
  {
    var k :| next.OwnsColumn(k) && next.Column(k) == x;
    if Added(prev, next, k) {
      AddedNames(prev, next, k);
    } else if k != n {
      assert Continued(prev, next, k);
      SourcesDiffer(prev, next, n, k);
    }
  }

  /** Where a renamed column comes from and goes to. */
  lemma MovedRole(prev: Schema, next: Schema, all: seq<Change>, m: ModelName, x: string) returns (n: FieldName)
    requires TidySchemas(prev, next) && IsDiff(prev, next, all) && next.models.Has(m)
    requires Key(next.Table(m), x) in Renamings(next, all)
    ensures Surviving(prev, next, m) && Renames(prev.models.Get(m), next.models.Get(m), n)
    ensures prev.models.Get(m).Column(Source(prev.models.Get(m), next.models.Get(m), n)) == x
    ensures next.models.Get(m).Column(n) == Renamings(next, all)[Key(next.Table(m), x)]
  {
    RenamingsApart(prev, next, all);
    SelectMembers(Renaming, all, all);
    var key := Key(next.Table(m), x);
    MovedKeys(next, Select(Renaming, all, all), key);
    var c :| c in Select(Renaming, all, all) && FromKey(next, c) == key && c.toColumn == Renamings(next, all)[key];
    assert Emitted(prev, next, c);
    EmittedRole(prev, next, c);
    SameModel(next, c.model, m);
    n := c.toName;
  }

  lemma SameModel(s: Schema, m: ModelName, k: ModelName)
    requires s.Valid() && s.models.Has(m) && s.models.Has(k) && s.Table(m) == s.Table(k)
    ensures m == k
  {}

  lemma NameStays(prev: Schema, next: Schema, all: seq<Change>, m: ModelName, x: string)
    requires TidySchemas(prev, next) && IsDiff(prev, next, all) && Surviving(prev, next, m)
    requires HasColumnNamed(prev.models.Get(m), x) && HasColumnNamed(next.models.Get(m), x)
    ensures NewName(Renamings(next, all), next.Table(m), x) == x
  {
    if Key(next.Table(m), x) in Renamings(next, all) {
      TidyWithin(prev, next, m);
      var n := MovedRole(prev, next, all, m, x);
      StaysPut(prev.models.Get(m), next.models.Get(m), n, x);
    }
  }

  lemma NamesStay(prev: Schema, next: Schema, all: seq<Change>, m: ModelName, names: seq<string>)
    requires TidySchemas(prev, next) && IsDiff(prev, next, all) && Surviving(prev, next, m)
    requires ColumnNames(prev.models.Get(m), names) && ColumnNames(next.models.Get(m), names)
    ensures NewNames(Renamings(next, all), next.Table(m), names) == names
  {
    forall i | 0 <= i < |names| ensures NewName(Renamings(next, all), next.Table(m), names[i]) == names[i] {
      assert names[i] in names;
      NameStays(prev, next, all, m, names[i]);
    }
  }

  /** A foreign key that both schemas have is where it was, whatever else moves. */
  lemma FkStays(prev: Schema, next: Schema, all: seq<Change>, p: ResolvedRelation, r: ResolvedRelation, k: ConKey, con: Con)
    requires TidyPair(prev, next, all) && IsFk(prev, p) && IsFk(next, r) && p.name == r.name && !Redefined(p, r)
    requires k.table == next.Table(r.owner) && IsLink(p, con)
    ensures Shifted(Renamings(next, all), k, con) == con && IsLink(r, con)
  {
    assert GroundedFk(prev, p) && GroundedFk(next, r);
    SameFk(prev, next, p, r);
    NamesStay(prev, next, all, r.owner, r.ownerCols);
    NamesStay(prev, next, all, r.target, r.targetCols);
  }

  // ---- Which foreign keys there are ------------------------------------------------------------------

  lemma FkAddIsNext(prev: Schema, next: Schema, c: Change)
    requires TidySchemas(prev, next) && TidyConstraints(prev, next) && c.AddForeignKey? && Emitted(prev, next, c)
    ensures OnModel(next, c) && IsConAdd(c)
    ensures IsNextFk(next, c.relation, ConKeyOf(next, c), ConOf(next.models.Get(c.model), c))
  {
    ConEmittedRole(prev, next, c);
    assert GroundedFk(next, c.relation);
  }

  lemma ListedIsEmitted(prev: Schema, next: Schema, all: seq<Change>, c: Change)
    requires IsDiff(prev, next, all) && c in FkAdds(all)
    ensures c.AddForeignKey? && Emitted(prev, next, c)
  {
    SelectMembers(AddingFks, all, all);
  }

  lemma AddedIsNext(prev: Schema, next: Schema, all: seq<Change>, k: ConKey)
    requires TidyPair(prev, next, all) && k in AddedCons(next, FkAdds(all))
    ensures exists r :: IsNextFk(next, r, k, AddedCons(next, FkAdds(all))[k])
  {
    AddedKeys(next, FkAdds(all), k);
    var c :| c in FkAdds(all) && IsConAdd(c) && OnModel(next, c) && ConKeyOf(next, c) == k &&
             AddedCons(next, FkAdds(all))[k] == ConOf(next.models.Get(c.model), c);
    ListedIsEmitted(prev, next, all, c);
    FkAddIsNext(prev, next, c);
  }

  lemma AddedKeyIsNoFk(all: seq<Change>, next: Schema, k: ConKey)
    requires NoDup(all) && k in AddedCons(next, KeyAdds(all))
    ensures AddedCons(next, KeyAdds(all))[k].OnColumns? && !k.kind.ForeignKeyCon?
  {
    ConLists(all);
    AddedKeys(next, KeyAdds(all), k);
  }

  lemma GoneIsDropped(prev: Schema, next: Schema, all: seq<Change>, p: ResolvedRelation)
    requires TidyPair(prev, next, all) && IsFk(prev, p) && FkGone(next, p) && next.models.Has(p.owner)
    ensures ConKey(ForeignKeyCon, next.Table(p.owner), p.constraintName) in DroppedKeys(next, FkDrops(all))
  {
    var c := DropForeignKey(p.owner, p);
    ConEmittedRole(prev, next, c);
    assert c in all;
    FkDropListed(next, all, c);
  }

  lemma FkDropListed(next: Schema, all: seq<Change>, c: Change)
    requires c in all && c.DropForeignKey? && OnModel(next, c)
    ensures ConKeyOf(next, c) in DroppedKeys(next, FkDrops(all))
  {
    SelectMembers(DroppingFks, all, all);
  }

  /** A foreign key of `prev` that is not dropped is one of `next` if its model stays. */
  lemma KeptIsNext(prev: Schema, next: Schema, all: seq<Change>, p: ResolvedRelation, k: ConKey, con: Con)
    returns (r: ResolvedRelation)
    requires TidyPair(prev, next, all) && IsFk(prev, p) && next.models.Has(p.owner) && !FkGone(next, p)
    requires k == ConKey(ForeignKeyCon, next.Table(p.owner), p.constraintName) && IsLink(p, con)
    ensures IsNextFk(next, r, k, Shifted(Renamings(next, all), k, con))
  {
    r :| IsFk(next, r) && r.name == p.name && !Redefined(p, r);
    assert GroundedFk(next, r);
    SameFk(prev, next, p, r);
    FkStays(prev, next, all, p, r, k, con);
  }

  lemma UndroppedFk(prev: Schema, next: Schema, all: seq<Change>, k: ConKey, con: Con)
    requires TidyPair(prev, next, all) && k !in DroppedKeys(next, FkDrops(all))
    requires exists m :: IsPrevFk(prev, m, k, con)
    ensures con.References?
    ensures (exists r :: IsNextFk(next, r, k, Shifted(Renamings(next, all), k, con))) || exists m :: IsDyingFk(prev, next, m, k, con)
  {
    var m :| IsPrevFk(prev, m, k, con);
    if next.models.Has(m) {
      var p :| IsFk(prev, p) && p.owner == m && p.constraintName == k.name && IsLink(p, con);
      TidyWithin(prev, next, m);
      if !FkGone(next, p) {
        var r := KeptIsNext(prev, next, all, p, k, con);
      } else {
        GoneIsDropped(prev, next, all, p);
      }
    } else {
      assert IsDyingFk(prev, next, m, k, con);
    }
  }

  /** Where a constraint before the late drops comes from. */
  lemma LinkedAt(d: Dialect, next: Schema, all: seq<Change>, cons: map<ConKey, Con>, k: ConKey)
    requires k in Linked(d, next, all, cons)
    ensures var con := Linked(d, next, all, cons)[k];
            if k in AddedCons(next, FkAdds(all)) then con == AddedCons(next, FkAdds(all))[k]
            else if k in AddedCons(next, KeyAdds(all)) then con == AddedCons(next, KeyAdds(all))[k]
            else k !in DroppedKeys(next, FkDrops(all)) && k !in DroppedKeys(next, KeyDrops(all)) &&
                 if k in Restored(d, next, all) then con == Restored(d, next, all)[k]
                 else k in cons && CarriedOver(d, next, all, k, cons[k]) == Some(con)
  {}

  lemma CarriedFk(d: Dialect, next: Schema, all: seq<Change>, k: ConKey, con: Con)
    requires CarriedOver(d, next, all, k, con).Some? && CarriedOver(d, next, all, k, con).value.References?
    ensures con.References? && CarriedOver(d, next, all, k, con).value == Shifted(Renamings(next, all), k, con)
  {}

  lemma PrevFkOf(prev: Schema, cons: map<ConKey, Con>, k: ConKey)
    requires PrevFks(prev, cons) && k in cons && cons[k].References?
    ensures exists m :: IsPrevFk(prev, m, k, cons[k])
  {}

  /** Every foreign key before the late drops is one of `next`, or belongs to a model that goes. */
  lemma LinkedFk(d: Dialect, prev: Schema, next: Schema, all: seq<Change>, cons: map<ConKey, Con>, k: ConKey)
    requires TidyPair(prev, next, all) && PrevFks(prev, cons)
    requires k in Linked(d, next, all, cons) && Linked(d, next, all, cons)[k].References?
    ensures (exists r :: IsNextFk(next, r, k, Linked(d, next, all, cons)[k])) ||
            (k in cons && Linked(d, next, all, cons)[k] == Shifted(Renamings(next, all), k, cons[k]) &&
             exists m :: IsDyingFk(prev, next, m, k, cons[k]))
  {
    LinkedAt(d, next, all, cons, k);
    if k in AddedCons(next, FkAdds(all)) {
      AddedIsNext(prev, next, all, k);
    } else if k in AddedCons(next, KeyAdds(all)) {
      AddedKeyIsNoFk(all, next, k);
    } else {
      RestoredKeys(d, next, all, k);
      CarriedFk(d, next, all, k, cons[k]);
      PrevFkOf(prev, cons, k);
      UndroppedFk(prev, next, all, k, cons[k]);
    }
  }

  // ---- Tables that go ----------------------------------------------------------------------------------

  ghost predicate IsDyingTable(prev: Schema, next: Schema, t: string) {
    exists m :: prev.models.Has(m) && !next.models.Has(m) && prev.Table(m) == t
  }

  lemma DyingNotNext(prev: Schema, next: Schema, t: string, m: ModelName)
    requires TidySchemas(prev, next) && IsDyingTable(prev, next, t) && next.models.Has(m)
    ensures next.Table(m) != t
  {
    var g :| prev.models.Has(g) && !next.models.Has(g) && prev.Table(g) == t;
    if prev.models.Has(m) {
      TidyWithin(prev, next, m);
      DistinctTables(prev, g, m);
    }
  }

  /** Where a dropped column was. */
  lemma DroppedRole(prev: Schema, next: Schema, all: seq<Change>, p: Phase, key: Key) returns (m: ModelName)
    requires TidySchemas(prev, next) && IsDiff(prev, next, all) && (p.ClearingWay? || p.Dropping?)
    requires (SelectMembers(p, all, all); key in KeysDropped(next, Select(p, all, all)))
    ensures Surviving(prev, next, m) && key.table == next.Table(m)
    ensures NameDropped(prev.models.Get(m), next.models.Get(m), key.name)
    ensures p.Dropping? <==> !NameWanted(prev.models.Get(m), next.models.Get(m), key.name)
  {
    SelectMembers(p, all, all);
    var cs := Select(p, all, all);
    var keys := KeysDropped(next, cs);
    var i :| 0 <= i < |keys| && keys[i] == key;
    var c := cs[i];
    assert c in cs && Emitted(prev, next, c);
    EmittedRole(prev, next, c);
    m := c.model;
    ShadowedMeansWanted(prev, next, all, m, c.column);
  }

  /** A column that is dropped late is one that `next` does not have, and nothing is renamed from or to it. */
  lemma LateName(prev: Schema, next: Schema, all: seq<Change>, key: Key) returns (m: ModelName)
    requires TidySchemas(prev, next) && IsDiff(prev, next, all) && key in LateGone(next, all)
    ensures Surviving(prev, next, m) && key.table == next.Table(m)
    ensures !HasColumnNamed(next.models.Get(m), key.name)
    ensures forall x :: NewName(Renamings(next, all), key.table, x) == key.name <==> x == key.name
  {
    m := DroppedRole(prev, next, all, Dropping, key);
    TidyWithin(prev, next, m);
    var p, q := prev.models.Get(m), next.models.Get(m);
    DroppedNames(p, q, key.name);
    forall x ensures NewName(Renamings(next, all), key.table, x) == key.name <==> x == key.name {
      if Key(key.table, x) in Renamings(next, all) {
        var n := MovedRole(prev, next, all, m, x);
        assert HasColumnNamed(q, q.Column(n));
        assert x == key.name ==> NameRenamed(p, q, key.name);
      }
    }
  }

  // ---- What stands in the way of the late drops ------------------------------------------------------------

  lemma {:induction false} PinnedAlike(d: Dialect, keys: seq<Key>, k: ConKey, a: Con, b: Con)
    requires a.References? && b.References?
    requires forall key :: key in keys ==> (Owns(k, a.fk, key) <==> Owns(k, b.fk, key)) && (Aims(a.fk, key) <==> Aims(b.fk, key))
    ensures Pinned(d, keys, k, a) <==> Pinned(d, keys, k, b)
  {
    if keys != [] {
      assert keys[0] in keys;
      PinnedAlike(d, keys[1..], k, a, b);
    }
  }

  lemma {:induction false} UntouchedUnpinned(d: Dialect, keys: seq<Key>, k: ConKey, con: Con)
    requires con.References? && forall key :: key in keys ==> !Owns(k, con.fk, key) && !Aims(con.fk, key)
    ensures !Pinned(d, keys, k, con)
  {
    if keys != [] {
      assert keys[0] in keys;
      UntouchedUnpinned(d, keys[1..], k, con);
    }
  }

  lemma UnownedRemains(d: Dialect, gone: set<Key>, k: ConKey, con: Con)
    requires con.References? && forall key :: key in gone ==> !Owns(k, con.fk, key)
    ensures Remains(d, gone, k, con) == Some(con)
  {
    forall x | x in con.fk.ownerCols ensures Key(k.table, x) !in gone {
      assert Owns(k, con.fk, Key(k.table, x));
    }
  }

  lemma NextFkSpared(d: Dialect, prev: Schema, next: Schema, all: seq<Change>, r: ResolvedRelation, k: ConKey, con: Con)
    requires TidyPair(prev, next, all) && IsNextFk(next, r, k, con)
    ensures !Pinned(d, LateGone(next, all), k, con) && Remains(d, KeySet(LateGone(next, all)), k, con) == Some(con)
  {
    forall key | key in LateGone(next, all) ensures !Owns(k, con.fk, key) && !Aims(con.fk, key) {
      var m := LateName(prev, next, all, key);
      if key.table == next.Table(r.owner) {
        SameModel(next, m, r.owner);
      }
      if key.table == next.Table(r.target) {
        SameModel(next, m, r.target);
      }
    }
    UntouchedUnpinned(d, LateGone(next, all), k, con);
    UnownedRemains(d, KeySet(LateGone(next, all)), k, con);
  }

  lemma DyingFkAlike(d: Dialect, prev: Schema, next: Schema, all: seq<Change>, m: ModelName, k: ConKey, con: Con)
    requires TidyPair(prev, next, all) && IsDyingFk(prev, next, m, k, con)
    ensures con.References?
    ensures var moved := Shifted(Renamings(next, all), k, con);
            && (Pinned(d, LateGone(next, all), k, moved) <==> Pinned(d, LateGone(next, all), k, con))
            && Remains(d, KeySet(LateGone(next, all)), k, moved) == Some(moved)
            && Remains(d, KeySet(EarlyGone(next, all)), k, con) == Some(con)
  {
    var moved := Shifted(Renamings(next, all), k, con);
    assert IsDyingTable(prev, next, k.table);
    forall key | key in LateGone(next, all)
      ensures !Owns(k, moved.fk, key) && !Owns(k, con.fk, key) && (Aims(moved.fk, key) <==> Aims(con.fk, key))
    {
      var g := LateName(prev, next, all, key);
      DyingNotNext(prev, next, k.table, g);
      if key.table == con.fk.targetTable {
        NamesAlike(Renamings(next, all), key.table, con.fk.targetCols, key.name);
      }
    }
    forall key | key in EarlyGone(next, all) ensures !Owns(k, con.fk, key) {
      var g := DroppedRole(prev, next, all, ClearingWay, key);
      DyingNotNext(prev, next, k.table, g);
    }
    PinnedAlike(d, LateGone(next, all), k, moved, con);
    UnownedRemains(d, KeySet(LateGone(next, all)), k, moved);
    UnownedRemains(d, KeySet(EarlyGone(next, all)), k, con);
  }

  lemma NamesAlike(moved: map<Key, string>, t: string, names: seq<string>, y: string)
    requires forall x :: NewName(moved, t, x) == y <==> x == y
    ensures y in NewNames(moved, t, names) <==> y in names
  {
    var later := NewNames(moved, t, names);
    if y in later {
      var i :| 0 <= i < |later| && later[i] == y;
      assert names[i] == y;
    }
    if y in names {
      var i :| 0 <= i < |names| && names[i] == y;
      assert later[i] == y;
    }
  }

  lemma OffNext(next: Schema, cs: seq<Change>, k: ConKey)
    requires forall g :: next.models.Has(g) ==> next.Table(g) != k.table
    ensures k !in AddedCons(next, cs) && k !in DroppedKeys(next, cs)
  {
    AddedKeys(next, cs, k);
  }

  /** A foreign key of a model that goes is among them, with its target's columns renamed. */
  lemma DyingLinked(d: Dialect, prev: Schema, next: Schema, all: seq<Change>, cons: map<ConKey, Con>, m: ModelName, k: ConKey)
    requires TidyPair(prev, next, all) && k in cons && IsDyingFk(prev, next, m, k, cons[k])
    ensures k in Linked(d, next, all, cons) && Linked(d, next, all, cons)[k] == Shifted(Renamings(next, all), k, cons[k])
  {
    DyingFkAlike(d, prev, next, all, m, k, cons[k]);
    assert IsDyingTable(prev, next, k.table);
    forall g | next.models.Has(g) ensures next.Table(g) != k.table {
      DyingNotNext(prev, next, k.table, g);
    }
    OffNext(next, FkDrops(all), k);
    OffNext(next, KeyDrops(all), k);
    OffNext(next, KeyAdds(all), k);
    OffNext(next, FkAdds(all), k);
    StaysThrough(d, next, all, cons, k);
  }

  /** A constraint that nothing drops or adds is carried over. */
  lemma StaysThrough(d: Dialect, next: Schema, all: seq<Change>, cons: map<ConKey, Con>, k: ConKey)
    requires k in cons && k !in DroppedKeys(next, FkDrops(all)) && k !in DroppedKeys(next, KeyDrops(all))
    requires k !in AddedCons(next, KeyAdds(all)) && k !in AddedCons(next, FkAdds(all)) && !k.kind.PrimaryCon?
    ensures ConAt(Linked(d, next, all, cons), k) == CarriedOver(d, next, all, k, cons[k])
  {
    EarlyAt(d, next, all, cons, k);
  }

  /** `gone` are the tables of the models that go. */
  ghost predicate DyingTables(prev: Schema, next: Schema, gone: set<string>) {
    forall t :: t in gone <==> IsDyingTable(prev, next, t)
  }

  /** Only the foreign keys of models that go can stand in the way of the late drops of columns. */
  lemma LatePins(d: Dialect, prev: Schema, next: Schema, all: seq<Change>, drops: seq<Change>, cons: map<ConKey, Con>)
    requires TidyPair(prev, next, all) && PrevFks(prev, cons) && DyingTables(prev, next, TablesOf(drops))
    ensures NonePinned(d, LateGone(next, all), Linked(d, next, all, cons)) <==> NonePinned(d, LateGone(next, all), Dying(drops, cons))
  {
    var linked := Linked(d, next, all, cons);
    if NonePinned(d, LateGone(next, all), linked) {
      forall k | k in Dying(drops, cons) ensures !Pinned(d, LateGone(next, all), k, cons[k]) {
        if cons[k].References? {
          var m := DyingOwner(prev, next, cons, k);
          DyingLinked(d, prev, next, all, cons, m, k);
          DyingFkAlike(d, prev, next, all, m, k, cons[k]);
        }
      }
    }
    if NonePinned(d, LateGone(next, all), Dying(drops, cons)) {
      forall k | k in linked ensures !Pinned(d, LateGone(next, all), k, linked[k]) {
        if linked[k].References? {
          LinkedFk(d, prev, next, all, cons, k);
          if r :| IsNextFk(next, r, k, linked[k]) {
            NextFkSpared(d, prev, next, all, r, k, linked[k]);
          } else {
            var m :| IsDyingFk(prev, next, m, k, cons[k]);
            assert IsDyingTable(prev, next, k.table);
            assert k in Dying(drops, cons);
            DyingFkAlike(d, prev, next, all, m, k, cons[k]);
          }
        }
      }
    }
  }

  lemma DyingOwner(prev: Schema, next: Schema, cons: map<ConKey, Con>, k: ConKey) returns (m: ModelName)
    requires prev.Valid() && PrevFks(prev, cons) && k in cons && cons[k].References? && IsDyingTable(prev, next, k.table)
    ensures IsDyingFk(prev, next, m, k, cons[k])
  {
    m :| IsPrevFk(prev, m, k, cons[k]);
    var g :| prev.models.Has(g) && !next.models.Has(g) && prev.Table(g) == k.table;
    SameModel(prev, m, g);
  }

  // ---- And of the drops of tables ------------------------------------------------------------------------

  /** What the late drops leave of the foreign keys. */
  lemma FinalFk(d: Dialect, prev: Schema, next: Schema, all: seq<Change>, cons: map<ConKey, Con>, k: ConKey)
    requires TidyPair(prev, next, all) && PrevFks(prev, cons)
    requires k in Final(d, next, all, cons) && Final(d, next, all, cons)[k].References?
    ensures (exists r :: IsNextFk(next, r, k, Final(d, next, all, cons)[k])) ||
            (k in cons && Final(d, next, all, cons)[k] == Shifted(Renamings(next, all), k, cons[k]) &&
             exists m :: IsDyingFk(prev, next, m, k, cons[k]))
  {
    var linked := Linked(d, next, all, cons);
    assert k in linked && linked[k].References?;
    LinkedFk(d, prev, next, all, cons, k);
    if r :| IsNextFk(next, r, k, linked[k]) {
      NextFkSpared(d, prev, next, all, r, k, linked[k]);
      assert Final(d, next, all, cons)[k] == linked[k];
    } else {
      var m :| IsDyingFk(prev, next, m, k, cons[k]);
      DyingFkAlike(d, prev, next, all, m, k, cons[k]);
      assert Final(d, next, all, cons)[k] == linked[k];
    }
  }

  lemma DyingFinal(d: Dialect, prev: Schema, next: Schema, all: seq<Change>, cons: map<ConKey, Con>, m: ModelName, k: ConKey)
    requires TidyPair(prev, next, all) && k in cons && IsDyingFk(prev, next, m, k, cons[k])
    ensures k in Final(d, next, all, cons) && Final(d, next, all, cons)[k] == Shifted(Renamings(next, all), k, cons[k])
  {
    DyingLinked(d, prev, next, all, cons, m, k);
    DyingFkAlike(d, prev, next, all, m, k, cons[k]);
  }

  /** A foreign key of `next` refers to a table of `next`. */
  lemma NextFkTarget(prev: Schema, next: Schema, r: ResolvedRelation, k: ConKey, con: Con)
    requires TidySchemas(prev, next) && IsNextFk(next, r, k, con)
    ensures !IsDyingTable(prev, next, con.fk.targetTable) && !IsDyingTable(prev, next, k.table)
  {
    if IsDyingTable(prev, next, con.fk.targetTable) {
      DyingNotNext(prev, next, con.fk.targetTable, r.target);
    }
    if IsDyingTable(prev, next, k.table) {
      DyingNotNext(prev, next, k.table, r.owner);
    }
  }

  /** Whether the tables come in order is a matter of the models that go alone. */
  lemma LateOrder(d: Dialect, prev: Schema, next: Schema, all: seq<Change>, o: Choices, cons: map<ConKey, Con>)
    requires TidyPair(prev, next, all) && PrevFks(prev, cons) && DyingTables(prev, next, TablesOf(o.drops))
    requires forall c :: c in o.drops ==> c.DropModel?
    ensures InOrder(o.cascade, o.drops, Final(d, next, all, cons)) <==> InOrder(o.cascade, o.drops, Dying(o.drops, cons))
  {
    var last, dying := Final(d, next, all, cons), Dying(o.drops, cons);
    forall k, t | t in TablesOf(o.drops)
      ensures k in last && RefersTo(k, last[k], t) <==> k in dying && RefersTo(k, dying[k], t)
    {
      SameReferrers(d, prev, next, all, o, cons, k, t);
    }
    forall i | 0 <= i < |o.drops| ensures o.drops[i].table in TablesOf(o.drops) {
      assert o.drops[i] in o.drops;
    }
    OrderAlike(o.cascade, o.drops, last, dying);
  }

  lemma OrderAlike(cascade: set<string>, drops: seq<Change>, a: map<ConKey, Con>, b: map<ConKey, Con>)
    requires forall c :: c in drops ==> c.DropModel?
    requires forall i :: 0 <= i < |drops| ==> drops[i].table in TablesOf(drops)
    requires forall k, t :: t in TablesOf(drops) ==>
               (k in a && RefersTo(k, a[k], t) <==> k in b && RefersTo(k, b[k], t))
    ensures InOrder(cascade, drops, a) <==> InOrder(cascade, drops, b)
  {}

  lemma SameReferrers(d: Dialect, prev: Schema, next: Schema, all: seq<Change>, o: Choices, cons: map<ConKey, Con>, k: ConKey, t: string)
    requires TidyPair(prev, next, all) && PrevFks(prev, cons) && DyingTables(prev, next, TablesOf(o.drops))
    requires t in TablesOf(o.drops)
    ensures var last, dying := Final(d, next, all, cons), Dying(o.drops, cons);
            k in last && RefersTo(k, last[k], t) <==> k in dying && RefersTo(k, dying[k], t)
  {
    var last, dying := Final(d, next, all, cons), Dying(o.drops, cons);
    if k in last && RefersTo(k, last[k], t) {
      FinalFk(d, prev, next, all, cons, k);
      forall r | IsNextFk(next, r, k, last[k]) ensures false {
        NextFkTarget(prev, next, r, k, last[k]);
      }
      var m :| IsDyingFk(prev, next, m, k, cons[k]);
      assert IsDyingTable(prev, next, k.table);
    }
    if k in dying && RefersTo(k, dying[k], t) {
      var m := DyingOwner(prev, next, cons, k);
      DyingFinal(d, prev, next, all, cons, m, k);
    }
  }

  /** Nothing that stays refers to a table that goes. */
  lemma StayingRefers(d: Dialect, prev: Schema, next: Schema, all: seq<Change>, cons: map<ConKey, Con>, k: ConKey, gone: set<string>)
    requires TidyPair(prev, next, all) && PrevFks(prev, cons) && DyingTables(prev, next, gone)
    requires k in Final(d, next, all, cons) && k.table !in gone
    ensures !RefersToAny(k, Final(d, next, all, cons)[k], gone)
  {
    var con := Final(d, next, all, cons)[k];
    if con.References? {
      FinalFk(d, prev, next, all, cons, k);
      if r :| IsNextFk(next, r, k, con) {
        NextFkTarget(prev, next, r, k, con);
      }
    }
  }
}
