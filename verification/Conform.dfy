/**
 What a migration that ran makes of the constraints, in terms of the two schemas, and when
 that is what the new schema asks for.
 */
module Conform {
  import opened Names
  import opened Ir
  import opened Catalogue
  import opened Diff
  import opened Plan
  import opened Effects
  import opened Tidy
  import opened Phases
  import opened Trace
  import opened Fates
  import opened Constraints
  import opened Tables
  import opened ConDiff
  import opened ColumnRun
  import opened Outcome
  import opened ConRun
  import opened LateFks
  import opened Migrate

  // ---- Columns carried over ----------------------------------------------------------------------

  /** Field `n` of `next` carries on the column of field `o` of `prev`. */
  predicate Heir(prev: Model, next: Model, o: FieldName, n: FieldName) {
    Continued(prev, next, n) && Source(prev, next, n) == o
  }

  ghost predicate HasHeir(prev: Model, next: Model, o: FieldName) {
    exists n :: Heir(prev, next, o, n)
  }

  /** The columns, as `next` calls them, of those fields of `prev` that are carried on. */
  ghost function HeirColumns(prev: Model, next: Model, fields: seq<FieldName>): seq<string> {
    if fields == [] then []
    else
      var rest := HeirColumns(prev, next, fields[1..]);
      if HasHeir(prev, next, fields[0]) then
        var n :| Heir(prev, next, fields[0], n);
        [next.Column(n)] + rest
      else rest
  }

  /** What a migration leaves of a key on these fields of `prev`. */
  ghost function Heritage(d: Dialect, prev: Model, next: Model, fields: seq<FieldName>): Option<Con> {
    var left := HeirColumns(prev, next, fields);
    if |left| == |fields| || (d.Mysql? && left != []) then Some(OnColumns(left)) else None
  }

  lemma HeirUnique(prev: Model, next: Model, o: FieldName, n: FieldName, k: FieldName)
    requires prev.Valid() && next.Valid() && TidyModel(prev, next) && Heir(prev, next, o, n) && Heir(prev, next, o, k)
    ensures n == k
  {
    if n != k {
      SourcesDiffer(prev, next, n, k);
    }
  }

  lemma EarlyName(prev: Schema, next: Schema, all: seq<Change>, m: ModelName, x: string)
    requires TidySchemas(prev, next) && IsDiff(prev, next, all) && Surviving(prev, next, m)
    ensures Key(next.Table(m), x) in KeySet(EarlyGone(next, all)) <==>
              NameDropped(prev.models.Get(m), next.models.Get(m), x) && NameWanted(prev.models.Get(m), next.models.Get(m), x)
    ensures Key(next.Table(m), x) in KeySet(LateGone(next, all)) <==>
              NameDropped(prev.models.Get(m), next.models.Get(m), x) && !NameWanted(prev.models.Get(m), next.models.Get(m), x)
  {
    GoneName(prev, next, all, ClearingWay, m, x);
    GoneName(prev, next, all, Dropping, m, x);
  }

  /** The columns dropped in a phase, by name. */
  lemma GoneName(prev: Schema, next: Schema, all: seq<Change>, p: Phase, m: ModelName, x: string)
    requires TidySchemas(prev, next) && IsDiff(prev, next, all) && Surviving(prev, next, m) && (p.ClearingWay? || p.Dropping?)
    ensures (SelectMembers(p, all, all);
            Key(next.Table(m), x) in KeysDropped(next, Select(p, all, all)) <==>
              NameDropped(prev.models.Get(m), next.models.Get(m), x) &&
              (p.ClearingWay? <==> NameWanted(prev.models.Get(m), next.models.Get(m), x)))
  {
    SelectMembers(p, all, all);
    var q, r, key := prev.models.Get(m), next.models.Get(m), Key(next.Table(m), x);
    var cs := Select(p, all, all);
    if key in KeysDropped(next, cs) {
      var g := DroppedRole(prev, next, all, p, key);
      SameModel(next, g, m);
    }
    if NameDropped(q, r, x) && (p.ClearingWay? <==> NameWanted(q, r, x)) {
      DropInDiff(prev, next, all, m, x);
      ShadowedMeansWanted(prev, next, all, m, x);
      var c := DropColumn(m, x);
      assert c in cs;
      var i :| 0 <= i < |cs| && cs[i] == c;
      assert KeysDropped(next, cs)[i] == key;
    }
  }

  /** The column of a field that is carried on: never dropped, and renamed to where `next` has it. */
  lemma HeirName(prev: Schema, next: Schema, all: seq<Change>, m: ModelName, o: FieldName, n: FieldName)
    requires TidySchemas(prev, next) && IsDiff(prev, next, all) && Surviving(prev, next, m)
    requires Heir(prev.models.Get(m), next.models.Get(m), o, n)
    ensures var p, q, t := prev.models.Get(m), next.models.Get(m), next.Table(m);
            && p.fields.Has(o)
            && Key(t, p.Column(o)) !in KeySet(EarlyGone(next, all))
            && NewName(Renamings(next, all), t, p.Column(o)) == q.Column(n)
            && Key(t, q.Column(n)) !in KeySet(LateGone(next, all))
  {
    TidyWithin(prev, next, m);
    var p, q, t := prev.models.Get(m), next.models.Get(m), next.Table(m);
    SourceNames(p, q, n);
    TargetNames(p, q, n);
    EarlyName(prev, next, all, m, p.Column(o));
    EarlyName(prev, next, all, m, q.Column(n));
    if Key(t, p.Column(o)) in Renamings(next, all) {
      var k := MovedRole(prev, next, all, m, p.Column(o));
      if k != n {
        SourcesDiffer(p, q, n, k);
      }
    } else if Moves(p, q, n) {
      MoveIsRenaming(prev, next, all, m, n);
    }
  }

  lemma MoveIsRenaming(prev: Schema, next: Schema, all: seq<Change>, m: ModelName, n: FieldName)
    requires TidySchemas(prev, next) && IsDiff(prev, next, all) && Surviving(prev, next, m)
    requires Moves(prev.models.Get(m), next.models.Get(m), n)
    ensures Key(next.Table(m), prev.models.Get(m).Column(Source(prev.models.Get(m), next.models.Get(m), n))) in Renamings(next, all)
  {
    var p, q := prev.models.Get(m), next.models.Get(m);
    EmittedHere(prev, next, m, n);
    var c := RenameChange(m, p, q, n);
    RenamingsApart(prev, next, all);
    SelectMembers(Renaming, all, all);
    assert c in Select(Renaming, all, all) && FromKey(next, c) == Key(next.Table(m), p.Column(Source(p, q, n)));
    MovedKeys(next, Select(Renaming, all, all), FromKey(next, c));
  }

  /** The column of a field that is not carried on goes, early or late. */
  lemma LostName(prev: Schema, next: Schema, all: seq<Change>, m: ModelName, o: FieldName)
    requires TidySchemas(prev, next) && IsDiff(prev, next, all) && Surviving(prev, next, m)
    requires prev.models.Get(m).OwnsColumn(o) && !HasHeir(prev.models.Get(m), next.models.Get(m), o)
    ensures var x, t := prev.models.Get(m).Column(o), next.Table(m);
            Key(t, x) in KeySet(EarlyGone(next, all)) ||
            (Key(t, x) in KeySet(LateGone(next, all)) && NewName(Renamings(next, all), t, x) == x)
  {
    TidyWithin(prev, next, m);
    var p, q := prev.models.Get(m), next.models.Get(m);
    var n := OldRole(p, q, o);
    assert !Heir(p, q, o, n);
    assert NameDropped(p, q, p.Column(o));
    EarlyName(prev, next, all, m, p.Column(o));
    if !NameWanted(p, q, p.Column(o)) {
      var key := Key(next.Table(m), p.Column(o));
      assert key in LateGone(next, all);
      var g := LateName(prev, next, all, key);
    }
  }

  /** What is left of columns after early drops, renames and late drops. */
  function Through(next: Schema, all: seq<Change>, t: string, names: seq<string>): seq<string> {
    Left(KeySet(LateGone(next, all)), t, NewNames(Renamings(next, all), t, Left(KeySet(EarlyGone(next, all)), t, names)))
  }

  lemma ThroughCons(next: Schema, all: seq<Change>, t: string, x: string, rest: seq<string>)
    ensures var y := NewName(Renamings(next, all), t, x);
            Through(next, all, t, [x] + rest) ==
            (if Key(t, x) in KeySet(EarlyGone(next, all)) || Key(t, y) in KeySet(LateGone(next, all)) then [] else [y]) +
            Through(next, all, t, rest)
  {
    var early, late, moved := KeySet(EarlyGone(next, all)), KeySet(LateGone(next, all)), Renamings(next, all);
    assert ([x] + rest)[1..] == rest;
    var left := Left(early, t, rest);
    if Key(t, x) in early {
      assert Left(early, t, [x] + rest) == left;
    } else {
      assert Left(early, t, [x] + rest) == [x] + left;
      assert NewNames(moved, t, [x] + left) == [NewName(moved, t, x)] + NewNames(moved, t, left);
      assert ([NewName(moved, t, x)] + NewNames(moved, t, left))[1..] == NewNames(moved, t, left);
    }
  }

  lemma {:induction false} ThroughIsHeirs(prev: Schema, next: Schema, all: seq<Change>, m: ModelName, fields: seq<FieldName>)
    requires TidySchemas(prev, next) && IsDiff(prev, next, all) && Surviving(prev, next, m)
    requires forall f :: f in fields ==> prev.models.Get(m).OwnsColumn(f)
    ensures Through(next, all, next.Table(m), TargetColumns(prev.models.Get(m), fields)) ==
            HeirColumns(prev.models.Get(m), next.models.Get(m), fields)
  {
    var p, q, t := prev.models.Get(m), next.models.Get(m), next.Table(m);
    if fields != [] {
      var o, rest := fields[0], fields[1..];
      assert o in fields;
      ThroughIsHeirs(prev, next, all, m, rest);
      assert TargetColumns(p, fields) == [p.Column(o)] + TargetColumns(p, rest);
      ThroughCons(next, all, t, p.Column(o), TargetColumns(p, rest));
      OneThrough(prev, next, all, m, o);
    }
  }

  /** One column: on its heir, or gone. */
  lemma OneThrough(prev: Schema, next: Schema, all: seq<Change>, m: ModelName, o: FieldName)
    requires TidySchemas(prev, next) && IsDiff(prev, next, all) && Surviving(prev, next, m) && prev.models.Get(m).OwnsColumn(o)
    ensures var p, q, t := prev.models.Get(m), next.models.Get(m), next.Table(m);
            var y := NewName(Renamings(next, all), t, p.Column(o));
            if HasHeir(p, q, o) then
              && Key(t, p.Column(o)) !in KeySet(EarlyGone(next, all)) && Key(t, y) !in KeySet(LateGone(next, all))
              && forall n :: Heir(p, q, o, n) ==> q.Column(n) == y
            else Key(t, p.Column(o)) in KeySet(EarlyGone(next, all)) || Key(t, y) in KeySet(LateGone(next, all))
  {
    var p, q := prev.models.Get(m), next.models.Get(m);
    if HasHeir(p, q, o) {
      forall n | Heir(p, q, o, n) ensures NewName(Renamings(next, all), next.Table(m), p.Column(o)) == q.Column(n) {
        HeirName(prev, next, all, m, o, n);
      }
      var n :| Heir(p, q, o, n);
      HeirName(prev, next, all, m, o, n);
    } else {
      LostName(prev, next, all, m, o);
    }
  }

  /** What a key on columns of `prev` comes to, from the start to the end of the plan. */
  ghost function Ends(d: Dialect, next: Schema, all: seq<Change>, k: ConKey, con: Con): Option<Con> {
    var early := CarriedOver(d, next, all, k, con);
    if early.None? then None else Remains(d, KeySet(LateGone(next, all)), k, early.value)
  }

  lemma EndsThrough(d: Dialect, next: Schema, all: seq<Change>, k: ConKey, cols: seq<string>)
    ensures var left := Through(next, all, k.table, cols);
            Ends(d, next, all, k, OnColumns(cols)) ==
            if |left| == |cols| || (d.Mysql? && left != []) then Some(OnColumns(left)) else None
  {
    var early, late, moved := KeySet(EarlyGone(next, all)), KeySet(LateGone(next, all)), Renamings(next, all);
    var first := Left(early, k.table, cols);
    LeftMembers(early, k.table, cols);
    LeftMembers(late, k.table, NewNames(moved, k.table, first));
  }

  /** A key ends on the heirs of its columns. */
  lemma EndsOnHeirs(d: Dialect, prev: Schema, next: Schema, all: seq<Change>, m: ModelName, k: ConKey, fields: seq<FieldName>)
    requires TidySchemas(prev, next) && IsDiff(prev, next, all) && Surviving(prev, next, m) && k.table == next.Table(m)
    requires forall f :: f in fields ==> prev.models.Get(m).OwnsColumn(f)
    ensures Ends(d, next, all, k, OnColumns(TargetColumns(prev.models.Get(m), fields))) ==
            Heritage(d, prev.models.Get(m), next.models.Get(m), fields)
  {
    EndsThrough(d, next, all, k, TargetColumns(prev.models.Get(m), fields));
    ThroughIsHeirs(prev, next, all, m, fields);
  }

  // ---- Where each constraint ends ------------------------------------------------------------------

  lemma FinalCarried(d: Dialect, next: Schema, all: seq<Change>, cons: map<ConKey, Con>, k: ConKey)
    requires k !in AddedCons(next, KeyAdds(all)) && k !in AddedCons(next, FkAdds(all))
    ensures ConAt(Final(d, next, all, cons), k) ==
            if k in DroppedKeys(next, FkDrops(all)) || k in DroppedKeys(next, KeyDrops(all)) then None
            else if k in Restored(d, next, all) then Remains(d, KeySet(LateGone(next, all)), k, Restored(d, next, all)[k])
            else if k in cons then Ends(d, next, all, k, cons[k]) else None
    ensures !k.kind.PrimaryCon? ==> k !in Restored(d, next, all)
  {
    RestoredKeys(d, next, all, k);
  }

  lemma FinalAdded(d: Dialect, next: Schema, all: seq<Change>, cons: map<ConKey, Con>, k: ConKey)
    requires k in AddedCons(next, KeyAdds(all)) || k in AddedCons(next, FkAdds(all))
    ensures ConAt(Final(d, next, all, cons), k) ==
            Remains(d, KeySet(LateGone(next, all)), k,
                    if k in AddedCons(next, FkAdds(all)) then AddedCons(next, FkAdds(all))[k] else AddedCons(next, KeyAdds(all))[k])
  {}

  predicate IsDefKind(kind: ConKind) {
    kind.UniqueCon? || kind.IndexCon?
  }

  function AddOf(m: ModelName, kind: ConKind, e: IndexDef): Change {
    if kind.UniqueCon? then AddUnique(m, e) else CreateIndex(m, e)
  }

  function DropOf(m: ModelName, kind: ConKind, x: string): Change {
    if kind.UniqueCon? then DropUnique(m, x) else DropIndex(m, x)
  }

  lemma NoFkAdded(all: seq<Change>, next: Schema, k: ConKey)
    requires !k.kind.ForeignKeyCon?
    ensures k !in AddedCons(next, FkAdds(all)) && k !in DroppedKeys(next, FkDrops(all))
  {
    SelectMembers(AddingFks, all, all);
    SelectMembers(DroppingFks, all, all);
    AddedKeys(next, FkAdds(all), k);
  }

  lemma KeyAddIn(all: seq<Change>, c: Change)
    ensures c in KeyAdds(all) <==> c in all && IsKeyAdd(c)
    ensures c in KeyDrops(all) <==> c in all && IsKeyDrop(c)
  {
    SelectMembers(AddingUniques, all, all);
    SelectMembers(AddingIndexes, all, all);
    SelectMembers(DroppingUniques, all, all);
    SelectMembers(DroppingIndexes, all, all);
  }

  /** The diff adds the definitions that are new. */
  lemma AddListed(prev: Schema, next: Schema, all: seq<Change>, m: ModelName, kind: ConKind, e: IndexDef)
    requires TidyPair(prev, next, all) && IsDefKind(kind)
    ensures AddOf(m, kind, e) in all <==>
              Surviving(prev, next, m) && e in DefsOf(next.models.Get(m), kind) && e !in DefsOf(prev.models.Get(m), kind)
  {
    ConEmittedRole(prev, next, AddOf(m, kind, e));
  }

  lemma DropRole(prev: Schema, next: Schema, m: ModelName, kind: ConKind, x: string)
    requires TidyConstraints(prev, next) && IsDefKind(kind)
    ensures Emitted(prev, next, DropOf(m, kind, x)) <==>
              Surviving(prev, next, m) && Removed(DefsOf(prev.models.Get(m), kind), DefsOf(next.models.Get(m), kind), x)
  {
    ConEmittedRole(prev, next, DropOf(m, kind, x));
  }

  /** And drops the names of those that are gone. */
  lemma DropListed(prev: Schema, next: Schema, all: seq<Change>, m: ModelName, kind: ConKind, x: string)
    requires TidyPair(prev, next, all) && IsDefKind(kind)
    ensures DropOf(m, kind, x) in all <==>
              Surviving(prev, next, m) && Removed(DefsOf(prev.models.Get(m), kind), DefsOf(next.models.Get(m), kind), x)
  {
    DropRole(prev, next, m, kind, x);
  }

  /** The change behind an added index or unique. */
  lemma AddBehind(next: Schema, all: seq<Change>, m: ModelName, kind: ConKind, x: string) returns (e: IndexDef)
    requires next.Valid() && next.models.Has(m) && IsDefKind(kind)
    requires ConKey(kind, next.Table(m), x) in AddedCons(next, KeyAdds(all))
    ensures e.dbName == x && AddOf(m, kind, e) in all
    ensures AddedCons(next, KeyAdds(all))[ConKey(kind, next.Table(m), x)] == OnColumns(TargetColumns(next.models.Get(m), e.targets))
  {
    var k := ConKey(kind, next.Table(m), x);
    AddedKeys(next, KeyAdds(all), k);
    var c :| c in KeyAdds(all) && IsConAdd(c) && OnModel(next, c) && ConKeyOf(next, c) == k &&
             AddedCons(next, KeyAdds(all))[k] == ConOf(next.models.Get(c.model), c);
    KeyAddIn(all, c);
    SameModel(next, c.model, m);
    e := if c.AddUnique? then c.unique else c.index;
  }

  lemma AddedThen(next: Schema, all: seq<Change>, m: ModelName, kind: ConKind, e: IndexDef)
    requires next.models.Has(m) && IsDefKind(kind) && AddOf(m, kind, e) in all
    ensures ConKey(kind, next.Table(m), e.dbName) in AddedCons(next, KeyAdds(all))
  {
    var c := AddOf(m, kind, e);
    KeyAddIn(all, c);
    AddedKeys(next, KeyAdds(all), ConKeyOf(next, c));
  }

  /** What the diff adds under the name of an index or unique. */
  lemma DefAdded(prev: Schema, next: Schema, all: seq<Change>, m: ModelName, kind: ConKind, e: IndexDef)
    requires TidyPair(prev, next, all) && Surviving(prev, next, m) && IsDefKind(kind) && e in DefsOf(next.models.Get(m), kind)
    ensures var k := ConKey(kind, next.Table(m), e.dbName);
            && (k in AddedCons(next, KeyAdds(all)) <==> e !in DefsOf(prev.models.Get(m), kind))
            && (k in AddedCons(next, KeyAdds(all)) ==>
                  AddedCons(next, KeyAdds(all))[k] == OnColumns(TargetColumns(next.models.Get(m), e.targets)))
  {
    AddListed(prev, next, all, m, kind, e);
    if ConKey(kind, next.Table(m), e.dbName) in AddedCons(next, KeyAdds(all)) {
      var f := AddBehind(next, all, m, kind, e.dbName);
      AddListed(prev, next, all, m, kind, f);
      NamesDistinct(next, m);
      SameDef(DefsOf(next.models.Get(m), kind), f, e);
    } else if e !in DefsOf(prev.models.Get(m), kind) {
      AddedThen(next, all, m, kind, e);
    }
  }

  lemma NoDefAdded(prev: Schema, next: Schema, all: seq<Change>, m: ModelName, kind: ConKind, x: string)
    requires TidyPair(prev, next, all) && next.models.Has(m) && IsDefKind(kind)
    requires prev.models.Has(m) ==> forall e :: e in DefsOf(next.models.Get(m), kind) ==> e.dbName != x
    ensures ConKey(kind, next.Table(m), x) !in AddedCons(next, KeyAdds(all))
  {
    if ConKey(kind, next.Table(m), x) in AddedCons(next, KeyAdds(all)) {
      var f := AddBehind(next, all, m, kind, x);
      AddListed(prev, next, all, m, kind, f);
    }
  }

  /** A name is dropped if a definition of it is gone. */
  lemma DefDropped(prev: Schema, next: Schema, all: seq<Change>, m: ModelName, kind: ConKind, x: string)
    requires TidyPair(prev, next, all) && next.models.Has(m) && IsDefKind(kind)
    ensures ConKey(kind, next.Table(m), x) in DroppedKeys(next, KeyDrops(all)) <==> DropOf(m, kind, x) in all
  {
    var k, c := ConKey(kind, next.Table(m), x), DropOf(m, kind, x);
    KeyAddIn(all, c);
    assert OnModel(next, c) && ConKeyOf(next, c) == k;
    if k in DroppedKeys(next, KeyDrops(all)) {
      var e :| e in KeyDrops(all) && OnModel(next, e) && ConKeyOf(next, e) == k;
      KeyAddIn(all, e);
      SameModel(next, e.model, m);
      assert e == c;
    }
  }

  /** The constraints on the table of a surviving model are those of `prev` at first. */
  ghost predicate StartsAs(prev: Schema, next: Schema, m: ModelName, cons: map<ConKey, Con>)
    requires Surviving(prev, next, m)
  {
    prev.Table(m) == next.Table(m) && ConsAre(prev, m, cons)
  }

  /** An index or unique of `next` ends as defined there if it is new, and else on the heirs of its columns. */
  lemma DefEnds(d: Dialect, prev: Schema, next: Schema, all: seq<Change>, cons: map<ConKey, Con>, m: ModelName, kind: ConKind,
                e: IndexDef)
    requires TidyPair(prev, next, all) && Surviving(prev, next, m) && StartsAs(prev, next, m, cons)
    requires IsDefKind(kind) && e in DefsOf(next.models.Get(m), kind)
    ensures ConAt(Final(d, next, all, cons), ConKey(kind, next.Table(m), e.dbName)) ==
            if e in DefsOf(prev.models.Get(m), kind) then Heritage(d, prev.models.Get(m), next.models.Get(m), e.targets)
            else Some(OnColumns(TargetColumns(next.models.Get(m), e.targets)))
  {
    var p, q, k := prev.models.Get(m), next.models.Get(m), ConKey(kind, next.Table(m), e.dbName);
    DefAdded(prev, next, all, m, kind, e);
    NoFkAdded(all, next, k);
    NamesDistinct(prev, m);
    if e in DefsOf(p, kind) {
      FinalCarried(d, next, all, cons, k);
      DefDropped(prev, next, all, m, kind, e.dbName);
      DropListed(prev, next, all, m, kind, e.dbName);
      assert !Removed(DefsOf(p, kind), DefsOf(q, kind), e.dbName) by {
        forall f | f in DefsOf(p, kind) && f.dbName == e.dbName ensures f == e {
          SameDef(DefsOf(p, kind), f, e);
        }
      }
      assert Wants(prev, m, kind, e.dbName, OnColumns(TargetColumns(p, e.targets)));
      EndsOnHeirs(d, prev, next, all, m, k, e.targets);
    } else {
      FinalAdded(d, next, all, cons, k);
      NextColumnsStay(d, prev, next, all, m, k, e.targets);
    }
  }

  /** Nothing is left under a name that `next` does not use. */
  lemma NoDefEnds(d: Dialect, prev: Schema, next: Schema, all: seq<Change>, cons: map<ConKey, Con>, m: ModelName, kind: ConKind,
                  x: string)
    requires TidyPair(prev, next, all) && Surviving(prev, next, m) && StartsAs(prev, next, m, cons)
    requires IsDefKind(kind) && forall e :: e in DefsOf(next.models.Get(m), kind) ==> e.dbName != x
    ensures ConAt(Final(d, next, all, cons), ConKey(kind, next.Table(m), x)) == None
  {
    var p, q, k := prev.models.Get(m), next.models.Get(m), ConKey(kind, next.Table(m), x);
    NoFkAdded(all, next, k);
    NoDefAdded(prev, next, all, m, kind, x);
    FinalCarried(d, next, all, cons, k);
    DefDropped(prev, next, all, m, kind, x);
    DropListed(prev, next, all, m, kind, x);
    if k in cons {
      assert ConAt(cons, k) == Some(cons[k]);
      assert Wants(prev, m, kind, x, cons[k]);
    }
  }

  /** The late drops spare the columns of `next`. */
  lemma NextColumnsStay(d: Dialect, prev: Schema, next: Schema, all: seq<Change>, m: ModelName, k: ConKey, fields: seq<FieldName>)
    requires TidySchemas(prev, next) && IsDiff(prev, next, all) && next.models.Has(m) && k.table == next.Table(m)
    requires forall f :: f in fields ==> next.models.Get(m).OwnsColumn(f)
    ensures var con := OnColumns(TargetColumns(next.models.Get(m), fields));
            Remains(d, KeySet(LateGone(next, all)), k, con) == Some(con)
  {
    var q, t := next.models.Get(m), next.Table(m);
    var cols := TargetColumns(q, fields);
    forall x | x in cols ensures Key(t, x) !in KeySet(LateGone(next, all)) {
      var i :| 0 <= i < |cols| && cols[i] == x;
      assert fields[i] in fields && q.OwnsColumn(fields[i]);
      assert HasColumnNamed(q, x);
      if Key(t, x) in LateGone(next, all) {
        var g := LateName(prev, next, all, Key(t, x));
        SameModel(next, g, m);
      }
    }
  }

  // ---- Keys that keep their columns --------------------------------------------------------------------

  lemma {:induction false} HeirsAtMost(prev: Model, next: Model, fields: seq<FieldName>, f: FieldName)
    ensures |HeirColumns(prev, next, fields)| <= |fields|
    ensures f in fields && !HasHeir(prev, next, f) ==> |HeirColumns(prev, next, fields)| < |fields|
  {
    if fields != [] {
      HeirsAtMost(prev, next, fields[1..], f);
      assert fields == [fields[0]] + fields[1..];
    }
  }

  lemma {:induction false} KeptColumns(prev: Model, next: Model, fields: seq<FieldName>)
    requires prev.Valid() && next.Valid() && TidyModel(prev, next)
    requires forall f :: f in fields ==> Heir(prev, next, f, f)
    ensures HeirColumns(prev, next, fields) == TargetColumns(next, fields)
  {
    if fields != [] {
      var f := fields[0];
      assert f in fields && Heir(prev, next, f, f);
      KeptColumns(prev, next, fields[1..]);
      forall n | Heir(prev, next, f, n) ensures n == f {
        HeirUnique(prev, next, f, n, f);
      }
      assert TargetColumns(next, fields) == [next.Column(f)] + TargetColumns(next, fields[1..]);
    }
  }

  /** A definition that both schemas have keeps its columns exactly if none of its fields took over another column. */
  lemma HeritageSame(d: Dialect, prev: Model, next: Model, fields: seq<FieldName>)
    requires prev.Valid() && next.Valid() && TidyModel(prev, next)
    requires forall f :: f in fields ==> prev.OwnsColumn(f) && next.OwnsColumn(f)
    ensures Heritage(d, prev, next, fields) == Some(OnColumns(TargetColumns(next, fields))) <==>
              forall f :: f in fields ==> !Hinted(prev, next, f)
  {
    if forall f :: f in fields ==> !Hinted(prev, next, f) {
      KeptColumns(prev, next, fields);
    } else {
      var f :| f in fields && Hinted(prev, next, f);
      assert next.fields.Has(f);
      HeirsAtMost(prev, next, fields, f);
    }
  }

  // ---- Primary keys and the uniques of fields --------------------------------------------------------------

  /** These keys come with their table, and no change adds or drops them; MySQL may make a primary key anew. */
  lemma TableKeyStays(d: Dialect, next: Schema, all: seq<Change>, cons: map<ConKey, Con>, k: ConKey)
    requires k.kind.PrimaryCon? || k.kind.InlineCon?
    ensures ConAt(Final(d, next, all, cons), k) ==
            if k in Restored(d, next, all) then Remains(d, KeySet(LateGone(next, all)), k, Restored(d, next, all)[k])
            else if k in cons then Ends(d, next, all, k, cons[k]) else None
    ensures k.kind.InlineCon? ==> k !in Restored(d, next, all)
  {
    RestoredKeys(d, next, all, k);
    NoFkAdded(all, next, k);
    AddedKeys(next, KeyAdds(all), k);
    forall c: Change {
      KeyAddIn(all, c);
    }
    FinalCarried(d, next, all, cons, k);
  }

  ghost function PrimaryHeritage(d: Dialect, prev: Model, next: Model): Option<Con> {
    if prev.primary == [] then None else Heritage(d, prev, next, prev.primary)
  }

  /** The plan restates the column of the `@id` field. */
  ghost predicate RestatesId(prev: Model, next: Model) {
    exists n :: Continued(prev, next, n) && Restated(prev, next, n) && next.fields.Get(n).isId
  }

  lemma IdIsKey(next: Model, n: FieldName)
    requires next.HasOneKey() && next.fields.Has(n) && next.fields.Get(n).isId
    ensures next.primary == [n] && OnColumns(TargetColumns(next, next.primary)) == OnColumns([next.Column(n)])
  {
    assert TargetColumns(next, [n]) == [next.Column(n)];
  }

  /** A change that restates a key is about the `@id` field of a surviving model. */
  lemma KeyStmtRole(d: Dialect, prev: Schema, next: Schema, all: seq<Change>, p: Phase, c: Change)
    requires TidySchemas(prev, next) && IsDiff(prev, next, all) && (p.Renaming? || p.Altering?)
    requires c in Select(p, all, all) && KeyStmt(d, next, c)
    ensures d.Mysql? && Surviving(prev, next, c.model) && RestatesId(prev.models.Get(c.model), next.models.Get(c.model))
    ensures var q := next.models.Get(c.model); OnColumns([ToColumn(c)]) == OnColumns(TargetColumns(q, q.primary))
  {
    SelectMembers(p, all, all);
    assert Emitted(prev, next, c);
    EmittedRole(prev, next, c);
    assert next.models.Get(c.model).HasOneKey();
    IdIsKey(next.models.Get(c.model), if c.RenameColumn? then c.toName else c.to.name);
  }

  /** A key that MySQL makes anew is the one that `next` asks for. */
  lemma GainedIsWanted(d: Dialect, prev: Schema, next: Schema, all: seq<Change>, p: Phase, m: ModelName)
    requires TidySchemas(prev, next) && IsDiff(prev, next, all) && Surviving(prev, next, m) && (p.Renaming? || p.Altering?)
    requires PrimaryOf(next.Table(m)) in GainedBy(d, next, Select(p, all, all))
    ensures var q := next.models.Get(m);
            && d.Mysql? && RestatesId(prev.models.Get(m), q)
            && GainedBy(d, next, Select(p, all, all))[PrimaryOf(next.Table(m))] == OnColumns(TargetColumns(q, q.primary))
  {
    var cs, k := Select(p, all, all), PrimaryOf(next.Table(m));
    GainedKeys(d, next, cs, k);
    var c :| c in cs && KeyStmt(d, next, c) && k == PrimaryOf(next.Table(c.model)) &&
             GainedBy(d, next, cs)[k] == OnColumns([ToColumn(c)]);
    KeyStmtRole(d, prev, next, all, p, c);
    SameModel(next, c.model, m);
  }

  /** No key is made anew on a table that no surviving model owns. */
  lemma RestoredOff(d: Dialect, prev: Schema, next: Schema, all: seq<Change>, k: ConKey)
    requires TidySchemas(prev, next) && IsDiff(prev, next, all) && Bystander(prev, next, k.table)
    ensures k !in Restored(d, next, all)
  {
    GainedKeys(d, next, RenameList(all), k);
    GainedKeys(d, next, AlterList(all), k);
    forall c | c in RenameList(all) && KeyStmt(d, next, c) ensures next.Table(c.model) != k.table {
      KeyStmtRole(d, prev, next, all, Renaming, c);
    }
    forall c | c in AlterList(all) && KeyStmt(d, next, c) ensures next.Table(c.model) != k.table {
      KeyStmtRole(d, prev, next, all, Altering, c);
    }
  }

  lemma RestatedIsGained(d: Dialect, prev: Schema, next: Schema, all: seq<Change>, m: ModelName, n: FieldName)
    requires TidySchemas(prev, next) && IsDiff(prev, next, all) && Surviving(prev, next, m) && d.Mysql?
    requires Restated(prev.models.Get(m), next.models.Get(m), n) && next.models.Get(m).fields.Get(n).isId
    ensures PrimaryOf(next.Table(m)) in Restored(d, next, all)
  {
    var p, q, k := prev.models.Get(m), next.models.Get(m), PrimaryOf(next.Table(m));
    EmittedHere(prev, next, m, n);
    SelectMembers(Renaming, all, all);
    SelectMembers(Altering, all, all);
    GainedKeys(d, next, RenameList(all), k);
    GainedKeys(d, next, AlterList(all), k);
    if Renames(p, q, n) {
      assert RenameChange(m, p, q, n) in RenameList(all) && KeyStmt(d, next, RenameChange(m, p, q, n));
    } else {
      assert AlterChange(m, p, q, n) in AlterList(all) && KeyStmt(d, next, AlterChange(m, p, q, n));
    }
  }

  lemma RestoredAt(d: Dialect, prev: Schema, next: Schema, all: seq<Change>, m: ModelName)
    requires TidySchemas(prev, next) && IsDiff(prev, next, all) && Surviving(prev, next, m)
    ensures var k, q := PrimaryOf(next.Table(m)), next.models.Get(m);
            && (k in Restored(d, next, all) <==> d.Mysql? && RestatesId(prev.models.Get(m), q))
            && (k in Restored(d, next, all) ==> Restored(d, next, all)[k] == OnColumns(TargetColumns(q, q.primary)))
  {
    var p, q, k := prev.models.Get(m), next.models.Get(m), PrimaryOf(next.Table(m));
    if k in GainedBy(d, next, RenameList(all)) {
      GainedIsWanted(d, prev, next, all, Renaming, m);
    }
    if k in GainedBy(d, next, AlterList(all)) {
      GainedIsWanted(d, prev, next, all, Altering, m);
    }
    if d.Mysql? && RestatesId(p, q) {
      var n :| Continued(p, q, n) && Restated(p, q, n) && q.fields.Get(n).isId;
      RestatedIsGained(d, prev, next, all, m, n);
    }
  }

  /** Where the primary key ends: made anew as `next` has it, or on the heirs of its columns. */
  ghost function PrimaryEnd(d: Dialect, prev: Model, next: Model): Option<Con> {
    if d.Mysql? && RestatesId(prev, next) then Some(OnColumns(TargetColumns(next, next.primary))) else PrimaryHeritage(d, prev, next)
  }

  lemma PrimaryEnds(d: Dialect, prev: Schema, next: Schema, all: seq<Change>, cons: map<ConKey, Con>, m: ModelName, x: string)
    requires TidyPair(prev, next, all) && Surviving(prev, next, m) && StartsAs(prev, next, m, cons)
    ensures ConAt(Final(d, next, all, cons), ConKey(PrimaryCon, next.Table(m), x)) ==
            if x == "" then PrimaryEnd(d, prev.models.Get(m), next.models.Get(m)) else None
  {
    var p, q, k := prev.models.Get(m), next.models.Get(m), ConKey(PrimaryCon, next.Table(m), x);
    TableKeyStays(d, next, all, cons, k);
    if x == "" {
      RestoredAt(d, prev, next, all, m);
    } else {
      UnnamedKeys(d, next, all, k);
    }
    if k in Restored(d, next, all) {
      assert SoundKey(q);
      NextColumnsStay(d, prev, next, all, m, k, q.primary);
    } else if k in cons {
      assert ConAt(cons, k) == Some(cons[k]);
      assert Wants(prev, m, PrimaryCon, x, cons[k]);
      EndsOnHeirs(d, prev, next, all, m, k, p.primary);
    } else if x == "" && p.primary != [] {
      assert Wants(prev, m, PrimaryCon, x, OnColumns(TargetColumns(p, p.primary)));
    }
  }

  lemma UnnamedKeys(d: Dialect, next: Schema, all: seq<Change>, k: ConKey)
    ensures k in Restored(d, next, all) ==> k.name == ""
  {
    GainedKeys(d, next, RenameList(all), k);
    GainedKeys(d, next, AlterList(all), k);
  }

  /** The field carries on a column that was unique by itself. */
  predicate InheritsUnique(prev: Model, next: Model, n: FieldName) {
    Continued(prev, next, n) && prev.fields.Get(Source(prev, next, n)).isUnique
  }

  ghost predicate InlineHeir(prev: Model, next: Model, con: Con) {
    exists n :: InheritsUnique(prev, next, n) && con == OnColumns([next.Column(n)])
  }

  lemma HeritageOne(d: Dialect, prev: Model, next: Model, o: FieldName)
    requires prev.Valid() && next.Valid() && TidyModel(prev, next)
    ensures HasHeir(prev, next, o) ==>
              forall n :: Heir(prev, next, o, n) ==> Heritage(d, prev, next, [o]) == Some(OnColumns([next.Column(n)]))
    ensures !HasHeir(prev, next, o) ==> Heritage(d, prev, next, [o]) == None
  {
    assert [o][1..] == [];
    assert HeirColumns(prev, next, []) == [];
    if HasHeir(prev, next, o) {
      forall n, k | Heir(prev, next, o, n) && Heir(prev, next, o, k) ensures n == k {
        HeirUnique(prev, next, o, n, k);
      }
      var n :| Heir(prev, next, o, n);
      assert HeirColumns(prev, next, [o]) == [next.Column(n)] + [] == [next.Column(n)];
    }
  }

  /** The key of one unique field, wherever it is. */
  lemma InlineAtEnds(d: Dialect, prev: Schema, next: Schema, all: seq<Change>, cons: map<ConKey, Con>, m: ModelName, x: string,
                     o: FieldName)
    requires TidySchemas(prev, next) && IsDiff(prev, next, all) && Surviving(prev, next, m) && prev.models.Get(m).OwnsColumn(o)
    requires ConAt(cons, ConKey(InlineCon, next.Table(m), x)) == Some(OnColumns([prev.models.Get(m).Column(o)]))
    ensures ConAt(Final(d, next, all, cons), ConKey(InlineCon, next.Table(m), x)) ==
            Heritage(d, prev.models.Get(m), next.models.Get(m), [o])
  {
    var p, k := prev.models.Get(m), ConKey(InlineCon, next.Table(m), x);
    TableKeyStays(d, next, all, cons, k);
    assert TargetColumns(p, [o]) == [p.Column(o)];
    EndsOnHeirs(d, prev, next, all, m, k, [o]);
  }

  lemma InlineCameFrom(d: Dialect, prev: Schema, next: Schema, all: seq<Change>, cons: map<ConKey, Con>, m: ModelName, con: Con)
    requires TidyPair(prev, next, all) && Surviving(prev, next, m) && StartsAs(prev, next, m, cons)
    requires InlineAt(Final(d, next, all, cons), next.Table(m), con)
    ensures InlineHeir(prev.models.Get(m), next.models.Get(m), con)
  {
    TidyWithin(prev, next, m);
    var p, q, t := prev.models.Get(m), next.models.Get(m), next.Table(m);
    var x :| ConAt(Final(d, next, all, cons), ConKey(InlineCon, t, x)) == Some(con);
    var k := ConKey(InlineCon, t, x);
    TableKeyStays(d, next, all, cons, k);
    assert InlineAt(cons, t, cons[k]) && WantsInline(p, cons[k]);
    var o :| p.OwnsColumn(o) && p.fields.Get(o).isUnique && cons[k] == OnColumns([p.Column(o)]);
    InlineAtEnds(d, prev, next, all, cons, m, x, o);
    HeritageOne(d, p, q, o);
    var n :| Heir(p, q, o, n);
    assert InheritsUnique(p, q, n);
  }

  lemma InlineGoesTo(d: Dialect, prev: Schema, next: Schema, all: seq<Change>, cons: map<ConKey, Con>, m: ModelName, n: FieldName)
    requires TidyPair(prev, next, all) && Surviving(prev, next, m) && StartsAs(prev, next, m, cons)
    requires InheritsUnique(prev.models.Get(m), next.models.Get(m), n)
    ensures InlineAt(Final(d, next, all, cons), next.Table(m), OnColumns([next.models.Get(m).Column(n)]))
  {
    TidyWithin(prev, next, m);
    var p, q, t := prev.models.Get(m), next.models.Get(m), next.Table(m);
    var o := Source(p, q, n);
    SourceNotDropped(p, q, n);
    assert WantsInline(p, OnColumns([p.Column(o)]));
    assert InlineAt(cons, t, OnColumns([p.Column(o)]));
    var x :| ConAt(cons, ConKey(InlineCon, t, x)) == Some(OnColumns([p.Column(o)]));
    InlineAtEnds(d, prev, next, all, cons, m, x, o);
    assert Heir(p, q, o, n);
    HeritageOne(d, p, q, o);
  }

  lemma InlineEnds(d: Dialect, prev: Schema, next: Schema, all: seq<Change>, cons: map<ConKey, Con>, m: ModelName, con: Con)
    requires TidyPair(prev, next, all) && Surviving(prev, next, m) && StartsAs(prev, next, m, cons)
    ensures InlineAt(Final(d, next, all, cons), next.Table(m), con) <==> InlineHeir(prev.models.Get(m), next.models.Get(m), con)
  {
    if InlineAt(Final(d, next, all, cons), next.Table(m), con) {
      InlineCameFrom(d, prev, next, all, cons, m, con);
    }
    var p, q := prev.models.Get(m), next.models.Get(m);
    if InlineHeir(p, q, con) {
      var n :| InheritsUnique(p, q, n) && con == OnColumns([q.Column(n)]);
      InlineGoesTo(d, prev, next, all, cons, m, n);
    }
  }

  /** No field changes its `@unique`, and no added field carries one. */
  predicate KeepsUniques(prev: Model, next: Model) {
    forall n :: n in next.fields.entries && next.OwnsColumn(n) ==>
      (next.fields.Get(n).isUnique <==> InheritsUnique(prev, next, n))
  }

  lemma InlineFits(prev: Model, next: Model)
    requires prev.Valid() && next.Valid()
    ensures (forall con :: InlineHeir(prev, next, con) <==> WantsInline(next, con)) <==> KeepsUniques(prev, next)
  {
    forall n | next.OwnsColumn(n)
      ensures InlineHeir(prev, next, OnColumns([next.Column(n)])) <==> InheritsUnique(prev, next, n)
      ensures WantsInline(next, OnColumns([next.Column(n)])) <==> next.fields.Get(n).isUnique
    {
      forall k | next.OwnsColumn(k) && [next.Column(k)] == [next.Column(n)] ensures k == n {
        assert [next.Column(k)][0] == [next.Column(n)][0];
      }
    }
    forall con | InlineHeir(prev, next, con) || WantsInline(next, con)
      ensures exists n :: next.OwnsColumn(n) && con == OnColumns([next.Column(n)])
    {
      if InlineHeir(prev, next, con) {
        var n :| InheritsUnique(prev, next, n) && con == OnColumns([next.Column(n)]);
        assert next.OwnsColumn(n);
      }
    }
  }

  // ---- Foreign keys ------------------------------------------------------------------------------------------

  /** None of the key's own columns makes room for another. */
  ghost predicate KeepsOwn(prev: Schema, next: Schema, p: ResolvedRelation)
    requires Surviving(prev, next, p.owner)
  {
    forall x :: x in p.ownerCols ==>
      !(NameDropped(prev.models.Get(p.owner), next.models.Get(p.owner), x) &&
        NameWanted(prev.models.Get(p.owner), next.models.Get(p.owner), x))
  }

  lemma KeepsOwnSpared(prev: Schema, next: Schema, all: seq<Change>, p: ResolvedRelation)
    requires TidySchemas(prev, next) && IsDiff(prev, next, all) && Surviving(prev, next, p.owner)
    ensures Spared(KeySet(EarlyGone(next, all)), next.Table(p.owner), p.ownerCols) <==> KeepsOwn(prev, next, p)
  {
    forall x {
      EarlyName(prev, next, all, p.owner, x);
    }
  }

  /** A new foreign key of next is among the ones to add. */
  lemma NewFkListed(prev: Schema, next: Schema, all: seq<Change>, r: ResolvedRelation)
    requires TidyConstraints(prev, next) && IsDiff(prev, next, all) && IsFk(next, r) && FkNew(prev, r)
    ensures AddForeignKey(r.owner, r) in FkAdds(all)
  {
    EmittedFkAdd(prev, next, AddForeignKey(r.owner, r));
    SelectMembers(AddingFks, all, all);
  }

  lemma FkAddedThen(prev: Schema, next: Schema, all: seq<Change>, r: ResolvedRelation)
    requires TidyPair(prev, next, all) && IsFk(next, r) && FkNew(prev, r)
    ensures GroundedFk(next, r)
    ensures ConKey(ForeignKeyCon, next.Table(r.owner), r.constraintName) in AddedCons(next, FkAdds(all))
  {
    FkIsGrounded(next, r);
    NewFkListed(prev, next, all, r);
    AddedKeys(next, FkAdds(all), ConKeyOf(next, AddForeignKey(r.owner, r)));
  }

  lemma OneLink(r: ResolvedRelation, a: Con, b: Con)
    requires IsLink(r, a)
    ensures IsLink(r, b) <==> a == b
  {}

  lemma LinkOf(r: ResolvedRelation) returns (con: Con)
    ensures IsLink(r, con)
  {
    con := References(FkDef(r.ownerCols, r.targetTable, r.targetCols, r.onDelete, r.onUpdate));
  }

  /** A new foreign key ends as defined. */
  lemma NewFkEnds(d: Dialect, prev: Schema, next: Schema, all: seq<Change>, cons: map<ConKey, Con>, r: ResolvedRelation,
                  con: Con)
    requires TidyPair(prev, next, all) && IsFk(next, r) && FkNew(prev, r) && IsLink(r, con)
    ensures GroundedFk(next, r)
    ensures ConAt(Final(d, next, all, cons), ConKey(ForeignKeyCon, next.Table(r.owner), r.constraintName)) ==
            Some(con)
  {
    FkAddedThen(prev, next, all, r);
    var k := ConKey(ForeignKeyCon, next.Table(r.owner), r.constraintName);
    AddedIsNext(prev, next, all, k);
    var g :| IsNextFk(next, g, k, AddedCons(next, FkAdds(all))[k]);
    SameModel(next, g.owner, r.owner);
    assert g == r;
    OneLink(r, con, AddedCons(next, FkAdds(all))[k]);
    NextFkSpared(d, prev, next, all, r, k, con);
    FinalAdded(d, next, all, cons, k);
  }

  /** An unchanged foreign key is where it was, unless one of its own columns made room for another. */
  lemma KeptFkEnds(d: Dialect, prev: Schema, next: Schema, all: seq<Change>, cons: map<ConKey, Con>,
                   p: ResolvedRelation, r: ResolvedRelation, con: Con)
    requires TidyPair(prev, next, all) && IsFk(prev, p) && IsFk(next, r) && p.name == r.name && !Redefined(p, r)
    requires IsLink(r, con) && Surviving(prev, next, r.owner) && p.owner == r.owner && StartsAs(prev, next, r.owner, cons)
    ensures ConAt(Final(d, next, all, cons), ConKey(ForeignKeyCon, next.Table(r.owner), r.constraintName)) ==
            if KeepsOwn(prev, next, p) then Some(con) else None
  {
    var k := ConKey(ForeignKeyCon, next.Table(r.owner), r.constraintName);
    SameFk(prev, next, p, r);
    assert GroundedFk(next, r);
    KeptNotAdded(prev, next, all, p, r);
    KeptNotDropped(prev, next, all, p, r);
    FinalCarried(d, next, all, cons, k);
    assert Wants(prev, r.owner, ForeignKeyCon, k.name, con);
    assert ConAt(cons, k) == Some(con);
    KeepsOwnSpared(prev, next, all, p);
    FkStays(prev, next, all, p, r, k, con);
    if KeepsOwn(prev, next, p) {
      NextFkSpared(d, prev, next, all, r, k, con);
    }
  }

  lemma TablesDiffer(s: Schema, m: ModelName, k: ModelName)
    requires s.Valid() && s.models.Has(m) && s.models.Has(k)
    ensures m != k ==> s.Table(m) != s.Table(k)
  {}

  lemma KeptNotAdded(prev: Schema, next: Schema, all: seq<Change>, p: ResolvedRelation, r: ResolvedRelation)
    requires TidyPair(prev, next, all) && IsFk(prev, p) && IsFk(next, r) && p.name == r.name && !Redefined(p, r)
    requires next.models.Has(r.owner)
    ensures var k := ConKey(ForeignKeyCon, next.Table(r.owner), r.constraintName);
            k !in AddedCons(next, FkAdds(all)) && k !in AddedCons(next, KeyAdds(all))
  {
    var k := ConKey(ForeignKeyCon, next.Table(r.owner), r.constraintName);
    FkNotKeyAdd(next, all, k);
    AddedKeys(next, FkAdds(all), k);
    forall c | c in FkAdds(all) && IsConAdd(c) && OnModel(next, c) ensures ConKeyOf(next, c) != k {
      KeptKeyApart(prev, next, all, p, r, c);
    }
  }

  /** A foreign key that is added is not the one that was kept. */
  lemma KeptKeyApart(prev: Schema, next: Schema, all: seq<Change>, p: ResolvedRelation, r: ResolvedRelation, c: Change)
    requires TidyPair(prev, next, all) && IsFk(prev, p) && IsFk(next, r) && p.name == r.name && !Redefined(p, r)
    requires next.models.Has(r.owner) && c in FkAdds(all) && IsConAdd(c) && OnModel(next, c)
    ensures ConKeyOf(next, c) != ConKey(ForeignKeyCon, next.Table(r.owner), r.constraintName)
  {
    ListedIsEmitted(prev, next, all, c);
    EmittedFkAdd(prev, next, c);
    assert c.relation != r;
    FkKeysDiffer(next, c.relation, r);
  }

  lemma FkNotKeyAdd(next: Schema, all: seq<Change>, k: ConKey)
    requires k.kind.ForeignKeyCon?
    ensures k !in AddedCons(next, KeyAdds(all))
  {
    AddedKeys(next, KeyAdds(all), k);
    forall c: Change {
      KeyAddIn(all, c);
    }
  }

  lemma FkKeysDiffer(s: Schema, p: ResolvedRelation, r: ResolvedRelation)
    requires s.Valid() && SoundConstraints(s) && IsFk(s, p) && IsFk(s, r) && p != r
    ensures ConKey(ForeignKeyCon, s.Table(p.owner), p.constraintName) != ConKey(ForeignKeyCon, s.Table(r.owner), r.constraintName)
  {
    TablesDiffer(s, p.owner, r.owner);
  }

  lemma KeptNotDropped(prev: Schema, next: Schema, all: seq<Change>, p: ResolvedRelation, r: ResolvedRelation)
    requires TidyPair(prev, next, all) && IsFk(prev, p) && IsFk(next, r) && p.name == r.name && !Redefined(p, r)
    requires next.models.Has(r.owner) && p.owner == r.owner
    ensures var k := ConKey(ForeignKeyCon, next.Table(r.owner), r.constraintName);
            k !in DroppedKeys(next, FkDrops(all)) && k !in DroppedKeys(next, KeyDrops(all))
  {
    var k := ConKey(ForeignKeyCon, next.Table(r.owner), r.constraintName);
    SelectMembers(DroppingFks, all, all);
    forall c: Change {
      KeyAddIn(all, c);
    }
    SameFk(prev, next, p, r);
    forall c | c in FkDrops(all) && OnModel(next, c) ensures ConKeyOf(next, c) != k {
      ConEmittedRole(prev, next, c);
      assert c.relation != p;
      TablesDiffer(next, c.model, r.owner);
    }
  }

  /** Nothing is left under a name that no foreign key of `next` bears. */
  lemma NoFkEnds(d: Dialect, prev: Schema, next: Schema, all: seq<Change>, cons: map<ConKey, Con>, m: ModelName, x: string)
    requires TidyPair(prev, next, all) && next.models.Has(m) && PrevFks(prev, cons)
    requires forall r :: IsFk(next, r) ==> !(r.owner == m && r.constraintName == x)
    requires ConKey(ForeignKeyCon, next.Table(m), x) in cons ==> cons[ConKey(ForeignKeyCon, next.Table(m), x)].References?
    ensures ConAt(Final(d, next, all, cons), ConKey(ForeignKeyCon, next.Table(m), x)) == None
  {
    var k := ConKey(ForeignKeyCon, next.Table(m), x);
    if k in Final(d, next, all, cons) {
      forall r, con ensures !IsNextFk(next, r, k, con) {
        if IsNextFk(next, r, k, con) {
          SameModel(next, r.owner, m);
        }
      }
      NoFkThere(d, prev, next, all, cons, k);
      if g :| IsDyingFk(prev, next, g, k, cons[k]) {
        assert IsDyingTable(prev, next, k.table);
        DyingNotNext(prev, next, k.table, m);
      }
    }
  }

  lemma NoFkThere(d: Dialect, prev: Schema, next: Schema, all: seq<Change>, cons: map<ConKey, Con>, k: ConKey)
    requires TidyPair(prev, next, all) && PrevFks(prev, cons) && k in Final(d, next, all, cons) && k.kind.ForeignKeyCon?
    requires forall r, con :: !IsNextFk(next, r, k, con)
    requires k in cons ==> cons[k].References?
    ensures k in cons && exists m :: IsDyingFk(prev, next, m, k, cons[k])
  {
    LinkedAt(d, next, all, cons, k);
    RestoredKeys(d, next, all, k);
    if k in AddedCons(next, FkAdds(all)) {
      AddedIsNext(prev, next, all, k);
    }
    AddedKeys(next, KeyAdds(all), k);
    forall c: Change {
      KeyAddIn(all, c);
    }
    FinalFk(d, prev, next, all, cons, k);
  }

  // ---- Created tables -----------------------------------------------------------------------------------------

  /** Nothing on a table that no surviving model owns is touched on the way. */
  lemma OffTable(d: Dialect, prev: Schema, next: Schema, all: seq<Change>, k: ConKey, cols: seq<string>)
    requires TidySchemas(prev, next) && IsDiff(prev, next, all) && Bystander(prev, next, k.table)
    ensures Ends(d, next, all, k, OnColumns(cols)) == Some(OnColumns(cols))
  {
    var early, late, moved := KeySet(EarlyGone(next, all)), KeySet(LateGone(next, all)), Renamings(next, all);
    forall x ensures Key(k.table, x) !in early && Key(k.table, x) !in late {
      if Key(k.table, x) in early {
        var g := DroppedRole(prev, next, all, ClearingWay, Key(k.table, x));
      }
      if Key(k.table, x) in late {
        var g := DroppedRole(prev, next, all, Dropping, Key(k.table, x));
      }
    }
    forall x ensures Key(k.table, x) !in moved {
      UnmovedOff(prev, next, all, k.table, x);
    }
    assert NewNames(moved, k.table, cols) == cols;
  }

  lemma UnmovedOff(prev: Schema, next: Schema, all: seq<Change>, t: string, x: string)
    requires TidySchemas(prev, next) && IsDiff(prev, next, all) && Bystander(prev, next, t)
    ensures Key(t, x) !in Renamings(next, all)
  {
    RenamingsApart(prev, next, all);
    SelectMembers(Renaming, all, all);
    ScheduledCalledFor(prev, next, all, Renaming);
    MovedKeys(next, Select(Renaming, all, all), Key(t, x));
    forall c | c in Select(Renaming, all, all) ensures FromKey(next, c) != Key(t, x) {
      assert Scheduled(all, Renaming, c);
    }
  }

  /** A created table keeps the keys of its `CREATE TABLE`. */
  lemma NewKeyEnds(d: Dialect, prev: Schema, next: Schema, all: seq<Change>, cons: map<ConKey, Con>, m: ModelName, k: ConKey)
    requires TidyPair(prev, next, all) && IsNew(prev, next, m) && k.table == next.Table(m) && !k.kind.ForeignKeyCon?
    requires k in cons ==> cons[k].OnColumns?
    ensures ConAt(Final(d, next, all, cons), k) == ConAt(cons, k)
  {
    NewIsBystander(prev, next, m);
    RestoredOff(d, prev, next, all, k);
    if k in cons {
      OffTable(d, prev, next, all, k, cons[k].cols);
    }
    if IsDefKind(k.kind) {
      NoFkAdded(all, next, k);
      NoNewAdded(prev, next, all, m, k.kind, k.name);
      DefDropped(prev, next, all, m, k.kind, k.name);
      DropListed(prev, next, all, m, k.kind, k.name);
      FinalCarried(d, next, all, cons, k);
    } else {
      TableKeyStays(d, next, all, cons, k);
    }
  }

  lemma NoNewAdded(prev: Schema, next: Schema, all: seq<Change>, m: ModelName, kind: ConKind, x: string)
    requires TidyPair(prev, next, all) && IsNew(prev, next, m) && IsDefKind(kind)
    ensures ConKey(kind, next.Table(m), x) !in AddedCons(next, KeyAdds(all))
  {
    NoDefAdded(prev, next, all, m, kind, x);
  }

  lemma {:induction false} ByNameDefines(m: Model, defs: seq<IndexDef>)
    requires DistinctNames(defs)
    ensures forall x, con ::
              (x in ByName(m, defs) && con == OnColumns(ByName(m, defs)[x])) <==> DefinedIn(m, defs, x, con)
  {
    if defs != [] {
      var init, last := defs[..|defs| - 1], defs[|defs| - 1];
      ByNameDefines(m, init);
      assert defs == init + [last];
      forall x, con
        ensures DefinedIn(m, defs, x, con) <==>
                  DefinedIn(m, init, x, con) || (x == last.dbName && con == OnColumns(TargetColumns(m, last.targets)))
      {
        assert last in defs;
        if DefinedIn(m, init, x, con) {
          var e :| e in init && e.dbName == x && con == OnColumns(TargetColumns(m, e.targets));
          assert e in defs;
        }
      }
      assert forall con :: !DefinedIn(m, init, last.dbName, con);
    }
  }

  /** The keys of a `CREATE TABLE`, name by name. */
  lemma CreatedAt(t: string, keys: TableKeys, kind: ConKind, x: string)
    ensures ConAt(CreatedKeys(t, keys), ConKey(kind, t, x)) ==
            if kind.PrimaryCon? && x == "" && keys.primary != [] then Some(OnColumns(keys.primary))
            else if kind.InlineCon? && x in keys.inline then Some(OnColumns([x]))
            else if kind.UniqueCon? && x in keys.uniques then Some(OnColumns(keys.uniques[x]))
            else None
  {
    assert ConKey(kind, t, x) in ConKeysOf(UniqueCon, t, keys.uniques.Keys) <==> kind.UniqueCon? && x in keys.uniques;
    assert ConKey(kind, t, x) in ConKeysOf(InlineCon, t, keys.inline) <==> kind.InlineCon? && x in keys.inline;
  }

  /** `CREATE TABLE` creates the primary key and the uniques that the model asks for, and nothing else. */
  lemma CreatedKeysAre(m: Model, kind: ConKind, x: string, con: Con)
    requires DistinctNames(m.uniques) && !kind.InlineCon?
    ensures ConAt(CreatedKeys(m.table, KeysOfTable(m)), ConKey(kind, m.table, x)) == Some(con) <==>
            match kind
            case PrimaryCon => x == "" && RendersKey(m) && con == OnColumns(TargetColumns(m, m.primary))
            case UniqueCon => DefinedIn(m, m.uniques, x, con)
            case _ => false
  {
    ByNameDefines(m, m.uniques);
    CreatedAt(m.table, KeysOfTable(m), kind, x);
  }

  lemma CreatedInline(m: Model, con: Con)
    ensures InlineAt(CreatedKeys(m.table, KeysOfTable(m)), m.table, con) <==> WantsInline(m, con)
  {
    var made, inline := CreatedKeys(m.table, KeysOfTable(m)), InlineUniques(m);
    forall x ensures ConAt(made, ConKey(InlineCon, m.table, x)) == if x in inline then Some(OnColumns([x])) else None {
      CreatedAt(m.table, KeysOfTable(m), InlineCon, x);
    }
    if WantsInline(m, con) {
      var n :| m.OwnsColumn(n) && m.fields.Get(n).isUnique && con == OnColumns([m.Column(n)]);
      assert m.Column(n) in inline;
      assert ConAt(made, ConKey(InlineCon, m.table, m.Column(n))) == Some(con);
    }
  }

  // ---- The constraints of one model at the end -----------------------------------------------------------------

  /** The indexes and uniques that both models define alike have kept their columns. */
  predicate KeepsDefs(prev: Model, next: Model) {
    && (forall e, f :: e in prev.indexes && e in next.indexes && f in e.targets ==> !Hinted(prev, next, f))
    && (forall e, f :: e in prev.uniques && e in next.uniques && f in e.targets ==> !Hinted(prev, next, f))
  }

  ghost predicate KeepsPrimary(d: Dialect, prev: Model, next: Model) {
    PrimaryEnd(d, prev, next) == Some(OnColumns(TargetColumns(next, next.primary)))
  }

  /** The unchanged foreign keys of `m` have kept their columns. */
  ghost predicate KeepsFks(prev: Schema, next: Schema, m: ModelName)
    requires Surviving(prev, next, m)
  {
    forall p, r :: IsFk(prev, p) && IsFk(next, r) && p.name == r.name && !Redefined(p, r) && p.owner == m ==>
      KeepsOwn(prev, next, p)
  }

  ghost predicate DefsFit(next: Model, t: string, kind: ConKind, last: map<ConKey, Con>) {
    forall x, con :: ConAt(last, ConKey(kind, t, x)) == Some(con) <==> DefinedIn(next, DefsOf(next, kind), x, con)
  }

  /** One definition of `next`. */
  lemma DefFits(d: Dialect, prev: Schema, next: Schema, all: seq<Change>, cons: map<ConKey, Con>, m: ModelName, kind: ConKind,
                e: IndexDef)
    requires TidyPair(prev, next, all) && Surviving(prev, next, m) && StartsAs(prev, next, m, cons)
    requires IsDefKind(kind) && e in DefsOf(next.models.Get(m), kind)
    ensures ConAt(Final(d, next, all, cons), ConKey(kind, next.Table(m), e.dbName)) ==
            Some(OnColumns(TargetColumns(next.models.Get(m), e.targets))) <==>
              (e in DefsOf(prev.models.Get(m), kind) ==>
                 forall f :: f in e.targets ==> !Hinted(prev.models.Get(m), next.models.Get(m), f))
  {
    TidyWithin(prev, next, m);
    DefEnds(d, prev, next, all, cons, m, kind, e);
    if e in DefsOf(prev.models.Get(m), kind) {
      HeritageSame(d, prev.models.Get(m), next.models.Get(m), e.targets);
    }
  }

  ghost predicate KeepsKind(prev: Model, next: Model, kind: ConKind) {
    forall e, f :: e in DefsOf(prev, kind) && e in DefsOf(next, kind) && f in e.targets ==> !Hinted(prev, next, f)
  }

  lemma DefsFitOnly(d: Dialect, prev: Schema, next: Schema, all: seq<Change>, cons: map<ConKey, Con>, m: ModelName, kind: ConKind)
    requires TidyPair(prev, next, all) && Surviving(prev, next, m) && StartsAs(prev, next, m, cons) && IsDefKind(kind)
    requires DefsFit(next.models.Get(m), next.Table(m), kind, Final(d, next, all, cons))
    ensures KeepsKind(prev.models.Get(m), next.models.Get(m), kind)
  {
    var p, q := prev.models.Get(m), next.models.Get(m);
    forall e, f | e in DefsOf(p, kind) && e in DefsOf(q, kind) && f in e.targets ensures !Hinted(p, q, f) {
      assert DefinedIn(q, DefsOf(q, kind), e.dbName, OnColumns(TargetColumns(q, e.targets)));
      DefFits(d, prev, next, all, cons, m, kind, e);
    }
  }

  lemma DefFitsAt(d: Dialect, prev: Schema, next: Schema, all: seq<Change>, cons: map<ConKey, Con>, m: ModelName, kind: ConKind,
                  x: string, con: Con)
    requires TidyPair(prev, next, all) && Surviving(prev, next, m) && StartsAs(prev, next, m, cons) && IsDefKind(kind)
    requires KeepsKind(prev.models.Get(m), next.models.Get(m), kind)
    ensures ConAt(Final(d, next, all, cons), ConKey(kind, next.Table(m), x)) == Some(con) <==>
              DefinedIn(next.models.Get(m), DefsOf(next.models.Get(m), kind), x, con)
  {
    var q := next.models.Get(m);
    if e :| e in DefsOf(q, kind) && e.dbName == x {
      DefFits(d, prev, next, all, cons, m, kind, e);
      NamesDistinct(next, m);
      forall k | k in DefsOf(q, kind) && k.dbName == x ensures k == e {
        SameDef(DefsOf(q, kind), k, e);
      }
    } else {
      NoDefEnds(d, prev, next, all, cons, m, kind, x);
    }
  }

  /** What the end result is for the definitions of one kind. */
  lemma DefsEnd(d: Dialect, prev: Schema, next: Schema, all: seq<Change>, cons: map<ConKey, Con>, m: ModelName, kind: ConKind)
    requires TidyPair(prev, next, all) && Surviving(prev, next, m) && StartsAs(prev, next, m, cons) && IsDefKind(kind)
    ensures DefsFit(next.models.Get(m), next.Table(m), kind, Final(d, next, all, cons)) <==>
              KeepsKind(prev.models.Get(m), next.models.Get(m), kind)
  {
    if DefsFit(next.models.Get(m), next.Table(m), kind, Final(d, next, all, cons)) {
      DefsFitOnly(d, prev, next, all, cons, m, kind);
    }
    if KeepsKind(prev.models.Get(m), next.models.Get(m), kind) {
      forall x, con
        ensures ConAt(Final(d, next, all, cons), ConKey(kind, next.Table(m), x)) == Some(con) <==>
                  DefinedIn(next.models.Get(m), DefsOf(next.models.Get(m), kind), x, con)
      {
        DefFitsAt(d, prev, next, all, cons, m, kind, x, con);
      }
    }
  }

  ghost predicate FksFit(next: Schema, m: ModelName, last: map<ConKey, Con>)
    requires next.models.Has(m)
  {
    forall x, con :: ConAt(last, ConKey(ForeignKeyCon, next.Table(m), x)) == Some(con) <==> WantsFk(next, m, x, con)
  }

  /** One foreign key name. */
  lemma FkEnds(d: Dialect, prev: Schema, next: Schema, all: seq<Change>, cons: map<ConKey, Con>, r: ResolvedRelation, con: Con)
    requires TidyPair(prev, next, all) && IsFk(next, r) && next.models.Has(r.owner) && IsLink(r, con)
    requires prev.models.Has(r.owner) ==> StartsAs(prev, next, r.owner, cons) && KeepsFks(prev, next, r.owner)
    ensures ConAt(Final(d, next, all, cons), ConKey(ForeignKeyCon, next.Table(r.owner), r.constraintName)) ==
            Some(con)
  {
    if FkNew(prev, r) {
      NewFkEnds(d, prev, next, all, cons, r, con);
    } else {
      var p :| IsFk(prev, p) && p.name == r.name && !Redefined(p, r);
      assert GroundedFk(prev, p);
      KeptFkEnds(d, prev, next, all, cons, p, r, con);
    }
  }

  lemma FksEnd(d: Dialect, prev: Schema, next: Schema, all: seq<Change>, cons: map<ConKey, Con>, m: ModelName)
    requires TidyPair(prev, next, all) && next.models.Has(m) && PrevFks(prev, cons)
    requires forall x :: ConKey(ForeignKeyCon, next.Table(m), x) in cons ==> cons[ConKey(ForeignKeyCon, next.Table(m), x)].References?
    requires prev.models.Has(m) ==> StartsAs(prev, next, m, cons)
    ensures FksFit(next, m, Final(d, next, all, cons)) <==> (prev.models.Has(m) ==> KeepsFks(prev, next, m))
  {
    var last := Final(d, next, all, cons);
    if prev.models.Has(m) && FksFit(next, m, last) {
      forall p, r | IsFk(prev, p) && IsFk(next, r) && p.name == r.name && !Redefined(p, r) && p.owner == m
        ensures KeepsOwn(prev, next, p)
      {
        var con := LinkOf(r);
        KeptFkEnds(d, prev, next, all, cons, p, r, con);
        assert WantsFk(next, m, r.constraintName, con);
      }
    }
    if prev.models.Has(m) ==> KeepsFks(prev, next, m) {
      forall x, con ensures ConAt(last, ConKey(ForeignKeyCon, next.Table(m), x)) == Some(con) <==> WantsFk(next, m, x, con) {
        if r :| IsFk(next, r) && r.owner == m && r.constraintName == x {
          var link := LinkOf(r);
          FkEnds(d, prev, next, all, cons, r, link);
          if WantsFk(next, m, x, con) {
            var g :| IsFk(next, g) && g.owner == m && g.constraintName == x && IsLink(g, con);
            assert g == r;
          }
          OneLink(r, link, con);
          assert con == link ==> WantsFk(next, m, x, con);
        } else {
          NoFkEnds(d, prev, next, all, cons, m, x);
        }
      }
    }
  }

  // ---- The whole schema ---------------------------------------------------------------------------------------------

  /** Whether the migration of a surviving model brings all its constraints to what `next` asks for. */
  ghost predicate KeepsAll(d: Dialect, prev: Schema, next: Schema, m: ModelName)
    requires Surviving(prev, next, m)
  {
    var p, q := prev.models.Get(m), next.models.Get(m);
    KeepsDefs(p, q) && KeepsPrimary(d, p, q) && KeepsUniques(p, q) && KeepsFks(prev, next, m)
  }

  /** The parts of `ConsAre`. */
  lemma ConsAreParts(s: Schema, m: ModelName, last: map<ConKey, Con>)
    requires s.models.Has(m)
    ensures ConsAre(s, m, last) <==>
              && (forall x, con :: ConAt(last, ConKey(PrimaryCon, s.Table(m), x)) == Some(con) <==> Wants(s, m, PrimaryCon, x, con))
              && (forall con :: InlineAt(last, s.Table(m), con) <==> WantsInline(s.models.Get(m), con))
              && DefsFit(s.models.Get(m), s.Table(m), IndexCon, last) && DefsFit(s.models.Get(m), s.Table(m), UniqueCon, last)
              && FksFit(s, m, last)
  {
    if ConsAre(s, m, last) {
      forall x, con
        ensures ConAt(last, ConKey(PrimaryCon, s.Table(m), x)) == Some(con) <==> Wants(s, m, PrimaryCon, x, con)
        ensures ConAt(last, ConKey(IndexCon, s.Table(m), x)) == Some(con) <==> Wants(s, m, IndexCon, x, con)
        ensures ConAt(last, ConKey(UniqueCon, s.Table(m), x)) == Some(con) <==> Wants(s, m, UniqueCon, x, con)
        ensures ConAt(last, ConKey(ForeignKeyCon, s.Table(m), x)) == Some(con) <==> Wants(s, m, ForeignKeyCon, x, con)
      {}
    }
  }

  lemma PrimaryFits(d: Dialect, prev: Schema, next: Schema, all: seq<Change>, cons: map<ConKey, Con>, m: ModelName)
    requires TidyPair(prev, next, all) && Surviving(prev, next, m) && StartsAs(prev, next, m, cons)
    ensures (forall x, con :: ConAt(Final(d, next, all, cons), ConKey(PrimaryCon, next.Table(m), x)) == Some(con) <==>
                              Wants(next, m, PrimaryCon, x, con)) <==>
              KeepsPrimary(d, prev.models.Get(m), next.models.Get(m))
  {
    var p, q, last, t := prev.models.Get(m), next.models.Get(m), Final(d, next, all, cons), next.Table(m);
    forall x {
      PrimaryEnds(d, prev, next, all, cons, m, x);
    }
    var ends := PrimaryEnd(d, p, q);
    assert q.HasOneKey();
    if forall x, con :: ConAt(last, ConKey(PrimaryCon, t, x)) == Some(con) <==> Wants(next, m, PrimaryCon, x, con) {
      assert ConAt(last, ConKey(PrimaryCon, t, "")) == ends;
      var con := OnColumns(TargetColumns(q, q.primary));
      assert Wants(next, m, PrimaryCon, "", con) <==> q.primary != [];
      assert ends == Some(con) <==> q.primary != [];
      if ends.Some? {
        assert Wants(next, m, PrimaryCon, "", ends.value);
      }
    }
  }

  lemma SurvivorFits(d: Dialect, prev: Schema, next: Schema, all: seq<Change>, cons: map<ConKey, Con>, m: ModelName)
    requires TidyPair(prev, next, all) && Surviving(prev, next, m) && StartsAs(prev, next, m, cons) && PrevFks(prev, cons)
    ensures ConsAre(next, m, Final(d, next, all, cons)) <==> KeepsAll(d, prev, next, m)
  {
    var p, q, last := prev.models.Get(m), next.models.Get(m), Final(d, next, all, cons);
    TidyWithin(prev, next, m);
    ConsAreParts(next, m, last);
    PrimaryFits(d, prev, next, all, cons, m);
    DefsEnd(d, prev, next, all, cons, m, IndexCon);
    DefsEnd(d, prev, next, all, cons, m, UniqueCon);
    forall x | ConKey(ForeignKeyCon, next.Table(m), x) in cons ensures cons[ConKey(ForeignKeyCon, next.Table(m), x)].References? {
      var k := ConKey(ForeignKeyCon, next.Table(m), x);
      assert ConAt(cons, k) == Some(cons[k]);
      assert Wants(prev, m, ForeignKeyCon, x, cons[k]);
    }
    FksEnd(d, prev, next, all, cons, m);
    forall con ensures InlineAt(last, next.Table(m), con) <==> InlineHeir(p, q, con) {
      InlineEnds(d, prev, next, all, cons, m, con);
    }
    InlineFits(p, q);
  }

  /** The keys of a created table at the end are those of its `CREATE TABLE`. */
  ghost predicate AsMade(q: Model, last: map<ConKey, Con>) {
    forall kind: ConKind, x :: !kind.ForeignKeyCon? ==>
      ConAt(last, ConKey(kind, q.table, x)) == ConAt(CreatedKeys(q.table, KeysOfTable(q)), ConKey(kind, q.table, x))
  }

  lemma NewcomerMade(d: Dialect, prev: Schema, next: Schema, all: seq<Change>, k0: Catalog, m: ModelName)
    requires TidyPair(prev, next, all) && IsNew(prev, next, m) && Built(d, next.models.Get(m), k0)
    ensures AsMade(next.models.Get(m), Final(d, next, all, k0.cons))
  {
    var q := next.models.Get(m);
    CreatedOn(q.table, KeysOfTable(q));
    forall kind: ConKind, x | !kind.ForeignKeyCon?
      ensures ConAt(Final(d, next, all, k0.cons), ConKey(kind, q.table, x)) ==
              ConAt(CreatedKeys(q.table, KeysOfTable(q)), ConKey(kind, q.table, x))
    {
      assert ConAt(k0.cons, ConKey(kind, q.table, x)) == ConAt(CreatedKeys(q.table, KeysOfTable(q)), ConKey(kind, q.table, x));
      NewKeyEnds(d, prev, next, all, k0.cons, m, ConKey(kind, q.table, x));
    }
  }

  lemma MadeAt(q: Model, last: map<ConKey, Con>, kind: ConKind, x: string, con: Con)
    requires AsMade(q, last) && DistinctNames(q.uniques) && !kind.InlineCon? && !kind.ForeignKeyCon?
    ensures ConAt(last, ConKey(kind, q.table, x)) == Some(con) <==>
            match kind
            case PrimaryCon => x == "" && RendersKey(q) && con == OnColumns(TargetColumns(q, q.primary))
            case UniqueCon => DefinedIn(q, q.uniques, x, con)
            case _ => false
  {
    assert ConAt(last, ConKey(kind, q.table, x)) == ConAt(CreatedKeys(q.table, KeysOfTable(q)), ConKey(kind, q.table, x));
    CreatedKeysAre(q, kind, x, con);
  }

  lemma MadeFits(q: Model, last: map<ConKey, Con>)
    requires DistinctNames(q.uniques) && AsMade(q, last)
    ensures DefsFit(q, q.table, UniqueCon, last)
    ensures DefsFit(q, q.table, IndexCon, last) <==> q.indexes == []
  {
    forall x, con ensures ConAt(last, ConKey(UniqueCon, q.table, x)) == Some(con) <==> DefinedIn(q, DefsOf(q, UniqueCon), x, con) {
      MadeAt(q, last, UniqueCon, x, con);
    }
    forall x, con ensures ConAt(last, ConKey(IndexCon, q.table, x)) != Some(con) {
      MadeAt(q, last, IndexCon, x, con);
    }
    if q.indexes != [] {
      var e := q.indexes[0];
      assert DefinedIn(q, DefsOf(q, IndexCon), e.dbName, OnColumns(TargetColumns(q, e.targets)));
    }
  }

  lemma MadePrimary(next: Schema, m: ModelName, last: map<ConKey, Con>)
    requires next.models.Has(m) && DistinctNames(next.models.Get(m).uniques) && AsMade(next.models.Get(m), last)
    requires next.models.Get(m).HasOneKey()
    ensures (forall x, con :: ConAt(last, ConKey(PrimaryCon, next.Table(m), x)) == Some(con) <==> Wants(next, m, PrimaryCon, x, con))
            <==> !BlockOfOne(next.models.Get(m))
  {
    var q := next.models.Get(m);
    forall x, con
      ensures ConAt(last, ConKey(PrimaryCon, q.table, x)) == Some(con) <==> RendersKey(q) && Wants(next, m, PrimaryCon, x, con)
    {
      MadeAt(q, last, PrimaryCon, x, con);
    }
    assert Wants(next, m, PrimaryCon, "", OnColumns(TargetColumns(q, q.primary)));
  }

  lemma MadeInline(next: Schema, m: ModelName, last: map<ConKey, Con>, con: Con)
    requires next.Valid() && next.models.Has(m) && AsMade(next.models.Get(m), last)
    ensures InlineAt(last, next.Table(m), con) <==> WantsInline(next.models.Get(m), con)
  {
    var q := next.models.Get(m);
    var made := CreatedKeys(q.table, KeysOfTable(q));
    CreatedInline(q, con);
    forall x ensures ConAt(last, ConKey(InlineCon, q.table, x)) == ConAt(made, ConKey(InlineCon, q.table, x)) {}
  }

  /** A created model gets everything but its indexes and a block key of one field. */
  lemma NewcomerFits(d: Dialect, prev: Schema, next: Schema, all: seq<Change>, k0: Catalog, m: ModelName)
    requires TidyPair(prev, next, all) && IsNew(prev, next, m) && PrevFks(prev, k0.cons) && Built(d, next.models.Get(m), k0)
    ensures ConsAre(next, m, Final(d, next, all, k0.cons)) <==> FullyMade(next.models.Get(m))
  {
    var q, last := next.models.Get(m), Final(d, next, all, k0.cons);
    NamesDistinct(next, m);
    NewcomerMade(d, prev, next, all, k0, m);
    MadeFits(q, last);
    assert q.HasOneKey();
    MadePrimary(next, m, last);
    forall con ensures InlineAt(last, next.Table(m), con) <==> WantsInline(q, con) {
      MadeInline(next, m, last, con);
    }
    forall x ensures ConKey(ForeignKeyCon, next.Table(m), x) !in k0.cons {
      BuiltHasNoFkKey(d, q, k0, x);
    }
    FksEnd(d, prev, next, all, k0.cons, m);
    ConsAreParts(next, m, last);
  }

  lemma BuiltHasNoFkKey(d: Dialect, m: Model, k0: Catalog, x: string)
    requires Built(d, m, k0)
    ensures ConKey(ForeignKeyCon, m.table, x) !in k0.cons
  {
    assert ConAt(k0.cons, ConKey(ForeignKeyCon, m.table, x)) ==
           ConAt(CreatedKeys(m.table, KeysOfTable(m)), ConKey(ForeignKeyCon, m.table, x));
    CreatedAt(m.table, KeysOfTable(m), ForeignKeyCon, x);
  }

  /** The key is a block of one field, which is not its `@id`. */
  predicate BlockOfOne(m: Model) {
    |m.primary| == 1 && !(m.fields.Has(m.primary[0]) && m.fields.Get(m.primary[0]).isId)
  }

  /** `CREATE TABLE` makes all the keys that the model asks for. */
  predicate FullyMade(m: Model) {
    m.indexes == [] && !BlockOfOne(m)
  }

  /** Whether the result of a migration that runs has the constraints that `next` asks for. */
  ghost predicate Complete(d: Dialect, prev: Schema, next: Schema) {
    forall m :: next.models.Has(m) ==>
      if prev.models.Has(m) then KeepsAll(d, prev, next, m) else FullyMade(next.models.Get(m))
  }

  lemma SameConsAre(s: Schema, m: ModelName, a: map<ConKey, Con>, b: map<ConKey, Con>)
    requires s.models.Has(m) && forall kind, x :: ConAt(a, ConKey(kind, s.Table(m), x)) == ConAt(b, ConKey(kind, s.Table(m), x))
    ensures ConsAre(s, m, a) <==> ConsAre(s, m, b)
  {
    forall con ensures InlineAt(a, s.Table(m), con) <==> InlineAt(b, s.Table(m), con) {}
  }

  lemma StartsAsFirst(d: Dialect, prev: Schema, next: Schema, cat: Catalog, k0: Catalog, m: ModelName)
    requires TidySchemas(prev, next) && Conforms(d, prev, cat) && Surviving(prev, next, m)
    requires SameTable(cat, k0, prev.Table(m))
    ensures StartsAs(prev, next, m, k0.cons)
  {
    TidyWithin(prev, next, m);
    SameConsAre(prev, m, cat.cons, k0.cons);
  }

  /**
   A migration that runs ends in next's catalogue exactly if no created model declares an
   index or has a block key of one field, no index or unique that both schemas define alike has a field that took over another
   column, the primary keys correspond, no field changes its `@unique` and no added field has
   one, and no unchanged foreign key has a column that made room for another.
   */
  lemma MigratedConforms(w: World, d: Dialect, prev: Schema, next: Schema, all: seq<Change>, o: Choices, defer: bool, cat: Catalog)
    requires w.server == d && d.AltersDirectly() && TidyPair(prev, next, all) && Conforms(d, prev, cat) && Chosen(all, o)
    ensures Plannable(next, all, o)
    ensures var run := Exec(w, PlanStmts(d, next, all, o, defer), cat);
            run.Some? ==> (Conforms(d, next, run.value) <==> Complete(d, prev, next))
  {
    PlanMigrates(w, d, prev, next, all, o, defer, cat);
    var run := Exec(w, PlanStmts(d, next, all, o, defer), cat);
    if run.Some? {
      ArrivedConforms(w, d, prev, next, all, o, cat, run.value);
    }
  }

  lemma ModelFits(d: Dialect, prev: Schema, next: Schema, all: seq<Change>, cat: Catalog, k0: Catalog, m: ModelName)
    requires TidyPair(prev, next, all) && Conforms(d, prev, cat) && Created(d, prev, next, cat, k0) && PrevFks(prev, k0.cons)
    requires next.models.Has(m)
    ensures ConsAre(next, m, Final(d, next, all, k0.cons)) <==>
            if prev.models.Has(m) then KeepsAll(d, prev, next, m) else FullyMade(next.models.Get(m))
  {
    if prev.models.Has(m) {
      assert IsTable(prev, prev.Table(m));
      StartsAsFirst(d, prev, next, cat, k0, m);
      SurvivorFits(d, prev, next, all, k0.cons, m);
    } else {
      assert IsNew(prev, next, m);
      NewcomerFits(d, prev, next, all, k0, m);
    }
  }

  lemma ModelFitsAfter(d: Dialect, prev: Schema, next: Schema, all: seq<Change>, cat: Catalog, k0: Catalog, gone: set<string>,
                       after: map<ConKey, Con>, m: ModelName)
    requires TidyPair(prev, next, all) && Conforms(d, prev, cat) && Created(d, prev, next, cat, k0) && PrevFks(prev, k0.cons)
    requires DyingTables(prev, next, gone) && next.models.Has(m)
    requires forall k :: ConAt(after, k) == if k.table in gone then None else ConAt(Final(d, next, all, k0.cons), k)
    ensures ConsAre(next, m, after) <==>
            if prev.models.Has(m) then KeepsAll(d, prev, next, m) else FullyMade(next.models.Get(m))
  {
    StayingUndropped(prev, next, gone, m);
    SameConsAre(next, m, after, Final(d, next, all, k0.cons));
    ModelFits(d, prev, next, all, cat, k0, m);
  }

  lemma AllFit(d: Dialect, prev: Schema, next: Schema, all: seq<Change>, cat: Catalog, k0: Catalog, gone: set<string>,
               after: map<ConKey, Con>)
    requires TidyPair(prev, next, all) && Conforms(d, prev, cat) && Created(d, prev, next, cat, k0) && PrevFks(prev, k0.cons)
    requires DyingTables(prev, next, gone)
    requires forall k :: ConAt(after, k) == if k.table in gone then None else ConAt(Final(d, next, all, k0.cons), k)
    ensures (forall m :: next.models.Has(m) ==> ConsAre(next, m, after)) <==> Complete(d, prev, next)
  {
    forall m | next.models.Has(m)
      ensures ConsAre(next, m, after) <==>
                if prev.models.Has(m) then KeepsAll(d, prev, next, m) else FullyMade(next.models.Get(m))
    {
      ModelFitsAfter(d, prev, next, all, cat, k0, gone, after, m);
    }
  }

  lemma ArrivedConforms(w: World, d: Dialect, prev: Schema, next: Schema, all: seq<Change>, o: Choices, cat: Catalog, after: Catalog)
    requires d.AltersDirectly() && TidyPair(prev, next, all) && Conforms(d, prev, cat) && Chosen(all, o)
    requires Plannable(next, all, o) && Arrived(w, d, prev, next, all, o, cat, after)
    ensures Conforms(d, next, after) <==> Complete(d, prev, next)
  {
    var k0 := FirstStage(w, d, prev, next, all, o.creates, cat, cat);
    DroppedTables(prev, next, all, o.drops);
    AllFit(d, prev, next, all, cat, k0, TablesOf(o.drops), after.cons);
  }
}
