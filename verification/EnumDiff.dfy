/**
 What the enum changes of a diff amount to: applied in any order to the enum types of one
 schema, they give those of the other, but for the names of types that both have.
 */
module EnumDiff {
  import opened Names
  import opened Ir
  import opened Diff

  /** An enum type of the database, without the order of its variants. */
  datatype EnumType = EnumType(dbName: string, variants: set<string>)

  function TypeOf(def: EnumDef): EnumType {
    EnumType(def.dbName, set v | v in def.variants)
  }

  function Types(s: Schema): map<EnumName, EnumType> {
    map e | e in s.enums.entries :: TypeOf(s.enums.Get(e))
  }

  function Applied(types: map<EnumName, EnumType>, c: Change): map<EnumName, EnumType> {
    match c
    case CreateEnum(def) => types[def.name := TypeOf(def)]
    case DropEnum(e, _) => types - {e}
    case AddEnumVariant(e, v) =>
      if e in types then types[e := EnumType(types[e].dbName, types[e].variants + {v})] else types
    case DropEnumVariant(e, v) =>
      if e in types then types[e := EnumType(types[e].dbName, types[e].variants - {v})] else types
    case _ => types
  }

  function AllApplied(types: map<EnumName, EnumType>, changes: seq<Change>): map<EnumName, EnumType> {
    if changes == [] then types else Applied(AllApplied(types, changes[..|changes| - 1]), changes[|changes| - 1])
  }

  function TypeAt(types: map<EnumName, EnumType>, e: EnumName): Option<EnumType> {
    if e in types then Some(types[e]) else None
  }

  /** The enum changes are among those that the diff calls for. */
  ghost predicate OnlyEmitted(prev: Schema, next: Schema, changes: seq<Change>) {
    forall c :: c in changes && IsEnumChange(c) ==> EmittedEnum(prev, next, c)
  }

  /** What has become of `e`, going by which changes there are. */
  ghost predicate Become(prev: Schema, next: Schema, changes: seq<Change>, e: EnumName, now: Option<EnumType>) {
    if prev.enums.Has(e) && next.enums.Has(e) then
      now.Some? && Varied(prev.enums.Get(e), e, changes, now.value)
    else if prev.enums.Has(e) then
      now == if DropEnum(e, prev.enums.Get(e).dbName) in changes then None else Some(TypeOf(prev.enums.Get(e)))
    else if next.enums.Has(e) then
      now == if CreateEnum(next.enums.Get(e)) in changes then Some(TypeOf(next.enums.Get(e))) else None
    else now == None
  }

  /** The variants of an enum that stays: those that were there and were not dropped, and those that were added. */
  ghost predicate Varied(p: EnumDef, e: EnumName, changes: seq<Change>, now: EnumType) {
    && now.dbName == p.dbName
    && forall v :: v in now.variants <==> (v in p.variants && DropEnumVariant(e, v) !in changes) || AddEnumVariant(e, v) in changes
  }

  lemma VariedStep(p: EnumDef, e: EnumName, done: seq<Change>, c: Change, types: map<EnumName, EnumType>)
    requires e in types && Varied(p, e, done, types[e])
    requires !(c.CreateEnum? && c.def.name == e) && !(c.DropEnum? && c.droppedEnum == e)
    requires forall v :: AddEnumVariant(e, v) in done + [c] ==> v !in p.variants
    requires forall v :: DropEnumVariant(e, v) in done + [c] ==> v in p.variants
    ensures e in Applied(types, c) && Varied(p, e, done + [c], Applied(types, c)[e])
  {
    assert forall d :: d in done + [c] <==> d in done || d == c;
  }

  lemma OtherStep(prev: Schema, next: Schema, done: seq<Change>, c: Change, e: EnumName, types: map<EnumName, EnumType>)
    requires prev.Valid() && next.Valid() && (IsEnumChange(c) ==> EmittedEnum(prev, next, c))
    requires !(prev.enums.Has(e) && next.enums.Has(e))
    requires Become(prev, next, done, e, TypeAt(types, e))
    ensures Become(prev, next, done + [c], e, TypeAt(Applied(types, c), e))
  {
    assert forall d :: d in done + [c] <==> d in done || d == c;
  }

  lemma BecomeStep(prev: Schema, next: Schema, done: seq<Change>, c: Change, e: EnumName, types: map<EnumName, EnumType>)
    requires prev.Valid() && next.Valid() && OnlyEmitted(prev, next, done + [c])
    requires Become(prev, next, done, e, TypeAt(types, e))
    ensures Become(prev, next, done + [c], e, TypeAt(Applied(types, c), e))
  {
    assert c in done + [c];
    if prev.enums.Has(e) && next.enums.Has(e) {
      VariedStep(prev.enums.Get(e), e, done, c, types);
    } else {
      OtherStep(prev, next, done, c, e, types);
    }
  }

  lemma {:induction false} BecomeAll(prev: Schema, next: Schema, changes: seq<Change>, e: EnumName)
    requires prev.Valid() && next.Valid() && OnlyEmitted(prev, next, changes)
    ensures Become(prev, next, changes, e, TypeAt(AllApplied(Types(prev), changes), e))
  {
    if changes != [] {
      var done, c := changes[..|changes| - 1], changes[|changes| - 1];
      assert changes == done + [c];
      BecomeAll(prev, next, done, e);
      BecomeStep(prev, next, done, c, e, AllApplied(Types(prev), done));
    }
  }

  /** No enum that stays gets another name in the database. */
  ghost predicate KeepsTypeNames(prev: Schema, next: Schema) {
    forall e :: prev.enums.Has(e) && next.enums.Has(e) ==> prev.enums.Get(e).dbName == next.enums.Get(e).dbName
  }

  lemma BecomesNext(prev: Schema, next: Schema, changes: seq<Change>, e: EnumName)
    requires prev.Valid() && next.Valid() && IsDiff(prev, next, changes)
    ensures var now, wanted := TypeAt(AllApplied(Types(prev), changes), e), TypeAt(Types(next), e);
            now == wanted <==>
              (prev.enums.Has(e) && next.enums.Has(e) ==> prev.enums.Get(e).dbName == next.enums.Get(e).dbName)
  {
    assert OnlyEmitted(prev, next, changes) by {
      forall c | c in changes && IsEnumChange(c) ensures EmittedEnum(prev, next, c) {
        assert Emitted(prev, next, c);
      }
    }
    BecomeAll(prev, next, changes, e);
    if prev.enums.Has(e) && next.enums.Has(e) {
      var p, q := prev.enums.Get(e), next.enums.Get(e);
      var now := AllApplied(Types(prev), changes)[e];
      forall v ensures v in now.variants <==> v in q.variants {
        assert EmittedEnum(prev, next, AddEnumVariant(e, v)) <==> v in q.variants && v !in p.variants;
        assert EmittedEnum(prev, next, DropEnumVariant(e, v)) <==> v in p.variants && v !in q.variants;
        assert Emitted(prev, next, AddEnumVariant(e, v)) <==> EmittedEnum(prev, next, AddEnumVariant(e, v));
        assert Emitted(prev, next, DropEnumVariant(e, v)) <==> EmittedEnum(prev, next, DropEnumVariant(e, v));
      }
      assert now.variants == TypeOf(q).variants;
    } else if prev.enums.Has(e) {
      assert Emitted(prev, next, DropEnum(e, prev.enums.Get(e).dbName));
    } else if next.enums.Has(e) {
      assert Emitted(prev, next, CreateEnum(next.enums.Get(e)));
    }
  }

  /**
   The changes of a diff, in whatever order, turn the enum types of one schema into those of
   the other, if and only if no enum of both is mapped to another name: the diff does not
   compare the names.
   */
  lemma EnumsMigrate(prev: Schema, next: Schema, changes: seq<Change>)
    requires prev.Valid() && next.Valid() && IsDiff(prev, next, changes)
    ensures AllApplied(Types(prev), changes) == Types(next) <==> KeepsTypeNames(prev, next)
  {
    var now, wanted := AllApplied(Types(prev), changes), Types(next);
    forall e
      ensures TypeAt(now, e) == TypeAt(wanted, e) <==>
                (prev.enums.Has(e) && next.enums.Has(e) ==> prev.enums.Get(e).dbName == next.enums.Get(e).dbName)
    {
      BecomesNext(prev, next, changes, e);
    }
    SameTypes(now, wanted);
  }

  lemma SameTypes(a: map<EnumName, EnumType>, b: map<EnumName, EnumType>)
    ensures a == b <==> forall e :: TypeAt(a, e) == TypeAt(b, e)
  {
    if forall e :: TypeAt(a, e) == TypeAt(b, e) {
      forall e ensures e in a <==> e in b {
        assert TypeAt(a, e) == TypeAt(b, e);
      }
      forall e | e in a ensures a[e] == b[e] {
        assert TypeAt(a, e) == TypeAt(b, e);
      }
    }
  }
}
