/**
 The sides of relations: which relation fields take part in resolution, and how they are
 grouped (`collect_sides` and the grouping loops of `crates/parser/src/lower.rs`).
 */
module Sides {
  import opened Names
  import opened Ir
  import opened Links

  datatype Side = Side(
    model: ModelName,
    field: FieldName,
    target: ModelName,
    relName: Option<string>,
    joinModel: Option<ModelName>,
    isOwner: bool,
    isList: bool,
    optional: bool)

  datatype ProblemKind =
    | ThroughOnNonList | ThroughWithFields | AmbiguousRelation | MissingRelationOwner | MissingBackRelation
    | UnknownRelationField | InvalidRelationTarget | RelationTypeMismatch | RelationNullabilityMismatch
    | InvalidJoinModel

  /** A diagnostic, and the field it is about. */
  datatype Problem = Problem(kind: ProblemKind, at: End)

  function EndOf(s: Side): End {
    End(s.model, s.field)
  }

  /** `through:` on a field that is not a list, or together with `fields:`. */
  predicate Refused(f: SchemaField) {
    !f.shape.Plain? && f.shape.Ref().through.Some? && (f.shape.One? || f.shape.Ref().fields != [])
  }

  predicate RoutesThrough(target: SchemaModel, m: ModelName) {
    exists f :: f in target.fields.entries && !target.fields.Get(f).shape.Plain? &&
                target.fields.Get(f).shape.Ref().through == Some(m)
  }

  /** The join model a side belongs to: named by `through:`, or its own model. */
  function JoinModelOf(ms: Models, e: End): Option<ModelName>
    requires IsRelation(ms, e)
  {
    var rel := RefAt(ms, e);
    if rel.through.Some? then rel.through
    else if rel.fields != [] && ms.Has(rel.target) && RoutesThrough(ms.Get(rel.target), e.model) then Some(e.model)
    else None
  }

  function SideOf(ms: Models, e: End): Side
    requires IsRelation(ms, e)
  {
    var rel, f := RefAt(ms, e), FieldAt(ms, e);
    Side(e.model, e.field, rel.target, rel.name, JoinModelOf(ms, e), rel.fields != [] && rel.through.None?, f.shape.Many?, f.optional)
  }

  /** The relation goes through `j`, or is a foreign key of `j` to a model with a relation through `j`. */
  ghost predicate Belongs(ms: Models, e: End, j: ModelName)
    requires IsRelation(ms, e)
  {
    var rel := RefAt(ms, e);
    if rel.through.Some? then rel.through.value == j
    else rel.fields != [] && e.model == j && exists f :: GoesThrough(ms, End(rel.target, f), j)
  }

  predicate GoesThrough(ms: Models, e: End, j: ModelName) {
    IsRelation(ms, e) && RefAt(ms, e).through == Some(j)
  }

  lemma JoinModelIs(ms: Models, e: End)
    requires IsRelation(ms, e)
    ensures forall j :: JoinModelOf(ms, e) == Some(j) <==> Belongs(ms, e, j)
  {
    var rel := RefAt(ms, e);
    if ms.Has(rel.target) && RoutesThrough(ms.Get(rel.target), e.model) {
      var f :| f in ms.Get(rel.target).fields.entries && !ms.Get(rel.target).fields.Get(f).shape.Plain? &&
               ms.Get(rel.target).fields.Get(f).shape.Ref().through == Some(e.model);
      assert GoesThrough(ms, End(rel.target, f), e.model);
    }
  }

  /** What a side says of its field. */
  ghost predicate IsSide(ms: Models, s: Side)
    ensures IsSide(ms, s) <==> IsRelation(ms, EndOf(s)) && s == SideOf(ms, EndOf(s))
  {
    IsRelation(ms, EndOf(s)) &&
    (JoinModelIs(ms, EndOf(s));
     var f, rel := FieldAt(ms, EndOf(s)), RefAt(ms, EndOf(s));
     && s.target == rel.target && s.relName == rel.name && s.optional == f.optional
     && (s.isList <==> f.shape.Many?) && (s.isOwner <==> rel.fields != [] && rel.through.None?)
     && forall j :: s.joinModel == Some(j) <==> Belongs(ms, EndOf(s), j))
  }

  predicate RefusedAt(ms: Models, e: End) {
    IsRelation(ms, e) && Refused(FieldAt(ms, e))
  }

  /** Some refused field goes through `t`; nothing that involves `t` is resolved then. */
  ghost predicate Poisoned(ms: Models, t: ModelName) {
    exists e :: RefusedAt(ms, e) && RefAt(ms, e).through == Some(t)
  }

  ghost predicate TakesPart(ms: Models, e: End) {
    && IsRelation(ms, e) && !RefusedAt(ms, e)
    && forall j :: Belongs(ms, e, j) ==> !Poisoned(ms, j)
  }

  ghost predicate DistinctEnds(sides: seq<Side>) {
    forall i, j :: 0 <= i < j < |sides| ==> EndOf(sides[i]) != EndOf(sides[j])
  }

  /** Exactly the sides that take part, each once. */
  ghost predicate AreSides(ms: Models, sides: seq<Side>) {
    && DistinctEnds(sides)
    && (forall s :: s in sides <==> TakesPart(ms, EndOf(s)) && IsSide(ms, s))
  }

  // ---- Collecting --------------------------------------------------------------------------------

  /** What the loops know after visiting the fields in `seen`. */
  ghost predicate Collecting(ms: Models, seen: set<End>, sides: seq<Side>, poisoned: set<ModelName>, problems: seq<Problem>) {
    && DistinctEnds(sides)
    && (forall s :: s in sides ==>
          EndOf(s) in seen && IsRelation(ms, EndOf(s)) && !RefusedAt(ms, EndOf(s)) && s == SideOf(ms, EndOf(s)))
    && (forall e :: e in seen && IsRelation(ms, e) && !RefusedAt(ms, e) ==>
          SideOf(ms, e) in sides || (JoinModelOf(ms, e).Some? && JoinModelOf(ms, e).value in poisoned))
    && (forall t :: t in poisoned ==> Poisoned(ms, t))
    && (forall e :: e in seen && RefusedAt(ms, e) ==> RefAt(ms, e).through.value in poisoned)
    && (problems == [] <==> poisoned == {})
  }

  method Visit(ms: Models, e: End, sides0: seq<Side>, poisoned0: set<ModelName>, problems0: seq<Problem>, ghost seen: set<End>)
    returns (sides: seq<Side>, poisoned: set<ModelName>, problems: seq<Problem>)
    requires HasField(ms, e) && e !in seen && Collecting(ms, seen, sides0, poisoned0, problems0)
    ensures Collecting(ms, seen + {e}, sides, poisoned, problems)
  {
    sides, poisoned, problems := sides0, poisoned0, problems0;
    var field := FieldAt(ms, e);
    if field.shape.Plain? {
      return;
    }
    var rel := field.shape.Ref();
    if rel.through.Some? && !field.shape.Many? {
      poisoned := poisoned + {rel.through.value};
      problems := problems + [Problem(ThroughOnNonList, e)];
      assert RefusedAt(ms, e);
      return;
    }
    if rel.through.Some? && rel.fields != [] {
      poisoned := poisoned + {rel.through.value};
      problems := problems + [Problem(ThroughWithFields, e)];
      assert RefusedAt(ms, e);
      return;
    }
    var joinModel := JoinModelOf(ms, e);
    if joinModel.Some? && joinModel.value in poisoned {
      return;
    }
    sides := sides + [SideOf(ms, e)];
  }

  function Retained(sides: seq<Side>, poisoned: set<ModelName>): seq<Side> {
    if sides == [] then []
    else (if sides[0].joinModel.Some? && sides[0].joinModel.value in poisoned then [] else [sides[0]]) +
         Retained(sides[1..], poisoned)
  }

  lemma {:induction false} RetainedMembers(sides: seq<Side>, poisoned: set<ModelName>)
    ensures forall s :: s in Retained(sides, poisoned) <==>
                        s in sides && !(s.joinModel.Some? && s.joinModel.value in poisoned)
  {
    if sides != [] {
      RetainedMembers(sides[1..], poisoned);
    }
  }

  lemma {:induction false} RetainedDistinct(sides: seq<Side>, poisoned: set<ModelName>)
    requires DistinctEnds(sides)
    ensures DistinctEnds(Retained(sides, poisoned))
  {
    if sides != [] {
      RetainedDistinct(sides[1..], poisoned);
      RetainedMembers(sides[1..], poisoned);
      var kept := Retained(sides[1..], poisoned);
      forall j | 0 <= j < |kept| ensures EndOf(kept[j]) != EndOf(sides[0]) {
        assert kept[j] in kept;
        assert kept[j] in sides[1..];
      }
    }
  }

  method CollectSides(ms: Models) returns (sides: seq<Side>, problems: seq<Problem>)
    requires ms.Valid() && forall m :: ms.Has(m) ==> ms.Get(m).fields.Valid()
    ensures AreSides(ms, sides)
    ensures problems == [] <==> forall e :: !RefusedAt(ms, e)
  {
    sides, problems := [], [];
    var poisoned: set<ModelName> := {};
    ghost var seen: set<End> := {};
    for i := 0 to |ms.keys|
      invariant Collecting(ms, seen, sides, poisoned, problems)
      invariant forall e :: e in seen <==> HasField(ms, e) && e.model in ms.keys[..i]
    {
      var model := ms.keys[i];
      assert ms.keys[..i + 1] == ms.keys[..i] + [model];
      var names := ms.Get(model).fields.keys;
      for j := 0 to |names|
        invariant Collecting(ms, seen, sides, poisoned, problems)
        invariant forall e :: e in seen <==>
                    HasField(ms, e) && (e.model in ms.keys[..i] || (e.model == model && e.field in names[..j]))
      {
        assert names[..j + 1] == names[..j] + [names[j]];
        var e := End(model, names[j]);
        sides, poisoned, problems := Visit(ms, e, sides, poisoned, problems, seen);
        seen := seen + {e};
      }
    }
    CollectedAll(ms, seen, sides, poisoned, problems);
    sides := Retained(sides, poisoned);
  }

  lemma CollectedAll(ms: Models, seen: set<End>, sides: seq<Side>, poisoned: set<ModelName>, problems: seq<Problem>)
    requires Collecting(ms, seen, sides, poisoned, problems) && forall e :: HasField(ms, e) ==> e in seen
    ensures AreSides(ms, Retained(sides, poisoned))
    ensures problems == [] <==> forall e :: !RefusedAt(ms, e)
  {
    RetainedMembers(sides, poisoned);
    RetainedDistinct(sides, poisoned);
    forall e | IsRelation(ms, e) {
      JoinModelIs(ms, e);
    }
    forall t ensures t in poisoned <==> Poisoned(ms, t) {}
  }

  // ---- Grouping --------------------------------------------------------------------------------------

  /** Lexicographic order, as strings compare in the program. */
  predicate Le(a: string, b: string) {
    a == "" || (b != "" && (a[0] < b[0] || (a[0] == b[0] && Le(a[1..], b[1..]))))
  }

  /** A text comes before another if it is a beginning of it, or has the smaller character where they first differ. */
  ghost predicate Before(a: string, b: string) {
    a <= b || exists i :: 0 <= i < |a| && i < |b| && a[..i] == b[..i] && a[i] < b[i]
  }

  lemma {:induction false} LeIsBefore(a: string, b: string)
    ensures Le(a, b) <==> Before(a, b)
  {
    if a != "" && b != "" {
      LeIsBefore(a[1..], b[1..]);
      assert a == [a[0]] + a[1..] && b == [b[0]] + b[1..];
      if a[0] == b[0] {
        BeforeTail(a, b);
      } else {
        BeforeHead(a, b);
      }
    }
  }

  lemma BeforeHead(a: string, b: string)
    requires a != "" && b != "" && a[0] != b[0]
    ensures Before(a, b) <==> a[0] < b[0]
  {
    assert a[..0] == b[..0];
    forall i | 0 < i < |a| && i < |b| ensures a[..i] != b[..i] {
      assert a[..i][0] == a[0] && b[..i][0] == b[0];
    }
  }

  lemma BeforeTail(a: string, b: string)
    requires a != "" && b != "" && a[0] == b[0]
    ensures Before(a, b) <==> Before(a[1..], b[1..])
  {
    assert a == [a[0]] + a[1..] && b == [b[0]] + b[1..];
    assert a <= b <==> a[1..] <= b[1..];
    if i :| 0 <= i < |a| && i < |b| && a[..i] == b[..i] && a[i] < b[i] {
      TailDiffers(a, b, i - 1);
    }
    if i :| 0 <= i < |a[1..]| && i < |b[1..]| && a[1..][..i] == b[1..][..i] && a[1..][i] < b[1..][i] {
      TailDiffers(a, b, i);
    }
  }

  /** Where two texts with the same first character differ, their tails differ one earlier. */
  lemma TailDiffers(a: string, b: string, i: nat)
    requires i + 1 < |a| && i + 1 < |b| && a[0] == b[0]
    ensures a[..i + 1] == b[..i + 1] <==> a[1..][..i] == b[1..][..i]
    ensures a[1..][i] == a[i + 1] && b[1..][i] == b[i + 1]
  {
    assert a[..i + 1] == [a[0]] + a[1..][..i] && b[..i + 1] == [b[0]] + b[1..][..i];
  }

  lemma {:induction false} LeOrders(a: string, b: string)
    ensures Le(a, b) || Le(b, a)
    ensures Le(a, b) && Le(b, a) ==> a == b
  {
    if a != "" && b != "" {
      LeOrders(a[1..], b[1..]);
      assert a == [a[0]] + a[1..] && b == [b[0]] + b[1..];
    }
  }

  /** The relation's name, if it has one, and the two models in order. */
  datatype GroupKey = GroupKey(relName: Option<string>, first: ModelName, second: ModelName)

  function KeyOf(s: Side): GroupKey {
    if Le(s.model.text, s.target.text) then GroupKey(s.relName, s.model, s.target) else GroupKey(s.relName, s.target, s.model)
  }

  /** Sides group together when they have the same name and the same two models, either way round. */
  lemma SameGroup(s: Side, t: Side)
    ensures KeyOf(s) == KeyOf(t) <==>
            s.relName == t.relName &&
            ((s.model == t.model && s.target == t.target) || (s.model == t.target && s.target == t.model))
  {
    LeOrders(s.model.text, s.target.text);
  }

  /** Sides of one join model group together when they have the same name. */
  lemma SameJoin(s: Side, t: Side)
    ensures JoinKey(s) == JoinKey(t) <==> s.relName == t.relName && s.joinModel == t.joinModel
  {}

  function JoinKey(s: Side): (Option<string>, Option<ModelName>) {
    (s.relName, s.joinModel)
  }

  /** `groups` deals out `sides` by key. */
  ghost predicate Grouped<K(!new)>(sides: seq<Side>, groups: IndexMap<K, seq<Side>>, key: Side -> K) {
    && groups.Valid()
    && (forall k :: k in groups.entries ==> groups.entries[k] != [] && DistinctEnds(groups.entries[k]))
    && (forall k, s :: k in groups.entries && s in groups.entries[k] ==> s in sides && key(s) == k)
    && (forall s :: s in sides ==> key(s) in groups.entries && s in groups.entries[key(s)])
  }

  method GroupSides<K(==,!new)>(sides: seq<Side>, key: Side -> K) returns (groups: IndexMap<K, seq<Side>>)
    requires DistinctEnds(sides)
    ensures Grouped(sides, groups, key)
  {
    groups := IndexMap([], map[]);
    for i := 0 to |sides|
      invariant Grouped(sides[..i], groups, key)
    {
      var s := sides[i];
      var k := key(s);
      var earlier := if groups.Has(k) then groups.Get(k) else [];
      GroupStep(sides[..i], groups, key, s);
      groups := Put(groups, k, earlier + [s]);
      assert sides[..i + 1] == sides[..i] + [s];
    }
    assert sides[..|sides|] == sides;
  }

  lemma FreshEnd(sides: seq<Side>, s: Side, t: Side)
    requires DistinctEnds(sides + [s]) && t in sides
    ensures EndOf(t) != EndOf(s)
  {
    var j :| 0 <= j < |sides| && sides[j] == t;
    assert (sides + [s])[j] == sides[j] && (sides + [s])[|sides|] == s;
  }

  lemma AppendEnd(sides: seq<Side>, group: seq<Side>, s: Side)
    requires DistinctEnds(sides + [s]) && DistinctEnds(group) && forall t :: t in group ==> t in sides
    ensures DistinctEnds(group + [s])
  {
    forall i | 0 <= i < |group| ensures EndOf(group[i]) != EndOf(s) {
      assert group[i] in group;
      FreshEnd(sides, s, group[i]);
    }
  }

  /** The group of `s`, with `s` at its end. */
  lemma GroupAppended<K(!new)>(sides: seq<Side>, groups: IndexMap<K, seq<Side>>, key: Side -> K, s: Side)
    requires Grouped(sides, groups, key) && DistinctEnds(sides + [s])
    ensures var k := key(s);
            var group := (if groups.Has(k) then groups.Get(k) else []) + [s];
            && DistinctEnds(group) && Put(groups, k, group).Valid()
            && forall t :: t in group ==> t in sides + [s] && key(t) == k
  {
    var earlier := if groups.Has(key(s)) then groups.Get(key(s)) else [];
    assert forall t :: t in earlier ==> t in sides;
    AppendEnd(sides, earlier, s);
  }

  /** Every side is still found under its key. */
  lemma StillGrouped<K(!new)>(sides: seq<Side>, groups: IndexMap<K, seq<Side>>, key: Side -> K, s: Side, t: Side)
    requires Grouped(sides, groups, key) && t in sides + [s]
    ensures var k := key(s);
            var after := Put(groups, k, (if groups.Has(k) then groups.Get(k) else []) + [s]);
            key(t) in after.entries && t in after.entries[key(t)]
  {
    if t in sides {
      assert key(t) in groups.entries && t in groups.entries[key(t)];
    }
  }

  lemma GroupStep<K(!new)>(sides: seq<Side>, groups: IndexMap<K, seq<Side>>, key: Side -> K, s: Side)
    requires Grouped(sides, groups, key) && DistinctEnds(sides + [s])
    ensures var k := key(s);
            var earlier := if groups.Has(k) then groups.Get(k) else [];
            Grouped(sides + [s], Put(groups, k, earlier + [s]), key)
  {
    var k := key(s);
    var earlier := if groups.Has(k) then groups.Get(k) else [];
    var after := Put(groups, k, earlier + [s]);
    GroupAppended(sides, groups, key, s);
    forall j | j in after.entries
      ensures after.entries[j] != [] && DistinctEnds(after.entries[j])
      ensures forall t :: t in after.entries[j] ==> t in sides + [s] && key(t) == j
    {
      if j != k {
        assert j in groups.entries && after.entries[j] == groups.entries[j];
      }
    }
    forall t | t in sides + [s] ensures key(t) in after.entries && t in after.entries[key(t)] {
      StillGrouped(sides, groups, key, s, t);
    }
  }
}
