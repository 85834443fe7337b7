/**
 Pairing the sides of one group (`resolve_group` and `resolve_implicit_many_to_many` of
 `crates/parser/src/lower.rs`).
 */
module Resolve {
  import opened Names
  import opened Ir
  import opened Links
  import opened Sides
  import opened Build

  /** What resolution works on. */
  datatype Work = Work(models: Models, entries: seq<Entry>, problems: seq<Problem>)

  /** Pointers are never overwritten. */
  ghost predicate KeepsPointers(a: Models, b: Models) {
    forall e :: ResolvedAt(a, e).Some? ==> ResolvedAt(b, e) == ResolvedAt(a, e)
  }

  ghost predicate NewModels(a: Models, b: Models, added: set<ModelName>) {
    && (forall m :: b.Has(m) ==> a.Has(m) || m in added)
    && (forall e :: IsRelation(b, e) && !a.Has(e.model) ==> ResolvedAt(b, e).Some?)
  }

  /** A stretch of resolution that concerns the fields `ends` and may create the models `added`. */
  ghost predicate Progress(a: Work, aBacks: seq<Option<End>>, b: Work, bBacks: seq<Option<End>>,
                           ends: set<End>, added: set<ModelName>)
  {
    && Linked(b.models, b.entries, bBacks)
    && Grows(a.models, b.models) && Leaves(a.models, b.models, ends) && KeepsPointers(a.models, b.models)
    && NewModels(a.models, b.models, added)
    && a.problems <= b.problems && a.entries <= b.entries && aBacks <= bBacks
  }

  /** The field of `s` is as collected, and not resolved yet. */
  predicate Stands(ms: Models, s: Side) {
    && IsRelation(ms, EndOf(s)) && ms.Has(s.target)
    && RefAt(ms, EndOf(s)).target == s.target && RefAt(ms, EndOf(s)).resolved.None?
  }

  lemma SoundBuilt(ms: Models, owner: Side, back: Option<Side>, x: Entry)
    requires Buildable(ms, owner) && IsBuilt(ms, owner, back, x) && RefAt(ms, EndOf(owner)).target == owner.target
    ensures SoundEntry(ms, x)
  {
    AllKnown(ms.Get(owner.model), RefAt(ms, EndOf(owner)).fields);
    AllKnown(ms.Get(owner.target), References(ms, owner));
  }

  /** The entry can be linked: its owner is a field that points nowhere yet. */
  ghost predicate Linkable(ms: Models, entries: seq<Entry>, x: Entry, backs: seq<Option<End>>) {
    && Linked(ms, entries, backs) && SoundEntry(ms, x)
    && IsRelation(ms, OwnerEnd(x)) && ResolvedAt(ms, OwnerEnd(x)).None?
  }

  /**
   Appends an entry and points its owner to it. `sound` says, here and below, that no name
   clashed so far; what is promised without it holds even when one did.
   */
  method Push(models: Models, entries: seq<Entry>, x: Entry, ghost sound: bool, ghost backs: seq<Option<End>>)
    returns (after: Models, extended: seq<Entry>)
    requires sound ==> Linkable(models, entries, x, backs)
    ensures extended == entries + [x] && after == Marked(models, OwnerEnd(x), |entries|)
    ensures sound ==>
              && Linked(after, extended, backs + [None])
              && Grows(models, after) && Leaves(models, after, {OwnerEnd(x)}) && KeepsPointers(models, after)
              && ResolvedAt(after, OwnerEnd(x)) == Some(|entries|)
              && forall m :: after.Has(m) <==> models.Has(m)
  {
    extended := entries + [x];
    after := Marked(models, OwnerEnd(x), |entries|);
    if sound {
      LinkOwner(models, entries, backs, x);
      MarkedKeeps(models, OwnerEnd(x), |entries|);
    }
  }

  // ---- A foreign key and its back side -------------------------------------------------------------

  predicate Opposite(s: Side, t: Side) {
    s.model == t.target && s.target == t.model
  }

  /** Only more is recorded, and what was declared stays as declared. */
  ghost predicate Onwards(base: Models, w: Work, r: Work) {
    && w.entries <= r.entries && w.problems <= r.problems
    && (Extends(base, w.models) ==> Extends(base, r.models))
  }

  /** The side's foreign key can be built, of columns that go together. */
  predicate GoodOwner(ms: Models, owner: Side) {
    Buildable(ms, owner) && Compatible(ms, owner)
  }

  /** A pair of an owner and its back side that can be linked. */
  ghost predicate OwnedPair(w: Work, owner: Side, back: Side, backs: seq<Option<End>>) {
    Linked(w.models, w.entries, backs) && Stands(w.models, owner) && Stands(w.models, back) && EndOf(owner) != EndOf(back)
  }

  /** The foreign key of `owner`, whose other end is `back`: many rows for one, if that is a list. */
  predicate IsOwnedEntry(x: Entry, owner: Side, back: Side) {
    && OwnerEnd(x) == EndOf(owner) && x.target == owner.target && x.targetField == Some(back.field) && x.join.None?
    && x.kind == (if back.isList then ManyToOne else OneToOne)
  }

  /** The end of `resolve_group`: an owner with a back side. */
  method ResolveOwned(owner: Side, back: Side, w: Work, ghost sound: bool, ghost base: Models, ghost backs: seq<Option<End>>)
    returns (r: Work, ghost after: seq<Option<End>>)
    requires sound ==> OwnedPair(w, owner, back, backs)
    ensures Onwards(base, w, r)
    ensures r.entries != w.entries <==> Buildable(w.models, owner)
    ensures IsRelation(w.models, EndOf(owner)) && w.models.Has(owner.target) ==>
              (r.problems == w.problems <==> GoodOwner(w.models, owner))
    ensures sound ==> Progress(w, backs, r, after, {EndOf(owner), EndOf(back)}, {})
    ensures r.entries != w.entries ==> |r.entries| == |w.entries| + 1 && IsOwnedEntry(r.entries[|w.entries|], owner, back)
    ensures sound && r.entries != w.entries ==>
              && ResolvedAt(r.models, EndOf(owner)).Some? && ResolvedAt(r.models, EndOf(back)).Some?
              && (AllFit(r.models, r.entries, after, |w.entries|) <==> back.model == owner.target)
  {
    var entry, problems := BuildRelation(owner, Some(back), w.models);
    r := w.(problems := w.problems + problems);
    after := backs;
    if entry.Some? {
      var i := |w.entries|;
      var mid := Marked(w.models, EndOf(owner), i);
      r := Work(Marked(mid, EndOf(back), i), w.entries + [entry.value], r.problems);
      after := backs + [Some(EndOf(back))];
      if Extends(base, w.models) {
        ExtendsMarked(base, w.models, EndOf(owner), i);
        ExtendsMarked(base, mid, EndOf(back), i);
      }
      if sound {
        OwnedLinks(owner, back, w, backs, entry.value);
      }
    }
  }

  /** The owner and its back side are linked to the new entry. */
  lemma OwnedLinks(owner: Side, back: Side, w: Work, backs: seq<Option<End>>, x: Entry)
    requires OwnedPair(w, owner, back, backs) && Buildable(w.models, owner) && IsBuilt(w.models, owner, Some(back), x)
    ensures var i := |w.entries|;
            var ms, entries, after := Marked(Marked(w.models, EndOf(owner), i), EndOf(back), i), w.entries + [x], backs + [Some(EndOf(back))];
            && Linked(ms, entries, after)
            && Grows(w.models, ms) && Leaves(w.models, ms, {EndOf(owner), EndOf(back)}) && KeepsPointers(w.models, ms)
            && NewModels(w.models, ms, {})
            && ResolvedAt(ms, EndOf(owner)).Some? && ResolvedAt(ms, EndOf(back)).Some?
            && (AllFit(ms, entries, after, i) <==> back.model == owner.target)
  {
    SoundBuilt(w.models, owner, Some(back), x);
    LinkBoth(w.models, w.entries, backs, x, EndOf(back));
    var i := |w.entries|;
    var mid := Marked(w.models, EndOf(owner), i);
    MarkedKeeps(w.models, EndOf(owner), i);
    PutRefAt(w.models, EndOf(owner), RefAt(w.models, EndOf(owner)).(resolved := Some(i)), EndOf(back));
    MarkedKeeps(mid, EndOf(back), i);
    GrowsTrans(w.models, mid, Marked(mid, EndOf(back), i));
    LeavesTrans(w.models, mid, Marked(mid, EndOf(back), i), {EndOf(owner)}, {EndOf(back)});
    assert {EndOf(owner)} + {EndOf(back)} == {EndOf(owner), EndOf(back)};
  }

  lemma MarkedKeeps(ms: Models, e: End, i: nat)
    requires IsRelation(ms, e) && ResolvedAt(ms, e).None?
    ensures var after := Marked(ms, e, i);
            && Grows(ms, after) && Leaves(ms, after, {e}) && KeepsPointers(ms, after)
            && ResolvedAt(after, e) == Some(i)
            && forall m :: after.Has(m) <==> ms.Has(m)
  {
    var r := RefAt(ms, e).(resolved := Some(i));
    PutRefGrows(ms, e, r);
    PutRefAt(ms, e, r, e);
    forall y | ResolvedAt(ms, y).Some? ensures ResolvedAt(PutRef(ms, e, r), y) == ResolvedAt(ms, y) {
      PutRefAt(ms, e, r, y);
    }
  }

  // ---- Implicit many-to-many -------------------------------------------------------------------------

  const COL_A := FieldName("a")
  const COL_B := FieldName("b")
  const REL_A := FieldName("a_rel")
  const REL_B := FieldName("b_rel")

  function FirstOf(a: Side, b: Side): ModelName {
    if Le(a.model.text, b.model.text) then a.model else b.model
  }

  function SecondOf(a: Side, b: Side): ModelName {
    if Le(a.model.text, b.model.text) then b.model else a.model
  }

  /** The name of the join model that is made up for two list fields. */
  function JoinName(a: Side, b: Side): ModelName {
    ModelName("_" + FirstOf(a, b).text + "To" + SecondOf(a, b).text +
              if a.relName.Some? then "_" + a.relName.value else "")
  }

  function KeyShape(ms: Models, m: ModelName): Shape
    requires Keyed(ms, m)
  {
    ms.Get(m).fields.Get(ms.Get(m).primaryKey[0]).shape
  }

  function KeyColumn(ms: Models, m: ModelName): string
    requires Keyed(ms, m)
  {
    ms.Get(m).fields.Get(ms.Get(m).primaryKey[0]).column
  }

  function JoinRef(ms: Models, m: ModelName, column: FieldName): RelationRef
    requires Keyed(ms, m)
  {
    RelationRef(m, None, None, [column], [ms.Get(m).primaryKey[0]], None)
  }

  /** The made-up join model: a column and a foreign key for each side. */
  function Synthetic(ms: Models, first: ModelName, second: ModelName, name: ModelName): SchemaModel
    requires Keyed(ms, first) && Keyed(ms, second)
  {
    SchemaModel(
      name.text,
      IndexMap([COL_A, COL_B, REL_A, REL_B],
               map[COL_A := SchemaField("A", KeyShape(ms, first), false, false),
                   COL_B := SchemaField("B", KeyShape(ms, second), false, false),
                   REL_A := SchemaField("", One(JoinRef(ms, first, COL_A)), false, false),
                   REL_B := SchemaField("", One(JoinRef(ms, second, COL_B)), false, false)]),
      [COL_A, COL_B], [])
  }

  /** The model has this column, required and of the type of the key of `m`, and a foreign key on it that leads to that key. */
  predicate JoinSide(ms: Models, name: ModelName, field: FieldName, column: string, rel: FieldName, m: ModelName) {
    && Keyed(ms, m) && HasField(ms, End(name, field)) && IsRelation(ms, End(name, rel))
    && var key, f, r := PrimaryKey(ms, m)[0], FieldAt(ms, End(name, field)), RefAt(ms, End(name, rel));
       && f.column == column && !f.optional && f.shape.Plain? && f.shape == FieldAt(ms, End(m, key)).shape
       && r.target == m && r.name.None? && r.fields == [field] && r.references == [key]
  }

  /** The model of this name joins the two others, and its key is both its columns. */
  predicate IsJoinModel(ms: Models, name: ModelName, first: ModelName, second: ModelName) {
    && ms.Has(name) && ms.Get(name).table == name.text && PrimaryKey(ms, name) == [COL_A, COL_B]
    && JoinSide(ms, name, COL_A, "A", REL_A, first) && JoinSide(ms, name, COL_B, "B", REL_B, second)
  }

  lemma StillJoinModel(a: Models, b: Models, name: ModelName, first: ModelName, second: ModelName)
    requires Grows(a, b) && IsJoinModel(a, name, first, second)
    ensures IsJoinModel(b, name, first, second)
  {}

  /** The first field of a primary key is a column. */
  predicate ColumnKey(ms: Models, m: ModelName) {
    Keyed(ms, m) ==> KeyShape(ms, m).Plain?
  }

  lemma Inserted(ms: Models, first: ModelName, second: ModelName, name: ModelName)
    requires Keyed(ms, first) && Keyed(ms, second) && !ms.Has(name)
    requires ColumnKey(ms, first) && ColumnKey(ms, second)
    ensures var after := Put(ms, name, Synthetic(ms, first, second, name));
            && Grows(ms, after) && Leaves(ms, after, {})
            && (forall e :: ResolvedAt(after, e) == ResolvedAt(ms, e))
            && (forall e :: IsRelation(after, e) <==> IsRelation(ms, e) || e == End(name, REL_A) || e == End(name, REL_B))
            && IsJoinModel(after, name, first, second)
            && forall m :: after.Has(m) <==> ms.Has(m) || m == name
  {
    var after := Put(ms, name, Synthetic(ms, first, second, name));
    DistinctFields();
    forall e ensures IsRelation(after, e) <==> IsRelation(ms, e) || e == End(name, REL_A) || e == End(name, REL_B) {
      if e.model != name {
        assert HasField(after, e) <==> HasField(ms, e);
      }
    }
  }

  lemma DistinctFields()
    ensures COL_A != COL_B && COL_A != REL_A && COL_A != REL_B && COL_B != REL_A && COL_B != REL_B && REL_A != REL_B
  {
    assert "a"[0] != "b"[0] && "a_rel"[0] != "b_rel"[0];
    assert |"a"| != |"a_rel"| && |"b"| != |"b_rel"|;
  }

  /** `through` is set on both list fields. */
  lemma RoutedKeeps(ms: Models, e: End, name: ModelName)
    requires IsRelation(ms, e)
    ensures var after := Routed(ms, e, name);
            && Grows(ms, after) && Leaves(ms, after, {e})
            && (forall x :: ResolvedAt(after, x) == ResolvedAt(ms, x))
            && (forall x :: IsRelation(after, x) <==> IsRelation(ms, x))
            && GoesThrough(after, e, name) && (forall x :: GoesThrough(ms, x, name) ==> GoesThrough(after, x, name))
            && forall m :: after.Has(m) <==> ms.Has(m)
  {
    var r := RefAt(ms, e).(through := Some(name));
    PutRefGrows(ms, e, r);
    forall x | IsRelation(ms, x) {
      PutRefAt(ms, e, r, x);
    }
    forall x ensures ResolvedAt(PutRef(ms, e, r), x) == ResolvedAt(ms, x) && (IsRelation(PutRef(ms, e, r), x) <==> IsRelation(ms, x)) {
      PutRefAt(ms, e, r, x);
    }
  }

  function JoinEntry(ms: Models, name: ModelName, field: FieldName, column: string, m: ModelName): Entry
    requires Keyed(ms, m)
  {
    Entry(ManyToOne, name, field, [column], m, None, ms.Get(m).table, [KeyColumn(ms, m)], None)
  }

  /** The many-to-many entry of list field `s`, whose partner is `other`. */
  function ListEntry(s: Side, other: Side, first: ModelName, name: ModelName): Entry {
    var isFirst := s.model == first;
    Entry(ManyToMany, s.model, s.field, [if isFirst then "A" else "B"], s.target, Some(other.field), name.text,
          [if isFirst then "B" else "A"],
          Some(Join(name, if isFirst then REL_A else REL_B, if isFirst then REL_B else REL_A)))
  }

  /** A pair of list fields for which a join model can be made up, under a name that is free. */
  ghost predicate ImplicitPair(w: Work, a: Side, b: Side, backs: seq<Option<End>>) {
    && Linked(w.models, w.entries, backs)
    && Stands(w.models, a) && Stands(w.models, b) && EndOf(a) != EndOf(b)
    && !w.models.Has(JoinName(a, b)) && ColumnKey(w.models, a.model) && ColumnKey(w.models, b.model)
  }

  /** The models after `Synthesise`. */
  ghost predicate Synthesised(a: Side, b: Side, w: Work, ms: Models) {
    var name := JoinName(a, b);
    && Grows(w.models, ms) && Leaves(w.models, ms, {EndOf(a), EndOf(b)})
    && (forall e :: ResolvedAt(ms, e) == ResolvedAt(w.models, e))
    && (forall e :: IsRelation(ms, e) <==> IsRelation(w.models, e) || e == End(name, REL_A) || e == End(name, REL_B))
    && IsJoinModel(ms, name, FirstOf(a, b), SecondOf(a, b))
    && GoesThrough(ms, EndOf(a), name) && GoesThrough(ms, EndOf(b), name)
    && forall m :: ms.Has(m) <==> w.models.Has(m) || m == name
  }

  lemma SynthesisedSo(a: Side, b: Side, w: Work, backs: seq<Option<End>>)
    requires ImplicitPair(w, a, b, backs) && Keyed(w.models, FirstOf(a, b)) && Keyed(w.models, SecondOf(a, b))
    ensures var m1 := Put(w.models, JoinName(a, b), Synthetic(w.models, FirstOf(a, b), SecondOf(a, b), JoinName(a, b)));
            var ms := Routed(Routed(m1, EndOf(a), JoinName(a, b)), EndOf(b), JoinName(a, b));
            Linked(ms, w.entries, backs) && Synthesised(a, b, w, ms)
  {
    var first, second, name := FirstOf(a, b), SecondOf(a, b), JoinName(a, b);
    Inserted(w.models, first, second, name);
    var m1 := Put(w.models, name, Synthetic(w.models, first, second, name));
    BothRouted(w.models, m1, EndOf(a), EndOf(b), name);
    StillJoinModel(m1, Routed(Routed(m1, EndOf(a), name), EndOf(b), name), name, first, second);
    LinkedKeeps(w.models, Routed(Routed(m1, EndOf(a), name), EndOf(b), name), w.entries, backs);
  }

  /** Both list fields go through the new model, and nothing else has changed. */
  lemma BothRouted(before: Models, ms: Models, d: End, e: End, name: ModelName)
    requires Grows(before, ms) && Leaves(before, ms, {}) && IsRelation(before, d) && IsRelation(before, e)
    ensures var after := Routed(Routed(ms, d, name), e, name);
            && Grows(before, after) && Leaves(before, after, {d, e})
            && (forall x :: ResolvedAt(after, x) == ResolvedAt(ms, x))
            && (forall x :: IsRelation(after, x) <==> IsRelation(ms, x))
            && Grows(ms, after) && GoesThrough(after, d, name) && GoesThrough(after, e, name)
            && forall m :: after.Has(m) <==> ms.Has(m)
  {
    var mid := Routed(ms, d, name);
    var after := Routed(mid, e, name);
    RoutedKeeps(ms, d, name);
    RoutedKeeps(mid, e, name);
    GrowsTrans(ms, mid, after);
    GrowsTrans(before, ms, after);
    LeavesTrans(ms, mid, after, {d}, {e});
    LeavesTrans(before, ms, after, {}, {d} + {e});
    assert {} + ({d} + {e}) == {d, e};
  }

  /** Adds the join model, in place of any model of that name, and makes both list fields go through it. */
  method Synthesise(a: Side, b: Side, w: Work, ghost sound: bool, ghost base: Models, ghost backs: seq<Option<End>>) returns (ms: Models)
    requires Keyed(w.models, FirstOf(a, b)) && Keyed(w.models, SecondOf(a, b))
    requires sound ==> ImplicitPair(w, a, b, backs)
    ensures Extends(base, w.models) && !base.Has(JoinName(a, b)) ==> Extends(base, ms)
    ensures sound ==> Linked(ms, w.entries, backs) && Synthesised(a, b, w, ms)
  {
    var first, second, name := FirstOf(a, b), SecondOf(a, b), JoinName(a, b);
    var m1 := Put(w.models, name, Synthetic(w.models, first, second, name));
    var m2 := Routed(m1, EndOf(a), name);
    ms := Routed(m2, EndOf(b), name);
    if Extends(base, w.models) && !base.Has(name) {
      ExtendsPut(base, w.models, name, Synthetic(w.models, first, second, name));
      ExtendsRouted(base, m1, EndOf(a), name);
      ExtendsRouted(base, m2, EndOf(b), name);
    }
    if sound {
      SynthesisedSo(a, b, w, backs);
    }
  }

  /** The four entries of an implicit many-to-many relation. */
  ghost predicate ImplicitDone(a: Side, b: Side, w: Work, backs: seq<Option<End>>, r: Work, after: seq<Option<End>>) {
    var n, name := |w.entries|, JoinName(a, b);
    && |r.entries| == n + 4 && after == backs + [None, None, None, None]
    && IsJoinModel(r.models, name, FirstOf(a, b), SecondOf(a, b))
    && IsJoinEntry(r.entries[n], name, REL_A) && IsJoinEntry(r.entries[n + 1], name, REL_B)
    && IsListEntry(r.entries[n + 2], a, b, FirstOf(a, b), name) && IsListEntry(r.entries[n + 3], b, a, FirstOf(a, b), name)
    && GoesThrough(r.models, EndOf(a), name) && GoesThrough(r.models, EndOf(b), name)
  }

  /** A foreign key of the join model: many of its rows for one of the other model. */
  predicate IsJoinEntry(x: Entry, name: ModelName, field: FieldName) {
    x.kind.ManyToOne? && OwnerEnd(x) == End(name, field) && x.targetField.None? && x.join.None?
  }

  /** The list field `s`, whose other end is `other`, by way of the two foreign keys of the join model. */
  predicate IsListEntry(x: Entry, s: Side, other: Side, first: ModelName, name: ModelName) {
    && x.kind.ManyToMany? && OwnerEnd(x) == EndOf(s) && x.target == s.target && x.targetField == Some(other.field)
    && x.join == Some(if s.model == first then Join(name, REL_A, REL_B) else Join(name, REL_B, REL_A))
  }

  /** Such an entry has the columns of the join model, one way round or the other. */
  lemma ListColumns(ms: Models, x: Entry, s: Side, other: Side, first: ModelName, second: ModelName, name: ModelName)
    requires IsJoinModel(ms, name, first, second) && IsListEntry(x, s, other, first, name) && SoundEntry(ms, x)
    ensures x.ownerCols == [if s.model == first then "A" else "B"] && x.targetCols == [if s.model == first then "B" else "A"]
  {
    OneKnown(ms.Get(name), COL_A);
    OneKnown(ms.Get(name), COL_B);
  }

  /** The two entries read one table from its two ends. */
  predicate Mirrored(x: Entry, y: Entry) {
    && x.ownerCols == y.targetCols && x.targetCols == y.ownerCols && x.join.Some? && y.join.Some?
    && x.join.value == Join(y.join.value.model, y.join.value.targetField, y.join.value.ownerField)
  }

  /** The two list fields are the two ends of their join model, unless they are of one model: then both are its first. */
  lemma MirroredUnlessSelf(a: Side, b: Side, w: Work, backs: seq<Option<End>>, r: Work, after: seq<Option<End>>)
    requires ImplicitDone(a, b, w, backs, r, after) && Linked(r.models, r.entries, after)
    ensures Mirrored(r.entries[|w.entries| + 2], r.entries[|w.entries| + 3]) <==> a.model != b.model
  {
    var n, first, second, name := |w.entries|, FirstOf(a, b), SecondOf(a, b), JoinName(a, b);
    ListColumns(r.models, r.entries[n + 2], a, b, first, second, name);
    ListColumns(r.models, r.entries[n + 3], b, a, first, second, name);
    DistinctFields();
    LeOrders(a.model.text, b.model.text);
    assert "A"[0] != "B"[0] && ["A"][0] != ["B"][0];
  }

  /** Such entries join what they say exactly when each side points at the model of the other. */
  lemma ImplicitFits(a: Side, b: Side, w: Work, backs: seq<Option<End>>, r: Work, after: seq<Option<End>>)
    requires ImplicitDone(a, b, w, backs, r, after) && |backs| == |w.entries|
    ensures AllFit(r.models, r.entries, after, |w.entries|) <==> Opposite(a, b)
  {
    var n := |w.entries|;
    DistinctFields();
    assert Fits(r.models, r.entries[n], after[n]) && Fits(r.models, r.entries[n + 1], after[n + 1]);
    assert Fits(r.models, r.entries[n + 2], after[n + 2]) <==> b.model == a.target;
    assert Fits(r.models, r.entries[n + 3], after[n + 3]) <==> a.model == b.target;
  }

  /** One push after another. */
  ghost predicate Pushed(a: Models, b: Models, ends: set<End>) {
    && Grows(a, b) && Leaves(a, b, ends) && KeepsPointers(a, b)
    && (forall m :: b.Has(m) <==> a.Has(m))
    && (forall e :: e !in ends && ResolvedAt(a, e).None? ==> ResolvedAt(b, e).None?)
    && (forall e :: IsRelation(a, e) ==> IsRelation(b, e) && RefAt(b, e).through == RefAt(a, e).through)
  }

  lemma PushedTrans(a: Models, b: Models, c: Models, s: set<End>, t: set<End>)
    requires Pushed(a, b, s) && Pushed(b, c, t)
    ensures Pushed(a, c, s + t)
  {
    GrowsTrans(a, b, c);
    LeavesTrans(a, b, c, s, t);
  }

  lemma PushedMarked(ms: Models, e: End, i: nat)
    requires IsRelation(ms, e) && ResolvedAt(ms, e).None?
    ensures Pushed(ms, Marked(ms, e, i), {e})
  {
    MarkedKeeps(ms, e, i);
    forall x | IsRelation(ms, x)
      ensures x != e && ResolvedAt(ms, x).None? ==> ResolvedAt(Marked(ms, e, i), x).None?
      ensures RefAt(Marked(ms, e, i), x).through == RefAt(ms, x).through
    {
      PutRefAt(ms, e, RefAt(ms, e).(resolved := Some(i)), x);
    }
  }

  /** An entry of another owner can still be linked. */
  lemma StillLinkable(ms: Models, entries: seq<Entry>, y: Entry, backs: seq<Option<End>>,
                      mid: Models, more: seq<Entry>, moreBacks: seq<Option<End>>, pushed: End)
    requires Linkable(ms, entries, y, backs) && Linked(mid, more, moreBacks) && Pushed(ms, mid, {pushed}) && OwnerEnd(y) != pushed
    ensures Linkable(mid, more, y, moreBacks)
  {
    SoundMore(ms, mid, [], y);
    assert ([] + [y])[0] == y;
  }

  /** Two entries pushed in a row, with different owners. */
  method PushTwo(ms: Models, entries: seq<Entry>, x: Entry, y: Entry, ghost sound: bool, ghost base: Models, ghost backs: seq<Option<End>>)
    returns (after: Models, extended: seq<Entry>)
    requires sound ==> Linkable(ms, entries, x, backs) && Linkable(ms, entries, y, backs) && OwnerEnd(x) != OwnerEnd(y)
    ensures extended == entries + [x, y] && (Extends(base, ms) ==> Extends(base, after))
    ensures sound ==>
              && Linked(after, extended, backs + [None, None])
              && Pushed(ms, after, {OwnerEnd(x), OwnerEnd(y)})
              && ResolvedAt(after, OwnerEnd(x)).Some? && ResolvedAt(after, OwnerEnd(y)).Some?
  {
    var mid, e1 := Push(ms, entries, x, sound, backs);
    if sound {
      PushedMarked(ms, OwnerEnd(x), |entries|);
      StillLinkable(ms, entries, y, backs, mid, e1, backs + [None], OwnerEnd(x));
    }
    after, extended := Push(mid, e1, y, sound, backs + [None]);
    if sound {
      PushedMarked(mid, OwnerEnd(y), |e1|);
      PushedTrans(ms, mid, after, {OwnerEnd(x)}, {OwnerEnd(y)});
      Couple(OwnerEnd(x), OwnerEnd(y));
      OneAndOne(backs, None, None);
    }
    OneAndOne(entries, x, y);
    if Extends(base, ms) {
      ExtendsMarked(base, ms, OwnerEnd(x), |entries|);
      ExtendsMarked(base, mid, OwnerEnd(y), |e1|);
    }
  }

  lemma OneAndOne<T>(s: seq<T>, x: T, y: T)
    ensures s + [x] + [y] == s + [x, y]
  {}

  lemma Couple<T>(x: T, y: T)
    ensures {x} + {y} == {x, y}
  {}

  lemma PairAndPair<T>(s: seq<T>, x: T, y: T, u: T, v: T)
    ensures s + [x, y] + [u, v] == s + [x, y, u, v]
  {}

  lemma TwoAndTwo<T>(x: T, y: T, u: T, v: T)
    ensures {u, v} + {x, y} == {x, y, u, v}
  {}

  /** The list fields and the join model's foreign keys are there, and unresolved. */
  ghost predicate ReadyToPush(a: Side, b: Side, w: Work, ms: Models, backs: seq<Option<End>>) {
    var name := JoinName(a, b);
    && Linked(ms, w.entries, backs) && Grows(w.models, ms)
    && IsRelation(ms, EndOf(a)) && IsRelation(ms, EndOf(b)) && EndOf(a) != EndOf(b)
    && ResolvedAt(ms, EndOf(a)).None? && ResolvedAt(ms, EndOf(b)).None?
    && a.model != name && b.model != name
    && IsJoinModel(ms, name, FirstOf(a, b), SecondOf(a, b))
    && GoesThrough(ms, EndOf(a), name) && GoesThrough(ms, EndOf(b), name)
    && ResolvedAt(ms, End(name, REL_A)).None? && ResolvedAt(ms, End(name, REL_B)).None?
  }

  ghost predicate ImplicitPushed(a: Side, b: Side, ms: Models, after: Models) {
    var name := JoinName(a, b);
    && Pushed(ms, after, {EndOf(a), EndOf(b), End(name, REL_A), End(name, REL_B)})
    && ResolvedAt(after, EndOf(a)).Some? && ResolvedAt(after, EndOf(b)).Some?
    && ResolvedAt(after, End(name, REL_A)).Some? && ResolvedAt(after, End(name, REL_B)).Some?
  }

  /** The entry of the join model's first foreign key is the first of the four. */
  predicate Claims(entries: seq<Entry>, n: nat, name: ModelName) {
    n < |entries| && OwnerEnd(entries[n]) == End(name, REL_A)
  }

  lemma FksLinkable(a: Side, b: Side, w: Work, ms: Models, backs: seq<Option<End>>)
    requires ReadyToPush(a, b, w, ms, backs) && Keyed(w.models, FirstOf(a, b)) && Keyed(w.models, SecondOf(a, b))
    ensures var name := JoinName(a, b);
            && Linkable(ms, w.entries, JoinEntry(w.models, name, REL_A, "A", FirstOf(a, b)), backs)
            && Linkable(ms, w.entries, JoinEntry(w.models, name, REL_B, "B", SecondOf(a, b)), backs)
  {
    var first, second, name := FirstOf(a, b), SecondOf(a, b), JoinName(a, b);
    OneKnown(ms.Get(name), COL_A);
    OneKnown(ms.Get(name), COL_B);
    OneKnown(ms.Get(first), PrimaryKey(ms, first)[0]);
    OneKnown(ms.Get(second), PrimaryKey(ms, second)[0]);
    assert KeyColumn(w.models, first) == FieldAt(ms, End(first, PrimaryKey(ms, first)[0])).column;
    assert KeyColumn(w.models, second) == FieldAt(ms, End(second, PrimaryKey(ms, second)[0])).column;
  }

  lemma OneKnown(m: SchemaModel, f: FieldName)
    ensures m.fields.Has(f) ==> KnownColumns(m, [f]) == [m.fields.Get(f).column]
  {
    assert [f][1..] == [];
  }

  lemma ListsLinkable(a: Side, b: Side, w: Work, ms: Models, backs: seq<Option<End>>, mid: Models, entries: seq<Entry>, after: seq<Option<End>>)
    requires ReadyToPush(a, b, w, ms, backs) && Linked(mid, entries, after)
    requires Pushed(ms, mid, {End(JoinName(a, b), REL_A), End(JoinName(a, b), REL_B)})
    ensures var first, name := FirstOf(a, b), JoinName(a, b);
            Linkable(mid, entries, ListEntry(a, b, first, name), after) && Linkable(mid, entries, ListEntry(b, a, first, name), after)
  {
    var name := JoinName(a, b);
    StillJoinModel(ms, mid, name, FirstOf(a, b), SecondOf(a, b));
    OneKnown(mid.Get(name), COL_A);
    OneKnown(mid.Get(name), COL_B);
    DistinctFields();
  }

  lemma PushedFour(a: Side, b: Side, ms: Models, mid: Models, last: Models)
    requires var name := JoinName(a, b);
             && Pushed(ms, mid, {End(name, REL_A), End(name, REL_B)}) && Pushed(mid, last, {EndOf(a), EndOf(b)})
             && ResolvedAt(mid, End(name, REL_A)).Some? && ResolvedAt(mid, End(name, REL_B)).Some?
             && ResolvedAt(last, EndOf(a)).Some? && ResolvedAt(last, EndOf(b)).Some?
    ensures ImplicitPushed(a, b, ms, last)
  {
    var name := JoinName(a, b);
    PushedTrans(ms, mid, last, {End(name, REL_A), End(name, REL_B)}, {EndOf(a), EndOf(b)});
    TwoAndTwo(EndOf(a), EndOf(b), End(name, REL_A), End(name, REL_B));
  }

  lemma DoneAfterPushes(a: Side, b: Side, w: Work, ms: Models, backs: seq<Option<End>>, r: Work, fkA: Entry, fkB: Entry)
    requires ReadyToPush(a, b, w, ms, backs) && ImplicitPushed(a, b, ms, r.models)
    requires IsJoinEntry(fkA, JoinName(a, b), REL_A) && IsJoinEntry(fkB, JoinName(a, b), REL_B)
    requires var first, name := FirstOf(a, b), JoinName(a, b);
             r.entries == w.entries + [fkA, fkB, ListEntry(a, b, first, name), ListEntry(b, a, first, name)]
    ensures ImplicitDone(a, b, w, backs, r, backs + [None, None, None, None])
  {
    StillJoinModel(ms, r.models, JoinName(a, b), FirstOf(a, b), SecondOf(a, b));
  }

  /** The pushes of `resolve_implicit_many_to_many`. */
  method PushImplicit(a: Side, b: Side, w: Work, ms: Models, ghost sound: bool, ghost base: Models, ghost backs: seq<Option<End>>)
    returns (r: Work, ghost after: seq<Option<End>>)
    requires Keyed(w.models, FirstOf(a, b)) && Keyed(w.models, SecondOf(a, b))
    requires sound ==> ReadyToPush(a, b, w, ms, backs)
    ensures r.problems == w.problems && w.entries <= r.entries && Claims(r.entries, |w.entries|, JoinName(a, b))
    ensures Extends(base, ms) ==> Extends(base, r.models)
    ensures sound ==>
              Linked(r.models, r.entries, after) && ImplicitDone(a, b, w, backs, r, after) && ImplicitPushed(a, b, ms, r.models)
  {
    var first, second, name := FirstOf(a, b), SecondOf(a, b), JoinName(a, b);
    DistinctFields();
    var fkA, fkB := JoinEntry(w.models, name, REL_A, "A", first), JoinEntry(w.models, name, REL_B, "B", second);
    if sound {
      FksLinkable(a, b, w, ms, backs);
    }
    var mid, e2 := PushTwo(ms, w.entries, fkA, fkB, sound, base, backs);
    var listA, listB := ListEntry(a, b, first, name), ListEntry(b, a, first, name);
    if sound {
      ListsLinkable(a, b, w, ms, backs, mid, e2, backs + [None, None]);
    }
    var last, e4 := PushTwo(mid, e2, listA, listB, sound, base, backs + [None, None]);
    after := backs + [None, None, None, None];
    PairAndPair(w.entries, fkA, fkB, listA, listB);
    r := Work(last, e4, w.problems);
    PairAndPair(backs, None, None, None, None);
    if sound {
      PushedFour(a, b, ms, mid, last);
      DoneAfterPushes(a, b, w, ms, backs, r, fkA, fkB);
    }
  }

  /** `resolve_implicit_many_to_many`: it gives up silently when a primary key is missing. */
  method ResolveImplicit(a: Side, b: Side, w: Work, ghost sound: bool, ghost base: Models, ghost backs: seq<Option<End>>)
    returns (r: Work, ghost after: seq<Option<End>>)
    requires sound ==> ImplicitPair(w, a, b, backs)
    ensures r.problems == w.problems && w.entries <= r.entries
    ensures r.entries == w.entries <==> !Keyed(w.models, a.model) || !Keyed(w.models, b.model)
    ensures r.entries != w.entries ==> Claims(r.entries, |w.entries|, JoinName(a, b))
    ensures Extends(base, w.models) && !base.Has(JoinName(a, b)) ==> Extends(base, r.models)
    ensures sound ==> Progress(w, backs, r, after, {EndOf(a), EndOf(b)}, {JoinName(a, b)})
    ensures sound && r.entries != w.entries ==>
              && ResolvedAt(r.models, EndOf(a)).Some? && ResolvedAt(r.models, EndOf(b)).Some?
              && (AllFit(r.models, r.entries, after, |w.entries|) <==> Opposite(a, b))
              && ImplicitDone(a, b, w, backs, r, after)
              && (Mirrored(r.entries[|w.entries| + 2], r.entries[|w.entries| + 3]) <==> a.model != b.model)
  {
    r, after := w, backs;
    if Keyed(w.models, FirstOf(a, b)) && Keyed(w.models, SecondOf(a, b)) {
      var ms := Synthesise(a, b, w, sound, base, backs);
      r, after := PushImplicit(a, b, w, ms, sound, base, backs);
      if sound {
        ImplicitFits(a, b, w, backs, r, after);
        MirroredUnlessSelf(a, b, w, backs, r, after);
        ImplicitProgress(a, b, w, backs, ms, r, after);
      }
    }
  }

  lemma ImplicitProgress(a: Side, b: Side, w: Work, backs: seq<Option<End>>, ms: Models, r: Work, after: seq<Option<End>>)
    requires !w.models.Has(JoinName(a, b))
    requires Linked(r.models, r.entries, after) && r.problems == w.problems && w.entries <= r.entries && backs <= after
    requires Synthesised(a, b, w, ms) && ImplicitPushed(a, b, ms, r.models)
    ensures Progress(w, backs, r, after, {EndOf(a), EndOf(b)}, {JoinName(a, b)})
  {
    GrowsTrans(w.models, ms, r.models);
    DeclaredAreLeft(a, b, w, ms, r);
    PointersAreKept(a, b, w, ms, r);
    NewAreResolved(a, b, w, ms, r);
  }

  lemma DeclaredAreLeft(a: Side, b: Side, w: Work, ms: Models, r: Work)
    requires !w.models.Has(JoinName(a, b)) && Synthesised(a, b, w, ms) && ImplicitPushed(a, b, ms, r.models)
    ensures Leaves(w.models, r.models, {EndOf(a), EndOf(b)})
  {
    forall e | e !in {EndOf(a), EndOf(b)} && IsRelation(w.models, e)
      ensures IsRelation(r.models, e) && RefAt(r.models, e) == RefAt(w.models, e)
    {
      assert IsRelation(ms, e) && RefAt(ms, e) == RefAt(w.models, e);
    }
  }

  lemma PointersAreKept(a: Side, b: Side, w: Work, ms: Models, r: Work)
    requires Synthesised(a, b, w, ms) && ImplicitPushed(a, b, ms, r.models)
    ensures KeepsPointers(w.models, r.models)
  {
    forall e | ResolvedAt(w.models, e).Some? ensures ResolvedAt(r.models, e) == ResolvedAt(w.models, e) {
      assert ResolvedAt(ms, e) == ResolvedAt(w.models, e);
    }
  }

  lemma NewAreResolved(a: Side, b: Side, w: Work, ms: Models, r: Work)
    requires Synthesised(a, b, w, ms) && ImplicitPushed(a, b, ms, r.models)
    ensures NewModels(w.models, r.models, {JoinName(a, b)})
  {
    forall e | IsRelation(r.models, e) && !w.models.Has(e.model) ensures ResolvedAt(r.models, e).Some? {
      assert ms.Has(e.model);
      assert IsRelation(ms, e) <==> IsRelation(r.models, e);
    }
  }

  // ---- A group of sides -----------------------------------------------------------------------------------

  function Ends(group: seq<Side>): set<End> {
    set s | s in group :: EndOf(s)
  }

  /** Two list fields, neither with a foreign key. */
  predicate IsImplicit(group: seq<Side>) {
    |group| == 2 && group[0].isList && group[1].isList && !group[0].isOwner && !group[1].isOwner
  }

  function Invented(group: seq<Side>): set<ModelName> {
    if IsImplicit(group) then {JoinName(group[0], group[1])} else {}
  }

  ghost predicate ReadyGroup(ms: Models, group: seq<Side>) {
    && group != [] && DistinctEnds(group)
    && (forall s :: s in group ==> Stands(ms, s) && KeyOf(s) == KeyOf(group[0]) && ColumnKey(ms, s.model))
    && (forall m :: m in Invented(group) ==> !ms.Has(m))
  }

  /** Either nothing is resolved, for a reason, or the group is a pair and both sides are. */
  ghost predicate GroupOutcome(group: seq<Side>, w: Work, backs: seq<Option<End>>, r: Work, after: seq<Option<End>>) {
    && Progress(w, backs, r, after, Ends(group), Invented(group))
    && (r.entries == w.entries ==>
          || r.problems != w.problems
          || (IsImplicit(group) && !(Keyed(w.models, group[0].model) && Keyed(w.models, group[1].model))))
    && (r.entries != w.entries ==>
          && |group| == 2
          && ResolvedAt(r.models, EndOf(group[0])).Some? && ResolvedAt(r.models, EndOf(group[1])).Some?
          && (AllFit(r.models, r.entries, after, |w.entries|) <==> Opposite(group[0], group[1])))
  }

  lemma NoProgress(w: Work, backs: seq<Option<End>>, r: Work, ends: set<End>, added: set<ModelName>)
    requires Linked(w.models, w.entries, backs) && r.models == w.models && r.entries == w.entries && w.problems <= r.problems
    ensures Progress(w, backs, r, backs, ends, added)
  {}

  /** The positions of the sides that declare `fields:`. */
  method OwnerPositions(group: seq<Side>) returns (owners: seq<nat>)
    ensures forall p: nat :: p in owners <==> p < |group| && group[p].isOwner
    ensures forall i, j :: 0 <= i < j < |owners| ==> owners[i] < owners[j]
  {
    owners := [];
    for i := 0 to |group|
      invariant forall p: nat :: p in owners <==> p < i && group[p].isOwner
      invariant forall k, j :: 0 <= k < j < |owners| ==> owners[k] < owners[j]
    {
      if group[i].isOwner {
        assert forall k :: 0 <= k < |owners| ==> owners[k] in owners;
        owners := owners + [i];
      }
    }
  }

  /** Resolution has nothing to say against the group: two list fields, or one foreign key and its back side. */
  predicate GoodGroup(ms: Models, group: seq<Side>) {
    && |group| == 2
    && (IsImplicit(group)
        || (group[0].isOwner && !group[1].isOwner && GoodOwner(ms, group[0]))
        || (group[1].isOwner && !group[0].isOwner && GoodOwner(ms, group[1])))
  }

  /** The sides are relation fields that were declared, and so are their targets. */
  predicate DeclaredGroup(ms: Models, group: seq<Side>) {
    forall s :: s in group ==> IsRelation(ms, EndOf(s)) && ms.Has(s.target)
  }

  /** A group of two list fields claims its join model. */
  predicate GroupClaims(base: Models, group: seq<Side>, w: Work, r: Work) {
    IsImplicit(group) && Keyed(base, group[0].model) && Keyed(base, group[1].model) ==>
      Claims(r.entries, |w.entries|, JoinName(group[0], group[1]))
  }

  lemma StillGoodOwner(base: Models, ms: Models, owner: Side)
    requires Extends(base, ms) && IsRelation(base, EndOf(owner)) && base.Has(owner.target)
    ensures GoodOwner(base, owner) <==> GoodOwner(ms, owner)
    ensures IsRelation(ms, EndOf(owner)) && ms.Has(owner.target)
  {
    ExtendsBuildable(base, ms, owner);
    ExtendsRelation(base, ms, EndOf(owner));
  }

  /** The one entry of a group that is a foreign key and its back side. */
  predicate GroupOwned(group: seq<Side>, w: Work, r: Work) {
    && |group| == 2 && |r.entries| == |w.entries| + 1
    && var at := if group[0].isOwner then 0 else 1;
       group[at].isOwner && IsOwnedEntry(r.entries[|w.entries|], group[at], group[1 - at])
  }

  /** `resolve_group`. */
  method ResolveGroup(group: seq<Side>, w: Work, ghost sound: bool, ghost base: Models, ghost backs: seq<Option<End>>)
    returns (r: Work, ghost after: seq<Option<End>>)
    requires group != [] && (sound ==> Linked(w.models, w.entries, backs) && ReadyGroup(w.models, group))
    ensures w.entries <= r.entries && w.problems <= r.problems
    ensures Extends(base, w.models) && (forall m :: m in Invented(group) ==> !base.Has(m)) ==> Extends(base, r.models)
    ensures Extends(base, w.models) && DeclaredGroup(base, group) ==>
              && (r.problems == w.problems <==> GoodGroup(base, group))
              && GroupClaims(base, group, w, r)
    ensures sound ==> GroupOutcome(group, w, backs, r, after)
    ensures r.entries == w.entries || IsImplicit(group) || GroupOwned(group, w, r)
  {
    var owners := OwnerPositions(group);
    after := backs;
    if |group| > 2 {
      var second := if |owners| >= 2 then owners[1] else 1;
      assert |owners| >= 2 ==> owners[1] in owners;
      r := w.(problems := w.problems + [Problem(AmbiguousRelation, EndOf(group[second]))]);
      GroupGivenUp(group, w, sound, backs, r);
      return;
    }
    if |owners| > 1 {
      assert owners[0] in owners && owners[1] in owners;
      r := w.(problems := w.problems + [Problem(AmbiguousRelation, EndOf(group[owners[1]]))]);
      GroupGivenUp(group, w, sound, backs, r);
      return;
    }
    if |owners| == 0 {
      assert forall p: nat :: p < |group| ==> p !in owners;
      if |group| == 2 && group[0].isList && group[1].isList {
        r, after := ResolveListPair(group, w, sound, base, backs);
        return;
      }
      r := w.(problems := w.problems + [Problem(MissingRelationOwner, EndOf(group[0]))]);
      GroupGivenUp(group, w, sound, backs, r);
      return;
    }
    assert owners[0] in owners;
    var owner := group[owners[0]];
    if |group| == 1 {
      r := w.(problems := w.problems + [Problem(MissingBackRelation, EndOf(owner))]);
      GroupGivenUp(group, w, sound, backs, r);
      return;
    }
    assert 1 - owners[0] !in owners;
    r, after := ResolvePair(group, owners[0], w, sound, base, backs);
  }

  lemma GroupGivenUp(group: seq<Side>, w: Work, sound: bool, backs: seq<Option<End>>, r: Work)
    requires sound ==> Linked(w.models, w.entries, backs)
    requires r.models == w.models && r.entries == w.entries && w.problems < r.problems
    ensures sound ==> GroupOutcome(group, w, backs, r, backs)
  {}

  /** Two list fields. */
  method ResolveListPair(group: seq<Side>, w: Work, ghost sound: bool, ghost base: Models, ghost backs: seq<Option<End>>)
    returns (r: Work, ghost after: seq<Option<End>>)
    requires IsImplicit(group) && (sound ==> Linked(w.models, w.entries, backs) && ReadyGroup(w.models, group))
    ensures w.entries <= r.entries && r.problems == w.problems
    ensures Extends(base, w.models) && (forall m :: m in Invented(group) ==> !base.Has(m)) ==> Extends(base, r.models)
    ensures Extends(base, w.models) && DeclaredGroup(base, group) ==> GroupClaims(base, group, w, r)
    ensures sound ==> GroupOutcome(group, w, backs, r, after)
  {
    assert JoinName(group[0], group[1]) in Invented(group);
    assert group[0] in group && group[1] in group;
    r, after := ResolveImplicit(group[0], group[1], w, sound, base, backs);
    PairEnds(group);
    if Extends(base, w.models) && DeclaredGroup(base, group) {
      ExtendsKeyed(base, w.models, group[0].model);
      ExtendsKeyed(base, w.models, group[1].model);
    }
  }

  lemma GoodPair(ms: Models, group: seq<Side>, at: nat)
    requires |group| == 2 && at < 2 && group[at].isOwner && !group[1 - at].isOwner
    ensures GoodGroup(ms, group) <==> GoodOwner(ms, group[at])
  {
    assert at == 0 || at == 1;
  }

  /** An owner and a back side. */
  method ResolvePair(group: seq<Side>, at: nat, w: Work, ghost sound: bool, ghost base: Models, ghost backs: seq<Option<End>>)
    returns (r: Work, ghost after: seq<Option<End>>)
    requires |group| == 2 && at < 2 && group[at].isOwner && !group[1 - at].isOwner
    requires sound ==> Linked(w.models, w.entries, backs) && ReadyGroup(w.models, group)
    ensures Onwards(base, w, r)
    ensures Extends(base, w.models) && DeclaredGroup(base, group) ==> (r.problems == w.problems <==> GoodGroup(base, group))
    ensures sound ==> GroupOutcome(group, w, backs, r, after)
    ensures r.entries == w.entries || GroupOwned(group, w, r)
  {
    var owner, back := group[at], group[1 - at];
    assert owner in group && back in group && !IsImplicit(group);
    if Extends(base, w.models) && DeclaredGroup(base, group) {
      StillGoodOwner(base, w.models, owner);
      GoodPair(base, group, at);
    }
    r, after := ResolveOwned(owner, back, w, sound, base, backs);
    if sound {
      PairOutcome(group, at, w, backs, r, after);
    }
  }

  /** What becomes of the two is what becomes of the group. */
  lemma PairOutcome(group: seq<Side>, at: nat, w: Work, backs: seq<Option<End>>, r: Work, after: seq<Option<End>>)
    requires |group| == 2 && at < 2 && group[at].isOwner && KeyOf(group[0]) == KeyOf(group[1])
    requires Progress(w, backs, r, after, {EndOf(group[at]), EndOf(group[1 - at])}, {})
    requires r.entries == w.entries ==> r.problems != w.problems
    requires r.entries != w.entries ==>
               && ResolvedAt(r.models, EndOf(group[at])).Some? && ResolvedAt(r.models, EndOf(group[1 - at])).Some?
               && (AllFit(r.models, r.entries, after, |w.entries|) <==> group[1 - at].model == group[at].target)
    ensures GroupOutcome(group, w, backs, r, after)
  {
    PairEnds(group);
    SameGroup(group[at], group[1 - at]);
    assert at == 0 || at == 1;
    assert {EndOf(group[at]), EndOf(group[1 - at])} == {EndOf(group[0]), EndOf(group[1])};
  }

  lemma PairEnds(group: seq<Side>)
    requires |group| == 2
    ensures Ends(group) == {EndOf(group[0]), EndOf(group[1])}
  {
    assert group[0] in group && group[1] in group;
  }
}
