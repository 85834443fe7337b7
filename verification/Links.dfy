/**
 The part of a lowered schema that relation resolution reads and writes
 (`crates/parser/src/lower.rs`, with the types of `crates/core/src/ir.rs`), and the
 back-pointers between relation fields and resolved relations.
 */
module Links {
  import opened Names
  import opened Ir

  /** A relation as written on a field; `resolved` is the back-pointer. */
  datatype RelationRef = RelationRef(
    target: ModelName,
    name: Option<string>,
    through: Option<ModelName>,
    fields: seq<FieldName>,
    references: seq<FieldName>,
    resolved: Option<nat>)

  /** A column of some type, a relation, or a list of relations. */
  datatype Shape = Plain(code: nat) | One(one: RelationRef) | Many(many: RelationRef)
  {
    function Ref(): RelationRef
      requires !Plain?
    {
      if One? then one else many
    }

    function WithRef(r: RelationRef): Shape
      requires !Plain?
    {
      if One? then One(r) else Many(r)
    }
  }

  datatype SchemaField = SchemaField(column: string, shape: Shape, optional: bool, isUnique: bool)

  datatype UniqueTarget = OnField(name: FieldName) | OnExpression(sql: string)

  datatype SchemaModel = SchemaModel(
    table: string,
    fields: IndexMap<FieldName, SchemaField>,
    primaryKey: seq<FieldName>,
    uniques: seq<seq<UniqueTarget>>)

  type Models = IndexMap<ModelName, SchemaModel>

  /** A relation field, by model and name. */
  datatype End = End(model: ModelName, field: FieldName)

  /** A resolved relation. */
  datatype Entry = Entry(
    kind: RelationKind,
    owner: ModelName,
    ownerField: FieldName,
    ownerCols: seq<string>,
    target: ModelName,
    targetField: Option<FieldName>,
    targetTable: string,
    targetCols: seq<string>,
    join: Option<Join>)

  /** The join model of a many-to-many relation, with its foreign keys to the two ends. */
  datatype Join = Join(model: ModelName, ownerField: FieldName, targetField: FieldName)

  function OwnerEnd(x: Entry): End {
    End(x.owner, x.ownerField)
  }

  predicate HasField(ms: Models, e: End) {
    ms.Has(e.model) && ms.Get(e.model).fields.Has(e.field)
  }

  function FieldAt(ms: Models, e: End): SchemaField
    requires HasField(ms, e)
  {
    ms.Get(e.model).fields.Get(e.field)
  }

  predicate IsRelation(ms: Models, e: End) {
    HasField(ms, e) && !FieldAt(ms, e).shape.Plain?
  }

  function RefAt(ms: Models, e: End): RelationRef
    requires IsRelation(ms, e)
  {
    FieldAt(ms, e).shape.Ref()
  }

  function ResolvedAt(ms: Models, e: End): Option<nat> {
    if IsRelation(ms, e) then RefAt(ms, e).resolved else None
  }

  // ---- Updates ---------------------------------------------------------------------------------

  /** Overwrites the relation of one field; a no-op where there is none. */
  function PutRef(ms: Models, e: End, r: RelationRef): Models
    requires IsRelation(ms, e)
  {
    var m := ms.Get(e.model);
    var f := m.fields.Get(e.field);
    Put(ms, e.model, m.(fields := Put(m.fields, e.field, f.(shape := f.shape.WithRef(r)))))
  }

  function Marked(ms: Models, e: End, i: nat): Models {
    if IsRelation(ms, e) then PutRef(ms, e, RefAt(ms, e).(resolved := Some(i))) else ms
  }

  function Routed(ms: Models, e: End, through: ModelName): Models {
    if IsRelation(ms, e) then PutRef(ms, e, RefAt(ms, e).(through := Some(through))) else ms
  }

  lemma PutRefAt(ms: Models, e: End, r: RelationRef, x: End)
    requires IsRelation(ms, e)
    ensures IsRelation(PutRef(ms, e, r), x) <==> IsRelation(ms, x)
    ensures IsRelation(ms, x) ==> RefAt(PutRef(ms, e, r), x) == if x == e then r else RefAt(ms, x)
  {}

  function PrimaryKey(ms: Models, m: ModelName): seq<FieldName>
    requires ms.Has(m)
  {
    ms.Get(m).primaryKey
  }

  /** A model has a first primary-key field. */
  predicate Keyed(ms: Models, m: ModelName) {
    ms.Has(m) && PrimaryKey(ms, m) != [] && HasField(ms, End(m, PrimaryKey(ms, m)[0]))
  }

  /** What a relation says apart from how it was resolved. */
  predicate SameRef(a: RelationRef, b: RelationRef) {
    a.target == b.target && a.name == b.name && a.fields == b.fields && a.references == b.references
  }

  predicate SameColumn(x: SchemaField, y: SchemaField) {
    x.column == y.column && x.optional == y.optional && (x.shape.Plain? ==> y.shape == x.shape)
  }

  /** Nothing that was declared is lost or rewritten. */
  ghost predicate Grows(a: Models, b: Models) {
    && (forall m: ModelName :: a.Has(m) ==>
          b.Has(m) && b.Get(m).table == a.Get(m).table && PrimaryKey(b, m) == PrimaryKey(a, m) && (Keyed(a, m) ==> Keyed(b, m)))
    && (forall e: End :: a.Has(e.model) ==> (HasField(a, e) <==> HasField(b, e)))
    && (forall e: End :: HasField(a, e) ==> HasField(b, e) && SameColumn(FieldAt(a, e), FieldAt(b, e)))
    && (forall e: End :: a.Has(e.model) ==> (IsRelation(a, e) <==> IsRelation(b, e)))
    && (forall e :: IsRelation(a, e) ==> IsRelation(b, e) && SameRef(RefAt(a, e), RefAt(b, e)))
  }

  /** Only the relations of `ends`, and of new models, may have changed. */
  ghost predicate Leaves(a: Models, b: Models, ends: set<End>) {
    forall e :: e !in ends && IsRelation(a, e) ==> IsRelation(b, e) && RefAt(a, e) == RefAt(b, e)
  }

  lemma PutRefGrows(ms: Models, e: End, r: RelationRef)
    requires IsRelation(ms, e) && SameRef(RefAt(ms, e), r)
    ensures Grows(ms, PutRef(ms, e, r)) && Leaves(ms, PutRef(ms, e, r), {e})
  {
    forall x | IsRelation(ms, x) ensures IsRelation(PutRef(ms, e, r), x) && SameRef(RefAt(ms, x), RefAt(PutRef(ms, e, r), x)) {
      PutRefAt(ms, e, r, x);
    }
    forall x ensures IsRelation(ms, x) <==> IsRelation(PutRef(ms, e, r), x)
      ensures x != e && IsRelation(ms, x) ==> RefAt(ms, x) == RefAt(PutRef(ms, e, r), x)
    {
      PutRefAt(ms, e, r, x);
    }
  }

  lemma GrowsTrans(a: Models, b: Models, c: Models)
    requires Grows(a, b) && Grows(b, c)
    ensures Grows(a, c)
  {}

  lemma LeavesTrans(a: Models, b: Models, c: Models, s: set<End>, t: set<End>)
    requires Grows(a, b) && Leaves(a, b, s) && Leaves(b, c, t)
    ensures Leaves(a, c, s + t)
  {}

  // ---- Declared models -------------------------------------------------------------------------------

  /** A field as declared: only the pointers of its relation may have been set. */
  predicate SameField(x: SchemaField, y: SchemaField) {
    && x.column == y.column && x.optional == y.optional && x.isUnique == y.isUnique
    && (x.shape.Plain? ==> y.shape == x.shape)
    && (x.shape.One? <==> y.shape.One?) && (x.shape.Many? <==> y.shape.Many?)
    && (!x.shape.Plain? ==> SameRef(x.shape.Ref(), y.shape.Ref()))
  }

  ghost predicate SameModel(a: SchemaModel, b: SchemaModel) {
    && a.table == b.table && a.primaryKey == b.primaryKey && a.uniques == b.uniques
    && (forall f: FieldName :: a.fields.Has(f) <==> b.fields.Has(f))
    && (forall f: FieldName :: a.fields.Has(f) ==> SameField(a.fields.Get(f), b.fields.Get(f)))
  }

  /** The declared models are all there, as declared; others may have been made up. */
  ghost predicate Extends(base: Models, ms: Models) {
    forall m: ModelName :: base.Has(m) ==> ms.Has(m) && SameModel(base.Get(m), ms.Get(m))
  }

  lemma ExtendsPutRef(base: Models, ms: Models, e: End, r: RelationRef)
    requires Extends(base, ms) && IsRelation(ms, e) && SameRef(RefAt(ms, e), r)
    ensures Extends(base, PutRef(ms, e, r))
  {
    var after := PutRef(ms, e, r);
    forall m: ModelName | base.Has(m) ensures after.Has(m) && SameModel(base.Get(m), after.Get(m)) {
      assert SameModel(base.Get(m), ms.Get(m));
    }
  }

  lemma ExtendsMarked(base: Models, ms: Models, e: End, i: nat)
    requires Extends(base, ms)
    ensures Extends(base, Marked(ms, e, i))
  {
    if IsRelation(ms, e) {
      ExtendsPutRef(base, ms, e, RefAt(ms, e).(resolved := Some(i)));
    }
  }

  lemma ExtendsRouted(base: Models, ms: Models, e: End, through: ModelName)
    requires Extends(base, ms)
    ensures Extends(base, Routed(ms, e, through))
  {
    if IsRelation(ms, e) {
      ExtendsPutRef(base, ms, e, RefAt(ms, e).(through := Some(through)));
    }
  }

  lemma ExtendsPut(base: Models, ms: Models, name: ModelName, m: SchemaModel)
    requires Extends(base, ms) && !base.Has(name)
    ensures Extends(base, Put(ms, name, m))
  {
    var after := Put(ms, name, m);
    forall k: ModelName | base.Has(k) ensures after.Has(k) && SameModel(base.Get(k), after.Get(k)) {
      assert SameModel(base.Get(k), ms.Get(k));
    }
  }

  lemma ExtendsItself(ms: Models)
    ensures Extends(ms, ms)
  {
    forall m: ModelName | ms.Has(m) ensures SameModel(ms.Get(m), ms.Get(m)) {}
  }

  /** What was declared of a relation can still be read. */
  lemma ExtendsRelation(base: Models, ms: Models, e: End)
    requires Extends(base, ms) && base.Has(e.model)
    ensures HasField(base, e) <==> HasField(ms, e)
    ensures IsRelation(base, e) <==> IsRelation(ms, e)
    ensures IsRelation(base, e) ==> SameRef(RefAt(base, e), RefAt(ms, e))
  {
    assert SameModel(base.Get(e.model), ms.Get(e.model));
  }

  lemma ExtendsKeyed(base: Models, ms: Models, m: ModelName)
    requires Extends(base, ms) && base.Has(m)
    ensures ms.Has(m) && PrimaryKey(ms, m) == PrimaryKey(base, m) && (Keyed(base, m) <==> Keyed(ms, m))
  {
    assert SameModel(base.Get(m), ms.Get(m));
  }

  // ---- The back-pointers -----------------------------------------------------------------------------

  /**
   Every entry's owner field points to it, and every field that points somewhere points to
   an entry that it owns, or whose back side it is. `backs` are the back sides that were marked.
   */
  ghost predicate Linked(ms: Models, entries: seq<Entry>, backs: seq<Option<End>>) {
    && |backs| == |entries|
    && (forall i :: 0 <= i < |entries| ==> ResolvedAt(ms, OwnerEnd(entries[i])) == Some(i))
    && (forall i :: 0 <= i < |entries| && backs[i].Some? ==>
          && ResolvedAt(ms, backs[i].value) == Some(i) && backs[i].value != OwnerEnd(entries[i])
          && entries[i].targetField == Some(backs[i].value.field))
    && (forall e :: ResolvedAt(ms, e).Some? ==> Pointed(entries, backs, e, ResolvedAt(ms, e).value))
    && (forall i :: 0 <= i < |entries| ==> SoundEntry(ms, entries[i]))
  }

  /** The columns of those fields that exist. */
  function KnownColumns(m: SchemaModel, names: seq<FieldName>): seq<string> {
    if names == [] then []
    else (if m.fields.Has(names[0]) then [m.fields.Get(names[0]).column] else []) + KnownColumns(m, names[1..])
  }

  /** A foreign key lies on the columns of its relation's fields, and leads to those of the referenced ones, or of the key. */
  predicate SoundFk(ms: Models, x: Entry) {
    IsRelation(ms, OwnerEnd(x)) &&
    var rel := RefAt(ms, OwnerEnd(x));
    && rel.target == x.target && ms.Has(x.target) && x.targetTable == ms.Get(x.target).table
    && x.ownerCols == KnownColumns(ms.Get(x.owner), rel.fields)
    && x.targetCols == KnownColumns(ms.Get(x.target), if rel.references != [] then rel.references else PrimaryKey(ms, x.target))
    && |x.ownerCols| == |x.targetCols|
  }

  /** A many-to-many relation has the columns of two foreign keys of its join model. */
  predicate SoundJoin(ms: Models, x: Entry) {
    x.join.Some? &&
    var j := x.join.value;
    && IsRelation(ms, End(j.model, j.ownerField)) && IsRelation(ms, End(j.model, j.targetField))
    && x.targetTable == ms.Get(j.model).table
    && x.ownerCols == KnownColumns(ms.Get(j.model), RefAt(ms, End(j.model, j.ownerField)).fields)
    && x.targetCols == KnownColumns(ms.Get(j.model), RefAt(ms, End(j.model, j.targetField)).fields)
  }

  /** The entry's tables and columns are those that the models declare. */
  predicate SoundEntry(ms: Models, x: Entry) {
    if x.kind.ManyToMany? then SoundJoin(ms, x) else SoundFk(ms, x)
  }

  ghost predicate Pointed(entries: seq<Entry>, backs: seq<Option<End>>, e: End, i: nat) {
    i < |entries| && i < |backs| && (e == OwnerEnd(entries[i]) || backs[i] == Some(e))
  }

  lemma {:induction false} KnownColumnsGrow(a: Models, b: Models, m: ModelName, names: seq<FieldName>)
    requires Grows(a, b) && a.Has(m)
    ensures b.Has(m) && KnownColumns(a.Get(m), names) == KnownColumns(b.Get(m), names)
  {
    if names != [] {
      assert HasField(a, End(m, names[0])) <==> HasField(b, End(m, names[0]));
      KnownColumnsGrow(a, b, m, names[1..]);
    }
  }

  lemma SoundFkGrows(a: Models, b: Models, x: Entry)
    requires Grows(a, b) && SoundFk(a, x)
    ensures SoundFk(b, x)
  {
    var rel := RefAt(a, OwnerEnd(x));
    KnownColumnsGrow(a, b, x.owner, rel.fields);
    KnownColumnsGrow(a, b, x.target, if rel.references != [] then rel.references else PrimaryKey(a, x.target));
  }

  lemma SoundJoinGrows(a: Models, b: Models, x: Entry)
    requires Grows(a, b) && SoundJoin(a, x)
    ensures SoundJoin(b, x)
  {
    var j := x.join.value;
    KnownColumnsGrow(a, b, j.model, RefAt(a, End(j.model, j.ownerField)).fields);
    KnownColumnsGrow(a, b, j.model, RefAt(a, End(j.model, j.targetField)).fields);
  }

  lemma SoundGrows(a: Models, b: Models, entries: seq<Entry>)
    requires Grows(a, b) && forall i :: 0 <= i < |entries| ==> SoundEntry(a, entries[i])
    ensures forall i :: 0 <= i < |entries| ==> SoundEntry(b, entries[i])
  {
    forall i | 0 <= i < |entries| ensures SoundEntry(b, entries[i]) {
      var x := entries[i];
      assert SoundEntry(a, x);
      if x.kind.ManyToMany? {
        SoundJoinGrows(a, b, x);
      } else {
        SoundFkGrows(a, b, x);
      }
    }
  }

  /** A new entry and the pointer from its owner keep the links. */
  lemma LinkOwner(ms: Models, entries: seq<Entry>, backs: seq<Option<End>>, x: Entry)
    requires Linked(ms, entries, backs) && SoundEntry(ms, x)
    requires IsRelation(ms, OwnerEnd(x)) && ResolvedAt(ms, OwnerEnd(x)).None?
    ensures Linked(Marked(ms, OwnerEnd(x), |entries|), entries + [x], backs + [None])
  {
    var e := OwnerEnd(x);
    var after := Marked(ms, e, |entries|);
    PutRefGrows(ms, e, RefAt(ms, e).(resolved := Some(|entries|)));
    SoundMore(ms, after, entries, x);
    forall y ensures ResolvedAt(after, y) == if y == e then Some(|entries|) else ResolvedAt(ms, y) {
      PutRefAt(ms, e, RefAt(ms, e).(resolved := Some(|entries|)), y);
    }
  }

  /** So do a new entry and the pointers from its owner and its back side. */
  lemma LinkBoth(ms: Models, entries: seq<Entry>, backs: seq<Option<End>>, x: Entry, b: End)
    requires Linked(ms, entries, backs) && SoundEntry(ms, x)
    requires IsRelation(ms, OwnerEnd(x)) && ResolvedAt(ms, OwnerEnd(x)).None?
    requires IsRelation(ms, b) && ResolvedAt(ms, b).None? && b != OwnerEnd(x) && x.targetField == Some(b.field)
    ensures Linked(Marked(Marked(ms, OwnerEnd(x), |entries|), b, |entries|), entries + [x], backs + [Some(b)])
  {
    MarkedBoth(ms, OwnerEnd(x), b, |entries|);
    SoundMore(ms, Marked(Marked(ms, OwnerEnd(x), |entries|), b, |entries|), entries, x);
  }

  lemma SoundMore(a: Models, b: Models, entries: seq<Entry>, x: Entry)
    requires Grows(a, b) && SoundEntry(a, x) && forall i :: 0 <= i < |entries| ==> SoundEntry(a, entries[i])
    ensures forall i :: 0 <= i < |entries + [x]| ==> SoundEntry(b, (entries + [x])[i])
  {
    SoundGrows(a, b, entries + [x]);
  }

  lemma MarkedBoth(ms: Models, e: End, b: End, i: nat)
    requires IsRelation(ms, e) && IsRelation(ms, b) && b != e
    ensures var after := Marked(Marked(ms, e, i), b, i);
            Grows(ms, after) && forall y :: ResolvedAt(after, y) == if y == e || y == b then Some(i) else ResolvedAt(ms, y)
  {
    var mid := Marked(ms, e, i);
    PutRefGrows(ms, e, RefAt(ms, e).(resolved := Some(i)));
    PutRefAt(ms, e, RefAt(ms, e).(resolved := Some(i)), b);
    var after := Marked(mid, b, i);
    PutRefGrows(mid, b, RefAt(mid, b).(resolved := Some(i)));
    GrowsTrans(ms, mid, after);
    forall y ensures ResolvedAt(after, y) == if y == e || y == b then Some(i) else ResolvedAt(ms, y) {
      PutRefAt(ms, e, RefAt(ms, e).(resolved := Some(i)), y);
      PutRefAt(mid, b, RefAt(mid, b).(resolved := Some(i)), y);
    }
  }

  /** Changing anything but the pointers keeps the links. */
  lemma LinkedKeeps(a: Models, b: Models, entries: seq<Entry>, backs: seq<Option<End>>)
    requires Linked(a, entries, backs) && Grows(a, b) && forall e :: ResolvedAt(a, e) == ResolvedAt(b, e)
    ensures Linked(b, entries, backs)
  {
    SoundGrows(a, b, entries);
  }

  // ---- Entries that make sense ------------------------------------------------------------------------

  /** The entry names `e` as one of its two ends. */
  predicate NamesEnd(x: Entry, e: End) {
    e == OwnerEnd(x) || (e.model == x.target && x.targetField == Some(e.field))
  }

  /** The join model's two foreign keys lead to the owner and to the target. */
  predicate JoinFits(ms: Models, x: Entry) {
    x.join.Some? &&
    var j := x.join.value;
    && IsRelation(ms, End(j.model, j.ownerField)) && RefAt(ms, End(j.model, j.ownerField)).target == x.owner
    && IsRelation(ms, End(j.model, j.targetField)) && RefAt(ms, End(j.model, j.targetField)).target == x.target
  }

  /** Following any pointer leads to an entry about that field, and joins join what they say. */
  ghost predicate Coherent(ms: Models, entries: seq<Entry>) {
    && (forall e :: ResolvedAt(ms, e).Some? ==> ResolvedAt(ms, e).value < |entries| && NamesEnd(entries[ResolvedAt(ms, e).value], e))
    && (forall i :: 0 <= i < |entries| && entries[i].kind.ManyToMany? ==> JoinFits(ms, entries[i]))
  }

  /** The same, entry by entry: the back side lives on the target model. */
  predicate Fits(ms: Models, x: Entry, back: Option<End>) {
    (back.Some? ==> back.value.model == x.target) && (x.kind.ManyToMany? ==> JoinFits(ms, x))
  }

  ghost predicate AllFit(ms: Models, entries: seq<Entry>, backs: seq<Option<End>>, from: nat)
    requires |backs| == |entries|
  {
    forall i :: from <= i < |entries| ==> Fits(ms, entries[i], backs[i])
  }

  lemma FitsMeansCoherent(ms: Models, entries: seq<Entry>, backs: seq<Option<End>>)
    requires Linked(ms, entries, backs)
    ensures AllFit(ms, entries, backs, 0) <==> Coherent(ms, entries)
  {
    if AllFit(ms, entries, backs, 0) {
      forall e | ResolvedAt(ms, e).Some?
        ensures ResolvedAt(ms, e).value < |entries| && NamesEnd(entries[ResolvedAt(ms, e).value], e)
      {
        var i := ResolvedAt(ms, e).value;
        assert Pointed(entries, backs, e, i);
        assert Fits(ms, entries[i], backs[i]);
      }
      forall i | 0 <= i < |entries| && entries[i].kind.ManyToMany? ensures JoinFits(ms, entries[i]) {
        assert Fits(ms, entries[i], backs[i]);
      }
    }
    if Coherent(ms, entries) {
      forall i | 0 <= i < |entries| ensures Fits(ms, entries[i], backs[i]) {
        if backs[i].Some? {
          assert ResolvedAt(ms, backs[i].value) == Some(i);
          assert NamesEnd(entries[i], backs[i].value);
        }
      }
    }
  }

  /** Whether an entry fits does not change as resolution goes on. */
  lemma FitsGrows(a: Models, b: Models, x: Entry, back: Option<End>)
    requires Grows(a, b) && SoundEntry(a, x)
    ensures Fits(a, x, back) <==> Fits(b, x, back)
  {}
}
