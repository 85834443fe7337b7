/**
 Building one resolved relation (`build_relation` and `build_many_to_many_relation` of
 `crates/parser/src/lower.rs`).
 */
module Build {
  import opened Names
  import opened Ir
  import opened Links
  import opened Sides

  /** A column-bearing field that is no relation. */
  predicate IsColumn(m: SchemaModel, name: FieldName) {
    m.fields.Has(name) && m.fields.Get(name).shape.Plain?
  }

  /** Part of the primary key, or unique by itself. */
  predicate IsKey(m: SchemaModel, name: FieldName) {
    && m.fields.Has(name)
    && (name in m.primaryKey || m.fields.Get(name).isUnique || [OnField(name)] in m.uniques)
  }

  function References(ms: Models, owner: Side): seq<FieldName>
    requires IsRelation(ms, EndOf(owner)) && ms.Has(owner.target)
  {
    var rel := RefAt(ms, EndOf(owner));
    if rel.references == [] then ms.Get(owner.target).primaryKey else rel.references
  }

  /** Rules V05 and V06: what a foreign key is built from exists, and pairs up. */
  predicate Buildable(ms: Models, owner: Side) {
    && IsRelation(ms, EndOf(owner)) && ms.Has(owner.target)
    && (forall f :: f in RefAt(ms, EndOf(owner)).fields ==> IsColumn(ms.Get(owner.model), f))
    && (forall f :: f in References(ms, owner) ==> IsKey(ms.Get(owner.target), f))
    && |RefAt(ms, EndOf(owner)).fields| == |References(ms, owner)|
  }

  function Columns(m: SchemaModel, names: seq<FieldName>): seq<string>
    requires forall n :: n in names ==> m.fields.Has(n)
  {
    seq(|names|, i requires 0 <= i < |names| => m.fields.Get(names[i]).column)
  }

  predicate SameShape(own: SchemaModel, f: FieldName, other: SchemaModel, r: FieldName) {
    own.fields.Has(f) && other.fields.Has(r) && own.fields.Get(f).shape == other.fields.Get(r).shape
  }

  predicate IsOptional(own: SchemaModel, f: FieldName) {
    own.fields.Has(f) && own.fields.Get(f).optional
  }

  /** Rules V07 and V13: the columns hold the same thing, and an optional relation can be null. */
  predicate Compatible(ms: Models, owner: Side)
    requires Buildable(ms, owner)
  {
    var own, other := ms.Get(owner.model), ms.Get(owner.target);
    var fields, references := RefAt(ms, EndOf(owner)).fields, References(ms, owner);
    && (forall i :: 0 <= i < |fields| ==> SameShape(own, fields[i], other, references[i]))
    && (owner.optional ==> forall i :: 0 <= i < |fields| ==> IsOptional(own, fields[i]))
  }

  /** Whether a foreign key can be built is decided by what was declared. */
  lemma ExtendsBuildable(base: Models, ms: Models, owner: Side)
    requires Extends(base, ms) && IsRelation(base, EndOf(owner)) && base.Has(owner.target)
    ensures Buildable(base, owner) <==> Buildable(ms, owner)
    ensures Buildable(base, owner) ==> (Compatible(base, owner) <==> Compatible(ms, owner))
  {
    ExtendsRelation(base, ms, EndOf(owner));
    var own, other := base.Get(owner.model), base.Get(owner.target);
    assert SameModel(own, ms.Get(owner.model)) && SameModel(other, ms.Get(owner.target));
    assert References(base, owner) == References(ms, owner);
    forall f ensures IsColumn(own, f) <==> IsColumn(ms.Get(owner.model), f) {}
    forall f ensures IsKey(other, f) <==> IsKey(ms.Get(owner.target), f) {}
    if Buildable(base, owner) {
      forall f, r | f in RefAt(base, EndOf(owner)).fields && r in References(base, owner)
        ensures SameShape(own, f, other, r) <==> SameShape(ms.Get(owner.model), f, ms.Get(owner.target), r)
      {
        assert IsColumn(own, f) && IsKey(other, r);
        assert SameField(own.fields.Get(f), ms.Get(owner.model).fields.Get(f));
        assert SameField(other.fields.Get(r), ms.Get(owner.target).fields.Get(r));
      }
    }
  }

  /** Where all the fields exist, their columns are all known. */
  lemma {:induction false} AllKnown(m: SchemaModel, names: seq<FieldName>)
    requires forall n :: n in names ==> m.fields.Has(n)
    ensures Columns(m, names) == KnownColumns(m, names)
  {
    if names != [] {
      assert names == [names[0]] + names[1..];
      AllKnown(m, names[1..]);
      assert Columns(m, names) == [m.fields.Get(names[0]).column] + Columns(m, names[1..]);
    }
  }

  function BackField(back: Option<Side>): Option<FieldName> {
    if back.Some? then Some(back.value.field) else None
  }

  /** The entry of a foreign key. */
  predicate IsBuilt(ms: Models, owner: Side, back: Option<Side>, x: Entry)
    requires Buildable(ms, owner)
  {
    && x.owner == owner.model && x.ownerField == owner.field && x.target == owner.target
    && x.ownerCols == Columns(ms.Get(owner.model), RefAt(ms, EndOf(owner)).fields)
    && x.targetCols == Columns(ms.Get(owner.target), References(ms, owner))
    && x.targetTable == ms.Get(owner.target).table
    && x.targetField == BackField(back) && x.join.None?
    && x.kind == (if back.Some? && back.value.isList then ManyToOne else OneToOne)
  }

  method CheckReferences(target: SchemaModel, names: seq<FieldName>, at: End) returns (ok: bool, problems: seq<Problem>)
    ensures ok <==> forall f :: f in names ==> IsKey(target, f)
    ensures ok <==> problems == []
  {
    ok, problems := true, [];
    for i := 0 to |names|
      invariant forall f :: f in names[..i] ==> IsKey(target, f)
    {
      assert names[..i + 1] == names[..i] + [names[i]];
      assert names[i] in names;
      if !target.fields.Has(names[i]) {
        return false, [Problem(InvalidRelationTarget, at)];
      }
      var isKey := names[i] in target.primaryKey;
      var isUnique := target.fields.Get(names[i]).isUnique || [OnField(names[i])] in target.uniques;
      if !isKey && !isUnique {
        return false, [Problem(InvalidRelationTarget, at)];
      }
    }
    assert names[..|names|] == names;
  }

  method CheckFields(own: SchemaModel, names: seq<FieldName>, at: End) returns (ok: bool, problems: seq<Problem>)
    ensures ok <==> forall f :: f in names ==> IsColumn(own, f)
    ensures ok <==> problems == []
  {
    ok, problems := true, [];
    for i := 0 to |names|
      invariant forall f :: f in names[..i] ==> IsColumn(own, f)
    {
      assert names[..i + 1] == names[..i] + [names[i]];
      if !IsColumn(own, names[i]) {
        return false, [Problem(UnknownRelationField, at)];
      }
    }
    assert names[..|names|] == names;
  }

  method CheckCompatible(ms: Models, owner: Side) returns (problems: seq<Problem>)
    requires Buildable(ms, owner)
    ensures problems == [] <==> Compatible(ms, owner)
  {
    problems := [];
    var own, other := ms.Get(owner.model), ms.Get(owner.target);
    var fields, references := RefAt(ms, EndOf(owner)).fields, References(ms, owner);
    for i := 0 to |fields|
      invariant problems == [] <==>
                  forall k :: 0 <= k < i ==> SameShape(own, fields[k], other, references[k])
    {
      assert IsColumn(own, fields[i]) && IsKey(other, references[i]);
      if own.fields.Get(fields[i]).shape != other.fields.Get(references[i]).shape {
        problems := problems + [Problem(RelationTypeMismatch, End(owner.model, fields[i]))];
      }
    }
    if owner.optional {
      ghost var typed := problems == [];
      for i := 0 to |fields|
        invariant problems == [] <==> typed && forall k :: 0 <= k < i ==> IsOptional(own, fields[k])
      {
        assert IsColumn(own, fields[i]);
        if !own.fields.Get(fields[i]).optional {
          problems := problems + [Problem(RelationNullabilityMismatch, End(owner.model, fields[i]))];
        }
      }
    }
  }

  /** `build_relation`. */
  method BuildRelation(owner: Side, back: Option<Side>, ms: Models) returns (entry: Option<Entry>, problems: seq<Problem>)
    ensures entry.Some? <==> Buildable(ms, owner)
    ensures entry.Some? ==> IsBuilt(ms, owner, back, entry.value) && (problems == [] <==> Compatible(ms, owner))
    ensures entry.None? && IsRelation(ms, EndOf(owner)) && ms.Has(owner.target) ==> problems != []
  {
    if !IsRelation(ms, EndOf(owner)) || !ms.Has(owner.target) {
      return None, [];
    }
    var rel := RefAt(ms, EndOf(owner));
    var own, other := ms.Get(owner.model), ms.Get(owner.target);
    var ok;
    ok, problems := CheckFields(own, rel.fields, EndOf(owner));
    if !ok {
      return None, problems;
    }
    var references := References(ms, owner);
    ok, problems := CheckReferences(other, references, EndOf(owner));
    if !ok {
      return None, problems;
    }
    if |rel.fields| != |references| {
      return None, [Problem(InvalidRelationTarget, EndOf(owner))];
    }
    problems := CheckCompatible(ms, owner);
    var kind := if back.Some? && back.value.isList then ManyToOne else OneToOne;
    entry := Some(Entry(kind, owner.model, owner.field, Columns(own, rel.fields),
                        owner.target, BackField(back), other.table, Columns(other, references), None));
  }

  /** Some foreign key of the join model leads to `m`. */
  predicate Leads(fks: seq<Side>, m: ModelName) {
    exists s :: s in fks && s.target == m
  }

  /** `f` is the first field of the join model whose foreign key leads to `m`. */
  predicate IsFirstTo(fks: seq<Side>, m: ModelName, f: FieldName) {
    exists i :: 0 <= i < |fks| && fks[i].target == m && fks[i].field == f && forall j :: 0 <= j < i ==> fks[j].target != m
  }

  /** The first foreign key of the join model that leads to `m`. */
  method FindFk(fks: seq<Side>, m: ModelName) returns (fk: Option<Side>)
    ensures fk.Some? <==> Leads(fks, m)
    ensures fk.Some? ==> fk.value in fks && fk.value.target == m && IsFirstTo(fks, m, fk.value.field)
  {
    for i := 0 to |fks|
      invariant forall s :: s in fks[..i] ==> s.target != m
    {
      assert fks[..i + 1] == fks[..i] + [fks[i]];
      if fks[i].target == m {
        assert IsFirstTo(fks, m, fks[i].field) by {
          forall j | 0 <= j < i ensures fks[j].target != m {
            assert fks[j] in fks[..i];
          }
        }
        return Some(fks[i]);
      }
    }
    assert fks[..|fks|] == fks;
    return None;
  }

  /** Two first fields are the same one. */
  lemma OneFirst(fks: seq<Side>, m: ModelName, f: FieldName, g: FieldName)
    requires IsFirstTo(fks, m, f) && IsFirstTo(fks, m, g)
    ensures f == g
  {}

  /** The first foreign key that leads to `m` is a relation of the join model. */
  ghost predicate Joins(ms: Models, through: ModelName, fks: seq<Side>, m: ModelName) {
    exists f {:trigger IsFirstTo(fks, m, f)} :: IsFirstTo(fks, m, f) && IsRelation(ms, End(through, f))
  }

  /** The foreign keys still lead where they led when they were collected. */
  predicate FksStand(ms: Models, fks: seq<Side>) {
    forall s :: s in fks ==> IsRelation(ms, EndOf(s)) && RefAt(ms, EndOf(s)).target == s.target
  }

  /** `build_many_to_many_relation`. */
  method BuildManyToMany(owner: Side, back: Side, fks: seq<Side>, ms: Models)
    returns (entry: Option<Entry>, problems: seq<Problem>)
    requires owner.joinModel.Some?
    requires forall s :: s in fks ==> s.model == owner.joinModel.value
    ensures var through := owner.joinModel.value;
            && (entry.Some? <==> ms.Has(through) && Joins(ms, through, fks, owner.model) && Joins(ms, through, fks, back.model))
            && (problems == [] <==> ms.Has(through) ==> Leads(fks, owner.model) && Leads(fks, back.model))
    ensures entry.Some? ==>
              var x, through := entry.value, owner.joinModel.value;
              && x.kind.ManyToMany? && x.owner == owner.model && x.ownerField == owner.field
              && x.target == back.model && x.targetField == Some(back.field) && x.targetTable == ms.Get(through).table
              && x.join.Some? && x.join.value.model == through
              && IsFirstTo(fks, owner.model, x.join.value.ownerField) && IsFirstTo(fks, back.model, x.join.value.targetField)
              && IsRelation(ms, End(through, x.join.value.ownerField)) && IsRelation(ms, End(through, x.join.value.targetField))
              && x.ownerCols == KnownColumns(ms.Get(through), RefAt(ms, End(through, x.join.value.ownerField)).fields)
              && x.targetCols == KnownColumns(ms.Get(through), RefAt(ms, End(through, x.join.value.targetField)).fields)
    ensures entry.Some? && FksStand(ms, fks) ==> JoinFits(ms, entry.value)
    // A model related to itself is at both ends of one and the same foreign key.
    ensures entry.Some? && FksStand(ms, fks) ==>
              (entry.value.join.value.ownerField == entry.value.join.value.targetField <==> owner.model == back.model)
  {
    var through := owner.joinModel.value;
    if !ms.Has(through) {
      return None, [];
    }
    var ownerFk := FindFk(fks, owner.model);
    var targetFk := FindFk(fks, back.model);
    if ownerFk.None? {
      return None, [Problem(InvalidJoinModel, EndOf(owner))];
    }
    if targetFk.None? {
      return None, [Problem(InvalidJoinModel, EndOf(back))];
    }
    problems := [];
    if !IsRelation(ms, EndOf(ownerFk.value)) || !IsRelation(ms, EndOf(targetFk.value)) {
      forall f, g | IsFirstTo(fks, owner.model, f) && IsFirstTo(fks, back.model, g)
        ensures f == ownerFk.value.field && g == targetFk.value.field
      {
        OneFirst(fks, owner.model, f, ownerFk.value.field);
        OneFirst(fks, back.model, g, targetFk.value.field);
      }
      return None, [];
    }
    var model := ms.Get(through);
    var ownerRel, targetRel := RefAt(ms, EndOf(ownerFk.value)), RefAt(ms, EndOf(targetFk.value));
    entry := Some(Entry(ManyToMany, owner.model, owner.field, KnownColumns(model, ownerRel.fields),
                        back.model, Some(back.field), model.table, KnownColumns(model, targetRel.fields),
                        Some(Join(through, ownerFk.value.field, targetFk.value.field))));
  }
}
