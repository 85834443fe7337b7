/**
 Schema diffing (`crates/migrate/src/diff.rs`).

 `Emitted` says which changes a pair of schemas calls for; the methods are the program's
 loops, proved to push exactly those, each once. The order in which the program pushes
 them is not part of the specification: the planner sorts changes by kind.
 */
module Diff {
  import opened Names
  import opened Ir

  // ---- What a column diff has to say -----------------------------------------------------

  /** `n` of `next` follows an authoritative `@renamedFrom` hint. */
  predicate Hinted(prev: Model, next: Model, n: FieldName) {
    && next.OwnsColumn(n)
    && next.fields.Get(n).renamedFrom.Some?
    && prev.OwnsColumn(next.fields.Get(n).renamedFrom.value)
  }

  function HintSource(next: Model, n: FieldName): FieldName
    requires next.fields.Has(n) && next.fields.Get(n).renamedFrom.Some?
  {
    next.fields.Get(n).renamedFrom.value
  }

  predicate Added(prev: Model, next: Model, n: FieldName) {
    next.OwnsColumn(n) && !Hinted(prev, next, n) && !prev.fields.Has(n)
  }

  predicate Kept(prev: Model, next: Model, n: FieldName) {
    next.OwnsColumn(n) && !Hinted(prev, next, n) && prev.OwnsColumn(n)
  }

  /** The hint on one of `names` has `o` as its source. */
  predicate ConsumedBy(prev: Model, next: Model, names: seq<FieldName>, o: FieldName) {
    exists n :: n in names && Hinted(prev, next, n) && HintSource(next, n) == o
  }

  predicate Consumed(prev: Model, next: Model, o: FieldName) {
    ConsumedBy(prev, next, next.fields.keys, o)
  }

  predicate Dropped(prev: Model, next: Model, o: FieldName) {
    && prev.OwnsColumn(o)
    && !Consumed(prev, next, o)
    && (!next.fields.Has(o) || Hinted(prev, next, o))
  }

  /** The field of `prev` whose column `n` of `next` continues. */
  function Source(prev: Model, next: Model, n: FieldName): FieldName
    requires next.fields.Has(n)
  {
    if Hinted(prev, next, n) then HintSource(next, n) else n
  }

  /** The earlier state of a continued column, as an alter change reports it. */
  function FromField(prev: Model, next: Model, n: FieldName): Field
    requires Hinted(prev, next, n) || Kept(prev, next, n)
  {
    if Hinted(prev, next, n) then
      prev.fields.Get(HintSource(next, n)).(name := n, column := next.Column(n))
    else
      prev.fields.Get(n)
  }

  function ColumnAspects(prev: Field, next: Field): seq<ColumnAspect> {
    (if prev.kind != next.kind then [TypeAspect] else []) +
    (if prev.optional != next.optional then [NullabilityAspect] else []) +
    (if prev.default != next.default then [DefaultAspect] else [])
  }

  predicate EmittedRename(m: ModelName, prev: Model, next: Model, c: Change) {
    && c.RenameColumn? && c.model == m
    && (Hinted(prev, next, c.toName) ||
        (Kept(prev, next, c.toName) && prev.Column(c.toName) != next.Column(c.toName)))
    && c.fromName == Source(prev, next, c.toName)
    && c.fromColumn == prev.Column(c.fromName)
    && c.toColumn == next.Column(c.toName)
  }

  predicate EmittedAlter(m: ModelName, prev: Model, next: Model, c: Change) {
    && c.AlterColumn? && c.model == m
    && (Hinted(prev, next, c.to.name) || Kept(prev, next, c.to.name))
    && c.to == next.fields.Get(c.to.name)
    && c.from == FromField(prev, next, c.to.name)
    && c.aspects == ColumnAspects(c.from, c.to) && c.aspects != []
  }

  predicate EmittedAdd(m: ModelName, prev: Model, next: Model, c: Change) {
    && c.AddColumn? && c.model == m
    && Added(prev, next, c.field.name) && c.field == next.fields.Get(c.field.name)
  }

  predicate DropOf(m: ModelName, prev: Model, next: Model, names: seq<FieldName>, c: Change) {
    && c.DropColumn? && c.model == m
    && exists o :: o in names && Dropped(prev, next, o) && prev.Column(o) == c.column
  }

  predicate EmittedDrop(m: ModelName, prev: Model, next: Model, c: Change) {
    DropOf(m, prev, next, prev.fields.keys, c)
  }

  predicate EmittedColumn(m: ModelName, prev: Model, next: Model, c: Change) {
    || EmittedRename(m, prev, next, c)
    || EmittedAlter(m, prev, next, c)
    || EmittedAdd(m, prev, next, c)
    || EmittedDrop(m, prev, next, c)
  }

  ghost predicate NoDup<T>(s: seq<T>) {
    forall i, j :: 0 <= i < j < |s| ==> s[i] != s[j]
  }

  // ---- The loops -------------------------------------------------------------------------

  /** The field of `next` that a rename or alter change is about. */
  function Subject(c: Change): FieldName
    requires c.RenameColumn? || c.AlterColumn?
  {
    if c.RenameColumn? then c.toName else c.to.name
  }

  /** A rename or alter emitted for one of `names`, hinted or not. */
  predicate About(m: ModelName, prev: Model, next: Model, hinted: bool, names: seq<FieldName>, c: Change) {
    && (EmittedRename(m, prev, next, c) || EmittedAlter(m, prev, next, c))
    && Subject(c) in names && Hinted(prev, next, Subject(c)) == hinted
  }

  lemma TakeOne<T>(s: seq<T>, i: nat)
    requires i < |s|
    ensures s[..i + 1] == s[..i] + [s[i]]
    ensures forall x :: x in s[..i + 1] <==> x in s[..i] || x == s[i]
  {
    assert s[..i + 1] == s[..i] + [s[i]];
  }

  lemma TakeAll<T>(s: seq<T>)
    ensures s[..|s|] == s
  {}

  lemma FirstIn<T>(s: seq<T>)
    ensures s == [] || s[0] in s
  {}

  lemma AppendNoDup<T>(a: seq<T>, b: seq<T>)
    requires NoDup(a) && NoDup(b) && forall x :: x in a ==> x !in b
    ensures NoDup(a + b)
  {
    forall i, j | 0 <= i < j < |a + b| ensures (a + b)[i] != (a + b)[j] {
      if i < |a| <= j {
        assert (a + b)[i] in a && (a + b)[j] in b;
      }
    }
  }

  lemma ConsumedStep(prev: Model, next: Model, names: seq<FieldName>, n: FieldName)
    requires Hinted(prev, next, n)
    ensures forall o :: ConsumedBy(prev, next, names + [n], o) <==>
                          ConsumedBy(prev, next, names, o) || o == HintSource(next, n)
  {
    assert n in names + [n];
    forall o | ConsumedBy(prev, next, names, o) ensures ConsumedBy(prev, next, names + [n], o) {
      var k :| k in names && Hinted(prev, next, k) && HintSource(next, k) == o;
      assert k in names + [n];
    }
  }

  /** What one hinted field contributes. */
  lemma HintStep(m: ModelName, prev: Model, next: Model, names: seq<FieldName>, n: FieldName, pushed: seq<Change>)
    requires next.Valid() && Hinted(prev, next, n) && n !in names
    requires var o, field := HintSource(next, n), next.fields.Get(n);
             var from := prev.fields.Get(o).(name := n, column := field.column);
             var aspects := ColumnAspects(from, field);
             pushed == [RenameColumn(m, o, n, prev.Column(o), field.column)] +
             if aspects == [] then [] else [AlterColumn(m, from, field, aspects)]
    ensures NoDup(pushed)
    ensures forall c :: c in pushed ==> !About(m, prev, next, true, names, c)
    ensures forall c :: About(m, prev, next, true, names + [n], c) <==> About(m, prev, next, true, names, c) || c in pushed
  {
    assert forall x :: x in names + [n] <==> x in names || x == n;
  }

  method RenameHints(m: ModelName, prev: Model, next: Model)
    returns (changes: seq<Change>, renamed: seq<FieldName>, consumed: seq<FieldName>)
    requires prev.Valid() && next.Valid()
    ensures forall c :: c in changes <==> About(m, prev, next, true, next.fields.keys, c)
    ensures forall n :: n in renamed <==> Hinted(prev, next, n)
    ensures forall o :: o in consumed <==> Consumed(prev, next, o)
    ensures NoDup(changes)
  {
    changes, renamed, consumed := [], [], [];
    var keys := next.fields.keys;
    for i := 0 to |keys|
      invariant forall c :: c in changes <==> About(m, prev, next, true, keys[..i], c)
      invariant forall n :: n in renamed <==> n in keys[..i] && Hinted(prev, next, n)
      invariant forall o :: o in consumed <==> ConsumedBy(prev, next, keys[..i], o)
      invariant NoDup(changes)
    {
      var newName := keys[i];
      var field := next.fields.Get(newName);
      TakeOne(keys, i);
      if field.renamedFrom.Some? && prev.fields.Has(field.renamedFrom.value) {
        var oldName := field.renamedFrom.value;
        var prevField := prev.fields.Get(oldName);
        if prevField.HasColumn() && field.HasColumn() {
          var pushed := [RenameColumn(m, oldName, newName, prevField.column, field.column)];
          renamed := renamed + [newName];
          consumed := consumed + [oldName];
          // If the definition also changed, an alter follows the rename.
          var from := prevField.(name := newName, column := field.column);
          var aspects := ColumnAspects(from, field);
          if aspects != [] {
            pushed := pushed + [AlterColumn(m, from, field, aspects)];
          }
          ConsumedStep(prev, next, keys[..i], newName);
          HintStep(m, prev, next, keys[..i], newName, pushed);
          AppendNoDup(changes, pushed);
          changes := changes + pushed;
        }
      }
    }
    TakeAll(keys);
  }

  method AddNew(m: ModelName, prev: Model, next: Model, renamed: seq<FieldName>) returns (changes: seq<Change>)
    requires prev.Valid() && next.Valid()
    requires forall n :: n in renamed <==> Hinted(prev, next, n)
    ensures forall c :: c in changes <==> EmittedAdd(m, prev, next, c)
    ensures NoDup(changes)
  {
    changes := [];
    var keys := next.fields.keys;
    for i := 0 to |keys|
      invariant forall c :: c in changes <==> EmittedAdd(m, prev, next, c) && c.field.name in keys[..i]
      invariant NoDup(changes)
    {
      TakeOne(keys, i);
      var field := next.fields.Get(keys[i]);
      if keys[i] !in renamed && field.HasColumn() && !prev.fields.Has(keys[i]) {
        AppendNoDup(changes, [AddColumn(m, field)]);
        changes := changes + [AddColumn(m, field)];
      }
    }
    TakeAll(keys);
  }

  lemma DropStep(m: ModelName, prev: Model, next: Model, names: seq<FieldName>, o: FieldName)
    requires prev.Valid() && prev.fields.Has(o)
    ensures forall c :: DropOf(m, prev, next, names + [o], c) <==>
                          DropOf(m, prev, next, names, c) ||
                          (Dropped(prev, next, o) && c == DropColumn(m, prev.Column(o)))
    ensures o !in names && Dropped(prev, next, o) ==> !DropOf(m, prev, next, names, DropColumn(m, prev.Column(o)))
  {
    assert o in names + [o];
    forall c | DropOf(m, prev, next, names, c) ensures DropOf(m, prev, next, names + [o], c) {
      var k :| k in names && Dropped(prev, next, k) && prev.Column(k) == c.column;
      assert k in names + [o];
    }
  }

  method DropRemoved(m: ModelName, prev: Model, next: Model, renamed: seq<FieldName>, consumed: seq<FieldName>)
    returns (changes: seq<Change>)
    requires prev.Valid() && next.Valid()
    requires forall n :: n in renamed <==> Hinted(prev, next, n)
    requires forall o :: o in consumed <==> Consumed(prev, next, o)
    ensures forall c :: c in changes <==> EmittedDrop(m, prev, next, c)
    ensures NoDup(changes)
  {
    changes := [];
    var keys := prev.fields.keys;
    for i := 0 to |keys|
      invariant forall c :: c in changes <==> DropOf(m, prev, next, keys[..i], c)
      invariant NoDup(changes)
    {
      TakeOne(keys, i);
      var name := keys[i];
      var field := prev.fields.Get(name);
      DropStep(m, prev, next, keys[..i], name);
      if name !in consumed && field.HasColumn() && (!next.fields.Has(name) || name in renamed) {
        AppendNoDup(changes, [DropColumn(m, field.column)]);
        changes := changes + [DropColumn(m, field.column)];
      }
    }
    TakeAll(keys);
  }

  method AlterChanged(m: ModelName, prev: Model, next: Model, renamed: seq<FieldName>) returns (changes: seq<Change>)
    requires prev.Valid() && next.Valid()
    requires forall n :: n in renamed <==> Hinted(prev, next, n)
    ensures forall c :: c in changes <==> About(m, prev, next, false, next.fields.keys, c)
    ensures NoDup(changes)
  {
    changes := [];
    var keys := next.fields.keys;
    for i := 0 to |keys|
      invariant forall c :: c in changes <==> About(m, prev, next, false, keys[..i], c)
      invariant NoDup(changes)
    {
      TakeOne(keys, i);
      var name := keys[i];
      var nextField := next.fields.Get(name);
      if name !in renamed && nextField.HasColumn() && prev.fields.Has(name) && prev.fields.Get(name).HasColumn() {
        var prevField := prev.fields.Get(name);
        if prevField.column != nextField.column {
          AppendNoDup(changes, [RenameColumn(m, name, name, prevField.column, nextField.column)]);
          changes := changes + [RenameColumn(m, name, name, prevField.column, nextField.column)];
        }
        var aspects := ColumnAspects(prevField, nextField);
        if aspects != [] {
          AppendNoDup(changes, [AlterColumn(m, prevField, nextField, aspects)]);
          changes := changes + [AlterColumn(m, prevField, nextField, aspects)];
        }
      }
    }
    TakeAll(keys);
  }

  method DiffColumns(m: ModelName, prev: Model, next: Model) returns (changes: seq<Change>)
    requires prev.Valid() && next.Valid()
    ensures forall c :: c in changes <==> EmittedColumn(m, prev, next, c)
    ensures NoDup(changes)
  {
    var hints, renamed, consumed := RenameHints(m, prev, next);
    var adds := AddNew(m, prev, next, renamed);
    var drops := DropRemoved(m, prev, next, renamed, consumed);
    var alters := AlterChanged(m, prev, next, renamed);
    AppendNoDup(hints, adds);
    AppendNoDup(hints + adds, drops);
    AppendNoDup(hints + adds + drops, alters);
    changes := hints + adds + drops + alters;
  }

  // ---- Indexes and unique constraints ------------------------------------------------------

  ghost predicate DistinctNames(defs: seq<IndexDef>) {
    forall i, j :: 0 <= i < j < |defs| ==> defs[i].dbName != defs[j].dbName
  }

  /** Some definition of `defs` named `name` has no equal in `kept`. */
  predicate Removed(defs: seq<IndexDef>, kept: seq<IndexDef>, name: string) {
    exists d :: d in defs && d !in kept && d.dbName == name
  }

  predicate EmittedIndex(m: ModelName, prev: Model, next: Model, c: Change) {
    || (c.CreateIndex? && c.model == m && c.index in next.indexes && c.index !in prev.indexes)
    || (c.DropIndex? && c.model == m && Removed(prev.indexes, next.indexes, c.indexName))
  }

  predicate EmittedUnique(m: ModelName, prev: Model, next: Model, c: Change) {
    || (c.AddUnique? && c.model == m && c.unique in next.uniques && c.unique !in prev.uniques)
    || (c.DropUnique? && c.model == m && Removed(prev.uniques, next.uniques, c.uniqueName))
  }

  lemma RemovedStep(seen: seq<IndexDef>, kept: seq<IndexDef>, d: IndexDef)
    ensures forall n :: Removed(seen + [d], kept, n) <==> Removed(seen, kept, n) || (d !in kept && d.dbName == n)
  {
    assert d in seen + [d];
    forall n | Removed(seen, kept, n) ensures Removed(seen + [d], kept, n) {
      var k :| k in seen && k !in kept && k.dbName == n;
      assert k in seen + [d];
    }
  }

  lemma FreshName(defs: seq<IndexDef>, kept: seq<IndexDef>, i: nat)
    requires i < |defs| && DistinctNames(defs)
    ensures defs[i] !in defs[..i] && !Removed(defs[..i], kept, defs[i].dbName)
  {}

  method DiffIndexes(m: ModelName, prev: Model, next: Model) returns (changes: seq<Change>)
    ensures forall c :: c in changes <==> EmittedIndex(m, prev, next, c)
    ensures DistinctNames(prev.indexes) && DistinctNames(next.indexes) ==> NoDup(changes)
  {
    ghost var distinct := DistinctNames(prev.indexes) && DistinctNames(next.indexes);
    changes := [];
    for i := 0 to |next.indexes|
      invariant forall c :: c in changes <==>
                  c.CreateIndex? && c.model == m && c.index in next.indexes[..i] && c.index !in prev.indexes
      invariant distinct ==> NoDup(changes)
    {
      TakeOne(next.indexes, i);
      var ix := next.indexes[i];
      if ix !in prev.indexes {
        if distinct {
          FreshName(next.indexes, [], i);
          AppendNoDup(changes, [CreateIndex(m, ix)]);
        }
        changes := changes + [CreateIndex(m, ix)];
      }
    }
    TakeAll(next.indexes);
    ghost var created := changes;
    for i := 0 to |prev.indexes|
      invariant forall c :: c in changes <==>
                  c in created || (c.DropIndex? && c.model == m && Removed(prev.indexes[..i], next.indexes, c.indexName))
      invariant distinct ==> NoDup(changes)
    {
      TakeOne(prev.indexes, i);
      var ix := prev.indexes[i];
      RemovedStep(prev.indexes[..i], next.indexes, ix);
      if ix !in next.indexes {
        if distinct {
          FreshName(prev.indexes, next.indexes, i);
          AppendNoDup(changes, [DropIndex(m, ix.dbName)]);
        }
        changes := changes + [DropIndex(m, ix.dbName)];
      }
    }
    TakeAll(prev.indexes);
  }

  method DiffUniques(m: ModelName, prev: Model, next: Model) returns (changes: seq<Change>)
    ensures forall c :: c in changes <==> EmittedUnique(m, prev, next, c)
    ensures DistinctNames(prev.uniques) && DistinctNames(next.uniques) ==> NoDup(changes)
  {
    ghost var distinct := DistinctNames(prev.uniques) && DistinctNames(next.uniques);
    changes := [];
    for i := 0 to |next.uniques|
      invariant forall c :: c in changes <==>
                  c.AddUnique? && c.model == m && c.unique in next.uniques[..i] && c.unique !in prev.uniques
      invariant distinct ==> NoDup(changes)
    {
      TakeOne(next.uniques, i);
      var uq := next.uniques[i];
      if uq !in prev.uniques {
        if distinct {
          FreshName(next.uniques, [], i);
          AppendNoDup(changes, [AddUnique(m, uq)]);
        }
        changes := changes + [AddUnique(m, uq)];
      }
    }
    TakeAll(next.uniques);
    ghost var added := changes;
    for i := 0 to |prev.uniques|
      invariant forall c :: c in changes <==>
                  c in added || (c.DropUnique? && c.model == m && Removed(prev.uniques[..i], next.uniques, c.uniqueName))
      invariant distinct ==> NoDup(changes)
    {
      TakeOne(prev.uniques, i);
      var uq := prev.uniques[i];
      RemovedStep(prev.uniques[..i], next.uniques, uq);
      if uq !in next.uniques {
        if distinct {
          FreshName(prev.uniques, next.uniques, i);
          AppendNoDup(changes, [DropUnique(m, uq.dbName)]);
        }
        changes := changes + [DropUnique(m, uq.dbName)];
      }
    }
    TakeAll(prev.uniques);
  }

  // ---- Foreign keys ------------------------------------------------------------------------

  /** The relations that own a foreign key, by name; a later relation of the same name wins. */
  function ForeignKeys(relations: seq<ResolvedRelation>): map<string, ResolvedRelation> {
    if relations == [] then map[]
    else
      var r := relations[|relations| - 1];
      var earlier := ForeignKeys(relations[..|relations| - 1]);
      if r.kind.ManyToMany? then earlier else earlier[r.name := r]
  }

  /** The constraint itself changed. */
  predicate Redefined(p: ResolvedRelation, r: ResolvedRelation) {
    || p.onDelete != r.onDelete
    || p.onUpdate != r.onUpdate
    || p.ownerCols != r.ownerCols
    || p.target != r.target
    || p.targetCols != r.targetCols
    || p.constraintName != r.constraintName
  }

  predicate EmittedForeignKey(prev: Schema, next: Schema, c: Change) {
    var before, after := ForeignKeys(prev.relations), ForeignKeys(next.relations);
    || (c.AddForeignKey? && c.model == c.relation.owner &&
        c.relation.name in after && after[c.relation.name] == c.relation &&
        (c.relation.name in before ==> Redefined(before[c.relation.name], c.relation)))
    || (c.DropForeignKey? && c.model == c.relation.owner &&
        c.relation.name in before && before[c.relation.name] == c.relation &&
        if c.relation.name in after then Redefined(c.relation, after[c.relation.name])
        else !(prev.models.Has(c.model) && !next.models.Has(c.model)))
  }

  lemma {:induction false} ForeignKeyName(relations: seq<ResolvedRelation>)
    ensures forall n :: n in ForeignKeys(relations) ==> ForeignKeys(relations)[n].name == n
  {
    if relations != [] {
      ForeignKeyName(relations[..|relations| - 1]);
    }
  }

  method CollectForeignKeys(relations: seq<ResolvedRelation>) returns (byName: map<string, ResolvedRelation>)
    ensures byName == ForeignKeys(relations)
  {
    byName := map[];
    for i := 0 to |relations|
      invariant byName == ForeignKeys(relations[..i])
    {
      assert relations[..i + 1][..i] == relations[..i];
      var r := relations[i];
      if !r.kind.ManyToMany? {
        byName := byName[r.name := r];
      }
    }
    TakeAll(relations);
  }

  method DiffRelations(prev: Schema, next: Schema) returns (changes: seq<Change>)
    ensures forall c :: c in changes <==> EmittedForeignKey(prev, next, c)
    ensures NoDup(changes)
  {
    var before := CollectForeignKeys(prev.relations);
    var after := CollectForeignKeys(next.relations);
    ForeignKeyName(prev.relations);
    ForeignKeyName(next.relations);
    changes := [];
    var todo := after.Keys;
    while todo != {}
      invariant todo <= after.Keys
      invariant forall c :: c in changes <==> EmittedForeignKey(prev, next, c) && c.relation.name in after.Keys - todo
      invariant NoDup(changes)
      decreases todo
    {
      var name :| name in todo;
      todo := todo - {name};
      var r := after[name];
      if name !in before {
        AppendNoDup(changes, [AddForeignKey(r.owner, r)]);
        changes := changes + [AddForeignKey(r.owner, r)];
      } else {
        var p := before[name];
        if Redefined(p, r) {
          var pair := [DropForeignKey(p.owner, p), AddForeignKey(r.owner, r)];
          AppendNoDup(changes, pair);
          changes := changes + pair;
        }
      }
    }
    todo := before.Keys;
    while todo != {}
      invariant todo <= before.Keys
      invariant forall c :: c in changes <==>
                  EmittedForeignKey(prev, next, c) && (c.relation.name in after || c.relation.name in before.Keys - todo)
      invariant NoDup(changes)
      decreases todo
    {
      var name :| name in todo;
      todo := todo - {name};
      var r := before[name];
      if !(prev.models.Has(r.owner) && !next.models.Has(r.owner)) {
        if name !in after {
          AppendNoDup(changes, [DropForeignKey(r.owner, r)]);
          changes := changes + [DropForeignKey(r.owner, r)];
        }
      }
    }
  }

  // ---- Enums ---------------------------------------------------------------------------------

  predicate EmittedVariant(e: EnumName, prev: EnumDef, next: EnumDef, c: Change) {
    || (c.AddEnumVariant? && c.enum == e && c.variant in next.variants && c.variant !in prev.variants)
    || (c.DropEnumVariant? && c.enum == e && c.variant in prev.variants && c.variant !in next.variants)
  }

  predicate EmittedEnum(prev: Schema, next: Schema, c: Change) {
    match c
    case CreateEnum(def) =>
      next.enums.Has(def.name) && !prev.enums.Has(def.name) && def == next.enums.Get(def.name)
    case DropEnum(e, dbName) => prev.enums.Has(e) && !next.enums.Has(e) && dbName == prev.enums.Get(e).dbName
    case AddEnumVariant(e, _) =>
      prev.enums.Has(e) && next.enums.Has(e) && EmittedVariant(e, prev.enums.Get(e), next.enums.Get(e), c)
    case DropEnumVariant(e, _) =>
      prev.enums.Has(e) && next.enums.Has(e) && EmittedVariant(e, prev.enums.Get(e), next.enums.Get(e), c)
    case _ => false
  }

  method DiffVariants(e: EnumName, prev: EnumDef, next: EnumDef) returns (changes: seq<Change>)
    requires prev.Valid() && next.Valid()
    ensures forall c :: c in changes <==> EmittedVariant(e, prev, next, c)
    ensures NoDup(changes)
  {
    changes := [];
    for i := 0 to |next.variants|
      invariant forall c :: c in changes <==>
                  c.AddEnumVariant? && EmittedVariant(e, prev, next, c) && c.variant in next.variants[..i]
      invariant NoDup(changes)
    {
      TakeOne(next.variants, i);
      if next.variants[i] !in prev.variants {
        AppendNoDup(changes, [AddEnumVariant(e, next.variants[i])]);
        changes := changes + [AddEnumVariant(e, next.variants[i])];
      }
    }
    TakeAll(next.variants);
    ghost var added := changes;
    for i := 0 to |prev.variants|
      invariant forall c :: c in changes <==>
                  c in added || (c.DropEnumVariant? && EmittedVariant(e, prev, next, c) && c.variant in prev.variants[..i])
      invariant NoDup(changes)
    {
      TakeOne(prev.variants, i);
      if prev.variants[i] !in next.variants {
        AppendNoDup(changes, [DropEnumVariant(e, prev.variants[i])]);
        changes := changes + [DropEnumVariant(e, prev.variants[i])];
      }
    }
    TakeAll(prev.variants);
  }

  method CreateEnums(prev: Schema, next: Schema) returns (changes: seq<Change>)
    requires prev.Valid() && next.Valid()
    ensures forall c :: c in changes <==> c.CreateEnum? && EmittedEnum(prev, next, c)
    ensures NoDup(changes)
  {
    changes := [];
    var names := next.enums.keys;
    for i := 0 to |names|
      invariant forall c :: c in changes <==> c.CreateEnum? && EmittedEnum(prev, next, c) && c.def.name in names[..i]
      invariant NoDup(changes)
    {
      TakeOne(names, i);
      if !prev.enums.Has(names[i]) {
        var c := CreateEnum(next.enums.Get(names[i]));
        AppendNoDup(changes, [c]);
        changes := changes + [c];
      }
    }
    TakeAll(names);
  }

  method DropEnums(prev: Schema, next: Schema) returns (changes: seq<Change>)
    requires prev.Valid() && next.Valid()
    ensures forall c :: c in changes <==> c.DropEnum? && EmittedEnum(prev, next, c)
    ensures NoDup(changes)
  {
    changes := [];
    var names := prev.enums.keys;
    for i := 0 to |names|
      invariant forall c :: c in changes <==> c.DropEnum? && EmittedEnum(prev, next, c) && c.droppedEnum in names[..i]
      invariant NoDup(changes)
    {
      TakeOne(names, i);
      if !next.enums.Has(names[i]) {
        var c := DropEnum(names[i], prev.enums.Get(names[i]).dbName);
        AppendNoDup(changes, [c]);
        changes := changes + [c];
      }
    }
    TakeAll(names);
  }

  method CompareVariants(prev: Schema, next: Schema) returns (changes: seq<Change>)
    requires prev.Valid() && next.Valid()
    ensures forall c :: c in changes <==> (c.AddEnumVariant? || c.DropEnumVariant?) && EmittedEnum(prev, next, c)
    ensures NoDup(changes)
  {
    changes := [];
    var names := next.enums.keys;
    for i := 0 to |names|
      invariant forall c :: c in changes <==>
                  (c.AddEnumVariant? || c.DropEnumVariant?) && EmittedEnum(prev, next, c) && c.enum in names[..i]
      invariant NoDup(changes)
    {
      TakeOne(names, i);
      if prev.enums.Has(names[i]) {
        var within := DiffVariants(names[i], prev.enums.Get(names[i]), next.enums.Get(names[i]));
        AppendNoDup(changes, within);
        changes := changes + within;
      }
    }
    TakeAll(names);
  }

  /** `diff_enums`: enums that are new or gone, and variants of the others that are new or gone. */
  method DiffEnums(prev: Schema, next: Schema) returns (changes: seq<Change>)
    requires prev.Valid() && next.Valid()
    ensures forall c :: c in changes <==> EmittedEnum(prev, next, c)
    ensures NoDup(changes)
  {
    var creates := CreateEnums(prev, next);
    var drops := DropEnums(prev, next);
    var variants := CompareVariants(prev, next);
    AppendNoDup(creates, drops);
    AppendNoDup(creates + drops, variants);
    changes := creates + drops + variants;
  }

  // ---- The whole diff ------------------------------------------------------------------------

  predicate Surviving(prev: Schema, next: Schema, m: ModelName) {
    prev.models.Has(m) && next.models.Has(m)
  }

  predicate EmittedWithin(m: ModelName, prev: Model, next: Model, c: Change) {
    EmittedColumn(m, prev, next, c) || EmittedIndex(m, prev, next, c) || EmittedUnique(m, prev, next, c)
  }

  predicate EmittedModel(prev: Schema, next: Schema, c: Change) {
    match c
    case CreateModel(m) => next.models.Has(m.name) && !prev.models.Has(m.name) && m == next.models.Get(m.name)
    case DropModel(m, table) => prev.models.Has(m) && !next.models.Has(m) && table == prev.Table(m)
    case RenameModel(_, _, _) => false
    case CreateEnum(_) => false
    case DropEnum(_, _) => false
    case AddEnumVariant(_, _) => false
    case DropEnumVariant(_, _) => false
    case _ => Surviving(prev, next, c.model) &&
              EmittedWithin(c.model, prev.models.Get(c.model), next.models.Get(c.model), c)
  }

  /** The changes that migrating from `prev` to `next` calls for. */
  predicate Emitted(prev: Schema, next: Schema, c: Change) {
    EmittedEnum(prev, next, c) || EmittedModel(prev, next, c) || EmittedForeignKey(prev, next, c)
  }

  ghost predicate DistinctConstraints(s: Schema) {
    forall m :: m in s.models.entries ==>
      DistinctNames(s.models.entries[m].indexes) && DistinctNames(s.models.entries[m].uniques)
  }

  /** `changes` are the changes from `prev` to `next`, in some order, each once. */
  ghost predicate IsDiff(prev: Schema, next: Schema, changes: seq<Change>) {
    (forall c :: c in changes <==> Emitted(prev, next, c)) && NoDup(changes)
  }

  method DiffWithin(m: ModelName, prev: Model, next: Model) returns (changes: seq<Change>)
    requires prev.Valid() && next.Valid()
    ensures forall c :: c in changes <==> EmittedWithin(m, prev, next, c)
    ensures (DistinctNames(prev.indexes) && DistinctNames(next.indexes) &&
             DistinctNames(prev.uniques) && DistinctNames(next.uniques)) ==> NoDup(changes)
  {
    var columns := DiffColumns(m, prev, next);
    var indexes := DiffIndexes(m, prev, next);
    var uniques := DiffUniques(m, prev, next);
    changes := columns + indexes + uniques;
    if NoDup(indexes) && NoDup(uniques) {
      AppendNoDup(columns, indexes);
      AppendNoDup(columns + indexes, uniques);
    }
  }

  method CreateNew(prev: Schema, next: Schema) returns (changes: seq<Change>)
    requires prev.Valid() && next.Valid()
    ensures forall c :: c in changes <==> c.CreateModel? && EmittedModel(prev, next, c)
    ensures NoDup(changes)
  {
    changes := [];
    var names := next.models.keys;
    for i := 0 to |names|
      invariant forall c :: c in changes <==> c.CreateModel? && EmittedModel(prev, next, c) && c.created.name in names[..i]
      invariant NoDup(changes)
    {
      TakeOne(names, i);
      if !prev.models.Has(names[i]) {
        var c := CreateModel(next.models.Get(names[i]));
        AppendNoDup(changes, [c]);
        changes := changes + [c];
      }
    }
    TakeAll(names);
  }

  method DropOld(prev: Schema, next: Schema) returns (changes: seq<Change>)
    requires prev.Valid() && next.Valid()
    ensures forall c :: c in changes <==> c.DropModel? && EmittedModel(prev, next, c)
    ensures NoDup(changes)
  {
    changes := [];
    var names := prev.models.keys;
    for i := 0 to |names|
      invariant forall c :: c in changes <==> c.DropModel? && EmittedModel(prev, next, c) && c.dropped in names[..i]
      invariant NoDup(changes)
    {
      TakeOne(names, i);
      if !next.models.Has(names[i]) {
        var c := DropModel(names[i], prev.Table(names[i]));
        AppendNoDup(changes, [c]);
        changes := changes + [c];
      }
    }
    TakeAll(names);
  }

  /** Neither creates nor drops a model, nor concerns an enum. */
  predicate WithinModel(c: Change) {
    !c.CreateModel? && !c.DropModel? && !c.RenameModel? && !IsEnumChange(c)
  }

  /** The changes within the models `names`. */
  ghost predicate Compared(prev: Schema, next: Schema, names: seq<ModelName>, changes: seq<Change>) {
    forall c :: c in changes <==> WithinModel(c) && EmittedModel(prev, next, c) && c.model in names
  }

  lemma ComparedStep(prev: Schema, next: Schema, names: seq<ModelName>, n: ModelName, changes: seq<Change>, within: seq<Change>)
    requires Compared(prev, next, names, changes) && n !in names && Surviving(prev, next, n)
    requires forall c :: c in within <==> EmittedWithin(n, prev.models.Get(n), next.models.Get(n), c)
    ensures Compared(prev, next, names + [n], changes + within)
    ensures forall c :: c in changes ==> c !in within
  {
    forall c ensures c in within <==> WithinModel(c) && EmittedModel(prev, next, c) && c.model == n {}
  }

  lemma NothingToCompare(prev: Schema, next: Schema, names: seq<ModelName>, n: ModelName, changes: seq<Change>)
    requires Compared(prev, next, names, changes) && !prev.models.Has(n)
    ensures Compared(prev, next, names + [n], changes)
  {}

  method CompareExisting(prev: Schema, next: Schema) returns (changes: seq<Change>)
    requires prev.Valid() && next.Valid()
    ensures forall c :: c in changes <==> WithinModel(c) && EmittedModel(prev, next, c)
    ensures DistinctConstraints(prev) && DistinctConstraints(next) ==> NoDup(changes)
  {
    ghost var distinct := DistinctConstraints(prev) && DistinctConstraints(next);
    changes := [];
    var names := next.models.keys;
    for i := 0 to |names|
      invariant Compared(prev, next, names[..i], changes)
      invariant distinct ==> NoDup(changes)
    {
      TakeOne(names, i);
      if prev.models.Has(names[i]) {
        var within := DiffWithin(names[i], prev.models.Get(names[i]), next.models.Get(names[i]));
        ComparedStep(prev, next, names[..i], names[i], changes, within);
        if distinct {
          AppendNoDup(changes, within);
        }
        changes := changes + within;
      } else {
        NothingToCompare(prev, next, names[..i], names[i], changes);
      }
    }
    TakeAll(names);
  }

  method DiffModels(prev: Schema, next: Schema) returns (changes: seq<Change>)
    requires prev.Valid() && next.Valid()
    ensures forall c :: c in changes <==> EmittedModel(prev, next, c)
    ensures DistinctConstraints(prev) && DistinctConstraints(next) ==> NoDup(changes)
  {
    var creates := CreateNew(prev, next);
    var drops := DropOld(prev, next);
    var within := CompareExisting(prev, next);
    AppendNoDup(creates, drops);
    if NoDup(within) {
      AppendNoDup(creates + drops, within);
    }
    changes := creates + drops + within;
  }

  lemma KindsApart(prev: Schema, next: Schema)
    ensures forall c :: EmittedEnum(prev, next, c) ==> !EmittedModel(prev, next, c) && !EmittedForeignKey(prev, next, c)
    ensures forall c :: EmittedModel(prev, next, c) ==> !EmittedForeignKey(prev, next, c)
  {}

  /** The diff pushes exactly the emitted changes, each once. */
  method Diff(prev: Schema, next: Schema) returns (changes: seq<Change>)
    requires prev.Valid() && next.Valid()
    ensures forall c :: c in changes <==> Emitted(prev, next, c)
    ensures DistinctConstraints(prev) && DistinctConstraints(next) ==> IsDiff(prev, next, changes)
  {
    var enums := DiffEnums(prev, next);
    var models := DiffModels(prev, next);
    var relations := DiffRelations(prev, next);
    changes := enums + models + relations;
    KindsApart(prev, next);
    if NoDup(models) {
      AppendNoDup(enums, models);
      AppendNoDup(enums + models, relations);
    }
  }

  /**
   A schema diffed against itself yields nothing exactly when no `@renamedFrom` hint of a
   column names a column the model still has.
   */
  lemma SelfDiff(s: Schema)
    requires s.Valid()
    ensures (forall c :: !Emitted(s, s, c)) <==>
            forall m, n :: m in s.models.entries && s.models.Get(m).fields.Has(n) ==>
              !Hinted(s.models.Get(m), s.models.Get(m), n)
  {
    if m, n :| m in s.models.entries && s.models.Get(m).fields.Has(n) && Hinted(s.models.Get(m), s.models.Get(m), n) {
      var model := s.models.Get(m);
      var o := HintSource(model, n);
      assert Emitted(s, s, RenameColumn(m, o, n, model.Column(o), model.Column(n)));
    }
    ForeignKeyName(s.relations);
  }
}
