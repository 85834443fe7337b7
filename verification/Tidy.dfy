/**
 The pairs of schemas on which the column migration is promised to work, and the reason
 the changes of one phase never get in each other's way.
 */
module Tidy {
  import opened Names
  import opened Ir
  import opened Diff
  import opened Plan
  import opened Effects

  /** `n` carries on a column of `prev`, under a hint or under its own name. */
  predicate Continued(prev: Model, next: Model, n: FieldName) {
    Hinted(prev, next, n) || Kept(prev, next, n)
  }

  /** The column behind `n` gets another physical name. */
  predicate Moves(prev: Model, next: Model, n: FieldName) {
    Continued(prev, next, n) && prev.Column(Source(prev, next, n)) != next.Column(n)
  }

  /** A pair of models whose column diff is unambiguous. */
  ghost predicate TidyModel(prev: Model, next: Model) {
    // Hints are injective, and the field a hint takes from is gone.
    && (forall n, k :: Hinted(prev, next, n) && Hinted(prev, next, k) && HintSource(next, n) == HintSource(next, k) ==> n == k)
    && (forall n :: Hinted(prev, next, n) ==> !next.fields.Has(HintSource(next, n)))
    // A field does not turn from a column into a navigation property or back.
    && (forall n :: next.fields.Has(n) && prev.fields.Has(n) && !Hinted(prev, next, n) ==>
          prev.OwnsColumn(n) == next.OwnsColumn(n))
    // An added column's physical name is new.
    && (forall n, o :: Added(prev, next, n) && prev.OwnsColumn(o) ==> next.Column(n) != prev.Column(o))
    // A column only moves onto a free name, or onto one that is being dropped.
    && (forall n, o :: Moves(prev, next, n) && prev.OwnsColumn(o) && next.Column(n) == prev.Column(o) ==>
          Dropped(prev, next, o))
  }

  ghost predicate TidySchemas(prev: Schema, next: Schema) {
    && prev.Valid() && next.Valid()
    && (forall m :: Surviving(prev, next, m) ==>
          prev.Table(m) == next.Table(m) && TidyModel(prev.models.Get(m), next.models.Get(m)))
    && (forall m, k :: next.models.Has(m) && !prev.models.Has(m) && prev.models.Has(k) ==> next.Table(m) != prev.Table(k))
  }

  // ---- Members of a phase ------------------------------------------------------------------

  lemma {:induction false} SelectNoDup(p: Phase, all: seq<Change>, changes: seq<Change>)
    requires NoDup(changes)
    ensures NoDup(Select(p, all, changes))
  {
    if changes != [] {
      SelectNoDup(p, all, changes[1..]);
      SelectMembers(p, all, changes[1..]);
      assert changes[0] !in changes[1..];
      AppendNoDup(if InPhase(p, all, changes[0]) then [changes[0]] else [], Select(p, all, changes[1..]));
    }
  }

  /** What emission means for a column change. */
  lemma EmittedColumnChange(prev: Schema, next: Schema, c: Change)
    requires Emitted(prev, next, c) && IsColumnChange(c)
    ensures Surviving(prev, next, c.model)
    ensures EmittedColumn(c.model, prev.models.Get(c.model), next.models.Get(c.model), c)
  {}

  lemma EmittedWellNamed(prev: Schema, next: Schema, c: Change)
    requires Emitted(prev, next, c) && IsColumnChange(c)
    ensures WellNamed(next, c)
  {
    EmittedColumnChange(prev, next, c);
  }

  predicate SameKind(c: Change, e: Change) {
    || (c.AddColumn? && e.AddColumn?)
    || (c.DropColumn? && e.DropColumn?)
    || (c.RenameColumn? && e.RenameColumn?)
    || (c.AlterColumn? && e.AlterColumn?)
  }

  /** Continued fields have sources of their own. */
  lemma SourcesDiffer(prev: Model, next: Model, n: FieldName, k: FieldName)
    requires prev.Valid() && next.Valid() && TidyModel(prev, next)
    requires Continued(prev, next, n) && Continued(prev, next, k) && n != k
    ensures prev.Column(Source(prev, next, n)) != prev.Column(Source(prev, next, k))
    ensures next.Column(n) != next.Column(k)
    ensures prev.Column(Source(prev, next, n)) != next.Column(k)
  {
    assert Source(prev, next, n) != Source(prev, next, k);
    if prev.Column(Source(prev, next, n)) == next.Column(k) {
      SourceNotDropped(prev, next, n);
    }
  }

  lemma SourceNotDropped(prev: Model, next: Model, n: FieldName)
    requires prev.Valid() && next.Valid() && TidyModel(prev, next) && Continued(prev, next, n)
    ensures prev.OwnsColumn(Source(prev, next, n)) && !Dropped(prev, next, Source(prev, next, n))
  {
    if Hinted(prev, next, n) {
      assert n in next.fields.keys;
      assert Consumed(prev, next, HintSource(next, n));
    }
  }

  lemma ApartWithin(m: ModelName, prev: Model, next: Model, c: Change, e: Change)
    requires prev.Valid() && next.Valid() && TidyModel(prev, next)
    requires SameKind(c, e) && c != e && c.model == m && e.model == m
    requires EmittedColumn(m, prev, next, c) && EmittedColumn(m, prev, next, e)
    ensures FromColumn(c) != FromColumn(e) && FromColumn(c) != ToColumn(e)
    ensures ToColumn(c) != FromColumn(e) && ToColumn(c) != ToColumn(e)
  {
    match c
    case AddColumn(_, f) =>
      assert f.name != e.field.name;
    case DropColumn(_, _) =>
    case RenameColumn(_, _, n, _, _) =>
      assert n != e.toName;
      SourcesDiffer(prev, next, n, e.toName);
      SourcesDiffer(prev, next, e.toName, n);
    case AlterColumn(_, _, to, _) =>
      assert to.name != e.to.name;
      SourcesDiffer(prev, next, to.name, e.to.name);
      SourcesDiffer(prev, next, e.to.name, to.name);
  }

  lemma ApartKeys(next: Schema, c: Change, e: Change)
    requires WellNamed(next, c) && WellNamed(next, e)
    requires c.model != e.model ==> next.Table(c.model) != next.Table(e.model)
    requires c.model == e.model ==>
               FromColumn(c) != FromColumn(e) && FromColumn(c) != ToColumn(e) &&
               ToColumn(c) != FromColumn(e) && ToColumn(c) != ToColumn(e)
    ensures Apart(next, c, e)
  {}

  lemma DistinctTables(s: Schema, m: ModelName, k: ModelName)
    requires s.Valid() && s.models.Has(m) && s.models.Has(k) && m != k
    ensures s.Table(m) != s.Table(k)
  {}

  lemma TidyWithin(prev: Schema, next: Schema, m: ModelName)
    requires TidySchemas(prev, next) && Surviving(prev, next, m)
    ensures prev.models.Get(m).Valid() && next.models.Get(m).Valid()
    ensures prev.Table(m) == next.Table(m) && TidyModel(prev.models.Get(m), next.models.Get(m))
  {}

  /** Two different emitted changes of one kind share no key. */
  lemma ApartEmitted(prev: Schema, next: Schema, c: Change, e: Change)
    requires TidySchemas(prev, next) && SameKind(c, e) && c != e
    requires WellNamed(next, c) && Surviving(prev, next, c.model)
    requires WellNamed(next, e) && Surviving(prev, next, e.model)
    requires EmittedColumn(c.model, prev.models.Get(c.model), next.models.Get(c.model), c)
    requires EmittedColumn(e.model, prev.models.Get(e.model), next.models.Get(e.model), e)
    ensures Apart(next, c, e)
  {
    if c.model == e.model {
      TidyWithin(prev, next, c.model);
      ApartWithin(c.model, prev.models.Get(c.model), next.models.Get(c.model), c, e);
    } else {
      DistinctTables(next, c.model, e.model);
    }
    ApartKeys(next, c, e);
  }
}
