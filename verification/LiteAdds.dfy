/**
 Any sequence of added columns on SQLite (`columns_to_add` of `crates/migrate/src/plan.rs`):
 the model that each rebuild starts from is what the table looks like by then.
 */
module LiteAdds {
  import opened Names
  import opened Ir
  import opened Catalogue
  import opened Diff
  import opened Effects
  import opened Tidy
  import opened Phases
  import opened Trace
  import opened Sqlite

  /** The source model for the next change of the table. */
  function Advance(source: Model, f: Field): Model {
    if NeedsBackfill(f) then Replaced(source, f) else WithField(source, f)
  }

  function Final(source: Model, fs: seq<Field>): Model
    decreases |fs|
  {
    if fs == [] then source else Final(Advance(source, fs[0]), fs[1..])
  }

  ghost predicate AllFresh(source: Model, fs: seq<Field>)
    decreases |fs|
  {
    source.Valid() && (fs == [] || (Fresh(source, fs[0]) && AllFresh(Advance(source, fs[0]), fs[1..])))
  }

  function AddAll(next: Schema, target: Model, source: Model, fs: seq<Field>): seq<LiteStmt>
    requires AllFresh(source, fs)
    decreases |fs|
  {
    if fs == [] then [] else AddLite(next, target, source, fs[0]) + AddAll(next, target, Advance(source, fs[0]), fs[1..])
  }

  ghost predicate AllOk(l: Lite, next: Schema, target: Model, source: Model, fs: seq<Field>, rows: nat)
    decreases |fs|
  {
    fs == [] || (AddOk(l, next, target, source, fs[0], rows) && AllOk(l, next, target, Advance(source, fs[0]), fs[1..], rows))
  }

  /** The indexes and uniques of the target have names of their own, and lie on columns. */
  ghost predicate TargetOk(target: Model, source: Model) {
    Indexable(source, target.indexes) && Indexable(source, target.uniques) && DistinctNames(target.indexes + target.uniques)
  }

  /** What all the adds leave behind: every row and old cell, and the new columns with their values. */
  ghost predicate AllDone(l: Lite, source: Model, fs: seq<Field>, before: Disk, after: Disk)
    requires before.table.Some?
  {
    && Physical(Final(source, fs), after)
    && after.table.value.rows == before.table.value.rows
    && (forall x :: x in before.table.value.cols ==>
          x in after.table.value.cols && after.table.value.cols[x] == before.table.value.cols[x])
    && (forall f :: f in fs ==>
          f.column in after.table.value.cols &&
          after.table.value.cols[f.column].cells ==
          AddedCells(l.world, Dialect.Sqlite, Key("", f.column), f, before.table.value.rows))
  }

  lemma IndexableWith(source: Model, made: Model, f: Field, defs: seq<IndexDef>)
    requires made.fields.entries == source.fields.entries[f.name := f] && f.HasColumn() && Indexable(source, defs)
    ensures Indexable(made, defs)
  {
    forall n | n != f.name ensures made.OwnsColumn(n) <==> source.OwnsColumn(n) {}
  }

  lemma AdvanceKeeps(target: Model, source: Model, f: Field)
    requires source.Valid() && Fresh(source, f) && TargetOk(target, source)
    ensures Advance(source, f).Valid() && TargetOk(target, Advance(source, f)) && IndexesOk(target, Made(source, f))
    ensures Advance(source, f).fields.entries == WithField(source, f).fields.entries
  {
    ReplacedValid(source, f);
    MadeEntries(source, f);
    IndexableWith(source, Advance(source, f), f, target.indexes);
    IndexableWith(source, Advance(source, f), f, target.uniques);
    IndexableWith(source, Made(source, f), f, target.indexes);
    IndexableWith(source, Made(source, f), f, target.uniques);
  }

  lemma AddOne(l: Lite, next: Schema, target: Model, source: Model, f: Field, d: Disk)
    requires source.Valid() && Physical(source, d) && Fresh(source, f) && TargetOk(target, source)
    ensures LiteExec(l, AddLite(next, target, source, f), d).Some? <==> AddOk(l, next, target, source, f, d.table.value.rows)
    ensures AddOk(l, next, target, source, f, d.table.value.rows) ==>
              var after := LiteExec(l, AddLite(next, target, source, f), d).value;
              AddDone(l, source, f, d, after) && Physical(Advance(source, f), after)
  {
    AdvanceKeeps(target, source, f);
    if NeedsBackfill(f) {
      RebuiltAdd(l, next, target, source, f, d);
    } else {
      PlainAdd(l, next, target, source, f, d);
    }
    if AddOk(l, next, target, source, f, d.table.value.rows) {
      SamePhysical(WithField(source, f), Advance(source, f), LiteExec(l, AddLite(next, target, source, f), d).value);
    }
  }

  lemma DoneTrans(l: Lite, source: Model, f: Field, fs: seq<Field>, d0: Disk, d1: Disk, d2: Disk)
    requires d0.table.Some? && AddDone(l, source, f, d0, d1) && AllDone(l, Advance(source, f), fs, d1, d2)
    ensures AllDone(l, source, [f] + fs, d0, d2)
  {
    assert ([f] + fs)[1..] == fs;
  }

  /** The adds run if and only if each of them may, and then keep everything that was there. */
  lemma {:induction false} RunAddAll(l: Lite, next: Schema, target: Model, source: Model, fs: seq<Field>, d: Disk)
    requires AllFresh(source, fs) && TargetOk(target, source) && Physical(source, d)
    ensures LiteExec(l, AddAll(next, target, source, fs), d).Some? <==> AllOk(l, next, target, source, fs, d.table.value.rows)
    ensures AllOk(l, next, target, source, fs, d.table.value.rows) ==>
              AllDone(l, source, fs, d, LiteExec(l, AddAll(next, target, source, fs), d).value)
    decreases |fs|
  {
    if fs != [] {
      var f, rest, later := fs[0], fs[1..], Advance(source, fs[0]);
      AddOne(l, next, target, source, f, d);
      AdvanceKeeps(target, source, f);
      LiteConcat(l, AddLite(next, target, source, f), AddAll(next, target, later, rest), d);
      if AddOk(l, next, target, source, f, d.table.value.rows) {
        var mid := LiteExec(l, AddLite(next, target, source, f), d).value;
        RunAddAll(l, next, target, later, rest, mid);
        if AllOk(l, next, target, source, fs, d.table.value.rows) {
          assert fs == [f] + rest;
          DoneTrans(l, source, f, rest, d, mid, LiteExec(l, AddAll(next, target, later, rest), mid).value);
        }
      }
    }
  }

  // ---- The loop of the planner -----------------------------------------------------------------------

  /** The model the planner starts from: the one of `prev`, if there is one. */
  function StartOf(prev: Schema, next: Schema, m: ModelName): Model
    requires next.models.Has(m)
  {
    if prev.models.Has(m) then prev.models.Get(m) else next.models.Get(m)
  }

  /** The fields added to `m`, in order. */
  function FieldsFor(changes: seq<Change>, m: ModelName): seq<Field> {
    if changes == [] then []
    else
      var last := changes[|changes| - 1];
      FieldsFor(changes[..|changes| - 1], m) + if last.AddColumn? && last.model == m then [last.field] else []
  }

  /** The statements on the table of `m`, in order. */
  function StmtsFor(stmts: seq<(ModelName, LiteStmt)>, m: ModelName): seq<LiteStmt> {
    if stmts == [] then [] else (if stmts[0].0 == m then [stmts[0].1] else []) + StmtsFor(stmts[1..], m)
  }

  function Tagged(m: ModelName, stmts: seq<LiteStmt>): seq<(ModelName, LiteStmt)> {
    if stmts == [] then [] else [(m, stmts[0])] + Tagged(m, stmts[1..])
  }

  lemma {:induction false} StmtsForConcat(a: seq<(ModelName, LiteStmt)>, b: seq<(ModelName, LiteStmt)>, m: ModelName)
    ensures StmtsFor(a + b, m) == StmtsFor(a, m) + StmtsFor(b, m)
  {
    if a == [] {
      assert a + b == b;
    } else {
      assert (a + b)[1..] == a[1..] + b;
      StmtsForConcat(a[1..], b, m);
    }
  }

  lemma {:induction false} StmtsForTagged(m: ModelName, stmts: seq<LiteStmt>, k: ModelName)
    ensures StmtsFor(Tagged(m, stmts), k) == if k == m then stmts else []
  {
    if stmts != [] {
      StmtsForTagged(m, stmts[1..], k);
      assert Tagged(m, stmts)[1..] == Tagged(m, stmts[1..]);
    }
  }

  /** Every added field and column is new to its table when its turn comes. */
  ghost predicate AddsFresh(prev: Schema, next: Schema, changes: seq<Change>) {
    && (forall c :: c in changes && c.AddColumn? ==> next.models.Has(c.model))
    && (forall m :: next.models.Has(m) ==> AllFresh(StartOf(prev, next, m), FieldsFor(changes, m)))
  }

  lemma {:induction false} FreshAppend(source: Model, fs: seq<Field>, f: Field)
    ensures Final(source, fs + [f]) == Advance(Final(source, fs), f)
    ensures AllFresh(source, fs + [f]) ==> AllFresh(source, fs) && Final(source, fs).Valid() && Fresh(Final(source, fs), f)
    decreases |fs|
  {
    if fs != [] {
      assert (fs + [f])[0] == fs[0] && (fs + [f])[1..] == fs[1..] + [f];
      FreshAppend(Advance(source, fs[0]), fs[1..], f);
    }
  }

  lemma {:induction false} AddAllAppend(next: Schema, target: Model, source: Model, fs: seq<Field>, f: Field)
    requires AllFresh(source, fs + [f]) && AllFresh(source, fs) && Final(source, fs).Valid() && Fresh(Final(source, fs), f)
    ensures AddAll(next, target, source, fs + [f]) == AddAll(next, target, source, fs) + AddLite(next, target, Final(source, fs), f)
    decreases |fs|
  {
    if fs == [] {
      assert AddAll(next, target, source, fs + [f]) == AddLite(next, target, source, f) + [] by {
        assert (fs + [f])[0] == f && (fs + [f])[1..] == [];
      }
    } else {
      var later := Advance(source, fs[0]);
      HeadAndTail(fs, f);
      AddAllAppend(next, target, later, fs[1..], f);
      Associate(AddLite(next, target, source, fs[0]), AddAll(next, target, later, fs[1..]),
                AddLite(next, target, Final(later, fs[1..]), f));
    }
  }

  lemma HeadAndTail<T>(s: seq<T>, x: T)
    requires s != []
    ensures (s + [x])[0] == s[0] && (s + [x])[1..] == s[1..] + [x]
  {}

  lemma Associate<T>(x: seq<T>, y: seq<T>, z: seq<T>)
    ensures (x + y) + z == x + (y + z)
  {}

  lemma {:induction false} FreshPrefix(source: Model, fs: seq<Field>, n: nat)
    requires AllFresh(source, fs) && n <= |fs|
    ensures AllFresh(source, fs[..n])
    decreases |fs|
  {
    if n > 0 {
      assert fs[..n][0] == fs[0] && fs[..n][1..] == fs[1..][..n - 1];
      FreshPrefix(Advance(source, fs[0]), fs[1..], n - 1);
    }
  }

  lemma {:induction false} FieldsPrefix(changes: seq<Change>, i: nat, m: ModelName)
    requires i <= |changes|
    ensures FieldsFor(changes[..i], m) <= FieldsFor(changes, m)
    decreases |changes|
  {
    if i < |changes| {
      assert changes[..|changes| - 1][..i] == changes[..i];
      FieldsPrefix(changes[..|changes| - 1], i, m);
    } else {
      assert changes[..i] == changes;
    }
  }

  /** The source model of `m` after `done` changes, as the planner keeps it. */
  function CurrentOf(prev: Schema, next: Schema, current: map<ModelName, Model>, m: ModelName): Model
    requires next.models.Has(m)
  {
    if m in current then current[m] else StartOf(prev, next, m)
  }

  /** What the loop knows about the table of `m`. */
  ghost predicate Planned(prev: Schema, next: Schema, done: seq<Change>, current: map<ModelName, Model>,
                          stmts: seq<(ModelName, LiteStmt)>, m: ModelName)
    requires next.models.Has(m)
  {
    && AllFresh(StartOf(prev, next, m), FieldsFor(done, m))
    && CurrentOf(prev, next, current, m) == Final(StartOf(prev, next, m), FieldsFor(done, m))
    && StmtsFor(stmts, m) == AddAll(next, next.models.Get(m), StartOf(prev, next, m), FieldsFor(done, m))
  }

  /** One more change: it moves its own table on and leaves the others. */
  lemma PlannedStep(prev: Schema, next: Schema, changes: seq<Change>, i: nat, current: map<ModelName, Model>,
                    stmts: seq<(ModelName, LiteStmt)>, m: ModelName)
    requires AddsFresh(prev, next, changes) && i < |changes| && next.models.Has(m)
    requires Planned(prev, next, changes[..i], current, stmts, m)
    ensures var c := changes[i];
            if c.AddColumn? && c.model == m then
              var source := CurrentOf(prev, next, current, m);
              && source.Valid() && Fresh(source, c.field)
              && Planned(prev, next, changes[..i + 1], current[m := Advance(source, c.field)],
                         stmts + Tagged(m, AddLite(next, next.models.Get(m), source, c.field)), m)
            else FieldsFor(changes[..i + 1], m) == FieldsFor(changes[..i], m)
  {
    var c, start, target := changes[i], StartOf(prev, next, m), next.models.Get(m);
    var fs := FieldsFor(changes[..i], m);
    FieldsNext(prev, next, changes, i, m);
    if c.AddColumn? && c.model == m {
      FreshAppend(start, fs, c.field);
      AddAllAppend(next, target, start, fs, c.field);
      var step := AddLite(next, target, Final(start, fs), c.field);
      StmtsForConcat(stmts, Tagged(m, step), m);
      StmtsForTagged(m, step, m);
    }
  }

  lemma FieldsNext(prev: Schema, next: Schema, changes: seq<Change>, i: nat, m: ModelName)
    requires AddsFresh(prev, next, changes) && i < |changes| && next.models.Has(m)
    ensures var c, fs := changes[i], FieldsFor(changes[..i], m);
            if c.AddColumn? && c.model == m then
              FieldsFor(changes[..i + 1], m) == fs + [c.field] && AllFresh(StartOf(prev, next, m), fs + [c.field])
            else FieldsFor(changes[..i + 1], m) == fs
  {
    var c, fs := changes[i], FieldsFor(changes[..i], m);
    assert changes[..i + 1][..i] == changes[..i] && changes[..i + 1][i] == c;
    if c.AddColumn? && c.model == m {
      assert FieldsFor(changes[..i + 1], m) == fs + [c.field];
      FieldsPrefix(changes, i + 1, m);
      FreshPrefix(StartOf(prev, next, m), FieldsFor(changes, m), |fs| + 1);
      assert FieldsFor(changes, m)[..|fs| + 1] == fs + [c.field];
    }
  }

  lemma PlannedOther(prev: Schema, next: Schema, changes: seq<Change>, i: nat, current: map<ModelName, Model>,
                     stmts: seq<(ModelName, LiteStmt)>, k: ModelName, later: Model, more: seq<LiteStmt>, m: ModelName)
    requires i < |changes| && next.models.Has(m) && m != k
    requires Planned(prev, next, changes[..i], current, stmts, m) && FieldsFor(changes[..i + 1], m) == FieldsFor(changes[..i], m)
    ensures Planned(prev, next, changes[..i + 1], current[k := later], stmts + Tagged(k, more), m)
  {
    StmtsForConcat(stmts, Tagged(k, more), m);
    StmtsForTagged(k, more, m);
  }

  /** `columns_to_add` on SQLite. Table by table, it is the sequence of adds from the table's own model. */
  method ColumnsToAdd(prev: Schema, next: Schema, changes: seq<Change>) returns (stmts: seq<(ModelName, LiteStmt)>)
    requires AddsFresh(prev, next, changes)
    ensures forall m :: next.models.Has(m) ==>
              AllFresh(StartOf(prev, next, m), FieldsFor(changes, m)) &&
              StmtsFor(stmts, m) == AddAll(next, next.models.Get(m), StartOf(prev, next, m), FieldsFor(changes, m))
  {
    stmts := [];
    var current: map<ModelName, Model> := map[];
    for i := 0 to |changes|
      invariant forall m :: next.models.Has(m) ==> Planned(prev, next, changes[..i], current, stmts, m)
    {
      var c := changes[i];
      forall m | next.models.Has(m) {
        PlannedStep(prev, next, changes, i, current, stmts, m);
      }
      if c.AddColumn? {
        assert c in changes;
        var target := next.models.Get(c.model);
        var source := CurrentOf(prev, next, current, c.model);
        var step := AddLite(next, target, source, c.field);
        forall m | next.models.Has(m) && m != c.model {
          PlannedOther(prev, next, changes, i, current, stmts, c.model, Advance(source, c.field), step, m);
        }
        stmts := stmts + Tagged(c.model, step);
        current := current[c.model := Advance(source, c.field)];
      }
    }
    assert changes[..|changes|] == changes;
  }

  // ---- Tidy pairs ----------------------------------------------------------------------------------------

  lemma {:induction false} FieldsMembers(changes: seq<Change>, m: ModelName)
    ensures forall f :: f in FieldsFor(changes, m) <==> AddColumn(m, f) in changes
    ensures NoDup(changes) ==> NoDup(FieldsFor(changes, m))
  {
    if changes != [] {
      var init, last := changes[..|changes| - 1], changes[|changes| - 1];
      assert changes == init + [last];
      FieldsMembers(init, m);
      if NoDup(changes) {
        assert last !in init;
        AppendNoDup(FieldsFor(init, m), if last.AddColumn? && last.model == m then [last.field] else []);
      }
    }
  }

  /** A model on the way from `prev` to `next`: old fields, and some of those added. */
  ghost predicate Between(prev: Model, next: Model, source: Model, fs: seq<Field>) {
    && source.Valid()
    && (forall n :: source.fields.Has(n) ==>
          || (prev.fields.Has(n) && source.fields.Get(n) == prev.fields.Get(n))
          || (Added(prev, next, n) && source.fields.Get(n) == next.fields.Get(n) && next.fields.Get(n) !in fs))
  }

  lemma BetweenFresh(prev: Model, next: Model, source: Model, fs: seq<Field>)
    requires next.Valid() && TidyModel(prev, next) && fs != [] && NoDup(fs) && Between(prev, next, source, fs)
    requires forall f :: f in fs ==> Added(prev, next, f.name) && f == next.fields.Get(f.name)
    ensures Fresh(source, fs[0]) && Between(prev, next, Advance(source, fs[0]), fs[1..])
  {
    var f := fs[0];
    assert f in fs && f !in fs[1..];
    forall n | source.OwnsColumn(n) ensures source.Column(n) != f.column {
      if prev.fields.Has(n) && source.fields.Get(n) == prev.fields.Get(n) {
        assert prev.OwnsColumn(n);
      } else {
        assert n != f.name && next.OwnsColumn(n) && next.OwnsColumn(f.name);
      }
    }
    ReplacedValid(source, f);
  }

  lemma {:induction false} AllBetween(prev: Model, next: Model, source: Model, fs: seq<Field>)
    requires next.Valid() && TidyModel(prev, next) && NoDup(fs) && Between(prev, next, source, fs)
    requires forall f :: f in fs ==> Added(prev, next, f.name) && f == next.fields.Get(f.name)
    ensures AllFresh(source, fs)
    decreases |fs|
  {
    if fs != [] {
      BetweenFresh(prev, next, source, fs);
      AllBetween(prev, next, Advance(source, fs[0]), fs[1..]);
    }
  }

  /** On a tidy pair, the diff's adds are new when their turn comes, in whatever order the diff lists them. */
  lemma TidyAddsFresh(prev: Schema, next: Schema, all: seq<Change>)
    requires TidySchemas(prev, next) && IsDiff(prev, next, all)
    ensures AddsFresh(prev, next, all)
  {
    forall c | c in all && c.AddColumn? ensures next.models.Has(c.model) {
      assert Emitted(prev, next, c);
    }
    forall m | next.models.Has(m) ensures AllFresh(StartOf(prev, next, m), FieldsFor(all, m)) {
      FieldsMembers(all, m);
      var fs := FieldsFor(all, m);
      forall f | f in fs ensures Surviving(prev, next, m) && Added(prev.models.Get(m), next.models.Get(m), f.name) &&
                                 f == next.models.Get(m).fields.Get(f.name)
      {
        assert Emitted(prev, next, AddColumn(m, f));
        EmittedRole(prev, next, AddColumn(m, f));
      }
      if prev.models.Has(m) {
        TidyWithin(prev, next, m);
        AllBetween(prev.models.Get(m), next.models.Get(m), prev.models.Get(m), fs);
      } else {
        FirstIn(fs);
      }
    }
  }

  // ---- The indexes after the adds --------------------------------------------------------------------------

  /** The indexes of the table after the adds: a rebuild drops them all and creates those of the target that it can. */
  function IndexesAfter(target: Model, source: Model, fs: seq<Field>, before: set<LiteIndex>): set<LiteIndex>
    decreases |fs|
  {
    if fs == [] then before
    else
      IndexesAfter(target, Advance(source, fs[0]), fs[1..],
                   if NeedsBackfill(fs[0]) then AllPossible(target, Made(source, fs[0]))
                   else before)
  }

  lemma OneIndexes(l: Lite, next: Schema, target: Model, source: Model, f: Field, d: Disk)
    requires source.Valid() && Physical(source, d) && Fresh(source, f) && TargetOk(target, source)
    requires AddOk(l, next, target, source, f, d.table.value.rows)
    ensures var after := LiteExec(l, AddLite(next, target, source, f), d);
            after.Some? && after.value.indexes == IndexesAfter(target, source, [f], d.indexes)
  {
    AdvanceKeeps(target, source, f);
    assert [f][1..] == [];
    if NeedsBackfill(f) {
      RebuiltIndexes(l, next, target, source, f, d);
    } else {
      PlainAdd(l, next, target, source, f, d);
    }
  }

  lemma {:induction false} AllIndexes(l: Lite, next: Schema, target: Model, source: Model, fs: seq<Field>, d: Disk)
    requires AllFresh(source, fs) && TargetOk(target, source) && Physical(source, d)
    requires AllOk(l, next, target, source, fs, d.table.value.rows)
    ensures var after := LiteExec(l, AddAll(next, target, source, fs), d);
            after.Some? && after.value.indexes == IndexesAfter(target, source, fs, d.indexes)
    decreases |fs|
  {
    if fs != [] {
      var f, rest, later := fs[0], fs[1..], Advance(source, fs[0]);
      AddOne(l, next, target, source, f, d);
      OneIndexes(l, next, target, source, f, d);
      AdvanceKeeps(target, source, f);
      LiteConcat(l, AddLite(next, target, source, f), AddAll(next, target, later, rest), d);
      var mid := LiteExec(l, AddLite(next, target, source, f), d).value;
      assert [f][1..] == [];
      assert mid.indexes == IndexesAfter(target, later, [], mid.indexes);
      AllIndexes(l, next, target, later, rest, mid);
    }
  }

  /** The last rebuild decides. */
  lemma {:induction false} LastRebuildDecides(target: Model, source: Model, a: seq<Field>, f: Field, b: seq<Field>, before: set<LiteIndex>)
    requires NeedsBackfill(f) && forall g :: g in b ==> !NeedsBackfill(g)
    ensures var made := Made(Final(source, a), f);
            IndexesAfter(target, source, a + [f] + b, before) == AllPossible(target, made)
    decreases |a|
  {
    if a == [] {
      assert (a + [f] + b)[0] == f && (a + [f] + b)[1..] == b;
      var made := Made(source, f);
      NoRebuild(target, Advance(source, f), b, AllPossible(target, made));
    } else {
      var all := a + [f] + b;
      assert all[0] == a[0] && all[1..] == a[1..] + [f] + b;
      LastRebuildDecides(target, Advance(source, a[0]), a[1..], f, b,
        if NeedsBackfill(a[0]) then AllPossible(target, Made(source, a[0]))
        else before);
    }
  }

  lemma {:induction false} NoRebuild(target: Model, source: Model, fs: seq<Field>, before: set<LiteIndex>)
    requires forall g :: g in fs ==> !NeedsBackfill(g)
    ensures IndexesAfter(target, source, fs, before) == before
    decreases |fs|
  {
    if fs != [] {
      assert fs[0] in fs;
      NoRebuild(target, Advance(source, fs[0]), fs[1..], before);
    }
  }

  /**
   When the index phase creates an index after the adds: its name must not be among those that
   a rebuild has created already, and its columns must be there.
   */
  lemma NewIndexTwice(l: Lite, next: Schema, target: Model, source: Model, fs: seq<Field>, d: Disk, name: string, over: seq<string>, unique: bool)
    requires AllFresh(source, fs) && TargetOk(target, source) && Physical(source, d)
    ensures LiteExec(l, AddAll(next, target, source, fs) + [Index(name, over, unique)], d).Some? <==>
              && AllOk(l, next, target, source, fs, d.table.value.rows)
              && !IndexNamed(IndexesAfter(target, source, fs, d.indexes), name)
              && forall x :: x in over ==> HasColumnNamed(Final(source, fs), x)
  {
    RunAddAll(l, next, target, source, fs, d);
    LiteConcat(l, AddAll(next, target, source, fs), [Index(name, over, unique)], d);
    if AllOk(l, next, target, source, fs, d.table.value.rows) {
      AllIndexes(l, next, target, source, fs, d);
      IndexCreated(l, Final(source, fs), LiteExec(l, AddAll(next, target, source, fs), d).value, name, over, unique);
    }
  }

  /** An index is created exactly under a free name, on columns that exist. */
  lemma IndexCreated(l: Lite, m: Model, d: Disk, name: string, over: seq<string>, unique: bool)
    requires Physical(m, d)
    ensures LiteExec(l, [Index(name, over, unique)], d).Some? <==> !IndexNamed(d.indexes, name) && forall x :: x in over ==> HasColumnNamed(m, x)
  {
    LiteOne(l, Index(name, over, unique), d);
    forall x ensures x in d.table.value.cols <==> HasColumnNamed(m, x) {
      PhysicalColumns(m, d, x);
    }
  }

  lemma PhysicalColumns(m: Model, d: Disk, x: string)
    requires Physical(m, d)
    ensures x in d.table.value.cols <==> HasColumnNamed(m, x)
  {
    if x in d.table.value.cols {
      assert HasColumnNamed(m, x);
    }
  }
}
