/**
 The column phases of a plan, seen from one surviving model: what each phase does to the
 columns of its table, in terms of the fields of the two models.
 */
module Phases {
  import opened Names
  import opened Ir
  import opened Catalogue
  import opened Diff
  import opened Plan
  import opened Effects
  import opened Tidy

  // ---- Which column names a phase is about ----------------------------------------------------

  /** A rename is emitted for `n`. */
  predicate Renames(prev: Model, next: Model, n: FieldName) {
    Hinted(prev, next, n) || Moves(prev, next, n)
  }

  /** An alter is emitted for `n`. */
  predicate Alters(prev: Model, next: Model, n: FieldName) {
    Continued(prev, next, n) && ColumnAspects(FromField(prev, next, n), next.fields.Get(n)) != []
  }

  ghost predicate NameAdded(prev: Model, next: Model, x: string) {
    exists n :: Added(prev, next, n) && next.Column(n) == x
  }

  ghost predicate NameDropped(prev: Model, next: Model, x: string) {
    exists o :: Dropped(prev, next, o) && prev.Column(o) == x
  }

  /** Some column moves onto `x`. */
  ghost predicate NameWanted(prev: Model, next: Model, x: string) {
    exists n :: Moves(prev, next, n) && next.Column(n) == x
  }

  ghost predicate NameRenamed(prev: Model, next: Model, x: string) {
    exists n :: Renames(prev, next, n) && (prev.Column(Source(prev, next, n)) == x || next.Column(n) == x)
  }

  ghost predicate NameAltered(prev: Model, next: Model, x: string) {
    exists n :: Alters(prev, next, n) && (FromField(prev, next, n).column == x || next.Column(n) == x)
  }

  // ---- The emitted changes of one model ---------------------------------------------------------

  function RenameChange(m: ModelName, prev: Model, next: Model, n: FieldName): Change
    requires Renames(prev, next, n)
  {
    var src := Source(prev, next, n);
    RenameColumn(m, src, n, prev.Column(src), next.Column(n))
  }

  function AlterChange(m: ModelName, prev: Model, next: Model, n: FieldName): Change
    requires Alters(prev, next, n)
  {
    var from, to := FromField(prev, next, n), next.fields.Get(n);
    AlterColumn(m, from, to, ColumnAspects(from, to))
  }

  lemma HereWithin(prev: Schema, next: Schema, m: ModelName, c: Change)
    requires Surviving(prev, next, m) && EmittedWithin(m, prev.models.Get(m), next.models.Get(m), c) && IsColumnChange(c) && c.model == m
    ensures Emitted(prev, next, c)
  {}

  lemma EmittedHere(prev: Schema, next: Schema, m: ModelName, n: FieldName)
    requires prev.Valid() && next.Valid() && Surviving(prev, next, m)
    ensures var p, q := prev.models.Get(m), next.models.Get(m);
            && (Added(p, q, n) ==> Emitted(prev, next, AddColumn(m, q.fields.Get(n))))
            && (Dropped(p, q, n) ==> Emitted(prev, next, DropColumn(m, p.Column(n))))
            && (Renames(p, q, n) ==> Emitted(prev, next, RenameChange(m, p, q, n)))
            && (Alters(p, q, n) ==> Emitted(prev, next, AlterChange(m, p, q, n)))
  {
    var p, q := prev.models.Get(m), next.models.Get(m);
    if Added(p, q, n) {
      HereWithin(prev, next, m, AddColumn(m, q.fields.Get(n)));
    }
    if Dropped(p, q, n) {
      assert n in p.fields.keys;
      HereWithin(prev, next, m, DropColumn(m, p.Column(n)));
    }
    if Renames(p, q, n) {
      HereWithin(prev, next, m, RenameChange(m, p, q, n));
    }
    if Alters(p, q, n) {
      HereWithin(prev, next, m, AlterChange(m, p, q, n));
    }
  }

  /** Conversely, an emitted change of `m` comes from a field in the corresponding role. */
  lemma EmittedRole(prev: Schema, next: Schema, c: Change)
    requires prev.Valid() && next.Valid() && Emitted(prev, next, c) && IsColumnChange(c)
    ensures Surviving(prev, next, c.model)
    ensures var p, q := prev.models.Get(c.model), next.models.Get(c.model);
            match c
            case AddColumn(_, f) => Added(p, q, f.name) && f == q.fields.Get(f.name)
            case DropColumn(_, x) => NameDropped(p, q, x)
            case RenameColumn(_, _, n, _, _) => Renames(p, q, n) && c == RenameChange(c.model, p, q, n)
            case AlterColumn(_, _, f, _) => Alters(p, q, f.name) && c == AlterChange(c.model, p, q, f.name)
  {
    EmittedColumnChange(prev, next, c);
  }

  lemma DropInDiff(prev: Schema, next: Schema, all: seq<Change>, m: ModelName, x: string)
    requires prev.Valid() && next.Valid() && IsDiff(prev, next, all) && Surviving(prev, next, m)
    requires NameDropped(prev.models.Get(m), next.models.Get(m), x)
    ensures DropColumn(m, x) in all
  {
    var o :| Dropped(prev.models.Get(m), next.models.Get(m), o) && prev.models.Get(m).Column(o) == x;
    EmittedHere(prev, next, m, o);
  }

  /** A drop is shadowed exactly when some column moves onto its name. */
  lemma ShadowedMeansWanted(prev: Schema, next: Schema, all: seq<Change>, m: ModelName, x: string)
    requires prev.Valid() && next.Valid() && IsDiff(prev, next, all) && Surviving(prev, next, m)
    ensures IsShadowedDrop(all, m, x) <==> NameWanted(prev.models.Get(m), next.models.Get(m), x)
  {
    var p, q := prev.models.Get(m), next.models.Get(m);
    if IsShadowedDrop(all, m, x) {
      var c :| c in all && c.RenameColumn? && c.model == m && c.toColumn == x && c.fromColumn != x;
      assert Emitted(prev, next, c);
      EmittedRole(prev, next, c);
      assert Moves(p, q, c.toName);
    }
    if NameWanted(p, q, x) {
      var n :| Moves(p, q, n) && q.Column(n) == x;
      EmittedHere(prev, next, m, n);
      assert RenameChange(m, p, q, n) in all;
    }
  }

  // ---- Running one phase ---------------------------------------------------------------------------

  predicate IsColumnPhase(p: Phase) {
    p.Adding? || p.ClearingWay? || p.Renaming? || p.Altering? || p.Dropping?
  }

  predicate Scheduled(all: seq<Change>, p: Phase, c: Change) {
    c in all && InPhase(p, all, c)
  }

  /** No change of the phase is about `k`. */
  ghost predicate Quiet(next: Schema, all: seq<Change>, p: Phase, k: Key) {
    forall c :: Scheduled(all, p, c) ==> WellNamed(next, c) && !Touches(next, c, k)
  }

  ghost predicate AllAnchored(next: Schema, all: seq<Change>, p: Phase, cols: map<Key, Column>) {
    forall c :: Scheduled(all, p, c) ==> WellNamed(next, c) && Anchored(next, c, cols)
  }

  /** Every change of the phase can run. */
  ghost predicate Clear(w: World, d: Dialect, next: Schema, all: seq<Change>, p: Phase, before: Catalog) {
    forall c :: Scheduled(all, p, c) ==> WellNamed(next, c) && !EffectOf(w, d, next, c, before).Stuck?
  }

  ghost predicate PhaseDone(w: World, d: Dialect, next: Schema, all: seq<Change>, p: Phase, before: Catalog, after: Catalog) {
    && after == before.(cols := after.cols)
    && (forall c :: Scheduled(all, p, c) ==>
          WellNamed(next, c) && Settled(next, c, EffectOf(w, d, next, c, before), after.cols))
    && (forall k {:trigger Quiet(next, all, p, k)} :: Quiet(next, all, p, k) ==> Lookup(after.cols, k) == Lookup(before.cols, k))
  }

  /** A column change that the diff calls for. */
  predicate CalledFor(prev: Schema, next: Schema, c: Change) {
    && WellNamed(next, c) && Surviving(prev, next, c.model)
    && EmittedColumn(c.model, prev.models.Get(c.model), next.models.Get(c.model), c)
  }

  lemma ScheduledCalledFor(prev: Schema, next: Schema, all: seq<Change>, p: Phase)
    requires IsDiff(prev, next, all) && IsColumnPhase(p)
    ensures forall c :: Scheduled(all, p, c) ==> CalledFor(prev, next, c)
  {
    forall c | Scheduled(all, p, c) ensures CalledFor(prev, next, c) {
      assert Emitted(prev, next, c);
      EmittedWellNamed(prev, next, c);
      EmittedColumnChange(prev, next, c);
    }
  }

  lemma SelectionApart(prev: Schema, next: Schema, all: seq<Change>, p: Phase, cs: seq<Change>)
    requires TidySchemas(prev, next) && IsColumnPhase(p) && NoDup(cs)
    requires forall c :: c in cs ==> Scheduled(all, p, c) && CalledFor(prev, next, c)
    ensures PairwiseApart(next, cs)
  {
    forall i, j | 0 <= i < j < |cs|
      ensures Separate(next, cs[i], cs[j])
    {
      var c, e := cs[i], cs[j];
      assert c in cs && e in cs;
      ApartEmitted(prev, next, c, e);
    }
  }

  lemma PhaseIndependent(prev: Schema, next: Schema, all: seq<Change>, p: Phase, cols: map<Key, Column>)
    requires TidySchemas(prev, next) && NoDup(all) && IsColumnPhase(p)
    requires forall c :: Scheduled(all, p, c) ==> CalledFor(prev, next, c)
    requires AllAnchored(next, all, p, cols)
    ensures Independent(next, Select(p, all, all), cols)
  {
    var cs := Select(p, all, all);
    SelectMembers(p, all, all);
    SelectNoDup(p, all, all);
    forall c | c in cs ensures Scheduled(all, p, c) {}
    SelectionApart(prev, next, all, p, cs);
  }

  lemma RunScheduled(w: World, d: Dialect, prev: Schema, next: Schema, all: seq<Change>, p: Phase, before: Catalog)
    requires d.AltersDirectly() && TidySchemas(prev, next) && IsDiff(prev, next, all) && Renderable(next, all)
    requires IsColumnPhase(p) && AllAnchored(next, all, p, before.cols)
    ensures DataExec(w, PhaseStmts(d, next, p, all), before).Some? <==> Clear(w, d, next, all, p, before)
    ensures Clear(w, d, next, all, p, before) ==>
              PhaseDone(w, d, next, all, p, before, DataExec(w, PhaseStmts(d, next, p, all), before).value)
  {
    var cs := Select(p, all, all);
    SelectMembers(p, all, all);
    ScheduledCalledFor(prev, next, all, p);
    PhaseIndependent(prev, next, all, p, before.cols);
    RunPhase(w, d, next, cs, before);
    forall c ensures c in cs <==> Scheduled(all, p, c) {}
    assert Runnable(w, d, next, cs, before) <==> Clear(w, d, next, all, p, before);
    if Clear(w, d, next, all, p, before) {
      var after := DataExec(w, PhaseStmts(d, next, p, all), before).value;
      forall k | Quiet(next, all, p, k) ensures Lookup(after.cols, k) == Lookup(before.cols, k) {
        assert Untouched(next, cs, k);
      }
    }
  }

  /** The phase is about the column name `x` of this model. */
  ghost predicate Involved(p: Phase, prev: Model, next: Model, x: string) {
    match p
    case Adding => NameAdded(prev, next, x)
    case ClearingWay => NameDropped(prev, next, x) && NameWanted(prev, next, x)
    case Renaming => NameRenamed(prev, next, x)
    case Altering => NameAltered(prev, next, x)
    case Dropping => NameDropped(prev, next, x) && !NameWanted(prev, next, x)
    case _ => false
  }

  lemma TouchedTable(next: Schema, c: Change, m: ModelName, x: string)
    requires next.Valid() && WellNamed(next, c) && next.models.Has(m)
    requires Touches(next, c, Key(next.Table(m), x))
    ensures c.model == m && (x == FromColumn(c) || x == ToColumn(c))
  {}

  lemma QuietName(prev: Schema, next: Schema, all: seq<Change>, p: Phase, m: ModelName, x: string)
    requires TidySchemas(prev, next) && IsDiff(prev, next, all) && IsColumnPhase(p) && Surviving(prev, next, m)
    requires !Involved(p, prev.models.Get(m), next.models.Get(m), x)
    ensures Quiet(next, all, p, Key(next.Table(m), x))
  {
    var q, r := prev.models.Get(m), next.models.Get(m);
    forall c | Scheduled(all, p, c) ensures WellNamed(next, c) && !Touches(next, c, Key(next.Table(m), x)) {
      assert Emitted(prev, next, c);
      EmittedWellNamed(prev, next, c);
      if Touches(next, c, Key(next.Table(m), x)) {
        TouchedTable(next, c, m, x);
        EmittedRole(prev, next, c);
        ShadowedMeansWanted(prev, next, all, m, x);
        RoleInvolved(all, p, c, q, r, x);
      }
    }
  }

  lemma RoleInvolved(all: seq<Change>, p: Phase, c: Change, prev: Model, next: Model, x: string)
    requires IsColumnPhase(p) && IsColumnChange(c) && InPhase(p, all, c)
    requires x == FromColumn(c) || x == ToColumn(c)
    requires IsShadowedDrop(all, c.model, x) <==> NameWanted(prev, next, x)
    requires match c
             case AddColumn(_, f) => Added(prev, next, f.name) && f == next.fields.Get(f.name)
             case DropColumn(_, y) => NameDropped(prev, next, y)
             case RenameColumn(_, _, n, _, _) => Renames(prev, next, n) && c == RenameChange(c.model, prev, next, n)
             case AlterColumn(_, _, f, _) => Alters(prev, next, f.name) && c == AlterChange(c.model, prev, next, f.name)
    ensures Involved(p, prev, next, x)
  {}
}
