/**
 What a plan makes of the constraints, and when it can: computed from the changes and the
 constraints that are there, without running anything.
 */
module Outcome {
  import opened Names
  import opened Ir
  import opened Catalogue
  import opened Diff
  import opened Plan
  import opened Effects
  import opened Tidy
  import opened Phases
  import opened Fates
  import opened Constraints
  import opened Tables

  /** The columns that are dropped early, to make room for a column renamed onto their name. */
  function EarlyGone(next: Schema, all: seq<Change>): seq<Key> {
    SelectMembers(ClearingWay, all, all);
    KeysDropped(next, Select(ClearingWay, all, all))
  }

  /** The columns that are dropped after everything else about columns and constraints. */
  function LateGone(next: Schema, all: seq<Change>): seq<Key> {
    SelectMembers(Dropping, all, all);
    KeysDropped(next, Select(Dropping, all, all))
  }

  function Renamings(next: Schema, all: seq<Change>): map<Key, string> {
    SelectMembers(Renaming, all, all);
    MovedBy(next, Select(Renaming, all, all))
  }

  /** One constraint after the early drops and the renames. */
  function CarriedOver(d: Dialect, next: Schema, all: seq<Change>, k: ConKey, con: Con): Option<Con> {
    var left := Remains(d, KeySet(EarlyGone(next, all)), k, con);
    if left.None? then None else Some(Shifted(Renamings(next, all), k, left.value))
  }

  function Carried(d: Dialect, next: Schema, all: seq<Change>, cons: map<ConKey, Con>): map<ConKey, Con> {
    map k | k in cons && CarriedOver(d, next, all, k, cons[k]).Some? :: CarriedOver(d, next, all, k, cons[k]).value
  }

  function RenameList(all: seq<Change>): seq<Change> {
    Select(Renaming, all, all)
  }

  function AlterList(all: seq<Change>): seq<Change> {
    Select(Altering, all, all)
  }

  /** The primary keys that MySQL makes anew where an early drop has taken the old one along. */
  function Restored(d: Dialect, next: Schema, all: seq<Change>): map<ConKey, Con> {
    GainedBy(d, next, RenameList(all)) + GainedBy(d, next, AlterList(all))
  }

  /** The constraints when the constraint phases begin. */
  function Early(d: Dialect, next: Schema, all: seq<Change>, cons: map<ConKey, Con>): map<ConKey, Con> {
    Carried(d, next, all, cons) + Restored(d, next, all)
  }

  lemma RestoredKeys(d: Dialect, next: Schema, all: seq<Change>, k: ConKey)
    ensures k in Restored(d, next, all) ==> k.kind.PrimaryCon? && d.Mysql? && Restored(d, next, all)[k].OnColumns?
  {
    SelectMembers(Renaming, all, all);
    SelectMembers(Altering, all, all);
    GainedKeys(d, next, RenameList(all), k);
    GainedKeys(d, next, AlterList(all), k);
  }

  /** Apart from primary keys, nothing new joins. */
  lemma EarlyAt(d: Dialect, next: Schema, all: seq<Change>, cons: map<ConKey, Con>, k: ConKey)
    requires !k.kind.PrimaryCon?
    ensures k in Early(d, next, all, cons) <==> k in cons && CarriedOver(d, next, all, k, cons[k]).Some?
    ensures k in Early(d, next, all, cons) ==> Early(d, next, all, cons)[k] == CarriedOver(d, next, all, k, cons[k]).value
  {
    RestoredKeys(d, next, all, k);
  }

  function FkDrops(all: seq<Change>): seq<Change> {
    Select(DroppingFks, all, all)
  }

  function KeyDrops(all: seq<Change>): seq<Change> {
    Select(DroppingIndexes, all, all) + Select(DroppingUniques, all, all)
  }

  function KeyAdds(all: seq<Change>): seq<Change> {
    Select(AddingUniques, all, all) + Select(AddingIndexes, all, all)
  }

  function FkAdds(all: seq<Change>): seq<Change> {
    Select(AddingFks, all, all)
  }

  /** Without the foreign keys that are dropped. */
  function Unlinked(d: Dialect, next: Schema, all: seq<Change>, cons: map<ConKey, Con>): map<ConKey, Con> {
    Early(d, next, all, cons) - DroppedKeys(next, FkDrops(all))
  }

  /** With the new indexes and uniques instead of those that are dropped. */
  function Keyed(d: Dialect, next: Schema, all: seq<Change>, cons: map<ConKey, Con>): map<ConKey, Con> {
    (Unlinked(d, next, all, cons) - DroppedKeys(next, KeyDrops(all))) + AddedCons(next, KeyAdds(all))
  }

  /** With the new foreign keys. */
  function Linked(d: Dialect, next: Schema, all: seq<Change>, cons: map<ConKey, Con>): map<ConKey, Con> {
    Keyed(d, next, all, cons) + AddedCons(next, FkAdds(all))
  }

  /** The constraints that are left when the columns `gone` are dropped. */
  function Trimmed(d: Dialect, gone: set<Key>, cons: map<ConKey, Con>): map<ConKey, Con> {
    map k | k in cons && Remains(d, gone, k, cons[k]).Some? :: Remains(d, gone, k, cons[k]).value
  }

  /** After the late drops of columns. */
  function Final(d: Dialect, next: Schema, all: seq<Change>, cons: map<ConKey, Con>): map<ConKey, Con> {
    Trimmed(d, KeySet(LateGone(next, all)), Linked(d, next, all, cons))
  }

  predicate NonePinned(d: Dialect, keys: seq<Key>, cons: map<ConKey, Con>) {
    forall k :: k in cons ==> !Pinned(d, keys, k, cons[k])
  }

  /** A constraint stands in the way of the column phases. */
  predicate Blocked(d: Dialect, next: Schema, all: seq<Change>, k: ConKey, con: Con) {
    var left := Remains(d, KeySet(EarlyGone(next, all)), k, con);
    || Objected(d, next, Select(Adding, all, all), k, con)
    || Pinned(d, EarlyGone(next, all), k, con)
    || (left.Some? && Objected(d, next, RenameList(all), k, left.value))
    || (left.Some? && Objected(d, next, AlterList(all), k, Shifted(Renamings(next, all), k, left.value)))
  }

  predicate NoneBlocked(d: Dialect, next: Schema, all: seq<Change>, cons: map<ConKey, Con>) {
    forall k :: k in cons ==> !Blocked(d, next, all, k, cons[k])
  }

  /** No primary key is made anew twice, and none that is made anew stands in the way of an alter. */
  predicate KeysOnce(d: Dialect, next: Schema, all: seq<Change>) {
    forall k :: k in GainedBy(d, next, RenameList(all)) ==> !Objected(d, next, AlterList(all), k, GainedBy(d, next, RenameList(all))[k])
  }

  /** The foreign keys and other constraints of the tables that are dropped. */
  function Dying(drops: seq<Change>, cons: map<ConKey, Con>): map<ConKey, Con> {
    map k | k in cons && k.table in TablesOf(drops) :: cons[k]
  }

  /** Foreign-key checks are on during the migration, except inside the bracket of MySQL. */
  predicate Checked(d: Dialect, defer: bool) {
    !(d.Mysql? && defer)
  }

  /** MySQL knows no SET DEFAULT, and sets no required field to NULL. */
  predicate Allowed(d: Dialect, next: Schema, r: ResolvedRelation) {
    d.Mysql? ==>
      && !r.onDelete.SetDefault? && !r.onUpdate.SetDefault?
      && ((r.onDelete.SetNull? || r.onUpdate.SetNull?) && next.models.Has(r.owner) ==> Nullable(next.models.Get(r.owner), r.ownerCols))
  }

  /** The fields with these columns are optional. */
  predicate Nullable(m: Model, names: seq<string>) {
    forall n :: n in m.fields.entries && m.OwnsColumn(n) && m.Column(n) in names ==> m.fields.Get(n).optional
  }

  predicate FksCanJoin(d: Dialect, next: Schema, all: seq<Change>, cons: map<ConKey, Con>) {
    forall c :: c in FkAdds(all) && IsFkAdd(c) ==> KeyThere(d, c, cons) && Allowed(d, next, c.relation)
  }

  /** When the constraints let the plan run; `cons` includes the keys of the created tables. */
  predicate ConsReady(w: World, next: Schema, all: seq<Change>, o: Choices, defer: bool, cons: map<ConKey, Con>)
    requires forall c :: c in o.drops ==> c.DropModel?
  {
    var d := w.server;
    // No constraint stands in the way of the column phases, nor one of a dying model in the way of a late drop.
    && NoneBlocked(d, next, all, cons) && KeysOnce(d, next, all)
    && NonePinned(d, LateGone(next, all), Dying(o.drops, cons))
    // What is dropped by name is still there, not gone with an early dropped column.
    && AllFound(d, next, FkDrops(all) + KeyDrops(all), Early(d, next, all, cons))
    // No foreign key that stays holds on to a key that goes.
    && (Checked(d, defer) ==> !Held(w, Unlinked(d, next, all, cons), DroppedKeys(next, KeyDrops(all))))
    // A new foreign key refers to a key, and its server allows what it does.
    && FksCanJoin(d, next, all, Keyed(d, next, all, cons))
    // No table goes before those that refer to it.
    && (Checked(d, defer) ==> InOrder(o.cascade, o.drops, Dying(o.drops, cons)))
  }

  // ---- The column phases ------------------------------------------------------------------------------

  /** No change alters a column under a name that it no longer has. */
  predicate StillAlters(all: seq<Change>) {
    forall c :: c in all && c.AlterColumn? ==> c.from.column == c.to.column
  }

  /** The column phases consist of statements about columns. */
  lemma ColumnStmtsAbout(d: Dialect, next: Schema, all: seq<Change>)
    requires d.AltersDirectly() && Renderable(next, all)
    ensures AllAboutColumns(ColumnStmts(d, next, all)) && AllAboutColumns(PhaseStmts(d, next, Dropping, all))
  {
    SelectMembers(Adding, all, all);
    SelectMembers(ClearingWay, all, all);
    SelectMembers(Renaming, all, all);
    SelectMembers(Altering, all, all);
    SelectMembers(Dropping, all, all);
    RenderedAbout(d, next, Select(Adding, all, all));
    RenderedAbout(d, next, Select(ClearingWay, all, all));
    RenderedAbout(d, next, Select(Renaming, all, all));
    RenderedAbout(d, next, Select(Altering, all, all));
    RenderedAbout(d, next, Select(Dropping, all, all));
    var s1, s2 := PhaseStmts(d, next, Adding, all), PhaseStmts(d, next, ClearingWay, all);
    var s3, s4 := PhaseStmts(d, next, Renaming, all), PhaseStmts(d, next, Altering, all);
    AboutBoth(s3, s4);
    AboutBoth(s2, s3 + s4);
    AboutBoth(s1, s2 + (s3 + s4));
  }

  lemma PhaseNamed(prev: Schema, next: Schema, all: seq<Change>, p: Phase)
    requires TidySchemas(prev, next) && IsDiff(prev, next, all) && IsColumnPhase(p)
    ensures forall c :: c in Select(p, all, all) ==> WellNamed(next, c) && Scheduled(all, p, c) && CalledFor(prev, next, c)
    ensures PairwiseApart(next, Select(p, all, all))
  {
    SelectMembers(p, all, all);
    ScheduledCalledFor(prev, next, all, p);
    SelectNoDup(p, all, all);
    forall c | c in Select(p, all, all) ensures Scheduled(all, p, c) {}
    SelectionApart(prev, next, all, p, Select(p, all, all));
  }

  lemma RenamingsApart(prev: Schema, next: Schema, all: seq<Change>)
    requires TidySchemas(prev, next) && IsDiff(prev, next, all)
    ensures PairwiseApart(next, Select(Renaming, all, all))
    ensures forall c :: c in Select(Renaming, all, all) ==> c.RenameColumn? && WellNamed(next, c)
  {
    SelectMembers(Renaming, all, all);
    PhaseNamed(prev, next, all, Renaming);
  }

  /** The column phases' statements, and what kind of change each phase has. */
  lemma PhasesNamed(prev: Schema, next: Schema, all: seq<Change>)
    requires TidySchemas(prev, next) && IsDiff(prev, next, all) && StillAlters(all)
    ensures forall c :: c in Select(Adding, all, all) ==> c.AddColumn? && WellNamed(next, c) && Renameless(c)
    ensures forall c :: c in RenameList(all) ==> c.RenameColumn? && WellNamed(next, c)
    ensures forall c :: c in AlterList(all) ==> c.AlterColumn? && WellNamed(next, c) && Renameless(c)
    ensures PairwiseApart(next, RenameList(all)) && PairwiseApart(next, AlterList(all))
  {
    SelectMembers(Adding, all, all);
    SelectMembers(Renaming, all, all);
    SelectMembers(Altering, all, all);
    PhaseNamed(prev, next, all, Adding);
    PhaseNamed(prev, next, all, Renaming);
    PhaseNamed(prev, next, all, Altering);
  }

  /** What the four column phases make of one constraint. */
  lemma ColumnsFate(d: Dialect, prev: Schema, next: Schema, all: seq<Change>, k: ConKey, con: Con)
    requires d.AltersDirectly() && TidySchemas(prev, next) && IsDiff(prev, next, all) && Renderable(next, all)
    requires StillAlters(all)
    ensures FateOf(d, ColumnStmts(d, next, all), k, con) ==
            if Blocked(d, next, all, k, con) then Refused
            else if CarriedOver(d, next, all, k, con).None? then Lost else Stands(CarriedOver(d, next, all, k, con).value)
  {
    var s1, s2 := PhaseStmts(d, next, Adding, all), PhaseStmts(d, next, ClearingWay, all);
    var s3, s4 := PhaseStmts(d, next, Renaming, all), PhaseStmts(d, next, Altering, all);
    PhasesNamed(prev, next, all);
    SelectMembers(ClearingWay, all, all);
    StillFate(d, next, Select(Adding, all, all), k, con);
    RenderedDrops(d, next, Select(ClearingWay, all, all));
    DropsFate(d, EarlyGone(next, all), k, con);
    FateConcat(d, s1, s2 + (s3 + s4), k, con);
    FateConcat(d, s2, s3 + s4, k, con);
    var left := Remains(d, KeySet(EarlyGone(next, all)), k, con);
    if left.Some? {
      FateConcat(d, s3, s4, k, left.value);
      RenamesFate(d, next, RenameList(all), k, left.value);
      StillFate(d, next, AlterList(all), k, Shifted(Renamings(next, all), k, left.value));
    }
  }

  lemma ColumnsTell(d: Dialect, prev: Schema, next: Schema, all: seq<Change>, cons: map<ConKey, Con>)
    requires d.AltersDirectly() && TidySchemas(prev, next) && IsDiff(prev, next, all) && Renderable(next, all)
    requires StillAlters(all)
    ensures NoneRefused(d, ColumnStmts(d, next, all), cons) <==> NoneBlocked(d, next, all, cons)
    ensures NoneBlocked(d, next, all, cons) ==> Fared(d, ColumnStmts(d, next, all), cons) == Carried(d, next, all, cons)
  {
    var stmts := ColumnStmts(d, next, all);
    forall k | k in cons
      ensures FateOf(d, stmts, k, cons[k]).Refused? <==> Blocked(d, next, all, k, cons[k])
      ensures !Blocked(d, next, all, k, cons[k]) ==>
                FateOf(d, stmts, k, cons[k]) == if CarriedOver(d, next, all, k, cons[k]).None? then Lost
                                                else Stands(CarriedOver(d, next, all, k, cons[k]).value)
    {
      ColumnsFate(d, prev, next, all, k, cons[k]);
    }
    FatesTell(d, next, all, stmts, cons);
  }

  lemma FatesTell(d: Dialect, next: Schema, all: seq<Change>, stmts: seq<Stmt>, cons: map<ConKey, Con>)
    requires forall k :: k in cons ==>
               && (FateOf(d, stmts, k, cons[k]).Refused? <==> Blocked(d, next, all, k, cons[k]))
               && (!Blocked(d, next, all, k, cons[k]) ==>
                     FateOf(d, stmts, k, cons[k]) == if CarriedOver(d, next, all, k, cons[k]).None? then Lost
                                                     else Stands(CarriedOver(d, next, all, k, cons[k]).value))
    ensures NoneRefused(d, stmts, cons) <==> NoneBlocked(d, next, all, cons)
    ensures NoneBlocked(d, next, all, cons) ==> Fared(d, stmts, cons) == Carried(d, next, all, cons)
  {}

  // ---- Primary keys made anew ---------------------------------------------------------------------------

  /** A model has one `@id` field at most. */
  lemma OneId(next: Schema, m: ModelName, n: FieldName, k: FieldName)
    requires next.Valid() && next.models.Has(m)
    requires next.models.Get(m).fields.Has(n) && next.models.Get(m).fields.Get(n).isId
    requires next.models.Get(m).fields.Has(k) && next.models.Get(m).fields.Get(k).isId
    ensures n == k
  {
    var q := next.models.Get(m);
    assert q.HasOneKey();
    assert q.primary == [n] && q.primary == [k];
    assert q.primary[0] == n;
  }

  /** So no phase restates the key of a table twice. */
  lemma PhaseKeysApart(d: Dialect, prev: Schema, next: Schema, all: seq<Change>, p: Phase)
    requires TidySchemas(prev, next) && IsDiff(prev, next, all) && (p.Renaming? || p.Altering?)
    ensures KeysApart(d, next, Select(p, all, all))
  {
    var cs := Select(p, all, all);
    PhaseNamed(prev, next, all, p);
    SelectMembers(p, all, all);
    SelectNoDup(p, all, all);
    forall i, j | 0 <= i < j < |cs| && KeyStmt(d, next, cs[i]) && KeyStmt(d, next, cs[j])
      ensures next.Table(cs[i].model) != next.Table(cs[j].model)
    {
      assert cs[i] in cs && cs[j] in cs && cs[i] != cs[j];
      if cs[i].model == cs[j].model {
        SameKeyStmt(d, prev, next, p, cs[i], cs[j]);
      } else {
        DistinctTables(next, cs[i].model, cs[j].model);
      }
    }
  }

  lemma SameKeyStmt(d: Dialect, prev: Schema, next: Schema, p: Phase, c: Change, e: Change)
    requires TidySchemas(prev, next) && CalledFor(prev, next, c) && CalledFor(prev, next, e) && c.model == e.model
    requires (p.Renaming? && c.RenameColumn? && e.RenameColumn?) || (p.Altering? && c.AlterColumn? && e.AlterColumn?)
    requires KeyStmt(d, next, c) && KeyStmt(d, next, e)
    ensures c == e
  {
    if p.Renaming? {
      OneId(next, c.model, c.toName, e.toName);
    } else {
      OneId(next, c.model, c.to.name, e.to.name);
    }
  }

  /** Nothing but the early drops leaves a table without a key, so no key comes with an added column. */
  predicate KeyAddsMeet(d: Dialect, next: Schema, all: seq<Change>, cons: map<ConKey, Con>) {
    forall c :: c in all && c.AddColumn? && KeyStmt(d, next, c) ==> PrimaryOf(next.Table(c.model)) in cons
  }

  lemma KeyAddBlocked(d: Dialect, next: Schema, all: seq<Change>, c: Change, con: Con)
    requires c in Select(Adding, all, all) && KeyStmt(d, next, c) && c.AddColumn?
    ensures Blocked(d, next, all, PrimaryOf(next.Table(c.model)), con)
  {
    assert ChangeObjects(d, next, c, PrimaryOf(next.Table(c.model)), con);
  }

  lemma NoKeyAdds(d: Dialect, next: Schema, all: seq<Change>, cons: map<ConKey, Con>, c: Change)
    requires KeyAddsMeet(d, next, all, cons) && NoneBlocked(d, next, all, cons)
    requires c in Select(Adding, all, all)
    ensures !KeyStmt(d, next, c)
  {
    SelectMembers(Adding, all, all);
    if KeyStmt(d, next, c) {
      KeyAddBlocked(d, next, all, c, cons[PrimaryOf(next.Table(c.model))]);
    }
  }

  lemma PlainAddGains(d: Dialect, next: Schema, c: Change)
    requires d.AltersDirectly() && Renderable(next, [c]) && WellNamed(next, c) && c.AddColumn? && !KeyStmt(d, next, c)
    ensures forall s :: s in Render(d, next, c) ==> Gain(s) == map[]
  {}

  lemma {:induction false} PlainAddsGain(d: Dialect, next: Schema, cs: seq<Change>)
    requires d.AltersDirectly() && Renderable(next, cs)
    requires forall c :: c in cs ==> WellNamed(next, c) && c.AddColumn? && !KeyStmt(d, next, c)
    ensures forall s :: s in RenderAll(d, next, cs) ==> Gain(s) == map[]
  {
    if cs != [] {
      assert cs[0] in cs;
      RenderableOne(next, cs);
      PlainAddGains(d, next, cs[0]);
      PlainAddsGain(d, next, cs[1..]);
    }
  }

  /** The primary keys that the renames and alters bring along. */
  lemma RestateRun(d: Dialect, prev: Schema, next: Schema, all: seq<Change>)
    requires d.AltersDirectly() && TidySchemas(prev, next) && IsDiff(prev, next, all) && Renderable(next, all)
    requires StillAlters(all)
    ensures ConsRun(d, PhaseStmts(d, next, Renaming, all) + PhaseStmts(d, next, Altering, all), map[]) ==
            if KeysOnce(d, next, all) then Some(Restored(d, next, all)) else None
  {
    var s3, s4 := PhaseStmts(d, next, Renaming, all), PhaseStmts(d, next, Altering, all);
    SelectMembers(Renaming, all, all);
    PhasesNamed(prev, next, all);
    PhaseKeysApart(d, prev, next, all, Renaming);
    PhaseKeysApart(d, prev, next, all, Altering);
    RunGains(d, next, RenameList(all));
    ConsConcat(d, s3, s4, map[]);
    AltersAfter(d, next, all, GainedBy(d, next, RenameList(all)));
  }

  /** The alters leave the keys that are there alone, or one of these stands in the way. */
  lemma AltersAfter(d: Dialect, next: Schema, all: seq<Change>, gained: map<ConKey, Con>)
    requires d.AltersDirectly() && Renderable(next, all) && KeysApart(d, next, AlterList(all)) && PairwiseApart(next, AlterList(all))
    requires forall c :: c in AlterList(all) ==> c.AlterColumn? && WellNamed(next, c) && Renameless(c)
    ensures ConsRun(d, PhaseStmts(d, next, Altering, all), gained) ==
            if forall k :: k in gained ==> !Objected(d, next, AlterList(all), k, gained[k])
            then Some(gained + GainedBy(d, next, AlterList(all))) else None
  {
    SelectMembers(Altering, all, all);
    var s4 := PhaseStmts(d, next, Altering, all);
    RunGains(d, next, AlterList(all));
    RunFromNothing(d, s4, gained);
    forall k | k in gained
      ensures FateOf(d, s4, k, gained[k]) == if Objected(d, next, AlterList(all), k, gained[k]) then Refused else Stands(gained[k])
    {
      StillFate(d, next, AlterList(all), k, gained[k]);
    }
    StillFared(d, s4, gained);
  }

  lemma StillFared(d: Dialect, stmts: seq<Stmt>, cons: map<ConKey, Con>)
    requires forall k :: k in cons ==> FateOf(d, stmts, k, cons[k]).Refused? || FateOf(d, stmts, k, cons[k]) == Stands(cons[k])
    ensures NoneRefused(d, stmts, cons) ==> Fared(d, stmts, cons) == cons
  {}

  /** What the column phases make of all constraints. */
  lemma ColumnsFared(d: Dialect, prev: Schema, next: Schema, all: seq<Change>, cons: map<ConKey, Con>)
    requires d.AltersDirectly() && TidySchemas(prev, next) && IsDiff(prev, next, all) && Renderable(next, all)
    requires StillAlters(all) && KeyAddsMeet(d, next, all, cons)
    ensures ConsRun(d, ColumnStmts(d, next, all), cons) ==
            if NoneBlocked(d, next, all, cons) && KeysOnce(d, next, all) then Some(Early(d, next, all, cons)) else None
  {
    ColumnsTell(d, prev, next, all, cons);
    RunFromNothing(d, ColumnStmts(d, next, all), cons);
    if NoneBlocked(d, next, all, cons) {
      PhasesNamed(prev, next, all);
      forall c | c in Select(Adding, all, all) ensures !KeyStmt(d, next, c) {
        NoKeyAdds(d, next, all, cons, c);
      }
      ColumnsGain(d, prev, next, all);
    }
  }

  /** If no key comes with an added column, the keys of the column phases are those restated. */
  lemma ColumnsGain(d: Dialect, prev: Schema, next: Schema, all: seq<Change>)
    requires d.AltersDirectly() && TidySchemas(prev, next) && IsDiff(prev, next, all) && Renderable(next, all)
    requires StillAlters(all) && forall c :: c in Select(Adding, all, all) ==> !KeyStmt(d, next, c)
    ensures ConsRun(d, ColumnStmts(d, next, all), map[]) == if KeysOnce(d, next, all) then Some(Restored(d, next, all)) else None
  {
    var s1, s2 := PhaseStmts(d, next, Adding, all), PhaseStmts(d, next, ClearingWay, all);
    var s3, s4 := PhaseStmts(d, next, Renaming, all), PhaseStmts(d, next, Altering, all);
    PhasesNamed(prev, next, all);
    SelectMembers(ClearingWay, all, all);
    PlainAddsGain(d, next, Select(Adding, all, all));
    DropsGainNothing(d, next, Select(ClearingWay, all, all));
    SkipIdle(d, s2, s3 + s4);
    SkipIdle(d, s1, s2 + (s3 + s4));
    RestateRun(d, prev, next, all);
  }

  lemma DropsGainNothing(d: Dialect, next: Schema, cs: seq<Change>)
    requires Renderable(next, cs) && forall c :: c in cs ==> c.DropColumn?
    ensures forall s :: s in RenderAll(d, next, cs) ==> Gain(s) == map[]
  {
    RenderedDrops(d, next, cs);
  }

  lemma SkipIdle(d: Dialect, idle: seq<Stmt>, rest: seq<Stmt>)
    requires forall s :: s in idle ==> Gain(s) == map[]
    ensures ConsRun(d, idle + rest, map[]) == ConsRun(d, rest, map[])
  {
    NothingGained(d, idle);
    ConsConcat(d, idle, rest, map[]);
  }

  lemma DropsFared(d: Dialect, keys: seq<Key>, cons: map<ConKey, Con>)
    ensures ConsRun(d, DropAll(keys), cons) == if NonePinned(d, keys, cons) then Some(Trimmed(d, KeySet(keys), cons)) else None
  {
    forall k | k in cons
      ensures FateOf(d, DropAll(keys), k, cons[k]) ==
              if Pinned(d, keys, k, cons[k]) then Refused
              else if Remains(d, KeySet(keys), k, cons[k]).None? then Lost
              else Stands(Remains(d, KeySet(keys), k, cons[k]).value)
    {
      DropsFate(d, keys, k, cons[k]);
    }
    RunFromNothing(d, DropAll(keys), cons);
    NothingGained(d, DropAll(keys));
    DropsTell(d, keys, cons);
    if NonePinned(d, keys, cons) {
      assert Trimmed(d, KeySet(keys), cons) + map[] == Trimmed(d, KeySet(keys), cons);
    }
  }

  lemma DropsTell(d: Dialect, keys: seq<Key>, cons: map<ConKey, Con>)
    requires forall k :: k in cons ==>
               FateOf(d, DropAll(keys), k, cons[k]) ==
               if Pinned(d, keys, k, cons[k]) then Refused
               else if Remains(d, KeySet(keys), k, cons[k]).None? then Lost
               else Stands(Remains(d, KeySet(keys), k, cons[k]).value)
    ensures NoneRefused(d, DropAll(keys), cons) <==> NonePinned(d, keys, cons)
    ensures NonePinned(d, keys, cons) ==> Fared(d, DropAll(keys), cons) == Trimmed(d, KeySet(keys), cons)
  {}

  /** The late drops. */
  lemma LateFared(d: Dialect, next: Schema, all: seq<Change>, cons: map<ConKey, Con>)
    requires Renderable(next, all)
    ensures ConsRun(d, PhaseStmts(d, next, Dropping, all), cons) ==
            if NonePinned(d, LateGone(next, all), cons) then Some(Trimmed(d, KeySet(LateGone(next, all)), cons)) else None
  {
    SelectMembers(Dropping, all, all);
    RenderedDrops(d, next, Select(Dropping, all, all));
    DropsFared(d, LateGone(next, all), cons);
  }
}
