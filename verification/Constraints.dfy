/**
 The constraint phases of a plan: all drops come before all adds, so that a reused name
 never collides. When each of them runs, and what it leaves.
 */
module Constraints {
  import opened Ir
  import opened Catalogue
  import opened Plan

  predicate IsConDrop(c: Change) {
    c.DropIndex? || c.DropUnique? || (c.DropForeignKey? && !c.relation.kind.ManyToMany?)
  }

  predicate IsConAdd(c: Change) {
    c.CreateIndex? || c.AddUnique? || (c.AddForeignKey? && !c.relation.kind.ManyToMany?)
  }

  predicate OnModel(next: Schema, c: Change) {
    (IsConDrop(c) || IsConAdd(c)) && next.models.Has(c.model)
  }

  function ConKeyOf(next: Schema, c: Change): ConKey
    requires OnModel(next, c)
  {
    ConKeyOn(next.Table(c.model), c)
  }

  function ConKeyOn(t: string, c: Change): ConKey
    requires IsConDrop(c) || IsConAdd(c)
  {
    match c
    case CreateIndex(_, ix) => ConKey(IndexCon, t, ix.dbName)
    case DropIndex(_, name) => ConKey(IndexCon, t, name)
    case AddUnique(_, uq) => ConKey(UniqueCon, t, uq.dbName)
    case DropUnique(_, name) => ConKey(UniqueCon, t, name)
    case AddForeignKey(_, r) => ConKey(ForeignKeyCon, t, r.constraintName)
    case DropForeignKey(_, r) => ConKey(ForeignKeyCon, t, r.constraintName)
  }

  function ConOf(m: Model, c: Change): Con
    requires IsConAdd(c)
  {
    match c
    case CreateIndex(_, ix) => OnColumns(TargetColumns(m, ix.targets))
    case AddUnique(_, uq) => OnColumns(TargetColumns(m, uq.targets))
    case AddForeignKey(_, r) =>
      References(FkDef(ownerCols := r.ownerCols, targetTable := r.targetTable, targetCols := r.targetCols,
                       onDelete := r.onDelete, onUpdate := r.onUpdate))
  }

  /** Every table and column that the new constraint mentions is there. */
  predicate SupportedOn(m: Model, c: Change, rows: map<string, nat>, cols: map<Key, Column>)
    requires IsConAdd(c)
  {
    && m.table in rows
    && match c
       case CreateIndex(_, ix) => HasColumns(cols, m.table, TargetColumns(m, ix.targets))
       case AddUnique(_, uq) => HasColumns(cols, m.table, TargetColumns(m, uq.targets))
       case AddForeignKey(_, r) =>
         && r.targetTable in rows
         && HasColumns(cols, m.table, r.ownerCols) && HasColumns(cols, r.targetTable, r.targetCols)
  }

  predicate Supported(next: Schema, c: Change, cat: Catalog)
    requires IsConAdd(c) && OnModel(next, c)
  {
    SupportedOn(next.models.Get(c.model), c, cat.rows, cat.cols)
  }

  ghost predicate DistinctKeys(next: Schema, cs: seq<Change>)
    requires forall c :: c in cs ==> OnModel(next, c)
  {
    forall i, j :: 0 <= i < j < |cs| ==> ConKeyOf(next, cs[i]) != ConKeyOf(next, cs[j])
  }

  lemma DistinctTail(next: Schema, cs: seq<Change>)
    requires cs != [] && (forall c :: c in cs ==> OnModel(next, c)) && DistinctKeys(next, cs)
    ensures DistinctKeys(next, cs[1..])
    ensures forall e :: e in cs[1..] ==> ConKeyOf(next, e) != ConKeyOf(next, cs[0])
  {}

  // ---- Drops ------------------------------------------------------------------------------------

  function DroppedKeys(next: Schema, cs: seq<Change>): set<ConKey> {
    set c | c in cs && OnModel(next, c) :: ConKeyOf(next, c)
  }

  lemma DroppedKeysCons(next: Schema, c: Change, rest: seq<Change>)
    requires OnModel(next, c)
    ensures DroppedKeys(next, [c] + rest) == {ConKeyOf(next, c)} + DroppedKeys(next, rest)
  {
    assert forall e :: e in [c] + rest <==> e == c || e in rest;
  }

  /** `DROP INDEX IF EXISTS` of Postgres. */
  predicate MayBeMissing(d: Dialect, c: Change) {
    d.Postgres? && c.DropIndex?
  }

  predicate AllFound(d: Dialect, next: Schema, cs: seq<Change>, cons: map<ConKey, Con>) {
    forall c :: c in cs && OnModel(next, c) ==> ConKeyOf(next, c) in cons || MayBeMissing(d, c)
  }

  lemma FoundCons(d: Dialect, next: Schema, c: Change, rest: seq<Change>, cons: map<ConKey, Con>)
    requires OnModel(next, c)
    requires forall e :: e in rest ==> OnModel(next, e) && ConKeyOf(next, e) != ConKeyOf(next, c)
    ensures AllFound(d, next, [c] + rest, cons) <==>
              (ConKeyOf(next, c) in cons || MayBeMissing(d, c)) && AllFound(d, next, rest, cons - {ConKeyOf(next, c)})
  {
    var k := ConKeyOf(next, c);
    assert c in [c] + rest;
    forall e | e in rest ensures ConKeyOf(next, e) in cons - {k} <==> ConKeyOf(next, e) in cons {}
    if AllFound(d, next, rest, cons - {k}) && (k in cons || MayBeMissing(d, c)) {
      forall e | e in [c] + rest && OnModel(next, e) ensures ConKeyOf(next, e) in cons || MayBeMissing(d, e) {
        assert e == c || e in rest;
      }
    }
    if AllFound(d, next, [c] + rest, cons) {
      forall e | e in rest && OnModel(next, e) ensures ConKeyOf(next, e) in cons - {k} || MayBeMissing(d, e) {
        assert e in [c] + rest;
      }
    }
  }

  lemma RunOneDrop(w: World, d: Dialect, m: Model, c: Change, cat: Catalog)
    requires IsConDrop(c)
    ensures var k := ConKeyOn(m.table, c);
            Exec(w, RenderCon(d, m, c), cat) ==
            if (k in cat.cons || MayBeMissing(d, c)) && !(cat.checks && Held(w, cat.cons, {k}))
            then Some(cat.(cons := cat.cons - {k})) else None
  {
    ExecOne(w, RenderCon(d, m, c)[0], cat);
  }

  /** A foreign key is no key that another one could need. */
  lemma FkUnheld(w: World, cons: map<ConKey, Con>, k: ConKey)
    requires k in cons ==> cons[k].References?
    ensures !Held(w, cons, {k})
  {}

  predicate IsFkDrop(c: Change) {
    c.DropForeignKey? && !c.relation.kind.ManyToMany?
  }

  /** The statements of one drop, then of the others. */
  lemma RunDropHead(w: World, d: Dialect, next: Schema, c: Change, rest: seq<Change>, cat: Catalog)
    requires IsConDrop(c) && OnModel(next, c) && Renderable(next, [c] + rest) && Renderable(next, rest)
    ensures var k := ConKeyOf(next, c);
            Exec(w, RenderAll(d, next, [c] + rest), cat) ==
            if (k in cat.cons || MayBeMissing(d, c)) && !(cat.checks && Held(w, cat.cons, {k}))
            then Exec(w, RenderAll(d, next, rest), cat.(cons := cat.cons - {k})) else None
  {
    assert ([c] + rest)[1..] == rest;
    RunOneDrop(w, d, next.models.Get(c.model), c, cat);
    ExecConcat(w, Render(d, next, c), RenderAll(d, next, rest), cat);
  }

  lemma DropKeysHead(d: Dialect, next: Schema, cs: seq<Change>, cons: map<ConKey, Con>)
    requires cs != [] && (forall c :: c in cs ==> IsConDrop(c) && OnModel(next, c)) && DistinctKeys(next, cs)
    ensures cs[0] in cs && DistinctKeys(next, cs[1..]) && cs == [cs[0]] + cs[1..]
    ensures var k, rest := ConKeyOf(next, cs[0]), cs[1..];
            && (AllFound(d, next, cs, cons) <==> (k in cons || MayBeMissing(d, cs[0])) && AllFound(d, next, rest, cons - {k}))
            && DroppedKeys(next, cs) == {k} + DroppedKeys(next, rest) && k !in DroppedKeys(next, rest)
            && (cons - {k}) - DroppedKeys(next, rest) == cons - DroppedKeys(next, cs)
  {
    var c, rest := cs[0], cs[1..];
    assert c in cs && cs == [c] + rest;
    DistinctTail(next, cs);
    DroppedKeysCons(next, c, rest);
    FoundCons(d, next, c, rest, cons);
  }

  lemma NothingDropped(next: Schema, cons: map<ConKey, Con>)
    ensures DroppedKeys(next, []) == {} && cons - DroppedKeys(next, []) == cons
  {}

  lemma {:induction false} RunFkDrops(w: World, d: Dialect, next: Schema, cs: seq<Change>, cat: Catalog)
    requires Renderable(next, cs)
    requires forall c :: c in cs ==> IsFkDrop(c) && OnModel(next, c)
    requires DistinctKeys(next, cs)
    requires forall c :: c in cs && ConKeyOf(next, c) in cat.cons ==> cat.cons[ConKeyOf(next, c)].References?
    ensures Exec(w, RenderAll(d, next, cs), cat) ==
            if AllFound(d, next, cs, cat.cons) then Some(cat.(cons := cat.cons - DroppedKeys(next, cs))) else None
  {
    if cs == [] {
      NothingDropped(next, cat.cons);
    } else {
      DropKeysHead(d, next, cs, cat.cons);
      RunDropHead(w, d, next, cs[0], cs[1..], cat);
      var k := ConKeyOf(next, cs[0]);
      FkUnheld(w, cat.cons, k);
      RunFkDrops(w, d, next, cs[1..], cat.(cons := cat.cons - {k}));
    }
  }

  // ---- Keys that foreign keys hold on to -----------------------------------------------------------

  lemma ServedWithout(d: Dialect, need: Need, cons: map<ConKey, Con>, gone: set<ConKey>)
    ensures Served(d, need, cons - gone) <==> exists o :: o in cons && o !in gone && Serves(d, need, o, cons[o])
  {
    if o :| o in cons && o !in gone && Serves(d, need, o, cons[o]) {
      assert o in cons - gone;
    }
  }

  /** Whether one foreign key holds on to a key: of one key and of the others after it, or of all together. */
  lemma LosesCons(w: World, cons: map<ConKey, Con>, k: ConKey, rest: set<ConKey>, f: ConKey, need: Need)
    requires k !in rest
    ensures Loses(w, cons, {k} + rest, f, need) <==> Loses(w, cons, {k}, f, need) || Loses(w, cons - {k}, rest, f, need)
  {
    var d := w.server;
    ServedWithout(d, need, cons, {k});
    ServedWithout(d, need, cons, {k} + rest);
    assert (cons - {k}) - rest == cons - ({k} + rest);
    if Loses(w, cons, {k} + rest, f, need) {
      var g :| g in {k} + rest && g in cons && Serves(d, need, g, cons[g]) && (d.Mysql? || w.relies(f, g));
      if g != k {
        assert g in rest && g in cons - {k};
      }
      if d.Mysql? && Served(d, need, cons - {k}) {
        var o :| o in cons && o !in {k} && Serves(d, need, o, cons[o]);
        assert o in rest && o in cons - {k};
      }
    }
    if Loses(w, cons, {k}, f, need) {
      assert k in {k} + rest;
    }
    if Loses(w, cons - {k}, rest, f, need) {
      var g :| g in rest && g in cons - {k} && Serves(d, need, g, cons[g]) && (d.Mysql? || w.relies(f, g));
      assert g in {k} + rest && g in cons;
    }
  }

  /** Dropping keys one by one is refused exactly if dropping them all at once would be. */
  lemma HeldCons(w: World, cons: map<ConKey, Con>, k: ConKey, rest: set<ConKey>)
    requires k !in rest && (k in cons ==> cons[k].OnColumns?)
    ensures Held(w, cons, {k} + rest) <==> Held(w, cons, {k}) || Held(w, cons - {k}, rest)
  {
    forall f | f in cons && cons[f].References?
      ensures f in cons - {k}
      ensures Holds(w, cons, {k} + rest, f) <==> Holds(w, cons, {k}, f) || Holds(w, cons - {k}, rest, f)
    {
      forall need: Need {
        LosesCons(w, cons, k, rest, f, need);
      }
    }
  }

  predicate IsKeyDrop(c: Change) {
    c.DropIndex? || c.DropUnique?
  }

  /** Indexes and uniques can be dropped if they are there and no foreign key holds on to them. */
  lemma {:induction false} RunKeyDrops(w: World, d: Dialect, next: Schema, cs: seq<Change>, cat: Catalog)
    requires Renderable(next, cs)
    requires forall c :: c in cs ==> IsKeyDrop(c) && OnModel(next, c)
    requires DistinctKeys(next, cs)
    requires forall c :: c in cs && ConKeyOf(next, c) in cat.cons ==> cat.cons[ConKeyOf(next, c)].OnColumns?
    ensures Exec(w, RenderAll(d, next, cs), cat) ==
            if AllFound(d, next, cs, cat.cons) && !(cat.checks && Held(w, cat.cons, DroppedKeys(next, cs)))
            then Some(cat.(cons := cat.cons - DroppedKeys(next, cs))) else None
  {
    if cs == [] {
      NothingDropped(next, cat.cons);
      NothingHeld(w, cat.cons);
    } else {
      DropKeysHead(d, next, cs, cat.cons);
      RunDropHead(w, d, next, cs[0], cs[1..], cat);
      var k := ConKeyOf(next, cs[0]);
      RunKeyDrops(w, d, next, cs[1..], cat.(cons := cat.cons - {k}));
      HeldCons(w, cat.cons, k, DroppedKeys(next, cs[1..]));
    }
  }

  lemma NothingHeld(w: World, cons: map<ConKey, Con>)
    ensures !Held(w, cons, {})
  {}

  // ---- Adds -------------------------------------------------------------------------------------------

  /** The constraints that these changes add. */
  function AddedCons(next: Schema, cs: seq<Change>): map<ConKey, Con> {
    if cs == [] then map[]
    else if IsConAdd(cs[0]) && OnModel(next, cs[0]) then
      AddedCons(next, cs[1..])[ConKeyOf(next, cs[0]) := ConOf(next.models.Get(cs[0].model), cs[0])]
    else AddedCons(next, cs[1..])
  }

  lemma {:induction false} AddedKeys(next: Schema, cs: seq<Change>, k: ConKey)
    ensures k in AddedCons(next, cs) ==>
              exists c :: c in cs && IsConAdd(c) && OnModel(next, c) && ConKeyOf(next, c) == k &&
                          AddedCons(next, cs)[k] == ConOf(next.models.Get(c.model), c)
    ensures (exists c :: c in cs && IsConAdd(c) && OnModel(next, c) && ConKeyOf(next, c) == k) ==> k in AddedCons(next, cs)
  {
    if cs != [] {
      AddedKeys(next, cs[1..], k);
      assert cs == [cs[0]] + cs[1..];
    }
  }

  lemma AddedCompose(next: Schema, c: Change, rest: seq<Change>, cons: map<ConKey, Con>)
    requires IsConAdd(c) && OnModel(next, c)
    requires forall e :: e in rest ==> OnModel(next, e) && ConKeyOf(next, e) != ConKeyOf(next, c)
    ensures cons[ConKeyOf(next, c) := ConOf(next.models.Get(c.model), c)] + AddedCons(next, rest) ==
            cons + AddedCons(next, [c] + rest)
  {
    assert ([c] + rest)[1..] == rest;
    AddedKeys(next, rest, ConKeyOf(next, c));
  }

  /** A change about a many-to-many relation, which has no foreign key of its own, does nothing. */
  lemma {:induction false} ManyToManyIsSilent(w: World, d: Dialect, next: Schema, cs: seq<Change>, cat: Catalog)
    requires Renderable(next, cs)
    requires forall c :: c in cs ==> (c.AddForeignKey? || c.DropForeignKey?) && c.relation.kind.ManyToMany?
    ensures Exec(w, RenderAll(d, next, cs), cat) == Some(cat)
  {
    if cs != [] {
      assert cs[0] in cs;
      assert Render(d, next, cs[0]) + RenderAll(d, next, cs[1..]) == RenderAll(d, next, cs[1..]);
      ManyToManyIsSilent(w, d, next, cs[1..], cat);
    }
  }

  predicate IsKeyAdd(c: Change) {
    c.CreateIndex? || c.AddUnique?
  }

  predicate IsFkAdd(c: Change) {
    c.AddForeignKey? && !c.relation.kind.ManyToMany?
  }

  /** The key that the new foreign key refers to is there. */
  predicate KeyThere(d: Dialect, c: Change, cons: map<ConKey, Con>)
    requires IsFkAdd(c)
  {
    Served(d, Need(c.relation.targetTable, c.relation.targetCols), cons)
  }

  /** The server allows what the new foreign key does to its columns. */
  predicate FkAccepted(d: Dialect, m: Model, c: Change, cols: map<Key, Column>)
    requires IsFkAdd(c) && HasColumns(cols, m.table, c.relation.ownerCols)
  {
    Acceptable(d, m.table, FkDefOf(c.relation), cols)
  }

  lemma RunOneAdd(w: World, d: Dialect, m: Model, c: Change, cat: Catalog)
    requires IsConAdd(c) && !Taken(ConKeyOn(m.table, c), cat.cons) && SupportedOn(m, c, cat.rows, cat.cols)
    ensures Exec(w, RenderCon(d, m, c), cat) ==
            if c.AddForeignKey? && !(KeyThere(w.server, c, cat.cons) && FkAccepted(w.server, m, c, cat.cols)) then None
            else Some(cat.(cons := cat.cons[ConKeyOn(m.table, c) := ConOf(m, c)]))
  {
    ExecOne(w, RenderCon(d, m, c)[0], cat);
  }

  /** An index and a unique of one table share their names. */
  predicate Clash(k: ConKey, j: ConKey) {
    || k == j
    || (k.kind.IndexCon? && j == k.(kind := UniqueCon))
    || (k.kind.UniqueCon? && j == k.(kind := IndexCon))
  }

  ghost predicate NamesApart(next: Schema, cs: seq<Change>)
    requires forall c :: c in cs ==> OnModel(next, c)
  {
    forall i, j :: 0 <= i < j < |cs| ==> !Clash(ConKeyOf(next, cs[j]), ConKeyOf(next, cs[i]))
  }

  /** Free names on existing columns. */
  ghost predicate Addable(next: Schema, cs: seq<Change>, cat: Catalog) {
    && (forall c :: c in cs ==> IsConAdd(c) && OnModel(next, c) && !Taken(ConKeyOf(next, c), cat.cons) && Supported(next, c, cat))
    && NamesApart(next, cs)
  }

  lemma NamesTail(next: Schema, cs: seq<Change>)
    requires cs != [] && (forall c :: c in cs ==> OnModel(next, c)) && NamesApart(next, cs)
    ensures NamesApart(next, cs[1..])
    ensures forall e :: e in cs[1..] ==> !Clash(ConKeyOf(next, e), ConKeyOf(next, cs[0]))
  {}

  lemma TakenBySome(k: ConKey, cons: map<ConKey, Con>)
    ensures Taken(k, cons) <==> exists j :: j in cons && Clash(k, j)
  {
    if j :| j in cons && Clash(k, j) {}
    if Taken(k, cons) {
      var j := if k in cons then k else if k.kind.IndexCon? then k.(kind := UniqueCon) else k.(kind := IndexCon);
      assert j in cons && Clash(k, j);
    }
  }

  lemma StaysFree(k: ConKey, cons: map<ConKey, Con>, j: ConKey, con: Con)
    requires !Taken(k, cons) && !Clash(k, j)
    ensures !Taken(k, cons[j := con])
  {}

  lemma AddableTail(next: Schema, cs: seq<Change>, cat: Catalog)
    requires cs != [] && Addable(next, cs, cat)
    ensures var c := cs[0];
            && c in cs && IsConAdd(c) && OnModel(next, c)
            && Addable(next, cs[1..], cat.(cons := cat.cons[ConKeyOf(next, c) := ConOf(next.models.Get(c.model), c)]))
            && forall e :: e in cs[1..] ==> OnModel(next, e) && ConKeyOf(next, e) != ConKeyOf(next, c)
  {
    assert cs[0] in cs;
    NamesTail(next, cs);
    forall e | e in cs[1..]
      ensures !Taken(ConKeyOf(next, e), cat.cons[ConKeyOf(next, cs[0]) := ConOf(next.models.Get(cs[0].model), cs[0])])
    {
      StaysFree(ConKeyOf(next, e), cat.cons, ConKeyOf(next, cs[0]), ConOf(next.models.Get(cs[0].model), cs[0]));
    }
  }

  /** The catalogue after one addition. */
  function WithAdded(next: Schema, c: Change, cat: Catalog): Catalog
    requires IsConAdd(c) && OnModel(next, c)
  {
    cat.(cons := cat.cons[ConKeyOf(next, c) := ConOf(next.models.Get(c.model), c)])
  }

  /** The new foreign key finds its key, and what it does is allowed. */
  predicate FkReady(d: Dialect, next: Schema, c: Change, cat: Catalog)
    requires IsConAdd(c) && OnModel(next, c) && c.AddForeignKey? && Supported(next, c, cat)
  {
    KeyThere(d, c, cat.cons) && FkAccepted(d, next.models.Get(c.model), c, cat.cols)
  }

  /** The first of a run of additions. */
  lemma RunFirstAdd(w: World, d: Dialect, next: Schema, cs: seq<Change>, cat: Catalog)
    requires cs != [] && Renderable(next, cs) && Addable(next, cs, cat)
    ensures IsConAdd(cs[0]) && OnModel(next, cs[0]) && Supported(next, cs[0], cat) && Renderable(next, cs[1..])
    ensures Exec(w, RenderAll(d, next, cs), cat) ==
            if cs[0].AddForeignKey? && !FkReady(w.server, next, cs[0], cat) then None
            else Exec(w, RenderAll(d, next, cs[1..]), WithAdded(next, cs[0], cat))
  {
    var c, rest := cs[0], cs[1..];
    AddableTail(next, cs, cat);
    RunOneAdd(w, d, next.models.Get(c.model), c, cat);
    ExecConcat(w, Render(d, next, c), RenderAll(d, next, rest), cat);
  }

  lemma AddedFirst(next: Schema, cs: seq<Change>, cat: Catalog)
    requires cs != [] && Addable(next, cs, cat)
    ensures IsConAdd(cs[0]) && OnModel(next, cs[0]) && Addable(next, cs[1..], WithAdded(next, cs[0], cat))
    ensures WithAdded(next, cs[0], cat).cons + AddedCons(next, cs[1..]) == cat.cons + AddedCons(next, cs)
  {
    AddableTail(next, cs, cat);
    assert cs == [cs[0]] + cs[1..];
    AddedCompose(next, cs[0], cs[1..], cat.cons);
  }

  lemma {:induction false} RunKeyAdds(w: World, d: Dialect, next: Schema, cs: seq<Change>, cat: Catalog)
    requires Renderable(next, cs) && Addable(next, cs, cat) && forall c :: c in cs ==> IsKeyAdd(c)
    ensures Exec(w, RenderAll(d, next, cs), cat) == Some(cat.(cons := cat.cons + AddedCons(next, cs)))
  {
    if cs == [] {
      assert cat.cons + map[] == cat.cons;
    } else {
      RunFirstAdd(w, d, next, cs, cat);
      AddedFirst(next, cs, cat);
      RunKeyAdds(w, d, next, cs[1..], WithAdded(next, cs[0], cat));
    }
  }

  predicate AllFksReady(d: Dialect, next: Schema, cs: seq<Change>, cat: Catalog)
    requires forall c :: c in cs ==> c.AddForeignKey? && IsFkAdd(c) && IsConAdd(c) && OnModel(next, c) && Supported(next, c, cat)
  {
    forall c :: c in cs ==> FkReady(d, next, c, cat)
  }

  /** A foreign key serves no other. */
  lemma ServedIgnoresFk(d: Dialect, need: Need, cons: map<ConKey, Con>, k: ConKey, fk: FkDef)
    requires k !in cons
    ensures Served(d, need, cons[k := References(fk)]) <==> Served(d, need, cons)
  {
    var more := cons[k := References(fk)];
    if Served(d, need, cons) {
      var o :| o in cons && Serves(d, need, o, cons[o]);
      assert o in more && Serves(d, need, o, more[o]);
    }
  }

  lemma {:induction false} RunFkAdds(w: World, d: Dialect, next: Schema, cs: seq<Change>, cat: Catalog)
    requires Renderable(next, cs) && Addable(next, cs, cat) && forall c :: c in cs ==> c.AddForeignKey? && IsFkAdd(c)
    ensures Exec(w, RenderAll(d, next, cs), cat) ==
            if AllFksReady(w.server, next, cs, cat) then Some(cat.(cons := cat.cons + AddedCons(next, cs))) else None
  {
    if cs == [] {
      assert cat.cons + map[] == cat.cons;
    } else {
      var c, rest := cs[0], cs[1..];
      assert c in cs && cs == [c] + rest;
      RunFirstAdd(w, d, next, cs, cat);
      AddedFirst(next, cs, cat);
      var mid := WithAdded(next, c, cat);
      RunFkAdds(w, d, next, rest, mid);
      forall e | e in rest ensures FkReady(w.server, next, e, mid) <==> FkReady(w.server, next, e, cat) {
        ServedIgnoresFk(w.server, Need(e.relation.targetTable, e.relation.targetCols), cat.cons, ConKeyOf(next, c), FkDefOf(c.relation));
      }
    }
  }

  // ---- Statements of several phases -------------------------------------------------------------------

  lemma RenderableConcat(next: Schema, a: seq<Change>, b: seq<Change>)
    requires Renderable(next, a) && Renderable(next, b)
    ensures Renderable(next, a + b)
  {}

  lemma RenderConcatStep(d: Dialect, next: Schema, a: seq<Change>, b: seq<Change>)
    requires a != [] && Renderable(next, a) && Renderable(next, b) && Renderable(next, a[1..] + b)
    requires RenderAll(d, next, a[1..] + b) == RenderAll(d, next, a[1..]) + RenderAll(d, next, b)
    ensures Renderable(next, a + b)
    ensures RenderAll(d, next, a + b) == RenderAll(d, next, a) + RenderAll(d, next, b)
  {
    RenderableConcat(next, a, b);
    TailOfConcat(a, b);
    assert a[0] in a;
    Associate(Render(d, next, a[0]), RenderAll(d, next, a[1..]), RenderAll(d, next, b));
  }

  lemma TailOfConcat<T>(a: seq<T>, b: seq<T>)
    requires a != []
    ensures (a + b)[0] == a[0] && (a + b)[1..] == a[1..] + b
  {}

  lemma Associate<T>(x: seq<T>, y: seq<T>, z: seq<T>)
    ensures (x + y) + z == x + (y + z)
  {}

  lemma {:induction false} RenderAllConcat(d: Dialect, next: Schema, a: seq<Change>, b: seq<Change>)
    requires Renderable(next, a) && Renderable(next, b)
    ensures Renderable(next, a + b)
    ensures RenderAll(d, next, a + b) == RenderAll(d, next, a) + RenderAll(d, next, b)
  {
    if a == [] {
      assert a + b == b;
    } else {
      RenderAllConcat(d, next, a[1..], b);
      RenderConcatStep(d, next, a, b);
    }
  }
}
