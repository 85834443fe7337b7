/**
 What statements about columns do to the constraints. They act on every constraint by
 itself and may add primary keys, so a whole run of them does too (`RunHalves`,
 `RunSplits`), and the three kinds of run that a plan consists of have closed forms:
 columns dropped (`DropsFate`), columns renamed (`RenamesFate`), and neither (`StillFate`).
 */
module Fates {
  import opened Names
  import opened Ir
  import opened Catalogue
  import opened Plan
  import opened Effects

  predicate AboutColumns(s: Stmt) {
    || s.AddCol? || s.Backfill? || s.DropCol? || s.RenameCol?
    || s.SetType? || s.ChangeDefault? || s.SetNullability? || s.ChangeCol?
  }

  predicate AllAboutColumns(stmts: seq<Stmt>) {
    forall s :: s in stmts ==> AboutColumns(s)
  }

  /** What a run of statements makes of one constraint. */
  function FateOf(d: Dialect, stmts: seq<Stmt>, k: ConKey, con: Con): Fate {
    if stmts == [] then Stands(con)
    else
      var f := Fated(d, stmts[0], k, con);
      if f.Stands? then FateOf(d, stmts[1..], k, f.con) else f
  }

  predicate NoneRefused(d: Dialect, stmts: seq<Stmt>, cons: map<ConKey, Con>) {
    forall k :: k in cons ==> !FateOf(d, stmts, k, cons[k]).Refused?
  }

  /** The constraints that still stand after a run. */
  function Fared(d: Dialect, stmts: seq<Stmt>, cons: map<ConKey, Con>): map<ConKey, Con> {
    map k | k in cons && FateOf(d, stmts, k, cons[k]).Stands? :: FateOf(d, stmts, k, cons[k]).con
  }

  function ConAt(cons: map<ConKey, Con>, k: ConKey): Option<Con> {
    if k in cons then Some(cons[k]) else None
  }

  lemma {:induction false} FateConcat(d: Dialect, a: seq<Stmt>, b: seq<Stmt>, k: ConKey, con: Con)
    ensures FateOf(d, a + b, k, con) ==
            (var f := FateOf(d, a, k, con); if f.Stands? then FateOf(d, b, k, f.con) else f)
  {
    if a == [] {
      assert a + b == b;
    } else {
      assert (a + b)[1..] == a[1..] + b;
      var f := Fated(d, a[0], k, con);
      if f.Stands? {
        FateConcat(d, a[1..], b, k, f.con);
      }
    }
  }

  // ---- The two halves of a run -----------------------------------------------------------------

  lemma StepIgnoresCons(w: World, s: Stmt, cat: Catalog, cons: map<ConKey, Con>)
    ensures var plain := DataStep(w, s, cat);
            DataStep(w, s, cat.(cons := cons)) == if plain.Some? then Some(plain.value.(cons := cons)) else None
    ensures DataStep(w, s, cat).Some? ==> DataStep(w, s, cat).value.cons == cat.cons
  {}

  lemma {:induction false} DataIgnoresCons(w: World, stmts: seq<Stmt>, cat: Catalog, cons: map<ConKey, Con>)
    ensures var plain := DataExec(w, stmts, cat);
            DataExec(w, stmts, cat.(cons := cons)) == if plain.Some? then Some(plain.value.(cons := cons)) else None
    ensures DataExec(w, stmts, cat).Some? ==> DataExec(w, stmts, cat).value.cons == cat.cons
  {
    if stmts != [] {
      StepIgnoresCons(w, stmts[0], cat, cons);
      var plain := DataStep(w, stmts[0], cat);
      if plain.Some? {
        DataIgnoresCons(w, stmts[1..], plain.value, cons);
      }
    }
  }

  lemma FateFirst(d: Dialect, s: Stmt, rest: seq<Stmt>, k: ConKey, con: Con)
    ensures FateOf(d, [s] + rest, k, con) ==
            (var f := Fated(d, s, k, con); if f.Stands? then FateOf(d, rest, k, f.con) else f)
  {
    assert ([s] + rest)[1..] == rest;
  }

  /** What one statement leaves of the constraints that are there. */
  function OneFared(d: Dialect, s: Stmt, cons: map<ConKey, Con>): map<ConKey, Con> {
    map k | k in cons && Fated(d, s, k, cons[k]).Stands? :: Fated(d, s, k, cons[k]).con
  }

  predicate OneRefused(d: Dialect, s: Stmt, cons: map<ConKey, Con>) {
    exists k :: k in cons && Fated(d, s, k, cons[k]).Refused?
  }

  lemma FaredStep(d: Dialect, s: Stmt, rest: seq<Stmt>, cons: map<ConKey, Con>)
    ensures NoneRefused(d, [s] + rest, cons) <==> !OneRefused(d, s, cons) && NoneRefused(d, rest, OneFared(d, s, cons))
    ensures !OneRefused(d, s, cons) ==> Fared(d, [s] + rest, cons) == Fared(d, rest, OneFared(d, s, cons))
  {
    forall k | k in cons
      ensures FateOf(d, [s] + rest, k, cons[k]) ==
              (var f := Fated(d, s, k, cons[k]); if f.Stands? then FateOf(d, rest, k, f.con) else f)
    {
      FateFirst(d, s, rest, k, cons[k]);
    }
    if !OneRefused(d, s, cons) {
      var mid := OneFared(d, s, cons);
      assert forall k :: k in mid ==> k in cons && Fated(d, s, k, cons[k]) == Stands(mid[k]);
      assert forall k :: k in cons && Fated(d, s, k, cons[k]).Stands? ==> k in mid;
      if NoneRefused(d, rest, mid) {
        forall k | k in cons ensures !FateOf(d, [s] + rest, k, cons[k]).Refused? {}
      }
    }
  }

  lemma StepHalves(w: World, s: Stmt, cat: Catalog)
    requires AboutColumns(s)
    ensures Step(w, s, cat).Some? <==> DataStep(w, s, cat).Some? && ColumnCons(w.server, s, cat.cons).Some?
    ensures Step(w, s, cat).Some? ==>
              Step(w, s, cat).value == DataStep(w, s, cat).value.(cons := ColumnCons(w.server, s, cat.cons).value)
  {}

  /** The constraint half of a run. */
  function ConsRun(d: Dialect, stmts: seq<Stmt>, cons: map<ConKey, Con>): Option<map<ConKey, Con>> {
    if stmts == [] then Some(cons) else
    match ColumnCons(d, stmts[0], cons)
    case None => None
    case Some(mid) => ConsRun(d, stmts[1..], mid)
  }

  /** A run of statements about columns succeeds if both halves do, and each half goes its own way. */
  lemma {:induction false} RunHalves(w: World, stmts: seq<Stmt>, cat: Catalog)
    requires AllAboutColumns(stmts)
    ensures Exec(w, stmts, cat).Some? <==> DataExec(w, stmts, cat).Some? && ConsRun(w.server, stmts, cat.cons).Some?
    ensures Exec(w, stmts, cat).Some? ==>
              Exec(w, stmts, cat).value == DataExec(w, stmts, cat).value.(cons := ConsRun(w.server, stmts, cat.cons).value)
  {
    if stmts == [] {
      DataIgnoresCons(w, stmts, cat, cat.cons);
    } else {
      var s, rest := stmts[0], stmts[1..];
      StepHalves(w, s, cat);
      var plain := DataStep(w, s, cat);
      if plain.Some? && ColumnCons(w.server, s, cat.cons).Some? {
        var cons := ColumnCons(w.server, s, cat.cons).value;
        RunHalves(w, rest, plain.value.(cons := cons));
        DataIgnoresCons(w, rest, plain.value, cons);
        if ConsRun(w.server, rest, cons).Some? {
          DataIgnoresCons(w, rest, plain.value, ConsRun(w.server, rest, cons).value);
        }
      }
    }
  }

  lemma FaredIsPart(d: Dialect, s: Stmt, cons: map<ConKey, Con>)
    ensures ColumnCons(d, s, cons) == if OneRefused(d, s, cons) then None else Some(OneFared(d, s, cons) + Gain(s))
    ensures OneFared(d, s, cons).Keys <= cons.Keys
    ensures !OneRefused(d, s, cons) ==> Gain(s).Keys !! cons.Keys
  {
    if !OneRefused(d, s, cons) {
      forall k | k in Gain(s) ensures k !in cons {}
    }
  }

  function StandingBy(fate: (ConKey, Con) -> Fate, cons: map<ConKey, Con>): map<ConKey, Con> {
    map k | k in cons && fate(k, cons[k]).Stands? :: fate(k, cons[k]).con
  }

  predicate SomeRefused(fate: (ConKey, Con) -> Fate, cons: map<ConKey, Con>) {
    exists k :: k in cons && fate(k, cons[k]).Refused?
  }

  lemma StandingParts(fate: (ConKey, Con) -> Fate, a: map<ConKey, Con>, b: map<ConKey, Con>)
    requires a.Keys !! b.Keys
    ensures SomeRefused(fate, a + b) <==> SomeRefused(fate, a) || SomeRefused(fate, b)
    ensures StandingBy(fate, a + b) == StandingBy(fate, a) + StandingBy(fate, b)
  {
    forall k | k in a ensures k in a + b && (a + b)[k] == a[k] {}
    forall k | k in b ensures k in a + b && (a + b)[k] == b[k] {}
  }

  function FateBy(d: Dialect, s: Stmt): (ConKey, Con) -> Fate {
    (k, con) => Fated(d, s, k, con)
  }

  lemma FaredIsStanding(d: Dialect, s: Stmt, cons: map<ConKey, Con>)
    ensures StandingBy(FateBy(d, s), cons) == OneFared(d, s, cons)
    ensures SomeRefused(FateBy(d, s), cons) <==> OneRefused(d, s, cons)
  {}

  lemma FaredParts(d: Dialect, s: Stmt, a: map<ConKey, Con>, b: map<ConKey, Con>)
    requires a.Keys !! b.Keys
    ensures OneRefused(d, s, a + b) <==> OneRefused(d, s, a) || OneRefused(d, s, b)
    ensures OneFared(d, s, a + b) == OneFared(d, s, a) + OneFared(d, s, b)
  {
    FaredIsStanding(d, s, a);
    FaredIsStanding(d, s, b);
    FaredIsStanding(d, s, a + b);
    StandingParts(FateBy(d, s), a, b);
  }

  lemma MapsRegroup(a: map<ConKey, Con>, b: map<ConKey, Con>, c: map<ConKey, Con>)
    ensures (a + b) + c == a + (b + c)
  {}

  /** One statement does to the constraints `a` what it does, and to the others as if `a` were not there. */
  lemma StepSplits(d: Dialect, s: Stmt, a: map<ConKey, Con>, b: map<ConKey, Con>)
    requires a.Keys !! b.Keys
    ensures ColumnCons(d, s, a + b).Some? <==> !OneRefused(d, s, a) && ColumnCons(d, s, b).Some?
    ensures !OneRefused(d, s, a) && ColumnCons(d, s, b).Some? ==>
              && OneFared(d, s, a).Keys !! ColumnCons(d, s, b).value.Keys
              && ColumnCons(d, s, a + b).value == OneFared(d, s, a) + ColumnCons(d, s, b).value
  {
    FaredIsPart(d, s, a);
    FaredIsPart(d, s, b);
    FaredIsPart(d, s, a + b);
    FaredParts(d, s, a, b);
    MapsRegroup(OneFared(d, s, a), OneFared(d, s, b), Gain(s));
  }

  /** So does a whole run. */
  lemma {:induction false} RunSplits(d: Dialect, stmts: seq<Stmt>, a: map<ConKey, Con>, b: map<ConKey, Con>)
    requires a.Keys !! b.Keys
    ensures ConsRun(d, stmts, a + b).Some? <==> NoneRefused(d, stmts, a) && ConsRun(d, stmts, b).Some?
    ensures ConsRun(d, stmts, a + b).Some? ==> ConsRun(d, stmts, a + b).value == Fared(d, stmts, a) + ConsRun(d, stmts, b).value
  {
    if stmts == [] {
      assert Fared(d, stmts, a) == a;
    } else {
      var s, rest := stmts[0], stmts[1..];
      assert stmts == [s] + rest;
      StepSplits(d, s, a, b);
      FaredStep(d, s, rest, a);
      if !OneRefused(d, s, a) && ColumnCons(d, s, b).Some? {
        RunSplits(d, rest, OneFared(d, s, a), ColumnCons(d, s, b).value);
      }
    }
  }

  /** The constraints that are there, and the primary keys that the run brings along. */
  lemma RunFromNothing(d: Dialect, stmts: seq<Stmt>, cons: map<ConKey, Con>)
    ensures ConsRun(d, stmts, cons).Some? <==> NoneRefused(d, stmts, cons) && ConsRun(d, stmts, map[]).Some?
    ensures ConsRun(d, stmts, cons).Some? ==>
              ConsRun(d, stmts, cons).value == Fared(d, stmts, cons) + ConsRun(d, stmts, map[]).value
  {
    assert cons + map[] == cons;
    RunSplits(d, stmts, cons, map[]);
  }

  lemma {:induction false} ConsConcat(d: Dialect, a: seq<Stmt>, b: seq<Stmt>, cons: map<ConKey, Con>)
    ensures ConsRun(d, a + b, cons) == match ConsRun(d, a, cons) case None => None case Some(mid) => ConsRun(d, b, mid)
  {
    if a == [] {
      assert a + b == b;
    } else {
      assert (a + b)[1..] == a[1..] + b;
      var mid := ColumnCons(d, a[0], cons);
      if mid.Some? {
        ConsConcat(d, a[1..], b, mid.value);
      }
    }
  }

  lemma {:induction false} NothingGained(d: Dialect, stmts: seq<Stmt>)
    requires forall s :: s in stmts ==> Gain(s) == map[]
    ensures ConsRun(d, stmts, map[]) == Some(map[])
  {
    if stmts != [] {
      assert stmts[0] in stmts;
      assert ColumnCons(d, stmts[0], map[]) == Some(map[]);
      NothingGained(d, stmts[1..]);
    }
  }

  // ---- Dropped columns ---------------------------------------------------------------------------

  function DropAll(keys: seq<Key>): seq<Stmt> {
    seq(|keys|, i requires 0 <= i < |keys| => DropCol(keys[i]))
  }

  function KeySet(keys: seq<Key>): set<Key> {
    set key | key in keys
  }

  /**
   Whether a foreign key stands in the way when columns are dropped in this order. The first
   of them that it has on either end decides: MySQL refuses, Postgres does so only for a
   column that the key refers to, and otherwise drops the key as well.
   */
  predicate Pinned(d: Dialect, keys: seq<Key>, k: ConKey, con: Con) {
    && con.References? && keys != []
    && if Owns(k, con.fk, keys[0]) then d.Mysql? else Aims(con.fk, keys[0]) || Pinned(d, keys[1..], k, con)
  }

  predicate Spared(gone: set<Key>, t: string, names: seq<string>) {
    forall x :: x in names ==> Key(t, x) !in gone
  }

  function Left(gone: set<Key>, t: string, names: seq<string>): seq<string> {
    if names == [] then []
    else (if Key(t, names[0]) in gone then [] else [names[0]]) + Left(gone, t, names[1..])
  }

  /** What is left of a constraint when the columns `gone` are dropped, if nothing stands in the way. */
  function Remains(d: Dialect, gone: set<Key>, k: ConKey, con: Con): Option<Con> {
    match con
    case OnColumns(cols) =>
      if Spared(gone, k.table, cols) then Some(con)
      else if d.Mysql? && Left(gone, k.table, cols) != [] then Some(OnColumns(Left(gone, k.table, cols)))
      else None
    case References(fk) => if Spared(gone, k.table, fk.ownerCols) then Some(con) else None
  }

  lemma {:induction false} LeftMembers(gone: set<Key>, t: string, names: seq<string>)
    ensures forall x :: x in Left(gone, t, names) <==> x in names && Key(t, x) !in gone
    ensures Left(gone, t, names) == names <==> Spared(gone, t, names)
    ensures |Left(gone, t, names)| <= |names|
    ensures |Left(gone, t, names)| == |names| ==> Left(gone, t, names) == names
  {
    if names != [] {
      LeftMembers(gone, t, names[1..]);
      assert names == [names[0]] + names[1..];
    }
  }

  lemma {:induction false} WithoutIsLeft(key: Key, t: string, names: seq<string>)
    requires t == key.table
    ensures WithoutName(names, key.name) == Left({key}, t, names)
  {
    if names != [] {
      WithoutIsLeft(key, t, names[1..]);
    }
  }

  lemma {:induction false} LeftTwice(a: set<Key>, b: set<Key>, t: string, names: seq<string>)
    ensures Left(b, t, Left(a, t, names)) == Left(a + b, t, names)
  {
    if names != [] {
      LeftTwice(a, b, t, names[1..]);
      var rest := Left(a, t, names[1..]);
      assert ([names[0]] + rest)[1..] == rest;
      assert Left(a, t, names) == if Key(t, names[0]) in a then rest else [names[0]] + rest;
    }
  }

  /** One column dropped. */
  lemma DropOneFate(d: Dialect, key: Key, k: ConKey, con: Con)
    ensures Fated(d, DropCol(key), k, con) ==
            if Pinned(d, [key], k, con) then Refused
            else (match Remains(d, {key}, k, con) case None => Lost case Some(c) => Stands(c))
  {
    if con.OnColumns? {
      SparedOne(key, k.table, con.cols);
      if k.table == key.table {
        WithoutIsLeft(key, k.table, con.cols);
      }
    } else {
      PinnedOne(d, key, k, con);
      SparedOne(key, k.table, con.fk.ownerCols);
    }
  }

  lemma PinnedOne(d: Dialect, key: Key, k: ConKey, con: Con)
    requires con.References?
    ensures Pinned(d, [key], k, con) <==> if Owns(k, con.fk, key) then d.Mysql? else Aims(con.fk, key)
  {
    assert [key][1..] == [];
  }

  lemma SparedOne(key: Key, t: string, names: seq<string>)
    ensures Spared({key}, t, names) <==> t != key.table || key.name !in names
  {
    assert Key(key.table, key.name) == key;
    forall x | x in names && t == key.table && x != key.name ensures Key(t, x) !in {key} {}
  }

  lemma PinnedCons(d: Dialect, key: Key, rest: seq<Key>, k: ConKey, con: Con)
    ensures Pinned(d, [key] + rest, k, con) <==>
              Pinned(d, [key], k, con) || (con.References? && !Owns(k, con.fk, key) && Pinned(d, rest, k, con))
  {
    assert ([key] + rest)[1..] == rest && [key][1..] == [];
  }

  /** The drop of one column, then of the rest. */
  lemma RemainsCons(d: Dialect, key: Key, rest: set<Key>, k: ConKey, con: Con)
    ensures Remains(d, {key} + rest, k, con) ==
            (match Remains(d, {key}, k, con) case None => None case Some(c) => Remains(d, rest, k, c))
  {
    match con
    case OnColumns(cols) =>
      LeftTwice({key}, rest, k.table, cols);
      LeftMembers({key}, k.table, cols);
      LeftMembers({key} + rest, k.table, cols);
      LeftMembers(rest, k.table, Left({key}, k.table, cols));
    case References(fk) =>
  }

  /** Columns dropped one after another. */
  lemma {:induction false} DropsFate(d: Dialect, keys: seq<Key>, k: ConKey, con: Con)
    ensures FateOf(d, DropAll(keys), k, con) ==
            if Pinned(d, keys, k, con) then Refused
            else (match Remains(d, KeySet(keys), k, con) case None => Lost case Some(c) => Stands(c))
  {
    if keys == [] {
      assert Spared({}, k.table, if con.OnColumns? then con.cols else con.fk.ownerCols);
    } else {
      var key, rest := keys[0], keys[1..];
      assert keys == [key] + rest && DropAll(keys)[1..] == DropAll(rest);
      assert KeySet(keys) == {key} + KeySet(rest);
      DropOneFate(d, key, k, con);
      RemainsCons(d, key, KeySet(rest), k, con);
      if con.References? {
        PinnedCons(d, key, rest, k, con);
      }
      var c := Remains(d, {key}, k, con);
      if c.Some? {
        DropsFate(d, rest, k, c.value);
      }
    }
  }

  // ---- Renamed columns ----------------------------------------------------------------------------

  function NewName(moved: map<Key, string>, t: string, x: string): string {
    if Key(t, x) in moved then moved[Key(t, x)] else x
  }

  function NewNames(moved: map<Key, string>, t: string, names: seq<string>): seq<string> {
    seq(|names|, i requires 0 <= i < |names| => NewName(moved, t, names[i]))
  }

  /** A constraint after all renames at once. */
  function Shifted(moved: map<Key, string>, k: ConKey, con: Con): Con {
    match con
    case OnColumns(cols) => OnColumns(NewNames(moved, k.table, cols))
    case References(fk) =>
      References(fk.(ownerCols := NewNames(moved, k.table, fk.ownerCols),
                     targetCols := NewNames(moved, fk.targetTable, fk.targetCols)))
  }

  lemma SameNameStays(key: Key, k: ConKey, con: Con)
    ensures Followed(key, key.name, k, con) == con
  {
    forall names: seq<string> ensures ReplacedName(names, key.name, key.name) == names {}
  }

  lemma OneRendered(d: Dialect, next: Schema, c: Change)
    requires d.AltersDirectly() && Renderable(next, [c]) && IsColumnChange(c)
    ensures AllAboutColumns(Render(d, next, c))
  {}

  lemma RenderableOne(next: Schema, cs: seq<Change>)
    requires cs != [] && Renderable(next, cs)
    ensures Renderable(next, [cs[0]]) && Renderable(next, cs[1..])
  {
    assert cs[0] in cs;
  }

  lemma AboutBoth(a: seq<Stmt>, b: seq<Stmt>)
    requires AllAboutColumns(a) && AllAboutColumns(b)
    ensures AllAboutColumns(a + b)
  {}

  /** Every statement that a column change renders to is about columns. */
  lemma {:induction false} RenderedAbout(d: Dialect, next: Schema, cs: seq<Change>)
    requires d.AltersDirectly() && Renderable(next, cs) && forall c :: c in cs ==> IsColumnChange(c)
    ensures AllAboutColumns(RenderAll(d, next, cs))
  {
    if cs != [] {
      assert cs[0] in cs;
      RenderableOne(next, cs);
      OneRendered(d, next, cs[0]);
      RenderedAbout(d, next, cs[1..]);
      AboutBoth(Render(d, next, cs[0]), RenderAll(d, next, cs[1..]));
    }
  }

  /** What a constraint objects to in an alter. */
  predicate AlterObjects(d: Dialect, t: string, from: Field, to: Field, k: ConKey, con: Con) {
    if d.Mysql? then Objects(k, con, Key(t, from.column), DefOf(d, to), to.isId)
    else !from.optional && to.optional && InKey(k, Followed(Key(t, from.column), to.column, k, con), Key(t, to.column))
  }

  /** Apart from that, an alter only matters to constraints if it renames. */
  lemma AlterFate(d: Dialect, t: string, from: Field, to: Field, k: ConKey, con: Con)
    requires d.AltersDirectly()
    ensures FateOf(d, AlterStmts(d, t, from, to), k, con) ==
            if AlterObjects(d, t, from, to, k, con) then Refused
            else Stands(Followed(Key(t, from.column), to.column, k, con))
  {
    SameNameStays(Key(t, from.column), k, con);
    var stmts := AlterStmts(d, t, from, to);
    if d.Mysql? {
      OneFate(d, stmts[0], k, con);
    } else {
      var key := Key(t, to.column);
      var first := if from.column != to.column then [RenameCol(Key(t, from.column), to.column)] else [];
      var rest := RetypeStmts(key, from, to) + (RedefaultStmts(d, key, from, to) + RenullStmts(key, from, to));
      assert stmts == first + rest;
      FateConcat(d, first, rest, k, con);
      if first != [] {
        OneFate(d, first[0], k, con);
      }
      InPlaceFate(d, key, from, to, k, Followed(Key(t, from.column), to.column, k, con));
    }
  }

  /** After the rename, only dropping NOT NULL concerns a constraint. */
  lemma InPlaceFate(d: Dialect, key: Key, from: Field, to: Field, k: ConKey, con: Con)
    ensures FateOf(d, RetypeStmts(key, from, to) + (RedefaultStmts(d, key, from, to) + RenullStmts(key, from, to)), k, con) ==
            if !from.optional && to.optional && InKey(k, con, key) then Refused else Stands(con)
  {
    var a, b, c := RetypeStmts(key, from, to), RedefaultStmts(d, key, from, to), RenullStmts(key, from, to);
    FateConcat(d, a, b + c, k, con);
    FateConcat(d, b, c, k, con);
    IdleStmts(d, a, k, con);
    IdleStmts(d, b, k, con);
    if c != [] {
      OneFate(d, c[0], k, con);
    }
  }

  lemma OneFate(d: Dialect, s: Stmt, k: ConKey, con: Con)
    ensures FateOf(d, [s], k, con) == Fated(d, s, k, con)
  {
    assert [s][1..] == [];
  }

  predicate Idle(s: Stmt) {
    s.Backfill? || s.SetType? || s.ChangeDefault?
  }

  lemma {:induction false} IdleStmts(d: Dialect, stmts: seq<Stmt>, k: ConKey, con: Con)
    requires forall s :: s in stmts ==> Idle(s)
    ensures FateOf(d, stmts, k, con) == Stands(con)
  {
    if stmts != [] {
      assert stmts[0] in stmts;
      IdleStmts(d, stmts[1..], k, con);
    }
  }

  // ---- Whole phases ---------------------------------------------------------------------------------

  /** The change is an add, or an alter that leaves the column's name alone. */
  predicate Renameless(c: Change) {
    c.AddColumn? || (c.AlterColumn? && c.from.column == c.to.column)
  }

  /** What a constraint objects to in an added column: a second primary key, or a backfilled column that it may set to NULL. */
  predicate AddObjects(d: Dialect, t: string, f: Field, k: ConKey, con: Con) {
    || (MakesKey(d, f) && k == PrimaryOf(t))
    || (d.Mysql? && NeedsBackfill(f) && Objects(k, con, Key(t, f.column), DefOf(d, f), f.isId))
  }

  lemma AddFate(d: Dialect, t: string, f: Field, k: ConKey, con: Con)
    requires d.AltersDirectly()
    ensures FateOf(d, AddStmts(d, t, f), k, con) == if AddObjects(d, t, f, k, con) then Refused else Stands(con)
  {
    var key := Key(t, f.column);
    if NeedsBackfill(f) {
      var nullable := f.(optional := true);
      var first := [AddCol(key, DefOf(d, nullable), RestatesKey(d, f)), Backfill(key)];
      FateConcat(d, first, AlterStmts(d, t, nullable, f), k, con);
      assert first == [first[0]] + [first[1]];
      FateFirst(d, first[0], [first[1]], k, con);
      OneFate(d, first[1], k, con);
      AlterFate(d, t, nullable, f, k, con);
      SameNameStays(key, k, con);
    } else {
      OneFate(d, AddCol(key, DefOf(d, f), RestatesKey(d, f)), k, con);
    }
  }

  /** What a constraint objects to in a change. */
  predicate ChangeObjects(d: Dialect, next: Schema, c: Change, k: ConKey, con: Con) {
    WellNamed(next, c) &&
    match c
    case AddColumn(m, f) => AddObjects(d, next.Table(m), f, k, con)
    case AlterColumn(m, from, to, _) => AlterObjects(d, next.Table(m), from, to, k, con)
    case RenameColumn(m, _, _, _, _) => AlterObjects(d, next.Table(m), RenameFrom(next, c), RenameTo(next, c), k, con)
    case _ => false
  }

  predicate Objected(d: Dialect, next: Schema, cs: seq<Change>, k: ConKey, con: Con) {
    exists c :: c in cs && ChangeObjects(d, next, c, k, con)
  }

  lemma ObjectedCons(d: Dialect, next: Schema, cs: seq<Change>, k: ConKey, con: Con)
    requires cs != []
    ensures Objected(d, next, cs, k, con) <==> ChangeObjects(d, next, cs[0], k, con) || Objected(d, next, cs[1..], k, con)
  {
    assert cs[0] in cs;
    if c :| c in cs && ChangeObjects(d, next, c, k, con) {
      assert c == cs[0] || c in cs[1..];
    }
  }

  lemma StillOne(d: Dialect, next: Schema, c: Change, k: ConKey, con: Con)
    requires d.AltersDirectly() && Renderable(next, [c]) && WellNamed(next, c) && Renameless(c)
    ensures FateOf(d, Render(d, next, c), k, con) == if ChangeObjects(d, next, c, k, con) then Refused else Stands(con)
  {
    if c.AddColumn? {
      AddFate(d, next.Table(c.model), c.field, k, con);
    } else {
      AlterFate(d, next.Table(c.model), c.from, c.to, k, con);
      SameNameStays(Key(next.Table(c.model), c.from.column), k, con);
    }
  }

  lemma {:induction false} StillFate(d: Dialect, next: Schema, cs: seq<Change>, k: ConKey, con: Con)
    requires d.AltersDirectly() && Renderable(next, cs)
    requires forall c :: c in cs ==> WellNamed(next, c) && Renameless(c)
    ensures FateOf(d, RenderAll(d, next, cs), k, con) == if Objected(d, next, cs, k, con) then Refused else Stands(con)
  {
    if cs != [] {
      assert cs[0] in cs;
      RenderableOne(next, cs);
      ObjectedCons(d, next, cs, k, con);
      StillOne(d, next, cs[0], k, con);
      StillFate(d, next, cs[1..], k, con);
      FateConcat(d, Render(d, next, cs[0]), RenderAll(d, next, cs[1..]), k, con);
    }
  }

  function TableOf(next: Schema, m: ModelName): string {
    if next.models.Has(m) then next.Table(m) else m.text
  }

  /** The columns that these changes drop, in order. */
  function KeysDropped(next: Schema, cs: seq<Change>): seq<Key>
    requires forall c :: c in cs ==> c.DropColumn?
  {
    seq(|cs|, i requires 0 <= i < |cs| => (assert cs[i] in cs; Key(TableOf(next, cs[i].model), cs[i].column)))
  }

  lemma {:induction false} RenderedDrops(d: Dialect, next: Schema, cs: seq<Change>)
    requires Renderable(next, cs) && forall c :: c in cs ==> c.DropColumn?
    ensures RenderAll(d, next, cs) == DropAll(KeysDropped(next, cs))
  {
    if cs != [] {
      assert cs[0] in cs;
      RenderedDrops(d, next, cs[1..]);
      assert KeysDropped(next, cs) == [Key(next.Table(cs[0].model), cs[0].column)] + KeysDropped(next, cs[1..]);
    }
  }

  /** Where these changes rename columns to. */
  function MovedBy(next: Schema, cs: seq<Change>): map<Key, string>
    requires forall c :: c in cs ==> c.RenameColumn?
  {
    if cs == [] then map[]
    else (assert cs[0] in cs;
          MovedBy(next, cs[1..])[Key(TableOf(next, cs[0].model), cs[0].fromColumn) := cs[0].toColumn])
  }

  lemma {:induction false} MovedKeys(next: Schema, cs: seq<Change>, key: Key)
    requires forall c :: c in cs ==> c.RenameColumn? && WellNamed(next, c)
    ensures key in MovedBy(next, cs) <==> exists c :: c in cs && FromKey(next, c) == key
    ensures key in MovedBy(next, cs) ==> exists c :: c in cs && FromKey(next, c) == key && c.toColumn == MovedBy(next, cs)[key]
  {
    if cs != [] {
      assert cs[0] in cs;
      MovedKeys(next, cs[1..], key);
      if c :| c in cs && FromKey(next, c) == key {
        assert c == cs[0] || c in cs[1..];
      }
    }
  }

  /** Renaming `c`'s column first and the others afterwards is renaming all at once. */
  lemma NamesCompose(next: Schema, c: Change, rest: seq<Change>, t: string, names: seq<string>)
    requires c.RenameColumn? && WellNamed(next, c)
    requires forall e :: e in rest ==> e.RenameColumn? && WellNamed(next, e) && Apart(next, c, e)
    ensures var later := MovedBy(next, rest);
            var first := if t == FromKey(next, c).table then ReplacedName(names, c.fromColumn, c.toColumn) else names;
            NewNames(later, t, first) == NewNames(later[FromKey(next, c) := c.toColumn], t, names)
  {
    var later, a, b := MovedBy(next, rest), FromKey(next, c), ToKey(next, c);
    MovedKeys(next, rest, b);
    assert b !in later by {
      if e :| e in rest && FromKey(next, e) == b {
        assert Touches(next, e, b) && Touches(next, c, b);
      }
    }
  }

  lemma ShiftedCompose(next: Schema, c: Change, rest: seq<Change>, k: ConKey, con: Con)
    requires c.RenameColumn? && WellNamed(next, c)
    requires forall e :: e in rest ==> e.RenameColumn? && WellNamed(next, e) && Apart(next, c, e)
    ensures Shifted(MovedBy(next, rest), k, Followed(FromKey(next, c), c.toColumn, k, con)) ==
            Shifted(MovedBy(next, rest)[FromKey(next, c) := c.toColumn], k, con)
  {
    match con
    case OnColumns(cols) => NamesCompose(next, c, rest, k.table, cols);
    case References(fk) =>
      NamesCompose(next, c, rest, k.table, fk.ownerCols);
      NamesCompose(next, c, rest, fk.targetTable, fk.targetCols);
  }

  lemma ShiftedByNone(k: ConKey, con: Con)
    ensures Shifted(map[], k, con) == con
  {
    forall t, names: seq<string> ensures NewNames(map[], t, names) == names {}
  }

  lemma RenameOneFate(d: Dialect, next: Schema, c: Change, k: ConKey, con: Con)
    requires d.AltersDirectly() && c.RenameColumn? && WellNamed(next, c)
    ensures FateOf(d, Render(d, next, c), k, con) ==
            if ChangeObjects(d, next, c, k, con) then Refused else Stands(Followed(FromKey(next, c), c.toColumn, k, con))
  {
    AlterFate(d, next.Table(c.model), RenameFrom(next, c), RenameTo(next, c), k, con);
  }

  /** A rename elsewhere does not change what a constraint objects to. */
  lemma FollowedObjects(d: Dialect, next: Schema, c: Change, e: Change, k: ConKey, con: Con)
    requires c.RenameColumn? && WellNamed(next, c) && e.RenameColumn? && WellNamed(next, e) && Apart(next, c, e)
    ensures ChangeObjects(d, next, e, k, Followed(FromKey(next, c), c.toColumn, k, con)) <==> ChangeObjects(d, next, e, k, con)
  {
    var a, b, key := FromKey(next, c), ToKey(next, c), FromKey(next, e);
    assert Touches(next, c, a) && Touches(next, c, b) && Touches(next, e, key);
    forall names: seq<string> ensures key.table == a.table ==> (key.name in ReplacedName(names, a.name, b.name) <==> key.name in names) {
      if key.table == a.table {
        KeepsOtherNames(names, a.name, b.name, key.name);
      }
    }
  }

  lemma KeepsOtherNames(names: seq<string>, x: string, y: string, z: string)
    requires z != x && z != y
    ensures z in ReplacedName(names, x, y) <==> z in names
  {
    var after := ReplacedName(names, x, y);
    if z in names {
      var i :| 0 <= i < |names| && names[i] == z;
      assert after[i] == z;
    }
    if z in after {
      var i :| 0 <= i < |after| && after[i] == z;
      assert names[i] == z;
    }
  }

  /** Renames on separate columns amount to one renaming. */
  lemma {:induction false} RenamesFate(d: Dialect, next: Schema, cs: seq<Change>, k: ConKey, con: Con)
    requires d.AltersDirectly() && Renderable(next, cs) && PairwiseApart(next, cs)
    requires forall c :: c in cs ==> c.RenameColumn? && WellNamed(next, c)
    ensures FateOf(d, RenderAll(d, next, cs), k, con) ==
            if Objected(d, next, cs, k, con) then Refused else Stands(Shifted(MovedBy(next, cs), k, con))
  {
    if cs == [] {
      ShiftedByNone(k, con);
    } else {
      var c, rest := cs[0], cs[1..];
      assert c in cs;
      ApartFromHead(next, cs);
      ApartTail(next, cs);
      RenameOneFate(d, next, c, k, con);
      ObjectedCons(d, next, cs, k, con);
      FateConcat(d, Render(d, next, c), RenderAll(d, next, rest), k, con);
      var moved := Followed(FromKey(next, c), c.toColumn, k, con);
      RenamesFate(d, next, rest, k, moved);
      forall e | e in rest ensures ChangeObjects(d, next, e, k, moved) <==> ChangeObjects(d, next, e, k, con) {
        FollowedObjects(d, next, c, e, k, con);
      }
      ShiftedCompose(next, c, rest, k, con);
    }
  }

  lemma ApartFromHead(next: Schema, cs: seq<Change>)
    requires cs != [] && PairwiseApart(next, cs)
    ensures forall e :: e in cs[1..] ==> Separate(next, cs[0], e)
  {
    forall e | e in cs[1..] ensures Separate(next, cs[0], e) {
      var j :| 0 <= j < |cs[1..]| && cs[1..][j] == e;
      assert Separate(next, cs[0], cs[j + 1]);
    }
  }

  // ---- Primary keys brought along ------------------------------------------------------------------

  /** MySQL restates `PRIMARY KEY` with the column. */
  predicate KeyStmt(d: Dialect, next: Schema, c: Change) {
    WellNamed(next, c) &&
    match c
    case AddColumn(_, f) => MakesKey(d, f)
    case AlterColumn(_, _, to, _) => d.Mysql? && to.isId
    case RenameColumn(_, _, _, _, _) => d.Mysql? && RenameTo(next, c).isId
    case _ => false
  }

  /** The primary keys that these changes bring along, where there is none. */
  function GainedBy(d: Dialect, next: Schema, cs: seq<Change>): map<ConKey, Con> {
    if cs == [] then map[]
    else if KeyStmt(d, next, cs[0]) then
      GainedBy(d, next, cs[1..])[PrimaryOf(next.Table(cs[0].model)) := OnColumns([ToColumn(cs[0])])]
    else GainedBy(d, next, cs[1..])
  }

  lemma {:induction false} GainedKeys(d: Dialect, next: Schema, cs: seq<Change>, k: ConKey)
    ensures k in GainedBy(d, next, cs) <==>
              exists c :: c in cs && KeyStmt(d, next, c) && k == PrimaryOf(next.Table(c.model))
    ensures k in GainedBy(d, next, cs) ==>
              exists c :: c in cs && KeyStmt(d, next, c) && k == PrimaryOf(next.Table(c.model)) &&
                          GainedBy(d, next, cs)[k] == OnColumns([ToColumn(c)])
  {
    if cs != [] {
      assert cs[0] in cs;
      GainedKeys(d, next, cs[1..], k);
      if c :| c in cs && KeyStmt(d, next, c) && k == PrimaryOf(next.Table(c.model)) {
        assert c == cs[0] || c in cs[1..];
      }
    }
  }

  /** At most one of the changes restates the key of each table. */
  ghost predicate KeysApart(d: Dialect, next: Schema, cs: seq<Change>) {
    forall i, j :: 0 <= i < j < |cs| && KeyStmt(d, next, cs[i]) && KeyStmt(d, next, cs[j]) ==>
      next.Table(cs[i].model) != next.Table(cs[j].model)
  }

  lemma KeysApartTail(d: Dialect, next: Schema, cs: seq<Change>)
    requires cs != [] && KeysApart(d, next, cs)
    ensures KeysApart(d, next, cs[1..])
    ensures forall e :: e in cs[1..] && KeyStmt(d, next, cs[0]) && KeyStmt(d, next, e) ==> next.Table(cs[0].model) != next.Table(e.model)
  {
    forall i, j | 0 <= i < j < |cs[1..]| && KeyStmt(d, next, cs[1..][i]) && KeyStmt(d, next, cs[1..][j])
      ensures next.Table(cs[1..][i].model) != next.Table(cs[1..][j].model)
    {
      assert cs[1..][i] == cs[i + 1] && cs[1..][j] == cs[j + 1];
    }
    forall e | e in cs[1..] && KeyStmt(d, next, cs[0]) && KeyStmt(d, next, e)
      ensures next.Table(cs[0].model) != next.Table(e.model)
    {
      var j :| 0 <= j < |cs[1..]| && cs[1..][j] == e;
      assert cs[j + 1] == e;
    }
  }

  lemma OneGain(d: Dialect, next: Schema, c: Change)
    ensures GainedBy(d, next, [c]) ==
            if KeyStmt(d, next, c) then map[PrimaryOf(next.Table(c.model)) := OnColumns([ToColumn(c)])] else map[]
  {
    assert [c][1..] == [];
    assert GainedBy(d, next, []) == map[];
  }

  lemma OneStmtGains(d: Dialect, s: Stmt)
    ensures ConsRun(d, [s], map[]) == Some(Gain(s))
  {
    assert [s][1..] == [];
    FaredIsPart(d, s, map[]);
    assert OneFared(d, s, map[]) == map[] && map[] + Gain(s) == Gain(s);
  }

  /** What one alter or rename makes of no constraints. */
  lemma GainOne(d: Dialect, next: Schema, c: Change)
    requires d.AltersDirectly() && Renderable(next, [c]) && WellNamed(next, c) && (c.AlterColumn? || c.RenameColumn?)
    ensures ConsRun(d, Render(d, next, c), map[]) == Some(GainedBy(d, next, [c]))
  {
    OneGain(d, next, c);
    if d.Mysql? {
      OneStmtGains(d, MysqlStmt(next, c));
      assert Render(d, next, c) == [MysqlStmt(next, c)];
    } else {
      NothingGained(d, Render(d, next, c));
    }
  }

  function MysqlStmt(next: Schema, c: Change): Stmt
    requires WellNamed(next, c) && (c.AlterColumn? || c.RenameColumn?)
  {
    if c.AlterColumn? then MysqlAlter(Mysql, next.Table(c.model), c.from, c.to)[0]
    else MysqlAlter(Mysql, next.Table(c.model), RenameFrom(next, c), RenameTo(next, c))[0]
  }

  /** A key on the column that one change leaves behind is no concern of the changes apart from it. */
  lemma GainUntouched(d: Dialect, next: Schema, c: Change, e: Change)
    requires WellNamed(next, c) && WellNamed(next, e) && Apart(next, c, e)
    requires (c.AlterColumn? && e.AlterColumn? && e.from.column == e.to.column) || (c.RenameColumn? && e.RenameColumn?)
    requires KeyStmt(d, next, c) && (KeyStmt(d, next, e) ==> next.Table(c.model) != next.Table(e.model))
    ensures !ChangeObjects(d, next, e, PrimaryOf(next.Table(c.model)), OnColumns([ToColumn(c)]))
  {
    assert Touches(next, c, ToKey(next, c)) && Touches(next, e, FromKey(next, e));
    SameNameStays(FromKey(next, e), PrimaryOf(next.Table(c.model)), OnColumns([ToColumn(c)]));
  }

  lemma OneGained(d: Dialect, next: Schema, c: Change, rest: seq<Change>)
    ensures GainedBy(d, next, [c] + rest) == GainedBy(d, next, rest) + GainedBy(d, next, [c])
  {
    assert ([c] + rest)[1..] == rest && [c][1..] == [];
  }

  /** A key on the column that the first change leaves behind outlives the other changes. */
  lemma GainStands(d: Dialect, next: Schema, c: Change, rest: seq<Change>)
    requires d.AltersDirectly() && Renderable(next, rest) && PairwiseApart(next, rest) && WellNamed(next, c) && KeyStmt(d, next, c)
    requires forall e :: e in rest ==> WellNamed(next, e) && Separate(next, c, e) && Apart(next, c, e)
    requires forall e :: e in rest && KeyStmt(d, next, e) ==> next.Table(c.model) != next.Table(e.model)
    requires (c.RenameColumn? && forall e :: e in rest ==> e.RenameColumn?) ||
             (c.AlterColumn? && forall e :: e in rest ==> e.AlterColumn? && e.from.column == e.to.column)
    ensures var k, con := PrimaryOf(next.Table(c.model)), OnColumns([ToColumn(c)]);
            FateOf(d, RenderAll(d, next, rest), k, con) == Stands(con)
  {
    var k, con := PrimaryOf(next.Table(c.model)), OnColumns([ToColumn(c)]);
    forall e | e in rest ensures !ChangeObjects(d, next, e, k, con) {
      GainUntouched(d, next, c, e);
    }
    if c.RenameColumn? {
      RenamesFate(d, next, rest, k, con);
      ElsewhereStays(next, c, rest, k);
    } else {
      StillFate(d, next, rest, k, con);
    }
  }

  lemma ElsewhereStays(next: Schema, c: Change, rest: seq<Change>, k: ConKey)
    requires c.RenameColumn? && WellNamed(next, c) && k == PrimaryOf(next.Table(c.model))
    requires forall e :: e in rest ==> e.RenameColumn? && WellNamed(next, e) && Apart(next, c, e)
    ensures Shifted(MovedBy(next, rest), k, OnColumns([ToColumn(c)])) == OnColumns([ToColumn(c)])
  {
    MovedKeys(next, rest, ToKey(next, c));
    forall e | e in rest ensures FromKey(next, e) != ToKey(next, c) {
      assert Touches(next, e, FromKey(next, e)) && Touches(next, c, ToKey(next, c));
    }
  }

  lemma OneKept(d: Dialect, stmts: seq<Stmt>, k: ConKey, con: Con)
    requires FateOf(d, stmts, k, con) == Stands(con)
    ensures NoneRefused(d, stmts, map[k := con]) && Fared(d, stmts, map[k := con]) == map[k := con]
  {}

  /** The gained key of the first change outlives the others. */
  lemma GainStays(d: Dialect, next: Schema, cs: seq<Change>)
    requires d.AltersDirectly() && cs != [] && Renderable(next, cs) && PairwiseApart(next, cs) && KeysApart(d, next, cs)
    requires forall c :: c in cs ==> WellNamed(next, c)
    requires (forall c :: c in cs ==> c.RenameColumn?) || (forall c :: c in cs ==> c.AlterColumn? && c.from.column == c.to.column)
    ensures var gained := GainedBy(d, next, [cs[0]]);
            && NoneRefused(d, RenderAll(d, next, cs[1..]), gained) && Fared(d, RenderAll(d, next, cs[1..]), gained) == gained
            && gained.Keys !! GainedBy(d, next, cs[1..]).Keys
  {
    var c, rest := cs[0], cs[1..];
    assert c in cs;
    OneGain(d, next, c);
    if KeyStmt(d, next, c) {
      var k, con := PrimaryOf(next.Table(c.model)), OnColumns([ToColumn(c)]);
      ApartFromHead(next, cs);
      ApartTail(next, cs);
      KeysApartTail(d, next, cs);
      GainStands(d, next, c, rest);
      OneKept(d, RenderAll(d, next, rest), k, con);
      GainedKeys(d, next, rest, k);
    }
  }

  /** Running on with a key that stays. */
  lemma GainCompose(d: Dialect, first: seq<Stmt>, later: seq<Stmt>, gained: map<ConKey, Con>, more: map<ConKey, Con>)
    requires ConsRun(d, first, map[]) == Some(gained) && ConsRun(d, later, map[]) == Some(more)
    requires NoneRefused(d, later, gained) && Fared(d, later, gained) == gained && gained.Keys !! more.Keys
    ensures ConsRun(d, first + later, map[]) == Some(more + gained)
  {
    ConsConcat(d, first, later, map[]);
    assert gained + map[] == gained;
    RunSplits(d, later, gained, map[]);
    assert gained + more == more + gained;
  }

  lemma {:induction false} RunGains(d: Dialect, next: Schema, cs: seq<Change>)
    requires d.AltersDirectly() && Renderable(next, cs) && PairwiseApart(next, cs) && KeysApart(d, next, cs)
    requires forall c :: c in cs ==> WellNamed(next, c)
    requires (forall c :: c in cs ==> c.RenameColumn?) || (forall c :: c in cs ==> c.AlterColumn? && c.from.column == c.to.column)
    ensures ConsRun(d, RenderAll(d, next, cs), map[]) == Some(GainedBy(d, next, cs))
  {
    if cs != [] {
      var c, rest := cs[0], cs[1..];
      assert c in cs && cs == [c] + rest;
      RenderableOne(next, cs);
      ApartTail(next, cs);
      KeysApartTail(d, next, cs);
      RunGains(d, next, rest);
      GainOne(d, next, c);
      GainStays(d, next, cs);
      GainCompose(d, Render(d, next, c), RenderAll(d, next, rest), GainedBy(d, next, [c]), GainedBy(d, next, rest));
      OneGained(d, next, c, rest);
    }
  }
}
