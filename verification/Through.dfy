/**
 Many-to-many relations through a declared join model (`resolve_through_relations` of
 `crates/parser/src/lower.rs`).
 */
module Through {
  import opened Names
  import opened Ir
  import opened Links
  import opened Sides
  import opened Build
  import opened Resolve

  lemma ProgressTrans(a: Work, aBacks: seq<Option<End>>, b: Work, bBacks: seq<Option<End>>, c: Work, cBacks: seq<Option<End>>,
                      s: set<End>, t: set<End>, u: set<ModelName>, v: set<ModelName>)
    requires Progress(a, aBacks, b, bBacks, s, u) && Progress(b, bBacks, c, cBacks, t, v)
    requires forall e :: e in t ==> a.models.Has(e.model)
    ensures Progress(a, aBacks, c, cBacks, s + t, u + v)
  {
    GrowsTrans(a.models, b.models, c.models);
    LeavesTrans(a.models, b.models, c.models, s, t);
    forall e | IsRelation(c.models, e) && !a.models.Has(e.model) ensures ResolvedAt(c.models, e).Some? {
      if b.models.Has(e.model) {
        assert e !in t;
        assert IsRelation(b.models, e);
      }
    }
  }

  /** Entries that fitted still fit. */
  lemma FitsStay(a: Work, aBacks: seq<Option<End>>, b: Work, bBacks: seq<Option<End>>, ends: set<End>, added: set<ModelName>, from: nat)
    requires Linked(a.models, a.entries, aBacks) && Progress(a, aBacks, b, bBacks, ends, added) && from <= |a.entries|
    ensures AllFit(b.models, b.entries, bBacks, from) <==>
            AllFit(a.models, a.entries, aBacks, from) && AllFit(b.models, b.entries, bBacks, |a.entries|)
  {
    forall i | from <= i < |a.entries|
      ensures Fits(b.models, b.entries[i], bBacks[i]) <==> Fits(a.models, a.entries[i], aBacks[i])
    {
      assert SoundEntry(a.models, a.entries[i]);
      FitsGrows(a.models, b.models, a.entries[i], aBacks[i]);
    }
  }

  /** Pushes an entry and marks its owner. */
  method Attach(w: Work, x: Entry, ghost sound: bool, ghost base: Models, ghost backs: seq<Option<End>>)
    returns (r: Work, ghost after: seq<Option<End>>)
    requires sound ==> Linkable(w.models, w.entries, x, backs)
    ensures r.entries == w.entries + [x] && after == backs + [None] && r.problems == w.problems
    ensures r.models == Marked(w.models, OwnerEnd(x), |w.entries|) && Onwards(base, w, r)
    ensures sound ==> Progress(w, backs, r, after, {OwnerEnd(x)}, {}) && ResolvedAt(r.models, OwnerEnd(x)).Some?
  {
    var models, entries := Push(w.models, w.entries, x, sound, backs);
    r := Work(models, entries, w.problems);
    after := backs + [None];
    if Extends(base, w.models) {
      ExtendsMarked(base, w.models, OwnerEnd(x), |w.entries|);
    }
  }

  /** A side of a through group: its join model, and, for a foreign key, being in it. */
  predicate InJoin(s: Side, j: ModelName) {
    s.joinModel == Some(j) && (s.isOwner ==> s.model == j)
  }

  ghost predicate ReadyThrough(ms: Models, group: seq<Side>, j: ModelName) {
    && DistinctEnds(group) && forall s :: s in group ==> Stands(ms, s) && InJoin(s, j)
  }

  /** Everything in `ends` resolved unless a problem is recorded; whatever is resolved makes sense. */
  ghost predicate Stretch(w: Work, backs: seq<Option<End>>, r: Work, after: seq<Option<End>>, ends: set<End>) {
    && Progress(w, backs, r, after, ends, {})
    && AllFit(r.models, r.entries, after, |w.entries|)
    && (r.problems == w.problems ==> forall e :: e in ends ==> ResolvedAt(r.models, e).Some?)
  }

  lemma StretchTrans(a: Work, aBacks: seq<Option<End>>, b: Work, bBacks: seq<Option<End>>, c: Work, cBacks: seq<Option<End>>,
                     s: set<End>, t: set<End>)
    requires Stretch(a, aBacks, b, bBacks, s) && Stretch(b, bBacks, c, cBacks, t)
    requires forall e :: e in t ==> a.models.Has(e.model)
    ensures Stretch(a, aBacks, c, cBacks, s + t)
  {
    ProgressTrans(a, aBacks, b, bBacks, c, cBacks, s, t, {}, {});
    FitsStay(b, bBacks, c, cBacks, t, {}, |a.entries|);
  }

  lemma StandsStill(w: Work, backs: seq<Option<End>>, r: Work, after: seq<Option<End>>, ends: set<End>, added: set<ModelName>, s: Side)
    requires Progress(w, backs, r, after, ends, added) && Stands(w.models, s) && EndOf(s) !in ends
    ensures Stands(r.models, s)
  {
    assert RefAt(w.models, EndOf(s)) == RefAt(r.models, EndOf(s));
  }

  function Owners(group: seq<Side>): seq<Side> {
    if group == [] then [] else (if group[0].isOwner then [group[0]] else []) + Owners(group[1..])
  }

  function Lists(group: seq<Side>): seq<Side> {
    if group == [] then [] else (if group[0].isOwner then [] else [group[0]]) + Lists(group[1..])
  }

  lemma {:induction false} OwnersMembers(group: seq<Side>)
    ensures forall s :: s in Owners(group) <==> s in group && s.isOwner
  {
    if group != [] {
      OwnersMembers(group[1..]);
    }
  }

  lemma {:induction false} ListsMembers(group: seq<Side>)
    ensures forall s :: s in Lists(group) <==> s in group && !s.isOwner
  {
    if group != [] {
      ListsMembers(group[1..]);
    }
  }

  lemma PrependEnd(group: seq<Side>, part: seq<Side>)
    requires group != [] && DistinctEnds(group) && DistinctEnds(part) && forall s :: s in part ==> s in group[1..]
    ensures DistinctEnds([group[0]] + part)
  {
    forall s | s in group[1..] ensures EndOf(s) != EndOf(group[0]) {}
    forall i | 0 <= i < |part| ensures EndOf(part[i]) != EndOf(group[0]) {
      assert part[i] in part;
    }
  }

  lemma {:induction false} PartsDistinct(group: seq<Side>)
    requires DistinctEnds(group)
    ensures DistinctEnds(Owners(group)) && DistinctEnds(Lists(group))
  {
    if group != [] {
      PartsDistinct(group[1..]);
      OwnersMembers(group[1..]);
      ListsMembers(group[1..]);
      PrependEnd(group, Owners(group[1..]));
      PrependEnd(group, Lists(group[1..]));
    }
  }

  /** The first of these lists that lives on model `m`, or that there is none. */
  predicate IsBack(lists: seq<Side>, m: ModelName, back: Option<Side>) {
    match back
    case None => forall s :: s in lists ==> s.model != m
    case Some(s) =>
      exists i :: 0 <= i < |lists| && lists[i] == s && s.model == m && forall j :: 0 <= j < i ==> lists[j].model != m
  }

  /** A foreign key of the join model: its back side is the list field on the model it leads to. */
  predicate IsThroughFk(x: Entry, fk: Side, lists: seq<Side>, back: Option<Side>) {
    && OwnerEnd(x) == EndOf(fk) && x.target == fk.target && IsBack(lists, fk.target, back) && x.targetField == BackField(back)
    && x.kind == (if back.Some? && back.value.isList then ManyToOne else OneToOne)
  }

  /** The entry is that of one of the foreign keys. */
  ghost predicate OneThroughFk(x: Entry, fks: seq<Side>, lists: seq<Side>) {
    exists fk, back {:trigger IsThroughFk(x, fk, lists, back)} :: fk in fks && IsThroughFk(x, fk, lists, back)
  }

  /** The list field that lives on model `m`, if there is one. */
  method FindList(lists: seq<Side>, m: ModelName) returns (found: Option<Side>)
    ensures IsBack(lists, m, found)
  {
    for i := 0 to |lists|
      invariant forall j :: 0 <= j < i ==> lists[j].model != m
    {
      if lists[i].model == m {
        return Some(lists[i]);
      }
    }
    return None;
  }

  /** The side is a declared relation field, and what was declared still stands. */
  ghost predicate Declared(base: Models, ms: Models, s: Side) {
    Extends(base, ms) && IsRelation(base, EndOf(s)) && base.Has(s.target)
  }

  /** One foreign key of the join model. */
  method ResolveFk(fk: Side, lists: seq<Side>, w: Work, ghost sound: bool, ghost base: Models, ghost backs: seq<Option<End>>)
    returns (r: Work, ghost after: seq<Option<End>>)
    requires sound ==> Linked(w.models, w.entries, backs) && Stands(w.models, fk)
    ensures Onwards(base, w, r)
    ensures Declared(base, w.models, fk) ==> (r.problems == w.problems <==> GoodOwner(base, fk))
    ensures r.entries == w.entries || (|r.entries| == |w.entries| + 1 && OneThroughFk(r.entries[|w.entries|], [fk], lists))
    ensures sound ==> Stretch(w, backs, r, after, {EndOf(fk)})
  {
    var back := FindList(lists, fk.target);
    var entry, problems := BuildRelation(fk, back, w.models);
    var noted := w.(problems := w.problems + problems);
    if Declared(base, w.models, fk) {
      StillGoodOwner(base, w.models, fk);
    }
    if entry.Some? {
      if sound {
        SoundBuilt(w.models, fk, back, entry.value);
      }
      assert fk in [fk] && IsThroughFk(entry.value, fk, lists, back);
      r, after := Attach(noted, entry.value, sound, base, backs);
    } else {
      r, after := noted, backs;
      if sound {
        NoProgress(w, backs, r, {EndOf(fk)}, {});
      }
    }
  }

  /** A list field of a pair, with the foreign keys of its join model. */
  ghost predicate ReadyList(w: Work, owner: Side, fks: seq<Side>, backs: seq<Option<End>>) {
    && Linked(w.models, w.entries, backs)
    && IsRelation(w.models, EndOf(owner)) && ResolvedAt(w.models, EndOf(owner)).None?
    && owner.joinModel.Some? && w.models.Has(owner.joinModel.value) && FksStand(w.models, fks)
  }

  lemma FirstStands(ms: Models, fks: seq<Side>, through: ModelName, m: ModelName)
    requires FksStand(ms, fks) && (forall s :: s in fks ==> s.model == through) && Leads(fks, m)
    ensures Joins(ms, through, fks, m)
  {
    var s :| s in fks && s.target == m;
    var i :| 0 <= i < |fks| && fks[i] == s;
    var k := FirstIndex(fks, m, i);
    assert IsFirstTo(fks, m, fks[k].field) && IsRelation(ms, EndOf(fks[k]));
  }

  lemma FirstIndex(fks: seq<Side>, m: ModelName, i: nat) returns (k: nat)
    requires i < |fks| && fks[i].target == m
    ensures k <= i && fks[k].target == m && forall j :: 0 <= j < k ==> fks[j].target != m
  {
    k := 0;
    while fks[k].target != m
      invariant k <= i && forall j :: 0 <= j < k ==> fks[j].target != m
      decreases i - k
    {
      k := k + 1;
    }
  }

  /** One list field of the pair. */
  method ResolveList(owner: Side, back: Side, fks: seq<Side>, w: Work, ghost sound: bool, ghost base: Models, ghost backs: seq<Option<End>>)
    returns (r: Work, ghost after: seq<Option<End>>)
    requires owner.joinModel.Some? && forall s :: s in fks ==> s.model == owner.joinModel.value
    requires sound ==> ReadyList(w, owner, fks, backs)
    ensures Onwards(base, w, r)
    ensures w.models.Has(owner.joinModel.value) ==>
              (r.problems == w.problems <==> Leads(fks, owner.model) && Leads(fks, back.model))
    ensures forall i :: |w.entries| <= i < |r.entries| ==> r.entries[i].kind.ManyToMany?
    ensures sound ==> Stretch(w, backs, r, after, {EndOf(owner)})
  {
    var entry, problems := BuildManyToMany(owner, back, fks, w.models);
    var noted := w.(problems := w.problems + problems);
    if entry.Some? {
      r, after := Attach(noted, entry.value, sound, base, backs);
      if sound {
        FitsGrows(w.models, r.models, entry.value, None);
      }
    } else {
      r, after := noted, backs;
      if sound {
        if Leads(fks, owner.model) && Leads(fks, back.model) {
          FirstStands(w.models, fks, owner.joinModel.value, owner.model);
          FirstStands(w.models, fks, owner.joinModel.value, back.model);
        }
        NoProgress(w, backs, r, {EndOf(owner)}, {});
      }
    }
  }

  lemma EndsStep(sides: seq<Side>, i: nat)
    requires i < |sides| && DistinctEnds(sides)
    ensures Ends(sides[..i + 1]) == Ends(sides[..i]) + {EndOf(sides[i])} && EndOf(sides[i]) !in Ends(sides[..i])
  {
    assert sides[..i + 1] == sides[..i] + [sides[i]];
    forall s | s in sides[..i] ensures EndOf(s) != EndOf(sides[i]) {}
  }

  ghost predicate ReadySides(w: Work, sides: seq<Side>, backs: seq<Option<End>>) {
    Linked(w.models, w.entries, backs) && DistinctEnds(sides) && forall s :: s in sides ==> Stands(w.models, s)
  }

  ghost predicate GoodOwners(ms: Models, fks: seq<Side>) {
    forall s :: s in fks ==> GoodOwner(ms, s)
  }

  /** From `n` on, the entries are those of the foreign keys. */
  ghost predicate FromFks(entries: seq<Entry>, n: nat, fks: seq<Side>, lists: seq<Side>) {
    forall i :: n <= i < |entries| ==> OneThroughFk(entries[i], fks, lists)
  }

  lemma OneMoreOwner(base: Models, fks: seq<Side>, i: nat)
    requires i < |fks|
    ensures GoodOwners(base, fks[..i + 1]) <==> GoodOwners(base, fks[..i]) && GoodOwner(base, fks[i])
  {
    assert fks[..i + 1] == fks[..i] + [fks[i]];
  }

  /** The join model's foreign keys, one after the other. */
  method ResolveFks(fks: seq<Side>, lists: seq<Side>, w: Work, ghost sound: bool, ghost base: Models, ghost backs: seq<Option<End>>)
    returns (r: Work, ghost after: seq<Option<End>>)
    requires sound ==> ReadySides(w, fks, backs)
    ensures Onwards(base, w, r)
    ensures Extends(base, w.models) && DeclaredGroup(base, fks) ==> (r.problems == w.problems <==> GoodOwners(base, fks))
    ensures FromFks(r.entries, |w.entries|, fks, lists)
    ensures sound ==> Stretch(w, backs, r, after, Ends(fks))
  {
    r, after := w, backs;
    if sound {
      NoProgress(w, backs, r, {}, {});
    }
    assert Ends(fks[..0]) == {};
    for i := 0 to |fks|
      invariant Onwards(base, w, r)
      invariant Extends(base, w.models) && DeclaredGroup(base, fks) ==> (r.problems == w.problems <==> GoodOwners(base, fks[..i]))
      invariant FromFks(r.entries, |w.entries|, fks, lists)
      invariant sound ==> Stretch(w, backs, r, after, Ends(fks[..i]))
    {
      OneMoreOwner(base, fks, i);
      assert fks[i] in fks;
      ghost var mid, midBacks := r, after;
      if sound {
        EndsStep(fks, i);
        StandsStill(w, backs, r, after, Ends(fks[..i]), {}, fks[i]);
      }
      r, after := ResolveFk(fks[i], lists, r, sound, base, after);
      OneOfThem(mid.entries, r.entries, |w.entries|, fks, i, lists);
      if sound {
        StretchTrans(w, backs, mid, midBacks, r, after, Ends(fks[..i]), {EndOf(fks[i])});
      }
    }
    assert fks[..|fks|] == fks;
  }

  lemma OneOfThem(before: seq<Entry>, after: seq<Entry>, n: nat, fks: seq<Side>, i: nat, lists: seq<Side>)
    requires i < |fks| && before <= after && FromFks(before, n, fks, lists)
    requires after == before || (|after| == |before| + 1 && OneThroughFk(after[|before|], [fks[i]], lists))
    ensures FromFks(after, n, fks, lists)
  {
    if after != before {
      var fk, back :| fk in [fks[i]] && IsThroughFk(after[|before|], fk, lists, back);
      assert fk in fks;
    }
  }

  /** Both list fields are ready. */
  ghost predicate ReadyLists(w: Work, a: Side, b: Side, fks: seq<Side>, j: ModelName, backs: seq<Option<End>>) {
    && Linked(w.models, w.entries, backs) && Stands(w.models, a) && Stands(w.models, b) && EndOf(a) != EndOf(b)
    && w.models.Has(j) && FksStand(w.models, fks)
  }

  /** Both list fields, each with its own entry. */
  method ResolveLists(a: Side, b: Side, fks: seq<Side>, ghost j: ModelName, w: Work, ghost sound: bool, ghost base: Models, ghost backs: seq<Option<End>>)
    returns (r: Work, ghost after: seq<Option<End>>)
    requires a.joinModel == Some(j) && b.joinModel == Some(j) && forall s :: s in fks ==> s.model == j
    requires sound ==> ReadyLists(w, a, b, fks, j, backs)
    ensures Onwards(base, w, r)
    ensures Extends(base, w.models) && base.Has(j) ==>
              (r.problems == w.problems <==> Leads(fks, a.model) && Leads(fks, b.model))
    ensures forall i :: |w.entries| <= i < |r.entries| ==> r.entries[i].kind.ManyToMany?
    ensures sound ==> Stretch(w, backs, r, after, {EndOf(a), EndOf(b)})
  {
    r, after := ResolveList(a, b, fks, w, sound, base, backs);
    ghost var mid, midBacks := r, after;
    if sound {
      StandsStill(w, backs, r, after, {EndOf(a)}, {}, b);
      FksStandStill(w, backs, r, after, {EndOf(a)}, fks);
    }
    r, after := ResolveList(b, a, fks, r, sound, base, after);
    if sound {
      StretchTrans(w, backs, mid, midBacks, r, after, {EndOf(a)}, {EndOf(b)});
      assert {EndOf(a)} + {EndOf(b)} == {EndOf(a), EndOf(b)};
    }
  }

  lemma FksStandStill(w: Work, backs: seq<Option<End>>, r: Work, after: seq<Option<End>>, ends: set<End>, fks: seq<Side>)
    requires Stretch(w, backs, r, after, ends) && FksStand(w.models, fks)
    ensures FksStand(r.models, fks)
  {
    forall s | s in fks ensures IsRelation(r.models, EndOf(s)) && RefAt(r.models, EndOf(s)).target == s.target {
      assert SameRef(RefAt(w.models, EndOf(s)), RefAt(r.models, EndOf(s)));
    }
  }

  lemma EndsOfParts(group: seq<Side>)
    ensures Ends(group) == Ends(Owners(group)) + Ends(Lists(group))
  {
    OwnersMembers(group);
    ListsMembers(group);
  }

  /** A group is given up, with a problem. */
  lemma GaveUp(group: seq<Side>, w: Work, sound: bool, backs: seq<Option<End>>, r: Work)
    requires sound ==> Linked(w.models, w.entries, backs)
    requires r.models == w.models && r.entries == w.entries && w.problems < r.problems
    ensures sound ==> Stretch(w, backs, r, backs, Ends(group))
  {}

  /** Two list fields that face each other, and two foreign keys of the join model, one to each of their models. */
  ghost predicate GoodThrough(ms: Models, group: seq<Side>) {
    var lists, fks := Lists(group), Owners(group);
    && |group| == 4 && |lists| == 2 && |fks| == 2
    && Opposite(lists[0], lists[1])
    && GoodOwners(ms, fks) && Leads(fks, lists[0].model) && Leads(fks, lists[1].model)
  }

  /** One group of `resolve_through_relations`. */
  method ResolveThroughGroup(group: seq<Side>, j: ModelName, w: Work, ghost sound: bool, ghost base: Models, ghost backs: seq<Option<End>>)
    returns (r: Work, ghost after: seq<Option<End>>)
    requires group != [] && forall s :: s in group ==> InJoin(s, j)
    requires sound ==> Linked(w.models, w.entries, backs) && ReadyThrough(w.models, group, j)
    ensures Onwards(base, w, r)
    ensures Extends(base, w.models) && DeclaredGroup(base, group) ==> (r.problems == w.problems <==> GoodThrough(base, group))
    ensures sound ==> Stretch(w, backs, r, after, Ends(group))
    ensures sound && r.problems == w.problems ==> forall s :: s in group ==> ResolvedAt(r.models, EndOf(s)).Some?
    ensures forall i :: |w.entries| <= i < |r.entries| ==>
              r.entries[i].kind.ManyToMany? || OneThroughFk(r.entries[i], Owners(group), Lists(group))
  {
    after := backs;
    if |group| != 4 {
      r := w.(problems := w.problems + [Problem(InvalidJoinModel, EndOf(group[0]))]);
      GaveUp(group, w, sound, backs, r);
      return;
    }
    var lists, fks := Lists(group), Owners(group);
    if |lists| != 2 || |fks| != 2 {
      r := w.(problems := w.problems + [Problem(InvalidJoinModel, EndOf(group[0]))]);
      GaveUp(group, w, sound, backs, r);
      return;
    }
    var a, b := lists[0], lists[1];
    if a.model != b.target || b.model != a.target {
      r := w.(problems := w.problems + [Problem(MissingBackRelation, EndOf(a))]);
      GaveUp(group, w, sound, backs, r);
      return;
    }
    r, after := ResolveFour(group, j, lists, fks, w, sound, base, backs);
    assert sound ==> forall s :: s in group ==> EndOf(s) in Ends(group);
  }

  /** The foreign keys first, then the lists. */
  method ResolveFour(ghost group: seq<Side>, ghost j: ModelName, lists: seq<Side>, fks: seq<Side>, w: Work,
                     ghost sound: bool, ghost base: Models, ghost backs: seq<Option<End>>)
    returns (r: Work, ghost after: seq<Option<End>>)
    requires lists == Lists(group) && fks == Owners(group) && |lists| == 2 && |fks| == 2
    requires forall s :: s in group ==> InJoin(s, j)
    requires sound ==> Linked(w.models, w.entries, backs) && ReadyThrough(w.models, group, j)
    ensures Onwards(base, w, r)
    ensures Extends(base, w.models) && DeclaredGroup(base, group) ==>
              (r.problems == w.problems <==> GoodOwners(base, fks) && Leads(fks, lists[0].model) && Leads(fks, lists[1].model))
    ensures forall i :: |w.entries| <= i < |r.entries| ==>
              r.entries[i].kind.ManyToMany? || OneThroughFk(r.entries[i], fks, lists)
    ensures sound ==> Stretch(w, backs, r, after, Ends(group))
  {
    OwnersMembers(group);
    ListsMembers(group);
    assert fks[0] in fks && lists[0] in lists && lists[1] in lists;
    if sound {
      PartsDistinct(group);
    }
    r, after := ResolveFks(fks, lists, w, sound, base, backs);
    ghost var mid, midBacks := r, after;
    ghost var known := Extends(base, w.models) && DeclaredGroup(base, group);
    assert known ==> DeclaredGroup(base, fks) && base.Has(j);
    assert known ==> (mid.problems == w.problems <==> GoodOwners(base, fks));
    if sound {
      ListsUntouched(group, j, w, backs, r, after);
    }
    r, after := ResolveLists(lists[0], lists[1], fks, j, r, sound, base, after);
    assert known ==> (r.problems == mid.problems <==> Leads(fks, lists[0].model) && Leads(fks, lists[1].model));
    assert r.problems == w.problems <==> mid.problems == w.problems && r.problems == mid.problems;
    if sound {
      FourDone(group, j, w, backs, mid, midBacks, r, after);
    }
  }

  lemma FourDone(group: seq<Side>, j: ModelName, w: Work, backs: seq<Option<End>>, mid: Work, midBacks: seq<Option<End>>,
                 r: Work, after: seq<Option<End>>)
    requires ReadyThrough(w.models, group, j) && |Lists(group)| == 2
    requires Stretch(w, backs, mid, midBacks, Ends(Owners(group)))
    requires Stretch(mid, midBacks, r, after, {EndOf(Lists(group)[0]), EndOf(Lists(group)[1])})
    ensures Stretch(w, backs, r, after, Ends(group))
  {
    ListsMembers(group);
    PairEnds(Lists(group));
    StretchTrans(w, backs, mid, midBacks, r, after, Ends(Owners(group)), Ends(Lists(group)));
    EndsOfParts(group);
  }

  /** The list fields are still to be resolved when the foreign keys are. */
  lemma ListsUntouched(group: seq<Side>, j: ModelName, w: Work, backs: seq<Option<End>>, r: Work, after: seq<Option<End>>)
    requires ReadyThrough(w.models, group, j) && Stretch(w, backs, r, after, Ends(Owners(group)))
    requires |Lists(group)| == 2 && |Owners(group)| == 2
    ensures ReadyLists(r, Lists(group)[0], Lists(group)[1], Owners(group), j, after)
  {
    var lists, fks := Lists(group), Owners(group);
    OwnersMembers(group);
    ListsMembers(group);
    PartsDistinct(group);
    assert lists[0] in lists && lists[1] in lists && fks[0] in fks;
    FksStandStill(w, backs, r, after, Ends(fks), fks);
    forall s | s in lists ensures Stands(r.models, s) {
      PartsApart(group, s);
      StandsStill(w, backs, r, after, Ends(fks), {}, s);
    }
  }

  lemma PartsApart(group: seq<Side>, s: Side)
    requires DistinctEnds(group) && s in group && !s.isOwner
    ensures EndOf(s) !in Ends(Owners(group))
  {
    OwnersMembers(group);
    forall t | t in Owners(group) ensures EndOf(t) != EndOf(s) {
      var i, k :| 0 <= i < |group| && 0 <= k < |group| && group[i] == t && group[k] == s;
    }
  }
}
