/**
 Relation resolution as a whole (`resolve_relations` of `crates/parser/src/lower.rs`).
 */
module Relations {
  import opened Names
  import opened Ir
  import opened Links
  import opened Sides
  import opened Resolve
  import opened Through

  /** What lowering hands over: relations lead to models, and none is resolved yet. */
  ghost predicate Lowered(ms: Models) {
    && ms.Valid() && (forall m :: ms.Has(m) ==> ms.Get(m).fields.Valid())
    && (forall e :: IsRelation(ms, e) ==> ms.Has(RefAt(ms, e).target) && RefAt(ms, e).resolved.None?)
    && (forall m :: ColumnKey(ms, m))
  }

  /** A side outside any join model. */
  ghost predicate IsRegular(ms: Models, s: Side) {
    IsSide(ms, s) && s.joinModel.None?
  }

  /** Two different sides of one group. */
  ghost predicate Partners(ms: Models, s: Side, t: Side) {
    IsRegular(ms, s) && IsRegular(ms, t) && EndOf(s) != EndOf(t) && KeyOf(s) == KeyOf(t)
  }

  ghost predicate ListPartners(ms: Models, s: Side, t: Side) {
    Partners(ms, s, t) && IsImplicit([s, t])
  }

  /** No declared model bears the name of a join model that will be made up. */
  ghost predicate JoinsUndeclared(ms: Models) {
    forall s, t :: ListPartners(ms, s, t) ==> !ms.Has(JoinName(s, t))
  }

  /** No two implicit relations get join models of the same name. */
  ghost predicate NoClash(ms: Models) {
    forall s, t, u, v :: ListPartners(ms, s, t) && ListPartners(ms, u, v) && KeyOf(s) != KeyOf(u) ==>
      JoinName(s, t) != JoinName(u, v)
  }

  /** The join models made up for implicit relations get names of their own. */
  ghost predicate FreshJoins(ms: Models) {
    JoinsUndeclared(ms) && NoClash(ms)
  }

  /** No two fields of a model carry a relation of the same name, or of no name, to the same other model. */
  ghost predicate AllOpposite(ms: Models) {
    forall s, t :: Partners(ms, s, t) ==> Opposite(s, t)
  }

  ghost predicate AllKeyed(ms: Models) {
    forall m :: ms.Has(m) ==> Keyed(ms, m)
  }

  function Regular(sides: seq<Side>): seq<Side> {
    if sides == [] then []
    else (if sides[0].joinModel.None? then [sides[0]] else []) + Regular(sides[1..])
  }

  function Joined(sides: seq<Side>): seq<Side> {
    if sides == [] then []
    else (if sides[0].joinModel.None? then [] else [sides[0]]) + Joined(sides[1..])
  }

  lemma {:induction false} RegularMembers(sides: seq<Side>)
    ensures forall s :: s in Regular(sides) <==> s in sides && s.joinModel.None?
  {
    if sides != [] {
      RegularMembers(sides[1..]);
    }
  }

  lemma {:induction false} JoinedMembers(sides: seq<Side>)
    ensures forall s :: s in Joined(sides) <==> s in sides && s.joinModel.Some?
  {
    if sides != [] {
      JoinedMembers(sides[1..]);
    }
  }

  lemma {:induction false} PartitionDistinct(sides: seq<Side>)
    requires DistinctEnds(sides)
    ensures DistinctEnds(Regular(sides)) && DistinctEnds(Joined(sides))
  {
    if sides != [] {
      PartitionDistinct(sides[1..]);
      RegularMembers(sides[1..]);
      JoinedMembers(sides[1..]);
      forall s | s in sides[1..] ensures EndOf(s) != EndOf(sides[0]) {}
      forall i | 0 <= i < |Regular(sides[1..])| ensures EndOf(Regular(sides[1..])[i]) != EndOf(sides[0]) {
        assert Regular(sides[1..])[i] in sides[1..];
      }
      forall i | 0 <= i < |Joined(sides[1..])| ensures EndOf(Joined(sides[1..])[i]) != EndOf(sides[0]) {
        assert Joined(sides[1..])[i] in sides[1..];
      }
    }
  }

  // ---- The regular groups --------------------------------------------------------------------------------

  type Groups = IndexMap<GroupKey, seq<Side>>

  /** The groups, dealt out from sides of `ms`. */
  ghost predicate RegularGroups(ms: Models, groups: Groups) {
    && groups.Valid()
    && (forall k :: groups.Has(k) ==> groups.Get(k) != [] && DistinctEnds(groups.Get(k)))
    && (forall k, s :: Dealt(groups, k, s) ==> IsRegular(ms, s) && KeyOf(s) == k)
  }

  predicate Dealt(groups: Groups, k: GroupKey, s: Side) {
    groups.Has(k) && s in groups.Get(k)
  }

  /** What is known when `done` groups have been processed. */
  ghost predicate Halfway(ms: Models, groups: Groups, done: set<GroupKey>, w: Work, r: Work, after: seq<Option<End>>,
                          ends: set<End>, added: set<ModelName>)
  {
    Progress(w, [], r, after, ends, added) && Origins(groups, done, ends, added) && Verdicts(ms, groups, done, w, r, after)
  }

  /** The fields and models touched so far belong to the groups in `done`. */
  ghost predicate Origins(groups: Groups, done: set<GroupKey>, ends: set<End>, added: set<ModelName>) {
    && (forall e :: e in ends ==> exists k, s {:trigger InGroup(groups, done, k, s, e)} :: InGroup(groups, done, k, s, e))
    && (forall m :: m in added ==> exists k {:trigger InventedBy(groups, done, k, m)} :: InventedBy(groups, done, k, m))
  }

  /** Without problems all pairs are resolved; the entries fit exactly when the pairs do. */
  ghost predicate Verdicts(ms: Models, groups: Groups, done: set<GroupKey>, w: Work, r: Work, after: seq<Option<End>>)
    requires |after| == |r.entries|
  {
    && (r.problems == w.problems && AllKeyed(ms) ==> AllDone(groups, done, r))
    && (AllPairsFit(groups, done) ==> AllFit(r.models, r.entries, after, 0))
    && (r.problems == w.problems && AllKeyed(ms) && AllFit(r.models, r.entries, after, 0) ==> AllPairsFit(groups, done))
  }

  ghost predicate AllDone(groups: Groups, done: set<GroupKey>, r: Work) {
    forall k :: k in done && groups.Has(k) ==> PairDone(r, groups.Get(k))
  }

  ghost predicate AllPairsFit(groups: Groups, done: set<GroupKey>) {
    forall k :: k in done && groups.Has(k) ==> PairFits(groups.Get(k))
  }

  predicate InGroup(groups: Groups, done: set<GroupKey>, k: GroupKey, s: Side, e: End) {
    k in done && groups.Has(k) && s in groups.Get(k) && EndOf(s) == e
  }

  predicate InventedBy(groups: Groups, done: set<GroupKey>, k: GroupKey, m: ModelName) {
    k in done && groups.Has(k) && m in Invented(groups.Get(k))
  }

  /** Both sides of a group of two are resolved. */
  predicate PairDone(r: Work, group: seq<Side>) {
    |group| == 2 && ResolvedAt(r.models, EndOf(group[0])).Some? && ResolvedAt(r.models, EndOf(group[1])).Some?
  }

  predicate PairFits(group: seq<Side>) {
    |group| == 2 ==> Opposite(group[0], group[1])
  }

  /** A group that is still to come is as collected. */
  lemma NextReady(ms: Models, groups: Groups, done: set<GroupKey>, w: Work, r: Work, after: seq<Option<End>>,
                  ends: set<End>, added: set<ModelName>, k: GroupKey)
    requires Lowered(ms) && FreshJoins(ms) && RegularGroups(ms, groups) && w.models == ms
    requires Halfway(ms, groups, done, w, r, after, ends, added) && groups.Has(k) && k !in done
    ensures ReadyGroup(r.models, groups.Get(k))
  {
    var group := groups.Get(k);
    forall s | s in group ensures Stands(r.models, s) && KeyOf(s) == KeyOf(group[0]) && ColumnKey(r.models, s.model) {
      assert Dealt(groups, k, s) && Dealt(groups, k, group[0]);
      assert Stands(ms, s);
      if EndOf(s) in ends {
        var j, t :| InGroup(groups, done, j, t, EndOf(s));
        assert Dealt(groups, j, t);
      }
      StandsStill(w, [], r, after, ends, added, s);
      KeyStays(ms, r.models, s.model);
    }
    forall m | m in Invented(group) ensures !r.models.Has(m) {
      InventedFresh(ms, groups, done, k, m, ends, added);
    }
  }

  lemma KeyStays(a: Models, b: Models, m: ModelName)
    requires Grows(a, b) && a.Has(m) && ColumnKey(a, m)
    ensures ColumnKey(b, m)
  {
    if Keyed(b, m) {
      var e := End(m, PrimaryKey(a, m)[0]);
      assert IsRelation(a, e) <==> IsRelation(b, e);
    }
  }

  lemma InventedFresh(ms: Models, groups: Groups, done: set<GroupKey>, k: GroupKey, m: ModelName,
                      ends: set<End>, added: set<ModelName>)
    requires FreshJoins(ms) && RegularGroups(ms, groups) && groups.Has(k) && k !in done && m in Invented(groups.Get(k))
    requires Origins(groups, done, ends, added)
    ensures !ms.Has(m) && m !in added
  {
    var group := groups.Get(k);
    ListsOfGroup(ms, groups, k);
    if m in added {
      var j :| InventedBy(groups, done, j, m);
      ListsOfGroup(ms, groups, j);
    }
  }

  lemma ListsOfGroup(ms: Models, groups: Groups, k: GroupKey)
    requires RegularGroups(ms, groups) && groups.Has(k) && IsImplicit(groups.Get(k))
    ensures ListPartners(ms, groups.Get(k)[0], groups.Get(k)[1]) && KeyOf(groups.Get(k)[0]) == k
  {
    var group := groups.Get(k);
    assert Dealt(groups, k, group[0]) && Dealt(groups, k, group[1]);
  }

  /** What one more group adds to what is known. */
  lemma GroupVerdict(ms: Models, group: seq<Side>, w: Work, backs: seq<Option<End>>, r: Work, after: seq<Option<End>>)
    requires Linked(w.models, w.entries, backs) && GroupOutcome(group, w, backs, r, after) && Grows(ms, w.models)
    requires forall s :: s in group ==> ms.Has(s.model)
    ensures r.problems == w.problems && AllKeyed(ms) ==> PairDone(r, group)
    ensures PairFits(group) ==> AllFit(r.models, r.entries, after, |w.entries|)
    ensures r.problems == w.problems && AllKeyed(ms) && AllFit(r.models, r.entries, after, |w.entries|) ==> PairFits(group)
  {
    if IsImplicit(group) {
      assert group[0] in group && group[1] in group;
    }
  }

  lemma HalfwayStep(ms: Models, groups: Groups, done: set<GroupKey>, w: Work, r: Work, after: seq<Option<End>>,
                    ends: set<End>, added: set<ModelName>, k: GroupKey, r2: Work, after2: seq<Option<End>>)
    requires Lowered(ms) && RegularGroups(ms, groups) && w.models == ms
    requires Halfway(ms, groups, done, w, r, after, ends, added) && groups.Has(k)
    requires GroupOutcome(groups.Get(k), r, after, r2, after2)
    ensures Halfway(ms, groups, done + {k}, w, r2, after2, ends + Ends(groups.Get(k)), added + Invented(groups.Get(k)))
  {
    var group := groups.Get(k);
    DealtModels(ms, groups, k);
    ProgressTrans(w, [], r, after, r2, after2, ends, Ends(group), added, Invented(group));
    VerdictsAfter(ms, groups, done, w, r, after, k, r2, after2);
    OriginsStep(groups, done, ends, added, k);
  }

  lemma DealtModels(ms: Models, groups: Groups, k: GroupKey)
    requires RegularGroups(ms, groups) && groups.Has(k)
    ensures forall s :: s in groups.Get(k) ==> ms.Has(s.model)
    ensures forall e :: e in Ends(groups.Get(k)) ==> ms.Has(e.model)
  {
    forall s | s in groups.Get(k) ensures ms.Has(s.model) {
      assert Dealt(groups, k, s);
    }
  }

  lemma VerdictsAfter(ms: Models, groups: Groups, done: set<GroupKey>, w: Work, r: Work, after: seq<Option<End>>,
                      k: GroupKey, r2: Work, after2: seq<Option<End>>)
    requires Linked(r.models, r.entries, after) && Verdicts(ms, groups, done, w, r, after) && groups.Has(k)
    requires w.problems <= r.problems && Grows(ms, r.models) && forall s :: s in groups.Get(k) ==> ms.Has(s.model)
    requires GroupOutcome(groups.Get(k), r, after, r2, after2)
    ensures Verdicts(ms, groups, done + {k}, w, r2, after2)
  {
    var group := groups.Get(k);
    GroupVerdict(ms, group, r, after, r2, after2);
    FitsStay(r, after, r2, after2, Ends(group), Invented(group), 0);
    VerdictsStep(ms, groups, done, w, r, after, k, r2, after2);
  }

  lemma VerdictsStep(ms: Models, groups: Groups, done: set<GroupKey>, w: Work, r: Work, after: seq<Option<End>>,
                     k: GroupKey, r2: Work, after2: seq<Option<End>>)
    requires |after| == |r.entries| && |after2| == |r2.entries| && Verdicts(ms, groups, done, w, r, after) && groups.Has(k)
    requires w.problems <= r.problems <= r2.problems && KeepsPointers(r.models, r2.models)
    requires AllFit(r2.models, r2.entries, after2, 0) <==>
             AllFit(r.models, r.entries, after, 0) && AllFit(r2.models, r2.entries, after2, |r.entries|)
    requires r2.problems == r.problems && AllKeyed(ms) ==> PairDone(r2, groups.Get(k))
    requires PairFits(groups.Get(k)) ==> AllFit(r2.models, r2.entries, after2, |r.entries|)
    requires r2.problems == r.problems && AllKeyed(ms) && AllFit(r2.models, r2.entries, after2, |r.entries|) ==> PairFits(groups.Get(k))
    ensures Verdicts(ms, groups, done + {k}, w, r2, after2)
  {
    assert r2.problems == w.problems ==> r.problems == w.problems && r2.problems == r.problems;
    if r2.problems == w.problems && AllKeyed(ms) {
      forall j | j in done + {k} && groups.Has(j) ensures PairDone(r2, groups.Get(j)) {
        if j != k {
          assert PairDone(r, groups.Get(j));
        }
      }
    }
    if AllPairsFit(groups, done + {k}) {
      assert PairFits(groups.Get(k));
      forall j | j in done && groups.Has(j) ensures PairFits(groups.Get(j)) {
        assert j in done + {k};
      }
    }
  }

  lemma OriginsStep(groups: Groups, done: set<GroupKey>, ends: set<End>, added: set<ModelName>, k: GroupKey)
    requires groups.Has(k)
    requires Origins(groups, done, ends, added)
    ensures Origins(groups, done + {k}, ends + Ends(groups.Get(k)), added + Invented(groups.Get(k)))
  {
    forall e | e in ends + Ends(groups.Get(k))
      ensures exists j, s {:trigger InGroup(groups, done + {k}, j, s, e)} :: InGroup(groups, done + {k}, j, s, e)
    {
      if e in ends {
        var j, s :| InGroup(groups, done, j, s, e);
        assert InGroup(groups, done + {k}, j, s, e);
      } else {
        var s :| s in groups.Get(k) && EndOf(s) == e;
        assert InGroup(groups, done + {k}, k, s, e);
      }
    }
    forall m | m in added + Invented(groups.Get(k))
      ensures exists j {:trigger InventedBy(groups, done + {k}, j, m)} :: InventedBy(groups, done + {k}, j, m)
    {
      if m in added {
        var j :| InventedBy(groups, done, j, m);
        assert InventedBy(groups, done + {k}, j, m);
      } else {
        assert InventedBy(groups, done + {k}, k, m);
      }
    }
  }

  function KeySet(keys: seq<GroupKey>): set<GroupKey> {
    set k | k in keys
  }

  /** A group of two list fields whose models have keys. */
  predicate Claiming(ms: Models, group: seq<Side>) {
    IsImplicit(group) && Keyed(ms, group[0].model) && Keyed(ms, group[1].model)
  }

  ghost predicate AllGood(ms: Models, groups: Groups, done: set<GroupKey>) {
    forall k :: k in done && groups.Has(k) ==> GoodGroup(ms, groups.Get(k))
  }

  /** Each group in `done` that made up a join model has an entry of its own for the first foreign key. */
  ghost predicate Slotted(ms: Models, groups: Groups, done: set<GroupKey>, entries: seq<Entry>, slots: map<GroupKey, nat>) {
    && (forall k :: k in done && groups.Has(k) && Claiming(ms, groups.Get(k)) ==>
          k in slots && Claims(entries, slots[k], JoinName(groups.Get(k)[0], groups.Get(k)[1])))
    && (forall k :: k in slots ==> slots[k] < |entries|)
    && (forall j, k :: j in slots && k in slots && j != k ==> slots[j] != slots[k])
  }

  /** What is known of the groups in `done` whether or not names clashed. */
  ghost predicate Tally(ms: Models, groups: Groups, done: set<GroupKey>, w: Work, r: Work, slots: map<GroupKey, nat>) {
    && Extends(ms, r.models) && w.problems <= r.problems
    && (r.problems == w.problems <==> AllGood(ms, groups, done))
    && Slotted(ms, groups, done, r.entries, slots)
  }

  lemma TallyStep(ms: Models, groups: Groups, done: set<GroupKey>, w: Work, r: Work, slots: map<GroupKey, nat>, k: GroupKey, r2: Work)
    requires Tally(ms, groups, done, w, r, slots) && groups.Has(k)
    requires Extends(ms, r2.models) && r.problems <= r2.problems && r.entries <= r2.entries
    requires r2.problems == r.problems <==> GoodGroup(ms, groups.Get(k))
    requires GroupClaims(ms, groups.Get(k), r, r2)
    ensures Tally(ms, groups, done + {k}, w, r2, if Claiming(ms, groups.Get(k)) then slots[k := |r.entries|] else slots)
  {
    assert r2.problems == w.problems <==> r.problems == w.problems && r2.problems == r.problems;
    assert AllGood(ms, groups, done + {k}) <==> AllGood(ms, groups, done) && GoodGroup(ms, groups.Get(k)) by {
      assert k in done + {k};
    }
  }

  /** The sides of a group were declared, and the join model it makes up was not. */
  lemma GroupOfDeclared(ms: Models, groups: Groups, k: GroupKey)
    requires Lowered(ms) && RegularGroups(ms, groups) && groups.Has(k)
    ensures DeclaredGroup(ms, groups.Get(k))
    ensures JoinsUndeclared(ms) ==> forall m :: m in Invented(groups.Get(k)) ==> !ms.Has(m)
  {
    forall s | s in groups.Get(k) ensures IsRelation(ms, EndOf(s)) && ms.Has(s.target) {
      assert Dealt(groups, k, s);
    }
    if IsImplicit(groups.Get(k)) {
      ListsOfGroup(ms, groups, k);
    }
  }

  /** What is known when the groups in `done` have been processed. */
  ghost predicate RegularSoFar(groups: Groups, done: set<GroupKey>, w: Work, sound: bool, r: Work, after: seq<Option<End>>,
                               ends: set<End>, added: set<ModelName>, slots: map<GroupKey, nat>)
  {
    && (sound ==> Halfway(w.models, groups, done, w, r, after, ends, added))
    && (JoinsUndeclared(w.models) ==> Tally(w.models, groups, done, w, r, slots))
  }

  method ResolveNextRegular(groups: Groups, k: GroupKey, ghost done: set<GroupKey>, ghost w: Work, ghost sound: bool, mid: Work, ghost midBacks: seq<Option<End>>,
                            ghost ends: set<End>, ghost added: set<ModelName>, ghost slots: map<GroupKey, nat>)
    returns (r: Work, ghost after: seq<Option<End>>, ghost more: map<GroupKey, nat>)
    requires Lowered(w.models) && RegularGroups(w.models, groups) && groups.Has(k) && k !in done
    requires sound ==> FreshJoins(w.models)
    requires RegularSoFar(groups, done, w, sound, mid, midBacks, ends, added, slots)
    ensures RegularSoFar(groups, done + {k}, w, sound, r, after, ends + Ends(groups.Get(k)), added + Invented(groups.Get(k)), more)
  {
    if sound {
      NextReady(w.models, groups, done, w, mid, midBacks, ends, added, k);
    }
    r, after := ResolveGroup(groups.Get(k), mid, sound, w.models, midBacks);
    if sound {
      HalfwayStep(w.models, groups, done, w, mid, midBacks, ends, added, k, r, after);
    }
    GroupOfDeclared(w.models, groups, k);
    more := if Claiming(w.models, groups.Get(k)) then slots[k := |mid.entries|] else slots;
    if JoinsUndeclared(w.models) {
      TallyStep(w.models, groups, done, w, mid, slots, k, r);
    }
  }

  /** All regular groups, in the order in which their keys first appeared. */
  method ResolveRegular(groups: Groups, w: Work, ghost sound: bool)
    returns (r: Work, ghost after: seq<Option<End>>, ghost ends: set<End>, ghost added: set<ModelName>, ghost slots: map<GroupKey, nat>)
    requires Lowered(w.models) && RegularGroups(w.models, groups) && w.entries == []
    requires sound ==> FreshJoins(w.models)
    ensures RegularSoFar(groups, KeySet(groups.keys), w, sound, r, after, ends, added, slots)
  {
    r, after, ends, added, slots := w, [], {}, {}, map[];
    ghost var done: set<GroupKey> := {};
    NoProgress(w, [], r, ends, added);
    ExtendsItself(w.models);
    for i := 0 to |groups.keys|
      invariant done == KeySet(groups.keys[..i])
      invariant RegularSoFar(groups, done, w, sound, r, after, ends, added, slots)
    {
      var k := groups.keys[i];
      NextKey(groups, i);
      r, after, slots := ResolveNextRegular(groups, k, done, w, sound, r, after, ends, added, slots);
      done, ends, added := done + {k}, ends + Ends(groups.Get(k)), added + Invented(groups.Get(k));
    }
    assert groups.keys[..|groups.keys|] == groups.keys;
  }

  lemma NextKey(groups: Groups, i: nat)
    requires groups.Valid() && i < |groups.keys|
    ensures groups.Has(groups.keys[i]) && groups.keys[i] !in KeySet(groups.keys[..i])
    ensures KeySet(groups.keys[..i + 1]) == KeySet(groups.keys[..i]) + {groups.keys[i]}
  {
    assert groups.keys[..i + 1] == groups.keys[..i] + [groups.keys[i]];
  }

  // ---- The groups with a join model ------------------------------------------------------------------------

  type JoinGroups = IndexMap<(Option<string>, Option<ModelName>), seq<Side>>

  predicate DealtJoin(groups: JoinGroups, k: (Option<string>, Option<ModelName>), s: Side) {
    groups.Has(k) && s in groups.Get(k)
  }

  ghost predicate IsJoined(ms: Models, s: Side) {
    IsSide(ms, s) && s.joinModel.Some?
  }

  ghost predicate JoinedGroups(ms: Models, groups: JoinGroups) {
    && groups.Valid()
    && (forall k :: groups.Has(k) ==> groups.Get(k) != [] && DistinctEnds(groups.Get(k)))
    && (forall k, s :: DealtJoin(groups, k, s) ==> IsJoined(ms, s) && JoinKey(s) == k)
  }

  /** Exactly the fields of the first `n` groups. */
  ghost predicate EndsOfFirst(groups: JoinGroups, n: nat, ends: set<End>) {
    && n <= |groups.keys|
    && (forall e :: e in ends ==> exists k, s {:trigger DealtFirst(groups, n, k, s, e)} :: DealtFirst(groups, n, k, s, e))
    && (forall k, s :: k in groups.keys[..n] && DealtJoin(groups, k, s) ==> EndOf(s) in ends)
  }

  predicate DealtFirst(groups: JoinGroups, n: nat, k: (Option<string>, Option<ModelName>), s: Side, e: End) {
    n <= |groups.keys| && k in groups.keys[..n] && DealtJoin(groups, k, s) && EndOf(s) == e
  }

  lemma NextJoinReady(ms: Models, groups: JoinGroups, n: nat, w: Work, backs: seq<Option<End>>, r: Work, after: seq<Option<End>>,
                      ends: set<End>)
    requires JoinedGroups(ms, groups) && n < |groups.keys| && EndsOfFirst(groups, n, ends)
    requires Stretch(w, backs, r, after, ends)
    requires forall k, s :: DealtJoin(groups, k, s) ==> Stands(w.models, s)
    ensures var group := groups.Get(groups.keys[n]);
            group != [] && group[0].joinModel.Some? && ReadyThrough(r.models, group, group[0].joinModel.value)
  {
    var k := groups.keys[n];
    var group := groups.Get(k);
    JoinGroupShape(ms, groups, k);
    forall s | s in group ensures Stands(r.models, s) {
      assert DealtJoin(groups, k, s);
      StandsStill(w, backs, r, after, ends, {}, s);
    }
  }

  /** All sides of a group belong to one join model. */
  lemma JoinGroupShape(ms: Models, groups: JoinGroups, k: (Option<string>, Option<ModelName>))
    requires JoinedGroups(ms, groups) && groups.Has(k)
    ensures var group := groups.Get(k);
            && group != [] && group[0].joinModel.Some? && DistinctEnds(group)
            && forall s :: s in group ==> InJoin(s, group[0].joinModel.value)
  {
    var group := groups.Get(k);
    assert DealtJoin(groups, k, group[0]);
    forall s | s in group ensures InJoin(s, group[0].joinModel.value) {
      assert DealtJoin(groups, k, s);
    }
  }

  lemma EndsOfNext(groups: JoinGroups, n: nat, ends: set<End>)
    requires groups.Valid() && n < |groups.keys| && EndsOfFirst(groups, n, ends)
    ensures EndsOfFirst(groups, n + 1, ends + Ends(groups.Get(groups.keys[n])))
  {
    var k := groups.keys[n];
    assert groups.keys[..n + 1] == groups.keys[..n] + [k];
    forall e | e in ends + Ends(groups.Get(k))
      ensures exists j, s {:trigger DealtFirst(groups, n + 1, j, s, e)} :: DealtFirst(groups, n + 1, j, s, e)
    {
      if e in ends {
        var j, s :| DealtFirst(groups, n, j, s, e);
        assert DealtFirst(groups, n + 1, j, s, e);
      } else {
        var s :| s in groups.Get(k) && EndOf(s) == e;
        assert DealtFirst(groups, n + 1, k, s, e);
      }
    }
  }

  lemma GroupDeclared(groups: JoinGroups, k: (Option<string>, Option<ModelName>), ms: Models)
    requires groups.Has(k) && forall j, s :: DealtJoin(groups, j, s) ==> Stands(ms, s)
    ensures forall e :: e in Ends(groups.Get(k)) ==> ms.Has(e.model)
  {
    forall s | s in groups.Get(k) ensures ms.Has(s.model) {
      assert DealtJoin(groups, k, s);
    }
  }

  lemma JoinStep(groups: JoinGroups, n: nat, w: Work, backs: seq<Option<End>>, mid: Work, midBacks: seq<Option<End>>,
                 r: Work, after: seq<Option<End>>, ends: set<End>)
    requires groups.Valid() && n < |groups.keys| && EndsOfFirst(groups, n, ends)
    requires forall k, s :: DealtJoin(groups, k, s) ==> Stands(w.models, s)
    requires Stretch(w, backs, mid, midBacks, ends)
    requires Stretch(mid, midBacks, r, after, Ends(groups.Get(groups.keys[n])))
    ensures var more := ends + Ends(groups.Get(groups.keys[n]));
            Stretch(w, backs, r, after, more) && EndsOfFirst(groups, n + 1, more)
  {
    GroupDeclared(groups, groups.keys[n], w.models);
    StretchTrans(w, backs, mid, midBacks, r, after, ends, Ends(groups.Get(groups.keys[n])));
    EndsOfNext(groups, n, ends);
  }

  ghost predicate AllGoodThrough(ms: Models, groups: JoinGroups, n: nat) {
    n <= |groups.keys| && forall k :: k in groups.keys[..n] && groups.Has(k) ==> GoodThrough(ms, groups.Get(k))
  }

  lemma GoodThroughStep(ms: Models, groups: JoinGroups, n: nat)
    requires groups.Valid() && n < |groups.keys|
    ensures AllGoodThrough(ms, groups, n + 1) <==> AllGoodThrough(ms, groups, n) && GoodThrough(ms, groups.Get(groups.keys[n]))
  {
    assert groups.keys[..n + 1] == groups.keys[..n] + [groups.keys[n]];
    assert groups.keys[n] in groups.keys[..n + 1];
  }

  /** What is known of the first `n` groups whether or not names clashed. */
  ghost predicate JoinTally(ms: Models, groups: JoinGroups, n: nat, w: Work, r: Work) {
    Onwards(ms, w, r) && (Extends(ms, w.models) ==> (r.problems == w.problems <==> AllGoodThrough(ms, groups, n)))
  }

  lemma JoinTallyStep(ms: Models, groups: JoinGroups, n: nat, w: Work, mid: Work, r: Work)
    requires groups.Valid() && n < |groups.keys| && JoinTally(ms, groups, n, w, mid) && Onwards(ms, mid, r)
    requires Extends(ms, mid.models) ==> (r.problems == mid.problems <==> GoodThrough(ms, groups.Get(groups.keys[n])))
    ensures JoinTally(ms, groups, n + 1, w, r)
  {
    GoodThroughStep(ms, groups, n);
    assert r.problems == w.problems <==> mid.problems == w.problems && r.problems == mid.problems;
  }

  lemma JoinGroupDeclared(ms: Models, groups: JoinGroups, k: (Option<string>, Option<ModelName>))
    requires Lowered(ms) && JoinedGroups(ms, groups) && groups.Has(k)
    ensures DeclaredGroup(ms, groups.Get(k))
  {
    forall s | s in groups.Get(k) ensures IsRelation(ms, EndOf(s)) && ms.Has(s.target) {
      assert DealtJoin(groups, k, s);
    }
  }

  /** What is known when the first `n` groups have been processed. */
  ghost predicate JoinedSoFar(ms: Models, groups: JoinGroups, n: nat, w: Work, backs: seq<Option<End>>, sound: bool,
                              r: Work, after: seq<Option<End>>, ends: set<End>)
  {
    JoinTally(ms, groups, n, w, r) && (sound ==> Stretch(w, backs, r, after, ends) && EndsOfFirst(groups, n, ends))
  }

  /** Resolution of the through groups may begin. */
  ghost predicate JoinsReady(groups: JoinGroups, w: Work, backs: seq<Option<End>>) {
    Linked(w.models, w.entries, backs) && forall k, s :: DealtJoin(groups, k, s) ==> Stands(w.models, s)
  }

  method ResolveNextJoined(ghost ms: Models, groups: JoinGroups, n: nat, ghost w: Work, ghost sound: bool, ghost backs: seq<Option<End>>,
                           mid: Work, ghost midBacks: seq<Option<End>>, ghost ends: set<End>)
    returns (r: Work, ghost after: seq<Option<End>>)
    requires Lowered(ms) && JoinedGroups(ms, groups) && n < |groups.keys|
    requires sound ==> JoinsReady(groups, w, backs)
    requires JoinedSoFar(ms, groups, n, w, backs, sound, mid, midBacks, ends)
    ensures JoinedSoFar(ms, groups, n + 1, w, backs, sound, r, after, ends + Ends(groups.Get(groups.keys[n])))
  {
    var group := groups.Get(groups.keys[n]);
    JoinGroupShape(ms, groups, groups.keys[n]);
    JoinGroupDeclared(ms, groups, groups.keys[n]);
    if sound {
      NextJoinReady(ms, groups, n, w, backs, mid, midBacks, ends);
    }
    r, after := ResolveThroughGroup(group, group[0].joinModel.value, mid, sound, ms, midBacks);
    JoinTallyStep(ms, groups, n, w, mid, r);
    if sound {
      JoinStep(groups, n, w, backs, mid, midBacks, r, after, ends);
    }
  }

  lemma JoinedStart(ms: Models, groups: JoinGroups, w: Work, sound: bool, backs: seq<Option<End>>)
    requires sound ==> JoinsReady(groups, w, backs)
    ensures JoinedSoFar(ms, groups, 0, w, backs, sound, w, backs, {})
  {
    if sound {
      NoProgress(w, backs, w, {}, {});
    }
  }

  method ResolveJoined(ghost ms: Models, groups: JoinGroups, w: Work, ghost sound: bool, ghost backs: seq<Option<End>>)
    returns (r: Work, ghost after: seq<Option<End>>, ghost ends: set<End>)
    requires Lowered(ms) && JoinedGroups(ms, groups)
    requires sound ==> JoinsReady(groups, w, backs)
    ensures JoinedSoFar(ms, groups, |groups.keys|, w, backs, sound, r, after, ends)
  {
    r, after, ends := w, backs, {};
    JoinedStart(ms, groups, w, sound, backs);
    for i := 0 to |groups.keys|
      invariant JoinedSoFar(ms, groups, i, w, backs, sound, r, after, ends)
    {
      r, after := ResolveNextJoined(ms, groups, i, w, sound, backs, r, after, ends);
      ends := ends + Ends(groups.Get(groups.keys[i]));
    }
  }

  // ---- Everything --------------------------------------------------------------------------------------------

  lemma RegularTakesPart(ms: Models, s: Side)
    requires IsRegular(ms, s)
    ensures TakesPart(ms, EndOf(s))
  {}

  /** The pairs fit when all partners are opposite. */
  lemma OppositeMeansFit(ms: Models, groups: Groups)
    requires RegularGroups(ms, groups) && AllOpposite(ms)
    ensures AllPairsFit(groups, KeySet(groups.keys))
  {
    forall k | k in KeySet(groups.keys) && groups.Has(k) ensures PairFits(groups.Get(k)) {
      var group := groups.Get(k);
      if |group| == 2 {
        assert Dealt(groups, k, group[0]) && Dealt(groups, k, group[1]);
        assert Partners(ms, group[0], group[1]);
      }
    }
  }

  /** Conversely, when every group is a pair. */
  lemma FitMeansOpposite(ms: Models, sides: seq<Side>, groups: Groups, r: Work)
    requires AreSides(ms, sides) && Grouped(Regular(sides), groups, KeyOf) && RegularGroups(ms, groups)
    requires AllDone(groups, KeySet(groups.keys), r) && AllPairsFit(groups, KeySet(groups.keys))
    ensures AllOpposite(ms)
  {
    RegularMembers(sides);
    forall s, t | Partners(ms, s, t) ensures Opposite(s, t) {
      RegularTakesPart(ms, s);
      RegularTakesPart(ms, t);
      assert s in Regular(sides) && t in Regular(sides);
      var k := KeyOf(s);
      assert k in KeySet(groups.keys) && groups.Has(k);
      assert PairDone(r, groups.Get(k)) && PairFits(groups.Get(k));
      assert s in groups.Get(k) && t in groups.Get(k);
    }
  }

  lemma GroupsOfSides(ms: Models, sides: seq<Side>, groups: Groups)
    requires AreSides(ms, sides) && Grouped(Regular(sides), groups, KeyOf)
    ensures RegularGroups(ms, groups)
  {
    RegularMembers(sides);
    forall k, s | Dealt(groups, k, s) ensures IsRegular(ms, s) && KeyOf(s) == k {
      assert s in Regular(sides);
    }
  }

  lemma JoinGroupsOfSides(ms: Models, sides: seq<Side>, groups: JoinGroups)
    requires AreSides(ms, sides) && Grouped(Joined(sides), groups, JoinKey)
    ensures JoinedGroups(ms, groups)
  {
    JoinedMembers(sides);
    forall k, s | DealtJoin(groups, k, s) ensures IsJoined(ms, s) && JoinKey(s) == k {
      assert s in Joined(sides);
    }
  }

  /** The sides with a join model are untouched by the regular groups. */
  lemma JoinedStand(ms: Models, groups: Groups, w: Work, r: Work, after: seq<Option<End>>, ends: set<End>, added: set<ModelName>,
                    s: Side)
    requires Lowered(ms) && w.models == ms && RegularGroups(ms, groups)
    requires Halfway(ms, groups, KeySet(groups.keys), w, r, after, ends, added)
    requires IsJoined(ms, s)
    ensures Stands(r.models, s)
  {
    assert Stands(ms, s);
    if EndOf(s) in ends {
      var k, t :| InGroup(groups, KeySet(groups.keys), k, t, EndOf(s));
      assert Dealt(groups, k, t);
    }
    StandsStill(w, [], r, after, ends, added, s);
  }

  /** Without problems, every relation field of every declared model was resolved. */
  lemma DeclaredResolved(ms: Models, sides: seq<Side>, groups: Groups, joins: JoinGroups, mid: Work, r: Work, ends: set<End>, e: End)
    requires AreSides(ms, sides) && (forall x :: !RefusedAt(ms, x)) && IsRelation(ms, e)
    requires Grouped(Regular(sides), groups, KeyOf) && Grouped(Joined(sides), joins, JoinKey)
    requires AllDone(groups, KeySet(groups.keys), mid) && KeepsPointers(mid.models, r.models)
    requires EndsOfFirst(joins, |joins.keys|, ends) && forall x :: x in ends ==> ResolvedAt(r.models, x).Some?
    ensures ResolvedAt(r.models, e).Some?
  {
    RegularMembers(sides);
    JoinedMembers(sides);
    var s := SideOf(ms, e);
    assert TakesPart(ms, e) && EndOf(s) == e && s in sides;
    if s.joinModel.None? {
      assert s in Regular(sides);
      assert s in groups.entries[KeyOf(s)] && KeyOf(s) in KeySet(groups.keys);
      assert PairDone(mid, groups.Get(KeyOf(s)));
    } else {
      assert s in Joined(sides);
      assert joins.keys[..|joins.keys|] == joins.keys;
      assert DealtJoin(joins, JoinKey(s), s);
    }
  }

  /** Every entry has an owner field to itself. */
  ghost predicate OwnFields(entries: seq<Entry>) {
    forall i, j :: 0 <= i < j < |entries| ==> OwnerEnd(entries[i]) != OwnerEnd(entries[j])
  }

  /**
   Entries and owning fields are in one-to-one correspondence, and every pointer leads to an
   entry that names its field.
   */
  ghost predicate Paired(ms: Models, entries: seq<Entry>) {
    && (forall i :: 0 <= i < |entries| ==> ResolvedAt(ms, OwnerEnd(entries[i])) == Some(i))
    && OwnFields(entries)
    && (forall e :: ResolvedAt(ms, e).Some? ==>
          ResolvedAt(ms, e).value < |entries| &&
          (e == OwnerEnd(entries[ResolvedAt(ms, e).value]) || entries[ResolvedAt(ms, e).value].targetField == Some(e.field)))
    && (forall i :: 0 <= i < |entries| ==> SoundEntry(ms, entries[i]))
  }

  lemma LinkedIsPaired(ms: Models, entries: seq<Entry>, backs: seq<Option<End>>)
    requires Linked(ms, entries, backs)
    ensures Paired(ms, entries)
  {
    forall e | ResolvedAt(ms, e).Some?
      ensures ResolvedAt(ms, e).value < |entries|
      ensures e == OwnerEnd(entries[ResolvedAt(ms, e).value]) || entries[ResolvedAt(ms, e).value].targetField == Some(e.field)
    {
      assert Pointed(entries, backs, e, ResolvedAt(ms, e).value);
    }
  }

  /** Every relation field of every model is resolved. */
  ghost predicate AllResolved(ms: Models) {
    forall e :: IsRelation(ms, e) ==> ResolvedAt(ms, e).Some?
  }

  /** What resolution promises of its result. */
  ghost predicate Resolves(ms: Models, r: Work) {
    && Paired(r.models, r.entries) && Grows(ms, r.models)
    // Total, unless a problem is recorded.
    && (r.problems == [] && AllKeyed(ms) ==> AllResolved(r.models))
    // Coherent, if partners face each other; and only then, when there are no problems.
    && (AllOpposite(ms) ==> Coherent(r.models, r.entries))
    && (r.problems == [] && AllKeyed(ms) && Coherent(r.models, r.entries) ==> AllOpposite(ms))
  }

  // ---- When nothing is reported ------------------------------------------------------------------------

  /** `t` is the one partner of `s`, and the two make a good pair. */
  ghost predicate PairsWith(ms: Models, s: Side, t: Side) {
    Partners(ms, s, t) && (forall u :: Partners(ms, s, u) ==> u == t) && GoodGroup(ms, [s, t])
  }

  /** Every side outside any join model is one of a good pair. */
  ghost predicate PairsUp(ms: Models) {
    forall s :: IsRegular(ms, s) ==> exists t :: PairsWith(ms, s, t)
  }

  lemma GoodGroupsPair(ms: Models, sides: seq<Side>, groups: Groups)
    requires AreSides(ms, sides) && Grouped(Regular(sides), groups, KeyOf) && RegularGroups(ms, groups)
    ensures AllGood(ms, groups, KeySet(groups.keys)) <==> PairsUp(ms)
  {
    if AllGood(ms, groups, KeySet(groups.keys)) {
      forall s | IsRegular(ms, s) ensures exists t :: PairsWith(ms, s, t) {
        SideInGroup(ms, sides, groups, s);
        assert KeyOf(s) in KeySet(groups.keys);
        var t := PartnerInGroup(ms, sides, groups, s);
      }
    }
    if PairsUp(ms) {
      forall k | groups.Has(k) ensures GoodGroup(ms, groups.Get(k)) {
        var s := groups.Get(k)[0];
        assert Dealt(groups, k, s);
        var t :| PairsWith(ms, s, t);
        GroupIsPair(ms, sides, groups, k, s, t);
      }
    }
  }

  lemma SideInGroup(ms: Models, sides: seq<Side>, groups: Groups, s: Side)
    requires AreSides(ms, sides) && Grouped(Regular(sides), groups, KeyOf) && IsRegular(ms, s)
    ensures groups.Has(KeyOf(s)) && s in groups.Get(KeyOf(s))
  {
    RegularMembers(sides);
    RegularTakesPart(ms, s);
    assert s in Regular(sides);
  }

  lemma PartnerInGroup(ms: Models, sides: seq<Side>, groups: Groups, s: Side) returns (t: Side)
    requires AreSides(ms, sides) && Grouped(Regular(sides), groups, KeyOf) && RegularGroups(ms, groups)
    requires IsRegular(ms, s) && groups.Has(KeyOf(s)) && s in groups.Get(KeyOf(s)) && GoodGroup(ms, groups.Get(KeyOf(s)))
    ensures PairsWith(ms, s, t)
  {
    var group := groups.Get(KeyOf(s));
    t := if s == group[0] then group[1] else group[0];
    assert group == [s, t] || group == [t, s];
    assert EndOf(s) != EndOf(t);
    assert Dealt(groups, KeyOf(s), t);
    forall u | Partners(ms, s, u) ensures u == t {
      SideInGroup(ms, sides, groups, u);
      assert u in group;
    }
    assert GoodGroup(ms, [s, t]);
  }

  lemma TwoOf(list: seq<Side>, a: Side, b: Side)
    requires DistinctEnds(list) && EndOf(a) != EndOf(b) && forall s :: s in list <==> s == a || s == b
    ensures list == [a, b] || list == [b, a]
  {
    assert a in list && b in list;
    assert |list| > 2 ==> list[0] != list[1] && list[0] != list[2] && list[1] != list[2];
    forall k | 0 <= k < |list| ensures list[k] == a || list[k] == b {
      assert list[k] in list;
    }
  }

  lemma GroupIsPair(ms: Models, sides: seq<Side>, groups: Groups, k: GroupKey, s: Side, t: Side)
    requires AreSides(ms, sides) && Grouped(Regular(sides), groups, KeyOf) && RegularGroups(ms, groups)
    requires groups.Has(k) && s == groups.Get(k)[0] && KeyOf(s) == k && PairsWith(ms, s, t)
    ensures GoodGroup(ms, groups.Get(k))
  {
    var group := groups.Get(k);
    SideInGroup(ms, sides, groups, t);
    forall u | u in group && u != s ensures u == t {
      assert Dealt(groups, k, u) && Dealt(groups, k, s);
      assert Partners(ms, s, u);
    }
    TwoOf(group, s, t);
  }

  /** The sides of one join model and relation name: two lists that face each other, and a foreign key to each. */
  ghost predicate Foursome(ms: Models, k: (Option<string>, Option<ModelName>), a: Side, b: Side, f: Side, g: Side) {
    && (forall t :: IsJoined(ms, t) && t.relName == k.0 && t.joinModel == k.1 <==> t == a || t == b || t == f || t == g)
    && EndOf(a) != EndOf(b) && EndOf(f) != EndOf(g)
    && !a.isOwner && !b.isOwner && f.isOwner && g.isOwner
    && Opposite(a, b) && GoodOwner(ms, f) && GoodOwner(ms, g)
    && (f.target == a.model || g.target == a.model) && (f.target == b.model || g.target == b.model)
  }

  /** Every side of a join model is one of a good four. */
  ghost predicate JoinsUp(ms: Models) {
    forall s :: IsJoined(ms, s) ==> InFoursome(ms, (s.relName, s.joinModel))
  }

  ghost predicate InFoursome(ms: Models, k: (Option<string>, Option<ModelName>)) {
    exists a, b, f, g :: Foursome(ms, k, a, b, f, g)
  }

  lemma JoinedInGroup(ms: Models, sides: seq<Side>, joins: JoinGroups, s: Side)
    requires AreSides(ms, sides) && Grouped(Joined(sides), joins, JoinKey) && (forall e :: !RefusedAt(ms, e)) && IsJoined(ms, s)
    ensures joins.Has(JoinKey(s)) && s in joins.Get(JoinKey(s))
  {
    JoinedMembers(sides);
    assert TakesPart(ms, EndOf(s)) && s in sides;
    assert s in Joined(sides);
  }

  /** The group of a key holds all its sides. */
  lemma GroupOfKey(ms: Models, sides: seq<Side>, joins: JoinGroups, k: (Option<string>, Option<ModelName>))
    requires AreSides(ms, sides) && Grouped(Joined(sides), joins, JoinKey) && JoinedGroups(ms, joins) && joins.Has(k)
    requires forall e :: !RefusedAt(ms, e)
    ensures forall t :: t in joins.Get(k) <==> IsJoined(ms, t) && JoinKey(t) == k
  {
    forall t ensures t in joins.Get(k) <==> IsJoined(ms, t) && JoinKey(t) == k {
      if t in joins.Get(k) {
        assert DealtJoin(joins, k, t);
      }
      if IsJoined(ms, t) && JoinKey(t) == k {
        JoinedInGroup(ms, sides, joins, t);
      }
    }
  }

  lemma {:induction false} PartsCount(group: seq<Side>)
    ensures |Lists(group)| + |Owners(group)| == |group|
  {
    if group != [] {
      PartsCount(group[1..]);
    }
  }

  /** A group of two lists and two foreign keys. */
  lemma PartsOfFour(group: seq<Side>, a: Side, b: Side, f: Side, g: Side)
    requires DistinctEnds(group) && forall t :: t in group <==> t == a || t == b || t == f || t == g
    requires !a.isOwner && !b.isOwner && f.isOwner && g.isOwner && EndOf(a) != EndOf(b) && EndOf(f) != EndOf(g)
    ensures |group| == 4
    ensures Lists(group) == [a, b] || Lists(group) == [b, a]
    ensures Owners(group) == [f, g] || Owners(group) == [g, f]
  {
    ListsMembers(group);
    OwnersMembers(group);
    PartsDistinct(group);
    PartsCount(group);
    TwoOf(Lists(group), a, b);
    TwoOf(Owners(group), f, g);
  }

  /** The members of a group of two lists and two foreign keys. */
  lemma FourMembers(group: seq<Side>, a: Side, b: Side, f: Side, g: Side)
    requires DistinctEnds(group) && Lists(group) == [a, b] && Owners(group) == [f, g]
    ensures forall t :: t in group <==> t == a || t == b || t == f || t == g
    ensures !a.isOwner && !b.isOwner && f.isOwner && g.isOwner && EndOf(a) != EndOf(b) && EndOf(f) != EndOf(g)
    ensures f in Owners(group) && g in Owners(group)
  {
    ListsMembers(group);
    OwnersMembers(group);
    PartsDistinct(group);
    assert a == Lists(group)[0] && b == Lists(group)[1] && f == Owners(group)[0] && g == Owners(group)[1];
    forall t | t in group ensures t == a || t == b || t == f || t == g {
      assert t in Lists(group) || t in Owners(group);
    }
  }

  lemma FoursomeOfGroup(ms: Models, k: (Option<string>, Option<ModelName>), group: seq<Side>)
    requires DistinctEnds(group) && (forall t :: t in group <==> IsJoined(ms, t) && JoinKey(t) == k) && GoodThrough(ms, group)
    ensures InFoursome(ms, k)
  {
    var a, b, f, g := Lists(group)[0], Lists(group)[1], Owners(group)[0], Owners(group)[1];
    FourMembers(group, a, b, f, g);
    assert Foursome(ms, k, a, b, f, g);
  }

  lemma GroupOfFoursome(ms: Models, k: (Option<string>, Option<ModelName>), group: seq<Side>)
    requires DistinctEnds(group) && (forall t :: t in group <==> IsJoined(ms, t) && JoinKey(t) == k) && InFoursome(ms, k)
    ensures GoodThrough(ms, group)
  {
    var a, b, f, g :| Foursome(ms, k, a, b, f, g);
    GroupOfFour(ms, k, group, a, b, f, g);
  }

  lemma GroupOfFour(ms: Models, k: (Option<string>, Option<ModelName>), group: seq<Side>, a: Side, b: Side, f: Side, g: Side)
    requires DistinctEnds(group) && (forall t :: t in group <==> IsJoined(ms, t) && JoinKey(t) == k) && Foursome(ms, k, a, b, f, g)
    ensures GoodThrough(ms, group)
  {
    PartsOfFour(group, a, b, f, g);
    assert f in Owners(group) && g in Owners(group);
  }

  lemma GoodThroughsJoin(ms: Models, sides: seq<Side>, joins: JoinGroups)
    requires AreSides(ms, sides) && Grouped(Joined(sides), joins, JoinKey) && JoinedGroups(ms, joins)
    requires forall e :: !RefusedAt(ms, e)
    ensures AllGoodThrough(ms, joins, |joins.keys|) <==> JoinsUp(ms)
  {
    assert joins.keys[..|joins.keys|] == joins.keys;
    if AllGoodThrough(ms, joins, |joins.keys|) {
      forall s | IsJoined(ms, s) ensures InFoursome(ms, JoinKey(s)) {
        JoinedInGroup(ms, sides, joins, s);
        GroupOfKey(ms, sides, joins, JoinKey(s));
        FoursomeOfGroup(ms, JoinKey(s), joins.Get(JoinKey(s)));
      }
    }
    if JoinsUp(ms) {
      forall k | joins.Has(k) ensures GoodThrough(ms, joins.Get(k)) {
        GroupOfKey(ms, sides, joins, k);
        assert joins.Get(k)[0] in joins.Get(k);
        GroupOfFoursome(ms, k, joins.Get(k));
      }
    }
  }

  /** Nothing for resolution to complain about. */
  ghost predicate Flawless(ms: Models) {
    (forall e :: !RefusedAt(ms, e)) && PairsUp(ms) && JoinsUp(ms)
  }

  lemma NothingReported(ms: Models, sides: seq<Side>, groups: Groups, joins: JoinGroups, w: Work, mid: Work, r: Work)
    requires AreSides(ms, sides) && w.models == ms && (w.problems == [] <==> forall e :: !RefusedAt(ms, e))
    requires Grouped(Regular(sides), groups, KeyOf) && RegularGroups(ms, groups)
    requires Grouped(Joined(sides), joins, JoinKey) && JoinedGroups(ms, joins)
    requires w.problems <= mid.problems <= r.problems
    requires mid.problems == w.problems <==> AllGood(ms, groups, KeySet(groups.keys))
    requires r.problems == mid.problems <==> AllGoodThrough(ms, joins, |joins.keys|)
    ensures r.problems == [] <==> Flawless(ms)
  {
    GoodGroupsPair(ms, sides, groups);
    if forall e :: !RefusedAt(ms, e) {
      GoodThroughsJoin(ms, sides, joins);
    }
  }

  // ---- When no names clash ---------------------------------------------------------------------------------

  lemma JoinNameSwaps(s: Side, t: Side)
    requires s.relName == t.relName
    ensures JoinName(s, t) == JoinName(t, s)
  {
    LeOrders(s.model.text, t.model.text);
  }

  /** The entry that two list fields claim. */
  lemma PartnersClaim(ms: Models, sides: seq<Side>, groups: Groups, entries: seq<Entry>, slots: map<GroupKey, nat>, s: Side, t: Side)
    requires AreSides(ms, sides) && Grouped(Regular(sides), groups, KeyOf) && RegularGroups(ms, groups)
    requires AllGood(ms, groups, KeySet(groups.keys)) && AllKeyed(ms) && Slotted(ms, groups, KeySet(groups.keys), entries, slots)
    requires ListPartners(ms, s, t)
    ensures KeyOf(s) in slots && Claims(entries, slots[KeyOf(s)], JoinName(s, t))
  {
    var k := KeyOf(s);
    SideInGroup(ms, sides, groups, s);
    SideInGroup(ms, sides, groups, t);
    SameGroup(s, t);
    JoinNameSwaps(s, t);
    var group := groups.Get(k);
    assert k in KeySet(groups.keys) && GoodGroup(ms, group);
    assert group == [s, t] || group == [t, s];
    assert Claiming(ms, group);
  }

  /** Two relations with one join model claim the same foreign key. */
  lemma ClashMeansShared(ms: Models, sides: seq<Side>, groups: Groups, entries: seq<Entry>, slots: map<GroupKey, nat>)
    requires AreSides(ms, sides) && Grouped(Regular(sides), groups, KeyOf) && RegularGroups(ms, groups)
    requires AllGood(ms, groups, KeySet(groups.keys)) && AllKeyed(ms) && Slotted(ms, groups, KeySet(groups.keys), entries, slots)
    requires OwnFields(entries)
    ensures NoClash(ms)
  {
    forall s, t, u, v | ListPartners(ms, s, t) && ListPartners(ms, u, v) && KeyOf(s) != KeyOf(u)
      ensures JoinName(s, t) != JoinName(u, v)
    {
      PartnersClaim(ms, sides, groups, entries, slots, s, t);
      PartnersClaim(ms, sides, groups, entries, slots, u, v);
      var i, j := slots[KeyOf(s)], slots[KeyOf(u)];
      assert i < j ==> OwnerEnd(entries[i]) != OwnerEnd(entries[j]);
      assert j < i ==> OwnerEnd(entries[j]) != OwnerEnd(entries[i]);
    }
  }

  /** `resolve_relations`. */
  method ResolveRelations(ms: Models) returns (r: Work)
    requires Lowered(ms)
    ensures FreshJoins(ms) ==> Resolves(ms, r)
    ensures JoinsUndeclared(ms) ==> Extends(ms, r.models) && (r.problems == [] <==> Flawless(ms))
    ensures JoinsUndeclared(ms) && AllKeyed(ms) && r.problems == [] ==>
              && (Paired(r.models, r.entries) <==> NoClash(ms))
              && (OwnFields(r.entries) <==> NoClash(ms))
  {
    var sides, problems := CollectSides(ms);
    PartitionDistinct(sides);
    var groups := GroupSides(Regular(sides), KeyOf);
    GroupsOfSides(ms, sides, groups);
    var w := Work(ms, [], problems);
    var mid;
    ghost var sound := FreshJoins(ms);
    ghost var midBacks, ends, added, slots;
    mid, midBacks, ends, added, slots := ResolveRegular(groups, w, sound);

    var joins := GroupSides(Joined(sides), JoinKey);
    JoinGroupsOfSides(ms, sides, joins);
    if sound {
      MidReady(ms, groups, joins, w, mid, midBacks, ends, added);
    }
    ghost var backs, joinEnds;
    r, backs, joinEnds := ResolveJoined(ms, joins, mid, sound, midBacks);
    if sound {
      Conclude(ms, sides, groups, joins, w, mid, midBacks, ends, added, r, backs, joinEnds);
    }
    if JoinsUndeclared(ms) {
      TalliesTell(ms, sides, groups, joins, w, mid, r, slots);
    }
  }

  /** The pairs and the through groups tell together what is reported, and whether a foreign key is shared. */
  lemma TalliesTell(ms: Models, sides: seq<Side>, groups: Groups, joins: JoinGroups, w: Work, mid: Work, r: Work, slots: map<GroupKey, nat>)
    requires AreSides(ms, sides) && w.models == ms && (w.problems == [] <==> forall e :: !RefusedAt(ms, e))
    requires Grouped(Regular(sides), groups, KeyOf) && RegularGroups(ms, groups)
    requires Grouped(Joined(sides), joins, JoinKey) && JoinedGroups(ms, joins)
    requires Tally(ms, groups, KeySet(groups.keys), w, mid, slots) && JoinTally(ms, joins, |joins.keys|, mid, r)
    ensures Extends(ms, r.models) && (r.problems == [] <==> Flawless(ms))
    ensures AllKeyed(ms) && r.problems == [] && OwnFields(r.entries) ==> NoClash(ms)
  {
    NothingReported(ms, sides, groups, joins, w, mid, r);
    if AllKeyed(ms) && r.problems == [] && OwnFields(r.entries) {
      assert mid.problems == w.problems;
      SlotsStay(ms, groups, mid.entries, r.entries, slots);
      ClashMeansShared(ms, sides, groups, r.entries, slots);
    }
  }

  /** After the regular groups, the through groups can be resolved. */
  lemma MidReady(ms: Models, groups: Groups, joins: JoinGroups, w: Work, mid: Work, midBacks: seq<Option<End>>,
                 ends: set<End>, added: set<ModelName>)
    requires Lowered(ms) && w.models == ms && RegularGroups(ms, groups) && JoinedGroups(ms, joins)
    requires Halfway(ms, groups, KeySet(groups.keys), w, mid, midBacks, ends, added)
    ensures JoinsReady(joins, mid, midBacks)
  {
    forall k, s | DealtJoin(joins, k, s) ensures Stands(mid.models, s) {
      JoinedStand(ms, groups, w, mid, midBacks, ends, added, s);
    }
  }

  lemma SlotsStay(ms: Models, groups: Groups, before: seq<Entry>, after: seq<Entry>, slots: map<GroupKey, nat>)
    requires Slotted(ms, groups, KeySet(groups.keys), before, slots) && before <= after
    ensures Slotted(ms, groups, KeySet(groups.keys), after, slots)
  {}

  lemma Conclude(ms: Models, sides: seq<Side>, groups: Groups, joins: JoinGroups, w: Work, mid: Work, midBacks: seq<Option<End>>,
                 ends: set<End>, added: set<ModelName>, r: Work, backs: seq<Option<End>>, joinEnds: set<End>)
    requires Lowered(ms) && w.models == ms && w.entries == []
    requires AreSides(ms, sides) && (w.problems == [] <==> forall e :: !RefusedAt(ms, e))
    requires Grouped(Regular(sides), groups, KeyOf) && Grouped(Joined(sides), joins, JoinKey)
    requires RegularGroups(ms, groups) && JoinedGroups(ms, joins)
    requires Halfway(ms, groups, KeySet(groups.keys), w, mid, midBacks, ends, added)
    requires Stretch(mid, midBacks, r, backs, joinEnds) && EndsOfFirst(joins, |joins.keys|, joinEnds)
    ensures Resolves(ms, r)
  {
    LinkedIsPaired(r.models, r.entries, backs);
    JoinEndsDeclared(ms, joins, joinEnds);
    ProgressTrans(w, [], mid, midBacks, r, backs, ends, joinEnds, added, {});
    FitsStay(mid, midBacks, r, backs, joinEnds, {}, 0);
    FitsMeansCoherent(r.models, r.entries, backs);
    if AllOpposite(ms) {
      OppositeMeansFit(ms, groups);
    }
    if r.problems == [] && AllKeyed(ms) {
      assert w.problems == [] && mid.problems == [];
      forall e | IsRelation(r.models, e) ensures ResolvedAt(r.models, e).Some? {
        if ms.Has(e.model) {
          DeclaredResolved(ms, sides, groups, joins, mid, r, joinEnds, e);
        }
      }
      if Coherent(r.models, r.entries) {
        FitMeansOpposite(ms, sides, groups, mid);
      }
    }
  }

  lemma JoinEndsDeclared(ms: Models, joins: JoinGroups, ends: set<End>)
    requires JoinedGroups(ms, joins) && EndsOfFirst(joins, |joins.keys|, ends)
    ensures forall e :: e in ends ==> ms.Has(e.model)
  {
    forall e | e in ends ensures ms.Has(e.model) {
      var k, s :| DealtFirst(joins, |joins.keys|, k, s, e);
      assert IsJoined(ms, s);
    }
  }
}
