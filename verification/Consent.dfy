/**
 Who applies what, over whole runs of `apply_all`: every migration that a run applies was
 applied in one step of one deployer, which was allowed to and reports just that.
 */
module Consent {
  import opened Ir
  import opened Runner

  // ---- What is applied was agreed to -----------------------------------------------------------------

  /** An event ends a migration: its statements and its tracking row take effect. */
  predicate Applies(e: Event) {
    e.Commit? || e.CommitUnheard?
  }

  /** The step at which deployer `i` applies migration `k` is step `t` of the schedule. */
  ghost predicate AppliedAt(dir: seq<Migration>, s: State, schedule: seq<(nat, Event)>, t: nat, k: nat) {
    && t < |schedule| && k < |dir| && Applies(schedule[t].1)
    && var before, after := Play(dir, s, schedule[..t]), Play(dir, s, schedule[..t + 1]);
       before.Some? && after.Some? && dir[k].id !in before.value.db.applied && dir[k].id in after.value.db.applied
  }

  /** Steps leave the deployers and what they accept alone, and take nothing out of a report. */
  lemma StepKeeps(dir: seq<Migration>, s: State, i: nat, e: Event, j: nat)
    requires Enabled(dir, s, i, e) && j < |s.deployers|
    ensures var after := Next(dir, s, i, e);
            && |after.deployers| == |s.deployers|
            && after.deployers[j].acceptsDataLoss == s.deployers[j].acceptsDataLoss
            && after.deployers[j].report == s.deployers[j].report +
               if e.Commit? && i == j then [s.deployers[j].pending[0].id] else []
  {}

  lemma {:induction false} RunKeeps(dir: seq<Migration>, s: State, schedule: seq<(nat, Event)>)
    requires Play(dir, s, schedule).Some?
    ensures |Play(dir, s, schedule).value.deployers| == |s.deployers|
    decreases |schedule|
  {
    if schedule != [] {
      var (i, e) := schedule[0];
      StepKeeps(dir, s, i, e, i);
      RunKeeps(dir, Next(dir, s, i, e), schedule[1..]);
    }
  }

  /** Whether a migration that has been applied is in a report does not change any more. */
  lemma {:induction false} ReportStays(dir: seq<Migration>, s: State, n: nat, schedule: seq<(nat, Event)>, k: nat, j: nat)
    requires ValidDirectory(dir) && Inv(dir, s, n) && Play(dir, s, schedule).Some? && k < n && j < |s.deployers|
    ensures j < |Play(dir, s, schedule).value.deployers|
    ensures dir[k].id in Play(dir, s, schedule).value.deployers[j].report <==> dir[k].id in s.deployers[j].report
    decreases |schedule|
  {
    if schedule != [] {
      var (i, e) := schedule[0];
      StepKeepsInv(dir, s, n, i, e);
      StepKeeps(dir, s, i, e, j);
      if e.Commit? && i == j {
        assert DeployerInv(dir, n, s.lock, i, s.deployers[i]);
        assert s.deployers[i].pending[0] == dir[n];
      }
      ReportStays(dir, Next(dir, s, i, e), Progress(e, n), schedule[1..], k, j);
    }
  }

  lemma PlayNext(dir: seq<Migration>, s: State, schedule: seq<(nat, Event)>, t: nat)
    requires schedule != [] && 0 < t <= |schedule| && Enabled(dir, s, schedule[0].0, schedule[0].1)
    ensures Play(dir, s, schedule[..t]) ==
            Play(dir, Next(dir, s, schedule[0].0, schedule[0].1), schedule[1..][..t - 1])
  {
    assert schedule[..t][1..] == schedule[1..][..t - 1];
  }

  /** The step that takes the database from `n` applied migrations to one more. */
  lemma StepApplies(dir: seq<Migration>, s: State, n: nat, i: nat, e: Event)
    requires ValidDirectory(dir) && Inv(dir, s, n) && Enabled(dir, s, i, e) && Applies(e)
    ensures n < |dir| && Agrees(s.deployers[i], dir[n])
    ensures dir[n].id !in s.db.applied && dir[n].id in Next(dir, s, i, e).db.applied
    ensures forall j :: 0 <= j < |s.deployers| ==>
              (dir[n].id in Next(dir, s, i, e).deployers[j].report <==> e.Commit? && j == i)
  {
    assert DeployerInv(dir, n, s.lock, i, s.deployers[i]);
    assert s.deployers[i].pending[0] == dir[n];
    NextIsNew(dir, s.db, n, n);
    forall j | 0 <= j < |s.deployers| {
      StepKeeps(dir, s, i, e, j);
    }
  }

  /** What the first step applies is reported accordingly at the end. */
  lemma {:induction false} FirstApplied(dir: seq<Migration>, s: State, n: nat, schedule: seq<(nat, Event)>)
    requires ValidDirectory(dir) && Inv(dir, s, n) && schedule != [] && Play(dir, s, schedule).Some? && Applies(schedule[0].1)
    ensures AppliedAt(dir, s, schedule, 0, n) && schedule[0].0 < |s.deployers| && Agrees(s.deployers[schedule[0].0], dir[n])
    ensures var end := Play(dir, s, schedule).value;
            |end.deployers| == |s.deployers| &&
            forall j :: 0 <= j < |end.deployers| ==>
              (dir[n].id in end.deployers[j].report <==> schedule[0].1.Commit? && j == schedule[0].0)
  {
    var (i, e) := schedule[0];
    var after := Next(dir, s, i, e);
    StepApplies(dir, s, n, i, e);
    StepKeepsInv(dir, s, n, i, e);
    StepKeeps(dir, s, i, e, i);
    PlayNext(dir, s, schedule, 1);
    RunKeeps(dir, after, schedule[1..]);
    forall j | 0 <= j < |s.deployers| {
      ReportStays(dir, after, n + 1, schedule[1..], n, j);
    }
  }

  /** From any state of a run on. */
  lemma {:induction false} AppliedOnce(dir: seq<Migration>, s: State, n: nat, schedule: seq<(nat, Event)>, k: nat) returns (t: nat)
    requires ValidDirectory(dir) && Inv(dir, s, n) && Play(dir, s, schedule).Some?
    requires n <= k < |dir| && dir[k].id in Play(dir, s, schedule).value.db.applied
    ensures AppliedAt(dir, s, schedule, t, k) && schedule[t].0 < |s.deployers|
    ensures Agrees(s.deployers[schedule[t].0], dir[k])
    ensures var end := Play(dir, s, schedule).value;
            |end.deployers| == |s.deployers| &&
            forall j :: 0 <= j < |end.deployers| ==>
              (dir[k].id in end.deployers[j].report <==> schedule[t].1.Commit? && j == schedule[t].0)
    decreases |schedule|
  {
    NextIsNew(dir, s.db, n, k);
    var (i, e) := schedule[0];
    var after := Next(dir, s, i, e);
    StepKeepsInv(dir, s, n, i, e);
    StepKeeps(dir, s, i, e, i);
    PlayNext(dir, s, schedule, 1);
    if Applies(e) && k == n {
      t := 0;
      FirstApplied(dir, s, n, schedule);
    } else {
      var u := AppliedOnce(dir, after, Progress(e, n), schedule[1..], k);
      t := u + 1;
      LaterApplied(dir, s, schedule, u, k);
      StepKeeps(dir, s, i, e, schedule[t].0);
    }
  }

  /** A step of the rest of the schedule is a step of the schedule. */
  lemma LaterApplied(dir: seq<Migration>, s: State, schedule: seq<(nat, Event)>, u: nat, k: nat)
    requires schedule != [] && Enabled(dir, s, schedule[0].0, schedule[0].1)
    requires AppliedAt(dir, Next(dir, s, schedule[0].0, schedule[0].1), schedule[1..], u, k)
    ensures AppliedAt(dir, s, schedule, u + 1, k)
  {
    PlayNext(dir, s, schedule, u + 1);
    PlayNext(dir, s, schedule, u + 2);
  }

  /**
   A migration that a run applies needs no backfill, and if it is destructive, the deployer
   that applied it accepts data loss. It is in the report of that deployer, unless the
   commit went unheard, and in no other.
   */
  lemma AppliedWithConsent(dir: seq<Migration>, s: State, n: nat, schedule: seq<(nat, Event)>, k: nat) returns (t: nat)
    requires ValidDirectory(dir) && Fresh(s) && AtPrefix(dir, s.db, n) && Play(dir, s, schedule).Some?
    requires n <= k < |dir| && dir[k].id in Play(dir, s, schedule).value.db.applied
    ensures AppliedAt(dir, s, schedule, t, k) && schedule[t].0 < |s.deployers|
    ensures !dir[k].needsBackfill && (dir[k].destructive ==> s.deployers[schedule[t].0].acceptsDataLoss)
    ensures var end := Play(dir, s, schedule).value;
            |end.deployers| == |s.deployers| &&
            forall j :: 0 <= j < |end.deployers| ==>
              (dir[k].id in end.deployers[j].report <==> schedule[t].1.Commit? && j == schedule[t].0)
  {
    FreshInv(dir, s, n);
    t := AppliedOnce(dir, s, n, schedule, k);
  }

  /** What was applied before the run is in no report. */
  lemma OldGoesUnreported(dir: seq<Migration>, s: State, n: nat, schedule: seq<(nat, Event)>, k: nat, j: nat)
    requires ValidDirectory(dir) && Fresh(s) && AtPrefix(dir, s.db, n) && Play(dir, s, schedule).Some?
    requires k < n && j < |Play(dir, s, schedule).value.deployers|
    ensures dir[k].id !in Play(dir, s, schedule).value.deployers[j].report
  {
    FreshInv(dir, s, n);
    RunKeeps(dir, s, schedule);
    ReportStays(dir, s, n, schedule, k, j);
  }

  // ---- What is agreed to can be applied ----------------------------------------------------------------

  lemma {:induction false} PlayConcat(dir: seq<Migration>, s: State, a: seq<(nat, Event)>, b: seq<(nat, Event)>)
    requires Play(dir, s, a).Some?
    ensures Play(dir, s, a + b) == Play(dir, Play(dir, s, a).value, b)
    decreases |a|
  {
    if a == [] {
      assert a + b == b;
    } else {
      assert (a + b)[1..] == a[1..] + b;
      PlayConcat(dir, Next(dir, s, a[0].0, a[0].1), a[1..], b);
    }
  }

  lemma PlayOne(dir: seq<Migration>, s: State, i: nat, e: Event)
    requires Enabled(dir, s, i, e)
    ensures Play(dir, s, [(i, e)]) == Some(Next(dir, s, i, e))
  {
    assert [(i, e)][1..] == [];
  }

  /** A schedule of deployer `i` alone. */
  predicate Alone(schedule: seq<(nat, Event)>, i: nat) {
    forall t :: 0 <= t < |schedule| ==> schedule[t].0 == i
  }

  /** `i` gets from `s` to `after` by itself. */
  ghost predicate Gets(dir: seq<Migration>, s: State, i: nat, after: State) {
    exists schedule :: Alone(schedule, i) && Play(dir, s, schedule) == Some(after)
  }

  lemma GetsOne(dir: seq<Migration>, s: State, i: nat, e: Event)
    requires Enabled(dir, s, i, e)
    ensures Gets(dir, s, i, Next(dir, s, i, e))
  {
    PlayOne(dir, s, i, e);
    assert Alone([(i, e)], i);
  }

  lemma GetsTrans(dir: seq<Migration>, s: State, i: nat, mid: State, after: State)
    requires Gets(dir, s, i, mid) && Gets(dir, mid, i, after)
    ensures Gets(dir, s, i, after)
  {
    var a :| Alone(a, i) && Play(dir, s, a) == Some(mid);
    var b :| Alone(b, i) && Play(dir, mid, b) == Some(after);
    PlayConcat(dir, s, a, b);
    assert Alone(a + b, i);
  }

  /** One more event. */
  lemma GetsNext(dir: seq<Migration>, s: State, i: nat, mid: State, e: Event)
    requires Gets(dir, s, i, mid) && Enabled(dir, mid, i, e)
    ensures Gets(dir, s, i, Next(dir, mid, i, e))
  {
    GetsOne(dir, mid, i, e);
    GetsTrans(dir, s, i, mid, Next(dir, mid, i, e));
  }

  /** Deployer `i` has come to `n` applied migrations, with this report, and has the rest ahead of it. */
  ghost predicate Ahead(dir: seq<Migration>, s: State, i: nat, n: nat, report: seq<string>) {
    && i < |s.deployers| && s.lock.None? && AtPrefix(dir, s.db, n)
    && s.deployers[i].phase.Choosing? && s.deployers[i].pending == dir[n..] && s.deployers[i].report == report
  }

  /** It executes the statements of the head of its list. */
  lemma {:induction false} GetsExecuted(dir: seq<Migration>, s: State, i: nat, left: nat)
    requires i < |s.deployers| && s.deployers[i].phase.Executing? && s.deployers[i].pending != []
    requires s.deployers[i].phase.done <= s.deployers[i].pending[0].statements
    requires left == |s.deployers[i].pending[0].statements| - |s.deployers[i].phase.done|
    ensures Gets(dir, s, i, With(s, i, s.deployers[i].(phase := Executing(s.deployers[i].pending[0].statements))))
    decreases left
  {
    var d := s.deployers[i];
    if left == 0 {
      assert d.phase.done == d.pending[0].statements;
      assert With(s, i, d.(phase := Executing(d.pending[0].statements))) == s;
      assert Alone([], i) && Play(dir, s, []) == Some(s);
    } else {
      GetsOne(dir, s, i, Execute);
      var mid := Next(dir, s, i, Execute);
      GetsExecuted(dir, mid, i, left - 1);
      var after := With(mid, i, mid.deployers[i].(phase := Executing(d.pending[0].statements)));
      assert after == With(s, i, d.(phase := Executing(d.pending[0].statements)));
      GetsTrans(dir, s, i, mid, after);
    }
  }

  /** Into the transaction, up to the first statement. */
  lemma GetsIn(dir: seq<Migration>, s: State, i: nat, n: nat, report: seq<string>)
    requires ValidDirectory(dir) && Ahead(dir, s, i, n, report) && n < |dir| && Agrees(s.deployers[i], dir[n])
    ensures Gets(dir, s, i, With(s.(lock := Some(i)), i, s.deployers[i].(phase := Executing([]))))
  {
    NextIsNew(dir, s.db, n, n);
    GetsOne(dir, s, i, Begin);
    var s1 := Next(dir, s, i, Begin);
    GetsNext(dir, s, i, s1, Acquire);
    var s2 := Next(dir, s1, i, Acquire);
    GetsNext(dir, s, i, s2, Proceed);
    assert Next(dir, s2, i, Proceed) == With(s.(lock := Some(i)), i, s.deployers[i].(phase := Executing([])));
  }

  /** One migration, from the head of the loop to the head of the loop. */
  lemma GetsApplied(dir: seq<Migration>, s: State, i: nat, n: nat, report: seq<string>) returns (after: State)
    requires ValidDirectory(dir) && Ahead(dir, s, i, n, report) && n < |dir| && Agrees(s.deployers[i], dir[n])
    ensures Gets(dir, s, i, after) && Ahead(dir, after, i, n + 1, report + [dir[n].id])
    ensures |after.deployers| == |s.deployers| && after.deployers[i].acceptsDataLoss == s.deployers[i].acceptsDataLoss
  {
    GetsIn(dir, s, i, n, report);
    var d := s.deployers[i];
    var s3 := With(s.(lock := Some(i)), i, d.(phase := Executing([])));
    GetsExecuted(dir, s3, i, |dir[n].statements|);
    var s4 := With(s3, i, d.(phase := Executing(dir[n].statements)));
    GetsTrans(dir, s, i, s3, s4);
    GetsNext(dir, s, i, s4, Track);
    var s5 := Next(dir, s4, i, Track);
    GetsNext(dir, s, i, s5, Commit);
    after := Next(dir, s5, i, Commit);
    CommitPrefix(dir, s.db, n);
    assert dir[n..][1..] == dir[n + 1..];
  }

  function IdsFrom(dir: seq<Migration>, n: nat): seq<string>
    requires n <= |dir|
    decreases |dir| - n
  {
    if n == |dir| then [] else [dir[n].id] + IdsFrom(dir, n + 1)
  }

  /** It has returned, with all of the directory applied and reported. */
  ghost predicate Through(dir: seq<Migration>, s: State, i: nat, report: seq<string>) {
    && AtPrefix(dir, s.db, |dir|) && i < |s.deployers|
    && s.deployers[i].phase.Finished? && s.deployers[i].report == report
  }

  /** A deployer that accepts data loss, or one that does not, may apply the migration. */
  predicate Allowed(accepts: bool, m: Migration) {
    !m.needsBackfill && (m.destructive ==> accepts)
  }

  lemma {:induction false} GetsThrough(dir: seq<Migration>, s: State, i: nat, accepts: bool, n: nat, report: seq<string>)
    returns (after: State)
    requires ValidDirectory(dir) && Ahead(dir, s, i, n, report) && s.deployers[i].acceptsDataLoss == accepts
    requires forall k :: n <= k < |dir| ==> Allowed(accepts, dir[k])
    ensures Gets(dir, s, i, after) && Through(dir, after, i, report + IdsFrom(dir, n))
    decreases |dir| - n
  {
    if n == |dir| {
      after := GetsReturned(dir, s, i, report);
    } else {
      assert Allowed(accepts, dir[n]);
      var mid := GetsApplied(dir, s, i, n, report);
      after := GetsThrough(dir, mid, i, accepts, n + 1, report + [dir[n].id]);
      GetsTrans(dir, s, i, mid, after);
      ReportGoesOn(dir, n, report);
    }
  }

  lemma ReportGoesOn(dir: seq<Migration>, n: nat, report: seq<string>)
    requires n < |dir|
    ensures report + [dir[n].id] + IdsFrom(dir, n + 1) == report + IdsFrom(dir, n)
  {}

  lemma GetsReturned(dir: seq<Migration>, s: State, i: nat, report: seq<string>) returns (after: State)
    requires Ahead(dir, s, i, |dir|, report)
    ensures Gets(dir, s, i, after) && Through(dir, after, i, report + IdsFrom(dir, |dir|))
  {
    GetsOne(dir, s, i, Return);
    after := Next(dir, s, i, Return);
    assert report + [] == report;
  }

  /** Some schedule of deployer `i` alone ends with its successful return. */
  ghost predicate CanFinish(dir: seq<Migration>, s: State, i: nat) {
    exists after :: Gets(dir, s, i, after) && i < |after.deployers| && after.deployers[i].phase.Finished?
  }

  /**
   A deployer that is alone can get to the end if and only if no migration that is left needs a
   backfill, and either none is destructive or it accepts data loss.
   */
  lemma FinishesIfAgreed(dir: seq<Migration>, s: State, n: nat, i: nat)
    requires ValidDirectory(dir) && Fresh(s) && AtPrefix(dir, s.db, n) && i < |s.deployers|
    ensures CanFinish(dir, s, i) <==>
              forall k :: n <= k < |dir| ==> !dir[k].needsBackfill && (dir[k].destructive ==> s.deployers[i].acceptsDataLoss)
  {
    if CanFinish(dir, s, i) {
      var after :| Gets(dir, s, i, after) && i < |after.deployers| && after.deployers[i].phase.Finished?;
      var schedule :| Alone(schedule, i) && Play(dir, s, schedule) == Some(after);
      ReturnMeansDone(dir, s, n, schedule, i);
      forall k | n <= k < |dir|
        ensures !dir[k].needsBackfill && (dir[k].destructive ==> s.deployers[i].acceptsDataLoss)
      {
        var t := AppliedWithConsent(dir, s, n, schedule, k);
      }
    }
    if forall k :: n <= k < |dir| ==> !dir[k].needsBackfill && (dir[k].destructive ==> s.deployers[i].acceptsDataLoss) {
      var after := FinishesAlone(dir, s, n, i);
    }
  }

  /** What it then reports is what was left, in the order of the directory. */
  lemma FinishesAlone(dir: seq<Migration>, s: State, n: nat, i: nat) returns (after: State)
    requires ValidDirectory(dir) && Fresh(s) && AtPrefix(dir, s.db, n) && i < |s.deployers|
    requires forall k :: n <= k < |dir| ==> !dir[k].needsBackfill && (dir[k].destructive ==> s.deployers[i].acceptsDataLoss)
    ensures Gets(dir, s, i, after) && Through(dir, after, i, IdsFrom(dir, n))
  {
    PendingIsRest(dir, s.db, n);
    GetsOne(dir, s, i, Start);
    var mid := Next(dir, s, i, Start);
    after := GetsThrough(dir, mid, i, s.deployers[i].acceptsDataLoss, n, []);
    GetsTrans(dir, s, i, mid, after);
    assert [] + IdsFrom(dir, n) == IdsFrom(dir, n);
  }
}
