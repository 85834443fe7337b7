/**
 Any number of deployers applying one migration directory to one Postgres database
 (`apply_all` of `crates/migrate/src/runner.rs`). Each works from a list of pending
 migrations read before it holds any lock; each migration runs in a transaction that takes
 the advisory lock and looks the migration up again. Between any two steps of one deployer,
 the others may take any number of steps.
 */
module Runner {
  import opened Ir

  /** A migration as loaded from the directory, its script split into statements. */
  datatype Migration = Migration(id: string, statements: seq<string>, needsBackfill: bool, destructive: bool)

  /** The committed state: the rows of the tracking table, and the statements that took effect, in order. */
  datatype Database = Database(applied: set<string>, log: seq<string>)

  datatype Phase =
    | NotStarted
    | Choosing                          // at the head of the loop over the pending list
    | Waiting                           // transaction begun, advisory lock requested
    | Locked                            // advisory lock held
    | Executing(done: seq<string>)      // not applied yet, by the re-read; statements run so far
    | Tracked(done: seq<string>)        // tracking row written as well
    | Finished                          // returned Ok(report)
    | Failed                            // returned an error, or crashed

  datatype Deployer = Deployer(phase: Phase, acceptsDataLoss: bool, pending: seq<Migration>, report: seq<string>)
  {
    predicate Holds() {
      phase.Locked? || phase.Executing? || phase.Tracked?
    }

    predicate Ended() {
      phase.Finished? || phase.Failed?
    }
  }

  datatype State = State(db: Database, lock: Option<nat>, deployers: seq<Deployer>)

  datatype Event =
    | Start       // read the tracking table, compute the pending list
    | Refuse      // BACKFILL marker or destructive migration
    | Begin
    | Acquire
    | Skip        // the re-read finds the migration applied
    | Proceed     // the re-read does not
    | Execute     // one statement
    | Track
    | Commit
    | CommitUnheard  // the commit takes effect but the deployer never learns of it
    | Return
    | Break       // an error or a crash anywhere: the transaction is rolled back

  function Unapplied(dir: seq<Migration>, applied: set<string>): seq<Migration> {
    if dir == [] then []
    else (if dir[0].id in applied then [] else [dir[0]]) + Unapplied(dir[1..], applied)
  }

  /** The filter that both `pending` and `apply_all` compute. */
  method Pending(dir: seq<Migration>, applied: set<string>) returns (pending: seq<Migration>)
    ensures pending == Unapplied(dir, applied)
  {
    pending := [];
    for i := 0 to |dir|
      invariant pending + Unapplied(dir[i..], applied) == Unapplied(dir, applied)
    {
      if dir[i].id !in applied {
        pending := pending + [dir[i]];
      }
    }
  }

  function With(s: State, i: nat, d: Deployer): State
    requires i < |s.deployers|
  {
    s.(deployers := s.deployers[i := d])
  }

  /** Ends the transaction of deployer `i`: the lock goes with it. */
  function Unlocked(s: State, i: nat): State {
    s.(lock := if s.lock == Some(i) then None else s.lock)
  }

  predicate Refused(d: Deployer)
    requires d.pending != []
  {
    d.pending[0].needsBackfill || (d.pending[0].destructive && !d.acceptsDataLoss)
  }

  predicate Enabled(dir: seq<Migration>, s: State, i: nat, e: Event) {
    i < |s.deployers| &&
    var d := s.deployers[i];
    match e
    case Start => d.phase.NotStarted?
    case Refuse => d.phase.Choosing? && d.pending != [] && Refused(d)
    case Begin => d.phase.Choosing? && d.pending != [] && !Refused(d)
    case Acquire => d.phase.Waiting? && s.lock.None?
    case Skip => d.phase.Locked? && d.pending != [] && d.pending[0].id in s.db.applied
    case Proceed => d.phase.Locked? && d.pending != [] && d.pending[0].id !in s.db.applied
    case Execute => d.phase.Executing? && d.pending != [] && |d.phase.done| < |d.pending[0].statements|
    case Track => d.phase.Executing? && d.pending != [] && |d.phase.done| == |d.pending[0].statements|
    case Commit => d.phase.Tracked? && d.pending != []
    case CommitUnheard => d.phase.Tracked? && d.pending != []
    case Return => d.phase.Choosing? && d.pending == []
    case Break => !d.Ended()
  }

  function Next(dir: seq<Migration>, s: State, i: nat, e: Event): State
    requires Enabled(dir, s, i, e)
  {
    var d := s.deployers[i];
    match e
    case Start => With(s, i, d.(phase := Choosing, pending := Unapplied(dir, s.db.applied)))
    case Refuse => With(s, i, d.(phase := Failed))
    case Begin => With(s, i, d.(phase := Waiting))
    case Acquire => With(s.(lock := Some(i)), i, d.(phase := Locked))
    case Skip => With(Unlocked(s, i), i, d.(phase := Choosing, pending := d.pending[1..]))
    case Proceed => With(s, i, d.(phase := Executing([])))
    case Execute => With(s, i, d.(phase := Executing(d.phase.done + [d.pending[0].statements[|d.phase.done|]])))
    case Track => With(s, i, d.(phase := Tracked(d.phase.done)))
    case Commit =>
      With(Committed(Unlocked(s, i), d), i,
           d.(phase := Choosing, pending := d.pending[1..], report := d.report + [d.pending[0].id]))
    case CommitUnheard => With(Committed(Unlocked(s, i), d), i, d.(phase := Failed))
    case Return => With(s, i, d.(phase := Finished))
    case Break => With(Unlocked(s, i), i, d.(phase := Failed))
  }

  /** DDL and tracking row become visible together. */
  function Committed(s: State, d: Deployer): State
    requires d.phase.Tracked? && d.pending != []
  {
    s.(db := Database(s.db.applied + {d.pending[0].id}, s.db.log + d.phase.done))
  }

  // ---- Runs ------------------------------------------------------------------------------------------

  /** A schedule picks a deployer and an event at every step; `None` if some step is not possible. */
  function Play(dir: seq<Migration>, s: State, schedule: seq<(nat, Event)>): Option<State>
    decreases |schedule|
  {
    if schedule == [] then Some(s)
    else if Enabled(dir, s, schedule[0].0, schedule[0].1) then
      Play(dir, Next(dir, s, schedule[0].0, schedule[0].1), schedule[1..])
    else None
  }

  ghost predicate ValidDirectory(dir: seq<Migration>) {
    forall i, j :: 0 <= i < j < |dir| ==> dir[i].id != dir[j].id
  }

  function Ids(dir: seq<Migration>, n: nat): set<string>
    requires n <= |dir|
  {
    set k | 0 <= k < n :: dir[k].id
  }

  function Script(dir: seq<Migration>, n: nat): seq<string>
    requires n <= |dir|
  {
    if n == 0 then [] else Script(dir, n - 1) + dir[n - 1].statements
  }

  /** Exactly the first `n` migrations have been applied, in order, each once. */
  ghost predicate AtPrefix(dir: seq<Migration>, db: Database, n: nat) {
    n <= |dir| && db.applied == Ids(dir, n) && db.log == Script(dir, n)
  }

  ghost predicate Fresh(s: State) {
    s.lock.None? && forall i :: 0 <= i < |s.deployers| ==> s.deployers[i].phase.NotStarted? && s.deployers[i].report == []
  }

  // ---- The invariant ------------------------------------------------------------------------------------

  /** How far down the directory a deployer's list starts. */
  function Position(dir: seq<Migration>, d: Deployer): int {
    |dir| - |d.pending|
  }

  /** The deployer may apply the migration. */
  predicate Agrees(d: Deployer, m: Migration) {
    !m.needsBackfill && (m.destructive ==> d.acceptsDataLoss)
  }

  /**
   One deployer, while `n` migrations are applied: its list is the rest of the directory
   from some applied point on, and inside the re-read's protection from exactly `n`.
   */
  ghost predicate DeployerInv(dir: seq<Migration>, n: nat, lock: Option<nat>, i: nat, d: Deployer) {
    && (d.Holds() <==> lock == Some(i))
    && (!d.phase.NotStarted? && !d.phase.Failed? ==>
          0 <= Position(dir, d) <= n <= |dir| && d.pending == dir[Position(dir, d)..])
    && (d.phase.Waiting? || d.Holds() ==> d.pending != [] && Agrees(d, d.pending[0]))
    && (d.phase.Executing? || d.phase.Tracked? ==> Position(dir, d) == n)
    && (d.phase.Executing? ==> d.phase.done <= d.pending[0].statements)
    && (d.phase.Tracked? ==> d.phase.done == d.pending[0].statements)
    && (d.phase.Finished? ==> d.pending == [])
  }

  ghost predicate NoRepeats(s: seq<string>) {
    forall a, b :: 0 <= a < b < |s| ==> s[a] != s[b]
  }

  /** What deployers report was committed by them, and by them alone. */
  ghost predicate ReportsInv(s: State) {
    && (forall i :: 0 <= i < |s.deployers| ==> NoRepeats(s.deployers[i].report))
    && (forall i, x :: 0 <= i < |s.deployers| && x in s.deployers[i].report ==> x in s.db.applied)
    && (forall i, j, x :: 0 <= i < j < |s.deployers| && x in s.deployers[i].report ==> x !in s.deployers[j].report)
  }

  ghost predicate Inv(dir: seq<Migration>, s: State, n: nat) {
    && AtPrefix(dir, s.db, n)
    && (forall i :: 0 <= i < |s.deployers| ==> DeployerInv(dir, n, s.lock, i, s.deployers[i]))
    && (s.lock.Some? ==> s.lock.value < |s.deployers|)
    && ReportsInv(s)
  }

  lemma {:induction false} UnappliedAll(dir: seq<Migration>, applied: set<string>)
    requires forall k :: 0 <= k < |dir| ==> dir[k].id !in applied
    ensures Unapplied(dir, applied) == dir
  {
    if dir != [] {
      UnappliedAll(dir[1..], applied);
    }
  }

  lemma {:induction false} UnappliedDrop(dir: seq<Migration>, applied: set<string>, n: nat)
    requires n <= |dir| && forall k :: 0 <= k < n ==> dir[k].id in applied
    requires forall k :: n <= k < |dir| ==> dir[k].id !in applied
    ensures Unapplied(dir, applied) == dir[n..]
  {
    if n == 0 {
      UnappliedAll(dir, applied);
    } else {
      UnappliedDrop(dir[1..], applied, n - 1);
      assert dir[1..][n - 1..] == dir[n..];
    }
  }

  /** On an applied prefix, the pending list is the rest of the directory. */
  lemma PendingIsRest(dir: seq<Migration>, db: Database, n: nat)
    requires ValidDirectory(dir) && AtPrefix(dir, db, n)
    ensures Unapplied(dir, db.applied) == dir[n..]
  {
    forall k | 0 <= k < |dir| ensures dir[k].id in db.applied <==> k < n {}
    UnappliedDrop(dir, db.applied, n);
  }

  lemma NextIsNew(dir: seq<Migration>, db: Database, n: nat, k: nat)
    requires ValidDirectory(dir) && AtPrefix(dir, db, n) && k < |dir|
    ensures dir[k].id in db.applied <==> k < n
  {}

  /** The number of applied migrations after an event. */
  function Progress(e: Event, n: nat): nat {
    if e.Commit? || e.CommitUnheard? then n + 1 else n
  }

  lemma CommitPrefix(dir: seq<Migration>, db: Database, n: nat)
    requires AtPrefix(dir, db, n) && n < |dir|
    ensures AtPrefix(dir, Database(db.applied + {dir[n].id}, db.log + dir[n].statements), n + 1)
  {
    assert Ids(dir, n + 1) == Ids(dir, n) + {dir[n].id};
  }

  lemma StepDb(dir: seq<Migration>, s: State, n: nat, i: nat, e: Event)
    requires ValidDirectory(dir) && Inv(dir, s, n) && Enabled(dir, s, i, e)
    ensures AtPrefix(dir, Next(dir, s, i, e).db, Progress(e, n))
  {
    assert DeployerInv(dir, n, s.lock, i, s.deployers[i]);
    if e.Commit? || e.CommitUnheard? {
      assert s.deployers[i].pending[0] == dir[n];
      CommitPrefix(dir, s.db, n);
    }
  }

  lemma StepSelf(dir: seq<Migration>, s: State, n: nat, i: nat, e: Event)
    requires ValidDirectory(dir) && Inv(dir, s, n) && Enabled(dir, s, i, e)
    ensures DeployerInv(dir, Progress(e, n), Next(dir, s, i, e).lock, i, Next(dir, s, i, e).deployers[i])
  {
    var d := s.deployers[i];
    assert DeployerInv(dir, n, s.lock, i, d);
    if e.Start? {
      PendingIsRest(dir, s.db, n);
    } else if d.Holds() {
      assert d.pending[0] == dir[Position(dir, d)];
      NextIsNew(dir, s.db, n, Position(dir, d));
    }
  }

  lemma StepOther(dir: seq<Migration>, s: State, n: nat, i: nat, e: Event, k: nat)
    requires Inv(dir, s, n) && Enabled(dir, s, i, e) && k < |s.deployers| && k != i
    requires Progress(e, n) <= |dir|
    ensures DeployerInv(dir, Progress(e, n), Next(dir, s, i, e).lock, k, s.deployers[k])
  {
    assert DeployerInv(dir, n, s.lock, k, s.deployers[k]) && DeployerInv(dir, n, s.lock, i, s.deployers[i]);
  }

  lemma StepReports(dir: seq<Migration>, s: State, n: nat, i: nat, e: Event)
    requires ValidDirectory(dir) && Inv(dir, s, n) && Enabled(dir, s, i, e)
    ensures ReportsInv(Next(dir, s, i, e))
  {
    var d := s.deployers[i];
    assert DeployerInv(dir, n, s.lock, i, d);
    if e.Commit? {
      assert d.pending[0] == dir[n];
      NextIsNew(dir, s.db, n, n);
    }
  }

  lemma StepKeepsInv(dir: seq<Migration>, s: State, n: nat, i: nat, e: Event)
    requires ValidDirectory(dir) && Inv(dir, s, n) && Enabled(dir, s, i, e)
    ensures Inv(dir, Next(dir, s, i, e), Progress(e, n))
  {
    StepDb(dir, s, n, i, e);
    StepSelf(dir, s, n, i, e);
    StepReports(dir, s, n, i, e);
    forall k | 0 <= k < |s.deployers| && k != i
      ensures DeployerInv(dir, Progress(e, n), Next(dir, s, i, e).lock, k, s.deployers[k])
    {
      StepOther(dir, s, n, i, e, k);
    }
  }

  lemma {:induction false} PlayKeepsInv(dir: seq<Migration>, s: State, n: nat, schedule: seq<(nat, Event)>) returns (m: nat)
    requires ValidDirectory(dir) && Inv(dir, s, n) && Play(dir, s, schedule).Some?
    ensures n <= m && Inv(dir, Play(dir, s, schedule).value, m)
    decreases |schedule|
  {
    m := n;
    if schedule != [] {
      StepKeepsInv(dir, s, n, schedule[0].0, schedule[0].1);
      m := PlayKeepsInv(dir, Next(dir, s, schedule[0].0, schedule[0].1), Progress(schedule[0].1, n), schedule[1..]);
    }
  }

  lemma FreshInv(dir: seq<Migration>, s: State, n: nat)
    requires Fresh(s) && AtPrefix(dir, s.db, n)
    ensures Inv(dir, s, n)
  {}

  // ---- What every run guarantees ------------------------------------------------------------------------

  /**
   Whatever the schedule, the applied set is a prefix of the directory that never shrinks,
   and the statements that took effect are exactly those of that prefix, in order: nothing
   is applied twice, half, or out of order.
   */
  lemma AlwaysAPrefix(dir: seq<Migration>, s: State, n: nat, schedule: seq<(nat, Event)>) returns (m: nat)
    requires ValidDirectory(dir) && Fresh(s) && AtPrefix(dir, s.db, n) && Play(dir, s, schedule).Some?
    ensures n <= m && AtPrefix(dir, Play(dir, s, schedule).value.db, m)
  {
    FreshInv(dir, s, n);
    m := PlayKeepsInv(dir, s, n, schedule);
  }

  /** A deployer that returns successfully leaves nothing pending. */
  lemma ReturnMeansDone(dir: seq<Migration>, s: State, n: nat, schedule: seq<(nat, Event)>, i: nat)
    requires ValidDirectory(dir) && Fresh(s) && AtPrefix(dir, s.db, n) && Play(dir, s, schedule).Some?
    requires i < |Play(dir, s, schedule).value.deployers| && Play(dir, s, schedule).value.deployers[i].phase.Finished?
    ensures AtPrefix(dir, Play(dir, s, schedule).value.db, |dir|)
  {
    FreshInv(dir, s, n);
    var m := PlayKeepsInv(dir, s, n, schedule);
    var end := Play(dir, s, schedule).value;
    assert DeployerInv(dir, m, end.lock, i, end.deployers[i]);
  }

  /** No migration is reported by two deployers, or twice by one, or without having been applied. */
  lemma ReportsAreExclusive(dir: seq<Migration>, s: State, n: nat, schedule: seq<(nat, Event)>)
    requires ValidDirectory(dir) && Fresh(s) && AtPrefix(dir, s.db, n) && Play(dir, s, schedule).Some?
    ensures ReportsInv(Play(dir, s, schedule).value)
  {
    FreshInv(dir, s, n);
    var m := PlayKeepsInv(dir, s, n, schedule);
  }

  /** While some deployer has not ended, some deployer can go on without failing by itself. */
  lemma NeverStuck(dir: seq<Migration>, s: State, n: nat, i: nat) returns (k: nat, e: Event)
    requires ValidDirectory(dir) && Inv(dir, s, n) && i < |s.deployers| && !s.deployers[i].Ended()
    ensures Enabled(dir, s, k, e) && !e.Break? && !e.CommitUnheard?
  {
    k := if s.deployers[i].phase.Waiting? && s.lock.Some? then s.lock.value else i;
    var d := s.deployers[k];
    assert DeployerInv(dir, n, s.lock, k, d) && DeployerInv(dir, n, s.lock, i, s.deployers[i]);
    e := match d.phase
      case NotStarted => Start
      case Choosing => if d.pending == [] then Return else if Refused(d) then Refuse else Begin
      case Waiting => Acquire
      case Locked => if d.pending[0].id in s.db.applied then Skip else Proceed
      case Executing(done) => if |done| < |d.pending[0].statements| then Execute else Track
      case Tracked(_) => Commit
      case _ => Break;
  }

  // ---- Every run ends ------------------------------------------------------------------------------------

  /** An upper bound on the steps that a pending list can take. */
  function Work(pending: seq<Migration>): nat {
    if pending == [] then 0 else |pending[0].statements| + 6 + Work(pending[1..])
  }

  function StepsLeft(dir: seq<Migration>, d: Deployer): nat {
    match d.phase
    case NotStarted => Work(dir) + 2
    case Choosing => Work(d.pending) + 1
    case Waiting => Work(d.pending)
    case Locked => if d.pending == [] then 1 else Work(d.pending) - 1
    case Executing(done) =>
      if d.pending == [] then 1
      else Work(d.pending[1..]) + 4 + if |done| < |d.pending[0].statements| then |d.pending[0].statements| - |done| else 0
    case Tracked(_) => if d.pending == [] then 1 else Work(d.pending[1..]) + 3
    case Finished => 0
    case Failed => 0
  }

  function Budget(dir: seq<Migration>, ds: seq<Deployer>): nat {
    if ds == [] then 0 else StepsLeft(dir, ds[0]) + Budget(dir, ds[1..])
  }

  lemma {:induction false} UnappliedWork(dir: seq<Migration>, applied: set<string>)
    ensures Work(Unapplied(dir, applied)) <= Work(dir)
  {
    if dir != [] {
      UnappliedWork(dir[1..], applied);
      var rest := Unapplied(dir[1..], applied);
      if dir[0].id in applied {
        assert Unapplied(dir, applied) == rest;
      } else {
        assert Unapplied(dir, applied) == [dir[0]] + rest;
        assert ([dir[0]] + rest)[1..] == rest;
      }
    }
  }

  lemma {:induction false} BudgetUpdate(dir: seq<Migration>, ds: seq<Deployer>, i: nat, d: Deployer)
    requires i < |ds|
    ensures Budget(dir, ds[i := d]) == Budget(dir, ds) - StepsLeft(dir, ds[i]) + StepsLeft(dir, d)
  {
    if i == 0 {
      assert ds[i := d][1..] == ds[1..];
    } else {
      assert ds[i := d][1..] == ds[1..][i - 1 := d];
      BudgetUpdate(dir, ds[1..], i - 1, d);
    }
  }

  lemma StepSpends(dir: seq<Migration>, s: State, n: nat, i: nat, e: Event)
    requires Inv(dir, s, n) && Enabled(dir, s, i, e)
    ensures StepsLeft(dir, Next(dir, s, i, e).deployers[i]) < StepsLeft(dir, s.deployers[i])
    ensures Next(dir, s, i, e).deployers == s.deployers[i := Next(dir, s, i, e).deployers[i]]
  {
    var d := s.deployers[i];
    assert DeployerInv(dir, n, s.lock, i, d);
    if e.Start? {
      UnappliedWork(dir, s.db.applied);
    } else if d.pending != [] {
      assert Work(d.pending) == |d.pending[0].statements| + 6 + Work(d.pending[1..]);
    }
  }

  /**
   No schedule is longer than the budget of its first state. As some deployer can always
   go on (`NeverStuck`), every run that is carried on ends with all deployers ended.
   */
  lemma {:induction false} SchedulesEnd(dir: seq<Migration>, s: State, n: nat, schedule: seq<(nat, Event)>)
    requires ValidDirectory(dir) && Inv(dir, s, n) && Play(dir, s, schedule).Some?
    ensures |schedule| <= Budget(dir, s.deployers)
    decreases |schedule|
  {
    if schedule != [] {
      var (i, e) := schedule[0];
      StepKeepsInv(dir, s, n, i, e);
      StepSpends(dir, s, n, i, e);
      BudgetUpdate(dir, s.deployers, i, Next(dir, s, i, e).deployers[i]);
      SchedulesEnd(dir, Next(dir, s, i, e), Progress(e, n), schedule[1..]);
    }
  }
}
