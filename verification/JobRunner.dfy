/** Any number of `run` calls working on one job row.

    A call awaits one operation at a time through its lease monitor. Losing the lease
    abandons the awaited operation but cannot recall it: a statement that is in flight
    may still reach the database after the call has moved on, or even returned. */
module JobRunner {
  import opened Basics
  import opened JobLease

  datatype Op =
    | OpMarkLeased | OpPrepare | OpMarkDecrypting | OpDecrypt | OpMarkCompleted
    | OpMarkAdapting | OpAdapt | OpMarkImporting | OpMarkFinalizing | OpImport
    | OpMarkFailed(retryable: bool)

  /** The operation that follows a successful one; None when the call is to return true.
      Without an adapter and importer the job is complete once it is decrypted. */
  function After(op: Op, pipeline: bool): Option<Op> {
    match op
    case OpMarkLeased => Some(OpPrepare)
    case OpPrepare => Some(OpMarkDecrypting)
    case OpMarkDecrypting => Some(OpDecrypt)
    case OpDecrypt => Some(if pipeline then OpMarkAdapting else OpMarkCompleted)
    case OpMarkAdapting => Some(OpAdapt)
    case OpAdapt => Some(OpMarkImporting)
    case OpMarkImporting => Some(OpMarkFinalizing)
    case OpMarkFinalizing => Some(OpImport)
    case OpImport => None
    case OpMarkCompleted => None
    case OpMarkFailed(_) => None
  }

  function StatementOf(op: Op, lease: LeaseId): Option<Statement> {
    match op
    case OpMarkLeased => Some(Mark(lease, MarkLeased))
    case OpMarkDecrypting => Some(Mark(lease, MarkDecrypting))
    case OpMarkAdapting => Some(Mark(lease, MarkAdapting))
    case OpMarkImporting => Some(Mark(lease, MarkImporting))
    case OpMarkFinalizing => Some(Mark(lease, MarkFinalizing))
    case OpMarkCompleted => Some(Mark(lease, MarkCompleted))
    case OpMarkFailed(retryable) => Some(Mark(lease, MarkFailed(retryable)))
    case OpImport => Some(CommitImport(lease))
    case OpPrepare => None
    case OpDecrypt => None
    case OpAdapt => None
  }

  datatype Outcome = True | False | Thrown

  datatype Control =
    | Starting                               // the job was read and looked eligible
    | Before(op: Op)
    | Awaiting(op: Op, reply: Option<bool>)  // whether its statement matched, once it arrived
    | Releasing(outcome: Outcome)
    | AwaitingRelease(outcome: Outcome)
    | Done(outcome: Outcome)

  /** How the await of the completing operation ended, once it has: with a reply, because the
      lease was lost first, or with an error. */
  datatype Completing = NotSent | Sent | Took(matched: bool) | GivenUp | Failing

  datatype Worker = Worker(
    control: Control,
    pipeline: bool,
    lease: Option<LeaseId>,
    lost: bool,
    inFlight: set<Statement>,
    completing: Completing,
    releaseFailed: bool)

  type RunId = nat

  datatype World = World(db: Db, runs: map<RunId, Worker>)

  datatype Action =
    | Elapse(time: nat)
    | RecoverStale
    | Call(run: RunId, pipeline: bool)
    | AcquireFor(run: RunId, minted: LeaseId, duration: Duration, answered: bool)
    | Arrive(run: RunId, stmt: Statement)     // the database executes a statement in flight
    | Inside(run: RunId, event: LocalEvent)

  /** What happens inside one call without touching the database. */
  datatype LocalEvent =
    | AcquireFails
    | Begin                          // monitor.run: assert the lease, start the operation
    | Fault(retryable: bool)         // an error thrown between two operations
    | Heartbeat(extension: Duration)
    | Vanish(stmt: Statement)        // a statement in flight never reaches the database
    | Settle                         // the awaited operation resolves or is fenced off
    | Reject(retryable: bool)        // the awaited operation fails for another reason
    | Lose                           // a renewal was refused or failed
    | BeginRelease
    | EndRelease(fails: bool)

  /** What `run` checks on the row it read, before it tries to acquire a lease. */
  predicate LooksEligible(job: Job) {
    job.status.Queued? || (job.status.Failed? && job.retryable != Some(false))
  }

  predicate Ready(r: Worker, e: LocalEvent) {
    match e
    case AcquireFails => r.control.Starting?
    case Begin => r.control.Before? && r.lease.Some?
    case Fault(_) => r.control.Before? && !r.control.op.OpMarkFailed?
    case Heartbeat(_) => r.lease.Some? && !r.lost && (r.control.Before? || r.control.Awaiting?)
    case Vanish(stmt) => stmt in r.inFlight
    case Settle =>
      r.control.Awaiting? && r.lease.Some?
      && (StatementOf(r.control.op, r.lease.value).Some? ==> r.control.reply.Some?)
    case Reject(_) => r.control.Awaiting?
    case Lose => r.lease.Some? && !r.lost
    case BeginRelease => r.control.Releasing? && r.lease.Some?
    case EndRelease(_) => r.control.AwaitingRelease?
  }

  predicate Final(op: Op) {
    op.OpImport? || op.OpMarkCompleted?
  }

  predicate AwaitsFinal(r: Worker) {
    r.control.Awaiting? && Final(r.control.op)
  }

  /** Records how an await ends, if it is the completing one. */
  function Ended(r: Worker, how: Completing): Worker {
    if AwaitsFinal(r) then r.(completing := how) else r
  }

  function Local(r: Worker, e: LocalEvent): Worker
    requires Ready(r, e)
  {
    match e
    case AcquireFails => r.(control := Done(Thrown))
    case Begin =>
      if r.lost then r.(control := Releasing(False))
      else
        var stmt := StatementOf(r.control.op, r.lease.value);
        r.(control := Awaiting(r.control.op, None),
        inFlight := r.inFlight + (if stmt.Some? then {stmt.value} else {}),
        completing := if Final(r.control.op) then Sent else r.completing)
    case Fault(retryable) => r.(control := Before(OpMarkFailed(retryable)))
    case Heartbeat(extension) => r.(inFlight := r.inFlight + {Renew(r.lease.value, extension)})
    case Vanish(stmt) => r.(inFlight := r.inFlight - {stmt})
    case Settle =>
      var r' := Ended(r, Took(r.control.reply == Some(true)));
      if r.control.reply == Some(false) || r.control.op.OpMarkFailed? then r'.(control := Releasing(False))
      else (
          match After(r.control.op, r.pipeline)
          case Some(next) => r'.(control := Before(next))
          case None => r'.(control := Releasing(True)))
    case Reject(retryable) =>
      Ended(r, Failing).(
      control := if r.control.op.OpMarkFailed? then Releasing(Thrown) else Before(OpMarkFailed(retryable)))
    case Lose => Ended(r, GivenUp).(lost := true, control := if r.control.Awaiting? then Releasing(False) else r.control)
    case BeginRelease =>
      r.(control := AwaitingRelease(r.control.outcome), inFlight := r.inFlight + {Release(r.lease.value)})
    case EndRelease(fails) => r.(control := Done(if fails then Thrown else r.control.outcome), releaseFailed := fails)
  }

  predicate Enabled(w: World, a: Action) {
    match a
    case Elapse(_) => true
    case RecoverStale => true
    case Call(run, _) => run !in w.runs
    case AcquireFor(run, minted, _, _) =>
      run in w.runs && w.runs[run].control.Starting? && minted !in w.db.issued
    case Arrive(run, stmt) => run in w.runs && stmt in w.runs[run].inFlight
    case Inside(run, event) => run in w.runs && Ready(w.runs[run], event)
  }

  /** A call's own view of its statement arriving. */
  function Answered(r: Worker, stmt: Statement, matched: bool): Worker {
    var awaited := r.control.Awaiting? && r.lease.Some?
    && StatementOf(r.control.op, r.lease.value) == Some(stmt);
    r.(inFlight := r.inFlight - {stmt},
    control := if awaited then Awaiting(r.control.op, Some(matched)) else r.control)
  }

  function Acquired(r: Worker, minted: LeaseId, matched: bool, answered: bool): Worker {
    if !matched then r.(control := Done(False))
    else if answered then r.(control := Before(OpMarkLeased), lease := Some(minted))
    else r.(control := Done(Thrown))
  }

  /** The statement an action brings to the database, if any. */
  function DbStep(a: Action): Option<Step> {
    match a
    case Elapse(t) => Some(Tick(t))
    case RecoverStale => Some(Do(Recover))
    case AcquireFor(_, minted, duration, _) => Some(Do(Acquire(minted, duration)))
    case Arrive(_, stmt) => Some(Do(stmt))
    case Call(_, _) => None
    case Inside(_, _) => None
  }

  function RunsAfter(w: World, a: Action): map<RunId, Worker>
    requires Enabled(w, a)
  {
    match a
    case Elapse(_) => w.runs
    case RecoverStale => w.runs
    case Call(run, pipeline) =>
      w.runs[run := Worker(if LooksEligible(w.db.job) then Starting else Done(False), pipeline, None, false, {}, NotSent, false)]
    case AcquireFor(run, minted, duration, answered) =>
      w.runs[run := Acquired(w.runs[run], minted, Where(w.db.job, Acquire(minted, duration), w.db.now), answered)]
    case Arrive(run, stmt) => w.runs[run := Answered(w.runs[run], stmt, Where(w.db.job, stmt, w.db.now))]
    case Inside(run, event) => w.runs[run := Local(w.runs[run], event)]
  }

  function Act(w: World, a: Action): World
    requires Enabled(w, a)
  {
    World(match DbStep(a) case None => w.db case Some(step) => Next(w.db, step), RunsAfter(w, a))
  }

  predicate ValidRun(w: World, actions: seq<Action>)
    decreases |actions|
  {
    actions == [] || (Enabled(w, actions[0]) && ValidRun(Act(w, actions[0]), actions[1..]))
  }

  function RunAll(w: World, actions: seq<Action>): World
    requires ValidRun(w, actions)
    decreases |actions|
  {
    if actions == [] then w else RunAll(Act(w, actions[0]), actions[1..])
  }

  function NewWorld(now: Time): World {
    World(NewJob(now), map[])
  }

  /** This lease's own statement completed the job. */
  predicate CompletedBy(h: seq<Event>, lease: LeaseId) {
    exists i :: 0 <= i < |h| && Completes(h[i]) && h[i].cause == ByLease(lease)
  }

  /** The call has returned true, or is about to. */
  predicate Succeeding(c: Control) {
    (c.Releasing? || c.AwaitingRelease? || c.Done?) && c.outcome.True?
  }

  predicate WorkerInv(r: Worker, db: Db) {
    && (r.lease.Some? ==> r.lease.value in db.issued)
    && (r.control.Starting? ==> r.lease.None?)
    && (forall s :: s in r.inFlight ==> r.lease.Some? && Carries(s, r.lease.value) && !s.Acquire?)
    && (r.control.Before? || r.control.Awaiting? ==> r.lease.Some?)
    && (r.control.Awaiting? && r.control.reply == Some(true) && Final(r.control.op)
        ==> CompletedBy(db.history, r.lease.value))
    && (Succeeding(r.control) ==> r.lease.Some? && CompletedBy(db.history, r.lease.value))
  }

  predicate WorldInv(w: World) {
    && Inv(w.db)
    && (forall k :: k in w.runs ==> WorkerInv(w.runs[k], w.db))
    && (forall k, m :: k in w.runs && m in w.runs && k != m && w.runs[k].lease.Some?
                       ==> w.runs[k].lease != w.runs[m].lease)
  }

  /** Histories only grow, so what a worker knows stays true. */
  lemma WorkerInvIsStable(r: Worker, db: Db, db': Db)
    requires WorkerInv(r, db) && db.issued <= db'.issued && db.history <= db'.history
    ensures WorkerInv(r, db')
  {
    if r.lease.Some? && CompletedBy(db.history, r.lease.value) {
      var i :| 0 <= i < |db.history| && Completes(db.history[i]) && db.history[i].cause == ByLease(r.lease.value);
      assert db'.history[i] == db.history[i];
    }
  }

  /** A final statement that matches leaves its lease's completion in the history. */
  lemma ArrivalKeepsWorker(r: Worker, db: Db, stmt: Statement)
    requires WorkerInv(r, db) && Inv(db) && stmt in r.inFlight
    ensures WorkerInv(Answered(r, stmt, Where(db.job, stmt, db.now)), Next(db, Do(stmt)))
  {
    var db' := Next(db, Do(stmt));
    WorkerInvIsStable(r, db, db');
    if Where(db.job, stmt, db.now) && r.control.Awaiting? && Final(r.control.op)
       && StatementOf(r.control.op, r.lease.value) == Some(stmt) {
      var e := db'.history[|db.history|];
      assert Completes(e) && e.cause == ByLease(r.lease.value);
    }
  }

  lemma LocalKeepsWorker(r: Worker, db: Db, e: LocalEvent)
    requires WorkerInv(r, db) && Ready(r, e)
    ensures WorkerInv(Local(r, e), db) && Local(r, e).lease == r.lease
  {
    if e.Settle? && Local(r, e).control == Releasing(True) {
      assert Final(r.control.op);
      assert r.control.reply.value;
    }
  }

  lemma ActKeepsWorker(w: World, a: Action, k: nat)
    requires WorldInv(w) && Enabled(w, a) && k in w.runs
    requires w.db.history <= Act(w, a).db.history && w.db.issued <= Act(w, a).db.issued
    ensures k in Act(w, a).runs && WorkerInv(Act(w, a).runs[k], Act(w, a).db)
  {
    WorkerInvIsStable(w.runs[k], w.db, Act(w, a).db);
    if a.Arrive? && a.run == k {
      ArrivalKeepsWorker(w.runs[k], w.db, a.stmt);
    } else if a.Inside? && a.run == k {
      LocalKeepsWorker(w.runs[k], w.db, a.event);
    }
  }

  lemma ActKeepsDb(w: World, a: Action)
    requires WorldInv(w) && Enabled(w, a)
    ensures Inv(Act(w, a).db) && w.db.history <= Act(w, a).db.history && w.db.issued <= Act(w, a).db.issued
  {
    if DbStep(a).Some? {
      StepKeepsInv(w.db, DbStep(a).value);
    }
  }

  lemma ActKeepsInv(w: World, a: Action)
    requires WorldInv(w) && Enabled(w, a)
    ensures WorldInv(Act(w, a))
  {
    var w' := Act(w, a);
    ActKeepsDb(w, a);
    forall k | k in w'.runs ensures WorkerInv(w'.runs[k], w'.db) {
      if k in w.runs {
        ActKeepsWorker(w, a, k);
      }
    }
    ActKeepsLeasesApart(w, a);
  }

  function LeaseBefore(w: World, k: RunId): Option<LeaseId> {
    if k in w.runs then w.runs[k].lease else None
  }

  lemma LeaseAfter(w: World, a: Action, k: RunId)
    requires Enabled(w, a) && k in Act(w, a).runs
    ensures Act(w, a).runs[k].lease == LeaseBefore(w, k)
            || (a.AcquireFor? && a.run == k && Act(w, a).runs[k].lease == Some(a.minted))
  {
  }

  lemma LeaseIsIssued(w: World, k: RunId)
    requires WorldInv(w) && LeaseBefore(w, k).Some?
    ensures LeaseBefore(w, k).value in w.db.issued
  {
    assert WorkerInv(w.runs[k], w.db);
  }

  /** An acquisition brings a fresh lease, and no other action changes one. */
  lemma ActKeepsLeasesApart(w: World, a: Action)
    requires WorldInv(w) && Enabled(w, a)
    ensures forall k, m :: k in Act(w, a).runs && m in Act(w, a).runs && k != m && Act(w, a).runs[k].lease.Some?
                           ==> Act(w, a).runs[k].lease != Act(w, a).runs[m].lease
  {
    var runs := Act(w, a).runs;
    forall k, m | k in runs && m in runs && k != m && runs[k].lease.Some? ensures runs[k].lease != runs[m].lease {
      LeaseAfter(w, a, k);
      LeaseAfter(w, a, m);
      if LeaseBefore(w, k).Some? {
        LeaseIsIssued(w, k);
      }
      if LeaseBefore(w, m).Some? {
        LeaseIsIssued(w, m);
      }
    }
  }

  lemma {:induction false} EveryInterleavingIsSafe(w: World, actions: seq<Action>)
    requires WorldInv(w) && ValidRun(w, actions)
    ensures WorldInv(RunAll(w, actions))
    decreases |actions|
  {
    if actions != [] {
      ActKeepsInv(w, actions[0]);
      EveryInterleavingIsSafe(Act(w, actions[0]), actions[1..]);
    }
  }

  lemma {:induction false} CompletionIsUnique(h: seq<Event>, i: nat, j: nat)
    requires Completions(h) <= 1 && i < |h| && j < |h| && Completes(h[i]) && Completes(h[j])
    ensures i == j
  {
    var n := |h| - 1;
    if i < n && j < n {
      CompletionIsUnique(h[..n], i, j);
    } else if i < n {
      CompletionIsCounted(h[..n], i);
    } else if j < n {
      CompletionIsCounted(h[..n], j);
    }
  }

  lemma {:induction false} CompletionIsCounted(h: seq<Event>, i: nat)
    requires i < |h| && Completes(h[i])
    ensures Completions(h) >= 1
  {
    if i < |h| - 1 {
      CompletionIsCounted(h[..|h| - 1], i);
    }
  }

  /** At most one call ever returns true, and it returns true only for a job that its own
      lease completed, whatever the other calls, heartbeats and recoveries do. */
  lemma AtMostOneCallSucceeds(now: Time, actions: seq<Action>)
    requires ValidRun(NewWorld(now), actions)
    ensures var w := RunAll(NewWorld(now), actions);
            && (forall k :: k in w.runs && Succeeding(w.runs[k].control)
                            ==> w.runs[k].lease.Some? && CompletedBy(w.db.history, w.runs[k].lease.value)
                                && w.db.job.status.Completed?)
            && (forall k, m :: k in w.runs && m in w.runs && Succeeding(w.runs[k].control)
                               && Succeeding(w.runs[m].control)
                               ==> k == m)
  {
    EveryInterleavingIsSafe(NewWorld(now), actions);
    var w := RunAll(NewWorld(now), actions);
    var h := w.db.history;
    forall k | k in w.runs && Succeeding(w.runs[k].control)
      ensures w.db.job.status.Completed?
    {
      var i :| 0 <= i < |h| && Completes(h[i]) && h[i].cause == ByLease(w.runs[k].lease.value);
      CompletionIsCounted(h, i);
    }
    forall k, m | k in w.runs && m in w.runs && Succeeding(w.runs[k].control) && Succeeding(w.runs[m].control)
      ensures k == m
    {
      var i :| 0 <= i < |h| && Completes(h[i]) && h[i].cause == ByLease(w.runs[k].lease.value);
      var j :| 0 <= j < |h| && Completes(h[j]) && h[j].cause == ByLease(w.runs[m].lease.value);
      CompletionIsUnique(h, i, j);
    }
  }

  // -------------------------------------------------- when a completed job returns true

  /** A statement that completes the job when it matches. */
  predicate Completer(stmt: Statement) {
    stmt.CommitImport? || (stmt.Mark? && stmt.move.MarkCompleted?)
  }

  /** The lease has completed nothing and has no statement under way that could. */
  predicate Unsent(r: Worker, db: Db) {
    && (r.lease.Some? ==> !CompletedBy(db.history, r.lease.value))
    && forall s :: s in r.inFlight ==> !Completer(s)
  }

  /** The completing statement is under way, unanswered. */
  predicate Unanswered(r: Worker, db: Db) {
    && AwaitsFinal(r) && r.lease.Some? && r.control.reply.None? && !CompletedBy(db.history, r.lease.value)
    && forall s :: s in r.inFlight && Completer(s) ==> StatementOf(r.control.op, r.lease.value) == Some(s)
  }

  /** It has been answered: it matched exactly when the lease completed the job. */
  predicate Answerable(r: Worker, db: Db) {
    && AwaitsFinal(r) && r.lease.Some? && r.control.reply.Some?
    && (r.control.reply.value <==> CompletedBy(db.history, r.lease.value))
    && forall s :: s in r.inFlight ==> !Completer(s)
  }

  /** The call is on its way out with the outcome true, or its release has failed since. */
  predicate Won(r: Worker) {
    && r.lease.Some?
    && (r.control == Releasing(True) || r.control == AwaitingRelease(True)
        || r.control == Done(if r.releaseFailed then Thrown else True))
  }

  /** What the record of the completing operation says about the lease's completion. */
  predicate RecordInv(r: Worker, db: Db) {
    && (match r.completing
        case NotSent => Unsent(r, db) && !AwaitsFinal(r)
        case Sent => Unanswered(r, db) || Answerable(r, db)
        case Took(matched) => if matched then Won(r) else Unsent(r, db) && Leaving(r)
        case GivenUp => Leaving(r)
        case Failing => Leaving(r))
    && (Succeeding(r.control) ==> r.completing == Took(true))
  }

  /** No completing operation lies ahead any more. */
  predicate Leaving(r: Worker) {
    && r.lease.Some?
    && !r.control.Starting?
    && (r.control.Before? || r.control.Awaiting? ==> r.control.op.OpMarkFailed?)
  }

  /** Only a completing statement of the lease itself completes the job for it. */
  lemma NotCompletedByOthers(db: Db, step: Step, lease: LeaseId)
    requires !CompletedBy(db.history, lease)
    requires step.Do? && Completer(step.stmt) ==> !Carries(step.stmt, lease)
    ensures !CompletedBy(Next(db, step).history, lease)
  {
    var h' := Next(db, step).history;
    forall i | 0 <= i < |h'| ensures !(Completes(h'[i]) && h'[i].cause == ByLease(lease)) {
      if i < |db.history| {
        assert h'[i] == db.history[i];
      }
    }
  }

  /** A completing statement completes the job for its lease exactly when it matches. */
  lemma CompletedByItsOwn(db: Db, stmt: Statement, lease: LeaseId)
    requires !CompletedBy(db.history, lease) && Completer(stmt) && Carries(stmt, lease)
    ensures CompletedBy(Next(db, Do(stmt)).history, lease) <==> Where(db.job, stmt, db.now)
  {
    var h' := Next(db, Do(stmt)).history;
    if Where(db.job, stmt, db.now) {
      assert Completes(h'[|db.history|]) && h'[|db.history|].cause == ByLease(lease);
    }
  }

  lemma RecordIsStable(r: Worker, db: Db, step: Step)
    requires RecordInv(r, db)
    requires r.lease.Some? && step.Do? && Completer(step.stmt) ==> !Carries(step.stmt, r.lease.value)
    ensures RecordInv(r, Next(db, step))
  {
    if r.lease.Some? {
      var h, h' := db.history, Next(db, step).history;
      if CompletedBy(h, r.lease.value) {
        var i :| 0 <= i < |h| && Completes(h[i]) && h[i].cause == ByLease(r.lease.value);
        assert h'[i] == h[i];
      } else {
        NotCompletedByOthers(db, step, r.lease.value);
      }
    }
  }

  lemma ArrivalKeepsRecord(r: Worker, db: Db, stmt: Statement)
    requires WorkerInv(r, db) && RecordInv(r, db) && stmt in r.inFlight
    ensures RecordInv(Answered(r, stmt, Where(db.job, stmt, db.now)), Next(db, Do(stmt)))
  {
    if !Completer(stmt) {
      RecordIsStable(r, db, Do(stmt));
    } else if r.completing.Sent? {
      CompletedByItsOwn(db, stmt, r.lease.value);
    }
  }

  lemma LocalKeepsRecord(r: Worker, db: Db, e: LocalEvent)
    requires WorkerInv(r, db) && RecordInv(r, db) && Ready(r, e)
    ensures RecordInv(Local(r, e), db)
  {
  }

  /** A fresh lease has completed nothing. */
  lemma FreshLeaseIsUnused(db: Db, minted: LeaseId)
    requires Inv(db) && minted !in db.issued
    ensures !CompletedBy(db.history, minted)
  {
    forall i | 0 <= i < |db.history| ensures db.history[i].cause != ByLease(minted) {
      assert db.history[i] in db.history;
    }
  }

  ghost predicate RecordsInv(w: World) {
    WorldInv(w) && forall k :: k in w.runs ==> RecordInv(w.runs[k], w.db)
  }

  lemma ActKeepsRecord(w: World, a: Action, k: nat)
    requires RecordsInv(w) && Enabled(w, a) && k in w.runs
    ensures k in Act(w, a).runs && RecordInv(Act(w, a).runs[k], Act(w, a).db)
  {
    assert WorkerInv(w.runs[k], w.db) && RecordInv(w.runs[k], w.db);
    match a
    case Elapse(_) => RecordIsStable(w.runs[k], w.db, DbStep(a).value);
    case RecoverStale => RecordIsStable(w.runs[k], w.db, DbStep(a).value);
    case Call(_, _) =>
    case AcquireFor(run, minted, duration, _) =>
      RecordIsStable(w.runs[k], w.db, DbStep(a).value);
      FreshLeaseIsUnused(w.db, minted);
      NotCompletedByOthers(w.db, DbStep(a).value, minted);
    case Arrive(run, stmt) =>
      if k == run {
        ArrivalKeepsRecord(w.runs[k], w.db, stmt);
      } else {
        assert WorkerInv(w.runs[run], w.db);
        RecordIsStable(w.runs[k], w.db, Do(stmt));
      }
    case Inside(run, event) =>
      if k == run {
        LocalKeepsRecord(w.runs[k], w.db, event);
      }
  }

  lemma {:induction false} EveryRecordIsRight(w: World, actions: seq<Action>)
    requires RecordsInv(w) && ValidRun(w, actions)
    ensures RecordsInv(RunAll(w, actions))
    decreases |actions|
  {
    if actions != [] {
      ActKeepsInv(w, actions[0]);
      forall k | k in Act(w, actions[0]).runs ensures RecordInv(Act(w, actions[0]).runs[k], Act(w, actions[0]).db) {
        if k in w.runs {
          ActKeepsRecord(w, actions[0], k);
        }
      }
      EveryRecordIsRight(Act(w, actions[0]), actions[1..]);
    }
  }

  predicate Finished(c: Control) {
    c.Releasing? || c.AwaitingRelease? || c.Done?
  }

  /** A finished call whose lease completed the job returns true if and only if it took the reply
      to its completing statement in, before the lease was lost and instead of an error, and
      its release did not fail. */
  lemma ReturnsTrueExactly(now: Time, actions: seq<Action>, k: RunId)
    requires ValidRun(NewWorld(now), actions)
    requires var w := RunAll(NewWorld(now), actions);
             k in w.runs && Finished(w.runs[k].control)
             && w.runs[k].lease.Some? && CompletedBy(w.db.history, w.runs[k].lease.value)
    ensures var r := RunAll(NewWorld(now), actions).runs[k];
            && (r.control.outcome.True? <==> r.completing.Took? && !(r.control.Done? && r.releaseFailed))
            && (!r.completing.Took? <==> r.completing.GivenUp? || r.completing.Failing?)
  {
    EveryRecordIsRight(NewWorld(now), actions);
  }

  lemma {:induction false} ValidPrefix(w: World, actions: seq<Action>, n: nat)
    requires ValidRun(w, actions) && n < |actions|
    ensures ValidRun(w, actions[..n]) && Enabled(RunAll(w, actions[..n]), actions[n])
    ensures n == |actions| - 1 ==> RunAll(w, actions) == Act(RunAll(w, actions[..n]), actions[n])
    decreases |actions|
  {
    if n > 0 {
      var w1 := Act(w, actions[0]);
      ValidPrefix(w1, actions[1..], n - 1);
      assert actions[..n][1..] == actions[1..][..n - 1];
    } else {
      assert |actions| == 1 ==> actions[1..] == [];
    }
  }

  predicate EndsAs(r: Worker, e: LocalEvent, how: Completing) {
    AwaitsFinal(r) &&
    match how
    case Took(matched) => e.Settle? && (matched <==> r.control.reply == Some(true))
    case GivenUp => e.Lose?
    case Failing => e.Reject?
    case _ => false
  }

  /** The n-th action ended the call's await of its completing operation. */
  predicate EndedAt(actions: seq<Action>, now: Time, k: RunId, how: Completing, n: nat) {
    && n < |actions| && actions[n].Inside? && actions[n].run == k && ValidRun(NewWorld(now), actions[..n])
    && k in RunAll(NewWorld(now), actions[..n]).runs
    && EndsAs(RunAll(NewWorld(now), actions[..n]).runs[k], actions[n].event, how)
  }

  lemma EndedBefore(actions: seq<Action>, now: Time, k: RunId, how: Completing, m: nat, n: nat)
    requires m <= |actions| && EndedAt(actions[..m], now, k, how, n)
    ensures EndedAt(actions, now, k, how, n)
  {
    assert actions[..m][..n] == actions[..n] && actions[..m][n] == actions[n];
  }

  /** Only the end of the await writes the record. */
  lemma RecordIsWritten(w: World, a: Action, k: RunId)
    requires Enabled(w, a) && k in Act(w, a).runs
    requires !Act(w, a).runs[k].completing.NotSent? && !Act(w, a).runs[k].completing.Sent?
    ensures k in w.runs
    ensures Act(w, a).runs[k].completing == w.runs[k].completing
            || (a.Inside? && a.run == k && EndsAs(w.runs[k], a.event, Act(w, a).runs[k].completing))
  {
  }

  /** The record is what happened: a reply was taken in, the lease was lost, or an error was
      thrown, each while the call awaited its completing operation. */
  lemma {:induction false} RecordedAsItHappened(now: Time, actions: seq<Action>, k: RunId) returns (n: nat)
    requires ValidRun(NewWorld(now), actions) && k in RunAll(NewWorld(now), actions).runs
    requires !RunAll(NewWorld(now), actions).runs[k].completing.NotSent?
    requires !RunAll(NewWorld(now), actions).runs[k].completing.Sent?
    ensures EndedAt(actions, now, k, RunAll(NewWorld(now), actions).runs[k].completing, n)
    decreases |actions|
  {
    var m := |actions| - 1;
    ValidPrefix(NewWorld(now), actions, m);
    var w := RunAll(NewWorld(now), actions[..m]);
    RecordIsWritten(w, actions[m], k);
    if w.runs[k].completing == RunAll(NewWorld(now), actions).runs[k].completing {
      n := RecordedAsItHappened(now, actions[..m], k);
      EndedBefore(actions, now, k, w.runs[k].completing, m, n);
    } else {
      n := m;
    }
  }

  // ------------------------------------------------------------- runs of one call

  ghost predicate Leads(w: World, w': World) {
    exists actions :: ValidRun(w, actions) && RunAll(w, actions) == w'
  }

  lemma {:induction false} Extend(w: World, actions: seq<Action>, a: Action)
    requires ValidRun(w, actions) && Enabled(RunAll(w, actions), a)
    ensures ValidRun(w, actions + [a]) && RunAll(w, actions + [a]) == Act(RunAll(w, actions), a)
    decreases |actions|
  {
    if actions == [] {
      assert [] + [a] == [a];
      assert [a][1..] == [];
      var w1 := Act(w, a);
      assert ValidRun(w1, []) && RunAll(w1, []) == w1;
    } else {
      assert (actions + [a])[1..] == actions[1..] + [a];
      Extend(Act(w, actions[0]), actions[1..], a);
    }
  }

  lemma Here(w: World)
    ensures Leads(w, w)
  {
    assert ValidRun(w, []) && RunAll(w, []) == w;
  }

  lemma Then(from: World, w: World, a: Action) returns (w': World)
    requires Leads(from, w) && Enabled(w, a)
    ensures Leads(from, w') && w' == Act(w, a)
  {
    var actions :| ValidRun(from, actions) && RunAll(from, actions) == w;
    Extend(from, actions, a);
    w' := Act(w, a);
  }

  /** A call that holds a lease and is about to await `op`. */
  function Holding(op: Op, pipeline: bool, lease: LeaseId): Worker {
    Worker(Before(op), pipeline, Some(lease), false, {}, NotSent, false)
  }

  /** It awaits `op`, its statement under way or answered. */
  function Awaits(op: Op, pipeline: bool, lease: LeaseId, reply: Option<bool>, inFlight: set<Statement>): Worker {
    Worker(Awaiting(op, reply), pipeline, Some(lease), false, inFlight, if Final(op) then Sent else NotSent, false)
  }

  function Sending(op: Op, lease: LeaseId): set<Statement> {
    if StatementOf(op, lease).Some? then {StatementOf(op, lease).value} else {}
  }

  /** What a call is when `op` has succeeded. */
  function Onward(op: Op, pipeline: bool, lease: LeaseId): Worker {
    if After(op, pipeline).Some? then Holding(After(op, pipeline).value, pipeline, lease)
    else Worker(Releasing(True), pipeline, Some(lease), false, {}, if Final(op) then Took(true) else NotSent, false)
  }

  lemma Begins(op: Op, pipeline: bool, lease: LeaseId)
    ensures Local(Holding(op, pipeline, lease), Begin) == Awaits(op, pipeline, lease, None, Sending(op, lease))
  {
    assert {} + Sending(op, lease) == Sending(op, lease);
  }

  lemma Settles(op: Op, pipeline: bool, lease: LeaseId, reply: Option<bool>)
    requires !op.OpMarkFailed? && reply == if StatementOf(op, lease).Some? then Some(true) else None
    ensures Ready(Awaits(op, pipeline, lease, reply, {}), Settle)
    ensures Local(Awaits(op, pipeline, lease, reply, {}), Settle) == Onward(op, pipeline, lease)
  {
  }

  /** Its statement, if the operation has one, arrives and matches. */
  lemma OneArrival(from: World, w: World, k: RunId, op: Op, pipeline: bool, lease: LeaseId) returns (w': World, reply: Option<bool>)
    requires Leads(from, w) && k in w.runs && w.runs[k] == Awaits(op, pipeline, lease, None, Sending(op, lease))
    requires StatementOf(op, lease).Some? ==> Where(w.db.job, StatementOf(op, lease).value, w.db.now)
    ensures Leads(from, w') && w'.db.now == w.db.now && k in w'.runs && w'.runs[k] == Awaits(op, pipeline, lease, reply, {})
    ensures reply == if StatementOf(op, lease).Some? then Some(true) else None
    ensures w'.db.job == if StatementOf(op, lease).Some? then Set(w.db.job, StatementOf(op, lease).value, w.db.now) else w.db.job
  {
    if StatementOf(op, lease).Some? {
      w' := Then(from, w, Arrive(k, StatementOf(op, lease).value));
      assert w'.runs[k].inFlight == {};
      reply := Some(true);
    } else {
      w', reply := w, None;
    }
  }

  /** What happens inside a call. */
  lemma Within(from: World, w: World, k: RunId, e: LocalEvent, r: Worker) returns (w': World)
    requires Leads(from, w) && k in w.runs && Ready(w.runs[k], e) && Local(w.runs[k], e) == r
    ensures Leads(from, w') && k in w'.runs && w'.runs[k] == r && w'.db == w.db
  {
    w' := Then(from, w, Inside(k, e));
  }

  /** A statement of a call that no longer awaits it reaches the row, and matches. */
  lemma Reaches(from: World, w: World, k: RunId, stmt: Statement) returns (w': World)
    requires Leads(from, w) && k in w.runs && stmt in w.runs[k].inFlight && !w.runs[k].control.Awaiting?
    requires Where(w.db.job, stmt, w.db.now)
    ensures Leads(from, w') && w'.db.job == Set(w.db.job, stmt, w.db.now)
    ensures k in w'.runs && w'.runs[k].control == w.runs[k].control
  {
    w' := Then(from, w, Arrive(k, stmt));
  }

  /** It awaits an operation that succeeds, its statement matching the row when there is one. */
  lemma OneStep(from: World, w: World, k: RunId, op: Op, pipeline: bool, lease: LeaseId) returns (w': World)
    requires Leads(from, w) && k in w.runs && w.runs[k] == Holding(op, pipeline, lease) && !op.OpMarkFailed?
    requires StatementOf(op, lease).Some? ==> Where(w.db.job, StatementOf(op, lease).value, w.db.now)
    ensures Leads(from, w') && w'.db.now == w.db.now && k in w'.runs && w'.runs[k] == Onward(op, pipeline, lease)
    ensures w'.db.job == if StatementOf(op, lease).Some? then Set(w.db.job, StatementOf(op, lease).value, w.db.now) else w.db.job
  {
    Begins(op, pipeline, lease);
    w' := Within(from, w, k, Begin, Awaits(op, pipeline, lease, None, Sending(op, lease)));
    var reply;
    w', reply := OneArrival(from, w', k, op, pipeline, lease);
    Settles(op, pipeline, lease, reply);
    w' := Within(from, w', k, Settle, Onward(op, pipeline, lease));
  }

  /** The row as its lease holder has brought it to a status. */
  predicate HeldAt(w: World, status: Status, lease: LeaseId) {
    w.db.job.status == status && Holds(w.db.job, lease, w.db.now)
  }

  /** The status in which a call begins an operation, and how many are to come. */
  function Stage(op: Op): (Status, nat) {
    match op
    case OpMarkLeased => (Queued, 9)
    case OpPrepare => (Leased, 8)
    case OpMarkDecrypting => (Leased, 7)
    case OpDecrypt => (Decrypting, 6)
    case OpMarkAdapting => (Decrypting, 5)
    case OpAdapt => (Adapting, 4)
    case OpMarkImporting => (Adapting, 3)
    case OpMarkFinalizing => (Importing, 2)
    case OpImport => (Finalizing, 1)
    case OpMarkCompleted => (Decrypting, 1)
    case OpMarkFailed(_) => (Failed, 1)
  }

  function FinalOp(pipeline: bool): Op {
    if pipeline then OpImport else OpMarkCompleted
  }

  /** A call of this kind comes by the operation. */
  predicate OnTheWay(op: Op, pipeline: bool) {
    !op.OpMarkLeased? && !op.OpMarkFailed? && if pipeline then !op.OpMarkCompleted? else op.OpMarkCompleted? || Stage(op).1 >= 6
  }

  lemma StageAdvances(w: World, w': World, op: Op, pipeline: bool, lease: LeaseId)
    requires OnTheWay(op, pipeline) && !Final(op) && HeldAt(w, Stage(op).0, lease) && w'.db.now == w.db.now
    requires w'.db.job == if StatementOf(op, lease).Some? then Set(w.db.job, StatementOf(op, lease).value, w.db.now) else w.db.job
    ensures After(op, pipeline).Some?
    ensures var next := After(op, pipeline).value;
            OnTheWay(next, pipeline) && HeldAt(w', Stage(next).0, lease) && Stage(next).1 < Stage(op).1
  {
  }

  lemma StageFits(w: World, op: Op, pipeline: bool, lease: LeaseId)
    requires OnTheWay(op, pipeline) && HeldAt(w, Stage(op).0, lease) && StatementOf(op, lease).Some?
    ensures Where(w.db.job, StatementOf(op, lease).value, w.db.now)
  {
  }

  /** One operation after the other, until the one that completes the job. */
  lemma {:induction false} RunsToTheLast(from: World, w: World, k: RunId, op: Op, pipeline: bool, lease: LeaseId) returns (w': World)
    requires Leads(from, w) && k in w.runs && w.runs[k] == Holding(op, pipeline, lease) && HeldAt(w, Stage(op).0, lease)
    requires OnTheWay(op, pipeline)
    ensures Leads(from, w') && k in w'.runs && HeldAt(w', Stage(FinalOp(pipeline)).0, lease)
    ensures w'.runs[k] == Holding(FinalOp(pipeline), pipeline, lease)
    decreases Stage(op).1
  {
    w' := w;
    if !Final(op) {
      if StatementOf(op, lease).Some? {
        StageFits(w, op, pipeline, lease);
      }
      w' := OneStep(from, w, k, op, pipeline, lease);
      StageAdvances(w, w', op, pipeline, lease);
      w' := RunsToTheLast(from, w', k, After(op, pipeline).value, pipeline, lease);
    }
  }

  /** A new call takes a row that is free, and comes to the operation that completes the job. */
  lemma OneCallWorks(from: World, w: World, k: RunId, pipeline: bool, lease: LeaseId, duration: Duration) returns (w': World)
    requires Leads(from, w) && k !in w.runs && lease !in w.db.issued && Where(w.db.job, Acquire(lease, duration), w.db.now)
    ensures Leads(from, w') && k in w'.runs && HeldAt(w', Stage(FinalOp(pipeline)).0, lease)
    ensures w'.runs[k] == Holding(FinalOp(pipeline), pipeline, lease)
  {
    w' := Then(from, w, Call(k, pipeline));
    w' := Then(from, w', AcquireFor(k, lease, duration, true));
    w' := OneStep(from, w', k, OpMarkLeased, pipeline, lease);
    w' := RunsToTheLast(from, w', k, OpPrepare, pipeline, lease);
  }

  lemma FromTheStart() returns (w: World)
    ensures Leads(NewWorld(0), w) && 0 in w.runs && HeldAt(w, Decrypting, 7) && w.runs[0] == Holding(OpMarkCompleted, false, 7)
  {
    Here(NewWorld(0));
    w := OneCallWorks(NewWorld(0), NewWorld(0), 0, false, 7, 10);
  }

  /** It gives up while its final statement is under way. */
  lemma GivesUp(final: Statement) returns (w: World)
    requires final == Mark(7, MarkCompleted)
    ensures Leads(NewWorld(0), w) && 0 in w.runs && HeldAt(w, Decrypting, 7)
    ensures w.runs[0] == Worker(Releasing(False), false, Some(7), true, {final}, GivenUp, false)
  {
    w := FromTheStart();
    w := Within(NewWorld(0), w, 0, Begin, Worker(Awaiting(OpMarkCompleted, None), false, Some(7), false, {final}, Sent, false));
    w := Within(NewWorld(0), w, 0, Lose, Worker(Releasing(False), false, Some(7), true, {final}, GivenUp, false));
  }

  /** The converse fails: a completed job does not mean that its call returned true. Here
      the final statement arrives after a failed heartbeat has made the call give up. */
  lemma CompletedWithoutSuccess()
    ensures exists actions :: ValidRun(NewWorld(0), actions) &&
                              var w := RunAll(NewWorld(0), actions);
                              w.db.job.status.Completed? && 0 in w.runs && w.runs[0].control == Releasing(False)
  {
    var w := GivesUp(Mark(7, MarkCompleted));
    w := Reaches(NewWorld(0), w, 0, Mark(7, MarkCompleted));
  }

  /** One call, once it has lost its lease, gives it back while the job is at work: the row is
      orphaned, and nothing will ever move it. */
  lemma ACallOrphansItsJob()
    ensures exists actions :: ValidRun(NewWorld(0), actions) &&
                              var w := RunAll(NewWorld(0), actions);
                              Orphaned(w.db.job) && 0 in w.runs && w.runs[0].control == AwaitingRelease(False)
  {
    var start := NewWorld(0);
    var w := FromTheStart();
    w := Within(start, w, 0, Lose, Worker(Before(OpMarkCompleted), false, Some(7), true, {}, NotSent, false));
    w := Within(start, w, 0, Begin, Worker(Releasing(False), false, Some(7), true, {}, NotSent, false));
    w := Within(start, w, 0, BeginRelease, Worker(AwaitingRelease(False), false, Some(7), true, {Release(7)}, NotSent, false));
    w := Reaches(start, w, 0, Release(7));
  }

  // ----------------------------------------------------- which jobs can still succeed

  /** A new call of the given kind can still return true. */
  ghost predicate CanSucceed(w: World, pipeline: bool) {
    exists w', k :: Leads(w, w') && k !in w.runs && k in w'.runs
                    && w'.runs[k].pipeline == pipeline && w'.runs[k].control == Done(True)
  }

  /** It does not hold the row, and never will. */
  predicate Idles(r: Worker) {
    r.lease.None? && r.inFlight == {} && (r.control.Starting? || (r.control.Done? && !r.control.outcome.True?))
  }

  /** Nobody can take this row: it is done with, or at work without a lease. */
  predicate OutOfReach(job: Job) {
    job.leaseId.None? && (Terminal(job) || Active(job.status))
  }

  lemma {:induction false} NewCallsIdle(w: World, actions: seq<Action>, k: RunId)
    requires ValidRun(w, actions) && OutOfReach(w.db.job) && (k in w.runs ==> Idles(w.runs[k]))
    ensures k in RunAll(w, actions).runs ==> Idles(RunAll(w, actions).runs[k])
    decreases |actions|
  {
    if actions != [] {
      NewCallsIdle(Act(w, actions[0]), actions[1..], k);
    }
  }

  /** The clock passes the lease, and a row at work is recovered. */
  lemma BecomesFree(w: World) returns (w': World)
    requires Inv(w.db) && !Terminal(w.db.job) && !Orphaned(w.db.job)
    ensures Leads(w, w') && w'.runs == w.runs && w'.db.issued == w.db.issued
    ensures forall lease, d :: Where(w'.db.job, Acquire(lease, d), w'.db.now)
  {
    Here(w);
    var job := w.db.job;
    w' := Then(w, w, Elapse(if job.leaseExpiresAt.Some? && job.leaseExpiresAt.value > w.db.now
                            then job.leaseExpiresAt.value - w.db.now else 0));
    w' := Then(w, w', RecoverStale);
  }

  lemma Returns(from: World, w: World, k: RunId, r: Worker) returns (w': World)
    requires Leads(from, w) && k in w.runs && w.runs[k] == r && r.control == Releasing(True) && r.lease.Some?
    ensures Leads(from, w') && k in w'.runs && w'.runs[k].control == Done(True) && w'.runs[k].pipeline == r.pipeline
  {
    w' := Then(from, w, Inside(k, BeginRelease));
    w' := Then(from, w', Inside(k, EndRelease(false)));
  }

  lemma OneCallSucceeds(from: World, w: World, k: RunId, pipeline: bool, lease: LeaseId) returns (w': World)
    requires Leads(from, w) && k !in w.runs && lease !in w.db.issued && Where(w.db.job, Acquire(lease, 1), w.db.now)
    ensures Leads(from, w') && k in w'.runs && w'.runs[k].control == Done(True) && w'.runs[k].pipeline == pipeline
  {
    w' := OneCallWorks(from, w, k, pipeline, lease, 1);
    w' := OneStep(from, w', k, FinalOp(pipeline), pipeline, lease);
    w' := Returns(from, w', k, w'.runs[k]);
  }

  /** Whatever has happened, in any reachable state, a new call can still return true if and only
      if the job is neither done with for good nor orphaned. */
  lemma CanSucceedExactly(w: World, pipeline: bool)
    requires WorldInv(w)
    ensures CanSucceed(w, pipeline) <==> !Terminal(w.db.job) && !Orphaned(w.db.job)
  {
    if Terminal(w.db.job) || Orphaned(w.db.job) {
      forall w', k | Leads(w, w') && k !in w.runs && k in w'.runs ensures w'.runs[k].control != Done(True) {
        var actions :| ValidRun(w, actions) && RunAll(w, actions) == w';
        NewCallsIdle(w, actions, k);
      }
    } else {
      var w1 := BecomesFree(w);
      var k := FreshId(w.runs.Keys);
      var lease := FreshId(w.db.issued);
      var w2 := OneCallSucceeds(w, w1, k, pipeline, lease);
    }
  }

  lemma Renews(from: World, w: World, k: RunId, lease: LeaseId, extension: Duration) returns (w': World)
    requires Leads(from, w) && k in w.runs && Renew(lease, extension) in w.runs[k].inFlight
    requires Active(w.db.job.status) && Holds(w.db.job, lease, w.db.now)
    ensures Leads(from, w') && w'.db.now == w.db.now && w'.db.job == w.db.job.(leaseExpiresAt := Some(w.db.now + extension))
    ensures k in w'.runs && w'.runs[k].control == w.runs[k].control
  {
    w' := Then(from, w, Arrive(k, Renew(lease, extension)));
    assert !(w.runs[k].control.Awaiting? && StatementOf(w.runs[k].control.op, lease) == Some(Renew(lease, extension)));
  }

  /** A call at work whose heartbeat reaches the row in time can go on for just as long as the
      heartbeat asks for, and is then where it was, its lease still held. */
  lemma AHeartbeatCarriesOn(w: World, k: RunId, lease: LeaseId, extension: Duration, time: nat)
    requires WorldInv(w) && k in w.runs && w.runs[k].lease == Some(lease) && !w.runs[k].lost
    requires w.runs[k].control.Before? || w.runs[k].control.Awaiting?
    requires Active(w.db.job.status) && Holds(w.db.job, lease, w.db.now) && time < extension
    ensures exists w' :: Leads(w, w') && w'.db.now == w.db.now + time && k in w'.runs && w'.runs[k].control == w.runs[k].control
                         && w'.db.job.status == w.db.job.status && Holds(w'.db.job, lease, w'.db.now)
  {
    Here(w);
    var w' := Then(w, w, Inside(k, Heartbeat(extension)));
    w' := Renews(w, w', k, lease, extension);
    w' := Then(w, w', Elapse(time));
  }
}
