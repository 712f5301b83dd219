/** The import-job row and the conditional statements that fence it.

    Every statement is one atomic `UPDATE ... WHERE`, evaluated against the database
    clock. A statement may be issued by anybody at any moment, so the theorems below
    quantify over arbitrary sequences of statements and clock ticks. */
module JobLease {
  import opened Basics

  datatype Status =
    | Queued | Leased | Decrypting | Adapting | Importing | Finalizing | Completed | Failed

  type LeaseId = nat
  type Time = int
  type Duration = d: int | 0 < d witness 1

  /** The transition table of the application layer. */
  predicate JobTransition(from: Status, to: Status) {
    match from
    case Queued => to.Leased? || to.Failed?
    case Leased => to.Decrypting? || to.Queued? || to.Failed?
    case Decrypting => to.Adapting? || to.Completed? || to.Failed?
    case Adapting => to.Importing? || to.Failed?
    case Importing => to.Finalizing? || to.Failed?
    case Finalizing => to.Completed? || to.Failed?
    case Completed => false
    case Failed => to.Queued? || to.Leased?
  }

  /** Statuses in which a lease holder is at work: renewable and recoverable. */
  predicate Active(s: Status) {
    s.Leased? || s.Decrypting? || s.Adapting? || s.Importing? || s.Finalizing?
  }

  datatype Job = Job(
    status: Status,
    leaseId: Option<LeaseId>,
    leaseExpiresAt: Option<Time>,
    retryable: Option<bool>)

  datatype Move =
    | MarkLeased | MarkDecrypting | MarkAdapting | MarkImporting | MarkFinalizing
    | MarkCompleted | MarkFailed(retryable: bool)

  function From(m: Move): set<Status> {
    match m
    case MarkLeased => {Queued, Failed}
    case MarkDecrypting => {Leased}
    case MarkAdapting => {Decrypting}
    case MarkImporting => {Adapting}
    case MarkFinalizing => {Importing}
    case MarkCompleted => {Decrypting, Finalizing}
    case MarkFailed(_) => {Leased, Decrypting, Adapting, Importing, Finalizing}
  }

  function To(m: Move): Status {
    match m
    case MarkLeased => Leased
    case MarkDecrypting => Decrypting
    case MarkAdapting => Adapting
    case MarkImporting => Importing
    case MarkFinalizing => Finalizing
    case MarkCompleted => Completed
    case MarkFailed(_) => Failed
  }

  datatype Statement =
    | Acquire(minted: LeaseId, duration: Duration)
    | Renew(lease: LeaseId, extension: Duration)
    | Mark(lease: LeaseId, move: Move)
    | CommitImport(lease: LeaseId)   // the importer's transaction, fenced by its last statement
    | Release(lease: LeaseId)
    | Recover

  /** A failed job that may be attempted again: `COALESCE(retryable, false) = true`. */
  predicate Retryable(job: Job) {
    job.status.Failed? && job.retryable == Some(true)
  }

  /** The fence: the row still carries this lease and it has not expired. */
  predicate Holds(job: Job, lease: LeaseId, now: Time) {
    job.leaseId == Some(lease) && job.leaseExpiresAt.Some? && job.leaseExpiresAt.value > now
  }

  /** The `WHERE` clause of each statement. */
  predicate Where(job: Job, stmt: Statement, now: Time) {
    match stmt
    case Acquire(_, _) =>
      (job.status.Queued? || Retryable(job))
      && (job.leaseExpiresAt.None? || job.leaseExpiresAt.value <= now)
    case Renew(lease, _) => Holds(job, lease, now) && Active(job.status)
    case Mark(lease, move) =>
      Holds(job, lease, now) && job.status in From(move)
      && (move.MarkLeased? && job.status.Failed? ==> Retryable(job))
    case CommitImport(lease) => Holds(job, lease, now) && job.status.Finalizing?
    case Release(lease) => Holds(job, lease, now)
    case Recover =>
      Active(job.status) && job.leaseId.Some?
      && job.leaseExpiresAt.Some? && job.leaseExpiresAt.value <= now
  }

  /** The `SET` clause of each statement. */
  function Set(job: Job, stmt: Statement, now: Time): Job {
    match stmt
    case Acquire(minted, d) => job.(leaseId := Some(minted), leaseExpiresAt := Some(now + d))
    case Renew(_, d) => job.(leaseExpiresAt := Some(now + d))
    case Mark(_, move) => (
        match move
        case MarkCompleted => Job(Completed, None, None, Some(false))
        case MarkFailed(retryable) => Job(Failed, None, None, Some(retryable))
        case _ => job.(status := To(move)))
    case CommitImport(_) => Job(Completed, None, None, Some(false))
    case Release(_) => job.(leaseId := None, leaseExpiresAt := None)
    case Recover => job.(status := Queued, leaseId := None, leaseExpiresAt := None)
  }

  function Execute(job: Job, stmt: Statement, now: Time): (Job, bool) {
    if Where(job, stmt, now) then (Set(job, stmt, now), true) else (job, false)
  }

  /** The row as the database keeps it, updated in place by the persistence methods. */
  class JobRow {
    var status: Status
    var leaseId: Option<LeaseId>
    var leaseExpiresAt: Option<Time>
    var retryable: Option<bool>

    function Row(): Job
      reads this
    {
      Job(status, leaseId, leaseExpiresAt, retryable)
    }

    constructor ()
      ensures Row() == Job(Queued, None, None, None)
    {
      status, leaseId, leaseExpiresAt, retryable := Queued, None, None, None;
    }

    /** The shared fenced status update: `outcome` is the new retryable flag of a
        terminal status, which also gives the lease up. */
    method Transition(lease: LeaseId, from: set<Status>, to: Status, outcome: Option<bool>,
                      allowRetryableFailed: bool, now: Time) returns (ok: bool)
      modifies this
      ensures ok == (Holds(old(Row()), lease, now) && old(status) in from
                     && (allowRetryableFailed && old(status).Failed? ==> Retryable(old(Row()))))
      ensures !ok ==> Row() == old(Row())
      ensures ok && outcome.None? ==> Row() == old(Row()).(status := to)
      ensures ok && outcome.Some? ==> Row() == Job(to, None, None, outcome)
    {
      ok := leaseId == Some(lease) && leaseExpiresAt.Some? && leaseExpiresAt.value > now
      && status in from
      && (!allowRetryableFailed || !status.Failed? || retryable == Some(true));
      if ok {
        status := to;
        if outcome.Some? {
          leaseId, leaseExpiresAt, retryable := None, None, outcome;
        }
      }
    }

    /** Every `mark*` method of the job store is this call with its own constants. */
    method MarkStatus(lease: LeaseId, move: Move, now: Time) returns (ok: bool)
      modifies this
      ensures (Row(), ok) == Execute(old(Row()), Mark(lease, move), now)
    {
      var outcome := match move
        case MarkCompleted => Some(false)
        case MarkFailed(retryable) => Some(retryable)
        case _ => None;
      ok := Transition(lease, From(move), To(move), outcome, move.MarkLeased?, now);
    }

    method AcquireLease(minted: LeaseId, duration: Duration, now: Time) returns (lease: Option<LeaseId>)
      modifies this
      ensures (Row(), lease.Some?) == Execute(old(Row()), Acquire(minted, duration), now)
      ensures lease.Some? ==> lease.value == minted
    {
      lease := None;
      if (status.Queued? || (status.Failed? && retryable == Some(true)))
         && (leaseExpiresAt.None? || leaseExpiresAt.value <= now) {
        leaseId, leaseExpiresAt := Some(minted), Some(now + duration);
        lease := Some(minted);
      }
    }

    method RenewLease(lease: LeaseId, duration: Duration, now: Time) returns (ok: bool)
      modifies this
      ensures (Row(), ok) == Execute(old(Row()), Renew(lease, duration), now)
    {
      ok := leaseId == Some(lease) && leaseExpiresAt.Some? && leaseExpiresAt.value > now && Active(status);
      if ok {
        leaseExpiresAt := Some(now + duration);
      }
    }

    method ReleaseLease(lease: LeaseId, now: Time)
      modifies this
      ensures Row() == Execute(old(Row()), Release(lease), now).0
    {
      if leaseId == Some(lease) && leaseExpiresAt.Some? && leaseExpiresAt.value > now {
        leaseId, leaseExpiresAt := None, None;
      }
    }

    /** Returns the expired lease whose work directory is to be removed. */
    method RecoverExpired(now: Time) returns (expired: Option<LeaseId>)
      modifies this
      ensures (Row(), expired.Some?) == Execute(old(Row()), Recover, now)
      ensures expired.Some? ==> expired == old(leaseId)
    {
      expired := None;
      if Active(status) && leaseId.Some? && leaseExpiresAt.Some? && leaseExpiresAt.value <= now {
        expired := leaseId;
        status, leaseId, leaseExpiresAt := Queued, None, None;
      }
    }

    /** The importer's final statement; when it matches no row the transaction rolls back. */
    method FinalizeImport(lease: LeaseId, now: Time) returns (ok: bool)
      modifies this
      ensures (Row(), ok) == Execute(old(Row()), CommitImport(lease), now)
    {
      ok := leaseId == Some(lease) && leaseExpiresAt.Some? && leaseExpiresAt.value > now && status.Finalizing?;
      if ok {
        status, retryable, leaseId, leaseExpiresAt := Completed, Some(false), None, None;
      }
    }
  }

  // ---------------------------------------------------------------- histories

  datatype Cause = ByLease(lease: LeaseId) | Recovery(expired: LeaseId)

  /** One statement that matched the row. */
  datatype Event = Event(cause: Cause, acquired: bool, before: Status, after: Status)

  datatype Db = Db(job: Job, now: Time, issued: set<LeaseId>, history: seq<Event>)

  datatype Step = Tick(elapsed: nat) | Do(stmt: Statement)

  function Subject(e: Event): LeaseId {
    match e.cause
    case ByLease(l) => l
    case Recovery(l) => l
  }

  predicate Completes(e: Event) {
    e.after.Completed? && !e.before.Completed?
  }

  predicate Carries(stmt: Statement, lease: LeaseId) {
    match stmt
    case Acquire(minted, _) => minted == lease
    case Renew(l, _) => l == lease
    case Mark(l, _) => l == lease
    case CommitImport(l) => l == lease
    case Release(l) => l == lease
    case Recover => false
  }

  function EventOf(job: Job, stmt: Statement, now: Time): Event
    requires Where(job, stmt, now)
  {
    var after := Set(job, stmt, now).status;
    match stmt
    case Acquire(minted, _) => Event(ByLease(minted), true, job.status, after)
    case Renew(l, _) => Event(ByLease(l), false, job.status, after)
    case Mark(l, _) => Event(ByLease(l), false, job.status, after)
    case CommitImport(l) => Event(ByLease(l), false, job.status, after)
    case Release(l) => Event(ByLease(l), false, job.status, after)
    case Recover => Event(Recovery(job.leaseId.value), false, job.status, after)
  }

  /** Lease ids are random UUIDs: an acquisition always brings a fresh one. */
  predicate Allowed(db: Db, step: Step) {
    step.Do? && step.stmt.Acquire? ==> step.stmt.minted !in db.issued
  }

  function Perform(db: Db, stmt: Statement): Db {
    var issued := if stmt.Acquire? then db.issued + {stmt.minted} else db.issued;
    if Where(db.job, stmt, db.now)
    then Db(Set(db.job, stmt, db.now), db.now, issued, db.history + [EventOf(db.job, stmt, db.now)])
    else db.(issued := issued)
  }

  function Next(db: Db, step: Step): Db {
    match step
    case Tick(elapsed) => db.(now := db.now + elapsed)
    case Do(stmt) => Perform(db, stmt)
  }

  function Run(db: Db, steps: seq<Step>): Db
    decreases |steps|
  {
    if steps == [] then db else Run(Next(db, steps[0]), steps[1..])
  }

  predicate Valid(db: Db, steps: seq<Step>)
    decreases |steps|
  {
    steps == [] || (Allowed(db, steps[0]) && Valid(Next(db, steps[0]), steps[1..]))
  }

  /** A job as intake creates it. */
  function NewJob(now: Time): Db {
    Db(Job(Queued, None, None, None), now, {}, [])
  }

  predicate LegalEvent(e: Event) {
    e.before == e.after
    || (e.cause.ByLease? && JobTransition(e.before, e.after))
    || (e.cause.Recovery? && Active(e.before) && e.after.Queued?)
  }

  /** A history is well formed when each event is legal and starts in the status where the
      previous one ended, an acquisition brings a lease never seen before, and any other
      event continues the lease of its predecessor. */
  predicate WellFormed(history: seq<Event>) {
    history == [] ||
    (var n := |history| - 1;
     var e := history[n];
     && WellFormed(history[..n])
     && LegalEvent(e)
     && e.before == LastStatus(history[..n])
     && (if e.acquired
         then forall x :: x in history[..n] ==> Subject(x) != Subject(e)
         else n > 0 && Subject(history[n - 1]) == Subject(e)))
  }

  function LastStatus(history: seq<Event>): Status {
    if history == [] then Queued else history[|history| - 1].after
  }

  function Completions(history: seq<Event>): nat {
    if history == [] then 0
    else Completions(history[..|history| - 1]) + (if Completes(history[|history| - 1]) then 1 else 0)
  }

  predicate Inv(db: Db) {
    && (db.job.leaseId.Some? <==> db.job.leaseExpiresAt.Some?)
    && (db.job.leaseId.Some? ==>
          db.history != [] && Subject(db.history[|db.history| - 1]) == db.job.leaseId.value)
    && (forall e :: e in db.history ==> Subject(e) in db.issued)
    && WellFormed(db.history)
    && LastStatus(db.history) == db.job.status
    && Completions(db.history) == (if db.job.status.Completed? then 1 else 0)
    && (db.job.leaseId.Some? ==> db.job.status.Queued? || Retryable(db.job) || Active(db.job.status))
  }

  /** One matching statement: a legal event that continues the row's lease or brings a new
      one, and a row that fits it. */
  lemma MatchKeepsRow(job: Job, stmt: Statement, now: Time)
    requires Where(job, stmt, now)
    requires job.leaseId.Some? <==> job.leaseExpiresAt.Some?
    requires job.leaseId.Some? ==> job.status.Queued? || Retryable(job) || Active(job.status)
    ensures var after, e := Set(job, stmt, now), EventOf(job, stmt, now);
            && (after.leaseId.Some? <==> after.leaseExpiresAt.Some?)
            && (after.leaseId.Some? ==> after.status.Queued? || Retryable(after) || Active(after.status))
            && (after.leaseId.Some? ==> after.leaseId.value == Subject(e))
            && LegalEvent(e) && e.before == job.status && e.after == after.status
            && (job.status.Completed? ==> after.status.Completed?)
            && (e.acquired ==> stmt.Acquire? && Subject(e) == stmt.minted)
            && (!e.acquired ==> !stmt.Acquire? && job.leaseId == Some(Subject(e)))
  {
  }

  lemma StepKeepsInv(db: Db, step: Step)
    requires Inv(db) && Allowed(db, step)
    ensures Inv(Next(db, step))
  {
    if step.Do? && Where(db.job, step.stmt, db.now) {
      MatchKeepsRow(db.job, step.stmt, db.now);
      AppendKeepsHistory(db, EventOf(db.job, step.stmt, db.now));
    }
  }

  lemma AppendKeepsHistory(db: Db, e: Event)
    requires Inv(db) && LegalEvent(e) && e.before == db.job.status
    requires if e.acquired then Subject(e) !in db.issued else db.job.leaseId == Some(Subject(e))
    ensures WellFormed(db.history + [e]) && LastStatus(db.history + [e]) == e.after
    ensures Completions(db.history + [e]) == Completions(db.history) + (if Completes(e) then 1 else 0)
  {
    var h' := db.history + [e];
    assert h'[..|h'| - 1] == db.history;
  }

  /** Safety of every run: the whole history of a job, under any interleaving of any
      number of workers, heartbeats, recoveries and clock ticks. */
  lemma {:induction false} EveryRunIsSafe(db: Db, steps: seq<Step>)
    requires Inv(db) && Valid(db, steps)
    ensures Inv(Run(db, steps))
    decreases |steps|
  {
    if steps != [] {
      StepKeepsInv(db, steps[0]);
      EveryRunIsSafe(Next(db, steps[0]), steps[1..]);
    }
  }

  /** No event of another lease separates two events of one lease, and the first event of
      a lease is its acquisition. */
  lemma {:induction false} LeasesNeverInterleave(h: seq<Event>)
    requires WellFormed(h)
    ensures forall i, j, k :: 0 <= i < j < k < |h| && Subject(h[i]) == Subject(h[k])
                              ==> Subject(h[j]) == Subject(h[i])
    ensures forall i :: 0 <= i < |h| && !h[i].acquired ==> i > 0 && Subject(h[i - 1]) == Subject(h[i])
  {
    if h != [] {
      var n := |h| - 1;
      var p := h[..n];
      LeasesNeverInterleave(p);
      forall i, j | 0 <= i < j < n && Subject(h[i]) == Subject(h[n])
        ensures Subject(h[j]) == Subject(h[i])
      {
        assert p[i] in p;
        assert j < n - 1 ==> Subject(p[j]) == Subject(p[n - 1]);
      }
      forall i | 0 <= i < |h| && !h[i].acquired
        ensures i > 0 && Subject(h[i - 1]) == Subject(h[i])
      {
        if i < n {
          assert !p[i].acquired;
          assert p[i - 1] == h[i - 1];
        }
      }
    }
  }

  lemma {:induction false} HistoryIsLegal(h: seq<Event>)
    requires WellFormed(h)
    ensures forall i :: 0 <= i < |h| ==> LegalEvent(h[i])
    ensures forall i :: 0 < i < |h| ==> h[i].before == h[i - 1].after
  {
    if h != [] {
      var n := |h| - 1;
      HistoryIsLegal(h[..n]);
      forall i | 0 <= i < |h| ensures LegalEvent(h[i]) {
        assert i < n ==> h[..n][i] == h[i];
      }
      forall i | 0 < i < |h| ensures h[i].before == h[i - 1].after {
        if i < n {
          assert h[..n][i].before == h[..n][i - 1].after;
        }
      }
    }
  }

  /** From a new job: at most one completion, leases in blocks, legal moves only. */
  lemma JobHistoryIsSafe(now: Time, steps: seq<Step>)
    requires Valid(NewJob(now), steps)
    ensures var db := Run(NewJob(now), steps);
            && WellFormed(db.history)
            && LastStatus(db.history) == db.job.status
            && Completions(db.history) == (if db.job.status.Completed? then 1 else 0)
  {
    EveryRunIsSafe(NewJob(now), steps);
  }

  /** `completed`, and `failed` unless it was marked retryable. */
  predicate Terminal(job: Job) {
    job.status.Completed? || (job.status.Failed? && job.retryable != Some(true))
  }

  /** A row at work whose lease was given up: `release` clears a live lease in any status,
      and recovery passes over rows without one. */
  predicate Orphaned(job: Job) {
    Active(job.status) && job.leaseId.None?
  }

  lemma {:induction false} NothingMovesIt(db: Db, steps: seq<Step>)
    requires Valid(db, steps) && db.job.leaseId.None?
    requires Terminal(db.job) || Active(db.job.status)
    ensures Run(db, steps).job == db.job && Run(db, steps).history == db.history
    decreases |steps|
  {
    if steps != [] {
      assert steps[0].Do? ==> !Where(db.job, steps[0].stmt, db.now);
      NothingMovesIt(Next(db, steps[0]), steps[1..]);
    }
  }

  /** The clock passes the lease, and the row is recovered or acquired afresh. */
  function WayOut(db: Db, minted: LeaseId): seq<Step>
    requires Inv(db)
  {
    var wait := Tick(if db.job.leaseId.Some? && db.job.leaseExpiresAt.value > db.now
                     then db.job.leaseExpiresAt.value - db.now else 0);
    [wait, Do(if Active(db.job.status) then Recover else Acquire(minted, 1))]
  }

  lemma WayOutMoves(db: Db, minted: LeaseId)
    requires Inv(db) && minted !in db.issued
    requires !Terminal(db.job) && !Orphaned(db.job)
    ensures Valid(db, WayOut(db, minted)) && Run(db, WayOut(db, minted)).job != db.job
  {
    var steps := WayOut(db, minted);
    var db1 := Next(db, steps[0]);
    assert steps[1..] == [steps[1]];
    assert Run(db, steps) == Run(db1, steps[1..]) == Next(db1, steps[1]);
    assert Valid(db1, steps[1..]);
    if db.job.leaseId.Some? {
      assert db.history[|db.history| - 1] in db.history;
    }
  }

  /** Exactly which rows can never change again, whatever anybody does: the terminal ones
      (as intended) and the orphaned ones (a job that no worker will ever pick up). */
  lemma FrozenExactly(db: Db)
    requires Inv(db)
    ensures (forall steps :: Valid(db, steps) ==> Run(db, steps).job == db.job)
            <==> (Terminal(db.job) || Orphaned(db.job))
  {
    if Terminal(db.job) || Orphaned(db.job) {
      forall steps | Valid(db, steps) ensures Run(db, steps).job == db.job {
        NothingMovesIt(db, steps);
      }
    } else {
      var minted := FreshId(db.issued);
      WayOutMoves(db, minted);
    }
  }

  /** A live lease is orphaned by its own release exactly when the job is at work; a row that waits
      may be acquired again at once. */
  lemma ReleaseOrphans(db: Db, lease: LeaseId)
    requires Inv(db) && Live(db, lease)
    ensures Orphaned(Next(db, Do(Release(lease))).job) <==> Active(db.job.status)
    ensures forall minted, d, now :: Where(Next(db, Do(Release(lease))).job, Acquire(minted, d), now)
                                     <==> db.job.status == Queued || (db.job.status == Failed && db.job.retryable == Some(true))
  {
  }

  predicate Live(db: Db, lease: LeaseId) {
    Holds(db.job, lease, db.now)
  }

  lemma DeadLeaseStaysDead(db: Db, lease: LeaseId, step: Step)
    requires Inv(db) && Allowed(db, step) && lease in db.issued && !Live(db, lease)
    ensures !Live(Next(db, step), lease) && lease in Next(db, step).issued
    ensures Next(db, step).history == db.history
            || (exists e :: Next(db, step).history == db.history + [e] && e.cause != ByLease(lease))
  {
    if step.Do? && Where(db.job, step.stmt, db.now) {
      assert Next(db, step).history == db.history + [EventOf(db.job, step.stmt, db.now)];
    }
  }

  /** A lease that has expired, been released or been replaced never succeeds again. */
  lemma {:induction false} DeadLeaseNeverSucceeds(db: Db, lease: LeaseId, steps: seq<Step>)
    requires Inv(db) && Valid(db, steps) && lease in db.issued && !Live(db, lease)
    ensures !Live(Run(db, steps), lease)
    ensures db.history <= Run(db, steps).history
    ensures forall i :: |db.history| <= i < |Run(db, steps).history|
                        ==> Run(db, steps).history[i].cause != ByLease(lease)
    decreases |steps|
  {
    if steps != [] {
      var db' := Next(db, steps[0]);
      StepKeepsInv(db, steps[0]);
      DeadLeaseStaysDead(db, lease, steps[0]);
      DeadLeaseNeverSucceeds(db', lease, steps[1..]);
    }
  }

  /** Mutual exclusion: while a lease is live, statements that do not carry it leave the
      row exactly as it is, however many there are. */
  lemma {:induction false} LiveLeaseIsUndisturbed(db: Db, lease: LeaseId, steps: seq<Step>)
    requires Inv(db) && Valid(db, steps) && Live(db, lease)
    requires forall s :: s in steps && s.Do? ==> !Carries(s.stmt, lease)
    requires Run(db, steps).now < db.job.leaseExpiresAt.value
    ensures Run(db, steps).job == db.job && Live(Run(db, steps), lease)
    decreases |steps|
  {
    if steps != [] {
      var db' := Next(db, steps[0]);
      StepKeepsInv(db, steps[0]);
      ClockIsMonotone(db', steps[1..]);
      assert steps[0] in steps;
      assert db'.job == db.job;
      LiveLeaseIsUndisturbed(db', lease, steps[1..]);
    }
  }

  lemma {:induction false} ClockIsMonotone(db: Db, steps: seq<Step>)
    ensures db.now <= Run(db, steps).now
    decreases |steps|
  {
    if steps != [] {
      ClockIsMonotone(Next(db, steps[0]), steps[1..]);
    }
  }

  /** A statement that carries a lease moves the status along the table, and every edge
      of the table is taken by some lease holder except the three that are reserved. */
  ghost predicate Moves(from: Status, to: Status) {
    exists job: Job, stmt: Statement, now: Time ::
      && !stmt.Recover? && Where(job, stmt, now)
      && job.status == from && Set(job, stmt, now).status == to && from != to
  }

  lemma LeaseHolderEdges(from: Status, to: Status)
    ensures Moves(from, to) <==>
            (JobTransition(from, to)
             && (from, to) !in {(Queued, Failed), (Leased, Queued), (Failed, Queued)})
  {
    if JobTransition(from, to) && (from, to) !in {(Queued, Failed), (Leased, Queued), (Failed, Queued)} {
      var job := Job(from, Some(0), Some(1), Some(true));
      var move := match to
        case Leased => MarkLeased
        case Decrypting => MarkDecrypting
        case Adapting => MarkAdapting
        case Importing => MarkImporting
        case Finalizing => MarkFinalizing
        case Completed => MarkCompleted
        case _ => MarkFailed(true);
      assert Where(job, Mark(0, move), 0);
      assert Set(job, Mark(0, move), 0).status == to;
    }
  }
}
