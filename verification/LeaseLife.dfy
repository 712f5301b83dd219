/** How long a lease lasts: exactly until its expiry, and for as long as heartbeats come in time. */
module LeaseLife {
  import opened Basics
  import opened JobLease

  /** The statement neither extends the lease nor gives it up: anything that does not carry it,
      and the marks that move its job along. */
  predicate LeavesAlone(stmt: Statement, lease: LeaseId) {
    Carries(stmt, lease) ==> stmt.Mark? && !stmt.move.MarkCompleted? && !stmt.move.MarkFailed?
  }

  /** What grants a lease for a while: its acquisition, or a heartbeat. */
  predicate Grants(stmt: Statement, lease: LeaseId, d: Duration) {
    stmt == Acquire(lease, d) || stmt == Renew(lease, d)
  }

  /** Any statement that leaves a live lease alone keeps it, with its expiry. */
  lemma StepKeepsLease(db: Db, lease: LeaseId, stmt: Statement)
    requires Inv(db) && Allowed(db, Do(stmt)) && Live(db, lease) && LeavesAlone(stmt, lease)
    ensures var job := Next(db, Do(stmt)).job;
            job.leaseId == Some(lease) && job.leaseExpiresAt == db.job.leaseExpiresAt
            && (Active(db.job.status) ==> Active(job.status))
  {
    if db.history != [] {
      assert db.history[|db.history| - 1] in db.history;
    }
  }

  lemma LiveIsIssued(db: Db, lease: LeaseId)
    requires Inv(db) && Live(db, lease)
    ensures lease in db.issued
  {
    assert db.history[|db.history| - 1] in db.history;
  }

  lemma {:induction false} LeaseLasts(db: Db, lease: LeaseId, expiry: Time, steps: seq<Step>)
    requires Inv(db) && Valid(db, steps) && lease in db.issued
    requires db.job.leaseId == Some(lease) && db.job.leaseExpiresAt == Some(expiry)
    requires forall s :: s in steps && s.Do? ==> LeavesAlone(s.stmt, lease)
    ensures Live(Run(db, steps), lease) <==> Run(db, steps).now < expiry
    decreases |steps|
  {
    ClockIsMonotone(db, steps);
    if !Live(db, lease) {
      DeadLeaseNeverSucceeds(db, lease, steps);
    } else if steps != [] {
      var db' := Next(db, steps[0]);
      assert steps[0] in steps;
      StepKeepsInv(db, steps[0]);
      if steps[0].Do? {
        StepKeepsLease(db, lease, steps[0].stmt);
      }
      LeaseLasts(db', lease, expiry, steps[1..]);
    }
  }

  /** After a granted acquisition or heartbeat, and whatever else anybody does that leaves the
      lease alone, the lease holds just while less than the granted time has passed. */
  lemma GrantLastsExactly(db: Db, lease: LeaseId, d: Duration, grant: Statement, steps: seq<Step>)
    requires Inv(db) && Allowed(db, Do(grant)) && Grants(grant, lease, d) && Where(db.job, grant, db.now)
    requires Valid(Next(db, Do(grant)), steps)
    requires forall s :: s in steps && s.Do? ==> LeavesAlone(s.stmt, lease)
    ensures var after := Run(Next(db, Do(grant)), steps); Live(after, lease) <==> after.now < db.now + d
  {
    StepKeepsInv(db, Do(grant));
    if grant.Renew? {
      LiveIsIssued(db, lease);
    }
    LeaseLasts(Next(db, Do(grant)), lease, db.now + d, steps);
  }

  // -------------------------------------------------------------------- heartbeats

  /** The statement does not give the lease up. */
  predicate KeepsUp(stmt: Statement, lease: LeaseId) {
    LeavesAlone(stmt, lease) || (stmt.Renew? && stmt.lease == lease)
  }

  /** The clock never reaches the deadline, which every heartbeat sets anew. */
  predicate InTime(now: Time, deadline: Time, lease: LeaseId, steps: seq<Step>)
    decreases |steps|
  {
    now < deadline &&
    (steps == [] ||
     match steps[0]
     case Tick(elapsed) => InTime(now + elapsed, deadline, lease, steps[1..])
     case Do(stmt) =>
       if stmt.Renew? && stmt.lease == lease then InTime(now, now + stmt.extension, lease, steps[1..])
       else InTime(now, deadline, lease, steps[1..]))
  }

  /** At no moment of the run has the lease been lost, or could a recovery take its job away. */
  predicate HeldThroughout(db: Db, lease: LeaseId, steps: seq<Step>)
    decreases |steps|
  {
    Live(db, lease) && !Where(db.job, Recover, db.now)
    && (steps == [] || HeldThroughout(Next(db, steps[0]), lease, steps[1..]))
  }

  /** A working job keeps its lease exactly while its heartbeats come in time: then no recovery
      ever matches and every further statement under the lease finds its fence; once one is late
      the lease is lost for good. */
  lemma {:induction false} HeartbeatsKeepTheLease(db: Db, lease: LeaseId, steps: seq<Step>)
    requires Inv(db) && Valid(db, steps) && Active(db.job.status) && Live(db, lease)
    requires forall s :: s in steps && s.Do? ==> KeepsUp(s.stmt, lease)
    ensures HeldThroughout(db, lease, steps) <==> InTime(db.now, db.job.leaseExpiresAt.value, lease, steps)
    ensures Live(Run(db, steps), lease) <==> InTime(db.now, db.job.leaseExpiresAt.value, lease, steps)
    decreases |steps|
  {
    if steps != [] {
      var db' := Next(db, steps[0]);
      assert steps[0] in steps;
      StepKeepsInv(db, steps[0]);
      if steps[0].Do? && LeavesAlone(steps[0].stmt, lease) {
        StepKeepsLease(db, lease, steps[0].stmt);
      }
      if Live(db', lease) {
        HeartbeatsKeepTheLease(db', lease, steps[1..]);
      } else {
        LiveIsIssued(db, lease);
        DeadLeaseNeverSucceeds(db', lease, steps[1..]);
      }
    }
  }

  /** Heartbeats that each grant `d`, and leave no more than `period` between two. */
  predicate Beats(elapsed: int, period: int, d: Duration, lease: LeaseId, steps: seq<Step>)
    decreases |steps|
  {
    elapsed <= period &&
    (steps == [] ||
     match steps[0]
     case Tick(more) => Beats(elapsed + more, period, d, lease, steps[1..])
     case Do(stmt) =>
       if stmt.Renew? && stmt.lease == lease then stmt.extension == d && Beats(0, period, d, lease, steps[1..])
       else Beats(elapsed, period, d, lease, steps[1..]))
  }

  lemma {:induction false} BeatsAreInTime(now: Time, elapsed: int, period: int, d: Duration, lease: LeaseId, steps: seq<Step>)
    requires period < d && Beats(elapsed, period, d, lease, steps)
    ensures InTime(now, now - elapsed + d, lease, steps)
    decreases |steps|
  {
    if steps != [] {
      match steps[0]
      case Tick(more) => BeatsAreInTime(now + more, elapsed + more, period, d, lease, steps[1..]);
      case Do(stmt) =>
        BeatsAreInTime(now, if stmt.Renew? && stmt.lease == lease then 0 else elapsed, period, d, lease, steps[1..]);
    }
  }

  /** The runner insists on a heartbeat period below the lease duration. With it, a job once at
      work under a lease just granted is never recovered while its heartbeats reach the database
      within the period. */
  lemma PeriodBelowDurationSuffices(db: Db, lease: LeaseId, period: int, d: Duration, steps: seq<Step>)
    requires Inv(db) && Active(db.job.status) && period < d
    requires db.job.leaseId == Some(lease) && db.job.leaseExpiresAt == Some(db.now + d)
    requires Valid(db, steps) && Beats(0, period, d, lease, steps)
    requires forall s :: s in steps && s.Do? ==> KeepsUp(s.stmt, lease)
    ensures HeldThroughout(db, lease, steps)
  {
    BeatsAreInTime(db.now, 0, period, d, lease, steps);
    HeartbeatsKeepTheLease(db, lease, steps);
  }

  // ------------------------------------------------------- before the job is at work

  lemma {:induction false} UnmarkedLasts(db: Db, lease: LeaseId, expiry: Time, steps: seq<Step>)
    requires Inv(db) && Valid(db, steps) && lease in db.issued && !Active(db.job.status)
    requires db.job.leaseId == Some(lease) && db.job.leaseExpiresAt == Some(expiry)
    requires forall s :: s in steps && s.Do? && Carries(s.stmt, lease) ==> s.stmt.Renew?
    ensures Live(Run(db, steps), lease) <==> Run(db, steps).now < expiry
    decreases |steps|
  {
    ClockIsMonotone(db, steps);
    if !Live(db, lease) {
      DeadLeaseNeverSucceeds(db, lease, steps);
    } else if steps != [] {
      assert steps[0] in steps;
      StepKeepsInv(db, steps[0]);
      UnmarkedLasts(Next(db, steps[0]), lease, expiry, steps[1..]);
    }
  }

  /** A lease that has been acquired is not extended by any heartbeat until its job is marked
      leased: however many are sent, it lasts just as long as it was granted for. */
  lemma NoHeartbeatBeforeTheMark(db: Db, lease: LeaseId, d: Duration, steps: seq<Step>)
    requires Inv(db) && Allowed(db, Do(Acquire(lease, d))) && Where(db.job, Acquire(lease, d), db.now)
    requires Valid(Next(db, Do(Acquire(lease, d))), steps)
    requires forall s :: s in steps && s.Do? && Carries(s.stmt, lease) ==> s.stmt.Renew?
    ensures var after := Run(Next(db, Do(Acquire(lease, d))), steps); Live(after, lease) <==> after.now < db.now + d
  {
    StepKeepsInv(db, Do(Acquire(lease, d)));
    UnmarkedLasts(Next(db, Do(Acquire(lease, d))), lease, db.now + d, steps);
  }

  // ------------------------------------------------------------------ ends of a job

  /** A job marked failed under its lease is given up at once, and may be acquired again at any
      time if it was marked retryable; otherwise nobody ever changes it again. */
  lemma FailureIsFinalExactly(db: Db, lease: LeaseId, retryable: bool, minted: LeaseId, d: Duration, now: Time)
    requires Inv(db) && Live(db, lease) && Active(db.job.status)
    ensures var after := Next(db, Do(Mark(lease, MarkFailed(retryable))));
            && (Where(after.job, Acquire(minted, d), now) <==> retryable)
            && ((forall steps :: Valid(after, steps) ==> Run(after, steps).job == after.job) <==> !retryable)
  {
    var mark := Do(Mark(lease, MarkFailed(retryable)));
    StepKeepsInv(db, mark);
    FrozenExactly(Next(db, mark));
  }

  /** A job completed under its lease, by its mark or by the importer, is never changed again. */
  lemma CompletionIsFinal(db: Db, lease: LeaseId, stmt: Statement, steps: seq<Step>)
    requires Inv(db) && (stmt == Mark(lease, MarkCompleted) || stmt == CommitImport(lease)) && Where(db.job, stmt, db.now)
    requires Valid(Next(db, Do(stmt)), steps)
    ensures Run(Next(db, Do(stmt)), steps).job == Job(Completed, None, None, Some(false))
  {
    StepKeepsInv(db, Do(stmt));
    NothingMovesIt(Next(db, Do(stmt)), steps);
  }
}
