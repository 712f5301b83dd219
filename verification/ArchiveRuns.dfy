/** The archive over every run of imports and eligibility decisions: what is always shown,
    and exactly when a revision may not be. */
module ArchiveRuns {
  import opened Basics
  import opened ArchiveRows
  import opened TextImport
  import opened CachedView
  import opened CachedRevisions
  import opened ImportOrder
  import opened Eligibility

  datatype Command =
    | CreateJob(job: Text)
    | ImportJob(job: Text, account: Text, snapshot: Text, observedAt: Time, live: bool, source: RecordSource)
    | ApplyRun(job: Text, key: Text, eligible: bool, listing: Listing, ending: Ending)
    | MoveSource(moved: SourceConv, group: ConvKey)

  function ContextOf(w: World, c: Command): Ctx
    requires c.ImportJob? && c.job in w.jobs
  {
    Ctx(c.job, c.account, c.snapshot, c.observedAt, c.live, w.jobs[c.job])
  }

  function Imported(w: World, c: Command): Option<Session>
    requires c.ImportJob? && c.job in w.jobs
  {
    ImportFrom(StartOf(w), ContextOf(w, c), [], OrderedRecords(c.source))
  }

  /** One command; a transaction that fails changes nothing. */
  function Next(w: World, c: Command): World {
    match c
    case CreateJob(job) => if job in w.jobs then w else w.(jobs := w.jobs[job := true])
    case ImportJob(job, _, _, _, _, _) =>
      if job !in w.jobs || Imported(w, c).None? then w
      else
        var s := Imported(w, c).value;
        w.(rows := s.rows, ledger := s.ledger, revisions := s.revisions, revLedger := s.revLedger, filings := s.filings)
    case ApplyRun(job, key, eligible, listing, ending) => Apply(w, job, key, eligible, listing, ending)
    case MoveSource(moved, group) => if moved in w.filings then w.(filings := w.filings[moved := group]) else w
  }

  function Run(w: World, commands: seq<Command>): World {
    if commands == [] then w else Next(Run(w, commands[..|commands| - 1]), commands[|commands| - 1])
  }

  const EMPTY_ARCHIVE := World(map[], map[], map[], map[], map[], map[], map[])

  /** The database lists what it holds. */
  ghost predicate Listed(w: World, c: Command) {
    c.ApplyRun? ==> ListsWorld(w, c.listing)
  }

  /** Besides, a stream brings each revision while its message is at home; an array always does. */
  ghost predicate Sound(w: World, c: Command) {
    && Listed(w, c)
    && (c.ImportJob? && c.job in w.jobs && c.source.InStream? ==>
          AtHomeThroughout(map[], map[], ContextOf(w, c), OrderedRecords(c.source)))
  }

  ghost predicate AllListed(w: World, commands: seq<Command>) {
    commands == [] ||
    (AllListed(w, commands[..|commands| - 1]) && Listed(Run(w, commands[..|commands| - 1]), commands[|commands| - 1]))
  }

  ghost predicate AllSound(w: World, commands: seq<Command>) {
    commands == [] ||
    (AllSound(w, commands[..|commands| - 1]) && Sound(Run(w, commands[..|commands| - 1]), commands[|commands| - 1]))
  }

  lemma NothingFollowed(w: World)
    ensures AllFollow(StartOf(w), [], map[])
  {
    forall key ensures Follows(StartOf(w), [], map[], key) {
    }
  }

  lemma ImportKeepsInv(w: World, c: Command)
    requires MessageInv(w) && c.ImportJob?
    ensures MessageInv(Next(w, c))
    ensures Inv(w) && Sound(w, c) ==> Inv(Next(w, c))
  {
    if c.job in w.jobs && Imported(w, c).Some? {
      var ctx, s := ContextOf(w, c), StartOf(w);
      var records := OrderedRecords(c.source);
      ImportKeepsLedger(w.jobs, s, ctx, [], records);
      if Inv(w) && Sound(w, c) {
        if c.source.InArray? {
          ArraysAreHome(ctx, c.source.records);
        }
        NothingFollowed(w);
        ImportKeepsRevisions(w.jobs, s, ctx, [], map[], records);
      }
    }
  }

  lemma NextKeepsMessages(w: World, c: Command)
    requires MessageInv(w) && Listed(w, c)
    ensures MessageInv(Next(w, c))
  {
    match c
    case CreateJob(_) =>
    case ImportJob(_, _, _, _, _, _) => ImportKeepsInv(w, c);
    case ApplyRun(job, key, eligible, listing, ending) => ApplyKeepsMessages(w, job, key, eligible, listing, ending);
    case MoveSource(_, _) =>
  }

  lemma NewJobKeepsInv(w: World, job: Text)
    requires Inv(w) && job !in w.jobs
    ensures Inv(w.(jobs := w.jobs[job := true]))
  {
    assert StartOf(w.(jobs := w.jobs[job := true])) == StartOf(w);
  }

  lemma NextKeepsInv(w: World, c: Command)
    requires Inv(w) && Sound(w, c)
    ensures Inv(Next(w, c))
  {
    match c
    case CreateJob(job) =>
      if job !in w.jobs {
        NewJobKeepsInv(w, job);
      }
    case ImportJob(_, _, _, _, _, _) => ImportKeepsInv(w, c);
    case ApplyRun(job, key, eligible, listing, ending) => ApplyKeepsInv(w, job, key, eligible, listing, ending);
    case MoveSource(_, _) =>
  }

  /** In every archive reachable by imports and decisions, a message is materialized exactly
      when an eligible observation backs it, an observation is as eligible as its job, and
      rows are never shared between source conversations. */
  lemma {:induction false} EveryReachableArchive(commands: seq<Command>)
    requires AllListed(EMPTY_ARCHIVE, commands)
    ensures MessageInv(Run(EMPTY_ARCHIVE, commands))
  {
    if commands != [] {
      EveryReachableArchive(commands[..|commands| - 1]);
      NextKeepsMessages(Run(EMPTY_ARCHIVE, commands[..|commands| - 1]), commands[|commands| - 1]);
    }
  }

  /** So is a revision, when every stream brings revisions while their messages are at home;
      imports of arrays need no such care. */
  lemma {:induction false} EveryReachableRevision(commands: seq<Command>)
    requires AllSound(EMPTY_ARCHIVE, commands)
    ensures Inv(Run(EMPTY_ARCHIVE, commands))
  {
    if commands != [] {
      EveryReachableRevision(commands[..|commands| - 1]);
      NextKeepsInv(Run(EMPTY_ARCHIVE, commands[..|commands| - 1]), commands[|commands| - 1]);
    }
  }

  // ------------------------------------------- exactly when revisions stay shown

  ghost predicate WorldShown(w: World) {
    RevShown(w.revisions, w.revLedger)
  }

  predicate WorldBooks(w: World) {
    RevBooks(w.jobs, w.revisions, w.revLedger)
  }

  /** A committed import of an eligible job finds or makes an observation for every revision
      that it shows. */
  ghost predicate Faithful(w: World, c: Command) {
    c.ImportJob? && c.job in w.jobs && Imported(w, c).Some? ==>
      TouchesBacked(w.revLedger, ContextOf(w, c), Touches(NamingOf(StartOf(w)), map[], ContextOf(w, c), [], OrderedRecords(c.source)))
  }

  ghost predicate AllFaithful(w: World, commands: seq<Command>) {
    commands == [] ||
    (AllFaithful(w, commands[..|commands| - 1]) && Faithful(Run(w, commands[..|commands| - 1]), commands[|commands| - 1]))
  }

  /** The revisions are shown just when they are backed, after every command. */
  ghost predicate AlwaysShown(w: World, commands: seq<Command>) {
    WorldShown(Run(w, commands)) && (commands == [] || AlwaysShown(w, commands[..|commands| - 1]))
  }

  lemma ApplyKeepsShown(w: World, job: Text, key: Text, eligible: bool, listing: Listing, ending: Ending)
    requires WorldBooks(w) && ListsWorld(w, listing)
    ensures WorldBooks(Apply(w, job, key, eligible, listing, ending))
    ensures WorldShown(w) ==> WorldShown(Apply(w, job, key, eligible, listing, ending))
  {
    if job in w.jobs && ending == Commits {
      DecisionKeepsRevisions(w, job, eligible, listing);
    }
  }

  lemma ImportStaysShown(w: World, c: Command)
    requires WorldBooks(w) && WorldShown(w) && c.ImportJob?
    ensures WorldBooks(Next(w, c)) && (WorldShown(Next(w, c)) <==> Faithful(w, c))
  {
    if c.job in w.jobs && Imported(w, c).Some? {
      ImportStaysShownExactly(w.jobs, StartOf(w), ContextOf(w, c), [], OrderedRecords(c.source));
    }
  }

  /** One command leaves every revision shown just when it is backed, if and only if it is
      faithful; a decision always is. */
  lemma NextStaysShownExactly(w: World, c: Command)
    requires WorldBooks(w) && WorldShown(w) && Listed(w, c)
    ensures WorldBooks(Next(w, c)) && (WorldShown(Next(w, c)) <==> Faithful(w, c))
  {
    match c
    case CreateJob(_) =>
    case ImportJob(_, _, _, _, _, _) => ImportStaysShown(w, c);
    case ApplyRun(job, key, eligible, listing, ending) => ApplyKeepsShown(w, job, key, eligible, listing, ending);
    case MoveSource(_, _) =>
  }

  /** The runs that never show a revision without backing, nor hide a backed one, are exactly
      those whose imports are all faithful. */
  lemma {:induction false} AlwaysShownExactly(commands: seq<Command>)
    requires AllListed(EMPTY_ARCHIVE, commands)
    ensures AlwaysShown(EMPTY_ARCHIVE, commands) <==> AllFaithful(EMPTY_ARCHIVE, commands)
    ensures AlwaysShown(EMPTY_ARCHIVE, commands) ==> WorldBooks(Run(EMPTY_ARCHIVE, commands))
  {
    if commands != [] {
      var before := commands[..|commands| - 1];
      AlwaysShownExactly(before);
      if AlwaysShown(EMPTY_ARCHIVE, before) {
        assert WorldShown(Run(EMPTY_ARCHIVE, before));
        NextStaysShownExactly(Run(EMPTY_ARCHIVE, before), commands[|commands| - 1]);
      }
    }
  }

  // ------------------------------------------------------------- idempotency keys

  predicate Done(w: World, run: RunKey) {
    run.job in w.jobs && run in w.runs && w.runs[run].Completed?
  }

  predicate Repeats(c: Command, run: RunKey) {
    c.ApplyRun? && RunKey(c.job, c.key) == run
  }

  function Without(commands: seq<Command>, run: RunKey): seq<Command> {
    if commands == [] then []
    else
      var last := commands[|commands| - 1];
      Without(commands[..|commands| - 1], run) + (if Repeats(last, run) then [] else [last])
  }

  lemma NextKeepsDone(w: World, c: Command, run: RunKey)
    requires Done(w, run)
    ensures Done(Next(w, c), run)
    ensures Repeats(c, run) ==> Next(w, c) == w
  {
  }

  /** A completed run acts once: repeating its idempotency key, however often and between
      whatever other commands, makes no difference to the archive. */
  lemma {:induction false} CompletedRunIsFinal(w: World, commands: seq<Command>, run: RunKey)
    requires Done(w, run)
    ensures Done(Run(w, commands), run) && Run(w, commands) == Run(w, Without(commands, run))
  {
    if commands != [] {
      var n := |commands| - 1;
      var kept := Without(commands[..n], run);
      CompletedRunIsFinal(w, commands[..n], run);
      NextKeepsDone(Run(w, commands[..n]), commands[n], run);
      if Repeats(commands[n], run) {
        assert Without(commands, run) == kept;
      } else {
        assert Without(commands, run) == kept + [commands[n]];
        assert (kept + [commands[n]])[..|kept|] == kept;
      }
    }
  }

  // ---------------------------------------------------------- the status transitions

  predicate Creates(commands: seq<Command>, job: Text) {
    CreateJob(job) in commands
  }

  /** How the last attempt at a run ended: an `apply` of its key, once its job existed, that did
      not find the run completed. */
  function LastAttempt(commands: seq<Command>, run: RunKey): Option<Ending> {
    if commands == [] then None
    else
      var n := |commands| - 1;
      var before := LastAttempt(commands[..n], run);
      if Repeats(commands[n], run) && Creates(commands[..n], run.job) && before != Some(Commits)
      then Some(commands[n].ending) else before
  }

  function StatusOf(ending: Ending): RunStatus {
    match ending
    case Commits => Completed
    case Fails => Failed
    case Dies => Running
  }

  /** The status stored for a run is that of its last attempt. */
  lemma {:induction false} StatusIsOfLastAttempt(commands: seq<Command>, run: RunKey)
    ensures var w := Run(EMPTY_ARCHIVE, commands);
            && (run.job in w.jobs <==> Creates(commands, run.job))
            && (run in w.runs <==> LastAttempt(commands, run).Some?)
            && (run in w.runs ==> w.runs[run] == StatusOf(LastAttempt(commands, run).value))
  {
    if commands != [] {
      var n := |commands| - 1;
      StatusIsOfLastAttempt(commands[..n], run);
      assert Creates(commands, run.job) <==> Creates(commands[..n], run.job) || commands[n] == CreateJob(run.job);
      NextStatus(Run(EMPTY_ARCHIVE, commands[..n]), commands[n], run);
    }
  }

  function StatusAfter(w: World, c: Command, run: RunKey): Option<RunStatus> {
    var before := if run in w.runs then Some(w.runs[run]) else None;
    if Repeats(c, run) && run.job in w.jobs && before != Some(Completed) then Some(StatusOf(c.ending)) else before
  }

  /** A run's own part of `apply`. */
  lemma ApplyRuns(w: World, job: Text, key: Text, eligible: bool, listing: Listing, ending: Ending)
    ensures var w', run := Apply(w, job, key, eligible, listing, ending), RunKey(job, key);
            && w'.jobs.Keys == w.jobs.Keys
            && w'.runs == if job in w.jobs && !(run in w.runs && w.runs[run].Completed?) then w.runs[run := StatusOf(ending)] else w.runs
  {
  }

  lemma NewStatus(w: World, w': World, c: Command, run: RunKey)
    requires c.ApplyRun? && w'.jobs.Keys == w.jobs.Keys
    requires var own := RunKey(c.job, c.key);
             w'.runs == if c.job in w.jobs && !(own in w.runs && w.runs[own].Completed?) then w.runs[own := StatusOf(c.ending)] else w.runs
    ensures run.job in w'.jobs <==> run.job in w.jobs
    ensures StatusAfter(w, c, run) == if run in w'.runs then Some(w'.runs[run]) else None
  {
    assert run.job in w'.jobs.Keys <==> run.job in w.jobs.Keys;
  }

  lemma ApplyStatus(w: World, c: Command, run: RunKey)
    requires c.ApplyRun?
    ensures var w' := Apply(w, c.job, c.key, c.eligible, c.listing, c.ending);
            && (run.job in w'.jobs <==> run.job in w.jobs)
            && StatusAfter(w, c, run) == if run in w'.runs then Some(w'.runs[run]) else None
  {
    ApplyRuns(w, c.job, c.key, c.eligible, c.listing, c.ending);
    NewStatus(w, Apply(w, c.job, c.key, c.eligible, c.listing, c.ending), c, run);
  }

  lemma NextStatus(w: World, c: Command, run: RunKey)
    ensures var w' := Next(w, c);
            && (run.job in w'.jobs <==> run.job in w.jobs || c == CreateJob(run.job))
            && StatusAfter(w, c, run) == if run in w'.runs then Some(w'.runs[run]) else None
  {
    if c.ApplyRun? {
      ApplyStatus(w, c, run);
    }
  }

  /** Every status that the command writes over another is a permitted transition. */
  predicate Permits(w: World, c: Command) {
    c.ApplyRun? ==> forall m :: m in Moves(w, c.job, c.key, c.ending) ==> Permitted(m.status, m.next)
  }

  predicate AllPermitted(w: World, commands: seq<Command>) {
    commands == [] || (AllPermitted(w, commands[..|commands| - 1]) && Permits(Run(w, commands[..|commands| - 1]), commands[|commands| - 1]))
  }

  /** Some command tries again a run whose last attempt died. */
  ghost predicate RetriesADeadRun(commands: seq<Command>) {
    exists n :: 0 <= n < |commands| && commands[n].ApplyRun?
                && LastAttempt(commands[..n], RunKey(commands[n].job, commands[n].key)) == Some(Dies)
  }

  lemma RetriesLater(commands: seq<Command>)
    requires commands != []
    ensures var n := |commands| - 1;
            RetriesADeadRun(commands)
            <==> RetriesADeadRun(commands[..n])
                 || (commands[n].ApplyRun? && LastAttempt(commands[..n], RunKey(commands[n].job, commands[n].key)) == Some(Dies))
  {
    var n := |commands| - 1;
    forall i | 0 <= i < n ensures commands[..n][..i] == commands[..i] && commands[..n][i] == commands[i] {
    }
    if i :| 0 <= i < n && commands[..n][i].ApplyRun?
            && LastAttempt(commands[..n][..i], RunKey(commands[..n][i].job, commands[..n][i].key)) == Some(Dies) {
      assert commands[i].ApplyRun? && LastAttempt(commands[..i], RunKey(commands[i].job, commands[i].key)) == Some(Dies);
    }
    if i :| 0 <= i < n && commands[i].ApplyRun? && LastAttempt(commands[..i], RunKey(commands[i].job, commands[i].key)) == Some(Dies) {
      assert commands[..n][i].ApplyRun?
             && LastAttempt(commands[..n][..i], RunKey(commands[..n][i].job, commands[..n][i].key)) == Some(Dies);
    }
  }

  /** An attempt is never lost: a run that has one belongs to a job that exists. */
  lemma {:induction false} AttemptedJobExists(commands: seq<Command>, run: RunKey)
    requires LastAttempt(commands, run).Some?
    ensures Creates(commands, run.job)
  {
    var n := |commands| - 1;
    if LastAttempt(commands[..n], run).Some? {
      AttemptedJobExists(commands[..n], run);
    }
  }

  /** The runs of commands that only ever make permitted transitions are exactly those that try no
      dead run again: starting one over is a transition that the table does not have. */
  lemma {:induction false} TransitionsArePermittedExactly(commands: seq<Command>)
    ensures AllPermitted(EMPTY_ARCHIVE, commands) <==> !RetriesADeadRun(commands)
  {
    if commands != [] {
      var n := |commands| - 1;
      TransitionsArePermittedExactly(commands[..n]);
      RetriesLater(commands);
      if commands[n].ApplyRun? {
        var run := RunKey(commands[n].job, commands[n].key);
        StatusIsOfLastAttempt(commands[..n], run);
        if LastAttempt(commands[..n], run).Some? {
          AttemptedJobExists(commands[..n], run);
        }
        if run.job in Run(EMPTY_ARCHIVE, commands[..n]).jobs {
          MovesArePermittedExactly(Run(EMPTY_ARCHIVE, commands[..n]), run.job, run.idempotencyKey, commands[n].ending);
        }
      }
    }
  }
}
