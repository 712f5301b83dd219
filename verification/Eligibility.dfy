/** Excluding and re-enabling imports: flipping the ledger and recomputing what it explains. */
module Eligibility {
  import opened Basics
  import opened ArchiveRows
  import opened TextImport
  import opened CachedView
  import opened CachedRevisions
  import opened Materialization

  datatype RunStatus = Running | Completed | Failed

  /** A materialization run is known by its job and idempotency key. */
  datatype RunKey = RunKey(job: Text, idempotencyKey: Text)

  datatype World = World(
    jobs: Jobs,
    rows: Rows,
    ledger: Ledger,
    revisions: Revisions,
    revLedger: RevLedger,
    filings: Filings,
    runs: map<RunKey, RunStatus>)

  // ------------------------------------------------------------- flipping the ledger

  function FlipOne(id: ObsId, o: Observation, job: Text, eligible: bool): Observation {
    if id.job == job then o.(eligible := eligible) else o
  }

  function Flip(ledger: Ledger, job: Text, eligible: bool): Ledger {
    map id | id in ledger :: FlipOne(id, ledger[id], job, eligible)
  }

  function FlipRevision(id: RevObsId, o: RevObservation, job: Text, eligible: bool): RevObservation {
    if id.job == job then o.(eligible := eligible) else o
  }

  function FlipRevisions(revLedger: RevLedger, job: Text, eligible: bool): RevLedger {
    map id | id in revLedger :: FlipRevision(id, revLedger[id], job, eligible)
  }

  // --------------------------------------------------- messages, in any listing order

  /** The order in which the database happens to list a table. */
  ghost predicate Lists<K(!new), V>(listing: seq<K>, table: map<K, V>) {
    forall id :: id in listing <==> id in table
  }

  function EntriesOf(ledger: Ledger, listing: seq<ObsId>, m: MsgKey): (r: seq<Entry>)
    ensures forall e :: e in r <==> e.id in listing && e.id in ledger && e.o == ledger[e.id] && e.o.message == m
  {
    if listing == [] then []
    else
      var n := |listing| - 1;
      EntriesOf(ledger, listing[..n], m)
      + (if listing[n] in ledger && ledger[listing[n]].message == m then [Entry(listing[n], ledger[listing[n]])] else [])
  }

  /** The messages that a job observed, each once. */
  function Affected(ledger: Ledger, listing: seq<ObsId>, job: Text): (r: seq<MsgKey>)
    ensures Distinct(r)
    ensures forall m :: m in r <==> exists id :: id in listing && id in ledger && id.job == job && ledger[id].message == m
  {
    if listing == [] then []
    else
      var n := |listing| - 1;
      var before := Affected(ledger, listing[..n], job);
      assert forall id :: id in listing <==> id in listing[..n] || id == listing[n];
      if listing[n] in ledger && listing[n].job == job && ledger[listing[n]].message !in before
      then before + [ledger[listing[n]].message] else before
  }

  function RecomputeAll(rows: Rows, ledger: Ledger, listing: seq<ObsId>, ids: seq<MsgKey>): Rows {
    if ids == [] then rows
    else
      var n := |ids| - 1;
      var before := RecomputeAll(rows, ledger, listing, ids[..n]);
      if ids[n] in before
      then before[ids[n] := Rematerialize(before[ids[n]], EntriesOf(ledger, listing, ids[n]))] else before
  }

  lemma {:induction false} RecomputedRow(rows: Rows, ledger: Ledger, listing: seq<ObsId>, ids: seq<MsgKey>, m: MsgKey)
    requires Distinct(ids)
    ensures var rows' := RecomputeAll(rows, ledger, listing, ids);
            && (m in rows' <==> m in rows)
            && (m in rows ==> rows'[m] == if m in ids then Rematerialize(rows[m], EntriesOf(ledger, listing, m)) else rows[m])
  {
    if ids != [] {
      var n := |ids| - 1;
      RecomputedRow(rows, ledger, listing, ids[..n], m);
      assert m in ids <==> m in ids[..n] || m == ids[n];
      assert ids[n] !in ids[..n];
    }
  }

  // ---------------------------------------------------------------------- revisions

  datatype RevEntry = RevEntry(id: RevObsId, o: RevObservation)

  /** Observation keys of one revision differ only between live and backup, which the
      precedence has told apart before it compares keys. */
  function RevRank(e: RevEntry): Rank {
    Rank(e.o.live, e.o.observedAt, if e.id.live then 1 else 0)
  }

  predicate RevUsable(e: RevEntry) {
    e.o.value.bodyPresent
  }

  function RevEntriesOf(revLedger: RevLedger, listing: seq<RevObsId>, r: RevId): (s: seq<RevEntry>)
    ensures forall e :: e in s <==> e.id in listing && e.id in revLedger && e.o == revLedger[e.id]
                                    && e.o.revision == r && e.o.eligible
  {
    if listing == [] then []
    else
      var n := |listing| - 1;
      RevEntriesOf(revLedger, listing[..n], r)
      + (if listing[n] in revLedger && revLedger[listing[n]].revision == r && revLedger[listing[n]].eligible
         then [RevEntry(listing[n], revLedger[listing[n]])] else [])
  }

  /** The first sighting among the entries. */
  function FirstSighting(entries: seq<RevEntry>): Option<Time> {
    if entries == [] then None
    else
      var n := |entries| - 1;
      var before := FirstSighting(entries[..n]);
      if before.None? || entries[n].o.observedAt < before.value then Some(entries[n].o.observedAt) else before
  }

  function RematerializeRevision(row: RevisionRow, eligible: seq<RevEntry>): RevisionRow {
    var winner, first := SelectPreferred(eligible, RevRank, RevUsable), FirstSighting(eligible);
    RevisionRow(
      body := if winner.Some? then AsString(winner.value.o.value.body) else row.body,
      metadata := if winner.Some? then Whole(winner.value.o.value) else row.metadata,
      firstSeenAt := if first.Some? then first.value else row.firstSeenAt,
      observedAt := if winner.Some? then winner.value.o.observedAt else row.observedAt,
      materialized := eligible != [])
  }

  lemma {:induction false} FirstSightingIsLeast(entries: seq<RevEntry>)
    ensures FirstSighting(entries).Some? <==> entries != []
    ensures entries != [] ==>
              && (exists e :: e in entries && FirstSighting(entries) == Some(e.o.observedAt))
              && (forall e :: e in entries ==> FirstSighting(entries).value <= e.o.observedAt)
  {
    if entries != [] {
      var n := |entries| - 1;
      FirstSightingIsLeast(entries[..n]);
      assert forall e :: e in entries <==> e in entries[..n] || e == entries[n];
    }
  }

  /** Of two observations of a revision: one with a body before one without, a backup before a
      live one, then the later. */
  predicate RevLeads(e: RevEntry, f: RevEntry) {
    && (f.o.value.bodyPresent ==> e.o.value.bodyPresent)
    && (f.o.value.bodyPresent == e.o.value.bodyPresent ==>
          && (e.o.live ==> f.o.live)
          && (e.o.live == f.o.live ==>
                f.o.observedAt < e.o.observedAt || (f.o.observedAt == e.o.observedAt && (f.id.live ==> e.id.live))))
  }

  predicate RevLeadsAll(e: RevEntry, eligible: seq<RevEntry>) {
    e in eligible && forall f :: f in eligible ==> RevLeads(e, f)
  }

  /** What a recomputed revision shows: all of one leading observation, and the first sighting;
      without any eligible observation only that it is hidden. */
  lemma RevisionTells(row: RevisionRow, eligible: seq<RevEntry>)
    ensures var m := RematerializeRevision(row, eligible);
            && (m.materialized <==> eligible != [])
            && (eligible == [] ==> m == row.(materialized := false))
            && (eligible != [] ==>
                  && (exists e :: && RevLeadsAll(e, eligible) && m.metadata == Whole(e.o.value) && m.observedAt == e.o.observedAt
                                  && m.body == (if e.o.value.body == Some(EMPTY_TEXT) then None else e.o.value.body))
                  && (exists e :: e in eligible && m.firstSeenAt == e.o.observedAt)
                  && (forall e :: e in eligible ==> m.firstSeenAt <= e.o.observedAt))
  {
    FirstSightingIsLeast(eligible);
    if eligible != [] {
      SelectsFirstBest(eligible, RevRank, RevUsable);
      var winner := SelectPreferred(eligible, RevRank, RevUsable).value;
      forall f | f in eligible ensures RevLeads(winner, f) {
        assert !Replaces(f, winner, RevRank, RevUsable);
      }
      assert RevLeadsAll(winner, eligible);
    }
  }

  function AffectedRevisions(revLedger: RevLedger, listing: seq<RevObsId>, job: Text): (s: seq<RevId>)
    ensures forall i, j :: 0 <= i < j < |s| ==> s[i] != s[j]
    ensures forall r :: r in s <==> exists id :: id in listing && id in revLedger && id.job == job && revLedger[id].revision == r
  {
    if listing == [] then []
    else
      var n := |listing| - 1;
      var before := AffectedRevisions(revLedger, listing[..n], job);
      assert forall id :: id in listing <==> id in listing[..n] || id == listing[n];
      if listing[n] in revLedger && listing[n].job == job && revLedger[listing[n]].revision !in before
      then before + [revLedger[listing[n]].revision] else before
  }

  function RecomputeRevisions(revisions: Revisions, revLedger: RevLedger, listing: seq<RevObsId>, ids: seq<RevId>): Revisions {
    if ids == [] then revisions
    else
      var n := |ids| - 1;
      var before := RecomputeRevisions(revisions, revLedger, listing, ids[..n]);
      if ids[n] in before
      then before[ids[n] := RematerializeRevision(before[ids[n]], RevEntriesOf(revLedger, listing, ids[n]))] else before
  }

  lemma {:induction false} RecomputedRevision(revisions: Revisions, revLedger: RevLedger, listing: seq<RevObsId>,
                                              ids: seq<RevId>, r: RevId)
    requires forall i, j :: 0 <= i < j < |ids| ==> ids[i] != ids[j]
    ensures var after := RecomputeRevisions(revisions, revLedger, listing, ids);
            && (r in after <==> r in revisions)
            && (r in revisions ==> after[r] == if r in ids
                                               then RematerializeRevision(revisions[r], RevEntriesOf(revLedger, listing, r))
                                               else revisions[r])
  {
    if ids != [] {
      var n := |ids| - 1;
      RecomputedRevision(revisions, revLedger, listing, ids[..n], r);
      assert r in ids <==> r in ids[..n] || r == ids[n];
      assert ids[n] !in ids[..n];
    }
  }

  // ------------------------------------------------------------------- one decision

  datatype Listing = Listing(messages: seq<ObsId>, revisions: seq<RevObsId>)

  ghost predicate ListsWorld(w: World, listing: Listing) {
    Lists(listing.messages, w.ledger) && Lists(listing.revisions, w.revLedger)
  }

  /** What the transaction of one decision commits. */
  function Decide(w: World, job: Text, eligible: bool, listing: Listing): World {
    var ledger, revLedger := Flip(w.ledger, job, eligible), FlipRevisions(w.revLedger, job, eligible);
    w.(jobs := w.jobs[job := eligible],
    ledger := ledger,
    revLedger := revLedger,
    rows := RecomputeAll(w.rows, ledger, listing.messages, Affected(ledger, listing.messages, job)),
    revisions := RecomputeRevisions(w.revisions, revLedger, listing.revisions,
                                    AffectedRevisions(revLedger, listing.revisions, job)))
  }

  /** How a run may end: its transaction commits, it fails and is marked so, or the process
      dies in between. */
  datatype Ending = Commits | Fails | Dies

  function Apply(w: World, job: Text, key: Text, eligible: bool, listing: Listing, ending: Ending): World {
    if job !in w.jobs then w
    else if RunKey(job, key) in w.runs && w.runs[RunKey(job, key)] == Completed then w
    else
      match ending
      case Commits => Decide(w, job, eligible, listing).(runs := w.runs[RunKey(job, key) := Completed])
      case Fails => w.(runs := w.runs[RunKey(job, key) := Failed])
      case Dies => w.(runs := w.runs[RunKey(job, key) := Running])
  }

  /** The transitions that a run is allowed. */
  predicate Permitted(status: RunStatus, next: RunStatus) {
    match status
    case Running => next.Completed? || next.Failed?
    case Failed => next.Running?
    case Completed => next.Completed?
  }

  datatype Move = Move(status: RunStatus, next: RunStatus)

  /** The statuses that one `apply` writes over others: an existing run is started again, and
      what was started may end. */
  function Moves(w: World, job: Text, key: Text, ending: Ending): seq<Move> {
    var run := RunKey(job, key);
    if job !in w.jobs || (run in w.runs && w.runs[run].Completed?) then []
    else
      (if run in w.runs then [Move(w.runs[run], Running)] else [])
      + match ending
        case Commits => [Move(Running, Completed)]
        case Fails => [Move(Running, Failed)]
        case Dies => []
  }

  /** The moves lead from the status stored before to the one stored after. */
  lemma MovesAreStored(w: World, job: Text, key: Text, eligible: bool, listing: Listing, ending: Ending)
    ensures var moves, run, w' := Moves(w, job, key, ending), RunKey(job, key), Apply(w, job, key, eligible, listing, ending);
            && (moves != [] ==> run in w'.runs && w'.runs[run] == moves[|moves| - 1].next)
            && (moves != [] && run in w.runs ==> w.runs[run] == moves[0].status)
            && (|moves| == 2 ==> moves[0].next == moves[1].status)
            && (moves == [] && run in w.runs ==> w'.runs == w.runs)
  {
  }

  /** Every status an `apply` writes is a permitted transition exactly when it does not find
      its own run running. */
  lemma MovesArePermittedExactly(w: World, job: Text, key: Text, ending: Ending)
    requires job in w.jobs
    ensures (forall m :: m in Moves(w, job, key, ending) ==> Permitted(m.status, m.next))
            <==> !(RunKey(job, key) in w.runs && w.runs[RunKey(job, key)].Running?)
  {
    var run := RunKey(job, key);
    if run in w.runs && w.runs[run].Running? {
      assert Moves(w, job, key, ending)[0] == Move(Running, Running);
    }
  }

  class ExclusionStore {
    var jobs: Jobs
    var rows: Rows
    var ledger: Ledger
    var revisions: Revisions
    var revLedger: RevLedger
    var filings: Filings
    var runs: map<RunKey, RunStatus>

    function State(): World
      reads this
    {
      World(jobs, rows, ledger, revisions, revLedger, filings, runs)
    }

    constructor (w: World)
      ensures State() == w
    {
      jobs, rows, ledger, revisions := w.jobs, w.rows, w.ledger, w.revisions;
      revLedger, filings, runs := w.revLedger, w.filings, w.runs;
    }

    /** The messages and the revisions that the job observed, each once. */
    method FindAffected(listing: Listing, job: Text) returns (messages: seq<MsgKey>, ids: seq<RevId>)
      ensures messages == Affected(ledger, listing.messages, job)
      ensures ids == AffectedRevisions(revLedger, listing.revisions, job)
    {
      messages, ids := [], [];
      for i := 0 to |listing.messages|
        invariant messages == Affected(ledger, listing.messages[..i], job)
      {
        var id := listing.messages[i];
        assert listing.messages[..i + 1][..i] == listing.messages[..i];
        if id in ledger && id.job == job && ledger[id].message !in messages {
          messages := messages + [ledger[id].message];
        }
      }
      assert listing.messages[..|listing.messages|] == listing.messages;
      for i := 0 to |listing.revisions|
        invariant ids == AffectedRevisions(revLedger, listing.revisions[..i], job)
      {
        var id := listing.revisions[i];
        assert listing.revisions[..i + 1][..i] == listing.revisions[..i];
        if id in revLedger && id.job == job && revLedger[id].revision !in ids {
          ids := ids + [revLedger[id].revision];
        }
      }
      assert listing.revisions[..|listing.revisions|] == listing.revisions;
    }

    method RematerializeMessages(listing: seq<ObsId>, ids: seq<MsgKey>)
      modifies this`rows
      ensures rows == RecomputeAll(old(rows), ledger, listing, ids)
    {
      for i := 0 to |ids|
        invariant rows == RecomputeAll(old(rows), ledger, listing, ids[..i])
      {
        assert ids[..i + 1][..i] == ids[..i];
        if ids[i] in rows {
          rows := rows[ids[i] := Rematerialize(rows[ids[i]], EntriesOf(ledger, listing, ids[i]))];
        }
      }
      assert ids[..|ids|] == ids;
    }

    method RematerializeRevisions(listing: seq<RevObsId>, ids: seq<RevId>)
      modifies this`revisions
      ensures revisions == RecomputeRevisions(old(revisions), revLedger, listing, ids)
    {
      for i := 0 to |ids|
        invariant revisions == RecomputeRevisions(old(revisions), revLedger, listing, ids[..i])
      {
        assert ids[..i + 1][..i] == ids[..i];
        if ids[i] in revisions {
          revisions := revisions[ids[i] := RematerializeRevision(revisions[ids[i]], RevEntriesOf(revLedger, listing, ids[i]))];
        }
      }
      assert ids[..|ids|] == ids;
    }

    /** `apply` when its transaction commits. */
    method ApplyDecision(job: Text, key: Text, eligible: bool, listing: Listing) returns (idempotent: bool)
      modifies this
      ensures State() == Apply(old(State()), job, key, eligible, listing, Commits)
      ensures idempotent <==> RunKey(job, key) in old(runs) && old(runs)[RunKey(job, key)] == Completed && job in old(jobs)
    {
      var run := RunKey(job, key);
      if job !in jobs {
        return false;
      }
      if run in runs && runs[run] == Completed {
        return true;
      }
      ledger := Flip(ledger, job, eligible);
      revLedger := FlipRevisions(revLedger, job, eligible);
      jobs := jobs[job := eligible];
      var messages, ids := FindAffected(listing, job);
      RematerializeMessages(listing.messages, messages);
      RematerializeRevisions(listing.revisions, ids);
      runs := runs[run := Completed];
      idempotent := false;
    }
  }

  // ------------------------------------------------------------- what a decision keeps

  function StartOf(w: World): Session {
    Session(w.rows, w.ledger, w.revisions, w.revLedger, w.filings, map[], map[], map[])
  }

  ghost predicate MessageInv(w: World) {
    MessagesInv(w.jobs, w.rows, w.ledger) && SplitsOwned(w.rows)
  }

  ghost predicate Inv(w: World) {
    MessageInv(w) && RevisionsInv(w.jobs, StartOf(w))
  }

  lemma FlipKeepsPlaces(rows: Rows, rows': Rows, jobs: Jobs, ledger: Ledger, job: Text, eligible: bool)
    requires JobsAgree(jobs, ledger) && Placed(rows, ledger) && Extends(rows, rows')
    ensures JobsAgree(jobs[job := eligible], Flip(ledger, job, eligible)) && Placed(rows', Flip(ledger, job, eligible))
  {
    var after := Flip(ledger, job, eligible);
    forall id | id in after ensures PlacedIn(rows', id.entityKey, id.source, after[id].message) {
      PlacedSurvives(rows, rows', id.entityKey, id.source, ledger[id].message);
    }
  }

  lemma EligibleExactlyWhenBacked(ledger: Ledger, listing: seq<ObsId>, m: MsgKey)
    requires Lists(listing, ledger)
    ensures EligibleOf(EntriesOf(ledger, listing, m)) != [] <==> Backed(ledger, m)
  {
    var s := EligibleOf(EntriesOf(ledger, listing, m));
    if s != [] {
      var e := s[0];
      assert e in s;
      assert e.id in ledger && ledger[e.id].message == m && ledger[e.id].eligible;
    }
    if id :| id in ledger && ledger[id].message == m && ledger[id].eligible {
      assert Entry(id, ledger[id]) in EntriesOf(ledger, listing, m);
      assert Entry(id, ledger[id]) in s;
    }
  }

  /** A decision does not change what backs a message that the job never observed. */
  lemma UnaffectedBacking(ledger: Ledger, job: Text, eligible: bool, m: MsgKey)
    requires forall id :: id in ledger && id.job == job ==> ledger[id].message != m
    ensures Backed(ledger, m) <==> Backed(Flip(ledger, job, eligible), m)
  {
    var after := Flip(ledger, job, eligible);
    if id :| id in ledger && ledger[id].message == m && ledger[id].eligible {
      assert id in after && after[id] == ledger[id];
    }
  }

  lemma RecomputedFlags(row: MessageRow, entries: seq<Entry>)
    ensures Flags(Rematerialize(row, entries))
  {
    DeletionFlags(row, entries);
  }

  lemma DecisionRow(w: World, job: Text, eligible: bool, listing: Listing, m: MsgKey)
    requires MessageInv(w) && ListsWorld(w, listing) && m in w.rows
    ensures var w' := Decide(w, job, eligible, listing);
            && m in w'.rows
            && w'.rows[m].source == w.rows[m].source
            && (w'.rows[m].materialized <==> Backed(w'.ledger, m))
            && Flags(w'.rows[m])
  {
    var w' := Decide(w, job, eligible, listing);
    var ids := Affected(w'.ledger, listing.messages, job);
    RecomputedRow(w.rows, w'.ledger, listing.messages, ids, m);
    if m in ids {
      RecomputedFlags(w.rows[m], EntriesOf(w'.ledger, listing.messages, m));
      EligibleExactlyWhenBacked(w'.ledger, listing.messages, m);
    } else {
      forall id | id in w.ledger && id.job == job ensures w.ledger[id].message != m {
        assert id in listing.messages && id in w'.ledger;
      }
      UnaffectedBacking(w.ledger, job, eligible, m);
    }
  }

  lemma DecisionKeepsMessages(w: World, job: Text, eligible: bool, listing: Listing)
    requires MessageInv(w) && job in w.jobs && ListsWorld(w, listing)
    ensures var w' := Decide(w, job, eligible, listing);
            MessagesInv(w'.jobs, w'.rows, w'.ledger) && SplitsOwned(w'.rows) && Extends(w.rows, w'.rows)
  {
    var w' := Decide(w, job, eligible, listing);
    forall m ensures m in w'.rows <==> m in w.rows
      ensures m in w.rows ==> w'.rows[m].source == w.rows[m].source
                              && (w'.rows[m].materialized <==> Backed(w'.ledger, m)) && Flags(w'.rows[m])
    {
      RecomputedRow(w.rows, w'.ledger, listing.messages, Affected(w'.ledger, listing.messages, job), m);
      if m in w.rows {
        DecisionRow(w, job, eligible, listing, m);
      }
    }
    FlipKeepsPlaces(w.rows, w'.rows, w.jobs, w.ledger, job, eligible);
  }

  lemma EntriesExactlyWhenBacked(revLedger: RevLedger, listing: seq<RevObsId>, r: RevId)
    requires Lists(listing, revLedger)
    ensures RevEntriesOf(revLedger, listing, r) != [] <==> RevBacked(revLedger, r)
  {
    var s := RevEntriesOf(revLedger, listing, r);
    if s != [] {
      assert s[0] in s;
      assert s[0].id in revLedger;
    }
    if id :| id in revLedger && revLedger[id].revision == r && revLedger[id].eligible {
      assert RevEntry(id, revLedger[id]) in s;
    }
  }

  lemma UnaffectedRevision(revLedger: RevLedger, job: Text, eligible: bool, r: RevId)
    requires forall id :: id in revLedger && id.job == job ==> revLedger[id].revision != r
    ensures RevBacked(revLedger, r) <==> RevBacked(FlipRevisions(revLedger, job, eligible), r)
  {
    var after := FlipRevisions(revLedger, job, eligible);
    if id :| id in revLedger && revLedger[id].revision == r && revLedger[id].eligible {
      assert id in after && after[id] == revLedger[id];
    }
  }

  lemma DecisionRevision(w: World, job: Text, eligible: bool, listing: Listing, r: RevId)
    requires RevShown(w.revisions, w.revLedger) && ListsWorld(w, listing) && r in w.revisions
    ensures var w' := Decide(w, job, eligible, listing);
            r in w'.revisions && (w'.revisions[r].materialized <==> RevBacked(w'.revLedger, r))
  {
    var revLedger := FlipRevisions(w.revLedger, job, eligible);
    var ids := AffectedRevisions(revLedger, listing.revisions, job);
    RecomputedRevision(w.revisions, revLedger, listing.revisions, ids, r);
    if r in ids {
      EntriesExactlyWhenBacked(revLedger, listing.revisions, r);
    } else {
      forall id | id in w.revLedger && id.job == job ensures w.revLedger[id].revision != r {
        assert id in listing.revisions && id in revLedger;
      }
      UnaffectedRevision(w.revLedger, job, eligible, r);
    }
  }

  lemma FlipKeepsRevisions(rows: Rows, rows': Rows, revLedger: RevLedger, job: Text, eligible: bool)
    requires RevPlaced(rows, revLedger) && Extends(rows, rows')
    ensures RevPlaced(rows', FlipRevisions(revLedger, job, eligible))
  {
    var after := FlipRevisions(revLedger, job, eligible);
    forall id | id in after ensures PlacedIn(rows', id.key.messageKey, id.source, after[id].revision.message) {
      PlacedSurvives(rows, rows', id.key.messageKey, id.source, revLedger[id].revision.message);
    }
  }

  /** A decision keeps the books, and shows every revision just when it is backed if that was so. */
  lemma DecisionKeepsRevisions(w: World, job: Text, eligible: bool, listing: Listing)
    requires RevBooks(w.jobs, w.revisions, w.revLedger) && job in w.jobs && ListsWorld(w, listing)
    ensures var w' := Decide(w, job, eligible, listing);
            && RevBooks(w'.jobs, w'.revisions, w'.revLedger)
            && (RevShown(w.revisions, w.revLedger) ==> RevShown(w'.revisions, w'.revLedger))
  {
    var w' := Decide(w, job, eligible, listing);
    forall r ensures r in w'.revisions <==> r in w.revisions
      ensures RevShown(w.revisions, w.revLedger) && r in w.revisions ==>
                (w'.revisions[r].materialized <==> RevBacked(w'.revLedger, r))
    {
      RecomputedRevision(w.revisions, w'.revLedger, listing.revisions, AffectedRevisions(w'.revLedger, listing.revisions, job), r);
      if RevShown(w.revisions, w.revLedger) && r in w.revisions {
        DecisionRevision(w, job, eligible, listing, r);
      }
    }
  }

  lemma RunsAreBookkeeping(w: World, runs: map<RunKey, RunStatus>)
    requires Inv(w)
    ensures Inv(w.(runs := runs))
  {
    assert StartOf(w.(runs := runs)) == StartOf(w);
  }

  lemma DecisionKeepsInv(w: World, job: Text, eligible: bool, listing: Listing)
    requires Inv(w) && job in w.jobs && ListsWorld(w, listing)
    ensures Inv(Decide(w, job, eligible, listing))
  {
    DecisionKeepsMessages(w, job, eligible, listing);
    DecisionKeepsRevisions(w, job, eligible, listing);
    FlipKeepsRevisions(w.rows, Decide(w, job, eligible, listing).rows, w.revLedger, job, eligible);
  }

  lemma ApplyKeepsInv(w: World, job: Text, key: Text, eligible: bool, listing: Listing, ending: Ending)
    requires Inv(w) && ListsWorld(w, listing)
    ensures Inv(Apply(w, job, key, eligible, listing, ending))
  {
    var runs := Apply(w, job, key, eligible, listing, ending).runs;
    RunsAreBookkeeping(w, runs);
    if job in w.jobs && ending == Commits {
      DecisionKeepsInv(w, job, eligible, listing);
      RunsAreBookkeeping(Decide(w, job, eligible, listing), runs);
    }
  }

  lemma ApplyKeepsMessages(w: World, job: Text, key: Text, eligible: bool, listing: Listing, ending: Ending)
    requires MessageInv(w) && ListsWorld(w, listing)
    ensures MessageInv(Apply(w, job, key, eligible, listing, ending))
  {
    if job in w.jobs && ending == Commits {
      DecisionKeepsMessages(w, job, eligible, listing);
    }
  }

  // ----------------------------------------------------- excluding and re-enabling

  lemma FlipBack(jobs: Jobs, ledger: Ledger, job: Text)
    requires JobsAgree(jobs, ledger) && job in jobs
    ensures Flip(Flip(ledger, job, !jobs[job]), job, jobs[job]) == ledger
  {
  }

  lemma SameListings(ledger: Ledger, a: seq<ObsId>, b: seq<ObsId>, m: MsgKey)
    requires Lists(a, ledger) && Lists(b, ledger)
    ensures forall e :: e in EligibleOf(EntriesOf(ledger, a, m)) <==> e in EligibleOf(EntriesOf(ledger, b, m))
  {
  }

  lemma SameAffected(a: Ledger, la: seq<ObsId>, b: Ledger, lb: seq<ObsId>, job: Text, m: MsgKey)
    requires Lists(la, a) && Lists(lb, b)
    requires forall id :: id in a <==> id in b
    requires forall id :: id in a ==> a[id].message == b[id].message
    ensures m in Affected(a, la, job) <==> m in Affected(b, lb, job)
  {
  }

  /** A decision rewrites exactly the messages that the job observed. */
  lemma DecidedRow(w: World, w': World, job: Text, eligible: bool, listing: Listing, order: seq<ObsId>, m: MsgKey)
    requires Lists(listing.messages, w.ledger) && Lists(order, w.ledger) && m in w.rows
    requires w' == Decide(w, job, eligible, listing)
    ensures m in w'.rows && Lists(order, w'.ledger)
    ensures w'.rows[m] == if m in Affected(w.ledger, order, job)
                          then Rematerialize(w.rows[m], EntriesOf(w'.ledger, listing.messages, m)) else w.rows[m]
    ensures m in Affected(w'.ledger, order, job) <==> m in Affected(w.ledger, order, job)
  {
    var ids := Affected(w'.ledger, listing.messages, job);
    RecomputedRow(w.rows, w'.ledger, listing.messages, ids, m);
    SameAffected(w.ledger, order, w'.ledger, listing.messages, job, m);
    SameAffected(w.ledger, order, w'.ledger, order, job, m);
  }

  lemma AffectedIsBacked(w: World, job: Text, order: seq<ObsId>, m: MsgKey)
    requires JobsAgree(w.jobs, w.ledger) && Lists(order, w.ledger) && job in w.jobs && w.jobs[job]
    requires m in Affected(w.ledger, order, job)
    ensures EligibleOf(EntriesOf(w.ledger, order, m)) != []
  {
    var id :| id in order && id in w.ledger && id.job == job && w.ledger[id].message == m;
    assert w.ledger[id].eligible;
    EligibleExactlyWhenBacked(w.ledger, order, m);
  }

  lemma LedgerRestored(w: World, job: Text, l1: Listing, l2: Listing)
    requires JobsAgree(w.jobs, w.ledger) && job in w.jobs && w.jobs[job]
    ensures var w' := Decide(Decide(w, job, false, l1), job, true, l2); w'.ledger == w.ledger && w'.jobs == w.jobs
  {
    FlipBack(w.jobs, w.ledger, job);
  }

  lemma ReEnabledRow(w: World, w1: World, w': World, job: Text, l1: Listing, l2: Listing, order: seq<ObsId>, m: MsgKey)
    requires MessageInv(w) && job in w.jobs && w.jobs[job] && m in w.rows && Lists(order, w.ledger)
    requires ListsWorld(w, l1) && w1 == Decide(w, job, false, l1)
    requires ListsWorld(w1, l2) && w' == Decide(w1, job, true, l2)
    ensures w'.ledger == w.ledger && w'.jobs == w.jobs && m in w1.rows && m in w'.rows
    ensures w'.rows[m] == if m in Affected(w.ledger, order, job)
                          then Rematerialize(w1.rows[m], EntriesOf(w.ledger, l2.messages, m)) else w.rows[m]
  {
    LedgerRestored(w, job, l1, l2);
    DecidedRow(w, w1, job, false, l1, order, m);
    DecidedRow(w1, w', job, true, l2, order, m);
  }

  /** Excluding a job and re-enabling it restores the ledger, leaves the messages it never
      observed alone, and shows every other message as one recomputation would, whatever
      the orders in which the database lists the observations. */
  lemma ExcludeThenReEnable(w: World, w1: World, w': World, job: Text, l1: Listing, l2: Listing, order: seq<ObsId>, m: MsgKey)
    requires MessageInv(w) && job in w.jobs && w.jobs[job] && m in w.rows && Lists(order, w.ledger)
    requires ListsWorld(w, l1) && w1 == Decide(w, job, false, l1)
    requires ListsWorld(w1, l2) && w' == Decide(w1, job, true, l2)
    ensures w'.ledger == w.ledger && w'.jobs == w.jobs && m in w'.rows
    ensures m !in Affected(w.ledger, order, job) ==> w'.rows[m] == w.rows[m]
    ensures m in Affected(w.ledger, order, job) ==> EligibleOf(EntriesOf(w.ledger, order, m)) != []
    ensures Determined(EligibleOf(EntriesOf(w.ledger, order, m))) && m in Affected(w.ledger, order, job) ==>
              SameContent(w'.rows[m], Rematerialize(w.rows[m], EntriesOf(w.ledger, order, m)))
  {
    ReEnabledRow(w, w1, w', job, l1, l2, order, m);
    if m in Affected(w.ledger, order, job) {
      AffectedIsBacked(w, job, order, m);
      if Determined(EligibleOf(EntriesOf(w.ledger, order, m))) {
        SameListings(w.ledger, l2.messages, order, m);
        RecomputationsAgree(w.rows[m], w1.rows[m], EntriesOf(w.ledger, order, m), EntriesOf(w.ledger, l2.messages, m));
      }
    }
  }
}
