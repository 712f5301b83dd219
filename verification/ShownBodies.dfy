/** Whether the body that a visible message shows comes from an eligible observation: exactly
    which imports keep that, and one that does not. */
module ShownBodies {
  import opened Basics
  import opened ArchiveRows
  import opened TextImport
  import opened ReplyResolution
  import opened ReplyConstraint
  import opened CachedView
  import opened Arrivals
  import opened ImportRefusals
  import opened Materialization
  import opened Eligibility
  import opened ArchiveRuns
  import opened RunReplies

  /** What a reader sees of a message row. */
  datatype Show = Show(body: Option<Text>, materialized: bool)
  type Shows = map<MsgKey, Show>

  function ShowsOf(rows: Rows): Shows {
    map m | m in rows :: Show(rows[m].body, rows[m].materialized)
  }

  /** What an observation may be asked about. */
  type Question = (ObsId, Observation) -> bool

  /** Some eligible observation of the message answers yes. */
  ghost predicate Affirmed(ledger: Ledger, m: MsgKey, q: Question) {
    exists id :: id in ledger && ledger[id].message == m && ledger[id].eligible && q(id, ledger[id])
  }

  function HasBody(body: Option<Text>): Question {
    (id: ObsId, o: Observation) => o.value.body == body
  }

  ghost predicate BodyBacked(ledger: Ledger, m: MsgKey, body: Option<Text>) {
    Affirmed(ledger, m, HasBody(body))
  }

  ghost predicate HonestShow(show: Show, ledger: Ledger, m: MsgKey) {
    show.materialized && show.body.Some? ==> BodyBacked(ledger, m, show.body)
  }

  /** Every body that a visible message shows is that of one of its eligible observations. */
  ghost predicate Honest(shows: Shows, ledger: Ledger) {
    forall m :: m in shows ==> HonestShow(shows[m], ledger, m)
  }

  // ------------------------------------------------------ the messages of an import

  function ShowOne(shows: Shows, ctx: Ctx, a: Arrival): Shows {
    var body := a.c.record.body;
    if a.key !in shows then shows[a.key := Show(body, ctx.eligible)]
    else if ctx.eligible then shows[a.key := Show(Coalesce(body, shows[a.key].body), true)]
    else shows
  }

  function ShowAll(shows: Shows, ctx: Ctx, arrivals: seq<Arrival>): Shows {
    if arrivals == [] then shows else ShowOne(ShowAll(shows, ctx, arrivals[..|arrivals| - 1]), ctx, arrivals[|arrivals| - 1])
  }

  lemma OneMergeShows(bare: Rows, ctx: Ctx, a: Arrival)
    ensures ShowsOf(MergeOne(bare, ctx, a)) == ShowOne(ShowsOf(bare), ctx, a)
  {
  }

  lemma {:induction false} MergesShow(bare: Rows, ctx: Ctx, arrivals: seq<Arrival>)
    ensures ShowsOf(MergeAll(bare, ctx, arrivals)) == ShowAll(ShowsOf(bare), ctx, arrivals)
  {
    if arrivals != [] {
      var n := |arrivals| - 1;
      MergesShow(bare, ctx, arrivals[..n]);
      OneMergeShows(MergeAll(bare, ctx, arrivals[..n]), ctx, arrivals[n]);
    }
  }

  lemma BareShows(rows: Rows)
    ensures ShowsOf(BareRows(rows)) == ShowsOf(rows)
  {
  }

  lemma ImportShows(s: Session, ctx: Ctx, buffer: seq<MessageRecord>, records: seq<ImportRecord>)
    requires ImportFrom(s, ctx, buffer, records).Some?
    ensures var s', arrivals := ImportFrom(s, ctx, buffer, records).value, ArrivalsAt(s, ctx, buffer, records);
            ShowsOf(s'.rows) == ShowAll(ShowsOf(s.rows), ctx, arrivals) && s'.ledger == RecordAll(s.ledger, ctx, arrivals)
  {
    ImportMerges(s, ctx, buffer, records);
    MergesShow(BareRows(s.rows), ctx, ArrivalsAt(s, ctx, buffer, records));
    BareShows(s.rows);
    BareShows(ImportFrom(s, ctx, buffer, records).value.rows);
  }

  // ------------------------------------------------------ which imports stay honest

  predicate Arrives(arrivals: seq<Arrival>, m: MsgKey) {
    exists a :: a in arrivals && a.key == m
  }

  /** The last body that the import brings the message. */
  function LastBody(arrivals: seq<Arrival>, m: MsgKey): Option<Text> {
    if arrivals == [] then None
    else
      var last := arrivals[|arrivals| - 1];
      Coalesce(if last.key == m then last.c.record.body else None, LastBody(arrivals[..|arrivals| - 1], m))
  }

  function BodyBefore(shows: Shows, m: MsgKey): Option<Text> {
    if m in shows then shows[m].body else None
  }

  /** The i-th arrival is the first to be observed under its key. */
  predicate IsRecorded(ledger: Ledger, ctx: Ctx, arrivals: seq<Arrival>, i: nat)
    requires i < |arrivals|
  {
    ObsIdFor(ctx, arrivals[i].c) !in ledger && forall j :: 0 <= j < i ==> ObsIdFor(ctx, arrivals[j].c) != ObsIdFor(ctx, arrivals[i].c)
  }

  /** The i-th arrival records an observation of the message that answers yes. */
  predicate AffirmsAt(ledger: Ledger, ctx: Ctx, arrivals: seq<Arrival>, m: MsgKey, q: Question, i: nat)
    requires i < |arrivals|
  {
    var a := arrivals[i];
    a.key == m && q(ObsIdFor(ctx, a.c), ObsFor(ctx, a.c, a.key)) && IsRecorded(ledger, ctx, arrivals, i)
  }

  ghost predicate Affirms(ledger: Ledger, ctx: Ctx, arrivals: seq<Arrival>, m: MsgKey, q: Question) {
    exists i :: 0 <= i < |arrivals| && AffirmsAt(ledger, ctx, arrivals, m, q, i)
  }

  /** The import itself records this body for the message. */
  ghost predicate BringsBody(ledger: Ledger, ctx: Ctx, arrivals: seq<Arrival>, m: MsgKey, body: Option<Text>) {
    Affirms(ledger, ctx, arrivals, m, HasBody(body))
  }

  lemma {:induction false} NoBodyArrives(arrivals: seq<Arrival>, m: MsgKey)
    requires !Arrives(arrivals, m)
    ensures LastBody(arrivals, m).None?
  {
    if arrivals != [] {
      assert arrivals[|arrivals| - 1] in arrivals;
      assert forall a :: a in arrivals[..|arrivals| - 1] ==> a in arrivals;
      NoBodyArrives(arrivals[..|arrivals| - 1], m);
    }
  }

  lemma {:induction false} ShownAfter(shows: Shows, ctx: Ctx, arrivals: seq<Arrival>, m: MsgKey)
    ensures var after := ShowAll(shows, ctx, arrivals);
            && (m in after <==> m in shows || Arrives(arrivals, m))
            && (m in after && ctx.eligible ==>
                  after[m].body == Coalesce(LastBody(arrivals, m), BodyBefore(shows, m))
                  && (after[m].materialized <==> Arrives(arrivals, m) || (m in shows && shows[m].materialized)))
            && (m in shows && !ctx.eligible ==> after[m] == shows[m])
            && (m in after && m !in shows && !ctx.eligible ==> !after[m].materialized)
  {
    if arrivals != [] {
      var n := |arrivals| - 1;
      assert Arrives(arrivals, m) <==> Arrives(arrivals[..n], m) || arrivals[n].key == m by {
        assert forall a :: a in arrivals <==> a in arrivals[..n] || a == arrivals[n];
      }
      ShownAfter(shows, ctx, arrivals[..n], m);
      if !Arrives(arrivals[..n], m) {
        NoBodyArrives(arrivals[..n], m);
      }
    }
  }

  lemma OneAffirms(ledger: Ledger, ctx: Ctx, a: Arrival, m: MsgKey, q: Question)
    ensures Affirmed(RecordOne(ledger, ctx, a), m, q)
            <==> Affirmed(ledger, m, q)
                 || (ctx.eligible && a.key == m && q(ObsIdFor(ctx, a.c), ObsFor(ctx, a.c, a.key)) && ObsIdFor(ctx, a.c) !in ledger)
  {
    var id, after := ObsIdFor(ctx, a.c), RecordOne(ledger, ctx, a);
    if o :| o in ledger && ledger[o].message == m && ledger[o].eligible && q(o, ledger[o]) {
      assert o in after && after[o] == ledger[o];
    }
    if ctx.eligible && a.key == m && q(id, ObsFor(ctx, a.c, a.key)) && id !in ledger {
      assert id in after && after[id] == ObsFor(ctx, a.c, a.key);
    }
  }

  lemma AffirmsInPrefix(ledger: Ledger, ctx: Ctx, arrivals: seq<Arrival>, m: MsgKey, q: Question, n: nat, i: nat)
    requires i < n <= |arrivals|
    ensures AffirmsAt(ledger, ctx, arrivals[..n], m, q, i) <==> AffirmsAt(ledger, ctx, arrivals, m, q, i)
  {
    assert forall j :: 0 <= j <= i ==> arrivals[..n][j] == arrivals[j];
  }

  lemma AffirmsWithLast(ledger: Ledger, ctx: Ctx, arrivals: seq<Arrival>, m: MsgKey, q: Question)
    requires arrivals != []
    ensures var n := |arrivals| - 1;
            Affirms(ledger, ctx, arrivals, m, q)
            <==> Affirms(ledger, ctx, arrivals[..n], m, q) || AffirmsAt(ledger, ctx, arrivals, m, q, n)
  {
    var n := |arrivals| - 1;
    if i :| 0 <= i < n && AffirmsAt(ledger, ctx, arrivals[..n], m, q, i) {
      AffirmsInPrefix(ledger, ctx, arrivals, m, q, n, i);
    }
    if i :| 0 <= i < n && AffirmsAt(ledger, ctx, arrivals, m, q, i) {
      AffirmsInPrefix(ledger, ctx, arrivals, m, q, n, i);
    }
  }

  /** An import affirms exactly what the arrivals that it records affirm. */
  lemma {:induction false} AffirmedAfter(ledger: Ledger, ctx: Ctx, arrivals: seq<Arrival>, m: MsgKey, q: Question)
    ensures Affirmed(RecordAll(ledger, ctx, arrivals), m, q)
            <==> Affirmed(ledger, m, q) || (ctx.eligible && Affirms(ledger, ctx, arrivals, m, q))
  {
    if arrivals != [] {
      var n := |arrivals| - 1;
      AffirmedAfter(ledger, ctx, arrivals[..n], m, q);
      OneAffirms(RecordAll(ledger, ctx, arrivals[..n]), ctx, arrivals[n], m, q);
      AffirmsWithLast(ledger, ctx, arrivals, m, q);
      LastIsRecorded(ledger, ctx, arrivals);
    }
  }

  lemma LastIsRecorded(ledger: Ledger, ctx: Ctx, arrivals: seq<Arrival>)
    requires arrivals != []
    ensures var n := |arrivals| - 1;
            IsRecorded(ledger, ctx, arrivals, n) <==> ObsIdFor(ctx, arrivals[n].c) !in RecordAll(ledger, ctx, arrivals[..n])
  {
    var n := |arrivals| - 1;
    LedgerAfter(ledger, ctx, arrivals[..n], ObsIdFor(ctx, arrivals[n].c));
    forall j | 0 <= j < n ensures arrivals[j] in arrivals[..n] {
      assert arrivals[j] == arrivals[..n][j];
    }
  }

  /** The body that an arriving message will show is recorded for it, before or by this import. */
  ghost predicate BodyAccounted(shows: Shows, ledger: Ledger, ctx: Ctx, arrivals: seq<Arrival>, m: MsgKey) {
    var body := Coalesce(LastBody(arrivals, m), BodyBefore(shows, m));
    body.Some? ==> BodyBacked(ledger, m, body) || BringsBody(ledger, ctx, arrivals, m, body)
  }

  lemma MessageStaysHonestExactly(shows: Shows, ledger: Ledger, ctx: Ctx, arrivals: seq<Arrival>, m: MsgKey)
    requires m in shows ==> HonestShow(shows[m], ledger, m)
    ensures var after := ShowAll(shows, ctx, arrivals);
            && (m in after <==> m in shows || Arrives(arrivals, m))
            && (m in after ==>
                  (HonestShow(after[m], RecordAll(ledger, ctx, arrivals), m)
                   <==> (ctx.eligible && Arrives(arrivals, m) ==> BodyAccounted(shows, ledger, ctx, arrivals, m))))
  {
    ShownAfter(shows, ctx, arrivals, m);
    AffirmedAfter(ledger, ctx, arrivals, m, HasBody(Coalesce(LastBody(arrivals, m), BodyBefore(shows, m))));
    AffirmedAfter(ledger, ctx, arrivals, m, HasBody(BodyBefore(shows, m)));
    if !Arrives(arrivals, m) {
      NoBodyArrives(arrivals, m);
    }
  }

  ghost predicate BodiesAccounted(shows: Shows, ledger: Ledger, ctx: Ctx, arrivals: seq<Arrival>) {
    ctx.eligible ==> forall a :: a in arrivals ==> BodyAccounted(shows, ledger, ctx, arrivals, a.key)
  }

  /** An import leaves every visible body backed by an eligible observation, if and only if it
      is excluded, or each body it leaves on a message it meets is on record for that message. */
  lemma ImportStaysHonestExactly(s: Session, ctx: Ctx, buffer: seq<MessageRecord>, records: seq<ImportRecord>)
    requires ImportFrom(s, ctx, buffer, records).Some? && Honest(ShowsOf(s.rows), s.ledger)
    ensures var s' := ImportFrom(s, ctx, buffer, records).value;
            Honest(ShowsOf(s'.rows), s'.ledger)
            <==> BodiesAccounted(ShowsOf(s.rows), s.ledger, ctx, ArrivalsAt(s, ctx, buffer, records))
  {
    var shows, arrivals := ShowsOf(s.rows), ArrivalsAt(s, ctx, buffer, records);
    ImportShows(s, ctx, buffer, records);
    forall m
      ensures m in ShowAll(shows, ctx, arrivals) <==> m in shows || Arrives(arrivals, m)
      ensures m in ShowAll(shows, ctx, arrivals) ==>
                (HonestShow(ShowAll(shows, ctx, arrivals)[m], RecordAll(s.ledger, ctx, arrivals), m)
                 <==> (ctx.eligible && Arrives(arrivals, m) ==> BodyAccounted(shows, s.ledger, ctx, arrivals, m)))
    {
      MessageStaysHonestExactly(shows, s.ledger, ctx, arrivals, m);
    }
    forall a | a in arrivals ensures Arrives(arrivals, a.key) {
      assert a in arrivals && a.key == a.key;
    }
  }

  // ----------------------------------------------------------- imports of a new job

  /** No observation key is taken: the job observes for the first time, and nothing twice. */
  predicate AllRecorded(ledger: Ledger, ctx: Ctx, arrivals: seq<Arrival>) {
    forall i :: 0 <= i < |arrivals| ==> IsRecorded(ledger, ctx, arrivals, i)
  }

  /** A message that is hidden, has a body, and is brought back without one. */
  predicate Exposes(shows: Shows, arrivals: seq<Arrival>, m: MsgKey) {
    Arrives(arrivals, m) && LastBody(arrivals, m).None? && m in shows && !shows[m].materialized && shows[m].body.Some?
  }

  lemma {:induction false} LastBodyArrives(arrivals: seq<Arrival>, m: MsgKey) returns (i: nat)
    requires LastBody(arrivals, m).Some?
    ensures i < |arrivals| && arrivals[i].key == m && arrivals[i].c.record.body == LastBody(arrivals, m)
  {
    var n := |arrivals| - 1;
    if arrivals[n].key == m && arrivals[n].c.record.body.Some? {
      i := n;
    } else {
      i := LastBodyArrives(arrivals[..n], m);
    }
  }

  lemma AccountedExactly(shows: Shows, ledger: Ledger, ctx: Ctx, arrivals: seq<Arrival>, m: MsgKey)
    requires AllRecorded(ledger, ctx, arrivals) && Arrives(arrivals, m)
    requires m in shows ==> HonestShow(shows[m], ledger, m) && (shows[m].materialized <==> Backed(ledger, m))
    ensures BodyAccounted(shows, ledger, ctx, arrivals, m) <==> !Exposes(shows, arrivals, m)
  {
    if LastBody(arrivals, m).Some? {
      var i := LastBodyArrives(arrivals, m);
      assert AffirmsAt(ledger, ctx, arrivals, m, HasBody(LastBody(arrivals, m)), i);
    } else if m in shows && !shows[m].materialized && shows[m].body.Some? {
      forall i | 0 <= i < |arrivals| && arrivals[i].key == m ensures arrivals[i].c.record.body.None? {
        BodilessArrivals(arrivals, m, i);
      }
    }
  }

  lemma {:induction false} BodilessArrivals(arrivals: seq<Arrival>, m: MsgKey, i: nat)
    requires LastBody(arrivals, m).None? && i < |arrivals| && arrivals[i].key == m
    ensures arrivals[i].c.record.body.None?
  {
    var n := |arrivals| - 1;
    if i < n {
      BodilessArrivals(arrivals[..n], m, i);
    }
  }

  /** A new job's eligible import leaves every visible body backed, if and only if it brings
      back without a body no hidden message that has one. */
  lemma NewJobStaysHonestExactly(jobs: Jobs, s: Session, ctx: Ctx, buffer: seq<MessageRecord>, records: seq<ImportRecord>)
    requires ImportFrom(s, ctx, buffer, records).Some? && ctx.eligible
    requires Honest(ShowsOf(s.rows), s.ledger) && MessagesInv(jobs, s.rows, s.ledger)
    requires AllRecorded(s.ledger, ctx, ArrivalsAt(s, ctx, buffer, records))
    ensures var s' := ImportFrom(s, ctx, buffer, records).value;
            Honest(ShowsOf(s'.rows), s'.ledger)
            <==> forall m :: m in s.rows ==> !Exposes(ShowsOf(s.rows), ArrivalsAt(s, ctx, buffer, records), m)
  {
    var shows, arrivals := ShowsOf(s.rows), ArrivalsAt(s, ctx, buffer, records);
    ImportStaysHonestExactly(s, ctx, buffer, records);
    forall m | Arrives(arrivals, m)
      ensures BodyAccounted(shows, s.ledger, ctx, arrivals, m) <==> !Exposes(shows, arrivals, m)
    {
      AccountedExactly(shows, s.ledger, ctx, arrivals, m);
    }
    forall a | a in arrivals ensures Arrives(arrivals, a.key) {
      assert a in arrivals && a.key == a.key;
    }
  }

  // ------------------------------------------------------------- decisions, and runs

  ghost predicate WorldHonest(w: World) {
    Honest(ShowsOf(w.rows), w.ledger)
  }

  lemma RecomputedIsHonest(row: MessageRow, ledger: Ledger, listing: seq<ObsId>, m: MsgKey)
    ensures var after := Rematerialize(row, EntriesOf(ledger, listing, m));
            HonestShow(Show(after.body, after.materialized), ledger, m)
  {
    var entries := EntriesOf(ledger, listing, m);
    var after := Rematerialize(row, entries);
    RecomputationTells(row, entries);
    if after.materialized && after.body.Some? {
      var e :| LeadsAll(e, EligibleOf(entries), true) && e.o.value.body == after.body;
      assert e.id in ledger && ledger[e.id] == e.o;
    }
  }

  /** Flipping a job changes nothing of what the others' observations affirm. */
  lemma UnaffectedAnswer(ledger: Ledger, job: Text, eligible: bool, m: MsgKey, q: Question)
    requires forall id :: id in ledger && id.job == job ==> ledger[id].message != m
    ensures Affirmed(ledger, m, q) ==> Affirmed(Flip(ledger, job, eligible), m, q)
  {
    var after := Flip(ledger, job, eligible);
    if id :| id in ledger && ledger[id].message == m && ledger[id].eligible && q(id, ledger[id]) {
      assert id in after && after[id] == ledger[id];
    }
  }

  /** A decision leaves every visible body backed: what it recomputes always is. */
  lemma DecisionStaysHonest(w: World, job: Text, eligible: bool, listing: Listing)
    requires WorldHonest(w) && ListsWorld(w, listing)
    ensures WorldHonest(Decide(w, job, eligible, listing))
  {
    var w' := Decide(w, job, eligible, listing);
    var ids := Affected(w'.ledger, listing.messages, job);
    forall m | m in w'.rows ensures HonestShow(ShowsOf(w'.rows)[m], w'.ledger, m) {
      RecomputedRow(w.rows, w'.ledger, listing.messages, ids, m);
      if m in ids {
        RecomputedIsHonest(w.rows[m], w'.ledger, listing.messages, m);
      } else {
        assert HonestShow(ShowsOf(w.rows)[m], w.ledger, m);
        forall id | id in w.ledger && id.job == job ensures w.ledger[id].message != m {
          assert id in listing.messages && id in w'.ledger;
        }
        UnaffectedAnswer(w.ledger, job, eligible, m, HasBody(w.rows[m].body));
      }
    }
  }

  /** A committed import accounts for every body that it leaves visible. */
  ghost predicate Accounts(w: World, c: Command) {
    c.ImportJob? && c.job in w.jobs && Imported(w, c).Some? ==>
      BodiesAccounted(ShowsOf(w.rows), w.ledger, ContextOf(w, c), ArrivalsAt(StartOf(w), ContextOf(w, c), [], OrderedRecords(c.source)))
  }

  lemma ApplyStaysHonest(w: World, job: Text, key: Text, eligible: bool, listing: Listing, ending: Ending)
    requires WorldHonest(w) && ListsWorld(w, listing)
    ensures WorldHonest(Apply(w, job, key, eligible, listing, ending))
  {
    if job in w.jobs && ending == Commits {
      DecisionStaysHonest(w, job, eligible, listing);
    }
  }

  lemma NextStaysHonestExactly(w: World, c: Command)
    requires WorldHonest(w) && Listed(w, c)
    ensures WorldHonest(Next(w, c)) <==> Accounts(w, c)
  {
    match c
    case CreateJob(_) =>
    case ImportJob(_, _, _, _, _, _) =>
      if c.job in w.jobs && Imported(w, c).Some? {
        ImportStaysHonestExactly(StartOf(w), ContextOf(w, c), [], OrderedRecords(c.source));
      }
    case ApplyRun(job, key, eligible, listing, ending) => ApplyStaysHonest(w, job, key, eligible, listing, ending);
    case MoveSource(_, _) =>
  }

  ghost predicate AllAccount(w: World, commands: seq<Command>) {
    commands == [] ||
    (AllAccount(w, commands[..|commands| - 1]) && Accounts(Run(w, commands[..|commands| - 1]), commands[|commands| - 1]))
  }

  ghost predicate AlwaysHonest(w: World, commands: seq<Command>) {
    WorldHonest(Run(w, commands)) && (commands == [] || AlwaysHonest(w, commands[..|commands| - 1]))
  }

  /** The runs in which every visible body is always backed are exactly those whose imports all
      account for theirs. */
  lemma {:induction false} AlwaysHonestExactly(commands: seq<Command>)
    requires AllListed(EMPTY_ARCHIVE, commands)
    ensures AlwaysHonest(EMPTY_ARCHIVE, commands) <==> AllAccount(EMPTY_ARCHIVE, commands)
  {
    if commands != [] {
      var before := commands[..|commands| - 1];
      AlwaysHonestExactly(before);
      if AlwaysHonest(EMPTY_ARCHIVE, before) {
        assert WorldHonest(Run(EMPTY_ARCHIVE, before));
        NextStaysHonestExactly(Run(EMPTY_ARCHIVE, before), commands[|commands| - 1]);
      }
    }
  }

  // ------------------------------------------------------------------ a body exposed

  /** A conversation and one message in it. */
  function OneMessageOf(m: MessageRecord, namespace: Text, sourceKey: Text): seq<ImportRecord> {
    [ConversationRecord(m.conversationKey, namespace, sourceKey)] + [AMessage(m)]
  }

  /** A message alone is never refused: if it replies to anything that is imported, then to itself. */
  lemma OneMessageIsAccepted(s: Session, ctx: Ctx, m: MessageRecord, namespace: Text, sourceKey: Text)
    requires AtStart(s) && AllRowsFit(s.rows)
    ensures ImportFrom(s, ctx, [], OneMessageOf(m, namespace, sourceKey)).Some?
  {
    var records := OneMessageOf(m, namespace, sourceKey);
    assert records[1..] == [AMessage(m)] && records[1..][1..] == [];
    assert MessagesOf(records[1..]) == [m];
    var conversations := StepConversations(map[], ctx, records[0]);
    forall k ensures SourceOf(map[], ctx, records, k) == SourceIn(conversations, [m], k) {
      assert SourceOf(conversations, ctx, records[1..], k) == SourceIn(conversations, [m], k);
    }
    forall k ensures SourceIn(conversations, [m], k).Some? ==> k == m.stableKey {
      OneSource(conversations, m, k);
    }
    RepliesAreResolved(s, ctx, records);
  }

  lemma OneMessageArrives(s: Session, ctx: Ctx, m: MessageRecord, namespace: Text, sourceKey: Text)
    requires s.conversations == map[] && s.messages == map[]
    ensures var records, c := OneMessageOf(m, namespace, sourceKey), Candidate(m, SourceConv(ctx.account, namespace, sourceKey));
            ArrivalsAt(s, ctx, [], records) == [Arrival(c, KeyFor(OccupiedBy(s.rows), c))]
  {
    var records, c := OneMessageOf(m, namespace, sourceKey), Candidate(m, SourceConv(ctx.account, namespace, sourceKey));
    assert records[1..] == [AMessage(m)] && records[1..][1..] == [];
    assert Met(StepConversations(map[], ctx, records[0]), ctx, records[1..]) == [c];
    assert Candidates(map[], []) + Met(map[], ctx, records) == [c];
    assert [c][..0] == [];
  }

  function ImportOf(ctx: Ctx, m: MessageRecord, namespace: Text, sourceKey: Text): Command {
    ImportJob(ctx.job, ctx.account, ctx.snapshot, ctx.observedAt, ctx.live, InStream([OneMessageOf(m, namespace, sourceKey)]))
  }

  /** What one message leaves of an archive without messages. */
  lemma FirstMessage(w: World, ctx: Ctx, m: MessageRecord, namespace: Text, sourceKey: Text) returns (c: Candidate)
    requires Fits(w.jobs, ctx) && w.rows == map[] && w.ledger == map[]
    ensures c == Candidate(m, SourceConv(ctx.account, namespace, sourceKey))
    ensures var w' := Next(w, ImportOf(ctx, m, namespace, sourceKey));
            && w'.jobs == w.jobs
            && ShowsOf(w'.rows) == map[Base(m.stableKey) := Show(m.body, ctx.eligible)]
            && w'.ledger == map[ObsIdFor(ctx, c) := ObsFor(ctx, c, Base(m.stableKey))]
  {
    c := Candidate(m, SourceConv(ctx.account, namespace, sourceKey));
    var records := OneMessageOf(m, namespace, sourceKey);
    OneStreamIsRead(records);
    OneMessageIsAccepted(StartOf(w), ctx, m, namespace, sourceKey);
    OneMessageArrives(StartOf(w), ctx, m, namespace, sourceKey);
    ImportShows(StartOf(w), ctx, [], records);
    var arrivals := [Arrival(c, Base(m.stableKey))];
    assert arrivals[..0] == [];
    assert ShowAll(map[], ctx, arrivals) == ShowOne(map[], ctx, arrivals[0]);
    assert RecordAll(map[], ctx, arrivals) == RecordOne(map[], ctx, arrivals[0]);
    assert ContextOf(w, ImportOf(ctx, m, namespace, sourceKey)) == ctx;
  }

  lemma OneStreamIsRead(records: seq<ImportRecord>)
    ensures OrderedRecords(InStream([records])) == records
  {
    assert Flatten([records]) == records + Flatten([records][1..]);
  }

  lemma FirstIsPlaced(w: World, ctx: Ctx, m: MessageRecord, namespace: Text, sourceKey: Text)
    requires Fits(w.jobs, ctx) && w.rows == map[] && w.ledger == map[]
    ensures var w' := Next(w, ImportOf(ctx, m, namespace, sourceKey));
            Base(m.stableKey) in w'.rows && w'.rows[Base(m.stableKey)].source == Some(SourceConv(ctx.account, namespace, sourceKey))
  {
    var c := FirstMessage(w, ctx, m, namespace, sourceKey);
    var w' := Next(w, ImportOf(ctx, m, namespace, sourceKey));
    NextKeepsMessages(w, ImportOf(ctx, m, namespace, sourceKey));
    assert ObsIdFor(ctx, c) in w'.ledger && w'.ledger[ObsIdFor(ctx, c)].message == Base(m.stableKey);
    assert PlacedIn(w'.rows, m.stableKey, c.source, Base(m.stableKey));
  }

  /** A hidden body that no eligible observation holds is not accounted for by a bare message. */
  lemma BareArrival(shows: Shows, ledger: Ledger, ctx: Ctx, arrivals: seq<Arrival>)
    requires |arrivals| == 1 && arrivals[0].c.record.body.None? && ctx.eligible
    requires arrivals[0].key in shows && shows[arrivals[0].key].body.Some?
    requires forall id :: id in ledger ==> !ledger[id].eligible
    ensures !BodiesAccounted(shows, ledger, ctx, arrivals)
  {
    assert arrivals[..0] == [] && LastBody(arrivals[..0], arrivals[0].key) == None;
    assert arrivals[0] in arrivals;
  }

  /** An excluded import brings a message with a body, then an eligible one brings it without:
      the message is shown with the excluded body. */
  lemma ExcludedBodyIsExposed(w: World, hidden: Ctx, visible: Ctx, m: MessageRecord, namespace: Text, sourceKey: Text)
    requires w.rows == map[] && w.ledger == map[] && Fits(w.jobs, hidden) && Fits(w.jobs, visible)
    requires !hidden.eligible && visible.eligible && hidden.account == visible.account && m.body.Some?
    ensures var w1 := Next(w, ImportOf(hidden, m, namespace, sourceKey));
            && WorldHonest(w1)
            && !WorldHonest(Next(w1, ImportOf(visible, m.(body := None), namespace, sourceKey)))
  {
    var c := FirstMessage(w, hidden, m, namespace, sourceKey);
    var w1, bare := Next(w, ImportOf(hidden, m, namespace, sourceKey)), m.(body := None);
    var key := Base(m.stableKey);
    assert key in ShowsOf(w1.rows) && !ShowsOf(w1.rows)[key].materialized;
    FirstIsPlaced(w, hidden, m, namespace, sourceKey);
    assert WorldHonest(w1);
    var records := OneMessageOf(bare, namespace, sourceKey);
    OneStreamIsRead(records);
    NextStaysFit(w, ImportOf(hidden, m, namespace, sourceKey));
    OneMessageIsAccepted(StartOf(w1), visible, bare, namespace, sourceKey);
    OneMessageArrives(StartOf(w1), visible, bare, namespace, sourceKey);
    var arrivals := ArrivalsAt(StartOf(w1), visible, [], records);
    assert |arrivals| == 1 && arrivals[0].c.record == bare && arrivals[..0] == [];
    assert arrivals[0].key == key;
    BareArrival(ShowsOf(w1.rows), w1.ledger, visible, arrivals);
    assert ContextOf(w1, ImportOf(visible, bare, namespace, sourceKey)) == visible;
    NextStaysHonestExactly(w1, ImportOf(visible, bare, namespace, sourceKey));
  }
}
