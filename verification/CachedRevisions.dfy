/** The revision rows are a cached view of their observations too, except where an import asks
    for an observation key that another revision holds: exactly when that is. */
module CachedRevisions {
  import opened Basics
  import opened TextImport
  import opened ReplyResolution
  import opened RepeatedKeys
  import opened CachedView

  ghost predicate RevBacked(revLedger: RevLedger, r: RevId) {
    exists id :: id in revLedger && revLedger[id].revision == r && revLedger[id].eligible
  }

  ghost predicate RevShown(revisions: Revisions, revLedger: RevLedger) {
    forall r :: r in revisions ==> (revisions[r].materialized <==> RevBacked(revLedger, r))
  }

  predicate RevJobsAgree(jobs: Jobs, revLedger: RevLedger) {
    forall id :: id in revLedger ==> id.job in jobs && revLedger[id].eligible == jobs[id.job]
  }

  predicate RevKnown(revisions: Revisions, revLedger: RevLedger) {
    forall id :: id in revLedger ==> revLedger[id].revision in revisions
  }

  predicate RevPlaced(rows: Rows, revLedger: RevLedger) {
    forall id :: id in revLedger ==>
                   && revLedger[id].revision.key == id.key
                   && PlacedIn(rows, id.key.messageKey, id.source, revLedger[id].revision.message)
  }

  /** What imports and decisions always keep. */
  predicate RevBooks(jobs: Jobs, revisions: Revisions, revLedger: RevLedger) {
    RevJobsAgree(jobs, revLedger) && RevKnown(revisions, revLedger)
  }

  ghost predicate RevisionsInv(jobs: Jobs, s: Session) {
    RevBooks(jobs, s.revisions, s.revLedger) && RevShown(s.revisions, s.revLedger) && RevPlaced(s.rows, s.revLedger)
  }

  // ------------------------------------------------------- what an import observes

  /** Every message seen belongs to a conversation that the import has introduced. */
  predicate Introduced(s: Session) {
    forall k :: k in s.messages ==> s.messages[k].conversation in s.conversations
  }

  /** One revision record of a known message: the revision it shows, and the key under which
      it is observed. */
  datatype Touch = Touch(id: RevId, obsId: RevObsId, value: RevisionRecord)

  function TouchOf(known: Messages, conversations: Conversations, ctx: Ctx, r: RevisionRecord): Touch
    requires r.key.messageKey in known && known[r.key.messageKey].conversation in conversations
  {
    var seen := known[r.key.messageKey];
    Touch(RevId(seen.id, r.key), RevObsId(ctx.job, conversations[seen.conversation], r.key, ctx.live), r)
  }

  /** The touches of one record, once the buffer before it is flushed. */
  function StepTouches(known: Messages, conversations: Conversations, ctx: Ctx, r: ImportRecord): seq<Touch> {
    if r.ARevision? && r.revision.key.messageKey in known && known[r.revision.key.messageKey].conversation in conversations
    then [TouchOf(known, conversations, ctx, r.revision)] else []
  }

  /** What an import touches, from its records and the row keys that the table has. */
  function Touches(names: Naming, conversations: Conversations, ctx: Ctx, buffer: seq<MessageRecord>,
                   records: seq<ImportRecord>): seq<Touch>
    decreases |records|
  {
    if records == [] then []
    else
      var next := StepNaming(names, conversations, buffer, records[0]);
      StepTouches(next.known, conversations, ctx, records[0])
      + Touches(next, StepConversations(conversations, ctx, records[0]), ctx, StepBuffer(buffer, records[0]), records[1..])
  }

  function TouchRow(revisions: Revisions, ctx: Ctx, t: Touch): Revisions {
    revisions[t.id := RevisionAfter(revisions, ctx, t.id, t.value)]
  }

  function TouchLedger(revLedger: RevLedger, ctx: Ctx, t: Touch): RevLedger {
    if t.obsId in revLedger then revLedger
    else revLedger[t.obsId := RevObservation(t.id, ctx.eligible, ctx.observedAt, ctx.live, t.value)]
  }

  function RowsTouched(revisions: Revisions, ctx: Ctx, touches: seq<Touch>): Revisions
    decreases |touches|
  {
    if touches == [] then revisions else RowsTouched(TouchRow(revisions, ctx, touches[0]), ctx, touches[1..])
  }

  function LedgerTouched(revLedger: RevLedger, ctx: Ctx, touches: seq<Touch>): RevLedger
    decreases |touches|
  {
    if touches == [] then revLedger else LedgerTouched(TouchLedger(revLedger, ctx, touches[0]), ctx, touches[1..])
  }

  lemma IntroducedByAll(s: Session, s': Session)
    requires Introduced(s) && s'.conversations == s.conversations
    requires forall k :: k in s'.messages ==> SourceAt(s'.messages, k) == SourceAt(s.messages, k)
                                              || s'.messages[k].conversation in s.conversations
    ensures Introduced(s')
  {
    forall k | k in s'.messages ensures s'.messages[k].conversation in s'.conversations {
      assert SourceAt(s'.messages, k).Some?;
    }
  }

  lemma {:induction false} SourceInIntroduced(conversations: Conversations, batch: seq<MessageRecord>, key: Text)
    requires SourceIn(conversations, batch, key).Some?
    ensures var home := SourceIn(conversations, batch, key).value; home.1 in conversations && conversations[home.1] == home.0
  {
    var last := batch[|batch| - 1];
    if !(last.stableKey == key && last.conversationKey in conversations) {
      SourceInIntroduced(conversations, batch[..|batch| - 1], key);
    }
  }

  lemma BatchIntroduces(s: Session, ctx: Ctx, batch: seq<MessageRecord>)
    requires Introduced(s) && PersistBatch(s, ctx, batch).Some?
    ensures Introduced(PersistBatch(s, ctx, batch).value)
  {
    var s' := PersistBatch(s, ctx, batch).value;
    forall k | k in s'.messages
      ensures SourceAt(s'.messages, k) == SourceAt(s.messages, k) || s'.messages[k].conversation in s.conversations
    {
      BatchSource(s, ctx, batch, k);
      if SourceIn(s.conversations, batch, k).Some? {
        SourceInIntroduced(s.conversations, batch, k);
      }
    }
    BatchSource(s, ctx, batch, 0);
    IntroducedByAll(s, s');
  }

  lemma OtherTouches(s: Session, ctx: Ctx, r: ImportRecord)
    requires Introduced(s) && !r.AMessage?
    ensures var s', touches := PersistOther(s, ctx, r), StepTouches(s.messages, s.conversations, ctx, r);
            && Introduced(s')
            && s'.revisions == RowsTouched(s.revisions, ctx, touches)
            && s'.revLedger == LedgerTouched(s.revLedger, ctx, touches)
  {
    if r.ARevision? && r.revision.key.messageKey in s.messages {
      var t := TouchOf(s.messages, s.conversations, ctx, r.revision);
      assert [t][1..] == [];
    }
  }

  /** One record: the touches account for every change to the revisions. */
  lemma StepTouched(s: Session, ctx: Ctx, buffer: seq<MessageRecord>, r: ImportRecord)
    requires Introduced(s) && After(s, ctx, buffer, r).Some?
    ensures var s', touches := After(s, ctx, buffer, r).value.0,
                               StepTouches(StepNaming(NamingOf(s), s.conversations, buffer, r).known, s.conversations, ctx, r);
            && Introduced(s')
            && s'.revisions == RowsTouched(s.revisions, ctx, touches)
            && s'.revLedger == LedgerTouched(s.revLedger, ctx, touches)
  {
    if !Buffers(buffer, r) {
      var s' := PersistBatch(s, ctx, Flushed(buffer, r)).value;
      BatchLeaves(s, ctx, Flushed(buffer, r));
      BatchIntroduces(s, ctx, Flushed(buffer, r));
      BatchNames(s, ctx, Flushed(buffer, r));
      if !r.AMessage? {
        OtherTouches(s', ctx, r);
      }
    }
  }

  lemma {:induction false} TouchedConcat(revisions: Revisions, revLedger: RevLedger, ctx: Ctx, a: seq<Touch>, b: seq<Touch>)
    ensures RowsTouched(revisions, ctx, a + b) == RowsTouched(RowsTouched(revisions, ctx, a), ctx, b)
    ensures LedgerTouched(revLedger, ctx, a + b) == LedgerTouched(LedgerTouched(revLedger, ctx, a), ctx, b)
    decreases |a|
  {
    if a == [] {
      assert a + b == b;
    } else {
      assert (a + b)[1..] == a[1..] + b;
      TouchedConcat(TouchRow(revisions, ctx, a[0]), TouchLedger(revLedger, ctx, a[0]), ctx, a[1..], b);
    }
  }

  lemma {:induction false} ImportTouches(s: Session, ctx: Ctx, buffer: seq<MessageRecord>, records: seq<ImportRecord>)
    requires Introduced(s) && ImportFrom(s, ctx, buffer, records).Some?
    ensures var s', touches := ImportFrom(s, ctx, buffer, records).value, Touches(NamingOf(s), s.conversations, ctx, buffer, records);
            && s'.revisions == RowsTouched(s.revisions, ctx, touches)
            && s'.revLedger == LedgerTouched(s.revLedger, ctx, touches)
    decreases |records|
  {
    if records == [] {
      BatchLeaves(s, ctx, buffer);
    } else {
      ImportUnfolds(s, ctx, buffer, records);
      var (s', buffer') := After(s, ctx, buffer, records[0]).value;
      var names := StepNaming(NamingOf(s), s.conversations, buffer, records[0]);
      StepTouched(s, ctx, buffer, records[0]);
      StepNames(s, ctx, buffer, records[0]);
      AfterSteps(s, ctx, buffer, records[0]);
      ImportTouches(s', ctx, buffer', records[1..]);
      TouchedConcat(s.revisions, s.revLedger, ctx, StepTouches(names.known, s.conversations, ctx, records[0]),
                    Touches(names, s'.conversations, ctx, buffer', records[1..]));
    }
  }

  // ------------------------------------------------------- when the view stays exact

  /** The i-th touch is the first to ask for its observation key. */
  predicate Records(revLedger: RevLedger, touches: seq<Touch>, i: nat)
    requires i < |touches|
  {
    touches[i].obsId !in revLedger && forall j :: 0 <= j < i ==> touches[j].obsId != touches[i].obsId
  }

  /** Some touch of the revision gets an observation of its own. */
  predicate Recorded(revLedger: RevLedger, touches: seq<Touch>, id: RevId) {
    exists i :: 0 <= i < |touches| && touches[i].id == id && Records(revLedger, touches, i)
  }

  predicate Touched(touches: seq<Touch>, id: RevId) {
    exists t :: t in touches && t.id == id
  }

  lemma TouchBacks(revLedger: RevLedger, ctx: Ctx, t: Touch, id: RevId)
    ensures RevBacked(TouchLedger(revLedger, ctx, t), id)
            <==> RevBacked(revLedger, id) || (ctx.eligible && t.id == id && t.obsId !in revLedger)
  {
    var after := TouchLedger(revLedger, ctx, t);
    if o :| o in revLedger && revLedger[o].revision == id && revLedger[o].eligible {
      assert o in after && after[o] == revLedger[o];
    }
    if ctx.eligible && t.id == id && t.obsId !in revLedger {
      assert t.obsId in after && after[t.obsId].revision == id && after[t.obsId].eligible;
    }
  }

  lemma RecordedFirst(revLedger: RevLedger, ctx: Ctx, touches: seq<Touch>, id: RevId)
    requires touches != []
    ensures Recorded(revLedger, touches, id)
            <==> (touches[0].id == id && touches[0].obsId !in revLedger)
                 || Recorded(TouchLedger(revLedger, ctx, touches[0]), touches[1..], id)
  {
    var after, rest := TouchLedger(revLedger, ctx, touches[0]), touches[1..];
    forall i | 0 <= i < |rest| ensures Records(after, rest, i) <==> Records(revLedger, touches, i + 1) {
      if Records(after, rest, i) {
        forall j | 0 <= j < i + 1 ensures touches[j].obsId != touches[i + 1].obsId {
          assert j > 0 ==> touches[j] == rest[j - 1];
        }
      }
      if Records(revLedger, touches, i + 1) {
        assert forall j :: 0 <= j < i ==> rest[j] == touches[j + 1];
      }
    }
    if i :| 0 <= i < |touches| && touches[i].id == id && Records(revLedger, touches, i) {
      assert i > 0 ==> touches[i] == rest[i - 1] && Records(after, rest, i - 1);
    }
    if i :| 0 <= i < |rest| && rest[i].id == id && Records(after, rest, i) {
      assert touches[i + 1] == rest[i] && Records(revLedger, touches, i + 1);
    }
    assert touches[0].id == id && touches[0].obsId !in revLedger ==> Records(revLedger, touches, 0);
  }

  /** An import backs exactly the revisions that get an observation of their own. */
  lemma {:induction false} BackedAfter(revLedger: RevLedger, ctx: Ctx, touches: seq<Touch>, id: RevId)
    ensures RevBacked(LedgerTouched(revLedger, ctx, touches), id)
            <==> RevBacked(revLedger, id) || (ctx.eligible && Recorded(revLedger, touches, id))
    decreases |touches|
  {
    if touches != [] {
      TouchBacks(revLedger, ctx, touches[0], id);
      RecordedFirst(revLedger, ctx, touches, id);
      BackedAfter(TouchLedger(revLedger, ctx, touches[0]), ctx, touches[1..], id);
    }
  }

  /** It shows exactly those that it touches. */
  lemma {:induction false} ShownAfter(revisions: Revisions, ctx: Ctx, touches: seq<Touch>, id: RevId)
    ensures var after := RowsTouched(revisions, ctx, touches);
            && (id in after <==> id in revisions || Touched(touches, id))
            && (id in after ==>
                  (after[id].materialized
                   <==> (id in revisions && revisions[id].materialized) || (ctx.eligible && Touched(touches, id))))
    decreases |touches|
  {
    if touches != [] {
      assert Touched(touches, id) <==> touches[0].id == id || Touched(touches[1..], id) by {
        assert forall t :: t in touches <==> t == touches[0] || t in touches[1..];
      }
      ShownAfter(TouchRow(revisions, ctx, touches[0]), ctx, touches[1..], id);
    }
  }

  lemma UnknownIsUnbacked(revisions: Revisions, revLedger: RevLedger, id: RevId)
    requires RevKnown(revisions, revLedger) && id !in revisions
    ensures !RevBacked(revLedger, id)
  {
  }

  lemma {:induction false} BooksAfter(jobs: Jobs, revisions: Revisions, revLedger: RevLedger, ctx: Ctx, touches: seq<Touch>)
    requires Fits(jobs, ctx) && RevBooks(jobs, revisions, revLedger)
    requires forall t :: t in touches ==> t.obsId.job == ctx.job
    ensures RevBooks(jobs, RowsTouched(revisions, ctx, touches), LedgerTouched(revLedger, ctx, touches))
    decreases |touches|
  {
    if touches != [] {
      BooksAfter(jobs, TouchRow(revisions, ctx, touches[0]), TouchLedger(revLedger, ctx, touches[0]), ctx, touches[1..]);
    }
  }

  /** Every revision that the import shows is backed: it was before, or it is recorded. */
  ghost predicate TouchesBacked(revLedger: RevLedger, ctx: Ctx, touches: seq<Touch>) {
    ctx.eligible ==> forall t :: t in touches ==> RevBacked(revLedger, t.id) || Recorded(revLedger, touches, t.id)
  }

  lemma TouchesStayShownExactly(revisions: Revisions, revLedger: RevLedger, ctx: Ctx, touches: seq<Touch>)
    requires RevShown(revisions, revLedger) && RevKnown(revisions, revLedger)
    ensures RevShown(RowsTouched(revisions, ctx, touches), LedgerTouched(revLedger, ctx, touches))
            <==> TouchesBacked(revLedger, ctx, touches)
  {
    var rows, ledger := RowsTouched(revisions, ctx, touches), LedgerTouched(revLedger, ctx, touches);
    forall id ensures id in rows <==> id in revisions || Touched(touches, id)
      ensures id in rows ==> ((rows[id].materialized <==> RevBacked(ledger, id))
                              <==> (ctx.eligible && Touched(touches, id) ==> RevBacked(revLedger, id) || Recorded(revLedger, touches, id)))
    {
      ShownAfter(revisions, ctx, touches, id);
      BackedAfter(revLedger, ctx, touches, id);
      if id !in revisions {
        UnknownIsUnbacked(revisions, revLedger, id);
      }
    }
    forall t | t in touches ensures Touched(touches, t.id) && t.id in rows {
      assert Touched(touches, t.id);
    }
  }

  lemma {:induction false} TouchesOfJob(names: Naming, conversations: Conversations, ctx: Ctx, buffer: seq<MessageRecord>,
                                        records: seq<ImportRecord>)
    ensures forall t :: t in Touches(names, conversations, ctx, buffer, records) ==> t.obsId.job == ctx.job
    decreases |records|
  {
    if records != [] {
      TouchesOfJob(StepNaming(names, conversations, buffer, records[0]), StepConversations(conversations, ctx, records[0]), ctx,
                   StepBuffer(buffer, records[0]), records[1..]);
    }
  }

  /** An import leaves every revision shown just when it is backed, if and only if it is
      excluded, or every revision it touches is already backed or gets an observation of its
      own, not finding each of its observation keys taken. */
  lemma ImportStaysShownExactly(jobs: Jobs, s: Session, ctx: Ctx, buffer: seq<MessageRecord>, records: seq<ImportRecord>)
    requires Fits(jobs, ctx) && Introduced(s) && ImportFrom(s, ctx, buffer, records).Some?
    requires RevBooks(jobs, s.revisions, s.revLedger) && RevShown(s.revisions, s.revLedger)
    ensures var s' := ImportFrom(s, ctx, buffer, records).value;
            && RevBooks(jobs, s'.revisions, s'.revLedger)
            && (RevShown(s'.revisions, s'.revLedger) <==> TouchesBacked(s.revLedger, ctx, Touches(NamingOf(s), s.conversations, ctx, buffer, records)))
  {
    var touches := Touches(NamingOf(s), s.conversations, ctx, buffer, records);
    ImportTouches(s, ctx, buffer, records);
    TouchesOfJob(NamingOf(s), s.conversations, ctx, buffer, records);
    BooksAfter(jobs, s.revisions, s.revLedger, ctx, touches);
    TouchesStayShownExactly(s.revisions, s.revLedger, ctx, touches);
  }

  // ------------------------------------------------ revisions whose message is at home

  /** Where each message of an import is filed so far. */
  type Homes = map<Text, Home>

  predicate IsHome(conversations: Conversations, home: Home) {
    home.1 in conversations && conversations[home.1] == home.0
  }

  function HomesAfter(conversations: Conversations, homes: Homes, r: ImportRecord): Homes {
    if r.AMessage? && r.message.conversationKey in conversations
    then homes[r.message.stableKey := (conversations[r.message.conversationKey], r.message.conversationKey)] else homes
  }

  /** Each revision comes while its message's conversation still has the source under which
      the message is filed. */
  predicate AtHomeThroughout(conversations: Conversations, homes: Homes, ctx: Ctx, records: seq<ImportRecord>)
    decreases |records|
  {
    records == [] ||
    var r := records[0];
    && (r.ARevision? && r.revision.key.messageKey in homes ==> IsHome(conversations, homes[r.revision.key.messageKey]))
    && AtHomeThroughout(StepConversations(conversations, ctx, r), HomesAfter(conversations, homes, r), ctx, records[1..])
  }

  function HomeIn(homes: Homes, key: Text): Option<Home> {
    if key in homes then Some(homes[key]) else None
  }

  /** The homes are those of the messages seen and of the messages still buffered. */
  predicate Follows(s: Session, buffer: seq<MessageRecord>, homes: Homes, key: Text) {
    HomeIn(homes, key) == Coalesce(SourceIn(s.conversations, buffer, key), SourceAt(s.messages, key))
  }

  ghost predicate AllFollow(s: Session, buffer: seq<MessageRecord>, homes: Homes) {
    forall key :: Follows(s, buffer, homes, key)
  }

  lemma StepFollows(s: Session, ctx: Ctx, buffer: seq<MessageRecord>, homes: Homes, r: ImportRecord)
    requires AllFollow(s, buffer, homes) && After(s, ctx, buffer, r).Some?
    ensures var (s', buffer') := After(s, ctx, buffer, r).value; AllFollow(s', buffer', HomesAfter(s.conversations, homes, r))
  {
    var (s', buffer') := After(s, ctx, buffer, r).value;
    forall key ensures Follows(s', buffer', HomesAfter(s.conversations, homes, r), key) {
      AfterSource(s, ctx, buffer, r, key);
      assert Follows(s, buffer, homes, key);
      if r.AMessage? {
        assert [r.message][..0] == [];
      }
    }
  }

  /** The message of a revision about to be persisted is filed where its conversation is. */
  predicate OwnMessageHome(s: Session, r: RevisionRecord) {
    SourceAt(s.messages, r.key.messageKey).Some? ==> IsHome(s.conversations, SourceAt(s.messages, r.key.messageKey).value)
  }

  lemma RevisionStaysPlaced(s: Session, ctx: Ctx, r: RevisionRecord)
    requires SeenPlaced(s.rows, s.messages) && RevPlaced(s.rows, s.revLedger) && OwnMessageHome(s, r)
    ensures RevPlaced(s.rows, PersistRevision(s, ctx, r).revLedger)
  {
    if r.key.messageKey in s.messages {
      var seen := s.messages[r.key.messageKey];
      assert PlacedIn(s.rows, r.key.messageKey, seen.source, seen.id);
    }
  }

  /** An observation key that is taken belongs to the same revision: both are placed. */
  lemma RevisionStaysShown(s: Session, ctx: Ctx, r: RevisionRecord)
    requires SeenPlaced(s.rows, s.messages) && RevPlaced(s.rows, s.revLedger) && OwnMessageHome(s, r)
    requires r.key.messageKey in s.messages
    ensures s.messages[r.key.messageKey].conversation in s.conversations
    ensures var t := TouchOf(s.messages, s.conversations, ctx, r); t.obsId in s.revLedger ==> s.revLedger[t.obsId].revision == t.id
  {
    var seen := s.messages[r.key.messageKey];
    assert PlacedIn(s.rows, r.key.messageKey, seen.source, seen.id);
  }

  lemma OneTouchStaysShown(jobs: Jobs, revisions: Revisions, revLedger: RevLedger, ctx: Ctx, t: Touch)
    requires Fits(jobs, ctx) && RevBooks(jobs, revisions, revLedger) && RevShown(revisions, revLedger)
    requires t.obsId.job == ctx.job && (t.obsId in revLedger ==> revLedger[t.obsId].revision == t.id)
    ensures RevBooks(jobs, TouchRow(revisions, ctx, t), TouchLedger(revLedger, ctx, t))
    ensures RevShown(TouchRow(revisions, ctx, t), TouchLedger(revLedger, ctx, t))
  {
    assert [t][1..] == [] && [t][0] == t;
    assert RowsTouched(revisions, ctx, [t]) == TouchRow(revisions, ctx, t);
    assert LedgerTouched(revLedger, ctx, [t]) == TouchLedger(revLedger, ctx, t);
    TouchesStayShownExactly(revisions, revLedger, ctx, [t]);
    BooksAfter(jobs, revisions, revLedger, ctx, [t]);
    if t.obsId !in revLedger {
      assert Records(revLedger, [t], 0);
    } else if ctx.eligible {
      assert revLedger[t.obsId].eligible;
    }
  }

  lemma RevisionKeepsLedger(jobs: Jobs, s: Session, ctx: Ctx, r: RevisionRecord)
    requires Fits(jobs, ctx) && SeenPlaced(s.rows, s.messages) && RevisionsInv(jobs, s) && OwnMessageHome(s, r)
    ensures RevisionsInv(jobs, PersistRevision(s, ctx, r))
  {
    RevisionStaysPlaced(s, ctx, r);
    if r.key.messageKey in s.messages {
      RevisionStaysShown(s, ctx, r);
      OneTouchStaysShown(jobs, s.revisions, s.revLedger, ctx, TouchOf(s.messages, s.conversations, ctx, r));
    }
  }

  lemma BatchKeepsRevisions(jobs: Jobs, s: Session, ctx: Ctx, batch: seq<MessageRecord>)
    requires Fits(jobs, ctx) && SessionInv(jobs, s) && RevisionsInv(jobs, s) && PersistBatch(s, ctx, batch).Some?
    ensures RevisionsInv(jobs, PersistBatch(s, ctx, batch).value)
  {
    var s' := PersistBatch(s, ctx, batch).value;
    BatchKeepsLedger(jobs, s, ctx, batch);
    BatchLeaves(s, ctx, batch);
    forall id | id in s.revLedger
      ensures PlacedIn(s'.rows, id.key.messageKey, id.source, s.revLedger[id].revision.message)
    {
      PlacedSurvives(s.rows, s'.rows, id.key.messageKey, id.source, s.revLedger[id].revision.message);
    }
  }

  lemma HomeOfRevision(s: Session, ctx: Ctx, buffer: seq<MessageRecord>, homes: Homes, r: ImportRecord)
    requires AllFollow(s, buffer, homes) && r.ARevision? && PersistBatch(s, ctx, buffer).Some?
    requires r.revision.key.messageKey in homes ==> IsHome(s.conversations, homes[r.revision.key.messageKey])
    ensures OwnMessageHome(PersistBatch(s, ctx, buffer).value, r.revision)
  {
    BatchSource(s, ctx, buffer, r.revision.key.messageKey);
    assert Follows(s, buffer, homes, r.revision.key.messageKey);
  }

  lemma AfterKeepsRevisions(jobs: Jobs, s: Session, ctx: Ctx, buffer: seq<MessageRecord>, homes: Homes, r: ImportRecord)
    requires Fits(jobs, ctx) && SessionInv(jobs, s) && RevisionsInv(jobs, s) && AllFollow(s, buffer, homes)
    requires r.ARevision? && r.revision.key.messageKey in homes ==> IsHome(s.conversations, homes[r.revision.key.messageKey])
    requires After(s, ctx, buffer, r).Some?
    ensures RevisionsInv(jobs, After(s, ctx, buffer, r).value.0)
  {
    if r.AMessage? {
      if |buffer| + 1 >= MESSAGE_BATCH_SIZE {
        BatchKeepsRevisions(jobs, s, ctx, buffer + [r.message]);
      }
    } else {
      BatchKeepsLedger(jobs, s, ctx, buffer);
      BatchKeepsRevisions(jobs, s, ctx, buffer);
      if r.ARevision? {
        HomeOfRevision(s, ctx, buffer, homes, r);
        RevisionKeepsLedger(jobs, PersistBatch(s, ctx, buffer).value, ctx, r.revision);
      }
    }
  }

  /** An import whose revisions find their messages at home keeps the whole invariant. */
  lemma {:induction false} ImportKeepsRevisions(jobs: Jobs, s: Session, ctx: Ctx, buffer: seq<MessageRecord>, homes: Homes,
                                                records: seq<ImportRecord>)
    requires Fits(jobs, ctx) && SessionInv(jobs, s) && RevisionsInv(jobs, s) && AllFollow(s, buffer, homes)
    requires AtHomeThroughout(s.conversations, homes, ctx, records)
    requires ImportFrom(s, ctx, buffer, records).Some?
    ensures RevisionsInv(jobs, ImportFrom(s, ctx, buffer, records).value)
    decreases |records|
  {
    if records == [] {
      BatchKeepsRevisions(jobs, s, ctx, buffer);
    } else {
      var r := records[0];
      ImportUnfolds(s, ctx, buffer, records);
      AfterKeepsLedger(jobs, s, ctx, buffer, r);
      AfterKeepsRevisions(jobs, s, ctx, buffer, homes, r);
      AfterSteps(s, ctx, buffer, r);
      StepFollows(s, ctx, buffer, homes, r);
      var (s', buffer') := After(s, ctx, buffer, r).value;
      ImportKeepsRevisions(jobs, s', ctx, buffer', HomesAfter(s.conversations, homes, r), records[1..]);
    }
  }
}
