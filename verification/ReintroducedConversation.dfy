/** Streams that file a conversation key under two sources: inputs on which a revision is
    shown although no observation backs it. */
module ReintroducedConversation {
  import opened Basics
  import opened ArchiveRows
  import opened TextImport
  import opened ReplyResolution
  import opened RepeatedKeys
  import opened ReplyConstraint
  import opened CachedView
  import opened CachedRevisions
  import opened Eligibility
  import opened ArchiveRuns

  /** A message that replies to none, a revision of it, and the two sources of its conversation. */
  datatype Story = Story(jobs: Jobs, ctx: Ctx, m: MessageRecord, r: RevisionRecord, first: Text, second: Text) {
    predicate Valid() {
      Fits(jobs, ctx) && r.key.messageKey == m.stableKey && first != second && ReplyKey(m).None?
    }

    function Source(key: Text): SourceConv {
      SourceConv(ctx.account, 1, key)
    }

    function Introduce(key: Text): ImportRecord {
      ConversationRecord(m.conversationKey, 1, key)
    }

    function Rest(): seq<ImportRecord> {
      [AMessage(m), ARevision(r)]
    }

    function Refiled(): seq<ImportRecord> {
      [Introduce(second)] + ([ARevision(r)] + Rest())
    }

    function Records(): seq<ImportRecord> {
      [Introduce(first)] + ([AMessage(m)] + Refiled())
    }

    /** The conversation has this source. */
    predicate In(s: Session, key: Text) {
      m.conversationKey in s.conversations && s.conversations[m.conversationKey] == Source(key)
    }

    /** The message has been filed under this source. */
    predicate Filed(s: Session, key: Text) {
      SourceAt(s.messages, m.stableKey) == Some((Source(key), m.conversationKey)) && m.conversationKey in s.conversations
    }
  }

  /** The archive's invariant, and no reply waits. */
  ghost predicate Calm(t: Story, s: Session) {
    SessionInv(t.jobs, s) && Consistent(s) && s.pending == map[]
  }

  lemma LoneMessageIsAccepted(s: Session, ctx: Ctx, m: MessageRecord)
    requires Consistent(s) && s.pending == map[] && ReplyKey(m).None?
    ensures PersistBatch(s, ctx, [m]).Some? && PersistBatch(s, ctx, [m]).value.pending == map[]
  {
    var cands := Candidates(s.conversations, [m]);
    NoMoreCandidates(s.conversations, [m]);
    if cands != [] {
      var keys := Keys(OccupiedBy(s.rows), cands);
      var messages := SeenAfter(s.messages, cands, keys);
      AcceptsExactly(s, ctx, [m], cands, keys);
      assert BatchFits(s, ctx, [m], cands, keys);
      assert [m][..0] == [] && WakeAll((Upserted(s, ctx, cands, keys), s.pending), messages, [m]).1 == map[];
    }
  }

  lemma MessageIsFiled(t: Story, s: Session, key: Text) returns (s': Session)
    requires t.Valid() && Calm(t, s) && t.In(s, key)
    ensures PersistBatch(s, t.ctx, [t.m]) == Some(s')
    ensures Calm(t, s') && t.Filed(s', key) && Extends(s.rows, s'.rows) && s'.conversations == s.conversations
  {
    assert [t.m][..0] == [];
    LoneMessageIsAccepted(s, t.ctx, t.m);
    s' := PersistBatch(s, t.ctx, [t.m]).value;
    BatchSource(s, t.ctx, [t.m], t.m.stableKey);
    BatchKeepsLedger(t.jobs, s, t.ctx, [t.m]);
    BatchStaysConsistent(s, t.ctx, [t.m]);
  }

  lemma FlushNothing(s: Session, ctx: Ctx)
    ensures PersistBatch(s, ctx, []) == Some(s)
  {
  }

  // ------------------------------------------------- the import, record by record

  function TouchesAt(s: Session, ctx: Ctx, buffer: seq<MessageRecord>, records: seq<ImportRecord>): seq<Touch> {
    Touches(NamingOf(s), s.conversations, ctx, buffer, records)
  }

  lemma MeetMessage(s: Session, ctx: Ctx, m: MessageRecord, rest: seq<ImportRecord>)
    ensures ImportFrom(s, ctx, [], [AMessage(m)] + rest) == ImportFrom(s, ctx, [m], rest)
    ensures TouchesAt(s, ctx, [], [AMessage(m)] + rest) == TouchesAt(s, ctx, [m], rest)
  {
    var records := [AMessage(m)] + rest;
    assert records[1..] == rest && [] + [m] == [m];
    assert After(s, ctx, [], records[0]) == Some((s, [m]));
    ImportUnfolds(s, ctx, [], records);
  }

  lemma MeetConversation(s: Session, ctx: Ctx, buffer: seq<MessageRecord>, s': Session, r: ImportRecord, rest: seq<ImportRecord>)
    requires PersistBatch(s, ctx, buffer) == Some(s') && r.ConversationRecord?
    ensures ImportFrom(s, ctx, buffer, [r] + rest) == ImportFrom(PersistConversation(s', ctx, r), ctx, [], rest)
    ensures TouchesAt(s, ctx, buffer, [r] + rest) == TouchesAt(PersistConversation(s', ctx, r), ctx, [], rest)
  {
    var records := [r] + rest;
    assert records[1..] == rest;
    BatchNames(s, ctx, buffer);
    BatchLeaves(s, ctx, buffer);
    assert After(s, ctx, buffer, records[0]) == Some((PersistConversation(s', ctx, r), []));
    ImportUnfolds(s, ctx, buffer, records);
  }

  lemma MeetRevision(s: Session, ctx: Ctx, buffer: seq<MessageRecord>, s': Session, r: RevisionRecord, rest: seq<ImportRecord>)
    returns (next: Session)
    requires PersistBatch(s, ctx, buffer) == Some(s')
    requires r.key.messageKey in s'.messages && s'.messages[r.key.messageKey].conversation in s'.conversations
    ensures next.rows == s'.rows && next.ledger == s'.ledger && next.messages == s'.messages && next.conversations == s'.conversations && next.pending == s'.pending
    ensures ImportFrom(s, ctx, buffer, [ARevision(r)] + rest) == ImportFrom(next, ctx, [], rest)
    ensures TouchesAt(s, ctx, buffer, [ARevision(r)] + rest) == [TouchOf(s'.messages, s'.conversations, ctx, r)] + TouchesAt(next, ctx, [], rest)
  {
    var records := [ARevision(r)] + rest;
    next := PersistRevision(s', ctx, r);
    assert records[1..] == rest;
    BatchNames(s, ctx, buffer);
    BatchLeaves(s, ctx, buffer);
    assert After(s, ctx, buffer, records[0]) == Some((next, []));
    ImportUnfolds(s, ctx, buffer, records);
  }

  // --------------------------------------------------------------------- the touches

  /** Two revisions that ask for one observation key. */
  ghost predicate SharesKey(touches: seq<Touch>) {
    |touches| == 2 && touches[0].obsId == touches[1].obsId && touches[0].id != touches[1].id
  }

  /** The message comes once more, and its revision. */
  lemma RestTouches(t: Story, s: Session) returns (s': Session)
    requires t.Valid() && Calm(t, s) && t.In(s, t.second)
    ensures SeenPlaced(s'.rows, s'.messages) && t.Filed(s', t.second) && t.In(s', t.second) && Extends(s.rows, s'.rows)
    ensures ImportFrom(s, t.ctx, [], t.Rest()).Some? && TouchesAt(s, t.ctx, [], t.Rest()) == [TouchOf(s'.messages, s'.conversations, t.ctx, t.r)]
  {
    s' := MessageIsFiled(t, s, t.second);
    assert t.Rest() == [AMessage(t.m)] + ([ARevision(t.r)] + []);
    MeetMessage(s, t.ctx, t.m, [ARevision(t.r)] + []);
    var next := MeetRevision(s, t.ctx, [t.m], s', t.r, []);
    FlushNothing(next, t.ctx);
  }

  lemma FiledApart(t: Story, s: Session, s': Session, touches: seq<Touch>)
    requires t.Valid() && SeenPlaced(s.rows, s.messages) && SeenPlaced(s'.rows, s'.messages) && Extends(s.rows, s'.rows)
    requires t.Filed(s, t.first) && t.Filed(s', t.second) && t.In(s, t.second) && t.In(s', t.second)
    requires touches == [TouchOf(s.messages, s.conversations, t.ctx, t.r)] + [TouchOf(s'.messages, s'.conversations, t.ctx, t.r)]
    ensures SharesKey(touches)
  {
    assert PlacedIn(s.rows, t.m.stableKey, t.Source(t.first), s.messages[t.m.stableKey].id);
    assert PlacedIn(s'.rows, t.m.stableKey, t.Source(t.second), s'.messages[t.m.stableKey].id);
  }

  lemma SameTables(t: Story, s: Session, next: Session)
    requires Calm(t, s)
    requires next.rows == s.rows && next.ledger == s.ledger && next.messages == s.messages && next.pending == s.pending
    ensures Calm(t, next)
  {
  }

  /** The revision of the message as filed first, then the rest. */
  lemma RevisionTouches(t: Story, s: Session)
    requires t.Valid() && Calm(t, s) && t.Filed(s, t.first) && t.In(s, t.second)
    ensures ImportFrom(s, t.ctx, [], [ARevision(t.r)] + t.Rest()).Some?
    ensures SharesKey(TouchesAt(s, t.ctx, [], [ARevision(t.r)] + t.Rest()))
  {
    FlushNothing(s, t.ctx);
    var next := MeetRevision(s, t.ctx, [], s, t.r, t.Rest());
    SameTables(t, s, next);
    var s' := RestTouches(t, next);
    FiledApart(t, s, s', [TouchOf(s.messages, s.conversations, t.ctx, t.r)] + TouchesAt(next, t.ctx, [], t.Rest()));
  }

  /** With the message still buffered, its conversation is filed anew. */
  lemma RefiledTouches(t: Story, s: Session)
    requires t.Valid() && Calm(t, s) && t.In(s, t.first)
    ensures ImportFrom(s, t.ctx, [t.m], t.Refiled()).Some? && SharesKey(TouchesAt(s, t.ctx, [t.m], t.Refiled()))
  {
    var s' := MessageIsFiled(t, s, t.first);
    MeetConversation(s, t.ctx, [t.m], s', t.Introduce(t.second), [ARevision(t.r)] + t.Rest());
    var next := PersistConversation(s', t.ctx, t.Introduce(t.second));
    SameTables(t, s', next);
    RevisionTouches(t, next);
  }

  lemma StoryTouches(t: Story, s: Session)
    requires t.Valid() && Calm(t, s)
    ensures ImportFrom(s, t.ctx, [], t.Records()).Some? && SharesKey(TouchesAt(s, t.ctx, [], t.Records()))
  {
    var s' := PersistConversation(s, t.ctx, t.Introduce(t.first));
    FlushNothing(s, t.ctx);
    MeetConversation(s, t.ctx, [], s, t.Introduce(t.first), [AMessage(t.m)] + t.Refiled());
    MeetMessage(s', t.ctx, t.m, t.Refiled());
    RefiledTouches(t, s');
  }

  /** The second revision finds its observation key taken by the first. */
  lemma SecondIsUnrecorded(revLedger: RevLedger, touches: seq<Touch>)
    requires SharesKey(touches)
    ensures !Recorded(revLedger, touches, touches[1].id)
  {
    forall i | 0 <= i < |touches| && touches[i].id == touches[1].id ensures !Records(revLedger, touches, i) {
      assert i == 1;
    }
  }

  /** One eligible import into a new archive shows a revision that no observation backs when
      its stream introduces the conversation again, under a second source, before a revision
      of its message and before the message itself comes a second time. */
  lemma ReintroducedConversationShowsUnbacked(t: Story, w: World, c: Command)
    requires t.Valid() && t.ctx.eligible
    requires w == World(t.jobs, map[], map[], map[], map[], map[], map[])
    requires c == ImportJob(t.ctx.job, t.ctx.account, t.ctx.snapshot, t.ctx.observedAt, t.ctx.live, InStream([t.Records()]))
    ensures Listed(w, c) && WorldShown(w) && !WorldShown(Next(w, c))
  {
    assert Flatten([t.Records()]) == t.Records() + Flatten([t.Records()][1..]);
    assert OrderedRecords(c.source) == t.Records();
    StoryTouches(t, StartOf(w));
    var touches := TouchesAt(StartOf(w), t.ctx, [], t.Records());
    SecondIsUnrecorded(w.revLedger, touches);
    assert touches[1] in touches && !RevBacked(w.revLedger, touches[1].id);
    NextStaysShownExactly(w, c);
  }
}
