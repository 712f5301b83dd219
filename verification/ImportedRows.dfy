/** What an import leaves in each row and each observation, told by the records that it brings. */
module ImportedRows {
  import opened Basics
  import opened ArchiveRows
  import opened TextImport
  import opened ReplyResolution
  import opened RepeatedKeys
  import opened ReplyConstraint
  import opened Refusals
  import opened ImportRefusals
  import opened Arrivals
  import opened Materialization

  // ------------------------------------------------------------ which messages arrive

  /** Record i introduces the conversation of record j, and none in between does so again. */
  predicate Introduces(records: seq<ImportRecord>, i: nat, j: nat, key: Text) {
    && i < j < |records| && records[i].ConversationRecord? && records[i].key == key
    && forall k :: i < k < j && records[k].ConversationRecord? ==> records[k].key != key
  }

  predicate NeverIntroduced(records: seq<ImportRecord>, j: nat, key: Text)
    requires j <= |records|
  {
    forall k :: 0 <= k < j && records[k].ConversationRecord? ==> records[k].key != key
  }

  /** Record j is the message, and this is its conversation's source by then. */
  predicate MetAt(conversations: Conversations, ctx: Ctx, records: seq<ImportRecord>, j: nat, c: Candidate) {
    var key := c.record.conversationKey;
    && j < |records| && records[j] == AMessage(c.record)
    && ((exists i :: 0 <= i < j && Introduces(records, i, j, key)
                     && c.source == SourceConv(ctx.account, records[i].namespace, records[i].sourceKey))
        || (NeverIntroduced(records, j, key) && key in conversations && c.source == conversations[key]))
  }

  lemma MetShifts(conversations: Conversations, ctx: Ctx, records: seq<ImportRecord>, j: nat, c: Candidate)
    requires 0 < j < |records|
    ensures MetAt(conversations, ctx, records, j, c)
            <==> MetAt(StepConversations(conversations, ctx, records[0]), ctx, records[1..], j - 1, c)
  {
    var key, rest := c.record.conversationKey, records[1..];
    forall i | 0 < i < j ensures Introduces(records, i, j, key) <==> Introduces(rest, i - 1, j - 1, key) {
      assert forall k :: i < k < j ==> records[k] == rest[k - 1];
      assert forall k :: i - 1 < k < j - 1 ==> rest[k] == records[k + 1];
    }
    assert NeverIntroduced(rest, j - 1, key) <==> forall k :: 0 < k < j && records[k].ConversationRecord? ==> records[k].key != key by {
      assert forall k :: 0 < k < j ==> records[k] == rest[k - 1];
      assert forall k :: 0 <= k < j - 1 ==> rest[k] == records[k + 1];
    }
    if i :| 0 < i < j && Introduces(records, i, j, key)
            && c.source == SourceConv(ctx.account, records[i].namespace, records[i].sourceKey) {
      assert rest[i - 1] == records[i];
    }
    if i :| 0 <= i < j - 1 && Introduces(rest, i, j - 1, key)
            && c.source == SourceConv(ctx.account, rest[i].namespace, rest[i].sourceKey) {
      assert records[i + 1] == rest[i] && Introduces(records, i + 1, j, key);
    }
    if Introduces(records, 0, j, key) {
      assert NeverIntroduced(rest, j - 1, key);
    }
    if NeverIntroduced(rest, j - 1, key) && records[0].ConversationRecord? && records[0].key == key {
      assert Introduces(records, 0, j, key);
    }
  }

  /** Exactly the messages whose conversation has been introduced before them arrive, each with
      the source of the last introduction. */
  lemma {:induction false} MetExactly(conversations: Conversations, ctx: Ctx, records: seq<ImportRecord>, c: Candidate)
    ensures c in Met(conversations, ctx, records) <==> exists j :: 0 <= j < |records| && MetAt(conversations, ctx, records, j, c)
    decreases |records|
  {
    if records != [] {
      var conversations' := StepConversations(conversations, ctx, records[0]);
      MetExactly(conversations', ctx, records[1..], c);
      forall j | 0 < j < |records|
        ensures MetAt(conversations, ctx, records, j, c) <==> MetAt(conversations', ctx, records[1..], j - 1, c)
      {
        MetShifts(conversations, ctx, records, j, c);
      }
      if j :| 0 <= j < |records| - 1 && MetAt(conversations', ctx, records[1..], j, c) {
        assert MetAt(conversations, ctx, records, j + 1, c);
      }
      assert MetAt(conversations, ctx, records, 0, c)
             <==> records[0] == AMessage(c.record) && c.record.conversationKey in conversations
                  && c.source == conversations[c.record.conversationKey];
    }
  }

  // -------------------------------------------------------------- first and last of a key

  predicate Arrives(arrivals: seq<Arrival>, m: MsgKey) {
    exists i :: 0 <= i < |arrivals| && arrivals[i].key == m
  }

  /** The first to arrive under the key. */
  predicate IsFirst(arrivals: seq<Arrival>, m: MsgKey, i: int) {
    0 <= i < |arrivals| && arrivals[i].key == m && forall j :: 0 <= j < i ==> arrivals[j].key != m
  }

  predicate IsLast(arrivals: seq<Arrival>, m: MsgKey, i: int) {
    0 <= i < |arrivals| && arrivals[i].key == m && forall j :: i < j < |arrivals| ==> arrivals[j].key != m
  }

  /** The last that has this field. */
  predicate IsLastWith(arrivals: seq<Arrival>, m: MsgKey, name: Text, i: int) {
    && 0 <= i < |arrivals| && arrivals[i].key == m && name in arrivals[i].c.record.fields
    && forall j :: i < j < |arrivals| && arrivals[j].key == m ==> name !in arrivals[j].c.record.fields
  }

  // ----------------------------------------------------------------- the rows, told

  predicate TimeTold(sentAt: Option<Time>, timestamp: Timestamp) {
    if timestamp.At? then sentAt == Some(timestamp.time) else sentAt == None
  }

  /** What a row has of the message that made it. */
  predicate ComesFrom(row: MessageRow, ctx: Ctx, c: Candidate) {
    && row.source == Some(c.source) && row.sourceType == c.record.sourceNamespace && row.sourceKey == c.record.sourceValue
    && TimeTold(row.sentAt, c.record.timestamp)
    && row.firstSeenAt == ctx.observedAt && row.metadata.firstSeen == Some(ctx.snapshot)
  }

  /** A merge leaves all that the row had of its origin. */
  predicate SameOrigin(row: MessageRow, before: MessageRow) {
    && row.source == before.source && row.sourceType == before.sourceType && row.sourceKey == before.sourceKey
    && row.sentAt == before.sentAt && row.firstSeenAt == before.firstSeenAt
    && (before.metadata.firstSeen.Some? ==> row.metadata.firstSeen == before.metadata.firstSeen)
  }

  /** What a row has of the message that came last. */
  predicate LastCame(row: MessageRow, ctx: Ctx, c: Candidate) {
    && row.messageType == c.record.messageKind && row.lastSeenAt == ctx.observedAt
    && row.metadata.lastSeen == Some(ctx.snapshot) && row.materialized == ctx.eligible
  }

  predicate IsTombOf(row: MessageRow, ctx: Ctx, d: Deletion) {
    && row.deletedAt == Some(if d.observedAt == None then ctx.observedAt else d.observedAt.value)
    && row.deletionKey == Some(d.eventKey) && row.deletionMetadata == Some(d.metadata)
  }

  predicate SameTomb(row: MessageRow, before: MessageRow) {
    row.deletedAt == before.deletedAt && row.deletionKey == before.deletionKey && row.deletionMetadata == before.deletionMetadata
  }

  /** Content is unavailable just while the message is deleted and has no body. */
  predicate Lawful(row: MessageRow) {
    && (row.contentUnavailable <==> row.sourceDeleted && row.body == None)
    && (row.sourceDeleted <==> row.deletedAt != None)
  }

  /** An excluded import's new row is the message itself. */
  predicate IsMessage(row: MessageRow, ctx: Ctx, r: MessageRecord) {
    && row.messageType == r.messageKind && row.body == r.body && row.metadata.fields == r.fields
    && row.lastSeenAt == ctx.observedAt && row.metadata.lastSeen == Some(ctx.snapshot) && !row.materialized
    && (row.sourceDeleted <==> r.deletion != None)
    && (if r.deletion == None then row.deletedAt == None && row.deletionKey == None && row.deletionMetadata == None
        else IsTombOf(row, ctx, r.deletion.value))
  }

  /** A row's origin is the first message of its key. */
  ghost predicate Originates(row: MessageRow, ctx: Ctx, arrivals: seq<Arrival>, m: MsgKey) {
    exists i :: IsFirst(arrivals, m, i) && ComesFrom(row, ctx, arrivals[i].c)
                && (!ctx.eligible ==> IsMessage(row, ctx, arrivals[i].c.record))
  }

  lemma OriginatesLater(row: MessageRow, row': MessageRow, ctx: Ctx, arrivals: seq<Arrival>, m: MsgKey)
    requires arrivals != [] && Originates(row, ctx, arrivals[..|arrivals| - 1], m)
    requires SameOrigin(row', row) && (!ctx.eligible ==> row' == row)
    ensures Originates(row', ctx, arrivals, m)
  {
    var init := arrivals[..|arrivals| - 1];
    var i :| IsFirst(init, m, i) && ComesFrom(row, ctx, init[i].c) && (!ctx.eligible ==> IsMessage(row, ctx, init[i].c.record));
    assert forall j :: 0 <= j <= i ==> arrivals[j] == init[j];
    assert IsFirst(arrivals, m, i) && arrivals[i] == init[i];
  }

  lemma OriginatesNow(ctx: Ctx, arrivals: seq<Arrival>, m: MsgKey)
    requires arrivals != [] && arrivals[|arrivals| - 1].key == m && !Arrives(arrivals[..|arrivals| - 1], m)
    ensures Originates(Proposed(ctx, arrivals[|arrivals| - 1].c), ctx, arrivals, m)
  {
    var n := |arrivals| - 1;
    forall j | 0 <= j < n ensures arrivals[j].key != m {
      assert arrivals[..n][j] == arrivals[j];
    }
    assert IsFirst(arrivals, m, n);
  }

  lemma ArrivesWithLast(arrivals: seq<Arrival>, m: MsgKey)
    requires arrivals != []
    ensures Arrives(arrivals, m) <==> Arrives(arrivals[..|arrivals| - 1], m) || arrivals[|arrivals| - 1].key == m
  {
    assert forall i :: 0 <= i < |arrivals| - 1 ==> arrivals[..|arrivals| - 1][i] == arrivals[i];
  }

  lemma {:induction false} RowsComeFromFirst(bare: Rows, ctx: Ctx, arrivals: seq<Arrival>, m: MsgKey)
    ensures var after := MergeAll(bare, ctx, arrivals);
            && (m in after <==> m in bare || Arrives(arrivals, m))
            && (m in bare ==> SameOrigin(after[m], bare[m]))
            && (m in bare && (!ctx.eligible || !Arrives(arrivals, m)) ==> after[m] == bare[m])
            && (m !in bare && Arrives(arrivals, m) ==> Originates(after[m], ctx, arrivals, m))
  {
    if arrivals != [] {
      var n := |arrivals| - 1;
      var before, after := MergeAll(bare, ctx, arrivals[..n]), MergeAll(bare, ctx, arrivals);
      RowsComeFromFirst(bare, ctx, arrivals[..n], m);
      ArrivesWithLast(arrivals, m);
      if m !in bare && Arrives(arrivals[..n], m) {
        OriginatesLater(before[m], after[m], ctx, arrivals, m);
      } else if m !in bare && arrivals[n].key == m {
        OriginatesNow(ctx, arrivals, m);
      }
    }
  }

  ghost predicate ShowsLast(row: MessageRow, ctx: Ctx, arrivals: seq<Arrival>, m: MsgKey) {
    exists i :: IsLast(arrivals, m, i) && LastCame(row, ctx, arrivals[i].c)
  }

  lemma ShowsLastStill(row: MessageRow, ctx: Ctx, arrivals: seq<Arrival>, m: MsgKey)
    requires arrivals != [] && arrivals[|arrivals| - 1].key != m && ShowsLast(row, ctx, arrivals[..|arrivals| - 1], m)
    ensures ShowsLast(row, ctx, arrivals, m)
  {
    var init := arrivals[..|arrivals| - 1];
    var i :| IsLast(init, m, i) && LastCame(row, ctx, init[i].c);
    assert forall j :: 0 <= j < |init| ==> arrivals[j] == init[j];
    assert IsLast(arrivals, m, i) && arrivals[i] == init[i];
  }

  lemma {:induction false} RowsShowLast(bare: Rows, ctx: Ctx, arrivals: seq<Arrival>, m: MsgKey)
    requires ctx.eligible && Arrives(arrivals, m)
    ensures m in MergeAll(bare, ctx, arrivals) && ShowsLast(MergeAll(bare, ctx, arrivals)[m], ctx, arrivals, m)
  {
    var n := |arrivals| - 1;
    ArrivesWithLast(arrivals, m);
    if arrivals[n].key == m {
      assert IsLast(arrivals, m, n);
    } else {
      RowsShowLast(bare, ctx, arrivals[..n], m);
      ShowsLastStill(MergeAll(bare, ctx, arrivals)[m], ctx, arrivals, m);
    }
  }

  ghost predicate Brings(arrivals: seq<Arrival>, m: MsgKey, name: Text) {
    exists i :: IsLastWith(arrivals, m, name, i)
  }

  predicate HadField(bare: Rows, m: MsgKey, name: Text) {
    m in bare && name in bare[m].metadata.fields
  }

  /** Each field is that of the last message that has it, or was there before. */
  ghost predicate FieldTold(row: MessageRow, bare: Rows, arrivals: seq<Arrival>, m: MsgKey, name: Text) {
    && (name in row.metadata.fields <==> HadField(bare, m, name) || Brings(arrivals, m, name))
    && (forall i :: IsLastWith(arrivals, m, name, i) && name in row.metadata.fields ==>
                      row.metadata.fields[name] == arrivals[i].c.record.fields[name])
    && (!Brings(arrivals, m, name) && HadField(bare, m, name) && name in row.metadata.fields ==>
          row.metadata.fields[name] == bare[m].metadata.fields[name])
  }

  lemma LastWithMoves(arrivals: seq<Arrival>, m: MsgKey, name: Text)
    requires arrivals != []
    ensures var n := |arrivals| - 1;
            if arrivals[n].key == m && name in arrivals[n].c.record.fields
            then forall i :: IsLastWith(arrivals, m, name, i) <==> i == n
            else forall i :: IsLastWith(arrivals, m, name, i) <==> IsLastWith(arrivals[..n], m, name, i)
  {
    var n := |arrivals| - 1;
    forall i ensures !(arrivals[n].key == m && name in arrivals[n].c.record.fields)
                     ==> (IsLastWith(arrivals, m, name, i) <==> IsLastWith(arrivals[..n], m, name, i))
    {
      assert forall j :: 0 <= j < n ==> arrivals[..n][j] == arrivals[j];
    }
  }

  lemma {:induction false} FieldsAreUnited(bare: Rows, ctx: Ctx, arrivals: seq<Arrival>, m: MsgKey, name: Text)
    requires ctx.eligible
    ensures m in MergeAll(bare, ctx, arrivals) ==> FieldTold(MergeAll(bare, ctx, arrivals)[m], bare, arrivals, m, name)
    ensures m !in MergeAll(bare, ctx, arrivals) ==> m !in bare && !Arrives(arrivals, m)
  {
    if arrivals != [] {
      var n := |arrivals| - 1;
      var before, after := MergeAll(bare, ctx, arrivals[..n]), MergeAll(bare, ctx, arrivals);
      FieldsAreUnited(bare, ctx, arrivals[..n], m, name);
      ArrivesWithLast(arrivals, m);
      if m in after {
        FieldTaken(before, after, bare, ctx, arrivals, m, name);
      }
    }
  }

  lemma NoneWith(arrivals: seq<Arrival>, m: MsgKey, name: Text)
    requires !Arrives(arrivals, m)
    ensures !Brings(arrivals, m, name)
  {
  }

  /** A message without the field leaves it alone. */
  lemma FieldStays(row: MessageRow, row': MessageRow, bare: Rows, arrivals: seq<Arrival>, m: MsgKey, name: Text)
    requires arrivals != [] && FieldTold(row, bare, arrivals[..|arrivals| - 1], m, name)
    requires forall i :: IsLastWith(arrivals, m, name, i) <==> IsLastWith(arrivals[..|arrivals| - 1], m, name, i)
    requires name in row'.metadata.fields <==> name in row.metadata.fields
    requires name in row.metadata.fields ==> row'.metadata.fields[name] == row.metadata.fields[name]
    ensures FieldTold(row', bare, arrivals, m, name)
  {
    var init := arrivals[..|arrivals| - 1];
    assert Brings(arrivals, m, name) <==> Brings(init, m, name) by {
      if i :| IsLastWith(arrivals, m, name, i) {
        assert IsLastWith(init, m, name, i);
      }
      if i :| IsLastWith(init, m, name, i) {
        assert IsLastWith(arrivals, m, name, i);
      }
    }
    forall i | IsLastWith(arrivals, m, name, i) && name in row'.metadata.fields
      ensures row'.metadata.fields[name] == arrivals[i].c.record.fields[name]
    {
      assert IsLastWith(init, m, name, i) && init[i] == arrivals[i];
    }
  }

  lemma FieldTaken(before: Rows, after: Rows, bare: Rows, ctx: Ctx, arrivals: seq<Arrival>, m: MsgKey, name: Text)
    requires ctx.eligible && arrivals != [] && after == MergeOne(before, ctx, arrivals[|arrivals| - 1]) && m in after
    requires var init := arrivals[..|arrivals| - 1];
             if m in before then FieldTold(before[m], bare, init, m, name) else m !in bare && !Arrives(init, m)
    ensures FieldTold(after[m], bare, arrivals, m, name)
  {
    var n := |arrivals| - 1;
    LastWithMoves(arrivals, m, name);
    if arrivals[n].key == m && name in arrivals[n].c.record.fields {
      assert IsLastWith(arrivals, m, name, n);
    } else if m in before {
      FieldStays(before[m], after[m], bare, arrivals, m, name);
    } else {
      NoneWith(arrivals[..n], m, name);
    }
  }

  /** The tombstone shown was brought whole, or shown before; and content is available as the law
      has it. */
  ghost predicate TombTold(row: MessageRow, bare: Rows, ctx: Ctx, arrivals: seq<Arrival>, m: MsgKey) {
    && (row.deletedAt != None ==>
          || (m in bare && SameTomb(row, bare[m]))
          || exists i :: && 0 <= i < |arrivals| && arrivals[i].key == m && arrivals[i].c.record.deletion != None
                         && IsTombOf(row, ctx, arrivals[i].c.record.deletion.value))
    && ((m in bare ==> Lawful(bare[m])) ==> Lawful(row))
  }

  lemma {:induction false} TombsAreBrought(bare: Rows, ctx: Ctx, arrivals: seq<Arrival>, m: MsgKey)
    ensures m in MergeAll(bare, ctx, arrivals) ==> TombTold(MergeAll(bare, ctx, arrivals)[m], bare, ctx, arrivals, m)
    ensures m in bare ==> m in MergeAll(bare, ctx, arrivals)
  {
    if arrivals != [] {
      var n := |arrivals| - 1;
      TombsAreBrought(bare, ctx, arrivals[..n], m);
      assert forall i :: 0 <= i < n ==> arrivals[..n][i] == arrivals[i];
    }
  }

  /** What an accepted import leaves in a row, told by its arrivals and by the row before. */
  ghost predicate RowTold(rows: Rows, rows': Rows, ctx: Ctx, arrivals: seq<Arrival>, m: MsgKey) {
    && (m in rows' <==> m in rows || Arrives(arrivals, m))
    && (m in rows ==> SameOrigin(rows'[m], rows[m]))
    && (m in rows && (!ctx.eligible || !Arrives(arrivals, m)) ==> Bare(rows'[m]) == Bare(rows[m]))
    && (m !in rows && Arrives(arrivals, m) ==>
          Originates(rows'[m], ctx, arrivals, m))
    && (ctx.eligible && Arrives(arrivals, m) ==>
          && ShowsLast(rows'[m], ctx, arrivals, m)
          && (forall name :: FieldTold(rows'[m], BareRows(rows), arrivals, m, name)))
    && (m in rows' ==> TombTold(rows'[m], BareRows(rows), ctx, arrivals, m))
  }

  lemma BareTells(rows: Rows, rows': Rows, ctx: Ctx, arrivals: seq<Arrival>, m: MsgKey)
    requires BareRows(rows') == MergeAll(BareRows(rows), ctx, arrivals)
    ensures RowTold(rows, rows', ctx, arrivals, m)
  {
    var bare := BareRows(rows);
    assert m in BareRows(rows') <==> m in rows';
    assert m in rows' ==> BareRows(rows')[m] == Bare(rows'[m]);
    RowsComeFromFirst(bare, ctx, arrivals, m);
    TombsAreBrought(bare, ctx, arrivals, m);
    if ctx.eligible && Arrives(arrivals, m) {
      RowsShowLast(bare, ctx, arrivals, m);
      forall name ensures FieldTold(rows'[m], bare, arrivals, m, name) {
        FieldsAreUnited(bare, ctx, arrivals, m, name);
      }
    }
  }

  /** Every row of an accepted import is explained by the records: the first message of its key
      made it, the last gave it type, last sighting and visibility, each field is that of the last
      message that has it, and its tombstone is one that was brought or was there. */
  lemma ImportExplainsRows(s: Session, ctx: Ctx, records: seq<ImportRecord>, m: MsgKey)
    requires AtStart(s) && ImportFrom(s, ctx, [], records).Some?
    ensures RowTold(s.rows, ImportFrom(s, ctx, [], records).value.rows, ctx, Keyed(OccupiedBy(s.rows), Met(map[], ctx, records)), m)
  {
    ImportMerges(s, ctx, [], records);
    assert Candidates(map[], []) + Met(map[], ctx, records) == Met(map[], ctx, records);
    BareTells(s.rows, ImportFrom(s, ctx, [], records).value.rows, ctx, Keyed(OccupiedBy(s.rows), Met(map[], ctx, records)), m);
  }

  // ------------------------------------------------------- the conversation of a row

  lemma BatchKeepsRow(s: Session, ctx: Ctx, batch: seq<MessageRecord>, id: MsgKey)
    requires PersistBatch(s, ctx, batch).Some? && id in s.rows
    ensures id in PersistBatch(s, ctx, batch).value.rows
  {
    BatchMerges(s, ctx, batch);
    var rows := PersistBatch(s, ctx, batch).value.rows;
    RowsComeFromFirst(BareRows(s.rows), ctx, Keyed(OccupiedBy(s.rows), Candidates(s.conversations, batch)), id);
    assert id in BareRows(s.rows) && (id in BareRows(rows) <==> id in rows);
  }

  lemma BatchPlaces(f: Course, s: Session, ctx: Ctx, batch: seq<MessageRecord>, id: MsgKey)
    requires PersistBatch(s, ctx, batch).Some? && id in PersistBatch(s, ctx, batch).value.rows
    requires forall k :: k in s.rows ==> RowPlaced(f, s.rows, k)
    requires forall k :: k in f.rows ==> k in s.rows
    requires forall k :: k in s.conversations ==> Filed(s.filings, s.conversations[k]) == Filed(f.filings, s.conversations[k])
    ensures RowPlaced(f, PersistBatch(s, ctx, batch).value.rows, id)
  {
    var cands := Candidates(s.conversations, batch);
    if cands != [] {
      var keys := Keys(OccupiedBy(s.rows), cands);
      var messages, rows := SeenAfter(s.messages, cands, keys), Upserted(s, ctx, cands, keys);
      var woken := WakeAll((rows, s.pending), messages, batch);
      WakeIsQuiet(rows, s.pending, messages, batch);
      LinkIsQuiet(woken.0, woken.1, messages, batch);
      UpsertPlaces(f, s, ctx, cands, keys, id);
      QuietPlaces(f, rows, woken.0, id);
      QuietPlaces(f, woken.0, LinkAll(woken, messages, batch).0, id);
    }
  }

  lemma QuietPlaces(f: Course, rows: Rows, rows': Rows, id: MsgKey)
    requires SameButReplies(rows, rows') && id in rows && RowPlaced(f, rows, id)
    ensures RowPlaced(f, rows', id)
  {
    assert rows'[id].(replyTo := None).source == rows[id].(replyTo := None).source;
    assert rows'[id].(replyTo := None).conversation == rows[id].(replyTo := None).conversation;
  }

  ghost predicate AllPlaced(f: Course, rows: Rows) {
    (forall k :: k in rows ==> RowPlaced(f, rows, k)) && (forall k :: k in f.rows ==> k in rows)
  }

  /** The rows so far are placed, and the rest of the import files their sources no differently. */
  ghost predicate PlacedSoFar(f: Course, s: Session, ctx: Ctx, records: seq<ImportRecord>) {
    AllPlaced(f, s.rows) && SourcesFiled(s) && f.filings == FilingsAfter(s.filings, ctx, records)
  }

  lemma BatchPlacesAll(f: Course, s: Session, ctx: Ctx, batch: seq<MessageRecord>, records: seq<ImportRecord>)
    requires PlacedSoFar(f, s, ctx, records) && PersistBatch(s, ctx, batch).Some?
    ensures PlacedSoFar(f, PersistBatch(s, ctx, batch).value, ctx, records)
  {
    SourcesFit(f, s, ctx, records);
    BatchLeaves(s, ctx, batch);
    var rows := PersistBatch(s, ctx, batch).value.rows;
    forall k | k in rows ensures RowPlaced(f, rows, k) {
      BatchPlaces(f, s, ctx, batch, k);
    }
    forall k | k in f.rows ensures k in rows {
      BatchKeepsRow(s, ctx, batch, k);
    }
  }

  lemma OtherFilesSources(s: Session, ctx: Ctx, r: ImportRecord)
    requires !r.AMessage? && SourcesFiled(s)
    ensures var s' := PersistOther(s, ctx, r); SourcesFiled(s') && s'.rows == s.rows && s'.filings == StepFilings(s.filings, ctx, r)
  {
    OtherIsElsewhere(s, ctx, r);
    OtherFilings(s, ctx, r);
  }

  lemma OtherPlaces(f: Course, s: Session, ctx: Ctx, records: seq<ImportRecord>)
    requires records != [] && !records[0].AMessage? && PlacedSoFar(f, s, ctx, records)
    ensures PlacedSoFar(f, PersistOther(s, ctx, records[0]), ctx, records[1..])
  {
    OtherFilesSources(s, ctx, records[0]);
  }

  lemma StepPlaces(f: Course, s: Session, ctx: Ctx, buffer: seq<MessageRecord>, records: seq<ImportRecord>)
    requires records != [] && PlacedSoFar(f, s, ctx, records) && After(s, ctx, buffer, records[0]).Some?
    ensures PlacedSoFar(f, After(s, ctx, buffer, records[0]).value.0, ctx, records[1..])
  {
    if !Buffers(buffer, records[0]) {
      var batch := Flushed(buffer, records[0]);
      BatchPlacesAll(f, s, ctx, batch, records);
      if !records[0].AMessage? {
        OtherPlaces(f, PersistBatch(s, ctx, batch).value, ctx, records);
      }
    }
  }

  lemma {:induction false} RestPlaces(f: Course, s: Session, ctx: Ctx, buffer: seq<MessageRecord>, records: seq<ImportRecord>)
    requires PlacedSoFar(f, s, ctx, records) && ImportFrom(s, ctx, buffer, records).Some?
    ensures PlacedSoFar(f, ImportFrom(s, ctx, buffer, records).value, ctx, [])
    decreases |records|
  {
    if records == [] {
      BatchPlacesAll(f, s, ctx, buffer, []);
    } else {
      ImportUnfolds(s, ctx, buffer, records);
      StepPlaces(f, s, ctx, buffer, records);
      var (s', buffer') := After(s, ctx, buffer, records[0]).value;
      RestPlaces(f, s', ctx, buffer', records[1..]);
    }
  }

  /** A row that was there stays in its conversation; a new one is in that of its source. */
  lemma ImportPlacesRows(s: Session, ctx: Ctx, records: seq<ImportRecord>, m: MsgKey)
    requires AtStart(s) && ImportFrom(s, ctx, [], records).Some?
    ensures var rows := ImportFrom(s, ctx, [], records).value.rows;
            && (m in s.rows ==> m in rows && rows[m].conversation == s.rows[m].conversation)
            && (m in rows && m !in s.rows ==>
                  && rows[m].source.Some?
                  && rows[m].conversation == Filed(FilingsAfter(s.filings, ctx, records), rows[m].source.value))
  {
    var f := CourseOf(s.rows, FilingsAfter(s.filings, ctx, records), []);
    assert forall k :: k in s.rows ==> RowPlaced(f, s.rows, k);
    RestPlaces(f, s, ctx, [], records);
    var rows := ImportFrom(s, ctx, [], records).value.rows;
    assert m in rows ==> RowPlaced(f, rows, m);
  }

  // --------------------------------------------------------------- the observations

  /** The i-th arrival is observed so. */
  predicate ObservedAs(id: ObsId, o: Observation, ctx: Ctx, a: Arrival) {
    var r := a.c.record;
    && id.job == ctx.job && id.source == a.c.source && id.entityKey == r.stableKey
    && o.message == a.key && o.value == r && o.eligible == ctx.eligible && o.live == ctx.live && o.snapshot == ctx.snapshot
    && (if r.deletion == None then id.kind == Value && id.obsKey == r.stableKey && o.observedAt == ctx.observedAt
        else && id.kind == Tombstone && id.obsKey == r.deletion.value.eventKey
             && o.observedAt == (if r.deletion.value.observedAt == None then ctx.observedAt else r.deletion.value.observedAt.value))
  }

  /** What an import leaves under an observation key: what was there, or else its first arrival
      with that key. */
  ghost predicate ObservationTold(ledger: Ledger, ledger': Ledger, ctx: Ctx, arrivals: seq<Arrival>, id: ObsId) {
    && (id in ledger ==> id in ledger' && ledger'[id] == ledger[id])
    && (id in ledger' && id !in ledger ==>
          exists i :: && 0 <= i < |arrivals| && ObservedAs(id, ledger'[id], ctx, arrivals[i])
                      && forall j, o :: 0 <= j < i ==> !ObservedAs(id, o, ctx, arrivals[j]))
    && (forall i, o :: 0 <= i < |arrivals| && ObservedAs(id, o, ctx, arrivals[i]) ==> id in ledger')
  }

  lemma {:induction false} ArrivalsAreObserved(ledger: Ledger, ctx: Ctx, arrivals: seq<Arrival>, id: ObsId)
    ensures ObservationTold(ledger, RecordAll(ledger, ctx, arrivals), ctx, arrivals, id)
  {
    if arrivals != [] {
      var n := |arrivals| - 1;
      var before, after, init := RecordAll(ledger, ctx, arrivals[..n]), RecordAll(ledger, ctx, arrivals), arrivals[..n];
      ArrivalsAreObserved(ledger, ctx, init, id);
      assert forall j :: 0 <= j < n ==> init[j] == arrivals[j];
      if id in after && id !in ledger {
        if id in before {
          var i :| && 0 <= i < n && ObservedAs(id, before[id], ctx, init[i])
                   && forall j, o :: 0 <= j < i ==> !ObservedAs(id, o, ctx, init[j]);
          assert ObservedAs(id, after[id], ctx, arrivals[i]);
        } else {
          assert ObservedAs(id, after[id], ctx, arrivals[n]);
        }
      }
    }
  }

  /** Every observation of an accepted import is explained by the records, and every message that
      arrives is observed. */
  lemma ImportExplainsObservations(s: Session, ctx: Ctx, records: seq<ImportRecord>, id: ObsId)
    requires AtStart(s) && ImportFrom(s, ctx, [], records).Some?
    ensures ObservationTold(s.ledger, ImportFrom(s, ctx, [], records).value.ledger, ctx,
                            Keyed(OccupiedBy(s.rows), Met(map[], ctx, records)), id)
  {
    ImportMerges(s, ctx, [], records);
    assert Candidates(map[], []) + Met(map[], ctx, records) == Met(map[], ctx, records);
    ArrivalsAreObserved(s.ledger, ctx, Keyed(OccupiedBy(s.rows), Met(map[], ctx, records)), id);
  }

  // ------------------------------------------------------- insertion and recomputation

  lemma OneEligible(e: Entry)
    requires e.o.eligible
    ensures EligibleOf([e]) == [e] && ContentOf([e]) == (if e.id.kind.Value? then [e] else [])
    ensures Earliest([e]) == Some(e) && Latest([e]) == Some(e)
    ensures LastTombstone([e]) == if e.id.kind.Tombstone? then Some(e) else None
    ensures BodyWinner([e]) == if e.id.kind.Value? then Some(e) else None
    ensures ShownValue([e]) == Some(e.o.value)
  {
    assert [e][..0] == [];
  }

  /** The two ways to a row agree: recomputing it from the one observation that an eligible import
      of a well-formed message appends gives what that import inserts, except that an empty body
      becomes none; a deletion is recomputed alike if it brings no body and is dated by the import. */
  lemma RecomputationRepeatsInsertExactly(ctx: Ctx, filings: Filings, c: Candidate, seen: Messages, m: MsgKey, row: MessageRow)
    requires ctx.eligible && WellFormedValue(c.record)
    ensures SameContent(Rematerialize(row, [Entry(ObsIdFor(ctx, c), ObsFor(ctx, c, m))]), RowFor(ctx, filings, c, seen))
            <==> if c.record.deletion.None? then c.record.body != Some(EMPTY_TEXT)
                 else c.record.body.None? && DeletionTime(ctx, c.record.deletion.value) == ctx.observedAt
  {
    var e := Entry(ObsIdFor(ctx, c), ObsFor(ctx, c, m));
    OneEligible(e);
  }
}
