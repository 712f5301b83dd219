/** The snapshot importer: one transaction that upserts message rows, appends observations
    to the ledger and resolves replies, in batches of bounded size. */
module TextImport {
  import opened Basics
  import opened ArchiveRows

  const MESSAGE_BATCH_SIZE: nat := 250

  datatype Timestamp = NoTime | Blank | At(time: Time)

  datatype Deletion = Deletion(eventKey: Text, observedAt: Option<Time>, metadata: Text)

  datatype MessageRecord = MessageRecord(
    stableKey: Text,
    conversationKey: Text,
    sourceNamespace: Text,
    sourceValue: Text,
    timestamp: Timestamp,
    messageKind: Text,
    body: Option<Text>,
    bodyPresent: bool,             // bodyState is "present"
    fields: map<Text, Text>,       // direction, bodyState, unsupportedTypeCode and rich metadata
    replyToKey: Option<Text>,
    deletion: Option<Deletion>)

  /** A revision key is a hash of its message's key and the edit number. */
  datatype RevKey = RevKey(messageKey: Text, ordinal: nat)

  datatype RevisionRecord = RevisionRecord(key: RevKey, body: Option<Text>, bodyPresent: bool, firstSeenSnapshot: Text)

  datatype OtherKind = Person | Identity | Participant | Attachment

  datatype ImportRecord =
    | ConversationRecord(key: Text, namespace: Text, sourceKey: Text)
    | AMessage(message: MessageRecord)
    | ARevision(revision: RevisionRecord)
    | OtherRecord(kind: OtherKind)

  /** Records come as an array, or as a stream of batches. */
  datatype RecordSource = InArray(records: seq<ImportRecord>) | InStream(batches: seq<seq<ImportRecord>>)

  datatype ObsKind = Value | Tombstone

  /** The unique key of an observation: replaying one import finds the same one again. */
  datatype ObsId = ObsId(job: Text, kind: ObsKind, source: SourceConv, entityKey: Text, obsKey: Text)

  datatype Observation = Observation(
    message: MsgKey, eligible: bool, observedAt: Time, live: bool, snapshot: Text, value: MessageRecord)

  datatype RevId = RevId(message: MsgKey, key: RevKey)

  /** What an import notes of a new revision, or the whole record that a recomputation chose. */
  datatype RevMetadata = Noted(bodyPresent: bool, firstSeenSnapshot: Text) | Whole(value: RevisionRecord)

  datatype RevisionRow = RevisionRow(
    body: Option<Text>, metadata: RevMetadata, firstSeenAt: Time, observedAt: Time, materialized: bool)

  datatype RevObsId = RevObsId(job: Text, source: SourceConv, key: RevKey, live: bool)
  datatype RevObservation = RevObservation(
    revision: RevId, eligible: bool, observedAt: Time, live: bool, value: RevisionRecord)

  type Rows = map<MsgKey, MessageRow>
  type Ledger = map<ObsId, Observation>
  type Revisions = map<RevId, RevisionRow>
  type RevLedger = map<RevObsId, RevObservation>

  /** One import: its job, the receiving account, and whether the job is eligible. */
  datatype Ctx = Ctx(job: Text, account: Text, snapshot: Text, observedAt: Time, live: bool, eligible: bool)

  datatype Seen = Seen(id: MsgKey, source: SourceConv, conversation: Text)

  /** A record whose conversation is known, with that conversation's source. */
  datatype Candidate = Candidate(record: MessageRecord, source: SourceConv)

  type Conversations = map<Text, SourceConv>

  /** The conversation row that each source conversation belongs to. */
  type Filings = map<SourceConv, ConvKey>
  type Messages = map<Text, Seen>
  type Pending = map<Text, seq<MsgKey>>
  type Occupied = map<MsgKey, Option<SourceConv>>

  /** Everything the transaction reads and writes. */
  datatype Session = Session(
    rows: Rows,
    ledger: Ledger,
    revisions: Revisions,
    revLedger: RevLedger,
    filings: Filings,
    conversations: Conversations,
    messages: Messages,
    pending: Pending)

  /** `if (record.replyToKey)`: an empty key is no key. */
  function ReplyKey(record: MessageRecord): Option<Text> {
    if record.replyToKey.Some? && record.replyToKey.value != EMPTY_TEXT then record.replyToKey else None
  }

  // ---------------------------------------------------------- one message batch

  /** Records of conversations that the import has not introduced are skipped. */
  function Candidates(conversations: Conversations, batch: seq<MessageRecord>): (r: seq<Candidate>)
    ensures forall c :: c in r ==> c.record in batch && c.record.conversationKey in conversations
                                   && c.source == conversations[c.record.conversationKey]
  {
    if batch == [] then []
    else
      var n := |batch| - 1;
      var last := batch[n];
      Candidates(conversations, batch[..n])
      + (if last.conversationKey in conversations
         then [Candidate(last, conversations[last.conversationKey])] else [])
  }

  function OccupiedBy(rows: Rows): Occupied {
    map k | k in rows :: rows[k].source
  }

  /** A key occupied by another source conversation is split. */
  function KeyFor(occupied: Occupied, c: Candidate): MsgKey {
    var own := Base(c.record.stableKey);
    if own in occupied && occupied[own] != Some(c.source)
    then Split(c.source, c.record.stableKey) else own
  }

  function OccupiedAfter(occupied: Occupied, cands: seq<Candidate>): Occupied {
    if cands == [] then occupied
    else
      var n := |cands| - 1;
      var before := OccupiedAfter(occupied, cands[..n]);
      var key := KeyFor(before, cands[n]);
      if key in before then before else before[key := Some(cands[n].source)]
  }

  function Keys(occupied: Occupied, cands: seq<Candidate>): (r: seq<MsgKey>)
    ensures |r| == |cands|
  {
    if cands == [] then []
    else
      var n := |cands| - 1;
      Keys(occupied, cands[..n]) + [KeyFor(OccupiedAfter(occupied, cands[..n]), cands[n])]
  }

  /** The batch's own ids by record key, and after it the ids seen earlier in the import. */
  function SeenAfter(messages: Messages, cands: seq<Candidate>, keys: seq<MsgKey>): Messages
    requires |cands| == |keys|
  {
    if cands == [] then messages
    else
      var n := |cands| - 1;
      SeenAfter(messages, cands[..n], keys[..n])[cands[n].record.stableKey := Seen(keys[n], cands[n].source, cands[n].record.conversationKey)]
  }

  function DeletionTime(ctx: Ctx, d: Deletion): Time {
    if d.observedAt.Some? then d.observedAt.value else ctx.observedAt
  }

  function Filed(filings: Filings, source: SourceConv): ConvKey {
    if source in filings then filings[source] else Given(source.key)
  }

  /** The row that one record proposes. */
  function RowFor(ctx: Ctx, filings: Filings, c: Candidate, seen: Messages): (row: MessageRow)
    ensures Arriving(row)
  {
    var r := c.record;
    var reply := ReplyKey(r);
    MessageRow(
      source := Some(c.source),
      conversation := Filed(filings, c.source),
      replyTo := if reply.Some? && reply.value in seen then Some(seen[reply.value].id) else None,
      sourceType := r.sourceNamespace,
      sourceKey := r.sourceValue,
      messageType := r.messageKind,
      body := r.body,
      metadata := Metadata(r.fields, Some(ctx.snapshot), Some(ctx.snapshot)),
      sourceDeleted := r.deletion.Some?,
      contentUnavailable := r.deletion.Some? && r.body.None?,
      deletedAt := if r.deletion.Some? then Some(DeletionTime(ctx, r.deletion.value)) else None,
      deletionKey := if r.deletion.Some? then Some(r.deletion.value.eventKey) else None,
      deletionMetadata := if r.deletion.Some? then Some(r.deletion.value.metadata) else None,
      sentAt := if r.timestamp.At? then Some(r.timestamp.time) else None,
      firstSeenAt := ctx.observedAt,
      lastSeenAt := ctx.observedAt,
      materialized := ctx.eligible)
  }

  function ObsIdFor(ctx: Ctx, c: Candidate): ObsId {
    var r := c.record;
    ObsId(ctx.job, if r.deletion.Some? then Tombstone else Value, c.source, r.stableKey,
          if r.deletion.Some? then r.deletion.value.eventKey else r.stableKey)
  }

  function ObsFor(ctx: Ctx, c: Candidate, key: MsgKey): Observation {
    var d := c.record.deletion;
    Observation(key, ctx.eligible,
                if d.Some? && d.value.observedAt.Some? then d.value.observedAt.value else ctx.observedAt,
                ctx.live, ctx.snapshot, c.record)
  }

  predicate Distinct(keys: seq<MsgKey>) {
    forall i, j :: 0 <= i < j < |keys| ==> keys[i] != keys[j]
  }

  function UpsertOne(rows: Rows, key: MsgKey, arriving: MessageRow, eligible: bool): Rows
    requires Arriving(arriving)
  {
    if key !in rows then rows[key := arriving]
    else if eligible then rows[key := Upsert(rows[key], arriving)]
    else rows
  }

  function UpsertAll(rows: Rows, ctx: Ctx, filings: Filings, cands: seq<Candidate>, keys: seq<MsgKey>, seen: Messages): Rows
    requires |cands| == |keys|
  {
    if cands == [] then rows
    else
      var n := |cands| - 1;
      UpsertOne(UpsertAll(rows, ctx, filings, cands[..n], keys[..n], seen), keys[n], RowFor(ctx, filings, cands[n], seen), ctx.eligible)
  }

  /** `ON CONFLICT DO NOTHING` */
  function InsertObs(ledger: Ledger, id: ObsId, o: Observation): Ledger {
    if id in ledger then ledger else ledger[id := o]
  }

  function ObserveAll(ledger: Ledger, ctx: Ctx, cands: seq<Candidate>, keys: seq<MsgKey>): Ledger
    requires |cands| == |keys|
  {
    if cands == [] then ledger
    else
      var n := |cands| - 1;
      InsertObs(ObserveAll(ledger, ctx, cands[..n], keys[..n]), ObsIdFor(ctx, cands[n]), ObsFor(ctx, cands[n], keys[n]))
  }

  /** `UPDATE "Message" SET "replyToId" = ...` */
  function SetReply(rows: Rows, id: MsgKey, target: MsgKey): Rows {
    if id in rows then rows[id := rows[id].(replyTo := Some(target))] else rows
  }

  function SetReplies(rows: Rows, waiting: seq<MsgKey>, target: MsgKey): Rows {
    if waiting == [] then rows
    else SetReply(SetReplies(rows, waiting[..|waiting| - 1], target), waiting[|waiting| - 1], target)
  }

  /** Each of these updates finds its row and meets the foreign key. */
  predicate RepliesSet(rows: Rows, waiting: seq<MsgKey>, target: MsgKey) {
    waiting == [] ||
    (RepliesSet(rows, waiting[..|waiting| - 1], target)
     && SameConversation(SetReplies(rows, waiting[..|waiting| - 1], target), waiting[|waiting| - 1], target))
  }

  /** Replies that were waiting for a message of this batch. */
  function WakeOne(state: (Rows, Pending), messages: Messages, record: MessageRecord): (Rows, Pending) {
    var k := record.stableKey;
    if k in messages && k in state.1
    then (SetReplies(state.0, state.1[k], messages[k].id), state.1 - {k}) else state
  }

  function WakeAll(state: (Rows, Pending), messages: Messages, batch: seq<MessageRecord>): (Rows, Pending) {
    if batch == [] then state
    else WakeOne(WakeAll(state, messages, batch[..|batch| - 1]), messages, batch[|batch| - 1])
  }

  predicate WakesOne(state: (Rows, Pending), messages: Messages, record: MessageRecord) {
    var k := record.stableKey;
    k in messages && k in state.1 ==> RepliesSet(state.0, state.1[k], messages[k].id)
  }

  predicate WakesAll(state: (Rows, Pending), messages: Messages, batch: seq<MessageRecord>) {
    batch == [] ||
    (WakesAll(state, messages, batch[..|batch| - 1])
     && WakesOne(WakeAll(state, messages, batch[..|batch| - 1]), messages, batch[|batch| - 1]))
  }

  function Waiting(pending: Pending, target: Text): seq<MsgKey> {
    if target in pending then pending[target] else []
  }

  /** Replies of this batch: linked when the target is known, otherwise made to wait. */
  function LinkOne(state: (Rows, Pending), messages: Messages, record: MessageRecord): (Rows, Pending) {
    var reply := ReplyKey(record);
    if reply.None? || record.stableKey !in messages then state
    else
      var id := messages[record.stableKey].id;
      if reply.value in messages
      then (SetReply(state.0, id, messages[reply.value].id), state.1)
      else (state.0, state.1[reply.value := Waiting(state.1, reply.value) + [id]])
  }

  function LinkAll(state: (Rows, Pending), messages: Messages, batch: seq<MessageRecord>): (Rows, Pending) {
    if batch == [] then state
    else LinkOne(LinkAll(state, messages, batch[..|batch| - 1]), messages, batch[|batch| - 1])
  }

  /** A record of the batch whose reply is linked at once. */
  predicate Links(record: MessageRecord, messages: Messages) {
    ReplyKey(record).Some? && record.stableKey in messages && ReplyKey(record).value in messages
  }

  predicate LinksOne(state: (Rows, Pending), messages: Messages, record: MessageRecord) {
    Links(record, messages) ==>
      SameConversation(state.0, messages[record.stableKey].id, messages[ReplyKey(record).value].id)
  }

  predicate LinksAll(state: (Rows, Pending), messages: Messages, batch: seq<MessageRecord>) {
    batch == [] ||
    (LinksAll(state, messages, batch[..|batch| - 1])
     && LinksOne(LinkAll(state, messages, batch[..|batch| - 1]), messages, batch[|batch| - 1]))
  }

  /** The rows that a statement wrote meet the foreign key once it ends. */
  predicate AllFit(rows: Rows, keys: seq<MsgKey>) {
    forall k :: k in keys ==> ReplyFits(rows, k)
  }

  /** The table after the upsert of a batch. */
  function Upserted(s: Session, ctx: Ctx, cands: seq<Candidate>, keys: seq<MsgKey>): Rows
    requires |cands| == |keys|
  {
    UpsertAll(s.rows, ctx, s.filings, cands, keys, SeenAfter(s.messages, cands, keys))
  }

  /** Whether the database accepts every statement of a batch. It refuses an eligible statement
      that proposes one row twice, and any that leaves a reply in another conversation. */
  predicate Accepts(s: Session, ctx: Ctx, batch: seq<MessageRecord>, cands: seq<Candidate>, keys: seq<MsgKey>)
    requires |cands| == |keys|
  {
    var messages := SeenAfter(s.messages, cands, keys);
    var rows := Upserted(s, ctx, cands, keys);
    && (ctx.eligible ==> Distinct(keys))
    && AllFit(rows, keys)
    && WakesAll((rows, s.pending), messages, batch)
    && LinksAll(WakeAll((rows, s.pending), messages, batch), messages, batch)
  }

  /** One batch; None when the database refuses it, so that the whole import rolls back. */
  function PersistBatch(s: Session, ctx: Ctx, batch: seq<MessageRecord>): Option<Session> {
    var cands := Candidates(s.conversations, batch);
    if cands == [] then Some(s) else PersistCandidates(s, ctx, batch, cands, Keys(OccupiedBy(s.rows), cands))
  }

  function PersistCandidates(s: Session, ctx: Ctx, batch: seq<MessageRecord>, cands: seq<Candidate>,
                             keys: seq<MsgKey>): Option<Session>
    requires |cands| == |keys|
  {
    if Accepts(s, ctx, batch, cands, keys) then Some(Persisted(s, ctx, batch, cands, keys)) else None
  }

  function Persisted(s: Session, ctx: Ctx, batch: seq<MessageRecord>, cands: seq<Candidate>, keys: seq<MsgKey>): Session
    requires |cands| == |keys|
  {
    var messages := SeenAfter(s.messages, cands, keys);
    var ledger := ObserveAll(s.ledger, ctx, cands, keys);
    var (rows', pending) := LinkAll(WakeAll((Upserted(s, ctx, cands, keys), s.pending), messages, batch), messages, batch);
    s.(rows := rows', ledger := ledger, messages := messages, pending := pending)
  }

  // ------------------------------------------------------------ the whole import

  /** The conversation of a source conversation: the one it belongs to, or, on its first
      appearance, that of the record's key unless another source conversation is in it. */
  function ConversationKey(filings: Filings, source: SourceConv, key: Text): ConvKey {
    if source in filings then filings[source]
    else if exists other :: other in filings && filings[other] == Given(key) then Qualified(source, key)
    else Given(key)
  }

  function FileSource(filings: Filings, source: SourceConv, key: Text): Filings {
    filings[source := ConversationKey(filings, source, key)]
  }

  function PersistConversation(s: Session, ctx: Ctx, r: ImportRecord): Session
    requires r.ConversationRecord?
  {
    var source := SourceConv(ctx.account, r.namespace, r.sourceKey);
    s.(filings := FileSource(s.filings, source, r.key), conversations := s.conversations[r.key := source])
  }

  function ObserveRevision(revLedger: RevLedger, ctx: Ctx, source: SourceConv, id: RevId, r: RevisionRecord): RevLedger {
    var obsId := RevObsId(ctx.job, source, r.key, ctx.live);
    if obsId in revLedger then revLedger
    else revLedger[obsId := RevObservation(id, ctx.eligible, ctx.observedAt, ctx.live, r)]
  }

  function NewRevision(ctx: Ctx, r: RevisionRecord): RevisionRow {
    RevisionRow(r.body, Noted(r.bodyPresent, r.firstSeenSnapshot), ctx.observedAt, ctx.observedAt, ctx.eligible)
  }

  /** A known revision keeps its body; only an eligible import touches it. */
  function RevisionAfter(revisions: Revisions, ctx: Ctx, id: RevId, r: RevisionRecord): RevisionRow {
    if id !in revisions then NewRevision(ctx, r)
    else if ctx.eligible then revisions[id].(observedAt := ctx.observedAt, materialized := true)
    else revisions[id]
  }

  /** The revision is observed under the source that its conversation has by then. */
  function PersistRevision(s: Session, ctx: Ctx, r: RevisionRecord): Session {
    if r.key.messageKey !in s.messages then s
    else
      var seen := s.messages[r.key.messageKey];
      var id := RevId(seen.id, r.key);
      s.(revisions := s.revisions[id := RevisionAfter(s.revisions, ctx, id, r)],
      revLedger := if seen.conversation in s.conversations
                   then ObserveRevision(s.revLedger, ctx, s.conversations[seen.conversation], id, r) else s.revLedger)
  }

  /** A message waits in the buffer; any other record, and a full buffer, flushes it first. */
  function ImportFrom(s: Session, ctx: Ctx, buffer: seq<MessageRecord>, records: seq<ImportRecord>): Option<Session>
    decreases |records|
  {
    if records == [] then PersistBatch(s, ctx, buffer)
    else if records[0].AMessage? then
      var buffer' := buffer + [records[0].message];
      if |buffer'| >= MESSAGE_BATCH_SIZE then
        match PersistBatch(s, ctx, buffer')
        case None => None
        case Some(s') => ImportFrom(s', ctx, [], records[1..])
      else ImportFrom(s, ctx, buffer', records[1..])
    else
      match PersistBatch(s, ctx, buffer)
      case None => None
      case Some(s') => ImportFrom(PersistOther(s', ctx, records[0]), ctx, [], records[1..])
  }

  function PersistOther(s: Session, ctx: Ctx, r: ImportRecord): Session
    requires !r.AMessage?
  {
    match r
    case ConversationRecord(_, _, _) => PersistConversation(s, ctx, r)
    case ARevision(revision) => PersistRevision(s, ctx, revision)
    case OtherRecord(_) => s
  }

  // ------------------------------------------------------------ the order of an array

  function RecordOrder(r: ImportRecord): nat {
    match r
    case OtherRecord(Person) => 0
    case OtherRecord(Identity) => 1
    case ConversationRecord(_, _, _) => 2
    case OtherRecord(Participant) => 3
    case AMessage(_) => 4
    case ARevision(_) => 5
    case OtherRecord(Attachment) => 6
  }

  /** Behind every record that does not come later. */
  function Insert(r: ImportRecord, sorted: seq<ImportRecord>): seq<ImportRecord> {
    if sorted == [] || RecordOrder(sorted[|sorted| - 1]) <= RecordOrder(r) then sorted + [r]
    else Insert(r, sorted[..|sorted| - 1]) + [sorted[|sorted| - 1]]
  }

  /** A stable sort. */
  function SortRecords(records: seq<ImportRecord>): seq<ImportRecord> {
    if records == [] then [] else Insert(records[|records| - 1], SortRecords(records[..|records| - 1]))
  }

  /** An array is sorted, a stream is read as it comes. */
  function OrderedRecords(source: RecordSource): seq<ImportRecord> {
    match source
    case InArray(records) => SortRecords(records)
    case InStream(batches) => Flatten(batches)
  }

  // --------------------------------------------------------------- the importer

  class Importer {
    var rows: Rows
    var ledger: Ledger
    var revisions: Revisions
    var revLedger: RevLedger
    var filings: Filings
    var conversations: Conversations
    var unified: map<Text, ConvKey>
    var messages: Messages
    var pendingReplies: Pending
    var messageBatch: seq<MessageRecord>
    const ctx: Ctx

    function State(): Session
      reads this
    {
      Session(rows, ledger, revisions, revLedger, filings, conversations, messages, pendingReplies)
    }

    /** The importer's own note of each conversation is what the table says of its source. */
    predicate Valid()
      reads this`filings, this`conversations, this`unified
    {
      && unified.Keys == conversations.Keys
      && forall k :: k in conversations ==> conversations[k] in filings && unified[k] == filings[conversations[k]]
    }

    constructor (ctx: Ctx, rows: Rows, ledger: Ledger, revisions: Revisions, revLedger: RevLedger, filings: Filings)
      ensures this.ctx == ctx && messageBatch == [] && Valid()
      ensures State() == Session(rows, ledger, revisions, revLedger, filings, map[], map[], map[])
    {
      this.ctx := ctx;
      this.rows, this.ledger, this.revisions, this.revLedger := rows, ledger, revisions, revLedger;
      this.filings := filings;
      conversations, unified, messages, pendingReplies, messageBatch := map[], map[], map[], map[], [];
    }

    /** The stable key of every candidate, in order, against one snapshot of the table. */
    method PrepareKeys(cands: seq<Candidate>) returns (keys: seq<MsgKey>)
      ensures keys == Keys(OccupiedBy(rows), cands)
    {
      var occupied := map k | k in rows :: rows[k].source;
      keys := [];
      for i := 0 to |cands|
        invariant occupied == OccupiedAfter(OccupiedBy(rows), cands[..i])
        invariant keys == Keys(OccupiedBy(rows), cands[..i])
      {
        assert cands[..i + 1][..i] == cands[..i];
        var own := Base(cands[i].record.stableKey);
        var collides := own in occupied && occupied[own] != Some(cands[i].source);
        var key := if collides then Split(cands[i].source, cands[i].record.stableKey) else own;
        if key !in occupied {
          occupied := occupied[key := Some(cands[i].source)];
        }
        keys := keys + [key];
      }
      assert cands[..|cands|] == cands;
    }

    /** One statement: the database refuses a row proposed twice by an eligible import, and a
        reply that ends in another conversation. */
    method BulkUpsertMessages(cands: seq<Candidate>, keys: seq<MsgKey>, seen: Messages) returns (ok: bool)
      requires |cands| == |keys| && Valid()
      requires forall c :: c in cands ==> c.record.conversationKey in conversations
                                          && c.source == conversations[c.record.conversationKey]
      modifies this`rows
      ensures var written := UpsertAll(old(rows), ctx, filings, cands, keys, seen);
              && ok == ((ctx.eligible ==> Distinct(keys)) && AllFit(written, keys))
              && (ok ==> rows == written)
    {
      if ctx.eligible && exists i, j :: 0 <= i < j < |keys| && keys[i] == keys[j] {
        return false;
      }
      for i := 0 to |cands|
        invariant rows == UpsertAll(old(rows), ctx, filings, cands[..i], keys[..i], seen)
      {
        assert cands[..i + 1][..i] == cands[..i] && keys[..i + 1][..i] == keys[..i];
        assert cands[i] in cands;
        var arriving := RowFor(ctx, filings, cands[i], seen).(conversation := unified[cands[i].record.conversationKey]);
        assert arriving == RowFor(ctx, filings, cands[i], seen);
        if keys[i] !in rows {
          rows := rows[keys[i] := arriving];
        } else if ctx.eligible {
          rows := rows[keys[i] := Upsert(rows[keys[i]], arriving)];
        }
      }
      assert cands[..|cands|] == cands && keys[..|keys|] == keys;
      ok := forall k | k in keys :: ReplyFits(rows, k);
    }

    method BulkInsertObservations(cands: seq<Candidate>, keys: seq<MsgKey>)
      requires |cands| == |keys|
      modifies this`ledger
      ensures ledger == ObserveAll(old(ledger), ctx, cands, keys)
    {
      for i := 0 to |cands|
        invariant ledger == ObserveAll(old(ledger), ctx, cands[..i], keys[..i])
      {
        assert cands[..i + 1][..i] == cands[..i] && keys[..i + 1][..i] == keys[..i];
        var id := ObsIdFor(ctx, cands[i]);
        if id !in ledger {
          ledger := ledger[id := ObsFor(ctx, cands[i], keys[i])];
        }
      }
      assert cands[..|cands|] == cands && keys[..|keys|] == keys;
    }

    /** One update for each reply that waited, until one is refused. */
    method SetWaiting(waiting: seq<MsgKey>, target: MsgKey) returns (ok: bool)
      modifies this`rows
      ensures ok == RepliesSet(old(rows), waiting, target)
      ensures ok ==> rows == SetReplies(old(rows), waiting, target)
    {
      for i := 0 to |waiting|
        invariant RepliesSet(old(rows), waiting[..i], target)
        invariant rows == SetReplies(old(rows), waiting[..i], target)
      {
        assert waiting[..i + 1][..i] == waiting[..i];
        if !SameConversation(rows, waiting[i], target) {
          StaysUnset(old(rows), waiting, target, i + 1);
          return false;
        }
        rows := rows[waiting[i] := rows[waiting[i]].(replyTo := Some(target))];
      }
      assert waiting[..|waiting|] == waiting;
      ok := true;
    }

    method WakeReplies(batch: seq<MessageRecord>) returns (ok: bool)
      modifies this`rows, this`pendingReplies
      ensures ok == WakesAll((old(rows), old(pendingReplies)), messages, batch)
      ensures ok ==> (rows, pendingReplies) == WakeAll((old(rows), old(pendingReplies)), messages, batch)
    {
      ghost var before := (rows, pendingReplies);
      for i := 0 to |batch|
        invariant WakesAll(before, messages, batch[..i])
        invariant (rows, pendingReplies) == WakeAll(before, messages, batch[..i])
      {
        assert batch[..i + 1][..i] == batch[..i];
        var k := batch[i].stableKey;
        if k in messages && k in pendingReplies {
          var waiting := pendingReplies[k];
          ok := SetWaiting(waiting, messages[k].id);
          if !ok {
            StaysUnwoken(before, messages, batch, i + 1);
            return;
          }
          pendingReplies := pendingReplies - {k};
        }
      }
      assert batch[..|batch|] == batch;
      ok := true;
    }

    method LinkReplies(batch: seq<MessageRecord>) returns (ok: bool)
      modifies this`rows, this`pendingReplies
      ensures ok == LinksAll((old(rows), old(pendingReplies)), messages, batch)
      ensures ok ==> (rows, pendingReplies) == LinkAll((old(rows), old(pendingReplies)), messages, batch)
    {
      ghost var before := (rows, pendingReplies);
      for i := 0 to |batch|
        invariant LinksAll(before, messages, batch[..i])
        invariant (rows, pendingReplies) == LinkAll(before, messages, batch[..i])
      {
        assert batch[..i + 1][..i] == batch[..i];
        var reply := ReplyKey(batch[i]);
        if reply.Some? && batch[i].stableKey in messages {
          var id := messages[batch[i].stableKey].id;
          if reply.value in messages {
            var target := messages[reply.value].id;
            if !SameConversation(rows, id, target) {
              StaysUnlinked(before, messages, batch, i + 1);
              return false;
            }
            rows := rows[id := rows[id].(replyTo := Some(target))];
          } else {
            var waiting := if reply.value in pendingReplies then pendingReplies[reply.value] else [];
            pendingReplies := pendingReplies[reply.value := waiting + [id]];
          }
        }
      }
      assert batch[..|batch|] == batch;
      ok := true;
    }

    method ResolveReplies(batch: seq<MessageRecord>) returns (ok: bool)
      modifies this`rows, this`pendingReplies
      ensures var state := (old(rows), old(pendingReplies));
              && ok == (WakesAll(state, messages, batch) && LinksAll(WakeAll(state, messages, batch), messages, batch))
              && (ok ==> (rows, pendingReplies) == LinkAll(WakeAll(state, messages, batch), messages, batch))
    {
      ok := WakeReplies(batch);
      if ok {
        ok := LinkReplies(batch);
      }
    }

    method FindCandidates(batch: seq<MessageRecord>) returns (cands: seq<Candidate>)
      requires Valid()
      ensures cands == Candidates(conversations, batch)
    {
      cands := [];
      for i := 0 to |batch|
        invariant cands == Candidates(conversations, batch[..i])
      {
        assert batch[..i + 1][..i] == batch[..i];
        var k := batch[i].conversationKey;
        if k in unified && k in conversations {
          cands := cands + [Candidate(batch[i], conversations[k])];
        }
      }
      assert batch[..|batch|] == batch;
    }

    method RememberIds(cands: seq<Candidate>, keys: seq<MsgKey>)
      requires |cands| == |keys|
      modifies this`messages
      ensures messages == SeenAfter(old(messages), cands, keys)
    {
      for i := 0 to |cands|
        invariant messages == SeenAfter(old(messages), cands[..i], keys[..i])
      {
        assert cands[..i + 1][..i] == cands[..i] && keys[..i + 1][..i] == keys[..i];
        messages := messages[cands[i].record.stableKey := Seen(keys[i], cands[i].source, cands[i].record.conversationKey)];
      }
      assert cands[..|cands|] == cands && keys[..|keys|] == keys;
    }

    /** The two statements that write a batch's rows and observations. */
    method WriteMessages(cands: seq<Candidate>, keys: seq<MsgKey>) returns (ok: bool)
      requires |cands| == |keys| && Valid()
      requires forall c :: c in cands ==> c.record.conversationKey in conversations
                                          && c.source == conversations[c.record.conversationKey]
      modifies this`rows, this`ledger, this`messages
      ensures messages == SeenAfter(old(messages), cands, keys)
      ensures ok == ((ctx.eligible ==> Distinct(keys)) && AllFit(Upserted(old(State()), ctx, cands, keys), keys))
      ensures ok ==> rows == Upserted(old(State()), ctx, cands, keys) && ledger == ObserveAll(old(ledger), ctx, cands, keys)
    {
      RememberIds(cands, keys);
      ok := BulkUpsertMessages(cands, keys, messages);
      if ok {
        BulkInsertObservations(cands, keys);
      }
    }

    method PersistMessageBatch(batch: seq<MessageRecord>, cands: seq<Candidate>, keys: seq<MsgKey>) returns (ok: bool)
      requires |cands| == |keys| && Valid() && cands == Candidates(conversations, batch)
      modifies this`rows, this`ledger, this`messages, this`pendingReplies
      ensures ok == Accepts(old(State()), ctx, batch, cands, keys)
      ensures ok ==> State() == Persisted(old(State()), ctx, batch, cands, keys)
    {
      ok := WriteMessages(cands, keys);
      if ok {
        ok := ResolveReplies(batch);
      }
    }

    method FlushMessageBatch() returns (ok: bool)
      requires Valid()
      modifies this`rows, this`ledger, this`messages, this`pendingReplies, this`messageBatch
      ensures Valid() && messageBatch == []
      ensures ok == PersistBatch(old(State()), ctx, old(messageBatch)).Some?
      ensures ok ==> Some(State()) == PersistBatch(old(State()), ctx, old(messageBatch))
    {
      var batch := messageBatch;
      messageBatch := [];
      var cands := FindCandidates(batch);
      if cands == [] {
        return true;
      }
      var keys := PrepareKeys(cands);
      ok := PersistMessageBatch(batch, cands, keys);
    }

    /** A conversation record: its conversation is looked up, its source filed under it. */
    method ImportConversation(r: ImportRecord)
      requires r.ConversationRecord? && Valid()
      modifies this`filings, this`conversations, this`unified
      ensures Valid() && State() == PersistConversation(old(State()), ctx, r)
    {
      var source := SourceConv(ctx.account, r.namespace, r.sourceKey);
      var conversation := ConversationKey(filings, source, r.key);
      unified := unified[r.key := conversation];
      filings := filings[source := conversation];
      conversations := conversations[r.key := source];
    }

    method ImportRevision(r: RevisionRecord)
      modifies this`revisions, this`revLedger
      ensures State() == PersistRevision(old(State()), ctx, r)
    {
      if r.key.messageKey in messages {
        var seen := messages[r.key.messageKey];
        var id := RevId(seen.id, r.key);
        if id !in revisions {
          revisions := revisions[id := NewRevision(ctx, r)];
        } else if ctx.eligible {
          revisions := revisions[id := revisions[id].(observedAt := ctx.observedAt, materialized := true)];
        }
        if seen.conversation in conversations {
          var obsId := RevObsId(ctx.job, conversations[seen.conversation], r.key, ctx.live);
          if obsId !in revLedger {
            revLedger := revLedger[obsId := RevObservation(id, ctx.eligible, ctx.observedAt, ctx.live, r)];
          }
        }
      }
    }

    method ImportOther(r: ImportRecord)
      requires !r.AMessage? && Valid()
      modifies this`filings, this`conversations, this`unified, this`revisions, this`revLedger
      ensures Valid() && State() == PersistOther(old(State()), ctx, r)
    {
      if r.ConversationRecord? {
        ImportConversation(r);
      } else if r.ARevision? {
        ImportRevision(r.revision);
      }
    }

    /** The transaction body. When it fails the caller discards this importer: nothing of
        what it changed is committed. */
    method Import(source: RecordSource) returns (ok: bool)
      requires messageBatch == [] && Valid()
      modifies this
      ensures ok == ImportFrom(old(State()), ctx, [], OrderedRecords(source)).Some?
      ensures ok ==> Some(State()) == ImportFrom(old(State()), ctx, [], OrderedRecords(source))
    {
      var records := OrderedRecords(source);
      for i := 0 to |records|
        invariant Valid()
        invariant ImportFrom(old(State()), ctx, [], records) == ImportFrom(State(), ctx, messageBatch, records[i..])
      {
        assert records[i..][1..] == records[i + 1..];
        if records[i].AMessage? {
          messageBatch := messageBatch + [records[i].message];
          if |messageBatch| >= MESSAGE_BATCH_SIZE {
            ok := FlushMessageBatch();
            if !ok {
              return;
            }
          }
        } else {
          ok := FlushMessageBatch();
          if !ok {
            return;
          }
          ImportOther(records[i]);
        }
      }
      ok := FlushMessageBatch();
    }
  }

  // ------------------------------------------------------- a refusal is not undone

  lemma {:induction false} StaysUnset(rows: Rows, waiting: seq<MsgKey>, target: MsgKey, n: nat)
    requires n <= |waiting| && !RepliesSet(rows, waiting[..n], target)
    ensures !RepliesSet(rows, waiting, target)
    decreases |waiting|
  {
    if n < |waiting| {
      assert waiting[..|waiting| - 1][..n] == waiting[..n];
      StaysUnset(rows, waiting[..|waiting| - 1], target, n);
    } else {
      assert waiting[..n] == waiting;
    }
  }

  lemma {:induction false} StaysUnwoken(state: (Rows, Pending), messages: Messages, batch: seq<MessageRecord>, n: nat)
    requires n <= |batch| && !WakesAll(state, messages, batch[..n])
    ensures !WakesAll(state, messages, batch)
    decreases |batch|
  {
    if n < |batch| {
      assert batch[..|batch| - 1][..n] == batch[..n];
      StaysUnwoken(state, messages, batch[..|batch| - 1], n);
    } else {
      assert batch[..n] == batch;
    }
  }

  lemma {:induction false} StaysUnlinked(state: (Rows, Pending), messages: Messages, batch: seq<MessageRecord>, n: nat)
    requires n <= |batch| && !LinksAll(state, messages, batch[..n])
    ensures !LinksAll(state, messages, batch)
    decreases |batch|
  {
    if n < |batch| {
      assert batch[..|batch| - 1][..n] == batch[..n];
      StaysUnlinked(state, messages, batch[..|batch| - 1], n);
    } else {
      assert batch[..n] == batch;
    }
  }
}
