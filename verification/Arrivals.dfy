/** The messages of an import under their row keys, and what they make of the table and the
    ledger: batches leave no trace in either. */
module Arrivals {
  import opened Basics
  import opened ArchiveRows
  import opened TextImport
  import opened ReplyResolution
  import opened RepeatedKeys
  import opened ReplyConstraint
  import opened CachedView

  // ----------------------------------------------------------- what the records bring

  /** The messages whose conversation's record came before them, each with its source. */
  function Met(conversations: Conversations, ctx: Ctx, records: seq<ImportRecord>): seq<Candidate>
    decreases |records|
  {
    if records == [] then []
    else
      match records[0]
      case AMessage(m) =>
        (if m.conversationKey in conversations then [Candidate(m, conversations[m.conversationKey])] else [])
        + Met(conversations, ctx, records[1..])
      case ConversationRecord(key, namespace, sourceKey) =>
        Met(conversations[key := SourceConv(ctx.account, namespace, sourceKey)], ctx, records[1..])
      case ARevision(_) => Met(conversations, ctx, records[1..])
      case OtherRecord(_) => Met(conversations, ctx, records[1..])
  }

  datatype Arrival = Arrival(c: Candidate, key: MsgKey)

  function ArrivalsOf(cands: seq<Candidate>, keys: seq<MsgKey>): (r: seq<Arrival>)
    requires |cands| == |keys|
  {
    seq(|cands|, i requires 0 <= i < |cands| => Arrival(cands[i], keys[i]))
  }

  /** Candidates under their row keys, where these keys are taken. */
  function Keyed(taken: Occupied, cands: seq<Candidate>): seq<Arrival> {
    ArrivalsOf(cands, Keys(taken, cands))
  }

  /** The messages of an import under their row keys, from its records and the row keys that
      the table has. */
  function ArrivalsAt(s: Session, ctx: Ctx, buffer: seq<MessageRecord>, records: seq<ImportRecord>): seq<Arrival> {
    Keyed(OccupiedBy(s.rows), Candidates(s.conversations, buffer) + Met(s.conversations, ctx, records))
  }

  lemma KeyedConcat(taken: Occupied, a: seq<Candidate>, b: seq<Candidate>)
    ensures Keyed(taken, a + b) == Keyed(taken, a) + Keyed(OccupiedAfter(taken, a), b)
  {
    KeysConcat(taken, a, b);
    var all, first, rest := Keyed(taken, a + b), Keyed(taken, a), Keyed(OccupiedAfter(taken, a), b);
    forall i | 0 <= i < |all| ensures all[i] == (first + rest)[i] {
    }
    assert all == first + rest;
  }

  lemma OneCandidate(conversations: Conversations, m: MessageRecord)
    ensures Candidates(conversations, [m])
            == if m.conversationKey in conversations then [Candidate(m, conversations[m.conversationKey])] else []
  {
    assert [m][..0] == [];
  }

  function Own(r: ImportRecord): seq<MessageRecord> {
    if r.AMessage? then [r.message] else []
  }

  lemma MetFirst(conversations: Conversations, ctx: Ctx, records: seq<ImportRecord>)
    requires records != []
    ensures Met(conversations, ctx, records)
            == Candidates(conversations, Own(records[0])) + Met(StepConversations(conversations, ctx, records[0]), ctx, records[1..])
  {
    if records[0].AMessage? {
      OneCandidate(conversations, records[0].message);
    }
  }

  /** What one record flushes of the buffer. */
  function StepFlushes(conversations: Conversations, buffer: seq<MessageRecord>, r: ImportRecord): seq<Candidate> {
    if Buffers(buffer, r) then [] else Candidates(conversations, Flushed(buffer, r))
  }

  lemma FlushesFirst(conversations: Conversations, ctx: Ctx, buffer: seq<MessageRecord>, r: ImportRecord)
    ensures Candidates(conversations, buffer) + Candidates(conversations, Own(r))
            == StepFlushes(conversations, buffer, r) + Candidates(StepConversations(conversations, ctx, r), StepBuffer(buffer, r))
  {
    CandidatesConcat(conversations, buffer, Own(r));
    assert r.AMessage? ==> buffer + Own(r) == buffer + [r.message];
    assert !r.AMessage? ==> buffer + Own(r) == buffer;
  }

  lemma Regroup<T>(a: seq<T>, b: seq<T>, c: seq<T>, d: seq<T>, e: seq<T>)
    requires a + b == c + d
    ensures a + (b + e) == c + (d + e)
  {
    assert a + (b + e) == (a + b) + e;
  }

  /** One record: what it flushes, and what is left to come. */
  lemma StepMeets(conversations: Conversations, ctx: Ctx, buffer: seq<MessageRecord>, records: seq<ImportRecord>)
    requires records != []
    ensures var r := records[0];
            Candidates(conversations, buffer) + Met(conversations, ctx, records)
            == StepFlushes(conversations, buffer, r)
               + (Candidates(StepConversations(conversations, ctx, r), StepBuffer(buffer, r))
                  + Met(StepConversations(conversations, ctx, r), ctx, records[1..]))
  {
    var r := records[0];
    MetFirst(conversations, ctx, records);
    FlushesFirst(conversations, ctx, buffer, r);
    Regroup(Candidates(conversations, buffer), Candidates(conversations, Own(r)), StepFlushes(conversations, buffer, r),
            Candidates(StepConversations(conversations, ctx, r), StepBuffer(buffer, r)),
            Met(StepConversations(conversations, ctx, r), ctx, records[1..]));
  }

  lemma StepArrives(s: Session, ctx: Ctx, buffer: seq<MessageRecord>, records: seq<ImportRecord>)
    requires records != [] && After(s, ctx, buffer, records[0]).Some?
    ensures var (s', buffer') := After(s, ctx, buffer, records[0]).value;
            ArrivalsAt(s, ctx, buffer, records)
            == Keyed(OccupiedBy(s.rows), StepFlushes(s.conversations, buffer, records[0])) + ArrivalsAt(s', ctx, buffer', records[1..])
  {
    var (s', buffer') := After(s, ctx, buffer, records[0]).value;
    StepMeets(s.conversations, ctx, buffer, records);
    StepNames(s, ctx, buffer, records[0]);
    AfterSteps(s, ctx, buffer, records[0]);
    KeyedConcat(OccupiedBy(s.rows), StepFlushes(s.conversations, buffer, records[0]),
                Candidates(s'.conversations, buffer') + Met(s'.conversations, ctx, records[1..]));
  }

  // ------------------------------------------------------------- the table and the ledger

  /** A row but for its conversation and its reply, which the order of the records decides. */
  function Bare(row: MessageRow): MessageRow {
    row.(conversation := Given(EMPTY_TEXT), replyTo := None)
  }

  function BareRows(rows: Rows): Rows {
    map m | m in rows :: Bare(rows[m])
  }

  /** The row that a message proposes. */
  function Proposed(ctx: Ctx, c: Candidate): (row: MessageRow)
    ensures Arriving(row)
  {
    Bare(RowFor(ctx, map[], c, map[]))
  }

  function MergeOne(bare: Rows, ctx: Ctx, a: Arrival): Rows {
    UpsertOne(bare, a.key, Proposed(ctx, a.c), ctx.eligible)
  }

  function MergeAll(bare: Rows, ctx: Ctx, arrivals: seq<Arrival>): Rows {
    if arrivals == [] then bare else MergeOne(MergeAll(bare, ctx, arrivals[..|arrivals| - 1]), ctx, arrivals[|arrivals| - 1])
  }

  function RecordOne(ledger: Ledger, ctx: Ctx, a: Arrival): Ledger {
    InsertObs(ledger, ObsIdFor(ctx, a.c), ObsFor(ctx, a.c, a.key))
  }

  function RecordAll(ledger: Ledger, ctx: Ctx, arrivals: seq<Arrival>): Ledger {
    if arrivals == [] then ledger
    else RecordOne(RecordAll(ledger, ctx, arrivals[..|arrivals| - 1]), ctx, arrivals[|arrivals| - 1])
  }

  lemma OneUpsertMerges(rows: Rows, ctx: Ctx, filings: Filings, c: Candidate, key: MsgKey, seen: Messages)
    ensures BareRows(UpsertOne(rows, key, RowFor(ctx, filings, c, seen), ctx.eligible)) == MergeOne(BareRows(rows), ctx, Arrival(c, key))
  {
    var arriving := RowFor(ctx, filings, c, seen);
    assert Bare(arriving) == Proposed(ctx, c);
    if key in rows {
      assert Bare(Upsert(rows[key], arriving)) == Upsert(Bare(rows[key]), Proposed(ctx, c));
    }
  }

  lemma {:induction false} UpsertsMerge(rows: Rows, ctx: Ctx, filings: Filings, cands: seq<Candidate>, keys: seq<MsgKey>, seen: Messages)
    requires |cands| == |keys|
    ensures BareRows(UpsertAll(rows, ctx, filings, cands, keys, seen)) == MergeAll(BareRows(rows), ctx, ArrivalsOf(cands, keys))
  {
    if cands != [] {
      var n := |cands| - 1;
      UpsertsMerge(rows, ctx, filings, cands[..n], keys[..n], seen);
      assert ArrivalsOf(cands, keys)[..n] == ArrivalsOf(cands[..n], keys[..n]);
      OneUpsertMerges(UpsertAll(rows, ctx, filings, cands[..n], keys[..n], seen), ctx, filings, cands[n], keys[n], seen);
    }
  }

  lemma {:induction false} ObservationsRecord(ledger: Ledger, ctx: Ctx, cands: seq<Candidate>, keys: seq<MsgKey>)
    requires |cands| == |keys|
    ensures ObserveAll(ledger, ctx, cands, keys) == RecordAll(ledger, ctx, ArrivalsOf(cands, keys))
  {
    if cands != [] {
      var n := |cands| - 1;
      ObservationsRecord(ledger, ctx, cands[..n], keys[..n]);
      assert ArrivalsOf(cands, keys)[..n] == ArrivalsOf(cands[..n], keys[..n]);
    }
  }

  lemma QuietStaysBare(rows: Rows, rows': Rows)
    requires SameButReplies(rows, rows')
    ensures BareRows(rows) == BareRows(rows')
  {
    forall m | m in rows ensures Bare(rows'[m]) == Bare(rows[m]) {
      assert Bare(rows'[m].(replyTo := None)) == Bare(rows[m].(replyTo := None));
    }
  }

  lemma BatchMerges(s: Session, ctx: Ctx, batch: seq<MessageRecord>)
    requires PersistBatch(s, ctx, batch).Some?
    ensures var s', arrivals := PersistBatch(s, ctx, batch).value, Keyed(OccupiedBy(s.rows), Candidates(s.conversations, batch));
            BareRows(s'.rows) == MergeAll(BareRows(s.rows), ctx, arrivals) && s'.ledger == RecordAll(s.ledger, ctx, arrivals)
  {
    var cands := Candidates(s.conversations, batch);
    if cands != [] {
      var keys := Keys(OccupiedBy(s.rows), cands);
      var messages, rows := SeenAfter(s.messages, cands, keys), Upserted(s, ctx, cands, keys);
      var woken := WakeAll((rows, s.pending), messages, batch);
      UpsertsMerge(s.rows, ctx, s.filings, cands, keys, messages);
      ObservationsRecord(s.ledger, ctx, cands, keys);
      WakeIsQuiet(rows, s.pending, messages, batch);
      LinkIsQuiet(woken.0, woken.1, messages, batch);
      QuietStaysBare(rows, woken.0);
      QuietStaysBare(woken.0, LinkAll(woken, messages, batch).0);
    }
  }

  lemma {:induction false} MergeConcat(bare: Rows, ledger: Ledger, ctx: Ctx, a: seq<Arrival>, b: seq<Arrival>)
    ensures MergeAll(bare, ctx, a + b) == MergeAll(MergeAll(bare, ctx, a), ctx, b)
    ensures RecordAll(ledger, ctx, a + b) == RecordAll(RecordAll(ledger, ctx, a), ctx, b)
  {
    if b == [] {
      assert a + b == a;
    } else {
      assert (a + b)[..|a + b| - 1] == a + b[..|b| - 1];
      MergeConcat(bare, ledger, ctx, a, b[..|b| - 1]);
    }
  }

  lemma StepMerges(s: Session, ctx: Ctx, buffer: seq<MessageRecord>, r: ImportRecord)
    requires After(s, ctx, buffer, r).Some?
    ensures var s', arrivals := After(s, ctx, buffer, r).value.0, Keyed(OccupiedBy(s.rows), StepFlushes(s.conversations, buffer, r));
            BareRows(s'.rows) == MergeAll(BareRows(s.rows), ctx, arrivals) && s'.ledger == RecordAll(s.ledger, ctx, arrivals)
  {
    if !Buffers(buffer, r) {
      BatchMerges(s, ctx, Flushed(buffer, r));
    }
  }

  lemma NothingMoreArrives(s: Session, ctx: Ctx, buffer: seq<MessageRecord>)
    ensures ArrivalsAt(s, ctx, buffer, []) == Keyed(OccupiedBy(s.rows), Candidates(s.conversations, buffer))
  {
    assert Candidates(s.conversations, buffer) + [] == Candidates(s.conversations, buffer);
  }

  /** An accepted import merges its arrivals into the table, one after another, and records them
      in the ledger, wherever its batches end. */
  lemma {:induction false} ImportMerges(s: Session, ctx: Ctx, buffer: seq<MessageRecord>, records: seq<ImportRecord>)
    requires ImportFrom(s, ctx, buffer, records).Some?
    ensures var s', arrivals := ImportFrom(s, ctx, buffer, records).value, ArrivalsAt(s, ctx, buffer, records);
            BareRows(s'.rows) == MergeAll(BareRows(s.rows), ctx, arrivals) && s'.ledger == RecordAll(s.ledger, ctx, arrivals)
    decreases |records|
  {
    if records == [] {
      BatchMerges(s, ctx, buffer);
      NothingMoreArrives(s, ctx, buffer);
    } else {
      ImportUnfolds(s, ctx, buffer, records);
      var (s', buffer') := After(s, ctx, buffer, records[0]).value;
      StepMerges(s, ctx, buffer, records[0]);
      StepArrives(s, ctx, buffer, records);
      ImportMerges(s', ctx, buffer', records[1..]);
      MergeConcat(BareRows(s.rows), s.ledger, ctx, Keyed(OccupiedBy(s.rows), StepFlushes(s.conversations, buffer, records[0])),
                  ArrivalsAt(s', ctx, buffer', records[1..]));
    }
  }

  lemma {:induction false} LedgerAfter(ledger: Ledger, ctx: Ctx, arrivals: seq<Arrival>, id: ObsId)
    ensures var after := RecordAll(ledger, ctx, arrivals);
            && (id in after <==> id in ledger || exists a :: a in arrivals && ObsIdFor(ctx, a.c) == id)
            && (id in ledger ==> after[id] == ledger[id])
  {
    if arrivals != [] {
      var n := |arrivals| - 1;
      LedgerAfter(ledger, ctx, arrivals[..n], id);
      assert forall a :: a in arrivals <==> a in arrivals[..n] || a == arrivals[n];
    }
  }
}
