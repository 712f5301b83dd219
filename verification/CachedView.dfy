/** The message rows are a cached view of the observation ledger: what an import keeps true
    between the two. */
module CachedView {
  import opened Basics
  import opened ArchiveRows
  import opened TextImport
  import opened ReplyResolution
  import opened RepeatedKeys
  import opened ReplyConstraint

  /** The import jobs, and whether each is eligible. */
  type Jobs = map<Text, bool>

  // ------------------------------------------------------------------ the invariant

  /** The row that shows a record key of a source conversation. */
  predicate PlacedIn(rows: Rows, key: Text, source: SourceConv, m: MsgKey) {
    m in rows && rows[m].source == Some(source) && m == Resolved(rows, key, source)
  }

  predicate JobsAgree(jobs: Jobs, ledger: Ledger) {
    forall id :: id in ledger ==> id.job in jobs && ledger[id].eligible == jobs[id.job]
  }

  predicate Placed(rows: Rows, ledger: Ledger) {
    forall id :: id in ledger ==> PlacedIn(rows, id.entityKey, id.source, ledger[id].message)
  }

  ghost predicate Backed(ledger: Ledger, m: MsgKey) {
    exists id :: id in ledger && ledger[id].message == m && ledger[id].eligible
  }

  ghost predicate Shown(rows: Rows, ledger: Ledger) {
    forall m :: m in rows ==> (rows[m].materialized <==> Backed(ledger, m))
  }

  /** Unavailable content belongs to a deletion and hides nothing; a deletion is dated. */
  predicate Flags(row: MessageRow) {
    && (row.contentUnavailable ==> row.sourceDeleted && row.body.None?)
    && (row.sourceDeleted <==> row.deletedAt.Some?)
    && (row.sourceDeleted <==> row.deletionKey.Some?)
  }

  predicate AllFlags(rows: Rows) {
    forall m :: m in rows ==> Flags(rows[m])
  }

  ghost predicate MessagesInv(jobs: Jobs, rows: Rows, ledger: Ledger) {
    JobsAgree(jobs, ledger) && Placed(rows, ledger) && Shown(rows, ledger) && AllFlags(rows)
  }

  /** Records of different source conversations never share a message row. */
  lemma NoSharedRows(rows: Rows, ledger: Ledger, a: ObsId, b: ObsId)
    requires Placed(rows, ledger) && a in ledger && b in ledger
    ensures ledger[a].message == ledger[b].message <==> a.source == b.source && a.entityKey == b.entityKey
  {
    assert PlacedIn(rows, a.entityKey, a.source, ledger[a].message);
    assert PlacedIn(rows, b.entityKey, b.source, ledger[b].message);
  }

  predicate Fits(jobs: Jobs, ctx: Ctx) {
    ctx.job in jobs && jobs[ctx.job] == ctx.eligible
  }

  // ------------------------------------------------------------- one candidate

  predicate Extends(rows: Rows, rows': Rows) {
    forall m :: m in rows ==> m in rows' && rows'[m].source == rows[m].source
  }

  lemma PlacedSurvives(rows: Rows, rows': Rows, key: Text, source: SourceConv, m: MsgKey)
    requires PlacedIn(rows, key, source, m) && Extends(rows, rows')
    ensures PlacedIn(rows', key, source, m)
  {
    assert Base(key) in rows;
  }

  lemma NewPlace(rows: Rows, rows': Rows, c: Candidate, m: MsgKey)
    requires m == KeyFor(OccupiedBy(rows), c) && Extends(rows, rows')
    requires m in rows' && (m in rows || rows'[m].source == Some(c.source))
    requires m.Split? && m in rows ==> rows[m].source == Some(c.source)
    requires forall k :: k in rows' ==> k in rows || k == m
    ensures PlacedIn(rows', c.record.stableKey, c.source, m)
  {
  }

  /** A split row belongs to the source conversation that its key names. */
  predicate SplitsOwned(rows: Rows) {
    forall m :: m in rows && m.Split? ==> rows[m].source == Some(m.source)
  }

  lemma OneUpsert(rows: Rows, ctx: Ctx, filings: Filings, c: Candidate, seen: Messages)
    requires SplitsOwned(rows) && AllFlags(rows)
    ensures var m := KeyFor(OccupiedBy(rows), c);
            var rows' := UpsertOne(rows, m, RowFor(ctx, filings, c, seen), ctx.eligible);
            && Extends(rows, rows') && SplitsOwned(rows') && AllFlags(rows')
            && PlacedIn(rows', c.record.stableKey, c.source, m)
            && (forall k :: k in rows' ==> k == m || (k in rows && rows'[k] == rows[k]))
            && (ctx.eligible ==> rows'[m].materialized)
            && (!ctx.eligible ==> rows'[m].materialized == (m in rows && rows[m].materialized))
  {
    var m := KeyFor(OccupiedBy(rows), c);
    var rows' := UpsertOne(rows, m, RowFor(ctx, filings, c, seen), ctx.eligible);
    NewPlace(rows, rows', c, m);
  }

  lemma OneObservation(jobs: Jobs, rows: Rows, rows': Rows, ledger: Ledger, ctx: Ctx, c: Candidate, m: MsgKey)
    requires Fits(jobs, ctx) && JobsAgree(jobs, ledger) && Placed(rows, ledger) && Extends(rows, rows')
    requires PlacedIn(rows', c.record.stableKey, c.source, m)
    ensures var id := ObsIdFor(ctx, c);
            var ledger' := InsertObs(ledger, id, ObsFor(ctx, c, m));
            && JobsAgree(jobs, ledger') && Placed(rows', ledger')
            && id in ledger' && ledger'[id].message == m && ledger'[id].eligible == ctx.eligible
  {
    var id := ObsIdFor(ctx, c);
    var ledger' := InsertObs(ledger, id, ObsFor(ctx, c, m));
    forall o | o in ledger' ensures PlacedIn(rows', o.entityKey, o.source, ledger'[o].message) {
      if o in ledger {
        PlacedSurvives(rows, rows', o.entityKey, o.source, ledger[o].message);
      }
    }
  }

  /** One observation backs its own message if it is eligible, and no other. */
  lemma BackedAfter(ledger: Ledger, id: ObsId, o: Observation, k: MsgKey)
    requires id in ledger ==> ledger[id].message == o.message && ledger[id].eligible == o.eligible
    ensures Backed(InsertObs(ledger, id, o), k) <==> Backed(ledger, k) || (k == o.message && o.eligible)
  {
    var ledger' := InsertObs(ledger, id, o);
    if q :| q in ledger && ledger[q].message == k && ledger[q].eligible {
      assert q in ledger' && ledger'[q] == ledger[q];
    }
    if k == o.message && o.eligible {
      assert id in ledger' && ledger'[id].message == k && ledger'[id].eligible;
    }
  }

  lemma UnplacedIsUnbacked(rows: Rows, ledger: Ledger, k: MsgKey)
    requires Placed(rows, ledger) && k !in rows
    ensures !Backed(ledger, k)
  {
    forall o | o in ledger ensures ledger[o].message in rows {
      assert PlacedIn(rows, o.entityKey, o.source, ledger[o].message);
    }
  }

  lemma OneCandidate(jobs: Jobs, rows: Rows, ledger: Ledger, ctx: Ctx, filings: Filings, c: Candidate, seen: Messages)
    requires Fits(jobs, ctx) && MessagesInv(jobs, rows, ledger) && SplitsOwned(rows)
    ensures var m := KeyFor(OccupiedBy(rows), c);
            var rows' := UpsertOne(rows, m, RowFor(ctx, filings, c, seen), ctx.eligible);
            && MessagesInv(jobs, rows', InsertObs(ledger, ObsIdFor(ctx, c), ObsFor(ctx, c, m)))
            && SplitsOwned(rows') && Extends(rows, rows') && PlacedIn(rows', c.record.stableKey, c.source, m)
  {
    var m := KeyFor(OccupiedBy(rows), c);
    var rows' := UpsertOne(rows, m, RowFor(ctx, filings, c, seen), ctx.eligible);
    var id, o := ObsIdFor(ctx, c), ObsFor(ctx, c, m);
    OneUpsert(rows, ctx, filings, c, seen);
    OneObservation(jobs, rows, rows', ledger, ctx, c, m);
    forall k | k in rows' ensures rows'[k].materialized <==> Backed(InsertObs(ledger, id, o), k) {
      BackedAfter(ledger, id, o, k);
      if k !in rows {
        UnplacedIsUnbacked(rows, ledger, k);
      }
    }
  }

  // ------------------------------------------------------------------ one batch

  /** The occupancy that key preparation tracks is that of the table it will produce. */
  lemma {:induction false} OccupancyIsTheTable(rows: Rows, ctx: Ctx, filings: Filings, cands: seq<Candidate>, seen: Messages, k: MsgKey)
    ensures var keys := Keys(OccupiedBy(rows), cands);
            var after, rows' := OccupiedAfter(OccupiedBy(rows), cands), UpsertAll(rows, ctx, filings, cands, keys, seen);
            && (k in after <==> k in rows')
            && (k in after ==> after[k] == rows'[k].source)
  {
    if cands != [] {
      var n := |cands| - 1;
      OccupancyIsTheTable(rows, ctx, filings, cands[..n], seen, k);
      var keys := Keys(OccupiedBy(rows), cands);
      assert keys[..n] == Keys(OccupiedBy(rows), cands[..n]);
      OccupancyIsTheTable(rows, ctx, filings, cands[..n], seen, keys[n]);
    }
  }

  lemma UpsertOccupies(rows: Rows, ctx: Ctx, filings: Filings, cands: seq<Candidate>, seen: Messages)
    ensures OccupiedBy(UpsertAll(rows, ctx, filings, cands, Keys(OccupiedBy(rows), cands), seen))
            == OccupiedAfter(OccupiedBy(rows), cands)
  {
    var rows' := UpsertAll(rows, ctx, filings, cands, Keys(OccupiedBy(rows), cands), seen);
    forall id ensures id in OccupiedBy(rows') <==> id in OccupiedAfter(OccupiedBy(rows), cands)
      ensures id in rows' ==> OccupiedBy(rows')[id] == OccupiedAfter(OccupiedBy(rows), cands)[id]
    {
      OccupancyIsTheTable(rows, ctx, filings, cands, seen, id);
    }
  }

  predicate SeenPlaced(rows: Rows, messages: Messages) {
    forall k :: k in messages ==> PlacedIn(rows, k, messages[k].source, messages[k].id)
  }

  lemma SeenSurvives(rows: Rows, rows': Rows, messages: Messages)
    requires SeenPlaced(rows, messages) && Extends(rows, rows')
    ensures SeenPlaced(rows', messages)
  {
    forall k | k in messages ensures PlacedIn(rows', k, messages[k].source, messages[k].id) {
      PlacedSurvives(rows, rows', k, messages[k].source, messages[k].id);
    }
  }

  ghost predicate StageInv(jobs: Jobs, s: Session, rows: Rows, ledger: Ledger, messages: Messages) {
    MessagesInv(jobs, rows, ledger) && SplitsOwned(rows) && Extends(s.rows, rows) && SeenPlaced(rows, messages)
  }

  lemma CandidateStep(jobs: Jobs, s: Session, rows: Rows, ledger: Ledger, messages: Messages, ctx: Ctx, c: Candidate,
                      m: MsgKey, seen: Messages)
    requires Fits(jobs, ctx) && StageInv(jobs, s, rows, ledger, messages) && m == KeyFor(OccupiedBy(rows), c)
    ensures StageInv(jobs, s, UpsertOne(rows, m, RowFor(ctx, s.filings, c, seen), ctx.eligible),
                     InsertObs(ledger, ObsIdFor(ctx, c), ObsFor(ctx, c, m)),
                     messages[c.record.stableKey := Seen(m, c.source, c.record.conversationKey)])
  {
    OneCandidate(jobs, rows, ledger, ctx, s.filings, c, seen);
    SeenSurvives(rows, UpsertOne(rows, m, RowFor(ctx, s.filings, c, seen), ctx.eligible), messages);
  }

  lemma {:induction false} CandidatesKeepLedger(jobs: Jobs, s: Session, ctx: Ctx, cands: seq<Candidate>,
                                                keys: seq<MsgKey>, seen: Messages)
    requires Fits(jobs, ctx) && StageInv(jobs, s, s.rows, s.ledger, s.messages)
    requires keys == Keys(OccupiedBy(s.rows), cands)
    ensures StageInv(jobs, s, UpsertAll(s.rows, ctx, s.filings, cands, keys, seen), ObserveAll(s.ledger, ctx, cands, keys),
                     SeenAfter(s.messages, cands, keys))
  {
    if cands != [] {
      var n := |cands| - 1;
      CandidatesKeepLedger(jobs, s, ctx, cands[..n], keys[..n], seen);
      var rows := UpsertAll(s.rows, ctx, s.filings, cands[..n], keys[..n], seen);
      OccupancyIsTheTable(s.rows, ctx, s.filings, cands[..n], seen, Base(cands[n].record.stableKey));
      CandidateStep(jobs, s, rows, ObserveAll(s.ledger, ctx, cands[..n], keys[..n]),
                    SeenAfter(s.messages, cands[..n], keys[..n]), ctx, cands[n], keys[n], seen);
    }
  }

  lemma QuietKeepsLedger(jobs: Jobs, rows: Rows, rows': Rows, ledger: Ledger)
    requires SameButReplies(rows, rows') && MessagesInv(jobs, rows, ledger) && SplitsOwned(rows)
    ensures MessagesInv(jobs, rows', ledger) && SplitsOwned(rows') && Extends(rows, rows')
  {
    forall m | m in rows ensures rows'[m].source == rows[m].source && rows'[m].materialized == rows[m].materialized
                                 && (Flags(rows[m]) <==> Flags(rows'[m])) {
      assert rows'[m].(replyTo := None).source == rows[m].(replyTo := None).source;
    }
    forall id | id in ledger ensures PlacedIn(rows', id.entityKey, id.source, ledger[id].message) {
      PlacedSurvives(rows, rows', id.entityKey, id.source, ledger[id].message);
    }
  }

  ghost predicate SessionInv(jobs: Jobs, s: Session) {
    MessagesInv(jobs, s.rows, s.ledger) && SplitsOwned(s.rows) && SeenPlaced(s.rows, s.messages)
  }

  lemma BatchKeepsLedger(jobs: Jobs, s: Session, ctx: Ctx, batch: seq<MessageRecord>)
    requires Fits(jobs, ctx) && SessionInv(jobs, s) && PersistBatch(s, ctx, batch).Some?
    ensures SessionInv(jobs, PersistBatch(s, ctx, batch).value)
    ensures Extends(s.rows, PersistBatch(s, ctx, batch).value.rows)
  {
    var cands := Candidates(s.conversations, batch);
    if cands != [] {
      var keys := Keys(OccupiedBy(s.rows), cands);
      var messages := SeenAfter(s.messages, cands, keys);
      CandidatesKeepLedger(jobs, s, ctx, cands, keys, messages);
      var r1 := Upserted(s, ctx, cands, keys);
      var woken := WakeAll((r1, s.pending), messages, batch);
      var r2 := LinkAll(woken, messages, batch).0;
      WakeIsQuiet(r1, s.pending, messages, batch);
      LinkIsQuiet(woken.0, woken.1, messages, batch);
      QuietKeepsLedger(jobs, r1, r2, ObserveAll(s.ledger, ctx, cands, keys));
      SeenSurvives(r1, r2, messages);
    }
  }

  // ----------------------------------------------------------- the whole import

  lemma AfterKeepsLedger(jobs: Jobs, s: Session, ctx: Ctx, buffer: seq<MessageRecord>, r: ImportRecord)
    requires Fits(jobs, ctx) && SessionInv(jobs, s) && After(s, ctx, buffer, r).Some?
    ensures SessionInv(jobs, After(s, ctx, buffer, r).value.0)
    ensures Extends(s.rows, After(s, ctx, buffer, r).value.0.rows)
  {
    if r.AMessage? {
      if |buffer| + 1 >= MESSAGE_BATCH_SIZE {
        BatchKeepsLedger(jobs, s, ctx, buffer + [r.message]);
      }
    } else {
      BatchKeepsLedger(jobs, s, ctx, buffer);
    }
  }

  lemma {:induction false} ImportKeepsLedger(jobs: Jobs, s: Session, ctx: Ctx, buffer: seq<MessageRecord>, records: seq<ImportRecord>)
    requires Fits(jobs, ctx) && SessionInv(jobs, s) && ImportFrom(s, ctx, buffer, records).Some?
    ensures SessionInv(jobs, ImportFrom(s, ctx, buffer, records).value)
    ensures Extends(s.rows, ImportFrom(s, ctx, buffer, records).value.rows)
    decreases |records|
  {
    if records == [] {
      BatchKeepsLedger(jobs, s, ctx, buffer);
    } else {
      ImportUnfolds(s, ctx, buffer, records);
      AfterKeepsLedger(jobs, s, ctx, buffer, records[0]);
      var (s', buffer') := After(s, ctx, buffer, records[0]).value;
      ImportKeepsLedger(jobs, s', ctx, buffer', records[1..]);
    }
  }

  // ------------------------------------------ the keys of an import, records alone

  /** The row keys that are taken, and the row that each record key names. */
  datatype Naming = Naming(taken: Occupied, known: Messages)

  function NamingOf(s: Session): Naming {
    Naming(OccupiedBy(s.rows), s.messages)
  }

  function BatchNaming(names: Naming, conversations: Conversations, batch: seq<MessageRecord>): Naming {
    var cands := Candidates(conversations, batch);
    Naming(OccupiedAfter(names.taken, cands), SeenAfter(names.known, cands, Keys(names.taken, cands)))
  }

  /** What one record leaves of them. */
  function StepNaming(names: Naming, conversations: Conversations, buffer: seq<MessageRecord>, r: ImportRecord): Naming {
    if Buffers(buffer, r) then names else BatchNaming(names, conversations, Flushed(buffer, r))
  }

  lemma QuietOccupies(rows: Rows, rows': Rows)
    requires SameButReplies(rows, rows')
    ensures OccupiedBy(rows') == OccupiedBy(rows)
  {
    forall m | m in rows ensures rows'[m].source == rows[m].source {
      assert rows'[m].(replyTo := None).source == rows[m].(replyTo := None).source;
    }
  }

  /** A batch names its rows by the records and by what was taken before. */
  lemma BatchNames(s: Session, ctx: Ctx, batch: seq<MessageRecord>)
    requires PersistBatch(s, ctx, batch).Some?
    ensures NamingOf(PersistBatch(s, ctx, batch).value) == BatchNaming(NamingOf(s), s.conversations, batch)
  {
    var cands := Candidates(s.conversations, batch);
    if cands != [] {
      var keys := Keys(OccupiedBy(s.rows), cands);
      var messages, rows := SeenAfter(s.messages, cands, keys), Upserted(s, ctx, cands, keys);
      var woken := WakeAll((rows, s.pending), messages, batch);
      UpsertOccupies(s.rows, ctx, s.filings, cands, messages);
      WakeIsQuiet(rows, s.pending, messages, batch);
      LinkIsQuiet(woken.0, woken.1, messages, batch);
      QuietOccupies(rows, woken.0);
      QuietOccupies(woken.0, LinkAll(woken, messages, batch).0);
    }
  }

  lemma StepNames(s: Session, ctx: Ctx, buffer: seq<MessageRecord>, r: ImportRecord)
    requires After(s, ctx, buffer, r).Some?
    ensures NamingOf(After(s, ctx, buffer, r).value.0) == StepNaming(NamingOf(s), s.conversations, buffer, r)
  {
    if !Buffers(buffer, r) {
      BatchNames(s, ctx, Flushed(buffer, r));
    }
  }
}
