/** Whole imports: exactly which the database refuses, and with distinct message keys why no cut
    into batches changes that. */
module ImportRefusals {
  import opened Basics
  import opened ArchiveRows
  import opened TextImport
  import opened ReplyResolution
  import opened RepeatedKeys
  import opened ReplyConstraint
  import opened Refusals

  // ------------------------------------------------- the conversations of an import

  function StepFilings(filings: Filings, ctx: Ctx, r: ImportRecord): Filings {
    if r.ConversationRecord? then FileSource(filings, SourceConv(ctx.account, r.namespace, r.sourceKey), r.key) else filings
  }

  /** Where an import files the source conversations. */
  function FilingsAfter(filings: Filings, ctx: Ctx, records: seq<ImportRecord>): Filings
    decreases |records|
  {
    if records == [] then filings else FilingsAfter(StepFilings(filings, ctx, records[0]), ctx, records[1..])
  }

  /** A source conversation that has its conversation keeps it. */
  lemma {:induction false} FilingStays(filings: Filings, ctx: Ctx, records: seq<ImportRecord>, source: SourceConv)
    requires source in filings
    ensures source in FilingsAfter(filings, ctx, records) && FilingsAfter(filings, ctx, records)[source] == filings[source]
    decreases |records|
  {
    if records != [] {
      FilingStays(StepFilings(filings, ctx, records[0]), ctx, records[1..], source);
    }
  }

  /** The conversations that the import has met are in the table. */
  predicate SourcesFiled(s: Session) {
    forall k :: k in s.conversations ==> s.conversations[k] in s.filings
  }

  // ----------------------------------------------------------------- the whole import

  ghost predicate SomeRefused(f: Course, ctx: Ctx, n: nat) {
    exists m :: n <= m < |f.cuts| && Refuses(f, ctx, m)
  }

  lemma OtherTracks(f: Course, n: nat, s: Session, ctx: Ctx, r: ImportRecord)
    requires n <= |f.cuts| && Tracks(f, n, s) && SourcesFiled(s) && !r.AMessage?
    ensures Tracks(f, n, PersistOther(s, ctx, r)) && SourcesFiled(PersistOther(s, ctx, r))
  {
  }

  lemma OtherFilings(s: Session, ctx: Ctx, r: ImportRecord)
    requires !r.AMessage?
    ensures PersistOther(s, ctx, r).filings == StepFilings(s.filings, ctx, r)
  {
  }

  lemma SourcesFit(f: Course, s: Session, ctx: Ctx, records: seq<ImportRecord>)
    requires SourcesFiled(s) && f.filings == FilingsAfter(s.filings, ctx, records)
    ensures forall k :: k in s.conversations ==> Filed(s.filings, s.conversations[k]) == Filed(f.filings, s.conversations[k])
  {
    forall k | k in s.conversations ensures Filed(s.filings, s.conversations[k]) == Filed(f.filings, s.conversations[k]) {
      FilingStays(s.filings, ctx, records, s.conversations[k]);
    }
  }

  /** The rest of the import, from the state before one of its batches. */
  ghost predicate Ahead(f: Course, ctx: Ctx, n: nat, s: Session, buffer: seq<MessageRecord>, records: seq<ImportRecord>) {
    && n <= |f.cuts| && f.cuts[n..] == CutsOf(s.conversations, ctx, buffer, records)
    && Tracks(f, n, s) && SourcesFiled(s) && f.filings == FilingsAfter(s.filings, ctx, records)
  }

  lemma FlushIsNext(f: Course, ctx: Ctx, n: nat, s: Session, buffer: seq<MessageRecord>, records: seq<ImportRecord>)
    requires Ahead(f, ctx, n, s, buffer, records) && (records != [] ==> !Buffers(buffer, records[0]))
    ensures var batch := if records == [] then buffer else Flushed(buffer, records[0]);
            NextIs(f, n, s, batch) && (PersistBatch(s, ctx, batch).None? <==> Refuses(f, ctx, n))
  {
    var batch := if records == [] then buffer else Flushed(buffer, records[0]);
    assert f.cuts[n..][0] == Cut(s.conversations, batch);
    SourcesFit(f, s, ctx, records);
    NextIsRefusedExactly(f, n, s, ctx, batch);
  }

  lemma StepAhead(f: Course, ctx: Ctx, n: nat, s: Session, buffer: seq<MessageRecord>, records: seq<ImportRecord>)
    requires records != [] && Ahead(f, ctx, n, s, buffer, records) && After(s, ctx, buffer, records[0]).Some?
    ensures var (s', buffer') := After(s, ctx, buffer, records[0]).value;
            Ahead(f, ctx, if Buffers(buffer, records[0]) then n else n + 1, s', buffer', records[1..])
  {
    var (s', buffer') := After(s, ctx, buffer, records[0]).value;
    AfterSteps(s, ctx, buffer, records[0]);
    if !Buffers(buffer, records[0]) {
      var batch := Flushed(buffer, records[0]);
      FlushIsNext(f, ctx, n, s, buffer, records);
      NextTracks(f, n, s, ctx, batch);
      BatchLeaves(s, ctx, batch);
      assert f.cuts[n..][1..] == f.cuts[n + 1..];
      if !records[0].AMessage? {
        OtherTracks(f, n + 1, PersistBatch(s, ctx, batch).value, ctx, records[0]);
        OtherFilings(PersistBatch(s, ctx, batch).value, ctx, records[0]);
      }
    }
  }

  lemma FirstOrLater(f: Course, ctx: Ctx, n: nat)
    requires n < |f.cuts|
    ensures SomeRefused(f, ctx, n) <==> Refuses(f, ctx, n) || SomeRefused(f, ctx, n + 1)
  {
  }

  /** One record flushes the buffer, or waits in it. */
  lemma StepIsRefusedExactly(f: Course, ctx: Ctx, n: nat, s: Session, buffer: seq<MessageRecord>, records: seq<ImportRecord>)
    requires Ahead(f, ctx, n, s, buffer, records) && records != []
    ensures Buffers(buffer, records[0]) ==> After(s, ctx, buffer, records[0]).Some?
    ensures !Buffers(buffer, records[0]) ==>
              n < |f.cuts| && (After(s, ctx, buffer, records[0]).None? <==> Refuses(f, ctx, n))
  {
    AfterFailsExactly(s, ctx, buffer, records[0]);
    if !Buffers(buffer, records[0]) {
      FlushIsNext(f, ctx, n, s, buffer, records);
    }
  }

  lemma {:induction false} RestIsRefusedExactly(f: Course, ctx: Ctx, n: nat, s: Session, buffer: seq<MessageRecord>,
                                                records: seq<ImportRecord>)
    requires Ahead(f, ctx, n, s, buffer, records)
    ensures ImportFrom(s, ctx, buffer, records).None? <==> SomeRefused(f, ctx, n)
    decreases |records|
  {
    if records == [] {
      LastIsRefusedExactly(f, ctx, n, s, buffer);
    } else {
      ImportUnfolds(s, ctx, buffer, records);
      StepIsRefusedExactly(f, ctx, n, s, buffer, records);
      if !Buffers(buffer, records[0]) {
        FirstOrLater(f, ctx, n);
      }
      if After(s, ctx, buffer, records[0]).Some? {
        var (s', buffer') := After(s, ctx, buffer, records[0]).value;
        StepAhead(f, ctx, n, s, buffer, records);
        RestIsRefusedExactly(f, ctx, if Buffers(buffer, records[0]) then n else n + 1, s', buffer', records[1..]);
      }
    }
  }

  lemma LastIsRefusedExactly(f: Course, ctx: Ctx, n: nat, s: Session, buffer: seq<MessageRecord>)
    requires Ahead(f, ctx, n, s, buffer, [])
    ensures ImportFrom(s, ctx, buffer, []).None? <==> SomeRefused(f, ctx, n)
  {
    assert |f.cuts[n..]| == 1;
    FlushIsNext(f, ctx, n, s, buffer, []);
    FirstOrLater(f, ctx, n);
  }

  lemma StartTracks(f: Course, s: Session)
    requires f.rows == s.rows && s.messages == map[] && s.pending == map[] && AllRowsFit(s.rows)
    ensures Tracks(f, 0, s)
  {
    forall id | id in s.rows ensures RowPlaced(f, s.rows, id) {
    }
  }

  /** The course of an import: its table, its conversations and its batches. */
  function CourseFor(s: Session, ctx: Ctx, records: seq<ImportRecord>): (f: Course)
    ensures f.rows == s.rows && f.filings == FilingsAfter(s.filings, ctx, records) && f.cuts == CutsOf(s.conversations, ctx, [], records)
  {
    CourseOf(s.rows, FilingsAfter(s.filings, ctx, records), CutsOf(s.conversations, ctx, [], records))
  }

  /** An import is refused exactly when one of its batches meets a message twice, with an
      eligible job, or writes a reply that crosses into another conversation. */
  lemma ImportIsRefusedExactly(s: Session, ctx: Ctx, records: seq<ImportRecord>)
    requires AtStart(s) && AllRowsFit(s.rows)
    ensures var f := CourseFor(s, ctx, records);
            ImportFrom(s, ctx, [], records).None? <==> exists n :: 0 <= n < |f.cuts| && Refuses(f, ctx, n)
  {
    var f := CourseFor(s, ctx, records);
    StartTracks(f, s);
    assert f.cuts[0..] == f.cuts;
    RestIsRefusedExactly(f, ctx, 0, s, [], records);
  }

  // ----------------------------------------------------------- messages in given batches

  function CutInto(conversations: Conversations, batches: seq<seq<MessageRecord>>): (cuts: seq<Cut>)
    ensures |cuts| == |batches| && forall i :: 0 <= i < |cuts| ==> cuts[i] == Cut(conversations, batches[i])
  {
    seq(|batches|, i requires 0 <= i < |batches| => Cut(conversations, batches[i]))
  }

  lemma {:induction false} LaterBatchesAreRefused(f: Course, ctx: Ctx, n: nat, s: Session, batches: seq<seq<MessageRecord>>)
    requires n <= |f.cuts| && f.cuts[n..] == CutInto(s.conversations, batches) && Tracks(f, n, s) && f.filings == s.filings
    ensures PersistBatches(s, ctx, batches).None? <==> SomeRefused(f, ctx, n)
    decreases |batches|
  {
    if batches != [] {
      assert f.cuts[n] == f.cuts[n..][0];
      NextIsRefusedExactly(f, n, s, ctx, batches[0]);
      FirstOrLater(f, ctx, n);
      if PersistBatch(s, ctx, batches[0]).Some? {
        var s' := PersistBatch(s, ctx, batches[0]).value;
        NextTracks(f, n, s, ctx, batches[0]);
        BatchLeaves(s, ctx, batches[0]);
        assert f.cuts[n + 1..] == f.cuts[n..][1..];
        LaterBatchesAreRefused(f, ctx, n + 1, s', batches[1..]);
      }
    }
  }

  function CourseThrough(s: Session, batches: seq<seq<MessageRecord>>): (f: Course)
    ensures f.rows == s.rows && f.filings == s.filings && f.cuts == CutInto(s.conversations, batches)
  {
    CourseOf(s.rows, s.filings, CutInto(s.conversations, batches))
  }

  lemma BatchesAreRefusedExactly(s: Session, ctx: Ctx, batches: seq<seq<MessageRecord>>)
    requires s.messages == map[] && s.pending == map[] && AllRowsFit(s.rows)
    ensures var f := CourseThrough(s, batches);
            PersistBatches(s, ctx, batches).None? <==> exists n :: 0 <= n < |f.cuts| && Refuses(f, ctx, n)
  {
    var f := CourseThrough(s, batches);
    StartTracks(f, s);
    assert f.cuts[0..] == f.cuts;
    LaterBatchesAreRefused(f, ctx, 0, s, batches);
  }

  // ------------------------------------------------------------- distinct message keys

  /** No two messages of the batches have one key. */
  ghost predicate DistinctIn(cuts: seq<Cut>) {
    && (forall a :: 0 <= a < |cuts| ==> DistinctKeys(cuts[a].batch))
    && forall a, b, r, q :: 0 <= a < b < |cuts| && r in cuts[a].batch && q in cuts[b].batch ==> r.stableKey != q.stableKey
  }

  lemma {:induction false} KnownIsBrought(f: Course, n: nat, k: Text) returns (a: nat, r: MessageRecord)
    requires n <= |f.cuts| && k in f.known[n]
    ensures a < n && r in f.cuts[a].batch && r.stableKey == k
  {
    if k in f.known[n - 1] {
      a, r := KnownIsBrought(f, n - 1, k);
    } else {
      var c := NewlyKnown(f, n - 1, k);
      a, r := n - 1, c.record;
    }
  }

  /** No record of batch n has a key that was met before, in it or earlier. */
  ghost predicate FreshAt(f: Course, n: nat)
    requires n < |f.cuts|
  {
    DistinctCandidates(CandsIn(f.cuts[n])) && forall c :: c in CandsIn(f.cuts[n]) ==> c.record.stableKey !in f.known[n]
  }

  lemma DistinctIsFresh(f: Course, n: nat)
    requires n < |f.cuts| && DistinctIn(f.cuts)
    ensures FreshAt(f, n)
  {
    CandidatesOf(f.cuts[n].conversations, f.cuts[n].batch);
    forall c | c in CandsIn(f.cuts[n]) ensures c.record.stableKey !in f.known[n] {
      if c.record.stableKey in f.known[n] {
        var a, r := KnownIsBrought(f, n, c.record.stableKey);
      }
    }
  }

  lemma {:induction false} CandidateIsKnown(messages: Messages, cands: seq<Candidate>, keys: seq<MsgKey>, i: nat)
    requires |cands| == |keys| && i < |cands|
    ensures cands[i].record.stableKey in SeenAfter(messages, cands, keys)
  {
    if i < |cands| - 1 {
      CandidateIsKnown(messages, cands[..|cands| - 1], keys[..|cands| - 1], i);
    }
  }

  predicate SameAt(occupied: Occupied, occupied': Occupied, key: MsgKey) {
    (key in occupied' <==> key in occupied) && (key in occupied ==> occupied'[key] == occupied[key])
  }

  /** A key that no record has had is as free as it was before the import. */
  lemma {:induction false} TakenElsewhere(f: Course, n: nat, k: Text)
    requires n <= |f.cuts| && k !in f.known[n]
    ensures SameAt(OccupiedBy(f.rows), f.taken[n], Base(k))
  {
    if n > 0 {
      var cands := CandsIn(f.cuts[n - 1]);
      assert f.StepsAt(n - 1);
      SeenElsewhere(f.known[n - 1], cands, f.KeysAt(n - 1), k);
      TakenElsewhere(f, n - 1, k);
      forall c | c in cands ensures c.record.stableKey != k {
        var i :| 0 <= i < |cands| && cands[i] == c;
        CandidateIsKnown(f.known[n - 1], cands, f.KeysAt(n - 1), i);
      }
      OccupiedElsewhere(f.taken[n - 1], cands, k);
    }
  }

  lemma FreshKey(f: Course, n: nat, i: nat)
    requires n < |f.cuts| && FreshAt(f, n) && i < |CandsIn(f.cuts[n])|
    ensures var c := CandsIn(f.cuts[n])[i]; f.KeysAt(n)[i] == Resolved(f.rows, c.record.stableKey, c.source)
  {
    var taken, cands := f.taken[n], CandsIn(f.cuts[n]);
    var k := cands[i].record.stableKey;
    KeyAt(taken, cands, i);
    OccupiedElsewhere(taken, cands[..i], k);
    assert cands[i] in cands;
    TakenElsewhere(f, n, k);
  }

  lemma SeenIsResolved(rows: Rows, before: Messages, cands: seq<Candidate>, keys: seq<MsgKey>)
    requires |cands| == |keys| && IdsResolved(rows, before)
    requires forall i :: 0 <= i < |cands| ==> keys[i] == Resolved(rows, cands[i].record.stableKey, cands[i].source)
    ensures IdsResolved(rows, SeenAfter(before, cands, keys))
  {
    var seen := SeenAfter(before, cands, keys);
    forall k | k in seen ensures seen[k].id == Resolved(rows, k, seen[k].source) {
      var i := SeenIsOf(before, cands, keys, k);
    }
  }

  /** Every known id is its record's resolution against the table before the import. */
  lemma {:induction false} KnownIsResolved(f: Course, n: nat)
    requires n <= |f.cuts| && DistinctIn(f.cuts)
    ensures IdsResolved(f.rows, f.known[n])
  {
    if n > 0 {
      KnownIsResolved(f, n - 1);
      DistinctIsFresh(f, n - 1);
      var cands, keys := CandsIn(f.cuts[n - 1]), f.KeysAt(n - 1);
      forall i | 0 <= i < |cands| ensures keys[i] == Resolved(f.rows, cands[i].record.stableKey, cands[i].source) {
        FreshKey(f, n - 1, i);
      }
      SeenIsResolved(f.rows, f.known[n - 1], cands, keys);
      assert f.StepsAt(n - 1);
    }
  }

  /** What is known stays known, as it was. */
  ghost predicate Extends(known: Messages, known': Messages) {
    forall k :: k in known ==> k in known' && known'[k] == known[k]
  }

  lemma {:induction false} KnownIsKept(f: Course, n: nat, m: nat)
    requires n <= m <= |f.cuts| && DistinctIn(f.cuts)
    ensures Extends(f.known[n], f.known[m])
    decreases m
  {
    if n < m {
      KnownIsKept(f, n, m - 1);
      DistinctIsFresh(f, m - 1);
      assert f.StepsAt(m - 1);
      forall k | k in f.known[m - 1] ensures k in f.known[m] && f.known[m][k] == f.known[m - 1][k] {
        SeenElsewhere(f.known[m - 1], CandsIn(f.cuts[m - 1]), f.KeysAt(m - 1), k);
      }
    }
  }

  // ------------------------------------------------- when a reply crosses, cuts aside

  /** The row that each key names in the end. */
  function Finally(f: Course): Messages {
    f.known[|f.cuts|]
  }

  /** A message of the import replies to another one in another conversation. */
  ghost predicate SomeReplyCrosses(f: Course) {
    exists a :: 0 <= a < |f.cuts| && SomeCrosses(f, Finally(f), f.cuts[a].batch)
  }

  lemma CrossesLater(f: Course, own: Messages, known: Messages, last: Messages, r: MessageRecord)
    requires Crosses(f, own, known, r) && Extends(own, last) && Extends(known, last)
    ensures Crosses(f, last, last, r)
  {
  }

  lemma CrossesInTheEnd(f: Course, a: nat, n: nat, r: MessageRecord)
    requires a < |f.cuts| && n <= |f.cuts| && DistinctIn(f.cuts) && r in f.cuts[a].batch
    requires Crosses(f, f.known[a + 1], f.known[n], r)
    ensures SomeReplyCrosses(f)
  {
    KnownIsKept(f, a + 1, |f.cuts|);
    KnownIsKept(f, n, |f.cuts|);
    CrossesLater(f, f.known[a + 1], f.known[n], Finally(f), r);
    assert SomeCrosses(f, Finally(f), f.cuts[a].batch);
  }

  lemma InsertIsLink(f: Course, ctx: Ctx, n: nat)
    requires n < |f.cuts| && FreshAt(f, n) && InsertCrosses(f, ctx, n)
    ensures LinkCrosses(f, n)
  {
    var cands, keys, known := CandsIn(f.cuts[n]), f.KeysAt(n), f.known[n + 1];
    assert f.StepsAt(n);
    var i :| 0 <= i < |cands| && WriteCrosses(f, f.taken[n], ctx, cands, keys, known, i);
    SeenAt(f.known[n], cands, keys, i);
    assert cands[i] in cands;
    assert Crosses(f, known, known, cands[i].record);
  }

  lemma LateRecord(f: Course, own: Messages, before: Messages, known: Messages, batch: seq<MessageRecord>) returns (r: MessageRecord)
    requires SomeLateCrosses(f, own, before, known, batch)
    ensures r in batch && Crosses(f, own, known, r)
  {
    r :| r in batch && LateCrosses(f, own, before, known, r);
  }

  lemma WakeIsCrossing(f: Course, n: nat)
    requires n < |f.cuts| && DistinctIn(f.cuts) && WakeCrosses(f, n)
    ensures SomeReplyCrosses(f)
  {
    var a :| 0 <= a < n && WakeCrossesFrom(f, n, a);
    var r := LateRecord(f, f.known[a + 1], f.known[n], f.known[n + 1], f.cuts[a].batch);
    CrossesInTheEnd(f, a, n + 1, r);
  }

  lemma LinkIsCrossing(f: Course, n: nat)
    requires n < |f.cuts| && DistinctIn(f.cuts) && LinkCrosses(f, n)
    ensures SomeReplyCrosses(f)
  {
    var r :| r in f.cuts[n].batch && Crosses(f, f.known[n + 1], f.known[n + 1], r);
    CrossesInTheEnd(f, n, n + 1, r);
  }

  lemma RefusedIsCrossing(f: Course, ctx: Ctx, n: nat)
    requires n < |f.cuts| && DistinctIn(f.cuts) && Refuses(f, ctx, n)
    ensures SomeReplyCrosses(f)
  {
    DistinctIsFresh(f, n);
    if WakeCrosses(f, n) {
      WakeIsCrossing(f, n);
    } else {
      assert InsertCrosses(f, ctx, n) ==> LinkCrosses(f, n) by {
        if InsertCrosses(f, ctx, n) {
          InsertIsLink(f, ctx, n);
        }
      }
      LinkIsCrossing(f, n);
    }
  }

  lemma {:induction false} FirstKnown(f: Course, a: nat, m: nat, t: Text) returns (n: nat, c: Candidate)
    requires a <= m <= |f.cuts| && t in f.known[m] && t !in f.known[a]
    ensures a <= n < m && t !in f.known[n] && t in f.known[n + 1]
    ensures c in CandsIn(f.cuts[n]) && c.record in f.cuts[n].batch && c.record.stableKey == t
    decreases m
  {
    if t in f.known[m - 1] {
      n, c := FirstKnown(f, a, m - 1, t);
    } else {
      n := m - 1;
      c := NewlyKnown(f, n, t);
    }
  }

  /** With distinct keys a record that is persisted becomes known with its own batch. */
  lemma KnownWithItsBatch(f: Course, a: nat, r: MessageRecord) returns (c: Candidate)
    requires a < |f.cuts| && DistinctIn(f.cuts) && r in f.cuts[a].batch && r.stableKey in Finally(f)
    ensures r.stableKey in f.known[a + 1] && c in CandsIn(f.cuts[a])
  {
    var n;
    n, c := FirstKnown(f, 0, |f.cuts|, r.stableKey);
    assert n == a;
  }

  lemma CrossingIsRefused(f: Course, ctx: Ctx, a: nat, r: MessageRecord)
    requires a < |f.cuts| && DistinctIn(f.cuts) && r in f.cuts[a].batch && Crosses(f, Finally(f), Finally(f), r)
    ensures exists n :: 0 <= n < |f.cuts| && Refuses(f, ctx, n)
  {
    var t, own := ReplyKey(r).value, f.known[a + 1];
    var c := KnownWithItsBatch(f, a, r);
    KnownIsKept(f, a + 1, |f.cuts|);
    if t in own {
      assert Crosses(f, own, own, r);
      assert Refuses(f, ctx, a);
    } else {
      var n, d := FirstKnown(f, a + 1, |f.cuts|, t);
      KnownIsKept(f, n + 1, |f.cuts|);
      assert LateCrosses(f, own, f.known[n], f.known[n + 1], r);
      assert WakeCrossesFrom(f, n, a);
      assert Refuses(f, ctx, n);
    }
  }

  /** With distinct keys the batches are refused exactly when some reply and its target, both
      imported, belong to different conversations. */
  lemma CrossingsAreRefusedExactly(f: Course, ctx: Ctx)
    requires DistinctIn(f.cuts)
    ensures (exists n :: 0 <= n < |f.cuts| && Refuses(f, ctx, n)) <==> SomeReplyCrosses(f)
  {
    if n :| 0 <= n < |f.cuts| && Refuses(f, ctx, n) {
      RefusedIsCrossing(f, ctx, n);
    }
    if SomeReplyCrosses(f) {
      var a :| 0 <= a < |f.cuts| && SomeCrosses(f, Finally(f), f.cuts[a].batch);
      var r :| r in f.cuts[a].batch && Crosses(f, Finally(f), Finally(f), r);
      CrossingIsRefused(f, ctx, a, r);
    }
  }

  // ------------------------------------------- the same, said of the records alone

  /** The conversation of the row that a record key names when no other record shares the key. */
  function PlaceAt(rows: Rows, filings: Filings, key: Text, source: SourceConv): ConvKey {
    var id := Resolved(rows, key, source);
    if id in rows then rows[id].conversation else Filed(filings, source)
  }

  /** A record and the message that it replies to are both imported, into different conversations. */
  predicate ReplyLeaves(rows: Rows, filings: Filings, home: Text -> Option<Home>, r: MessageRecord) {
    var own, reply := home(r.stableKey), r.replyToKey;
    own.Some? && reply.Some? && reply.value != EMPTY_TEXT && home(reply.value).Some?
    && PlaceAt(rows, filings, r.stableKey, own.value.0) != PlaceAt(rows, filings, reply.value, home(reply.value).value.0)
  }

  predicate SomeReplyLeaves(rows: Rows, filings: Filings, home: Text -> Option<Home>, records: seq<MessageRecord>) {
    exists r :: r in records && ReplyLeaves(rows, filings, home, r)
  }

  ghost predicate Brings(f: Course, records: seq<MessageRecord>) {
    forall r :: r in records <==> exists a :: 0 <= a < |f.cuts| && r in f.cuts[a].batch
  }

  lemma LeaveIsCrossing(f: Course, home: Text -> Option<Home>, r: MessageRecord)
    requires IdsResolved(f.rows, Finally(f)) && forall k :: home(k) == SourceAt(Finally(f), k)
    ensures ReplyLeaves(f.rows, f.filings, home, r) <==> Crosses(f, Finally(f), Finally(f), r)
  {
  }

  lemma LeavingCrosses(f: Course, home: Text -> Option<Home>, records: seq<MessageRecord>)
    requires IdsResolved(f.rows, Finally(f)) && Brings(f, records) && forall k :: home(k) == SourceAt(Finally(f), k)
    requires SomeReplyLeaves(f.rows, f.filings, home, records)
    ensures SomeReplyCrosses(f)
  {
    var r :| r in records && ReplyLeaves(f.rows, f.filings, home, r);
    LeaveIsCrossing(f, home, r);
    var a :| 0 <= a < |f.cuts| && r in f.cuts[a].batch;
    assert SomeCrosses(f, Finally(f), f.cuts[a].batch);
  }

  lemma CrossingLeaves(f: Course, home: Text -> Option<Home>, records: seq<MessageRecord>)
    requires IdsResolved(f.rows, Finally(f)) && Brings(f, records) && forall k :: home(k) == SourceAt(Finally(f), k)
    requires SomeReplyCrosses(f)
    ensures SomeReplyLeaves(f.rows, f.filings, home, records)
  {
    var a :| 0 <= a < |f.cuts| && SomeCrosses(f, Finally(f), f.cuts[a].batch);
    var r :| r in f.cuts[a].batch && Crosses(f, Finally(f), Finally(f), r);
    LeaveIsCrossing(f, home, r);
  }

  lemma LeavesExactly(f: Course, home: Text -> Option<Home>, records: seq<MessageRecord>)
    requires DistinctIn(f.cuts) && Brings(f, records) && forall k :: home(k) == SourceAt(Finally(f), k)
    ensures SomeReplyLeaves(f.rows, f.filings, home, records) <==> SomeReplyCrosses(f)
  {
    KnownIsResolved(f, |f.cuts|);
    if SomeReplyLeaves(f.rows, f.filings, home, records) {
      LeavingCrosses(f, home, records);
    } else if SomeReplyCrosses(f) {
      CrossingLeaves(f, home, records);
    }
  }

  // The messages of the batches are those of the records.

  function BatchesOf(cuts: seq<Cut>): (r: seq<seq<MessageRecord>>)
    ensures |r| == |cuts| && forall i :: 0 <= i < |r| ==> r[i] == cuts[i].batch
  {
    seq(|cuts|, i requires 0 <= i < |cuts| => cuts[i].batch)
  }

  lemma BatchesConcat(a: seq<Cut>, b: seq<Cut>)
    ensures Flatten(BatchesOf(a + b)) == Flatten(BatchesOf(a)) + Flatten(BatchesOf(b))
    decreases |a|
  {
    if a == [] {
      assert a + b == b && BatchesOf(a) == [];
    } else {
      assert (a + b)[1..] == a[1..] + b;
      assert BatchesOf(a + b)[1..] == BatchesOf(a[1..] + b) && BatchesOf(a)[1..] == BatchesOf(a[1..]);
      BatchesConcat(a[1..], b);
    }
  }

  lemma OneCutBrings(cut: Cut)
    ensures Flatten(BatchesOf([cut])) == cut.batch
  {
    assert BatchesOf([cut])[1..] == [];
  }

  lemma StepBrings(conversations: Conversations, buffer: seq<MessageRecord>, r: ImportRecord)
    ensures Flatten(BatchesOf(StepCuts(conversations, buffer, r))) + StepBuffer(buffer, r)
            == if r.AMessage? then buffer + [r.message] else buffer
  {
    if Buffers(buffer, r) {
      assert BatchesOf([]) == [];
    } else {
      OneCutBrings(Cut(conversations, Flushed(buffer, r)));
    }
  }

  lemma PartsBring(first: seq<Cut>, rest: seq<Cut>, buffer: seq<MessageRecord>, buffer': seq<MessageRecord>,
                   head: seq<MessageRecord>, tail: seq<MessageRecord>)
    requires Flatten(BatchesOf(first)) + buffer' == buffer + head && Flatten(BatchesOf(rest)) == buffer' + tail
    ensures Flatten(BatchesOf(first + rest)) == buffer + (head + tail)
  {
    BatchesConcat(first, rest);
    assert Flatten(BatchesOf(first)) + (buffer' + tail) == (buffer + head) + tail;
  }

  lemma {:induction false} CutsBring(conversations: Conversations, ctx: Ctx, buffer: seq<MessageRecord>, records: seq<ImportRecord>)
    ensures Flatten(BatchesOf(CutsOf(conversations, ctx, buffer, records))) == buffer + MessagesOf(records)
    decreases |records|
  {
    if records == [] {
      OneCutBrings(Cut(conversations, buffer));
    } else {
      var conversations', buffer' := StepConversations(conversations, ctx, records[0]), StepBuffer(buffer, records[0]);
      var head := if records[0].AMessage? then [records[0].message] else [];
      CutsBring(conversations', ctx, buffer', records[1..]);
      StepBrings(conversations, buffer, records[0]);
      PartsBring(StepCuts(conversations, buffer, records[0]), CutsOf(conversations', ctx, buffer', records[1..]),
                 buffer, buffer', head, MessagesOf(records[1..]));
    }
  }

  lemma {:induction false} DistinctBatches(cuts: seq<Cut>)
    requires DistinctKeys(Flatten(BatchesOf(cuts)))
    ensures DistinctIn(cuts)
    decreases |cuts|
  {
    if cuts != [] {
      var rest := cuts[1..];
      assert BatchesOf(cuts)[1..] == BatchesOf(rest);
      DistinctParts(cuts[0].batch, Flatten(BatchesOf(rest)));
      DistinctBatches(rest);
      forall a | 0 <= a < |cuts| ensures DistinctKeys(cuts[a].batch) {
        assert a > 0 ==> cuts[a] == rest[a - 1];
      }
      forall a, b, r, q | 0 <= a < b < |cuts| && r in cuts[a].batch && q in cuts[b].batch ensures r.stableKey != q.stableKey {
        assert cuts[b] == rest[b - 1];
        if a == 0 {
          BroughtByOne(rest, b - 1, q);
        } else {
          assert cuts[a] == rest[a - 1];
        }
      }
    }
  }

  lemma {:induction false} BroughtByOne(cuts: seq<Cut>, a: nat, r: MessageRecord)
    requires a < |cuts| && r in cuts[a].batch
    ensures r in Flatten(BatchesOf(cuts))
    decreases |cuts|
  {
    assert BatchesOf(cuts)[1..] == BatchesOf(cuts[1..]);
    if a > 0 {
      BroughtByOne(cuts[1..], a - 1, r);
    }
  }

  lemma {:induction false} OneBroughtIt(cuts: seq<Cut>, r: MessageRecord) returns (a: nat)
    requires r in Flatten(BatchesOf(cuts))
    ensures a < |cuts| && r in cuts[a].batch
    decreases |cuts|
  {
    if r in cuts[0].batch {
      a := 0;
    } else {
      assert BatchesOf(cuts)[1..] == BatchesOf(cuts[1..]);
      a := OneBroughtIt(cuts[1..], r);
      a := a + 1;
    }
  }

  lemma BringsAll(f: Course)
    ensures Brings(f, Flatten(BatchesOf(f.cuts)))
  {
    forall r ensures r in Flatten(BatchesOf(f.cuts)) <==> exists a :: 0 <= a < |f.cuts| && r in f.cuts[a].batch {
      if r in Flatten(BatchesOf(f.cuts)) {
        var a := OneBroughtIt(f.cuts, r);
      }
      if a :| 0 <= a < |f.cuts| && r in f.cuts[a].batch {
        BroughtByOne(f.cuts, a, r);
      }
    }
  }

  // Where each key comes from.

  lemma NextSource(f: Course, n: nat, key: Text)
    requires n < |f.cuts|
    ensures SourceAt(f.known[n + 1], key) == Coalesce(SourceIn(f.cuts[n].conversations, f.cuts[n].batch, key), SourceAt(f.known[n], key))
  {
    assert f.StepsAt(n);
    SeenSource(f.known[n], f.cuts[n].conversations, f.cuts[n].batch, f.KeysAt(n), key);
  }

  /** One record's part in where a key comes from. */
  lemma StepSource(conversations: Conversations, ctx: Ctx, buffer: seq<MessageRecord>, records: seq<ImportRecord>, key: Text)
    requires records != []
    ensures var r := records[0];
            Coalesce(SourceOf(conversations, ctx, records, key), SourceIn(conversations, buffer, key))
            == Coalesce(SourceOf(StepConversations(conversations, ctx, r), ctx, records[1..], key),
                        SourceIn(conversations, if r.AMessage? then buffer + [r.message] else buffer, key))
  {
    if records[0].AMessage? {
      SourceInConcat(conversations, buffer, [records[0].message], key);
    }
  }

  lemma {:induction false} CourseSource(f: Course, ctx: Ctx, n: nat, conversations: Conversations, buffer: seq<MessageRecord>,
                                        records: seq<ImportRecord>, key: Text)
    requires n <= |f.cuts| && f.cuts[n..] == CutsOf(conversations, ctx, buffer, records)
    ensures SourceAt(Finally(f), key)
            == Coalesce(Coalesce(SourceOf(conversations, ctx, records, key), SourceIn(conversations, buffer, key)),
                        SourceAt(f.known[n], key))
    decreases |records|
  {
    if records == [] {
      assert f.cuts[n..][0] == f.cuts[n];
      NextSource(f, n, key);
    } else {
      var conversations', buffer' := StepConversations(conversations, ctx, records[0]), StepBuffer(buffer, records[0]);
      StepSource(conversations, ctx, buffer, records, key);
      if Buffers(buffer, records[0]) {
        CourseSource(f, ctx, n, conversations', buffer', records[1..], key);
      } else {
        assert f.cuts[n..][0] == f.cuts[n] && f.cuts[n..][1..] == f.cuts[n + 1..];
        NextSource(f, n, key);
        CourseSource(f, ctx, n + 1, conversations', buffer', records[1..], key);
      }
    }
  }

  /** With distinct message keys an import succeeds exactly when no reply leaves for another
      conversation, and then every reply whose target it brings, earlier or later, in whatever
      batch, shows that target. */
  lemma RepliesAreResolved(s: Session, ctx: Ctx, records: seq<ImportRecord>)
    requires AtStart(s) && AllRowsFit(s.rows) && DistinctKeys(MessagesOf(records))
    ensures ImportFrom(s, ctx, [], records).Some?
            <==> !SomeReplyLeaves(s.rows, FilingsAfter(s.filings, ctx, records), k => SourceOf(map[], ctx, records, k), MessagesOf(records))
    ensures ImportFrom(s, ctx, [], records).Some? ==> Resolves(s, ctx, records, ImportFrom(s, ctx, [], records).value)
  {
    var f := CourseFor(s, ctx, records);
    CutsBring(map[], ctx, [], records);
    assert [] + MessagesOf(records) == MessagesOf(records);
    DistinctBatches(f.cuts);
    BringsAll(f);
    forall k ensures SourceOf(map[], ctx, records, k) == SourceAt(Finally(f), k) {
      assert f.cuts[0..] == f.cuts;
      CourseSource(f, ctx, 0, map[], [], records, k);
    }
    LeavesExactly(f, k => SourceOf(map[], ctx, records, k), MessagesOf(records));
    CrossingsAreRefusedExactly(f, ctx);
    ImportIsRefusedExactly(s, ctx, records);
    if ImportFrom(s, ctx, [], records).Some? {
      ImportResolves(s, ctx, records);
    }
  }

  lemma {:induction false} CutSource(f: Course, n: nat, conversations: Conversations, batches: seq<seq<MessageRecord>>, key: Text)
    requires n <= |f.cuts| && f.cuts[n..] == CutInto(conversations, batches)
    ensures SourceAt(Finally(f), key) == Coalesce(SourceIn(conversations, Flatten(batches), key), SourceAt(f.known[n], key))
    decreases |batches|
  {
    if batches != [] {
      assert f.cuts[n..][0] == f.cuts[n];
      assert f.cuts[n + 1..] == CutInto(conversations, batches[1..]);
      NextSource(f, n, key);
      CutSource(f, n + 1, conversations, batches[1..], key);
      SourceInConcat(conversations, batches[0], Flatten(batches[1..]), key);
    }
  }

  lemma CutIsRefusedExactly(s: Session, ctx: Ctx, batches: seq<seq<MessageRecord>>)
    requires s.messages == map[] && s.pending == map[] && AllRowsFit(s.rows) && DistinctKeys(Flatten(batches))
    ensures PersistBatches(s, ctx, batches).Some?
            <==> !SomeReplyLeaves(s.rows, s.filings, k => SourceIn(s.conversations, Flatten(batches), k), Flatten(batches))
  {
    var f := CourseThrough(s, batches);
    assert BatchesOf(f.cuts) == batches;
    DistinctBatches(f.cuts);
    BringsAll(f);
    forall k ensures SourceIn(s.conversations, Flatten(batches), k) == SourceAt(Finally(f), k) {
      assert f.cuts[0..] == f.cuts;
      CutSource(f, 0, s.conversations, batches, k);
    }
    LeavesExactly(f, k => SourceIn(s.conversations, Flatten(batches), k), Flatten(batches));
    CrossingsAreRefusedExactly(f, ctx);
    BatchesAreRefusedExactly(s, ctx, batches);
  }

  /** Cutting the same records into other batches changes neither whether they are accepted nor
      any id, reply or waiting list. */
  lemma BatchBoundariesDoNotMatter(s: Session, ctx: Ctx, a: seq<seq<MessageRecord>>, b: seq<seq<MessageRecord>>)
    requires s.messages == map[] && s.pending == map[] && AllRowsFit(s.rows)
    requires Flatten(a) == Flatten(b) && DistinctKeys(Flatten(a))
    ensures var x, y := PersistBatches(s, ctx, a), PersistBatches(s, ctx, b);
            && (x.Some? <==> !SomeReplyLeaves(s.rows, s.filings, k => SourceIn(s.conversations, Flatten(a), k), Flatten(a)))
            && (x.Some? <==> y.Some?)
            && (x.Some? ==> SameResolution(x.value, y.value))
  {
    CutIsRefusedExactly(s, ctx, a);
    CutIsRefusedExactly(s, ctx, b);
    if PersistBatches(s, ctx, a).Some? {
      BatchesResolveAlike(s, ctx, a, b);
    }
  }

  // ------------------------------------------------------- two ways to be refused

  /** Two messages and their conversations, one replying to the other. */
  function Pair(a: ImportRecord, b: ImportRecord, target: MessageRecord, reply: MessageRecord): seq<ImportRecord> {
    [a, b, AMessage(target), AMessage(reply)]
  }

  lemma PairUnfolds(ctx: Ctx, a: ImportRecord, b: ImportRecord, target: MessageRecord, reply: MessageRecord)
    requires a.ConversationRecord? && b.ConversationRecord?
    ensures MessagesOf(Pair(a, b, target, reply)) == [target, reply]
  {
    var records := Pair(a, b, target, reply);
    assert records[1..] == [b, AMessage(target), AMessage(reply)] && records[1..][1..] == [AMessage(target), AMessage(reply)];
    assert records[1..][1..][1..] == [AMessage(reply)] && records[1..][1..][1..][1..] == [];
    assert MessagesOf(records[1..][1..][1..]) == [reply];
    assert MessagesOf(records[1..][1..]) == [target, reply];
    assert MessagesOf(records[1..]) == [target, reply];
  }

  lemma OneSource(conversations: Conversations, m: MessageRecord, key: Text)
    ensures SourceIn(conversations, [m], key)
            == if m.stableKey == key && m.conversationKey in conversations
               then Some((conversations[m.conversationKey], m.conversationKey)) else None
  {
    assert [m][..0] == [];
  }

  lemma TwoSources(conversations: Conversations, ctx: Ctx, target: MessageRecord, reply: MessageRecord, key: Text)
    ensures SourceOf(conversations, ctx, [AMessage(target), AMessage(reply)], key)
            == Coalesce(SourceIn(conversations, [reply], key), SourceIn(conversations, [target], key))
  {
    var records := [AMessage(target), AMessage(reply)];
    assert records[1..] == [AMessage(reply)] && records[1..][1..] == [];
    assert SourceOf(conversations, ctx, records[1..], key) == SourceIn(conversations, [reply], key);
  }

  lemma PairSources(ctx: Ctx, a: ImportRecord, b: ImportRecord, target: MessageRecord, reply: MessageRecord)
    requires a.ConversationRecord? && b.ConversationRecord? && target.stableKey != reply.stableKey
    requires target.conversationKey == a.key && reply.conversationKey == b.key && (a.key == b.key ==> a == b)
    ensures var home := k => SourceOf(map[], ctx, Pair(a, b, target, reply), k);
            && home(target.stableKey) == Some((SourceConv(ctx.account, a.namespace, a.sourceKey), a.key))
            && home(reply.stableKey) == Some((SourceConv(ctx.account, b.namespace, b.sourceKey), b.key))
  {
    var records := Pair(a, b, target, reply);
    var conversations := map[a.key := SourceConv(ctx.account, a.namespace, a.sourceKey)][b.key := SourceConv(ctx.account, b.namespace, b.sourceKey)];
    assert records[1..][1..] == [AMessage(target), AMessage(reply)];
    forall k ensures SourceOf(map[], ctx, records, k) == SourceOf(conversations, ctx, records[1..][1..], k) {
    }
    TwoSources(conversations, ctx, target, reply, target.stableKey);
    TwoSources(conversations, ctx, target, reply, reply.stableKey);
    OneSource(conversations, target, target.stableKey);
    OneSource(conversations, reply, target.stableKey);
    OneSource(conversations, reply, reply.stableKey);
  }

  lemma TwoFilings(filings: Filings, ctx: Ctx, target: MessageRecord, reply: MessageRecord)
    ensures FilingsAfter(filings, ctx, [AMessage(target), AMessage(reply)]) == filings
  {
    var records := [AMessage(target), AMessage(reply)];
    assert records[1..] == [AMessage(reply)] && records[1..][1..] == [];
    assert FilingsAfter(filings, ctx, records[1..]) == filings;
  }

  lemma PairFilings(filings: Filings, ctx: Ctx, a: ImportRecord, b: ImportRecord, target: MessageRecord, reply: MessageRecord)
    ensures FilingsAfter(filings, ctx, Pair(a, b, target, reply)) == StepFilings(StepFilings(filings, ctx, a), ctx, b)
  {
    var records := Pair(a, b, target, reply);
    assert records[1..][1..] == [AMessage(target), AMessage(reply)];
    TwoFilings(StepFilings(StepFilings(filings, ctx, a), ctx, b), ctx, target, reply);
    assert FilingsAfter(StepFilings(filings, ctx, a), ctx, records[1..]) == StepFilings(StepFilings(filings, ctx, a), ctx, b);
  }

  /** Refused however the two messages are cut and whatever the job: their rows lie apart. */
  lemma PairIsRefusedExactly(s: Session, ctx: Ctx, a: ImportRecord, b: ImportRecord, target: MessageRecord, reply: MessageRecord)
    requires AtStart(s) && AllRowsFit(s.rows)
    requires a.ConversationRecord? && b.ConversationRecord? && target.stableKey != reply.stableKey
    requires target.conversationKey == a.key && reply.conversationKey == b.key && (a.key == b.key ==> a == b)
    requires ReplyKey(reply) == Some(target.stableKey) && ReplyKey(target) == None
    ensures var filings := StepFilings(StepFilings(s.filings, ctx, a), ctx, b);
            ImportFrom(s, ctx, [], Pair(a, b, target, reply)).None?
            <==> PlaceAt(s.rows, filings, reply.stableKey, SourceConv(ctx.account, b.namespace, b.sourceKey))
                 != PlaceAt(s.rows, filings, target.stableKey, SourceConv(ctx.account, a.namespace, a.sourceKey))
  {
    var records := Pair(a, b, target, reply);
    PairUnfolds(ctx, a, b, target, reply);
    PairSources(ctx, a, b, target, reply);
    PairFilings(s.filings, ctx, a, b, target, reply);
    RepliesAreResolved(s, ctx, records);
    assert ReplyLeaves(s.rows, FilingsAfter(s.filings, ctx, records), k => SourceOf(map[], ctx, records, k), reply)
           <==> SomeReplyLeaves(s.rows, FilingsAfter(s.filings, ctx, records), k => SourceOf(map[], ctx, records, k), [target, reply]);
  }

  /** Into an empty archive: a reply to a message of another conversation. */
  lemma ReplyAcrossConversations(s: Session, ctx: Ctx, a: ImportRecord, b: ImportRecord, target: MessageRecord, reply: MessageRecord)
    requires AtStart(s) && s.rows == map[] && s.filings == map[]
    requires a.ConversationRecord? && b.ConversationRecord? && a.key != b.key
    requires (a.namespace, a.sourceKey) != (b.namespace, b.sourceKey) && target.stableKey != reply.stableKey
    requires target.conversationKey == a.key && reply.conversationKey == b.key
    requires ReplyKey(reply) == Some(target.stableKey) && ReplyKey(target) == None
    ensures ImportFrom(s, ctx, [], Pair(a, b, target, reply)).None?
  {
    PairIsRefusedExactly(s, ctx, a, b, target, reply);
    assert StepFilings(s.filings, ctx, a) == map[SourceConv(ctx.account, a.namespace, a.sourceKey) := Given(a.key)];
  }
}
