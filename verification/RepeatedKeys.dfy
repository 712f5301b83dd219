/** When two records of a batch get one row key, and the batches into which an import falls. */
module RepeatedKeys {
  import opened Basics
  import opened ArchiveRows
  import opened TextImport
  import opened ReplyResolution

  predicate SameMessage(a: Candidate, b: Candidate) {
    a.source == b.source && a.record.stableKey == b.record.stableKey
  }

  /** A batch that meets one message of one source conversation twice. */
  predicate Repeats(cands: seq<Candidate>) {
    exists i, j :: 0 <= i < j < |cands| && SameMessage(cands[i], cands[j])
  }

  // ------------------------------------------------------------- keys of one batch

  lemma {:induction false} OccupancyGrows(occupied: Occupied, cands: seq<Candidate>, n: nat, key: MsgKey)
    requires n <= |cands| && key in OccupiedAfter(occupied, cands[..n])
    ensures key in OccupiedAfter(occupied, cands)
    ensures OccupiedAfter(occupied, cands)[key] == OccupiedAfter(occupied, cands[..n])[key]
    decreases |cands|
  {
    if n < |cands| {
      var m := |cands| - 1;
      assert cands[..m][..n] == cands[..n];
      OccupancyGrows(occupied, cands[..m], n, key);
    } else {
      assert cands[..n] == cands;
    }
  }

  lemma {:induction false} KeyAt(occupied: Occupied, cands: seq<Candidate>, i: nat)
    requires i < |cands|
    ensures Keys(occupied, cands)[i] == KeyFor(OccupiedAfter(occupied, cands[..i]), cands[i])
    decreases |cands|
  {
    var n := |cands| - 1;
    if i < n {
      assert cands[..n][..i] == cands[..i];
      KeyAt(occupied, cands[..n], i);
    }
  }

  /** Each record's key is the one that the batch's final occupancy gives it. */
  lemma KeyIsFinal(occupied: Occupied, cands: seq<Candidate>, i: nat)
    requires i < |cands|
    ensures var after := OccupiedAfter(occupied, cands);
            Base(cands[i].record.stableKey) in after && Keys(occupied, cands)[i] == KeyFor(after, cands[i])
  {
    assert cands[..i + 1][..i] == cands[..i];
    KeyAt(occupied, cands, i);
    OccupancyGrows(occupied, cands, i + 1, Base(cands[i].record.stableKey));
  }

  lemma KeysCoincideExactly(occupied: Occupied, cands: seq<Candidate>, i: nat, j: nat)
    requires i < |cands| && j < |cands|
    ensures Keys(occupied, cands)[i] == Keys(occupied, cands)[j] <==> SameMessage(cands[i], cands[j])
  {
    KeyIsFinal(occupied, cands, i);
    KeyIsFinal(occupied, cands, j);
  }

  lemma KeysAreDistinctExactly(occupied: Occupied, cands: seq<Candidate>)
    ensures Distinct(Keys(occupied, cands)) <==> !Repeats(cands)
  {
    var keys := Keys(occupied, cands);
    forall i, j | 0 <= i < j < |cands| ensures keys[i] == keys[j] <==> SameMessage(cands[i], cands[j]) {
      KeysCoincideExactly(occupied, cands, i, j);
    }
  }

  // ------------------------------------------------------------ the cuts of an import

  /** A batch of an import, and the conversations introduced before it was flushed. */
  datatype Cut = Cut(conversations: Conversations, batch: seq<MessageRecord>)

  /** The batches into which an import cuts its records. */
  function CutsOf(conversations: Conversations, ctx: Ctx, buffer: seq<MessageRecord>, records: seq<ImportRecord>): seq<Cut>
    decreases |records|
  {
    if records == [] then [Cut(conversations, buffer)]
    else
      StepCuts(conversations, buffer, records[0])
      + CutsOf(StepConversations(conversations, ctx, records[0]), ctx, StepBuffer(buffer, records[0]), records[1..])
  }

  function StepCuts(conversations: Conversations, buffer: seq<MessageRecord>, r: ImportRecord): seq<Cut> {
    if Buffers(buffer, r) then [] else [Cut(conversations, Flushed(buffer, r))]
  }

  /** The record waits in the buffer, and nothing is flushed. */
  predicate Buffers(buffer: seq<MessageRecord>, r: ImportRecord) {
    r.AMessage? && |buffer| + 1 < MESSAGE_BATCH_SIZE
  }

  function Flushed(buffer: seq<MessageRecord>, r: ImportRecord): seq<MessageRecord> {
    if r.AMessage? then buffer + [r.message] else buffer
  }

  lemma AfterFailsExactly(s: Session, ctx: Ctx, buffer: seq<MessageRecord>, r: ImportRecord)
    ensures After(s, ctx, buffer, r).None? <==> !Buffers(buffer, r) && PersistBatch(s, ctx, Flushed(buffer, r)).None?
  {
  }

  lemma {:induction false} CandidatesConcat(conversations: Conversations, a: seq<MessageRecord>, b: seq<MessageRecord>)
    ensures Candidates(conversations, a + b) == Candidates(conversations, a) + Candidates(conversations, b)
  {
    if b == [] {
      assert a + b == a;
    } else {
      var n := |b| - 1;
      assert (a + b)[..|a + b| - 1] == a + b[..n];
      CandidatesConcat(conversations, a, b[..n]);
    }
  }

  lemma {:induction false} NoMoreCandidates(conversations: Conversations, batch: seq<MessageRecord>)
    ensures |Candidates(conversations, batch)| <= |batch|
  {
    if batch != [] {
      NoMoreCandidates(conversations, batch[..|batch| - 1]);
    }
  }

  // ----------------------------------------------------------- batches put together

  lemma {:induction false} OccupiedConcat(occupied: Occupied, a: seq<Candidate>, b: seq<Candidate>)
    ensures OccupiedAfter(occupied, a + b) == OccupiedAfter(OccupiedAfter(occupied, a), b)
  {
    if b == [] {
      assert a + b == a;
    } else {
      var n := |b| - 1;
      assert (a + b)[..|a + b| - 1] == a + b[..n];
      OccupiedConcat(occupied, a, b[..n]);
    }
  }

  lemma {:induction false} KeysConcat(occupied: Occupied, a: seq<Candidate>, b: seq<Candidate>)
    ensures Keys(occupied, a + b) == Keys(occupied, a) + Keys(OccupiedAfter(occupied, a), b)
  {
    if b == [] {
      assert a + b == a;
    } else {
      var n := |b| - 1;
      assert (a + b)[..|a + b| - 1] == a + b[..n];
      KeysConcat(occupied, a, b[..n]);
      OccupiedConcat(occupied, a, b[..n]);
    }
  }

  lemma {:induction false} SeenConcat(messages: Messages, a: seq<Candidate>, ka: seq<MsgKey>, b: seq<Candidate>, kb: seq<MsgKey>)
    requires |a| == |ka| && |b| == |kb|
    ensures SeenAfter(messages, a + b, ka + kb) == SeenAfter(SeenAfter(messages, a, ka), b, kb)
  {
    if b == [] {
      assert a + b == a && ka + kb == ka;
    } else {
      var n := |b| - 1;
      assert (a + b)[..|a + b| - 1] == a + b[..n];
      assert (ka + kb)[..|ka + kb| - 1] == ka + kb[..n];
      SeenConcat(messages, a, ka, b[..n], kb[..n]);
    }
  }

  // ------------------------------------------------------------------- full batches

  /** It holds the messages from the (250 i)-th on, up to 250 of them. */
  predicate CutAt(batch: seq<MessageRecord>, all: seq<MessageRecord>, i: int) {
    && 0 <= 250 * i <= |all| && |batch| == (if |all| >= 250 * i + 250 then 250 else |all| - 250 * i)
    && forall j :: 0 <= j < |batch| ==> batch[j] == all[250 * i + j]
  }

  lemma CutLater(batch: seq<MessageRecord>, full: seq<MessageRecord>, all: seq<MessageRecord>, i: int)
    requires |full| == 250 && CutAt(batch, all, i)
    ensures CutAt(batch, full + all, i + 1)
  {
    forall j | 0 <= j < |batch| ensures batch[j] == (full + all)[250 * (i + 1) + j] {
      assert batch[j] == all[250 * i + j];
    }
  }

  predicate CutEvenly(cuts: seq<Cut>, all: seq<MessageRecord>) {
    |cuts| == |all| / 250 + 1 && forall i :: 0 <= i < |cuts| ==> CutAt(cuts[i].batch, all, i)
  }

  lemma CutsLater(first: Cut, later: seq<Cut>, all: seq<MessageRecord>)
    requires |first.batch| == 250 && CutEvenly(later, all)
    ensures CutEvenly([first] + later, first.batch + all)
  {
    var cuts := [first] + later;
    forall i | 0 <= i < |cuts| ensures CutAt(cuts[i].batch, first.batch + all, i) {
      if i > 0 {
        assert cuts[i] == later[i - 1];
        CutLater(later[i - 1].batch, first.batch, all, i - 1);
      }
    }
  }

  lemma LastCut(conversations: Conversations, buffer: seq<MessageRecord>)
    requires |buffer| < 250
    ensures CutEvenly([Cut(conversations, buffer)], buffer)
  {
    assert CutAt(buffer, buffer, 0);
  }

  /** A record more makes a batch full, or waits. */
  lemma OneRecordCut(conversations: Conversations, ctx: Ctx, buffer: seq<MessageRecord>, records: seq<ImportRecord>)
    requires |buffer| < 250 && records != [] && records[0].AMessage?
    ensures var message, rest := records[0].message, records[1..];
            CutsOf(conversations, ctx, buffer, records)
            == if |buffer| < 249 then CutsOf(conversations, ctx, buffer + [message], rest)
               else [Cut(conversations, buffer + [message])] + CutsOf(conversations, ctx, [], rest)
  {
  }

  /** A run of messages is cut, in order, into batches of 250 and one with the rest. */
  lemma {:induction false} RunsAreCutEvenly(conversations: Conversations, ctx: Ctx, buffer: seq<MessageRecord>,
                                            records: seq<ImportRecord>)
    requires |buffer| < 250 && forall r :: r in records ==> r.AMessage?
    ensures CutEvenly(CutsOf(conversations, ctx, buffer, records), buffer + MessagesOf(records))
    decreases |records|
  {
    if records == [] {
      assert buffer + MessagesOf(records) == buffer;
      LastCut(conversations, buffer);
    } else {
      var message, rest := records[0].message, records[1..];
      assert buffer + MessagesOf(records) == (buffer + [message]) + MessagesOf(rest);
      OneRecordCut(conversations, ctx, buffer, records);
      if |buffer| < 249 {
        RunsAreCutEvenly(conversations, ctx, buffer + [message], rest);
      } else {
        RunsAreCutEvenly(conversations, ctx, [], rest);
        assert [] + MessagesOf(rest) == MessagesOf(rest);
        CutsLater(Cut(conversations, buffer + [message]), CutsOf(conversations, ctx, [], rest), MessagesOf(rest));
      }
    }
  }
}
