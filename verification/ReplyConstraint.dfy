/** The foreign key that keeps a reply in the conversation of its target: exactly which batches
    the database accepts. */
module ReplyConstraint {
  import opened Basics
  import opened ArchiveRows
  import opened TextImport
  import opened ReplyResolution

  /** Every row meets the foreign key. */
  predicate AllRowsFit(rows: Rows) {
    forall id :: id in rows ==> ReplyFits(rows, id)
  }

  /** The foreign key holds, and every id that the import remembers names a row. */
  predicate Consistent(s: Session) {
    && AllRowsFit(s.rows)
    && (forall k :: k in s.messages ==> s.messages[k].id in s.rows)
    && (forall t, id :: t in s.pending && id in s.pending[t] ==> id in s.rows)
  }

  /** The same rows, in the same conversations. */
  ghost predicate SamePlaces(rows: Rows, rows': Rows) {
    && rows'.Keys == rows.Keys
    && forall id :: id in rows ==> rows'[id].conversation == rows[id].conversation
  }

  lemma SamePlaced(rows: Rows, rows': Rows, id: MsgKey, target: MsgKey)
    requires SamePlaces(rows, rows')
    ensures SameConversation(rows', id, target) <==> SameConversation(rows, id, target)
  {
    assert (id in rows' <==> id in rows'.Keys) && (id in rows <==> id in rows.Keys);
    assert (target in rows' <==> target in rows'.Keys) && (target in rows <==> target in rows.Keys);
  }

  // ------------------------------------------------------------------- the upsert

  lemma {:induction false} OldRowStays(rows: Rows, ctx: Ctx, filings: Filings, cands: seq<Candidate>, keys: seq<MsgKey>,
                                       seen: Messages, id: MsgKey)
    requires |cands| == |keys|
    ensures var rows' := UpsertAll(rows, ctx, filings, cands, keys, seen);
            && (id in rows' <==> id in rows || id in keys)
            && (id in rows ==> rows'[id].conversation == rows[id].conversation)
            && (id in rows && (id !in keys || !ctx.eligible) ==> rows'[id] == rows[id])
  {
    if cands != [] {
      var n := |cands| - 1;
      OldRowStays(rows, ctx, filings, cands[..n], keys[..n], seen, id);
      assert id in keys <==> id in keys[..n] || id == keys[n];
    }
  }

  lemma {:induction false} FirstWriter(keys: seq<MsgKey>, id: MsgKey) returns (i: nat)
    requires id in keys
    ensures i < |keys| && keys[i] == id && id !in keys[..i]
  {
    var n := |keys| - 1;
    if id in keys[..n] {
      i := FirstWriter(keys[..n], id);
      assert keys[..n][..i] == keys[..i];
    } else {
      i := n;
    }
  }

  lemma {:induction false} FirstRowIsFiled(rows: Rows, ctx: Ctx, filings: Filings, cands: seq<Candidate>, keys: seq<MsgKey>,
                                           seen: Messages, i: nat)
    requires |cands| == |keys| && i < |cands| && keys[i] !in rows && keys[i] !in keys[..i]
    ensures var rows' := UpsertAll(rows, ctx, filings, cands, keys, seen);
            keys[i] in rows' && rows'[keys[i]].conversation == Filed(filings, cands[i].source)
    decreases |cands|
  {
    var n := |cands| - 1;
    if i < n {
      assert keys[..n][..i] == keys[..i];
      FirstRowIsFiled(rows, ctx, filings, cands[..n], keys[..n], seen, i);
    } else {
      OldRowStays(rows, ctx, filings, cands[..n], keys[..n], seen, keys[n]);
    }
  }

  /** The i-th record writes the row of its key. */
  predicate Writes(rows: Rows, ctx: Ctx, keys: seq<MsgKey>, i: nat)
    requires i < |keys|
  {
    ctx.eligible || (keys[i] !in rows && keys[i] !in keys[..i])
  }

  lemma {:induction false} WrittenReply(rows: Rows, ctx: Ctx, filings: Filings, cands: seq<Candidate>, keys: seq<MsgKey>,
                                        seen: Messages, i: nat)
    requires |cands| == |keys| && i < |cands| && Writes(rows, ctx, keys, i) && (ctx.eligible ==> Distinct(keys))
    ensures var rows' := UpsertAll(rows, ctx, filings, cands, keys, seen);
            keys[i] in rows'
            && rows'[keys[i]].replyTo == Coalesce(RowFor(ctx, filings, cands[i], seen).replyTo, PriorReply(rows, keys[i]))
    decreases |cands|
  {
    var n := |cands| - 1;
    if i < n {
      assert keys[..n][..i] == keys[..i];
      WrittenReply(rows, ctx, filings, cands[..n], keys[..n], seen, i);
      assert ctx.eligible ==> keys[i] != keys[n];
    } else {
      OldRowStays(rows, ctx, filings, cands[..n], keys[..n], seen, keys[n]);
      assert keys[n] !in keys[..n];
    }
  }

  /** The reply of a record that the upsert writes lies in its row's conversation. */
  predicate WriteFits(s: Session, ctx: Ctx, cands: seq<Candidate>, keys: seq<MsgKey>, i: nat)
    requires |cands| == |keys| && i < |cands|
  {
    var messages, reply := SeenAfter(s.messages, cands, keys), ReplyKey(cands[i].record);
    Writes(s.rows, ctx, keys, i) && reply.Some? && reply.value in messages ==>
      SameConversation(Upserted(s, ctx, cands, keys), keys[i], messages[reply.value].id)
  }

  lemma OneRowFits(s: Session, ctx: Ctx, cands: seq<Candidate>, keys: seq<MsgKey>, i: nat)
    requires |cands| == |keys| && i < |cands| && Consistent(s) && (ctx.eligible ==> Distinct(keys))
    requires Writes(s.rows, ctx, keys, i)
    ensures ReplyFits(Upserted(s, ctx, cands, keys), keys[i]) <==> WriteFits(s, ctx, cands, keys, i)
  {
    var messages := SeenAfter(s.messages, cands, keys);
    var rows := Upserted(s, ctx, cands, keys);
    WrittenReply(s.rows, ctx, s.filings, cands, keys, messages, i);
    if RowFor(ctx, s.filings, cands[i], messages).replyTo.None? && PriorReply(s.rows, keys[i]).Some? {
      assert ReplyFits(s.rows, keys[i]);
      OldRowStays(s.rows, ctx, s.filings, cands, keys, messages, keys[i]);
      OldRowStays(s.rows, ctx, s.filings, cands, keys, messages, PriorReply(s.rows, keys[i]).value);
    }
  }

  lemma UnwrittenFits(s: Session, ctx: Ctx, cands: seq<Candidate>, keys: seq<MsgKey>, id: MsgKey)
    requires |cands| == |keys| && Consistent(s) && id in s.rows && (id !in keys || !ctx.eligible)
    ensures ReplyFits(Upserted(s, ctx, cands, keys), id)
  {
    var messages := SeenAfter(s.messages, cands, keys);
    assert ReplyFits(s.rows, id);
    OldRowStays(s.rows, ctx, s.filings, cands, keys, messages, id);
    if s.rows[id].replyTo.Some? {
      OldRowStays(s.rows, ctx, s.filings, cands, keys, messages, s.rows[id].replyTo.value);
    }
  }

  /** The statement meets the foreign key exactly when each reply that it writes does. */
  lemma UpsertFitsExactly(s: Session, ctx: Ctx, cands: seq<Candidate>, keys: seq<MsgKey>)
    requires |cands| == |keys| && Consistent(s) && (ctx.eligible ==> Distinct(keys))
    ensures AllFit(Upserted(s, ctx, cands, keys), keys) <==> forall i :: 0 <= i < |cands| ==> WriteFits(s, ctx, cands, keys, i)
  {
    var rows := Upserted(s, ctx, cands, keys);
    forall i | 0 <= i < |cands| && Writes(s.rows, ctx, keys, i)
      ensures ReplyFits(rows, keys[i]) <==> WriteFits(s, ctx, cands, keys, i)
    {
      OneRowFits(s, ctx, cands, keys, i);
    }
    forall i | 0 <= i < |cands| && !WriteFits(s, ctx, cands, keys, i) ensures keys[i] in keys && !ReplyFits(rows, keys[i]) {
      assert Writes(s.rows, ctx, keys, i);
    }
    if forall i :: 0 <= i < |cands| ==> WriteFits(s, ctx, cands, keys, i) {
      forall id | id in keys ensures ReplyFits(rows, id) {
        var i := FirstWriter(keys, id);
        if id in s.rows && !ctx.eligible {
          UnwrittenFits(s, ctx, cands, keys, id);
        } else {
          assert Writes(s.rows, ctx, keys, i);
        }
      }
    }
  }

  // ---------------------------------------------------------- waking and linking

  /** Only replies differ. */
  ghost predicate SameButReplies(rows: Rows, rows': Rows) {
    && (forall m :: m in rows <==> m in rows')
    && (forall m :: m in rows ==> rows'[m].(replyTo := None) == rows[m].(replyTo := None))
  }

  lemma {:induction false} SetRepliesIsQuiet(rows: Rows, waiting: seq<MsgKey>, target: MsgKey)
    ensures SameButReplies(rows, SetReplies(rows, waiting, target))
  {
    if waiting != [] {
      SetRepliesIsQuiet(rows, waiting[..|waiting| - 1], target);
    }
  }

  lemma {:induction false} WakeIsQuiet(rows: Rows, pending: Pending, messages: Messages, batch: seq<MessageRecord>)
    ensures SameButReplies(rows, WakeAll((rows, pending), messages, batch).0)
  {
    if batch != [] {
      var n := |batch| - 1;
      WakeIsQuiet(rows, pending, messages, batch[..n]);
      var before := WakeAll((rows, pending), messages, batch[..n]);
      var k := batch[n].stableKey;
      if k in messages && k in before.1 {
        SetRepliesIsQuiet(before.0, before.1[k], messages[k].id);
      }
    }
  }

  lemma {:induction false} LinkIsQuiet(rows: Rows, pending: Pending, messages: Messages, batch: seq<MessageRecord>)
    ensures SameButReplies(rows, LinkAll((rows, pending), messages, batch).0)
  {
    if batch != [] {
      LinkIsQuiet(rows, pending, messages, batch[..|batch| - 1]);
    }
  }

  lemma QuietMovesNothing(rows: Rows, rows': Rows)
    requires SameButReplies(rows, rows')
    ensures SamePlaces(rows, rows')
  {
    forall id | id in rows ensures rows'[id].conversation == rows[id].conversation {
      assert rows'[id].(replyTo := None).conversation == rows[id].(replyTo := None).conversation;
    }
  }

  lemma SetRepliesMoveNothing(rows: Rows, waiting: seq<MsgKey>, target: MsgKey)
    ensures SamePlaces(rows, SetReplies(rows, waiting, target))
  {
    SetRepliesIsQuiet(rows, waiting, target);
    QuietMovesNothing(rows, SetReplies(rows, waiting, target));
  }

  lemma WakesMoveNothing(rows: Rows, pending: Pending, messages: Messages, batch: seq<MessageRecord>)
    ensures SamePlaces(rows, WakeAll((rows, pending), messages, batch).0)
  {
    WakeIsQuiet(rows, pending, messages, batch);
    QuietMovesNothing(rows, WakeAll((rows, pending), messages, batch).0);
  }

  lemma LinksMoveNothing(rows: Rows, pending: Pending, messages: Messages, batch: seq<MessageRecord>)
    ensures SamePlaces(rows, LinkAll((rows, pending), messages, batch).0)
  {
    LinkIsQuiet(rows, pending, messages, batch);
    QuietMovesNothing(rows, LinkAll((rows, pending), messages, batch).0);
  }

  lemma {:induction false} RepliesSetExactly(rows: Rows, waiting: seq<MsgKey>, target: MsgKey)
    ensures RepliesSet(rows, waiting, target) <==> forall id :: id in waiting ==> SameConversation(rows, id, target)
  {
    if waiting != [] {
      var n := |waiting| - 1;
      RepliesSetExactly(rows, waiting[..n], target);
      SetRepliesMoveNothing(rows, waiting[..n], target);
      SamePlaced(rows, SetReplies(rows, waiting[..n], target), waiting[n], target);
      assert forall id :: id in waiting <==> id in waiting[..n] || id == waiting[n];
    }
  }

  /** Every reply that waits for this record may be pointed at it. */
  predicate WakeFits(rows: Rows, pending: Pending, messages: Messages, r: MessageRecord) {
    var k := r.stableKey;
    k in messages && k in pending ==> forall id :: id in pending[k] ==> SameConversation(rows, id, messages[k].id)
  }

  /** The pass only removes targets that a record of the batch has woken. */
  lemma {:induction false} WaitingShrinks(rows: Rows, pending: Pending, messages: Messages, batch: seq<MessageRecord>, k: Text)
    ensures var after := WakeAll((rows, pending), messages, batch).1;
            && (k in after <==> k in pending && !Woken(k, pending, messages, batch))
            && (k in after ==> after[k] == pending[k])
  {
    if batch != [] {
      var n := |batch| - 1;
      WaitingShrinks(rows, pending, messages, batch[..n], k);
      WaitingShrinks(rows, pending, messages, batch[..n], batch[n].stableKey);
      assert forall r :: r in batch <==> r in batch[..n] || r == batch[n];
    }
  }

  lemma LastWakes(rows: Rows, pending: Pending, messages: Messages, batch: seq<MessageRecord>)
    requires batch != [] && forall r :: r in batch[..|batch| - 1] ==> WakeFits(rows, pending, messages, r)
    ensures WakesOne(WakeAll((rows, pending), messages, batch[..|batch| - 1]), messages, batch[|batch| - 1])
            <==> WakeFits(rows, pending, messages, batch[|batch| - 1])
  {
    var n := |batch| - 1;
    var before, k := WakeAll((rows, pending), messages, batch[..n]), batch[n].stableKey;
    WakesMoveNothing(rows, pending, messages, batch[..n]);
    WaitingShrinks(rows, pending, messages, batch[..n], k);
    if k in messages && k in before.1 {
      RepliesSetExactly(before.0, before.1[k], messages[k].id);
    } else if k in messages && k in pending {
      var r :| r in batch[..n] && r.stableKey == k;
      assert WakeFits(rows, pending, messages, r);
    }
  }

  lemma {:induction false} WakesFitExactly(rows: Rows, pending: Pending, messages: Messages, batch: seq<MessageRecord>)
    ensures WakesAll((rows, pending), messages, batch) <==> forall r :: r in batch ==> WakeFits(rows, pending, messages, r)
  {
    if batch != [] {
      var n := |batch| - 1;
      WakesFitExactly(rows, pending, messages, batch[..n]);
      assert forall r :: r in batch <==> r in batch[..n] || r == batch[n];
      if WakesAll((rows, pending), messages, batch[..n]) {
        LastWakes(rows, pending, messages, batch);
      }
    }
  }

  /** The record's own reply may be linked. */
  predicate LinkFits(rows: Rows, messages: Messages, r: MessageRecord) {
    Links(r, messages) ==> SameConversation(rows, messages[r.stableKey].id, messages[ReplyKey(r).value].id)
  }

  lemma LastLinks(rows: Rows, pending: Pending, messages: Messages, batch: seq<MessageRecord>)
    requires batch != []
    ensures LinksOne(LinkAll((rows, pending), messages, batch[..|batch| - 1]), messages, batch[|batch| - 1])
            <==> LinkFits(rows, messages, batch[|batch| - 1])
  {
    var n := |batch| - 1;
    LinksMoveNothing(rows, pending, messages, batch[..n]);
    if Links(batch[n], messages) {
      SamePlaced(rows, LinkAll((rows, pending), messages, batch[..n]).0, messages[batch[n].stableKey].id,
                 messages[ReplyKey(batch[n]).value].id);
    }
  }

  lemma {:induction false} LinksFitExactly(rows: Rows, pending: Pending, messages: Messages, batch: seq<MessageRecord>)
    ensures LinksAll((rows, pending), messages, batch) <==> forall r :: r in batch ==> LinkFits(rows, messages, r)
  {
    if batch != [] {
      var n := |batch| - 1;
      LinksFitExactly(rows, pending, messages, batch[..n]);
      LastLinks(rows, pending, messages, batch);
      assert forall r :: r in batch <==> r in batch[..n] || r == batch[n];
    }
  }

  // ------------------------------------------------------------------- one batch

  /** Each statement of the batch leaves its replies in their conversations. */
  predicate BatchFits(s: Session, ctx: Ctx, batch: seq<MessageRecord>, cands: seq<Candidate>, keys: seq<MsgKey>)
    requires |cands| == |keys|
  {
    var messages, rows := SeenAfter(s.messages, cands, keys), Upserted(s, ctx, cands, keys);
    && (forall i :: 0 <= i < |cands| ==> WriteFits(s, ctx, cands, keys, i))
    && (forall r :: r in batch ==> WakeFits(rows, s.pending, messages, r) && LinkFits(rows, messages, r))
  }

  lemma LinksAfterWakes(rows: Rows, pending: Pending, messages: Messages, batch: seq<MessageRecord>)
    ensures LinksAll(WakeAll((rows, pending), messages, batch), messages, batch)
            <==> forall r :: r in batch ==> LinkFits(rows, messages, r)
  {
    var (rows', pending') := WakeAll((rows, pending), messages, batch);
    WakesMoveNothing(rows, pending, messages, batch);
    LinksFitExactly(rows', pending', messages, batch);
    forall r | r in batch ensures LinkFits(rows', messages, r) <==> LinkFits(rows, messages, r) {
    }
  }

  lemma AcceptsExactly(s: Session, ctx: Ctx, batch: seq<MessageRecord>, cands: seq<Candidate>, keys: seq<MsgKey>)
    requires |cands| == |keys| && Consistent(s)
    ensures Accepts(s, ctx, batch, cands, keys)
            <==> (ctx.eligible ==> Distinct(keys)) && BatchFits(s, ctx, batch, cands, keys)
  {
    var messages, rows := SeenAfter(s.messages, cands, keys), Upserted(s, ctx, cands, keys);
    WakesFitExactly(rows, s.pending, messages, batch);
    LinksAfterWakes(rows, s.pending, messages, batch);
    if ctx.eligible ==> Distinct(keys) {
      UpsertFitsExactly(s, ctx, cands, keys);
    }
  }

  // ----------------------------------------------------------- the foreign key holds

  lemma {:induction false} SetRepliesKeepFit(rows: Rows, waiting: seq<MsgKey>, target: MsgKey)
    requires AllRowsFit(rows) && RepliesSet(rows, waiting, target)
    ensures AllRowsFit(SetReplies(rows, waiting, target))
  {
    if waiting != [] {
      var n := |waiting| - 1;
      SetRepliesKeepFit(rows, waiting[..n], target);
      OneReplyKeepsFit(SetReplies(rows, waiting[..n], target), waiting[n], target);
    }
  }

  lemma OneReplyKeepsFit(rows: Rows, id: MsgKey, target: MsgKey)
    requires AllRowsFit(rows) && SameConversation(rows, id, target)
    ensures AllRowsFit(SetReply(rows, id, target))
  {
    forall k | k in rows ensures ReplyFits(SetReply(rows, id, target), k) {
      assert ReplyFits(rows, k);
    }
  }

  lemma {:induction false} WakesKeepFit(rows: Rows, pending: Pending, messages: Messages, batch: seq<MessageRecord>)
    requires AllRowsFit(rows) && WakesAll((rows, pending), messages, batch)
    ensures AllRowsFit(WakeAll((rows, pending), messages, batch).0)
  {
    if batch != [] {
      var n := |batch| - 1;
      var before, k := WakeAll((rows, pending), messages, batch[..n]), batch[n].stableKey;
      WakesKeepFit(rows, pending, messages, batch[..n]);
      if k in messages && k in before.1 {
        SetRepliesKeepFit(before.0, before.1[k], messages[k].id);
      }
    }
  }

  lemma {:induction false} LinksKeepFit(rows: Rows, pending: Pending, messages: Messages, batch: seq<MessageRecord>)
    requires AllRowsFit(rows) && LinksAll((rows, pending), messages, batch)
    ensures AllRowsFit(LinkAll((rows, pending), messages, batch).0)
  {
    if batch != [] {
      var n := |batch| - 1;
      LinksKeepFit(rows, pending, messages, batch[..n]);
      if Links(batch[n], messages) {
        OneReplyKeepsFit(LinkAll((rows, pending), messages, batch[..n]).0, messages[batch[n].stableKey].id,
                         messages[ReplyKey(batch[n]).value].id);
      }
    }
  }

  lemma UpsertKeepsFit(s: Session, ctx: Ctx, cands: seq<Candidate>, keys: seq<MsgKey>)
    requires |cands| == |keys| && Consistent(s) && AllFit(Upserted(s, ctx, cands, keys), keys)
    ensures AllRowsFit(Upserted(s, ctx, cands, keys))
  {
    var rows := Upserted(s, ctx, cands, keys);
    forall id | id in rows ensures ReplyFits(rows, id) {
      OldRowStays(s.rows, ctx, s.filings, cands, keys, SeenAfter(s.messages, cands, keys), id);
      if id !in keys {
        UnwrittenFits(s, ctx, cands, keys, id);
      }
    }
  }

  lemma {:induction false} SeenIsListed(messages: Messages, cands: seq<Candidate>, keys: seq<MsgKey>, k: Text)
    requires |cands| == |keys| && k in SeenAfter(messages, cands, keys)
    ensures var id := SeenAfter(messages, cands, keys)[k].id; id in keys || (k in messages && messages[k].id == id)
  {
    if cands != [] && cands[|cands| - 1].record.stableKey != k {
      SeenIsListed(messages, cands[..|cands| - 1], keys[..|cands| - 1], k);
    }
  }

  lemma {:induction false} LinkedWait(rows: Rows, pending: Pending, messages: Messages, batch: seq<MessageRecord>, t: Text, id: MsgKey)
    requires var after := LinkAll((rows, pending), messages, batch).1; t in after && id in after[t]
    ensures (t in pending && id in pending[t]) || exists k :: k in messages && messages[k].id == id
  {
    if batch != [] {
      var n := |batch| - 1;
      var before := LinkAll((rows, pending), messages, batch[..n]).1;
      if t in before && id in before[t] {
        LinkedWait(rows, pending, messages, batch[..n], t, id);
      } else {
        assert messages[batch[n].stableKey].id == id;
      }
    }
  }

  lemma BatchStaysListed(s: Session, ctx: Ctx, batch: seq<MessageRecord>, cands: seq<Candidate>, keys: seq<MsgKey>)
    requires |cands| == |keys| && Consistent(s)
    ensures var s' := Persisted(s, ctx, batch, cands, keys);
            && SamePlaces(Upserted(s, ctx, cands, keys), s'.rows)
            && (forall k :: k in s'.messages ==> s'.messages[k].id in s'.rows)
            && (forall t, id :: t in s'.pending && id in s'.pending[t] ==> id in s'.rows)
  {
    var messages, rows := SeenAfter(s.messages, cands, keys), Upserted(s, ctx, cands, keys);
    var (woken, pending) := WakeAll((rows, s.pending), messages, batch);
    WakesMoveNothing(rows, s.pending, messages, batch);
    LinksMoveNothing(woken, pending, messages, batch);
    forall k | k in messages ensures messages[k].id in rows {
      SeenIsListed(s.messages, cands, keys, k);
      OldRowStays(s.rows, ctx, s.filings, cands, keys, messages, messages[k].id);
    }
    var after := LinkAll((woken, pending), messages, batch).1;
    forall t, id | t in after && id in after[t] ensures id in rows {
      LinkedWait(woken, pending, messages, batch, t, id);
      WaitingShrinks(rows, s.pending, messages, batch, t);
      OldRowStays(s.rows, ctx, s.filings, cands, keys, messages, id);
    }
  }

  lemma BatchStaysConsistent(s: Session, ctx: Ctx, batch: seq<MessageRecord>)
    requires Consistent(s) && PersistBatch(s, ctx, batch).Some?
    ensures Consistent(PersistBatch(s, ctx, batch).value)
  {
    var cands := Candidates(s.conversations, batch);
    if cands != [] {
      var keys := Keys(OccupiedBy(s.rows), cands);
      var messages, rows := SeenAfter(s.messages, cands, keys), Upserted(s, ctx, cands, keys);
      var (woken, pending) := WakeAll((rows, s.pending), messages, batch);
      UpsertKeepsFit(s, ctx, cands, keys);
      WakesKeepFit(rows, s.pending, messages, batch);
      LinksKeepFit(woken, pending, messages, batch);
      BatchStaysListed(s, ctx, batch, cands, keys);
    }
  }
}
