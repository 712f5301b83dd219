/** Forward and backward replies are resolved the same way wherever the batch boundaries
    fall: what a finished import leaves behind is a function of its records alone. */
module ReplyResolution {
  import opened Basics
  import opened ArchiveRows
  import opened TextImport

  /** The key a record gets when no other record of the import shares its own key. */
  function Resolved(rows: Rows, key: Text, source: SourceConv): MsgKey {
    if Base(key) in rows && rows[Base(key)].source != Some(source) then Split(source, key) else Base(key)
  }

  function PriorReply(rows: Rows, id: MsgKey): Option<MsgKey> {
    if id in rows then rows[id].replyTo else None
  }

  predicate DistinctKeys(records: seq<MessageRecord>) {
    forall i, j :: 0 <= i < j < |records| ==> records[i].stableKey != records[j].stableKey
  }

  /** Whether the record is a reply that waits for the target. */
  function ReplyOf(record: MessageRecord, messages: Messages, t: Text): seq<MsgKey> {
    if record.replyToKey == Some(t) && t != EMPTY_TEXT && record.stableKey in messages then [messages[record.stableKey].id] else []
  }

  /** The ids of the persisted records that reply to `target`, in order. */
  function RepliesTo(records: seq<MessageRecord>, messages: Messages, target: Text): seq<MsgKey> {
    if records == [] then []
    else
      var n := |records| - 1;
      RepliesTo(records[..n], messages, target) + ReplyOf(records[n], messages, target)
  }

  /** Which reply each persisted record's row shows. */
  predicate ReplyShown(initial: Rows, rows: Rows, messages: Messages, r: MessageRecord) {
    r.stableKey in messages ==>
      var id := messages[r.stableKey].id;
      var reply := r.replyToKey;
      && id in rows
      && rows[id].replyTo == (if reply.Some? && reply.value != EMPTY_TEXT && reply.value in messages
                              then Some(messages[reply.value].id) else PriorReply(initial, id))
  }

  /** Every persisted id is its record's resolution against the table before the import. */
  predicate IdsResolved(initial: Rows, messages: Messages) {
    forall k :: k in messages ==> messages[k].id == Resolved(initial, k, messages[k].source)
  }

  /** Waiting replies are exactly the persisted ones whose target has not been seen. */
  ghost predicate PendingExact(records: seq<MessageRecord>, messages: Messages, pending: Pending) {
    && (forall t :: t in pending ==> pending[t] != [] && t !in messages)
    && (forall t :: t !in messages ==> Waiting(pending, t) == RepliesTo(records, messages, t))
  }

  ghost predicate Settled(initial: Rows, s: Session, done: seq<MessageRecord>) {
    SettledTable(initial, s.rows, s.messages, s.pending, done)
  }

  ghost predicate SettledTable(initial: Rows, rows: Rows, messages: Messages, pending: Pending, done: seq<MessageRecord>) {
    && IdsResolved(initial, messages)
    && (forall k :: k in messages ==> exists r :: r in done && r.stableKey == k)
    && (forall r :: r in done ==> ReplyShown(initial, rows, messages, r))
    && PendingExact(done, messages, pending)
    && (forall id :: id in initial ==> id in rows && rows[id].source == initial[id].source)
    && (forall id :: id in rows && id !in initial ==> exists k :: k in messages && messages[k].id == id)
    && (forall id :: id in initial && (forall k :: k in messages ==> messages[k].id != id)
                     ==> rows[id].replyTo == initial[id].replyTo)
  }

  // --------------------------------------------------------------- key resolution

  /** The record's own key inside a row key. */
  function Own(id: MsgKey): Text {
    match id
    case Base(k) => k
    case Split(_, k) => k
  }

  predicate DistinctCandidates(cands: seq<Candidate>) {
    forall i, j :: 0 <= i < j < |cands| ==> cands[i].record.stableKey != cands[j].record.stableKey
  }

  lemma {:induction false} OccupiedElsewhere(occupied: Occupied, cands: seq<Candidate>, key: Text)
    requires forall c :: c in cands ==> c.record.stableKey != key
    ensures Base(key) in OccupiedAfter(occupied, cands) <==> Base(key) in occupied
    ensures Base(key) in occupied ==> OccupiedAfter(occupied, cands)[Base(key)] == occupied[Base(key)]
  {
    if cands != [] {
      var n := |cands| - 1;
      OccupiedElsewhere(occupied, cands[..n], key);
      assert cands[n] in cands;
    }
  }

  lemma {:induction false} KeysAreResolved(rows: Rows, cands: seq<Candidate>)
    requires DistinctCandidates(cands)
    ensures forall i :: 0 <= i < |cands| ==>
                          Keys(OccupiedBy(rows), cands)[i] == Resolved(rows, cands[i].record.stableKey, cands[i].source)
  {
    if cands != [] {
      var n := |cands| - 1;
      KeysAreResolved(rows, cands[..n]);
      OccupiedElsewhere(OccupiedBy(rows), cands[..n], cands[n].record.stableKey);
    }
  }

  lemma {:induction false} SeenAt(messages: Messages, cands: seq<Candidate>, keys: seq<MsgKey>, i: nat)
    requires |cands| == |keys| && DistinctCandidates(cands) && i < |cands|
    ensures var seen, k := SeenAfter(messages, cands, keys), cands[i].record.stableKey;
            k in seen && seen[k] == Seen(keys[i], cands[i].source, cands[i].record.conversationKey)
  {
    var n := |cands| - 1;
    if i < n {
      SeenAt(messages, cands[..n], keys[..n], i);
    }
  }

  lemma {:induction false} SeenElsewhere(messages: Messages, cands: seq<Candidate>, keys: seq<MsgKey>, k: Text)
    requires |cands| == |keys|
    ensures var seen := SeenAfter(messages, cands, keys);
            && (k in messages ==> k in seen)
            && (k in seen && (forall c :: c in cands ==> c.record.stableKey != k) ==> k in messages && seen[k] == messages[k])
  {
    if cands != [] {
      var n := |cands| - 1;
      SeenElsewhere(messages, cands[..n], keys[..n], k);
      assert cands[n] in cands;
      forall c | c in cands[..n] ensures c in cands {}
    }
  }

  lemma {:induction false} CandidatesOf(conversations: Conversations, batch: seq<MessageRecord>)
    requires DistinctKeys(batch)
    ensures DistinctCandidates(Candidates(conversations, batch))
    ensures forall r :: r in batch && r.conversationKey in conversations ==>
                          exists i :: 0 <= i < |Candidates(conversations, batch)|
                                      && Candidates(conversations, batch)[i].record == r
  {
    if batch != [] {
      var n := |batch| - 1;
      CandidatesOf(conversations, batch[..n]);
      var before, after := Candidates(conversations, batch[..n]), Candidates(conversations, batch);
      forall c | c in before ensures c.record.stableKey != batch[n].stableKey {
        assert c.record in batch[..n];
      }
      assert |before| <= |after| && after[..|before|] == before;
      forall r | r in batch && r.conversationKey in conversations
        ensures exists i :: 0 <= i < |after| && after[i].record == r
      {
        if r in batch[..n] {
          var i :| 0 <= i < |before| && before[i].record == r;
          assert after[i].record == r;
        } else {
          assert after[|before|].record == r;
        }
      }
    }
  }

  // ------------------------------------------------------------------ row updates

  predicate UpsertShows(rows: Rows, ctx: Ctx, filings: Filings, c: Candidate, key: MsgKey, seen: Messages, rows': Rows) {
    key in rows'
    && (RowFor(ctx, filings, c, seen).replyTo.None? ==> rows'[key].replyTo == PriorReply(rows, key))
  }

  /** A row outside the batch stays; one inside it keeps its source. */
  lemma {:induction false} UpsertFrame(rows: Rows, ctx: Ctx, filings: Filings, cands: seq<Candidate>, keys: seq<MsgKey>, seen: Messages, id: MsgKey)
    requires |cands| == |keys|
    ensures var rows' := UpsertAll(rows, ctx, filings, cands, keys, seen);
            && (id in rows ==> id in rows' && rows'[id].source == rows[id].source)
            && (id !in keys && id in rows' ==> id in rows && rows'[id] == rows[id])
  {
    if cands != [] {
      var n := |cands| - 1;
      UpsertFrame(rows, ctx, filings, cands[..n], keys[..n], seen, id);
      assert id in keys <==> id in keys[..n] || id == keys[n];
    }
  }

  lemma {:induction false} UpsertAt(rows: Rows, ctx: Ctx, filings: Filings, cands: seq<Candidate>, keys: seq<MsgKey>, seen: Messages, i: nat)
    requires |cands| == |keys| && Distinct(keys) && i < |cands|
    ensures UpsertShows(rows, ctx, filings, cands[i], keys[i], seen, UpsertAll(rows, ctx, filings, cands, keys, seen))
  {
    var n := |cands| - 1;
    if i < n {
      UpsertAt(rows, ctx, filings, cands[..n], keys[..n], seen, i);
      assert keys[i] != keys[n];
    } else {
      UpsertFrame(rows, ctx, filings, cands[..n], keys[..n], seen, keys[n]);
    }
  }

  lemma {:induction false} SetRepliesPointwise(rows: Rows, waiting: seq<MsgKey>, target: MsgKey)
    ensures var rows' := SetReplies(rows, waiting, target);
            && rows'.Keys == rows.Keys
            && (forall id :: id in rows && id in waiting ==> rows'[id].replyTo == Some(target))
            && (forall id :: id in rows && id !in waiting ==> rows'[id] == rows[id])
            && (forall id :: id in rows ==> rows'[id].source == rows[id].source)
  {
    if waiting != [] {
      var n := |waiting| - 1;
      SetRepliesPointwise(rows, waiting[..n], target);
      assert forall id :: id in waiting <==> id in waiting[..n] || id == waiting[n];
    }
  }

  /** No id waits for two different targets. */
  predicate WaitsOnce(pending: Pending) {
    forall t, u :: t in pending && u in pending && t != u ==>
                     forall id :: id in pending[t] ==> id !in pending[u]
  }

  predicate Woken(t: Text, pending: Pending, messages: Messages, batch: seq<MessageRecord>) {
    t in pending && t in messages && exists r :: r in batch && r.stableKey == t
  }

  ghost predicate AllWoken(rows: Rows, pending: Pending, messages: Messages, batch: seq<MessageRecord>,
                           rows': Rows, pending': Pending) {
    && rows'.Keys == rows.Keys
    && (forall id :: id in rows ==> rows'[id].source == rows[id].source)
    && (forall t, id :: Woken(t, pending, messages, batch) && id in pending[t] && id in rows
                        ==> rows'[id].replyTo == Some(messages[t].id))
    && (forall id :: id in rows && (forall t :: Woken(t, pending, messages, batch) ==> id !in pending[t])
                     ==> rows'[id] == rows[id])
    && (forall t :: t in pending' <==> t in pending && !Woken(t, pending, messages, batch))
    && (forall t :: t in pending' ==> pending'[t] == pending[t])
  }

  lemma {:induction false} WakePointwise(rows: Rows, pending: Pending, messages: Messages, batch: seq<MessageRecord>)
    requires WaitsOnce(pending)
    ensures var (rows', pending') := WakeAll((rows, pending), messages, batch);
            AllWoken(rows, pending, messages, batch, rows', pending')
  {
    if batch != [] {
      var n := |batch| - 1;
      WakePointwise(rows, pending, messages, batch[..n]);
      var (r1, p1) := WakeAll((rows, pending), messages, batch[..n]);
      var k := batch[n].stableKey;
      forall t ensures Woken(t, pending, messages, batch) <==>
                       (Woken(t, pending, messages, batch[..n]) || (t == k && t in pending && t in messages)) {
        assert forall r :: r in batch <==> r in batch[..n] || r == batch[n];
      }
      if k in messages && k in p1 {
        SetRepliesPointwise(r1, p1[k], messages[k].id);
      }
    }
  }

  // ------------------------------------------------------------------------ links

  predicate OneIdEach(messages: Messages) {
    forall k, m :: k in messages && m in messages && k != m ==> messages[k].id != messages[m].id
  }

  lemma {:induction false} LinkKeepsTable(rows: Rows, pending: Pending, messages: Messages, batch: seq<MessageRecord>, id: MsgKey)
    ensures var rows' := LinkAll((rows, pending), messages, batch).0;
            (id in rows' <==> id in rows) && (id in rows ==> rows'[id].source == rows[id].source)
  {
    if batch != [] {
      LinkKeepsTable(rows, pending, messages, batch[..|batch| - 1], id);
    }
  }

  lemma {:induction false} LinkLeavesOthers(rows: Rows, pending: Pending, messages: Messages,
                                            batch: seq<MessageRecord>, id: MsgKey)
    requires id in rows
    requires forall r :: r in batch && Links(r, messages) ==> messages[r.stableKey].id != id
    ensures id in LinkAll((rows, pending), messages, batch).0
    ensures LinkAll((rows, pending), messages, batch).0[id] == rows[id]
  {
    if batch != [] {
      var n := |batch| - 1;
      assert batch[n] in batch;
      LinkLeavesOthers(rows, pending, messages, batch[..n], id);
    }
  }

  lemma {:induction false} LinkShows(rows: Rows, pending: Pending, messages: Messages, batch: seq<MessageRecord>, i: nat)
    requires DistinctKeys(batch) && OneIdEach(messages) && i < |batch| && Links(batch[i], messages)
    requires messages[batch[i].stableKey].id in rows
    ensures var rows' := LinkAll((rows, pending), messages, batch).0;
            var id := messages[batch[i].stableKey].id;
            id in rows' && rows'[id].replyTo == Some(messages[ReplyKey(batch[i]).value].id)
    decreases |batch|
  {
    var n := |batch| - 1;
    LinkKeepsTable(rows, pending, messages, batch[..n], messages[batch[i].stableKey].id);
    if i < n {
      LinkShows(rows, pending, messages, batch[..n], i);
      assert batch[i].stableKey != batch[n].stableKey;
    }
  }

  lemma LinkOneWaits(state: (Rows, Pending), messages: Messages, record: MessageRecord, t: Text)
    ensures var pending := LinkOne(state, messages, record).1;
            && (t !in messages ==> Waiting(pending, t) == Waiting(state.1, t) + ReplyOf(record, messages, t))
            && (t in messages ==> (t in pending <==> t in state.1))
            && (t in pending && (t in state.1 ==> state.1[t] != []) ==> pending[t] != [])
  {
  }

  lemma {:induction false} LinkWaits(rows: Rows, pending: Pending, messages: Messages, batch: seq<MessageRecord>, t: Text)
    ensures var pending' := LinkAll((rows, pending), messages, batch).1;
            && (t !in messages ==> Waiting(pending', t) == Waiting(pending, t) + RepliesTo(batch, messages, t))
            && (t in messages ==> (t in pending' <==> t in pending))
            && (t in pending' && (t in pending ==> pending[t] != []) ==> pending'[t] != [])
  {
    if batch != [] {
      var n := |batch| - 1;
      LinkWaits(rows, pending, messages, batch[..n], t);
      LinkOneWaits(LinkAll((rows, pending), messages, batch[..n]), messages, batch[n], t);
    }
  }

  // ------------------------------------------------------------------- one batch

  lemma {:induction false} RepliesToMembers(records: seq<MessageRecord>, messages: Messages, t: Text, id: MsgKey)
    ensures id in RepliesTo(records, messages, t) <==>
            exists r :: r in records && ReplyKey(r) == Some(t) && r.stableKey in messages && messages[r.stableKey].id == id
  {
    if records != [] {
      var n := |records| - 1;
      RepliesToMembers(records[..n], messages, t, id);
      assert forall r :: r in records <==> r in records[..n] || r == records[n];
    }
  }

  lemma {:induction false} RepliesToConcat(a: seq<MessageRecord>, b: seq<MessageRecord>, messages: Messages, t: Text)
    ensures RepliesTo(a + b, messages, t) == RepliesTo(a, messages, t) + RepliesTo(b, messages, t)
  {
    if b == [] {
      assert a + b == a;
    } else {
      var n := |b| - 1;
      assert (a + b)[..|a + b| - 1] == a + b[..n];
      RepliesToConcat(a, b[..n], messages, t);
    }
  }

  lemma {:induction false} RepliesToDependsOnIds(records: seq<MessageRecord>, m: Messages, m': Messages, t: Text)
    requires forall r :: r in records ==> (r.stableKey in m <==> r.stableKey in m')
    requires forall k :: k in m && k in m' ==> m[k] == m'[k]
    ensures RepliesTo(records, m, t) == RepliesTo(records, m', t)
  {
    if records != [] {
      assert records[|records| - 1] in records;
      RepliesToDependsOnIds(records[..|records| - 1], m, m', t);
    }
  }

  /** What the ids of a batch add to the ids seen before it. */
  ghost predicate IdsExtended(initial: Rows, s: Session, done: seq<MessageRecord>, batch: seq<MessageRecord>, messages: Messages) {
    && IdsResolved(initial, messages)
    && (forall k :: k in s.messages ==> k in messages && messages[k] == s.messages[k])
    && (forall k :: k in messages && k !in s.messages ==> exists r :: r in batch && r.stableKey == k)
    && (forall r :: r in done ==> (r.stableKey in messages <==> r.stableKey in s.messages))
  }

  lemma IdsAreOwn(initial: Rows, messages: Messages)
    requires IdsResolved(initial, messages)
    ensures forall k :: k in messages ==> Own(messages[k].id) == k
    ensures OneIdEach(messages)
  {
  }

  lemma ResolvedAgain(initial: Rows, s: Session, done: seq<MessageRecord>, key: Text, source: SourceConv)
    requires Settled(initial, s, done) && forall r :: r in done ==> r.stableKey != key
    ensures Resolved(s.rows, key, source) == Resolved(initial, key, source)
    ensures forall k :: k in s.messages ==> s.messages[k].id != Resolved(initial, key, source)
    ensures PriorReply(s.rows, Resolved(initial, key, source)) == PriorReply(initial, Resolved(initial, key, source))
  {
    IdsAreOwn(initial, s.messages);
    var id := Resolved(initial, key, source);
    assert Own(id) == key;
    assert Base(key) in s.rows ==> Base(key) in initial;
  }

  /** The keys of a batch: resolved against the table before the whole import, all new. */
  predicate KeyFits(initial: Rows, s: Session, c: Candidate, key: MsgKey) {
    && key == Resolved(initial, c.record.stableKey, c.source)
    && c.record.stableKey !in s.messages
    && PriorReply(s.rows, key) == PriorReply(initial, key)
    && forall k :: k in s.messages ==> s.messages[k].id != key
  }

  predicate KeysFit(initial: Rows, s: Session, cands: seq<Candidate>, keys: seq<MsgKey>) {
    && |keys| == |cands|
    && Distinct(keys)
    && forall i :: 0 <= i < |cands| ==> KeyFits(initial, s, cands[i], keys[i])
  }

  lemma BatchKey(initial: Rows, s: Session, done: seq<MessageRecord>, batch: seq<MessageRecord>, i: nat)
    requires Settled(initial, s, done) && DistinctKeys(done + batch)
    requires DistinctCandidates(Candidates(s.conversations, batch)) && i < |Candidates(s.conversations, batch)|
    ensures var cands := Candidates(s.conversations, batch);
            KeyFits(initial, s, cands[i], Keys(OccupiedBy(s.rows), cands)[i])
  {
    DistinctParts(done, batch);
    var cands := Candidates(s.conversations, batch);
    KeysAreResolved(s.rows, cands);
    assert cands[i] in cands;
    ResolvedAgain(initial, s, done, cands[i].record.stableKey, cands[i].source);
  }

  lemma BatchKeys(initial: Rows, s: Session, done: seq<MessageRecord>, batch: seq<MessageRecord>)
    requires Settled(initial, s, done) && DistinctKeys(done + batch)
    ensures var cands := Candidates(s.conversations, batch);
            KeysFit(initial, s, cands, Keys(OccupiedBy(s.rows), cands)) && DistinctCandidates(cands)
  {
    DistinctParts(done, batch);
    var cands := Candidates(s.conversations, batch);
    CandidatesOf(s.conversations, batch);
    var keys := Keys(OccupiedBy(s.rows), cands);
    forall i | 0 <= i < |cands| ensures KeyFits(initial, s, cands[i], keys[i]) {
      BatchKey(initial, s, done, batch, i);
    }
    FittingKeysAreDistinct(initial, s, cands, keys);
  }

  lemma FittingKeysAreDistinct(initial: Rows, s: Session, cands: seq<Candidate>, keys: seq<MsgKey>)
    requires DistinctCandidates(cands) && |keys| == |cands|
    requires forall i :: 0 <= i < |cands| ==> KeyFits(initial, s, cands[i], keys[i])
    ensures Distinct(keys)
  {
    forall i | 0 <= i < |cands| ensures Own(keys[i]) == cands[i].record.stableKey {
      assert KeyFits(initial, s, cands[i], keys[i]);
    }
  }

  lemma BatchIds(initial: Rows, s: Session, done: seq<MessageRecord>, batch: seq<MessageRecord>,
                 cands: seq<Candidate>, keys: seq<MsgKey>)
    requires Settled(initial, s, done) && DistinctKeys(done + batch)
    requires cands == Candidates(s.conversations, batch)
    requires KeysFit(initial, s, cands, keys) && DistinctCandidates(cands)
    ensures IdsExtended(initial, s, done, batch, SeenAfter(s.messages, cands, keys))
    ensures forall i :: 0 <= i < |cands| ==>
                          cands[i].record.stableKey in SeenAfter(s.messages, cands, keys)
                          && SeenAfter(s.messages, cands, keys)[cands[i].record.stableKey].id == keys[i]
  {
    DistinctParts(done, batch);
    var messages := SeenAfter(s.messages, cands, keys);
    forall i | 0 <= i < |cands|
      ensures cands[i].record.stableKey in messages && messages[cands[i].record.stableKey].id == keys[i]
    {
      SeenAt(s.messages, cands, keys, i);
    }
    forall k | k in s.messages ensures k in messages {
      SeenElsewhere(s.messages, cands, keys, k);
    }
    forall k | k in messages
      ensures messages[k].id == Resolved(initial, k, messages[k].source)
      ensures k !in s.messages ==> exists r :: r in batch && r.stableKey == k
      ensures k in s.messages ==> messages[k] == s.messages[k]
    {
      BatchId(initial, s, done, batch, cands, keys, k);
    }
  }

  lemma BatchId(initial: Rows, s: Session, done: seq<MessageRecord>, batch: seq<MessageRecord>,
                cands: seq<Candidate>, keys: seq<MsgKey>, k: Text)
    requires IdsResolved(initial, s.messages) && cands == Candidates(s.conversations, batch)
    requires KeysFit(initial, s, cands, keys) && DistinctCandidates(cands)
    requires k in SeenAfter(s.messages, cands, keys)
    ensures var messages := SeenAfter(s.messages, cands, keys);
            && messages[k].id == Resolved(initial, k, messages[k].source)
            && (k !in s.messages ==> exists r :: r in batch && r.stableKey == k)
            && (k in s.messages ==> messages[k] == s.messages[k])
  {
    if i :| 0 <= i < |cands| && cands[i].record.stableKey == k {
      SeenAt(s.messages, cands, keys, i);
      assert cands[i] in cands && cands[i].record in batch;
    } else {
      SeenElsewhere(s.messages, cands, keys, k);
    }
  }

  lemma PersistedIsCandidate(initial: Rows, s: Session, done: seq<MessageRecord>, batch: seq<MessageRecord>,
                             cands: seq<Candidate>, keys: seq<MsgKey>, r: MessageRecord) returns (i: nat)
    requires Settled(initial, s, done) && DistinctKeys(done + batch)
    requires cands == Candidates(s.conversations, batch)
    requires KeysFit(initial, s, cands, keys) && DistinctCandidates(cands)
    requires r in batch && r.stableKey in SeenAfter(s.messages, cands, keys)
    ensures i < |cands| && cands[i].record == r
  {
    DistinctParts(done, batch);
    SeenElsewhere(s.messages, cands, keys, r.stableKey);
    assert r.stableKey !in s.messages;
    var c :| c in cands && c.record.stableKey == r.stableKey;
    assert c.record in batch;
    i :| 0 <= i < |cands| && cands[i] == c;
  }

  lemma DistinctParts(a: seq<MessageRecord>, b: seq<MessageRecord>)
    requires DistinctKeys(a + b)
    ensures DistinctKeys(a) && DistinctKeys(b)
    ensures forall r, q :: r in a && q in b ==> r.stableKey != q.stableKey
    ensures forall r, q :: r in a && q in a && r.stableKey == q.stableKey ==> r == q
    ensures forall r, q :: r in b && q in b && r.stableKey == q.stableKey ==> r == q
  {
    var c := a + b;
    forall i, j | 0 <= i < j < |a| ensures a[i].stableKey != a[j].stableKey {
      assert c[i] == a[i] && c[j] == a[j];
    }
    forall i, j | 0 <= i < j < |b| ensures b[i].stableKey != b[j].stableKey {
      assert c[|a| + i] == b[i] && c[|a| + j] == b[j];
    }
    forall r, q | r in a && q in b ensures r.stableKey != q.stableKey {
      var i :| 0 <= i < |a| && a[i] == r;
      var j :| 0 <= j < |b| && b[j] == q;
      assert c[i] == r && c[|a| + j] == q;
    }
  }

  /** A batch about to be persisted, after `done`. */
  ghost predicate Ready(initial: Rows, s: Session, done: seq<MessageRecord>, batch: seq<MessageRecord>,
                        cands: seq<Candidate>, keys: seq<MsgKey>) {
    && Settled(initial, s, done) && DistinctKeys(done + batch)
    && cands == Candidates(s.conversations, batch)
    && KeysFit(initial, s, cands, keys) && DistinctCandidates(cands)
  }

  function Ids(s: Session, cands: seq<Candidate>, keys: seq<MsgKey>): Messages
    requires |cands| == |keys|
  {
    SeenAfter(s.messages, cands, keys)
  }

  function Woke(s: Session, ctx: Ctx, batch: seq<MessageRecord>, cands: seq<Candidate>, keys: seq<MsgKey>): (Rows, Pending)
    requires |cands| == |keys|
  {
    WakeAll((Upserted(s, ctx, cands, keys), s.pending), Ids(s, cands, keys), batch)
  }

  function LinkedState(s: Session, ctx: Ctx, batch: seq<MessageRecord>, cands: seq<Candidate>, keys: seq<MsgKey>): (Rows, Pending)
    requires |cands| == |keys|
  {
    LinkAll(Woke(s, ctx, batch, cands, keys), Ids(s, cands, keys), batch)
  }

  lemma WaitingIds(initial: Rows, s: Session, done: seq<MessageRecord>)
    requires Settled(initial, s, done) && DistinctKeys(done)
    ensures WaitsOnce(s.pending)
    ensures forall t, id :: t in s.pending && id in s.pending[t] ==>
                              exists r :: r in done && ReplyKey(r) == Some(t) && r.stableKey in s.messages && s.messages[r.stableKey].id == id
  {
    DistinctParts(done, []);
    assert done + [] == done;
    IdsAreOwn(initial, s.messages);
    forall t, id | t in s.pending && id in s.pending[t]
      ensures exists r :: r in done && ReplyKey(r) == Some(t) && r.stableKey in s.messages && s.messages[r.stableKey].id == id
    {
      assert Waiting(s.pending, t) == RepliesTo(done, s.messages, t);
      RepliesToMembers(done, s.messages, t, id);
    }
    forall t, u, id | t in s.pending && u in s.pending && t != u && id in s.pending[t]
      ensures id !in s.pending[u]
    {
      var r :| r in done && ReplyKey(r) == Some(t) && r.stableKey in s.messages && s.messages[r.stableKey].id == id;
      assert Own(id) == r.stableKey;
    }
  }

  lemma WakeFacts(initial: Rows, s: Session, done: seq<MessageRecord>, ctx: Ctx, batch: seq<MessageRecord>,
                  cands: seq<Candidate>, keys: seq<MsgKey>)
    requires Ready(initial, s, done, batch, cands, keys)
    ensures WaitsOnce(s.pending)
    ensures var (rows2, pending2) := Woke(s, ctx, batch, cands, keys);
            AllWoken(Upserted(s, ctx, cands, keys), s.pending, Ids(s, cands, keys), batch, rows2, pending2)
  {
    DistinctParts(done, batch);
    WaitingIds(initial, s, done);
    WakePointwise(Upserted(s, ctx, cands, keys), s.pending, Ids(s, cands, keys), batch);
  }

  /** A row that no record of the batch owns is not upserted. */
  lemma NotUpsertShows(initial: Rows, s: Session, done: seq<MessageRecord>, ctx: Ctx, batch: seq<MessageRecord>,
                    cands: seq<Candidate>, keys: seq<MsgKey>, id: MsgKey)
    requires Ready(initial, s, done, batch, cands, keys) && id in s.rows
    requires forall r :: r in batch && r.stableKey in Ids(s, cands, keys) ==> Ids(s, cands, keys)[r.stableKey].id != id
    ensures id in Upserted(s, ctx, cands, keys) && Upserted(s, ctx, cands, keys)[id] == s.rows[id]
  {
    BatchIds(initial, s, done, batch, cands, keys);
    UpsertFrame(s.rows, ctx, s.filings, cands, keys, Ids(s, cands, keys), id);
    forall i | 0 <= i < |keys| ensures keys[i] != id {
      assert cands[i] in cands && cands[i].record in batch;
    }
  }

  lemma NotWoken(initial: Rows, s: Session, done: seq<MessageRecord>, ctx: Ctx, batch: seq<MessageRecord>,
                 cands: seq<Candidate>, keys: seq<MsgKey>, id: MsgKey)
    requires Ready(initial, s, done, batch, cands, keys) && id in Upserted(s, ctx, cands, keys)
    requires forall t :: Woken(t, s.pending, Ids(s, cands, keys), batch) ==> id !in s.pending[t]
    ensures id in Woke(s, ctx, batch, cands, keys).0 && Woke(s, ctx, batch, cands, keys).0[id] == Upserted(s, ctx, cands, keys)[id]
  {
    WakeFacts(initial, s, done, ctx, batch, cands, keys);
  }

  /** A row that no record of the batch owns or wakes keeps its reply. */
  lemma Untouched(initial: Rows, s: Session, done: seq<MessageRecord>, ctx: Ctx, batch: seq<MessageRecord>,
                  cands: seq<Candidate>, keys: seq<MsgKey>, id: MsgKey)
    requires Ready(initial, s, done, batch, cands, keys)
    requires id in s.rows
    requires forall r :: r in batch && r.stableKey in Ids(s, cands, keys) ==> Ids(s, cands, keys)[r.stableKey].id != id
    requires forall t :: Woken(t, s.pending, Ids(s, cands, keys), batch) ==> id !in s.pending[t]
    ensures id in LinkedState(s, ctx, batch, cands, keys).0
    ensures LinkedState(s, ctx, batch, cands, keys).0[id].replyTo == s.rows[id].replyTo
  {
    NotUpsertShows(initial, s, done, ctx, batch, cands, keys, id);
    NotWoken(initial, s, done, ctx, batch, cands, keys, id);
    var (rows2, pending2) := Woke(s, ctx, batch, cands, keys);
    LinkLeavesOthers(rows2, pending2, Ids(s, cands, keys), batch, id);
  }

  lemma OldReply(initial: Rows, s: Session, done: seq<MessageRecord>, ctx: Ctx, batch: seq<MessageRecord>,
                 cands: seq<Candidate>, keys: seq<MsgKey>, r: MessageRecord)
    requires Ready(initial, s, done, batch, cands, keys) && r in done
    ensures ReplyShown(initial, LinkedState(s, ctx, batch, cands, keys).0, Ids(s, cands, keys), r)
  {
    var messages := Ids(s, cands, keys);
    BatchIds(initial, s, done, batch, cands, keys);
    DistinctParts(done, batch);
    IdsAreOwn(initial, messages);
    WaitingIds(initial, s, done);
    if r.stableKey in messages {
      var id := messages[r.stableKey].id;
      assert ReplyShown(initial, s.rows, s.messages, r);
      forall q | q in batch && q.stableKey in messages ensures messages[q.stableKey].id != id {
        assert q.stableKey != r.stableKey;
      }
      forall t | t in s.pending && id in s.pending[t] ensures ReplyKey(r) == Some(t) {
        var q :| q in done && ReplyKey(q) == Some(t) && q.stableKey in s.messages && s.messages[q.stableKey].id == id;
        assert Own(id) == q.stableKey;
        assert q == r;
      }
      var reply := ReplyKey(r);
      if reply.Some? && reply.value in messages && reply.value !in s.messages {
        AwaitedReply(initial, s, done, ctx, batch, cands, keys, r);
      } else {
        Untouched(initial, s, done, ctx, batch, cands, keys, id);
      }
    }
  }

  /** An earlier reply whose target arrives with this batch. */
  lemma AwaitedReply(initial: Rows, s: Session, done: seq<MessageRecord>, ctx: Ctx, batch: seq<MessageRecord>,
                     cands: seq<Candidate>, keys: seq<MsgKey>, r: MessageRecord)
    requires Ready(initial, s, done, batch, cands, keys) && r in done && r.stableKey in s.messages
    requires ReplyKey(r).Some? && ReplyKey(r).value in Ids(s, cands, keys) && ReplyKey(r).value !in s.messages
    requires forall q :: q in batch && q.stableKey in Ids(s, cands, keys)
                         ==> Ids(s, cands, keys)[q.stableKey].id != s.messages[r.stableKey].id
    ensures var id := s.messages[r.stableKey].id;
            var rows := LinkedState(s, ctx, batch, cands, keys).0;
            id in rows && rows[id].replyTo == Some(Ids(s, cands, keys)[ReplyKey(r).value].id)
  {
    var messages := Ids(s, cands, keys);
    var id, t := s.messages[r.stableKey].id, ReplyKey(r).value;
    assert ReplyShown(initial, s.rows, s.messages, r);
    RepliesToMembers(done, s.messages, t, id);
    assert Waiting(s.pending, t) == RepliesTo(done, s.messages, t);
    BatchIds(initial, s, done, batch, cands, keys);
    assert Woken(t, s.pending, messages, batch);
    UpsertFrame(s.rows, ctx, s.filings, cands, keys, messages, id);
    WakeFacts(initial, s, done, ctx, batch, cands, keys);
    var (rows2, pending2) := Woke(s, ctx, batch, cands, keys);
    LinkLeavesOthers(rows2, pending2, messages, batch, id);
  }

  /** The row of a record of this batch before its replies are linked. */
  lemma NewRow(initial: Rows, s: Session, done: seq<MessageRecord>, ctx: Ctx, batch: seq<MessageRecord>,
               cands: seq<Candidate>, keys: seq<MsgKey>, i: nat)
    requires Ready(initial, s, done, batch, cands, keys) && i < |cands|
    ensures var rows2 := Woke(s, ctx, batch, cands, keys).0;
            && keys[i] in rows2
            && (RowFor(ctx, s.filings, cands[i], Ids(s, cands, keys)).replyTo.None? ==> rows2[keys[i]].replyTo == PriorReply(initial, keys[i]))
  {
    assert KeyFits(initial, s, cands[i], keys[i]);
    DistinctParts(done, batch);
    UpsertAt(s.rows, ctx, s.filings, cands, keys, Ids(s, cands, keys), i);
    WakeFacts(initial, s, done, ctx, batch, cands, keys);
    WaitingIds(initial, s, done);
  }

  lemma NewReply(initial: Rows, s: Session, done: seq<MessageRecord>, ctx: Ctx, batch: seq<MessageRecord>,
                 cands: seq<Candidate>, keys: seq<MsgKey>, r: MessageRecord)
    requires Ready(initial, s, done, batch, cands, keys) && r in batch
    ensures ReplyShown(initial, LinkedState(s, ctx, batch, cands, keys).0, Ids(s, cands, keys), r)
  {
    var messages := Ids(s, cands, keys);
    if r.stableKey in messages {
      var i := PersistedIsCandidate(initial, s, done, batch, cands, keys, r);
      BatchIds(initial, s, done, batch, cands, keys);
      IdsAreOwn(initial, messages);
      DistinctParts(done, batch);
      NewRow(initial, s, done, ctx, batch, cands, keys, i);
      var (rows2, pending2) := Woke(s, ctx, batch, cands, keys);
      if Links(r, messages) {
        var j :| 0 <= j < |batch| && batch[j] == r;
        LinkShows(rows2, pending2, messages, batch, j);
      } else {
        forall q | q in batch && Links(q, messages) ensures messages[q.stableKey].id != keys[i] {
          assert q != r && q.stableKey != r.stableKey;
        }
        LinkLeavesOthers(rows2, pending2, messages, batch, keys[i]);
      }
    }
  }

  lemma PendingStaysExact(initial: Rows, s: Session, done: seq<MessageRecord>, ctx: Ctx, batch: seq<MessageRecord>,
                          cands: seq<Candidate>, keys: seq<MsgKey>)
    requires Ready(initial, s, done, batch, cands, keys)
    ensures PendingExact(done + batch, Ids(s, cands, keys), LinkedState(s, ctx, batch, cands, keys).1)
  {
    var messages := Ids(s, cands, keys);
    BatchIds(initial, s, done, batch, cands, keys);
    WakeFacts(initial, s, done, ctx, batch, cands, keys);
    var (rows2, pending2) := Woke(s, ctx, batch, cands, keys);
    var pending3 := LinkedState(s, ctx, batch, cands, keys).1;
    forall t ensures t in pending3 ==> pending3[t] != [] && t !in messages
      ensures t !in messages ==> Waiting(pending3, t) == RepliesTo(done + batch, messages, t)
    {
      LinkWaits(rows2, pending2, messages, batch, t);
      if t in messages && t in s.pending {
        assert Woken(t, s.pending, messages, batch);
      }
      if t !in messages {
        assert Waiting(s.pending, t) == RepliesTo(done, s.messages, t);
        assert Waiting(pending2, t) == Waiting(s.pending, t);
        RepliesToConcat(done, batch, messages, t);
        RepliesToDependsOnIds(done, s.messages, messages, t);
      }
    }
  }

  /** Only rows of messages are new, and every row keeps its source. */
  lemma RowsAreOfMessages(initial: Rows, s: Session, done: seq<MessageRecord>, ctx: Ctx, batch: seq<MessageRecord>,
                          cands: seq<Candidate>, keys: seq<MsgKey>, id: MsgKey)
    requires Ready(initial, s, done, batch, cands, keys)
    ensures var rows, messages := Upserted(s, ctx, cands, keys), Ids(s, cands, keys);
            && (id in initial ==> id in rows && rows[id].source == initial[id].source)
            && (id in rows && id !in initial ==> exists k :: k in messages && messages[k].id == id)
  {
    var rows, messages := Upserted(s, ctx, cands, keys), Ids(s, cands, keys);
    BatchIds(initial, s, done, batch, cands, keys);
    UpsertFrame(s.rows, ctx, s.filings, cands, keys, messages, id);
    if id in rows && id !in initial {
      if id in keys {
        var i :| 0 <= i < |keys| && keys[i] == id;
        assert messages[cands[i].record.stableKey].id == id;
      } else {
        var k :| k in s.messages && s.messages[k].id == id;
        assert messages[k].id == id;
      }
    }
  }

  lemma TableStaysFramed(initial: Rows, s: Session, done: seq<MessageRecord>, ctx: Ctx, batch: seq<MessageRecord>,
                         cands: seq<Candidate>, keys: seq<MsgKey>, id: MsgKey)
    requires Ready(initial, s, done, batch, cands, keys)
    ensures var rows, messages := LinkedState(s, ctx, batch, cands, keys).0, Ids(s, cands, keys);
            && (id in initial ==> id in rows && rows[id].source == initial[id].source)
            && (id in rows && id !in initial ==> exists k :: k in messages && messages[k].id == id)
  {
    RowsAreOfMessages(initial, s, done, ctx, batch, cands, keys, id);
    WakeFacts(initial, s, done, ctx, batch, cands, keys);
    var (rows2, pending2) := Woke(s, ctx, batch, cands, keys);
    LinkKeepsTable(rows2, pending2, Ids(s, cands, keys), batch, id);
  }

  /** A row that was there and that the import has not met keeps its reply. */
  lemma OldReplyStays(initial: Rows, s: Session, done: seq<MessageRecord>, ctx: Ctx, batch: seq<MessageRecord>,
                      cands: seq<Candidate>, keys: seq<MsgKey>, id: MsgKey)
    requires Ready(initial, s, done, batch, cands, keys)
    requires id in initial && forall k :: k in Ids(s, cands, keys) ==> Ids(s, cands, keys)[k].id != id
    ensures var rows := LinkedState(s, ctx, batch, cands, keys).0; id in rows && rows[id].replyTo == initial[id].replyTo
  {
    DistinctParts(done, batch);
    BatchIds(initial, s, done, batch, cands, keys);
    WaitingIds(initial, s, done);
    Untouched(initial, s, done, ctx, batch, cands, keys, id);
  }

  lemma RepliesStayShown(initial: Rows, s: Session, done: seq<MessageRecord>, ctx: Ctx, batch: seq<MessageRecord>,
                         cands: seq<Candidate>, keys: seq<MsgKey>)
    requires Ready(initial, s, done, batch, cands, keys)
    ensures forall r :: r in done + batch ==>
                          ReplyShown(initial, LinkedState(s, ctx, batch, cands, keys).0, Ids(s, cands, keys), r)
  {
    forall r | r in done + batch
      ensures ReplyShown(initial, LinkedState(s, ctx, batch, cands, keys).0, Ids(s, cands, keys), r)
    {
      if r in done {
        OldReply(initial, s, done, ctx, batch, cands, keys, r);
      } else {
        NewReply(initial, s, done, ctx, batch, cands, keys, r);
      }
    }
  }

  lemma IdsStayResolved(initial: Rows, s: Session, done: seq<MessageRecord>, batch: seq<MessageRecord>,
                        cands: seq<Candidate>, keys: seq<MsgKey>)
    requires Ready(initial, s, done, batch, cands, keys)
    ensures IdsResolved(initial, Ids(s, cands, keys))
    ensures forall k :: k in Ids(s, cands, keys) ==> exists r :: r in done + batch && r.stableKey == k
  {
    BatchIds(initial, s, done, batch, cands, keys);
    forall k | k in Ids(s, cands, keys) ensures exists r :: r in done + batch && r.stableKey == k {
      if k in s.messages {
        var r :| r in done && r.stableKey == k;
        assert r in done + batch;
      } else {
        var r :| r in batch && r.stableKey == k;
        assert r in done + batch;
      }
    }
  }

  lemma CandidatesKeepSettled(initial: Rows, s: Session, done: seq<MessageRecord>, ctx: Ctx, batch: seq<MessageRecord>,
                              cands: seq<Candidate>, keys: seq<MsgKey>, s': Session)
    requires Ready(initial, s, done, batch, cands, keys)
    requires s'.messages == Ids(s, cands, keys) && (s'.rows, s'.pending) == LinkedState(s, ctx, batch, cands, keys)
    ensures Settled(initial, s', done + batch)
  {
    RepliesStayShown(initial, s, done, ctx, batch, cands, keys);
    IdsStayResolved(initial, s, done, batch, cands, keys);
    PendingStaysExact(initial, s, done, ctx, batch, cands, keys);
    forall id
      ensures id in initial ==> id in s'.rows && s'.rows[id].source == initial[id].source
      ensures id in s'.rows && id !in initial ==> exists k :: k in s'.messages && s'.messages[k].id == id
      ensures id in initial && (forall k :: k in s'.messages ==> s'.messages[k].id != id)
              ==> s'.rows[id].replyTo == initial[id].replyTo
    {
      TableStaysFramed(initial, s, done, ctx, batch, cands, keys, id);
      if id in initial && forall k :: k in s'.messages ==> s'.messages[k].id != id {
        OldReplyStays(initial, s, done, ctx, batch, cands, keys, id);
      }
    }
  }

  lemma BatchKeepsSettled(initial: Rows, s: Session, done: seq<MessageRecord>, ctx: Ctx, batch: seq<MessageRecord>)
    requires Settled(initial, s, done) && DistinctKeys(done + batch) && PersistBatch(s, ctx, batch).Some?
    ensures Settled(initial, PersistBatch(s, ctx, batch).value, done + batch)
    ensures PersistBatch(s, ctx, batch).value.conversations == s.conversations
  {
    var cands := Candidates(s.conversations, batch);
    var keys := Keys(OccupiedBy(s.rows), cands);
    BatchKeys(initial, s, done, batch);
    if cands == [] {
      NothingPersisted(initial, s, done, batch);
    } else {
      CandidatesKeepSettled(initial, s, done, ctx, batch, cands, keys, PersistBatch(s, ctx, batch).value);
    }
  }

  lemma NothingPersisted(initial: Rows, s: Session, done: seq<MessageRecord>, batch: seq<MessageRecord>)
    requires Settled(initial, s, done) && DistinctKeys(done + batch)
    ensures Settled(initial, s, done + batch)
  {
    DistinctParts(done, batch);
    forall t | t !in s.messages ensures Waiting(s.pending, t) == RepliesTo(done + batch, s.messages, t) {
      RepliesToConcat(done, batch, s.messages, t);
      if RepliesTo(batch, s.messages, t) != [] {
        RepliesToMembers(batch, s.messages, t, RepliesTo(batch, s.messages, t)[0]);
      }
    }
    forall r | r in done + batch ensures ReplyShown(initial, s.rows, s.messages, r) {
    }
    forall k | k in s.messages ensures exists r :: r in done + batch && r.stableKey == k {
      var r :| r in done && r.stableKey == k;
      assert r in done + batch;
    }
  }

  // ------------------------------------------------------------ the whole import

  function MessagesOf(records: seq<ImportRecord>): seq<MessageRecord> {
    if records == [] then []
    else (if records[0].AMessage? then [records[0].message] else []) + MessagesOf(records[1..])
  }

  /** A source conversation and the record key under which an import introduced it. */
  type Home = (SourceConv, Text)

  function SourceAt(messages: Messages, key: Text): Option<Home> {
    if key in messages then Some((messages[key].source, messages[key].conversation)) else None
  }

  /** The source under which a batch persists a record key, if it does. */
  function SourceIn(conversations: Conversations, batch: seq<MessageRecord>, key: Text): Option<Home> {
    if batch == [] then None
    else
      var last := batch[|batch| - 1];
      if last.stableKey == key && last.conversationKey in conversations
      then Some((conversations[last.conversationKey], last.conversationKey))
      else SourceIn(conversations, batch[..|batch| - 1], key)
  }

  /** The source under which an import persists a record key: that of its conversation, if
      the conversation's record came before the message. */
  function SourceOf(conversations: Conversations, ctx: Ctx, records: seq<ImportRecord>, key: Text): Option<Home>
    decreases |records|
  {
    if records == [] then None
    else
      match records[0]
      case AMessage(m) =>
        Coalesce(SourceOf(conversations, ctx, records[1..], key), SourceIn(conversations, [m], key))
      case ConversationRecord(k, namespace, sourceKey) =>
        SourceOf(conversations[k := SourceConv(ctx.account, namespace, sourceKey)], ctx, records[1..], key)
      case ARevision(_) => SourceOf(conversations, ctx, records[1..], key)
      case OtherRecord(_) => SourceOf(conversations, ctx, records[1..], key)
  }

  lemma {:induction false} SeenSource(messages: Messages, conversations: Conversations, batch: seq<MessageRecord>,
                                      keys: seq<MsgKey>, key: Text)
    requires |keys| == |Candidates(conversations, batch)|
    ensures SourceAt(SeenAfter(messages, Candidates(conversations, batch), keys), key)
            == Coalesce(SourceIn(conversations, batch, key), SourceAt(messages, key))
  {
    if batch != [] {
      var n := |batch| - 1;
      var before := Candidates(conversations, batch[..n]);
      var cands := Candidates(conversations, batch);
      if batch[n].conversationKey in conversations {
        assert cands[..|cands| - 1] == before;
        SeenSource(messages, conversations, batch[..n], keys[..|cands| - 1], key);
      } else {
        assert cands == before;
        SeenSource(messages, conversations, batch[..n], keys, key);
      }
    }
  }

  lemma BatchSource(s: Session, ctx: Ctx, batch: seq<MessageRecord>, key: Text)
    requires PersistBatch(s, ctx, batch).Some?
    ensures SourceAt(PersistBatch(s, ctx, batch).value.messages, key)
            == Coalesce(SourceIn(s.conversations, batch, key), SourceAt(s.messages, key))
    ensures PersistBatch(s, ctx, batch).value.conversations == s.conversations
  {
    var cands := Candidates(s.conversations, batch);
    SeenSource(s.messages, s.conversations, batch, Keys(OccupiedBy(s.rows), cands), key);
    if cands == [] {
      NoSource(s.conversations, batch, key);
    }
  }

  lemma {:induction false} NoSource(conversations: Conversations, batch: seq<MessageRecord>, key: Text)
    requires Candidates(conversations, batch) == []
    ensures SourceIn(conversations, batch, key).None?
  {
    if batch != [] {
      NoSource(conversations, batch[..|batch| - 1], key);
    }
  }

  lemma {:induction false} SourceInConcat(conversations: Conversations, a: seq<MessageRecord>, b: seq<MessageRecord>, key: Text)
    ensures SourceIn(conversations, a + b, key)
            == Coalesce(SourceIn(conversations, b, key), SourceIn(conversations, a, key))
  {
    if b == [] {
      assert a + b == a;
    } else {
      var n := |b| - 1;
      assert (a + b)[..|a + b| - 1] == a + b[..n];
      SourceInConcat(conversations, a, b[..n], key);
    }
  }

  /** The state in which the import goes on after one record, and what it then buffers. */
  function After(s: Session, ctx: Ctx, buffer: seq<MessageRecord>, r: ImportRecord): Option<(Session, seq<MessageRecord>)> {
    if r.AMessage? && |buffer| + 1 < MESSAGE_BATCH_SIZE then Some((s, buffer + [r.message]))
    else
      match PersistBatch(s, ctx, if r.AMessage? then buffer + [r.message] else buffer)
      case None => None
      case Some(s') => Some((if r.AMessage? then s' else PersistOther(s', ctx, r), []))
  }

  lemma ImportUnfolds(s: Session, ctx: Ctx, buffer: seq<MessageRecord>, records: seq<ImportRecord>)
    requires records != []
    ensures ImportFrom(s, ctx, buffer, records) ==
            match After(s, ctx, buffer, records[0])
            case None => None
            case Some(next) => ImportFrom(next.0, ctx, next.1, records[1..])
  {
  }

  /** What one record leaves of the conversations and the buffer. */
  function StepConversations(conversations: Conversations, ctx: Ctx, r: ImportRecord): Conversations {
    if r.ConversationRecord? then conversations[r.key := SourceConv(ctx.account, r.namespace, r.sourceKey)] else conversations
  }

  function StepBuffer(buffer: seq<MessageRecord>, r: ImportRecord): seq<MessageRecord> {
    if r.AMessage? && |buffer| + 1 < MESSAGE_BATCH_SIZE then buffer + [r.message] else []
  }

  /** A batch touches neither the conversations nor the revisions. */
  lemma BatchLeaves(s: Session, ctx: Ctx, batch: seq<MessageRecord>)
    requires PersistBatch(s, ctx, batch).Some?
    ensures var s' := PersistBatch(s, ctx, batch).value;
            && s'.conversations == s.conversations && s'.filings == s.filings
            && s'.revisions == s.revisions && s'.revLedger == s.revLedger
  {
  }

  lemma AfterSteps(s: Session, ctx: Ctx, buffer: seq<MessageRecord>, r: ImportRecord)
    requires After(s, ctx, buffer, r).Some?
    ensures var (s', buffer') := After(s, ctx, buffer, r).value;
            s'.conversations == StepConversations(s.conversations, ctx, r) && buffer' == StepBuffer(buffer, r)
  {
    if r.AMessage? {
      if |buffer| + 1 >= MESSAGE_BATCH_SIZE {
        BatchLeaves(s, ctx, buffer + [r.message]);
      }
    } else {
      BatchLeaves(s, ctx, buffer);
    }
  }

  lemma AfterSource(s: Session, ctx: Ctx, buffer: seq<MessageRecord>, r: ImportRecord, key: Text)
    requires After(s, ctx, buffer, r).Some?
    ensures var (s', buffer') := After(s, ctx, buffer, r).value;
            && Coalesce(SourceIn(s'.conversations, buffer', key), SourceAt(s'.messages, key))
               == Coalesce(if r.AMessage? then SourceIn(s.conversations, [r.message], key) else None,
                           Coalesce(SourceIn(s.conversations, buffer, key), SourceAt(s.messages, key)))
            && s'.conversations == if r.ConversationRecord?
                                   then s.conversations[r.key := SourceConv(ctx.account, r.namespace, r.sourceKey)]
                                   else s.conversations
  {
    if r.AMessage? {
      SourceInConcat(s.conversations, buffer, [r.message], key);
      if |buffer| + 1 >= MESSAGE_BATCH_SIZE {
        BatchSource(s, ctx, buffer + [r.message], key);
      }
    } else {
      BatchSource(s, ctx, buffer, key);
    }
  }

  /** Where each key of a finished import got its source, batch boundaries aside. */
  lemma {:induction false} ImportSource(s: Session, ctx: Ctx, buffer: seq<MessageRecord>, records: seq<ImportRecord>, key: Text)
    requires ImportFrom(s, ctx, buffer, records).Some?
    ensures SourceAt(ImportFrom(s, ctx, buffer, records).value.messages, key)
            == Coalesce(SourceOf(s.conversations, ctx, records, key),
                        Coalesce(SourceIn(s.conversations, buffer, key), SourceAt(s.messages, key)))
    decreases |records|
  {
    if records == [] {
      BatchSource(s, ctx, buffer, key);
    } else {
      ImportUnfolds(s, ctx, buffer, records);
      var (s', buffer') := After(s, ctx, buffer, records[0]).value;
      AfterSource(s, ctx, buffer, records[0], key);
      ImportSource(s', ctx, buffer', records[1..], key);
    }
  }

  lemma OneMessage(r: ImportRecord)
    ensures MessagesOf([r]) == if r.AMessage? then [r.message] else []
  {
    assert [r][1..] == [];
    assert MessagesOf([r][1..]) == [];
  }

  lemma AfterSettles(initial: Rows, s: Session, ctx: Ctx, done: seq<MessageRecord>, buffer: seq<MessageRecord>, r: ImportRecord)
    returns (done': seq<MessageRecord>)
    requires Settled(initial, s, done)
    requires DistinctKeys(done + buffer + MessagesOf([r])) && After(s, ctx, buffer, r).Some?
    ensures var (s', buffer') := After(s, ctx, buffer, r).value;
            Settled(initial, s', done') && done' + buffer' == done + buffer + MessagesOf([r])
  {
    OneMessage(r);
    if r.AMessage? {
      assert done + (buffer + [r.message]) == done + buffer + [r.message];
      if |buffer| + 1 < MESSAGE_BATCH_SIZE {
        done' := done;
      } else {
        BatchKeepsSettled(initial, s, done, ctx, buffer + [r.message]);
        done' := done + (buffer + [r.message]);
        assert done' + [] == done';
      }
    } else {
      assert done + buffer + MessagesOf([r]) == done + buffer;
      BatchKeepsSettled(initial, s, done, ctx, buffer);
      OtherKeepsSettled(initial, PersistBatch(s, ctx, buffer).value, done + buffer, ctx, r);
      done' := done + buffer;
      assert done' + [] == done';
    }
  }

  lemma {:induction false} ImportSettles(initial: Rows, s: Session, ctx: Ctx, done: seq<MessageRecord>,
                                         buffer: seq<MessageRecord>, records: seq<ImportRecord>)
    requires Settled(initial, s, done) && DistinctKeys(done + buffer + MessagesOf(records))
    requires ImportFrom(s, ctx, buffer, records).Some?
    ensures Settled(initial, ImportFrom(s, ctx, buffer, records).value, done + buffer + MessagesOf(records))
    decreases |records|
  {
    if records == [] {
      assert done + buffer + MessagesOf(records) == done + buffer;
      BatchKeepsSettled(initial, s, done, ctx, buffer);
    } else {
      var first, rest := MessagesOf([records[0]]), MessagesOf(records[1..]);
      OneMessage(records[0]);
      assert first == if records[0].AMessage? then [records[0].message] else [];
      assert MessagesOf(records) == first + rest;
      assert done + buffer + MessagesOf(records) == (done + buffer + first) + rest;
      DistinctParts(done + buffer + first, rest);
      ImportUnfolds(s, ctx, buffer, records);
      var done' := AfterSettles(initial, s, ctx, done, buffer, records[0]);
      var (s', buffer') := After(s, ctx, buffer, records[0]).value;
      ImportSettles(initial, s', ctx, done', buffer', records[1..]);
    }
  }

  lemma OtherIsElsewhere(s: Session, ctx: Ctx, r: ImportRecord)
    requires !r.AMessage?
    ensures var s' := PersistOther(s, ctx, r); s'.rows == s.rows && s'.messages == s.messages && s'.pending == s.pending
  {
  }

  lemma SameTableSettled(initial: Rows, s: Session, s': Session, done: seq<MessageRecord>)
    requires Settled(initial, s, done) && s'.rows == s.rows && s'.messages == s.messages && s'.pending == s.pending
    ensures Settled(initial, s', done)
  {
  }

  lemma OtherKeepsSettled(initial: Rows, s: Session, done: seq<MessageRecord>, ctx: Ctx, r: ImportRecord)
    requires Settled(initial, s, done) && !r.AMessage?
    ensures Settled(initial, PersistOther(s, ctx, r), done)
  {
    OtherIsElsewhere(s, ctx, r);
    SameTableSettled(initial, s, PersistOther(s, ctx, r), done);
  }

  /** A transaction at its start. */
  predicate AtStart(s: Session) {
    s.conversations == map[] && s.messages == map[] && s.pending == map[]
  }

  /** What an import with distinct message keys leaves behind: every reply whose target is
      imported anywhere in it, before or after, in whatever batch, shows that target's id;
      `pendingReplies` is left with exactly the replies whose target never came. */
  ghost predicate Resolves(s: Session, ctx: Ctx, records: seq<ImportRecord>, s': Session) {
    && (forall k :: SourceAt(s'.messages, k) == SourceOf(map[], ctx, records, k))
    && IdsResolved(s.rows, s'.messages)
    && (forall r :: r in MessagesOf(records) ==> ReplyShown(s.rows, s'.rows, s'.messages, r))
    && PendingExact(MessagesOf(records), s'.messages, s'.pending)
  }

  lemma ImportResolves(s: Session, ctx: Ctx, records: seq<ImportRecord>)
    requires AtStart(s) && DistinctKeys(MessagesOf(records)) && ImportFrom(s, ctx, [], records).Some?
    ensures Resolves(s, ctx, records, ImportFrom(s, ctx, [], records).value)
  {
    assert [] + [] + MessagesOf(records) == MessagesOf(records);
    assert Settled(s.rows, s, []);
    ImportSettles(s.rows, s, ctx, [], [], records);
    forall k ensures SourceAt(ImportFrom(s, ctx, [], records).value.messages, k) == SourceOf(map[], ctx, records, k) {
      ImportSource(s, ctx, [], records, k);
    }
  }

  function PersistBatches(s: Session, ctx: Ctx, batches: seq<seq<MessageRecord>>): Option<Session>
    decreases |batches|
  {
    if batches == [] then Some(s)
    else
      match PersistBatch(s, ctx, batches[0])
      case None => None
      case Some(s') => PersistBatches(s', ctx, batches[1..])
  }

  lemma {:induction false} BatchesSettle(initial: Rows, s: Session, ctx: Ctx, done: seq<MessageRecord>,
                                         batches: seq<seq<MessageRecord>>)
    requires Settled(initial, s, done) && DistinctKeys(done + Flatten(batches)) && PersistBatches(s, ctx, batches).Some?
    ensures Settled(initial, PersistBatches(s, ctx, batches).value, done + Flatten(batches))
    decreases |batches|
  {
    if batches == [] {
      assert done + Flatten(batches) == done;
    } else {
      var rest := Flatten(batches[1..]);
      assert done + Flatten(batches) == (done + batches[0]) + rest;
      DistinctParts(done + batches[0], rest);
      BatchKeepsSettled(initial, s, done, ctx, batches[0]);
      BatchesSettle(initial, PersistBatch(s, ctx, batches[0]).value, ctx, done + batches[0], batches[1..]);
    }
  }

  lemma {:induction false} BatchesSource(s: Session, ctx: Ctx, batches: seq<seq<MessageRecord>>, key: Text)
    requires PersistBatches(s, ctx, batches).Some?
    ensures SourceAt(PersistBatches(s, ctx, batches).value.messages, key)
            == Coalesce(SourceIn(s.conversations, Flatten(batches), key), SourceAt(s.messages, key))
    decreases |batches|
  {
    if batches != [] {
      BatchSource(s, ctx, batches[0], key);
      SourceInConcat(s.conversations, batches[0], Flatten(batches[1..]), key);
      BatchesSource(PersistBatch(s, ctx, batches[0]).value, ctx, batches[1..], key);
    }
  }

  /** No id, no reply and no waiting list differs. */
  predicate SameResolution(x: Session, y: Session) {
    && x.messages == y.messages && x.pending == y.pending
    && x.rows.Keys == y.rows.Keys
    && forall id :: id in x.rows ==> x.rows[id].replyTo == y.rows[id].replyTo
  }

  lemma BatchesResolveAlike(s: Session, ctx: Ctx, a: seq<seq<MessageRecord>>, b: seq<seq<MessageRecord>>)
    requires s.messages == map[] && s.pending == map[]
    requires Flatten(a) == Flatten(b) && DistinctKeys(Flatten(a))
    requires PersistBatches(s, ctx, a).Some? && PersistBatches(s, ctx, b).Some?
    ensures SameResolution(PersistBatches(s, ctx, a).value, PersistBatches(s, ctx, b).value)
  {
    var records := Flatten(a);
    assert [] + records == records;
    assert Settled(s.rows, s, []);
    BatchesSettle(s.rows, s, ctx, [], a);
    BatchesSettle(s.rows, s, ctx, [], b);
    var x, y := PersistBatches(s, ctx, a).value, PersistBatches(s, ctx, b).value;
    forall k ensures SourceAt(x.messages, k) == SourceAt(y.messages, k) {
      BatchesSource(s, ctx, a, k);
      BatchesSource(s, ctx, b, k);
    }
    SameIds(s.rows, x.messages, y.messages);
    SamePending(records, x.messages, x.pending, y.pending);
    forall id ensures id in x.rows <==> id in y.rows
      ensures id in x.rows ==> x.rows[id].replyTo == y.rows[id].replyTo
    {
      SameReply(s.rows, x, y, records, id);
    }
  }

  lemma SameIds(initial: Rows, m: Messages, n: Messages)
    requires IdsResolved(initial, m) && IdsResolved(initial, n)
    requires forall k :: SourceAt(m, k) == SourceAt(n, k)
    ensures m == n
  {
    forall k ensures k in m <==> k in n
      ensures k in m ==> m[k] == n[k]
    {
      assert SourceAt(m, k) == SourceAt(n, k);
    }
  }

  lemma SamePending(records: seq<MessageRecord>, messages: Messages, p: Pending, q: Pending)
    requires PendingExact(records, messages, p) && PendingExact(records, messages, q)
    ensures p == q
  {
    forall t ensures t in p <==> t in q
      ensures t in p ==> p[t] == q[t]
    {
      assert t !in messages ==> Waiting(p, t) == Waiting(q, t);
    }
  }

  lemma SameReply(initial: Rows, x: Session, y: Session, records: seq<MessageRecord>, id: MsgKey)
    requires Settled(initial, x, records) && Settled(initial, y, records) && x.messages == y.messages
    ensures id in x.rows <==> id in y.rows
    ensures id in x.rows ==> x.rows[id].replyTo == y.rows[id].replyTo
  {
    if k :| k in x.messages && x.messages[k].id == id {
      var r :| r in records && r.stableKey == k;
      assert ReplyShown(initial, x.rows, x.messages, r) && ReplyShown(initial, y.rows, y.messages, r);
    }
  }
}
