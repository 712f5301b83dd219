/** The archive's message rows and the upsert that merges one arriving row into another. */
module ArchiveRows {
  import opened Basics

  type Time = int

  /** An account-specific source conversation; its database id is derived from these. */
  datatype SourceConv = SourceConv(account: Text, namespace: Text, key: Text)

  /** The stable key of a message row: the record's own key, or, when another source
      conversation already occupies that key, one that names the source conversation. The
      row's id is a hash of this key. */
  datatype MsgKey = Base(key: Text) | Split(source: SourceConv, own: Text)

  /** The stable key of a conversation row: the key its record gave it, or, when another
      source conversation already belongs to that row, one that names the source conversation. */
  datatype ConvKey = Given(key: Text) | Qualified(source: SourceConv, given: Text)

  datatype Metadata = Metadata(fields: map<Text, Text>, firstSeen: Option<Text>, lastSeen: Option<Text>)

  datatype MessageRow = MessageRow(
    source: Option<SourceConv>,
    conversation: ConvKey,         // that of the first insertion: no later upsert changes it
    replyTo: Option<MsgKey>,
    sourceType: Text,
    sourceKey: Text,
    messageType: Text,
    body: Option<Text>,
    metadata: Metadata,
    sourceDeleted: bool,
    contentUnavailable: bool,
    deletedAt: Option<Time>,
    deletionKey: Option<Text>,
    deletionMetadata: Option<Text>,
    sentAt: Option<Time>,
    firstSeenAt: Time,
    lastSeenAt: Time,
    materialized: bool)

  /** The foreign key on a message's reply and its conversation: the row that a reply names
      exists and belongs to the same conversation. */
  predicate ReplyFits(rows: map<MsgKey, MessageRow>, id: MsgKey) {
    id in rows &&
    (rows[id].replyTo.Some? ==> SameConversation(rows, id, rows[id].replyTo.value))
  }

  predicate SameConversation(rows: map<MsgKey, MessageRow>, id: MsgKey, target: MsgKey) {
    id in rows && target in rows && rows[target].conversation == rows[id].conversation
  }

  /** The tombstone comparison of the upsert: later, or equally late with a greater event
      key; an unset key counts as the empty string. */
  predicate NewerTombstone(row: MessageRow, arriving: MessageRow)
    requires arriving.sourceDeleted ==> arriving.deletedAt.Some? && arriving.deletionKey.Some?
  {
    arriving.sourceDeleted &&
    (row.deletedAt.None?
     || arriving.deletedAt.value > row.deletedAt.value
     || (arriving.deletedAt.value == row.deletedAt.value
         && arriving.deletionKey.value > (if row.deletionKey.Some? then row.deletionKey.value else EMPTY_TEXT)))
  }

  /** A row that the importer builds from one record. */
  predicate Arriving(row: MessageRow) {
    && (row.sourceDeleted <==> row.deletedAt.Some?)
    && (row.sourceDeleted <==> row.deletionKey.Some?)
    && (row.contentUnavailable <==> row.sourceDeleted && row.body.None?)
    && row.metadata.firstSeen.Some?
  }

  /** `ON CONFLICT ("archiveId", "stableKey") DO UPDATE SET ...` */
  function Upsert(row: MessageRow, arriving: MessageRow): MessageRow
    requires arriving.sourceDeleted ==> arriving.deletedAt.Some? && arriving.deletionKey.Some?
  {
    var newer := NewerTombstone(row, arriving);
    row.(
    body := if arriving.body.Some? then arriving.body else row.body,
    messageType := arriving.messageType,
    lastSeenAt := arriving.lastSeenAt,
    materialized := arriving.materialized,
    metadata := Metadata(row.metadata.fields + arriving.metadata.fields,
                         Coalesce(row.metadata.firstSeen, arriving.metadata.firstSeen),
                         Coalesce(arriving.metadata.lastSeen, row.metadata.lastSeen)),
    sourceDeleted := row.sourceDeleted || arriving.sourceDeleted,
    contentUnavailable :=
      if arriving.sourceDeleted && arriving.body.Some? then false
      else if arriving.sourceDeleted && row.body.None? then true
      else if arriving.body.Some? then false
      else row.contentUnavailable,
    deletedAt := if newer then arriving.deletedAt else row.deletedAt,
    deletionKey := if newer then arriving.deletionKey else row.deletionKey,
    deletionMetadata := if newer then arriving.deletionMetadata else row.deletionMetadata,
    replyTo := Coalesce(arriving.replyTo, row.replyTo))
  }

  // ------------------------------------------------------- sequences of upserts

  predicate AllArriving(rows: seq<MessageRow>) {
    forall r :: r in rows ==> Arriving(r)
  }

  /** One row after a sequence of arrivals: the first is inserted, the others merge. */
  function Merged(rows: seq<MessageRow>): MessageRow
    requires rows != [] && AllArriving(rows)
  {
    if |rows| == 1 then rows[0]
    else
      assert rows[|rows| - 1] in rows;
      Upsert(Merged(rows[..|rows| - 1]), rows[|rows| - 1])
  }

  /** What arrival order cannot change: a deletion is shown with the lexicographically
      greatest tombstone, and content is unavailable only while no body has arrived. */
  predicate MergeLaw(rows: seq<MessageRow>, m: MessageRow) {
    && (m.sourceDeleted <==> exists r :: r in rows && r.sourceDeleted)
    && (m.body.Some? <==> exists r :: r in rows && r.body.Some?)
    && (m.contentUnavailable <==> m.sourceDeleted && m.body.None?)
    && (m.sourceDeleted <==> m.deletedAt.Some?)
    && (m.sourceDeleted <==> m.deletionKey.Some?)
    && (m.sourceDeleted ==> exists r :: r in rows && r.sourceDeleted
                                        && r.deletedAt == m.deletedAt && r.deletionKey == m.deletionKey
                                        && r.deletionMetadata == m.deletionMetadata)
    && (forall r :: r in rows && r.sourceDeleted ==> TombstoneAtMost(r, m))
  }

  predicate TombstoneAtMost(a: MessageRow, b: MessageRow) {
    a.deletedAt.Some? && b.deletedAt.Some? && a.deletionKey.Some? && b.deletionKey.Some?
    && (a.deletedAt.value < b.deletedAt.value
        || (a.deletedAt.value == b.deletedAt.value && a.deletionKey.value <= b.deletionKey.value))
  }

  lemma {:induction false} MergeKeepsTheLaw(rows: seq<MessageRow>)
    requires rows != [] && AllArriving(rows)
    ensures MergeLaw(rows, Merged(rows))
  {
    if |rows| == 1 {
      assert forall r :: r in rows ==> r == rows[0];
      assert rows[0] in rows;
    } else {
      var init, last := rows[..|rows| - 1], rows[|rows| - 1];
      MergeKeepsTheLaw(init);
      assert last in rows && Arriving(last);
      assert forall r :: r in rows <==> r in init || r == last;
      var m, m' := Merged(init), Merged(rows);
      assert m' == Upsert(m, last);
      MergeStep(rows, init, last, m);
    }
  }

  lemma MergeStep(rows: seq<MessageRow>, init: seq<MessageRow>, last: MessageRow, m: MessageRow)
    requires MergeLaw(init, m) && Arriving(last)
    requires forall r :: r in rows <==> r in init || r == last
    ensures MergeLaw(rows, Upsert(m, last))
  {
    var m' := Upsert(m, last);
    forall r | r in rows && r.sourceDeleted ensures TombstoneAtMost(r, m') {
      if r in init {
        assert TombstoneAtMost(r, m);
      }
    }
    if m.sourceDeleted {
      var r :| r in init && r.sourceDeleted && r.deletedAt == m.deletedAt && r.deletionKey == m.deletionKey
               && r.deletionMetadata == m.deletionMetadata;
      assert r in rows;
    }
    assert last in rows;
    if m.body.Some? {
      var r :| r in init && r.body.Some?;
      assert r in rows;
    }
  }

  /** Two orders of the same arrivals agree on everything about deletion, and on whether
      there is a body and whether it is unavailable. */
  lemma ArrivalOrderDoesNotMatter(a: seq<MessageRow>, b: seq<MessageRow>)
    requires a != [] && AllArriving(a) && multiset(a) == multiset(b)
    ensures b != [] && AllArriving(b)
    ensures var m, n := Merged(a), Merged(b);
            && m.sourceDeleted == n.sourceDeleted
            && m.deletedAt == n.deletedAt && m.deletionKey == n.deletionKey
            && m.body.Some? == n.body.Some?
            && m.contentUnavailable == n.contentUnavailable
  {
    forall r: MessageRow ensures r in a <==> r in b {
      assert r in a <==> r in multiset(a);
      assert r in b <==> r in multiset(b);
    }
    assert a[0] in b;
    MergeKeepsTheLaw(a);
    MergeKeepsTheLaw(b);
    LawDetermines(a, b, Merged(a), Merged(b));
  }

  lemma LawDetermines(a: seq<MessageRow>, b: seq<MessageRow>, m: MessageRow, n: MessageRow)
    requires MergeLaw(a, m) && MergeLaw(b, n) && forall r :: r in a <==> r in b
    ensures m.sourceDeleted == n.sourceDeleted
    ensures m.deletedAt == n.deletedAt && m.deletionKey == n.deletionKey
    ensures m.body.Some? == n.body.Some? && m.contentUnavailable == n.contentUnavailable
  {
    if m.sourceDeleted {
      var r :| r in a && r.sourceDeleted && r.deletedAt == m.deletedAt && r.deletionKey == m.deletionKey;
      assert TombstoneAtMost(r, n);
      var q :| q in b && q.sourceDeleted && q.deletedAt == n.deletedAt && q.deletionKey == n.deletionKey;
      assert TombstoneAtMost(q, m);
    }
  }

  /** A body once shown is never lost, and provenance starts at the first arrival for ever. */
  lemma {:induction false} HistoryIsKept(rows: seq<MessageRow>, n: nat)
    requires 0 < n <= |rows| && AllArriving(rows)
    ensures AllArriving(rows[..n])
    ensures Merged(rows[..n]).body.Some? ==> Merged(rows).body.Some?
    ensures Merged(rows).metadata.firstSeen == rows[0].metadata.firstSeen
    ensures Merged(rows).source == rows[0].source && Merged(rows).firstSeenAt == rows[0].firstSeenAt
    decreases |rows|
  {
    assert forall r :: r in rows[..n] ==> r in rows;
    assert rows[0] in rows;
    if |rows| == n {
      assert rows[..n] == rows;
    }
    if |rows| > 1 {
      var init := rows[..|rows| - 1];
      assert rows[|rows| - 1] in rows;
      HistoryIsKept(init, if n < |rows| then n else 1);
      if n < |rows| {
        assert init[..n] == rows[..n];
      }
    }
  }

  /** The body shown is the last one that arrived. */
  lemma {:induction false} LastBodyWins(rows: seq<MessageRow>, n: nat)
    requires n < |rows| && AllArriving(rows) && rows[n].body.Some?
    requires forall i :: n < i < |rows| ==> rows[i].body.None?
    ensures Merged(rows).body == rows[n].body
    decreases |rows|
  {
    if |rows| > 1 && n < |rows| - 1 {
      LastBodyWins(rows[..|rows| - 1], n);
    }
  }

  /** The type, the last sighting and whether the row is shown are those of the last arrival. */
  lemma LatestArrivalShows(rows: seq<MessageRow>)
    requires rows != [] && AllArriving(rows)
    ensures var m, last := Merged(rows), rows[|rows| - 1];
            && m.messageType == last.messageType && m.lastSeenAt == last.lastSeenAt && m.materialized == last.materialized
            && (last.metadata.lastSeen.Some? ==> m.metadata.lastSeen == last.metadata.lastSeen)
  {
    assert rows[|rows| - 1] in rows;
  }

  /** The reply shown is that of the last arrival that named one. */
  lemma {:induction false} LastReplyWins(rows: seq<MessageRow>, n: nat)
    requires n < |rows| && AllArriving(rows) && rows[n].replyTo.Some?
    requires forall i :: n < i < |rows| ==> rows[i].replyTo.None?
    ensures Merged(rows).replyTo == rows[n].replyTo
    decreases |rows|
  {
    if |rows| > 1 && n < |rows| - 1 {
      LastReplyWins(rows[..|rows| - 1], n);
    }
  }
}
