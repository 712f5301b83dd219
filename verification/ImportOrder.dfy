/** The order in which an import meets its records: an array is sorted, so that every
    conversation comes before the first message. */
module ImportOrder {
  import opened Basics
  import opened TextImport
  import opened ReplyResolution
  import opened CachedRevisions

  predicate UpTo(records: seq<ImportRecord>, n: nat) {
    forall r :: r in records ==> RecordOrder(r) <= n
  }

  predicate Sorted(records: seq<ImportRecord>) {
    records == []
    || (Sorted(records[..|records| - 1]) && UpTo(records[..|records| - 1], RecordOrder(records[|records| - 1])))
  }

  /** The records of one place in the order. */
  function OfOrder(records: seq<ImportRecord>, n: nat): seq<ImportRecord> {
    if records == [] then []
    else
      var last := records[|records| - 1];
      OfOrder(records[..|records| - 1], n) + (if RecordOrder(last) == n then [last] else [])
  }

  lemma {:induction false} InsertKeepsRecords(r: ImportRecord, sorted: seq<ImportRecord>)
    ensures multiset(Insert(r, sorted)) == multiset(sorted) + multiset{r}
  {
    if sorted != [] && RecordOrder(sorted[|sorted| - 1]) > RecordOrder(r) {
      var m := |sorted| - 1;
      InsertKeepsRecords(r, sorted[..m]);
      assert sorted == sorted[..m] + [sorted[m]];
    }
  }

  lemma {:induction false} InsertStaysUpTo(r: ImportRecord, sorted: seq<ImportRecord>, n: nat)
    requires RecordOrder(r) <= n && UpTo(sorted, n)
    ensures UpTo(Insert(r, sorted), n)
  {
    if sorted != [] && RecordOrder(sorted[|sorted| - 1]) > RecordOrder(r) {
      InsertStaysUpTo(r, sorted[..|sorted| - 1], n);
    }
  }

  lemma {:induction false} InsertStaysSorted(r: ImportRecord, sorted: seq<ImportRecord>)
    requires Sorted(sorted)
    ensures Sorted(Insert(r, sorted))
  {
    var m := |sorted| - 1;
    if sorted == [] || RecordOrder(sorted[m]) <= RecordOrder(r) {
      assert (sorted + [r])[..|sorted|] == sorted;
    } else {
      var before := Insert(r, sorted[..m]);
      InsertStaysSorted(r, sorted[..m]);
      InsertStaysUpTo(r, sorted[..m], RecordOrder(sorted[m]));
      assert (before + [sorted[m]])[..|before|] == before;
    }
  }

  lemma {:induction false} InsertIsStable(r: ImportRecord, sorted: seq<ImportRecord>, n: nat)
    ensures OfOrder(Insert(r, sorted), n) == OfOrder(sorted, n) + (if RecordOrder(r) == n then [r] else [])
  {
    var m := |sorted| - 1;
    if sorted == [] || RecordOrder(sorted[m]) <= RecordOrder(r) {
      assert (sorted + [r])[..|sorted|] == sorted;
    } else {
      var before := Insert(r, sorted[..m]);
      InsertIsStable(r, sorted[..m], n);
      assert (before + [sorted[m]])[..|before|] == before;
      assert Insert(r, sorted) == before + [sorted[m]];
    }
  }

  lemma {:induction false} SortIsSorted(records: seq<ImportRecord>)
    ensures Sorted(SortRecords(records))
  {
    if records != [] {
      var m := |records| - 1;
      SortIsSorted(records[..m]);
      InsertStaysSorted(records[m], SortRecords(records[..m]));
    }
  }

  lemma LastAndRest<T>(s: seq<T>)
    requires s != []
    ensures multiset(s) == multiset(s[..|s| - 1]) + multiset{s[|s| - 1]}
  {
    assert s == s[..|s| - 1] + [s[|s| - 1]];
  }

  lemma {:induction false} SortKeepsRecords(records: seq<ImportRecord>)
    ensures multiset(SortRecords(records)) == multiset(records)
  {
    if records != [] {
      var m := |records| - 1;
      SortKeepsRecords(records[..m]);
      InsertKeepsRecords(records[m], SortRecords(records[..m]));
      LastAndRest(records);
    }
  }

  lemma {:induction false} SortKeepsPlaces(records: seq<ImportRecord>, n: nat)
    ensures OfOrder(SortRecords(records), n) == OfOrder(records, n)
  {
    if records != [] {
      var m := |records| - 1;
      SortKeepsPlaces(records[..m], n);
      InsertIsStable(records[m], SortRecords(records[..m]), n);
    }
  }

  /** People, their identities, conversations, participants, messages, revisions, attachments. */
  predicate MayPrecede(a: ImportRecord, b: ImportRecord) {
    match b
    case OtherRecord(Person) => a == OtherRecord(Person)
    case OtherRecord(Identity) => a == OtherRecord(Person) || a == OtherRecord(Identity)
    case ConversationRecord(_, _, _) => a == OtherRecord(Person) || a == OtherRecord(Identity) || a.ConversationRecord?
    case OtherRecord(Participant) => !a.AMessage? && !a.ARevision? && a != OtherRecord(Attachment)
    case AMessage(_) => !a.ARevision? && a != OtherRecord(Attachment)
    case ARevision(_) => a != OtherRecord(Attachment)
    case OtherRecord(Attachment) => true
  }

  lemma {:induction false} SortedTells(records: seq<ImportRecord>, i: nat, j: nat)
    requires Sorted(records) && i < j < |records|
    ensures MayPrecede(records[i], records[j])
  {
    if j < |records| - 1 {
      SortedTells(records[..|records| - 1], i, j);
    } else {
      assert records[i] in records[..j];
    }
  }

  /** The sort is stable: it puts the kinds in order, keeps the records, and of one kind also
      their order. */
  lemma SortIsStable(records: seq<ImportRecord>)
    ensures var sorted := SortRecords(records);
            multiset(sorted) == multiset(records) && forall i, j :: 0 <= i < j < |sorted| ==> MayPrecede(sorted[i], sorted[j])
    ensures forall n :: OfOrder(SortRecords(records), n) == OfOrder(records, n)
  {
    SortIsSorted(records);
    forall i, j | 0 <= i < j < |SortRecords(records)| ensures MayPrecede(SortRecords(records)[i], SortRecords(records)[j]) {
      SortedTells(SortRecords(records), i, j);
    }
    SortKeepsRecords(records);
    forall n ensures OfOrder(SortRecords(records), n) == OfOrder(records, n) {
      SortKeepsPlaces(records, n);
    }
  }

  /** No conversation comes after a message. */
  predicate ConversationsFirst(records: seq<ImportRecord>) {
    forall i, j :: 0 <= i < j < |records| && records[i].AMessage? ==> !records[j].ConversationRecord?
  }

  lemma {:induction false} SortedHasConversationsFirst(records: seq<ImportRecord>)
    requires Sorted(records)
    ensures ConversationsFirst(records)
  {
    if records != [] {
      var m := |records| - 1;
      SortedHasConversationsFirst(records[..m]);
      assert forall i :: 0 <= i < m ==> records[i] in records[..m];
    }
  }

  ghost predicate AllHome(conversations: Conversations, homes: Homes) {
    forall k :: k in homes ==> IsHome(conversations, homes[k])
  }

  lemma {:induction false} SettledIsHome(conversations: Conversations, homes: Homes, ctx: Ctx, records: seq<ImportRecord>)
    requires AllHome(conversations, homes) && forall r :: r in records ==> !r.ConversationRecord?
    ensures AtHomeThroughout(conversations, homes, ctx, records)
    decreases |records|
  {
    if records != [] {
      assert records[0] in records && forall r :: r in records[1..] ==> r in records;
      SettledIsHome(conversations, HomesAfter(conversations, homes, records[0]), ctx, records[1..]);
    }
  }

  lemma {:induction false} ConversationsFirstIsHome(conversations: Conversations, ctx: Ctx, records: seq<ImportRecord>)
    requires ConversationsFirst(records)
    ensures AtHomeThroughout(conversations, map[], ctx, records)
    decreases |records|
  {
    if records != [] {
      if records[0].AMessage? {
        forall r | r in records[1..] ensures !r.ConversationRecord? {
          var j :| 1 <= j < |records| && records[j] == r;
          assert records[0].AMessage?;
        }
        SettledIsHome(conversations, HomesAfter(conversations, map[], records[0]), ctx, records[1..]);
      } else {
        assert forall i :: 0 <= i < |records[1..]| ==> records[1..][i] == records[i + 1];
        ConversationsFirstIsHome(StepConversations(conversations, ctx, records[0]), ctx, records[1..]);
      }
    }
  }

  /** The revisions of an array always find their messages at home. */
  lemma ArraysAreHome(ctx: Ctx, records: seq<ImportRecord>)
    ensures AtHomeThroughout(map[], map[], ctx, OrderedRecords(InArray(records)))
  {
    SortIsSorted(records);
    SortedHasConversationsFirst(SortRecords(records));
    ConversationsFirstIsHome(map[], ctx, SortRecords(records));
  }

  /** So do those of a spool, which holds the metadata before the messages. */
  lemma SpoolsAreHome(ctx: Ctx, metadata: seq<ImportRecord>, messages: seq<ImportRecord>)
    requires forall r :: r in metadata ==> !r.AMessage?
    requires forall r :: r in messages ==> !r.ConversationRecord?
    ensures AtHomeThroughout(map[], map[], ctx, metadata + messages)
  {
    var records := metadata + messages;
    forall i | 0 <= i < |metadata| ensures !records[i].AMessage? {
      assert records[i] == metadata[i];
    }
    forall j | |metadata| <= j < |records| ensures !records[j].ConversationRecord? {
      assert records[j] == messages[j - |metadata|];
    }
    ConversationsFirstIsHome(map[], ctx, records);
  }
}
