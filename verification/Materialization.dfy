/** Recomputing one message from its observations: field-level precedence, tombstones, and
    first and last sighting. */
module Materialization {
  import opened Basics
  import opened ArchiveRows
  import opened TextImport

  /** What the precedence of observations compares. */
  datatype Rank = Rank(live: bool, observedAt: Time, key: Text)

  // ------------------------------------------------------------------- precedence

  /** Whether a candidate replaces the current winner: usable before unusable, backup
      before live, later before earlier, and the greater key among equals. */
  predicate Replaces<T>(candidate: T, winner: T, rank: T -> Rank, usable: T -> bool) {
    var c, w := rank(candidate), rank(winner);
    if usable(candidate) != usable(winner) then usable(candidate)
    else if c.live != w.live then !c.live
    else if c.observedAt != w.observedAt then c.observedAt > w.observedAt
    else c.key > w.key
  }

  /** The left-to-right reduction. */
  function SelectPreferred<T>(entries: seq<T>, rank: T -> Rank, usable: T -> bool): (winner: Option<T>)
    ensures winner.None? <==> entries == []
    ensures winner.Some? ==> winner.value in entries
  {
    if entries == [] then None
    else
      var n := |entries| - 1;
      var before := SelectPreferred(entries[..n], rank, usable);
      if before.None? || Replaces(entries[n], before.value, rank, usable) then Some(entries[n]) else before
  }

  ghost predicate Best<T(!new)>(winner: T, entries: seq<T>, rank: T -> Rank, usable: T -> bool) {
    winner in entries && forall e :: e in entries ==> !Replaces(e, winner, rank, usable)
  }

  lemma ReplacesIsTransitive<T>(a: T, b: T, c: T, rank: T -> Rank, usable: T -> bool)
    ensures Replaces(a, b, rank, usable) && !Replaces(c, b, rank, usable) ==> Replaces(a, c, rank, usable)
    ensures Replaces(a, b, rank, usable) ==> !Replaces(b, a, rank, usable)
    ensures !Replaces(a, b, rank, usable) && !Replaces(b, c, rank, usable) ==> !Replaces(a, c, rank, usable)
  {
  }

  /** The reduction returns the first of the best entries: nothing outranks it, and it
      outranks everything that came before it. */
  lemma {:induction false} SelectsFirstBest<T(!new)>(entries: seq<T>, rank: T -> Rank, usable: T -> bool)
    requires entries != []
    ensures SelectPreferred(entries, rank, usable).Some?
    ensures var winner := SelectPreferred(entries, rank, usable).value;
            && Best(winner, entries, rank, usable)
            && exists i :: 0 <= i < |entries| && entries[i] == winner
                           && forall j :: 0 <= j < i ==> Replaces(winner, entries[j], rank, usable)
  {
    var n := |entries| - 1;
    var winner := SelectPreferred(entries, rank, usable).value;
    assert forall e :: e in entries <==> e in entries[..n] || e == entries[n];
    if n > 0 {
      SelectsFirstBest(entries[..n], rank, usable);
      var before := SelectPreferred(entries[..n], rank, usable).value;
      forall e | e in entries ensures !Replaces(e, winner, rank, usable) {
        ReplacesIsTransitive(e, before, winner, rank, usable);
        ReplacesIsTransitive(winner, before, e, rank, usable);
      }
      var i :| 0 <= i < n && entries[..n][i] == before && forall j :: 0 <= j < i ==> Replaces(before, entries[..n][j], rank, usable);
      if winner == before {
        assert forall j :: 0 <= j < i ==> entries[..n][j] == entries[j];
        assert entries[i] == winner;
      } else {
        forall j | 0 <= j < n ensures Replaces(winner, entries[j], rank, usable) {
          assert entries[j] in entries[..n];
          ReplacesIsTransitive(winner, before, entries[j], rank, usable);
        }
      }
    } else {
      assert entries[..0] == [];
      assert entries[0] == winner;
    }
  }

  /** Exactly when the order in which the database lists the observations is immaterial. */
  lemma OrderIsImmaterialExactly<T(!new)>(entries: seq<T>, rank: T -> Rank, usable: T -> bool)
    ensures (forall other :: multiset(other) == multiset(entries)
                             ==> SelectPreferred(other, rank, usable) == SelectPreferred(entries, rank, usable))
            <==> (forall a, b :: Best(a, entries, rank, usable) && Best(b, entries, rank, usable) ==> a == b)
  {
    if forall a, b :: Best(a, entries, rank, usable) && Best(b, entries, rank, usable) ==> a == b {
      forall other | multiset(other) == multiset(entries)
        ensures SelectPreferred(other, rank, usable) == SelectPreferred(entries, rank, usable)
      {
        SameMembers(other, entries);
        if entries != [] {
          assert entries[0] in other;
          SelectsFirstBest(entries, rank, usable);
          SelectsFirstBest(other, rank, usable);
          assert Best(SelectPreferred(other, rank, usable).value, entries, rank, usable);
        }
      }
    } else {
      var a, b :| Best(a, entries, rank, usable) && Best(b, entries, rank, usable) && a != b;
      var x := FirstWins(entries, a, rank, usable);
      var y := FirstWins(entries, b, rank, usable);
    }
  }

  lemma SameMembers<T(!new)>(s: seq<T>, t: seq<T>)
    requires multiset(s) == multiset(t)
    ensures forall e :: e in s <==> e in t
  {
    forall e: T ensures e in s <==> e in t {
      assert e in s <==> e in multiset(s);
      assert e in t <==> e in multiset(t);
    }
  }

  /** A best entry that is listed first wins. */
  lemma FirstWins<T(!new)>(entries: seq<T>, best: T, rank: T -> Rank, usable: T -> bool) returns (order: seq<T>)
    requires Best(best, entries, rank, usable)
    ensures multiset(order) == multiset(entries) && SelectPreferred(order, rank, usable) == Some(best)
  {
    var i :| 0 <= i < |entries| && entries[i] == best;
    order := [best] + (entries[..i] + entries[i + 1..]);
    assert entries == entries[..i] + [entries[i]] + entries[i + 1..];
    SameMembers(order, entries);
    SelectsFirstBest(order, rank, usable);
    var winner := SelectPreferred(order, rank, usable).value;
    assert order[0] == best && !Replaces(winner, best, rank, usable);
  }

  // ------------------------------------------------------------ message observations

  /** A ledger row as the recomputation reads it. */
  datatype Entry = Entry(id: ObsId, o: Observation)

  function EntryRank(e: Entry): Rank {
    Rank(e.o.live, e.o.observedAt, e.id.obsKey)
  }

  // ------------------------------------------------------ sightings and tombstones

  predicate Sooner(a: Entry, b: Entry) {
    a.o.observedAt < b.o.observedAt || (a.o.observedAt == b.o.observedAt && a.id.obsKey < b.id.obsKey)
  }

  /** The head of a stable ascending sort: the first entry that nothing precedes. */
  function Earliest(entries: seq<Entry>): Option<Entry> {
    if entries == [] then None
    else
      var n := |entries| - 1;
      var before := Earliest(entries[..n]);
      if before.None? || Sooner(entries[n], before.value) then Some(entries[n]) else before
  }

  function Latest(entries: seq<Entry>): Option<Entry> {
    if entries == [] then None
    else
      var n := |entries| - 1;
      var before := Latest(entries[..n]);
      if before.None? || Sooner(before.value, entries[n]) then Some(entries[n]) else before
  }

  /** The head of a stable sort by falling time. */
  function LastTombstone(entries: seq<Entry>): Option<Entry> {
    if entries == [] then None
    else
      var n := |entries| - 1;
      var before := LastTombstone(entries[..n]);
      if !entries[n].id.kind.Tombstone? then before
      else if before.None? || entries[n].o.observedAt > before.value.o.observedAt then Some(entries[n])
      else before
  }

  lemma {:induction false} SightingsAreExtremes(entries: seq<Entry>)
    ensures Earliest(entries).Some? <==> entries != []
    ensures Latest(entries).Some? <==> entries != []
    ensures Earliest(entries).Some? ==> Earliest(entries).value in entries
                                        && forall e :: e in entries ==> !Sooner(e, Earliest(entries).value)
    ensures Latest(entries).Some? ==> Latest(entries).value in entries
                                      && forall e :: e in entries ==> !Sooner(Latest(entries).value, e)
  {
    if entries != [] {
      var n := |entries| - 1;
      SightingsAreExtremes(entries[..n]);
      assert forall e :: e in entries <==> e in entries[..n] || e == entries[n];
    }
  }

  lemma {:induction false} TombstoneIsLatest(entries: seq<Entry>)
    ensures LastTombstone(entries).Some? <==> exists e :: e in entries && e.id.kind.Tombstone?
    ensures LastTombstone(entries).Some? ==>
              var t := LastTombstone(entries).value;
              t in entries && t.id.kind.Tombstone?
              && forall e :: e in entries && e.id.kind.Tombstone? ==> e.o.observedAt <= t.o.observedAt
  {
    if entries != [] {
      var n := |entries| - 1;
      TombstoneIsLatest(entries[..n]);
      assert forall e :: e in entries <==> e in entries[..n] || e == entries[n];
    }
  }

  // ------------------------------------------------------------------ recomputation

  function EligibleOf(entries: seq<Entry>): (r: seq<Entry>)
    ensures forall e :: e in r <==> e in entries && e.o.eligible
  {
    if entries == [] then []
    else
      var n := |entries| - 1;
      EligibleOf(entries[..n]) + (if entries[n].o.eligible then [entries[n]] else [])
  }

  function ContentOf(entries: seq<Entry>): (r: seq<Entry>)
    ensures forall e :: e in r <==> e in entries && e.id.kind.Value?
  {
    if entries == [] then []
    else
      var n := |entries| - 1;
      ContentOf(entries[..n]) + (if entries[n].id.kind.Value? then [entries[n]] else [])
  }

  predicate AlwaysUsable(e: Entry) {
    true
  }

  predicate BodyUsable(e: Entry) {
    e.o.value.bodyPresent && e.o.value.body.Some?
  }

  /** A non-empty string, or nothing. */
  function AsString(value: Option<Text>): Option<Text> {
    if value == Some(EMPTY_TEXT) then None else value
  }

  /** The record whose plain fields are shown: the preferred one, or the deletion's own. */
  function ShownValue(eligible: seq<Entry>): Option<MessageRecord> {
    var all := SelectPreferred(ContentOf(eligible), EntryRank, AlwaysUsable);
    var deletion := LastTombstone(eligible);
    if all.Some? then Some(all.value.o.value)
    else if deletion.Some? then Some(deletion.value.o.value) else None
  }

  function BodyWinner(eligible: seq<Entry>): Option<Entry> {
    SelectPreferred(ContentOf(eligible), EntryRank, BodyUsable)
  }

  /** All that a recomputation takes from the eligible observations. */
  datatype Winners = Winners(
    value: Option<MessageRecord>, body: Option<Entry>, deletion: Option<Entry>,
    first: Option<Entry>, last: Option<Entry>, any: bool)

  function WinnersOf(eligible: seq<Entry>): Winners {
    Winners(ShownValue(eligible), BodyWinner(eligible), LastTombstone(eligible),
            Earliest(eligible), Latest(eligible), eligible != [])
  }

  /** The whole update of one message row; a field with no usable new value is kept. */
  function Update(row: MessageRow, w: Winners): MessageRow {
    var value, deletion := w.value, w.deletion;
    row.(
    sourceType := if value.Some? && value.value.sourceNamespace != EMPTY_TEXT then value.value.sourceNamespace else row.sourceType,
    sourceKey := if value.Some? && value.value.sourceValue != EMPTY_TEXT then value.value.sourceValue else row.sourceKey,
    messageType := if value.Some? && value.value.messageKind != EMPTY_TEXT then value.value.messageKind else row.messageType,
    body := if w.body.Some? then AsString(w.body.value.o.value.body)
            else if w.any then None
            else row.body,
    sentAt := if value.None? || value.value.timestamp.Blank? then row.sentAt
              else if value.value.timestamp.NoTime? then None
              else Some(value.value.timestamp.time),
    sourceDeleted := deletion.Some?,
    contentUnavailable := deletion.Some? && w.body.None?,
    deletedAt := if deletion.Some? then Some(deletion.value.o.observedAt) else None,
    deletionKey := if deletion.Some? then Some(deletion.value.id.obsKey) else None,
    deletionMetadata := if deletion.Some? && deletion.value.o.value.deletion.Some?
                        then Some(deletion.value.o.value.deletion.value.metadata) else None,
    firstSeenAt := if w.first.Some? then w.first.value.o.observedAt else row.firstSeenAt,
    lastSeenAt := if w.last.Some? then w.last.value.o.observedAt else row.lastSeenAt,
    metadata := Metadata(if value.Some? then value.value.fields else map[],
                         if w.first.Some? then Some(w.first.value.o.snapshot) else None,
                         if w.last.Some? then Some(w.last.value.o.snapshot) else None),
    materialized := w.any)
  }

  function Rematerialize(row: MessageRow, entries: seq<Entry>): MessageRow {
    Update(row, WinnersOf(EligibleOf(entries)))
  }

  /** Of two values: one with a body of its own before one without where that is asked for,
      a backup before a live one, then the later, then the one with the greater key. */
  predicate Leads(e: Entry, f: Entry, bodyAsked: bool) {
    var bodied, rival := e.o.value.bodyPresent && e.o.value.body != None, f.o.value.bodyPresent && f.o.value.body != None;
    && (bodyAsked && rival ==> bodied)
    && ((bodyAsked ==> bodied == rival) ==>
          && (e.o.live ==> f.o.live)
          && (e.o.live == f.o.live ==>
                f.o.observedAt < e.o.observedAt || (f.o.observedAt == e.o.observedAt && f.id.obsKey <= e.id.obsKey)))
  }

  /** A value among the eligible that leads them all. */
  predicate LeadsAll(e: Entry, eligible: seq<Entry>, bodyAsked: bool) {
    e in eligible && e.id.kind == Value && forall f :: f in eligible && f.id.kind == Value ==> Leads(e, f, bodyAsked)
  }

  predicate SeenBefore(e: Entry, f: Entry) {
    e.o.observedAt < f.o.observedAt || (e.o.observedAt == f.o.observedAt && e.id.obsKey <= f.id.obsKey)
  }

  /** The plain fields are those of the record, except where it has nothing to put there. */
  predicate ShowsRecord(m: MessageRow, row: MessageRow, v: MessageRecord) {
    && m.sourceType == (if v.sourceNamespace == EMPTY_TEXT then row.sourceType else v.sourceNamespace)
    && m.sourceKey == (if v.sourceValue == EMPTY_TEXT then row.sourceKey else v.sourceValue)
    && m.messageType == (if v.messageKind == EMPTY_TEXT then row.messageType else v.messageKind)
    && (v.timestamp == Blank ==> m.sentAt == row.sentAt)
    && (v.timestamp == NoTime ==> m.sentAt == None)
    && (v.timestamp.At? ==> m.sentAt == Some(v.timestamp.time))
    && m.metadata.fields == v.fields
  }

  predicate ShowsTombstone(m: MessageRow, e: Entry) {
    && m.deletedAt == Some(e.o.observedAt) && m.deletionKey == Some(e.id.obsKey)
    && m.deletionMetadata == (if e.o.value.deletion == None then None else Some(e.o.value.deletion.value.metadata))
  }

  predicate LatestTombstone(e: Entry, eligible: seq<Entry>) {
    e in eligible && e.id.kind == Tombstone
    && forall f :: f in eligible && f.id.kind == Tombstone ==> f.o.observedAt <= e.o.observedAt
  }

  ghost predicate TellsSightings(m: MessageRow, eligible: seq<Entry>) {
    && (exists e :: e in eligible && (forall f :: f in eligible ==> SeenBefore(e, f))
                    && m.firstSeenAt == e.o.observedAt && m.metadata.firstSeen == Some(e.o.snapshot))
    && (exists e :: e in eligible && (forall f :: f in eligible ==> SeenBefore(f, e))
                    && m.lastSeenAt == e.o.observedAt && m.metadata.lastSeen == Some(e.o.snapshot))
  }

  /** A deletion is shown with a latest tombstone; content is unavailable when there is besides
      no value at all. */
  ghost predicate TellsDeletion(m: MessageRow, eligible: seq<Entry>) {
    && (m.sourceDeleted <==> exists e :: e in eligible && e.id.kind == Tombstone)
    && (m.sourceDeleted ==> exists e :: LatestTombstone(e, eligible) && ShowsTombstone(m, e))
    && (!m.sourceDeleted ==> m.deletedAt == None && m.deletionKey == None && m.deletionMetadata == None)
    && (m.contentUnavailable <==> m.sourceDeleted && forall e :: e in eligible ==> e.id.kind != Value)
  }

  /** The body is that of a leading value with a body, and the plain fields are those of a leading
      value; where there is no value, there is no body, and the tombstone's record is shown. */
  ghost predicate TellsContent(m: MessageRow, row: MessageRow, eligible: seq<Entry>) {
    && ((exists e :: e in eligible && e.id.kind == Value) ==>
          && (exists e :: LeadsAll(e, eligible, true)
                          && m.body == (if e.o.value.body == Some(EMPTY_TEXT) then None else e.o.value.body))
          && (exists e :: LeadsAll(e, eligible, false) && ShowsRecord(m, row, e.o.value)))
    && ((forall e :: e in eligible ==> e.id.kind != Value) ==>
          m.body == None && exists e :: LatestTombstone(e, eligible) && ShowsTombstone(m, e) && ShowsRecord(m, row, e.o.value))
  }

  /** What a recomputed row says about its eligible observations, field by field, in terms of
      them and of what the row showed before. */
  ghost predicate Tells(m: MessageRow, row: MessageRow, eligible: seq<Entry>) {
    && m.source == row.source && m.conversation == row.conversation && m.replyTo == row.replyTo
    && (m.materialized <==> eligible != [])
    && TellsDeletion(m, eligible)
    && (eligible != [] ==> TellsSightings(m, eligible) && TellsContent(m, row, eligible))
    && (eligible == [] ==>
          && m.sourceType == row.sourceType && m.sourceKey == row.sourceKey && m.messageType == row.messageType
          && m.body == row.body && m.sentAt == row.sentAt && m.metadata == Metadata(map[], None, None)
          && m.firstSeenAt == row.firstSeenAt && m.lastSeenAt == row.lastSeenAt)
  }

  lemma SightingsWritten(row: MessageRow, w: Winners)
    requires w.first.Some? && w.last.Some?
    ensures var m := Update(row, w);
            && m.firstSeenAt == w.first.value.o.observedAt && m.metadata.firstSeen == Some(w.first.value.o.snapshot)
            && m.lastSeenAt == w.last.value.o.observedAt && m.metadata.lastSeen == Some(w.last.value.o.snapshot)
            && m.materialized == w.any
  {
  }

  lemma BestLeads(e: Entry, eligible: seq<Entry>)
    ensures Best(e, ContentOf(eligible), EntryRank, AlwaysUsable) <==> LeadsAll(e, eligible, false)
    ensures Best(e, ContentOf(eligible), EntryRank, BodyUsable) <==> LeadsAll(e, eligible, true)
  {
    forall f ensures !Replaces(f, e, EntryRank, AlwaysUsable) <==> Leads(e, f, false)
      ensures !Replaces(f, e, EntryRank, BodyUsable) <==> Leads(e, f, true)
    {
    }
  }

  lemma TellsWhenSeen(row: MessageRow, entries: seq<Entry>)
    requires EligibleOf(entries) != []
    ensures TellsSightings(Rematerialize(row, entries), EligibleOf(entries))
  {
    var eligible := EligibleOf(entries);
    SightingsAreExtremes(eligible);
    SightingsWritten(row, WinnersOf(eligible));
    forall f | f in eligible ensures SeenBefore(Earliest(eligible).value, f) && SeenBefore(f, Latest(eligible).value) {
    }
  }

  lemma TellsWhenDeleted(row: MessageRow, entries: seq<Entry>)
    ensures TellsDeletion(Rematerialize(row, entries), EligibleOf(entries))
  {
    var eligible := EligibleOf(entries);
    TombstoneIsLatest(eligible);
    if LastTombstone(eligible).Some? {
      assert LatestTombstone(LastTombstone(eligible).value, eligible);
      assert ShowsTombstone(Rematerialize(row, entries), LastTombstone(eligible).value);
    }
    if ContentOf(eligible) != [] {
      assert ContentOf(eligible)[0] in ContentOf(eligible);
    }
  }

  lemma TellsWithValue(row: MessageRow, entries: seq<Entry>)
    requires ContentOf(EligibleOf(entries)) != []
    ensures TellsContent(Rematerialize(row, entries), row, EligibleOf(entries))
  {
    var eligible := EligibleOf(entries);
    var content := ContentOf(eligible);
    SelectsFirstBest(content, EntryRank, AlwaysUsable);
    SelectsFirstBest(content, EntryRank, BodyUsable);
    var shown, bodied := SelectPreferred(content, EntryRank, AlwaysUsable).value, BodyWinner(eligible).value;
    BestLeads(shown, eligible);
    BestLeads(bodied, eligible);
    assert shown in content && bodied in content;
    assert ShowsRecord(Rematerialize(row, entries), row, shown.o.value);
  }

  lemma TellsWithoutValue(row: MessageRow, entries: seq<Entry>)
    requires EligibleOf(entries) != [] && ContentOf(EligibleOf(entries)) == []
    ensures TellsContent(Rematerialize(row, entries), row, EligibleOf(entries))
  {
    var eligible := EligibleOf(entries);
    TombstoneIsLatest(eligible);
    assert eligible[0] in eligible && eligible[0].id.kind != Value;
    var e := LastTombstone(eligible).value;
    assert LatestTombstone(e, eligible) && ShowsTombstone(Rematerialize(row, entries), e);
    assert ShowsRecord(Rematerialize(row, entries), row, e.o.value);
  }

  /** Every recomputation tells the truth about its eligible observations, in every field. */
  lemma RecomputationTells(row: MessageRow, entries: seq<Entry>)
    ensures Tells(Rematerialize(row, entries), row, EligibleOf(entries))
  {
    var eligible := EligibleOf(entries);
    TellsWhenDeleted(row, entries);
    if eligible != [] {
      TellsWhenSeen(row, entries);
      if ContentOf(eligible) != [] {
        TellsWithValue(row, entries);
      } else {
        TellsWithoutValue(row, entries);
      }
    } else {
      TombstoneIsLatest(eligible);
      SightingsAreExtremes(eligible);
    }
  }

  /** The same in every field that a recomputation may write. */
  predicate SameContent(a: MessageRow, b: MessageRow) {
    a.(source := b.source, conversation := b.conversation, replyTo := b.replyTo) == b
  }

  /** A value whose plain fields all replace what was there. */
  predicate WellFormedValue(v: MessageRecord) {
    v.sourceNamespace != EMPTY_TEXT && v.sourceValue != EMPTY_TEXT && v.messageKind != EMPTY_TEXT
    && !v.timestamp.Blank?
  }

  /** Distinct entries were sighted at distinct (time, key) places, and tombstones at
      distinct times. */
  predicate Unambiguous(eligible: seq<Entry>) {
    forall a, b :: a in eligible && b in eligible && a != b ==>
                     && (a.o.observedAt != b.o.observedAt || a.id.obsKey != b.id.obsKey)
                     && (a.id.kind.Tombstone? && b.id.kind.Tombstone? ==> a.o.observedAt != b.o.observedAt)
  }

  lemma SelectionIgnoresOrder<T(!new)>(s: seq<T>, t: seq<T>, rank: T -> Rank, usable: T -> bool)
    requires forall e :: e in s <==> e in t
    requires forall a, b :: a in s && b in s && a != b ==>
                              rank(a).observedAt != rank(b).observedAt || rank(a).key != rank(b).key
    ensures SelectPreferred(s, rank, usable) == SelectPreferred(t, rank, usable)
  {
    SameEmptiness(s, t);
    if s != [] {
      SelectsFirstBest(s, rank, usable);
      SelectsFirstBest(t, rank, usable);
      var x, y := SelectPreferred(s, rank, usable).value, SelectPreferred(t, rank, usable).value;
      assert !Replaces(x, y, rank, usable) && !Replaces(y, x, rank, usable);
    }
  }

  lemma SameEmptiness<T(!new)>(s: seq<T>, t: seq<T>)
    requires forall e :: e in s <==> e in t
    ensures s == [] <==> t == []
  {
    if s != [] {
      assert s[0] in t;
    }
    if t != [] {
      assert t[0] in s;
    }
  }

  lemma SightingsIgnoreOrder(s: seq<Entry>, t: seq<Entry>)
    requires forall e :: e in s <==> e in t
    requires Unambiguous(s)
    ensures Earliest(s) == Earliest(t) && Latest(s) == Latest(t) && LastTombstone(s) == LastTombstone(t)
  {
    SightingsAreExtremes(s);
    SightingsAreExtremes(t);
    TombstoneIsLatest(s);
    TombstoneIsLatest(t);
    SameEmptiness(s, t);
  }

  lemma WinnersIgnoreOrder(a: seq<Entry>, b: seq<Entry>)
    requires forall e :: e in a <==> e in b
    requires Unambiguous(a)
    ensures ShownValue(a) == ShownValue(b) && BodyWinner(a) == BodyWinner(b)
  {
    SightingsIgnoreOrder(a, b);
    SelectionIgnoresOrder(ContentOf(a), ContentOf(b), EntryRank, AlwaysUsable);
    SelectionIgnoresOrder(ContentOf(a), ContentOf(b), EntryRank, BodyUsable);
  }

  /** Every non-empty list has a record to show. */
  lemma SomethingIsShown(eligible: seq<Entry>)
    ensures ShownValue(eligible).Some? <==> eligible != []
  {
    TombstoneIsLatest(eligible);
    if eligible != [] {
      var e := eligible[0];
      if e.id.kind.Value? {
        assert e in ContentOf(eligible);
      }
    }
  }

  lemma Overwritten(r1: MessageRow, r2: MessageRow, entries: seq<Entry>)
    requires EligibleOf(entries) != [] && ShownValue(EligibleOf(entries)).Some? && WellFormedValue(ShownValue(EligibleOf(entries)).value)
    ensures SameContent(Rematerialize(r1, entries), Rematerialize(r2, entries))
  {
    SightingsAreExtremes(EligibleOf(entries));
  }

  /** Exactly when nothing of what the row showed before survives. */
  lemma HistoryIsOverwrittenExactly(entries: seq<Entry>)
    ensures (forall r1, r2 :: SameContent(Rematerialize(r1, entries), Rematerialize(r2, entries)))
            <==> (EligibleOf(entries) != [] && WellFormedValue(ShownValue(EligibleOf(entries)).value))
  {
    var eligible := EligibleOf(entries);
    SomethingIsShown(eligible);
    if eligible == [] || !WellFormedValue(ShownValue(eligible).value) {
      var meta := Metadata(map[], None, None);
      var r1 := MessageRow(None, Given(1), None, 1, 1, 1, None, meta, false, false, None, None, None, None, 0, 0, false);
      var r2 := MessageRow(None, Given(1), None, 2, 2, 2, None, meta, false, false, None, None, None, Some(1), 0, 0, false);
      OldTextSurvives(r1, r2, entries);
    } else {
      forall r1, r2 ensures SameContent(Rematerialize(r1, entries), Rematerialize(r2, entries)) {
        Overwritten(r1, r2, entries);
      }
    }
  }

  lemma OldTextSurvives(r1: MessageRow, r2: MessageRow, entries: seq<Entry>)
    requires r1.sourceType != r2.sourceType && r1.sourceKey != r2.sourceKey
    requires r1.messageType != r2.messageType && r1.sentAt != r2.sentAt
    requires ShownValue(EligibleOf(entries)).None? || !WellFormedValue(ShownValue(EligibleOf(entries)).value)
    ensures !SameContent(Rematerialize(r1, entries), Rematerialize(r2, entries))
  {
  }

  /** Observations that leave nothing of the row's past and nothing to the listing order. */
  predicate Determined(eligible: seq<Entry>) {
    eligible != [] && Unambiguous(eligible) && ShownValue(eligible).Some? && WellFormedValue(ShownValue(eligible).value)
  }

  lemma SameWinners(a: seq<Entry>, b: seq<Entry>)
    requires Unambiguous(a) && forall e :: e in a <==> e in b
    ensures WinnersOf(a) == WinnersOf(b)
  {
    SameEmptiness(a, b);
    SightingsIgnoreOrder(a, b);
    WinnersIgnoreOrder(a, b);
  }

  /** The row after a recomputation depends only on the set of eligible observations: not
      on what the row showed before, nor on the order in which they are listed. */
  lemma PathIndependent(r1: MessageRow, r2: MessageRow, a: seq<Entry>, b: seq<Entry>)
    requires Determined(a) && forall e :: e in a <==> e in b
    ensures SameContent(Update(r1, WinnersOf(a)), Update(r2, WinnersOf(b)))
  {
    SameWinners(a, b);
    SightingsAreExtremes(a);
  }

  lemma RecomputationsAgree(r1: MessageRow, r2: MessageRow, s: seq<Entry>, t: seq<Entry>)
    requires forall e :: e in EligibleOf(s) <==> e in EligibleOf(t)
    requires Determined(EligibleOf(s))
    ensures SameContent(Rematerialize(r1, s), Rematerialize(r2, t))
  {
    PathIndependent(r1, r2, EligibleOf(s), EligibleOf(t));
  }

  lemma DeletionFlags(row: MessageRow, entries: seq<Entry>)
    ensures var m, eligible := Rematerialize(row, entries), EligibleOf(entries);
            && m.sourceDeleted == LastTombstone(eligible).Some?
            && m.contentUnavailable == (m.sourceDeleted && BodyWinner(eligible).None?)
            && (BodyWinner(eligible).Some? ==> m.body == AsString(BodyWinner(eligible).value.o.value.body))
            && (BodyWinner(eligible).None? && m.sourceDeleted ==> m.body.None?)
  {
    TombstoneIsLatest(EligibleOf(entries));
  }

  predicate HasTombstone(entries: seq<Entry>) {
    exists e :: e in entries && e.id.kind.Tombstone?
  }

  /** After a recomputation, unavailable content means a deletion and no body. The converse
      holds exactly when a value with text of its own wins wherever a tombstone and a value
      are both eligible. */
  lemma UnavailableMeansDeletedAndEmpty(row: MessageRow, entries: seq<Entry>)
    ensures var m, eligible := Rematerialize(row, entries), EligibleOf(entries);
            && (m.contentUnavailable ==> m.sourceDeleted && m.body.None?)
            && ((m.contentUnavailable <==> m.sourceDeleted && m.body.None?)
                <==> (HasTombstone(eligible) && BodyWinner(eligible).Some?
                      ==> AsString(BodyWinner(eligible).value.o.value.body).Some?))
  {
    DeletionFlags(row, entries);
    TombstoneIsLatest(EligibleOf(entries));
  }

  /** It fails for a deletion and a value without text: the message is deleted and shows no
      body, yet counts as available. */
  lemma DeletedEmptyValueIsAvailable(row: MessageRow, tombstone: Entry, value: Entry)
    requires tombstone.o.eligible && tombstone.id.kind.Tombstone?
    requires value.o.eligible && value.id.kind.Value? && AsString(value.o.value.body).None?
    ensures var m := Rematerialize(row, [tombstone, value]); m.sourceDeleted && m.body.None? && !m.contentUnavailable
  {
    var entries := [tombstone, value];
    var eligible := EligibleOf(entries);
    assert tombstone in entries && value in entries;
    assert tombstone in eligible && value in ContentOf(eligible);
    DeletionFlags(row, entries);
    TombstoneIsLatest(eligible);
    assert BodyWinner(eligible).value in ContentOf(eligible);
  }
}
