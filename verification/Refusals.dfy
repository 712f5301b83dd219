/** Which imports the database refuses, as a condition on their records and on the table
    before them. */
module Refusals {
  import opened Basics
  import opened ArchiveRows
  import opened TextImport
  import opened ReplyResolution
  import opened RepeatedKeys
  import opened ReplyConstraint
  import opened CachedView

  // --------------------------------------------------- what the records determine

  function CandsIn(cut: Cut): seq<Candidate> {
    Candidates(cut.conversations, cut.batch)
  }

  /** What is taken and known before batch n. */
  function Named(rows: Rows, cuts: seq<Cut>, n: nat): Naming
    requires n <= |cuts|
  {
    if n == 0 then Naming(OccupiedBy(rows), map[])
    else BatchNaming(Named(rows, cuts, n - 1), cuts[n - 1].conversations, cuts[n - 1].batch)
  }

  /** The table before an import, the conversations of its sources after it, its batches, and
      what is taken and known before each of them and in the end. */
  datatype Trail = Trail(rows: Rows, filings: Filings, cuts: seq<Cut>, taken: seq<Occupied>, known: seq<Messages>) {

    predicate Valid() {
      && |taken| == |cuts| + 1 && |known| == |cuts| + 1
      && taken[0] == OccupiedBy(rows) && known[0] == map[]
      && forall n :: 0 <= n < |cuts| ==> StepsAt(n)
    }

    predicate StepsAt(n: nat)
      requires n < |cuts| && |taken| == |cuts| + 1 && |known| == |cuts| + 1
    {
      taken[n + 1] == OccupiedAfter(taken[n], CandsIn(cuts[n])) && known[n + 1] == SeenAfter(known[n], CandsIn(cuts[n]), KeysAt(n))
    }

    /** The row keys of batch n. */
    function KeysAt(n: nat): (keys: seq<MsgKey>)
      requires n < |cuts| && |taken| == |cuts| + 1
      ensures |keys| == |CandsIn(cuts[n])|
    {
      Keys(taken[n], CandsIn(cuts[n]))
    }
  }

  type Course = t: Trail | t.Valid() witness Trail(map[], map[], [], [map[]], [map[]])

  function Listed(rows: Rows, filings: Filings, cuts: seq<Cut>): Trail {
    Trail(rows, filings, cuts,
          seq(|cuts| + 1, n requires 0 <= n <= |cuts| => Named(rows, cuts, n).taken),
          seq(|cuts| + 1, n requires 0 <= n <= |cuts| => Named(rows, cuts, n).known))
  }

  lemma {:induction false} ListedSteps(rows: Rows, filings: Filings, cuts: seq<Cut>, t: Trail, n: nat)
    requires n < |cuts| && t.cuts == cuts && |t.taken| == |cuts| + 1 && |t.known| == |cuts| + 1
    requires Naming(t.taken[n], t.known[n]) == Named(rows, cuts, n)
    requires Naming(t.taken[n + 1], t.known[n + 1]) == Named(rows, cuts, n + 1)
    ensures t.StepsAt(n)
  {
  }

  lemma {:induction false} ListedAt(rows: Rows, filings: Filings, cuts: seq<Cut>, n: nat)
    requires n <= |cuts|
    ensures var t := Listed(rows, filings, cuts); Naming(t.taken[n], t.known[n]) == Named(rows, cuts, n)
  {
  }

  lemma {:induction false} ListedStepsAt(rows: Rows, filings: Filings, cuts: seq<Cut>, n: nat)
    requires n < |cuts|
    ensures Listed(rows, filings, cuts).StepsAt(n)
  {
    ListedAt(rows, filings, cuts, n);
    ListedAt(rows, filings, cuts, n + 1);
    ListedSteps(rows, filings, cuts, Listed(rows, filings, cuts), n);
  }

  lemma {:induction false} ListedIsValid(rows: Rows, filings: Filings, cuts: seq<Cut>)
    ensures Listed(rows, filings, cuts).Valid()
  {
    ListedAt(rows, filings, cuts, 0);
    forall n | 0 <= n < |cuts| ensures Listed(rows, filings, cuts).StepsAt(n) {
      ListedStepsAt(rows, filings, cuts, n);
    }
  }

  function CourseOf(rows: Rows, filings: Filings, cuts: seq<Cut>): Course {
    ListedIsValid(rows, filings, cuts);
    Listed(rows, filings, cuts)
  }

  /** The conversation of a row: a row that was there keeps its own. */
  function Stored(f: Course, id: MsgKey, source: SourceConv): ConvKey {
    if id in f.rows then f.rows[id].conversation else Filed(f.filings, source)
  }

  function PlaceOf(f: Course, seen: Seen): ConvKey {
    Stored(f, seen.id, seen.source)
  }

  // -------------------------------------------------------- replies that cross over

  /** The i-th record of a batch is inserted, or updates a row for an eligible import. */
  predicate WritesRow(taken: Occupied, ctx: Ctx, keys: seq<MsgKey>, i: nat)
    requires i < |keys|
  {
    ctx.eligible || (keys[i] !in taken && keys[i] !in keys[..i])
  }

  /** The row that it writes replies to a row of another conversation. */
  predicate WriteCrosses(f: Course, taken: Occupied, ctx: Ctx, cands: seq<Candidate>, keys: seq<MsgKey>, known: Messages, i: nat)
    requires |keys| == |cands| && i < |cands|
  {
    var reply := ReplyKey(cands[i].record);
    WritesRow(taken, ctx, keys, i) && reply.Some? && reply.value in known
    && Stored(f, keys[i], cands[i].source) != PlaceOf(f, known[reply.value])
  }

  predicate SomeWriteCrosses(f: Course, taken: Occupied, ctx: Ctx, cands: seq<Candidate>, keys: seq<MsgKey>, known: Messages)
    requires |keys| == |cands|
  {
    exists i :: 0 <= i < |cands| && WriteCrosses(f, taken, ctx, cands, keys, known, i)
  }

  predicate InsertCrosses(f: Course, ctx: Ctx, n: nat)
    requires n < |f.cuts|
  {
    SomeWriteCrosses(f, f.taken[n], ctx, CandsIn(f.cuts[n]), f.KeysAt(n), f.known[n + 1])
  }

  /** A record, under the id that one map gives it, replies to a message that another map
      knows in another conversation. */
  predicate Crosses(f: Course, own: Messages, known: Messages, r: MessageRecord) {
    var reply := ReplyKey(r);
    r.stableKey in own && reply.Some? && reply.value in known
    && PlaceOf(f, own[r.stableKey]) != PlaceOf(f, known[reply.value])
  }

  predicate SomeCrosses(f: Course, known: Messages, batch: seq<MessageRecord>) {
    exists r :: r in batch && Crosses(f, known, known, r)
  }

  predicate LinkCrosses(f: Course, n: nat)
    requires n < |f.cuts|
  {
    SomeCrosses(f, f.known[n + 1], f.cuts[n].batch)
  }

  predicate SomeLateCrosses(f: Course, own: Messages, before: Messages, known: Messages, batch: seq<MessageRecord>) {
    exists r :: r in batch && LateCrosses(f, own, before, known, r)
  }

  /** A reply to a message that was not known before. */
  predicate LateCrosses(f: Course, own: Messages, before: Messages, known: Messages, r: MessageRecord) {
    ReplyKey(r).Some? && ReplyKey(r).value !in before && Crosses(f, own, known, r)
  }

  /** A reply of batch a, which persisted something, has waited for a message of batch n. */
  predicate WakeCrossesFrom(f: Course, n: nat, a: nat)
    requires a < n < |f.cuts|
  {
    CandsIn(f.cuts[a]) != []
    && SomeLateCrosses(f, f.known[a + 1], f.known[n], f.known[n + 1], f.cuts[a].batch)
  }

  predicate WakeCrosses(f: Course, n: nat)
    requires n < |f.cuts|
  {
    exists a :: 0 <= a < n && WakeCrossesFrom(f, n, a)
  }

  /** Some reply that batch n writes crosses into another conversation. */
  predicate CrossesOver(f: Course, ctx: Ctx, n: nat)
    requires n < |f.cuts|
  {
    InsertCrosses(f, ctx, n) || LinkCrosses(f, n) || WakeCrosses(f, n)
  }

  /** The database refuses batch n. A batch that persists nothing is never refused. */
  predicate Refuses(f: Course, ctx: Ctx, n: nat)
    requires n < |f.cuts|
  {
    CandsIn(f.cuts[n]) != [] && ((ctx.eligible && Repeats(CandsIn(f.cuts[n]))) || CrossesOver(f, ctx, n))
  }

  // ------------------------------------------------------------- the table so far

  lemma {:induction false} OccupiedIsKeys(occupied: Occupied, cands: seq<Candidate>, key: MsgKey)
    ensures key in OccupiedAfter(occupied, cands) <==> key in occupied || key in Keys(occupied, cands)
  {
    if cands != [] {
      OccupiedIsKeys(occupied, cands[..|cands| - 1], key);
    }
  }

  /** A split key that was not there before belongs to the source that it names. */
  predicate SplitOwned(rows: Rows, occupied: Occupied, key: MsgKey) {
    key.Split? && key in occupied && key !in rows ==> occupied[key] == Some(key.source)
  }

  lemma {:induction false} SplitStaysOwned(rows: Rows, occupied: Occupied, cands: seq<Candidate>, key: MsgKey)
    requires SplitOwned(rows, occupied, key)
    ensures SplitOwned(rows, OccupiedAfter(occupied, cands), key)
  {
    if cands != [] {
      SplitStaysOwned(rows, occupied, cands[..|cands| - 1], key);
    }
  }

  lemma {:induction false} SplitsAreOwned(f: Course, n: nat, key: MsgKey)
    requires n <= |f.cuts|
    ensures SplitOwned(f.rows, f.taken[n], key)
  {
    if n > 0 {
      assert f.StepsAt(n - 1);
      SplitsAreOwned(f, n - 1, key);
      SplitStaysOwned(f.rows, f.taken[n - 1], CandsIn(f.cuts[n - 1]), key);
    }
  }

  /** A key that was not there before the import belongs to the source of each record it has. */
  lemma KeyIsOwned(f: Course, n: nat, i: nat)
    requires n < |f.cuts| && i < |CandsIn(f.cuts[n])|
    ensures var key, taken := f.KeysAt(n)[i], f.taken[n + 1];
            key in taken && (key !in f.rows ==> taken[key] == Some(CandsIn(f.cuts[n])[i].source))
  {
    assert f.StepsAt(n);
    var taken, cands := f.taken[n], CandsIn(f.cuts[n]);
    var key := Keys(taken, cands)[i];
    OccupiedIsKeys(taken, cands, key);
    KeyIsFinal(taken, cands, i);
    SplitsAreOwned(f, n + 1, key);
  }

  /** The rows before batch n: which there are, and in which conversation each is. */
  ghost predicate TableAt(f: Course, n: nat, rows: Rows)
    requires n <= |f.cuts|
  {
    && OccupiedBy(rows) == f.taken[n]
    && forall id :: id in rows ==> RowPlaced(f, rows, id)
  }

  predicate RowPlaced(f: Course, rows: Rows, id: MsgKey)
    requires id in rows
  {
    if id in f.rows then rows[id].conversation == f.rows[id].conversation
    else rows[id].source.Some? && rows[id].conversation == Filed(f.filings, rows[id].source.value)
  }

  predicate StoredAs(rows: Rows, id: MsgKey, place: ConvKey) {
    id in rows && rows[id].conversation == place
  }

  lemma OwnedIsStored(f: Course, rows: Rows, occupied: Occupied, key: MsgKey, source: SourceConv)
    requires OccupiedBy(rows) == occupied && forall id :: id in rows ==> RowPlaced(f, rows, id)
    requires key in occupied && (key !in f.rows ==> occupied[key] == Some(source))
    ensures StoredAs(rows, key, Stored(f, key, source))
  {
    assert key in OccupiedBy(rows) && OccupiedBy(rows)[key] == rows[key].source;
    assert RowPlaced(f, rows, key);
  }

  lemma {:induction false} TakenStays(f: Course, a: nat, n: nat, key: MsgKey)
    requires a <= n <= |f.cuts| && key in f.taken[a]
    ensures key in f.taken[n] && f.taken[n][key] == f.taken[a][key]
    decreases n
  {
    if a < n {
      assert f.StepsAt(n - 1);
      var cands := CandsIn(f.cuts[n - 1]);
      TakenStays(f, a, n - 1, key);
      assert cands[..0] == [];
      OccupancyGrows(f.taken[n - 1], cands, 0, key);
    }
  }

  lemma KeyIsStored(f: Course, a: nat, n: nat, rows: Rows, i: nat)
    requires a < n <= |f.cuts| && TableAt(f, n, rows) && i < |CandsIn(f.cuts[a])|
    ensures var key := f.KeysAt(a)[i]; StoredAs(rows, key, Stored(f, key, CandsIn(f.cuts[a])[i].source))
  {
    var key := f.KeysAt(a)[i];
    KeyIsOwned(f, a, i);
    TakenStays(f, a + 1, n, key);
    OwnedIsStored(f, rows, f.taken[n], key, CandsIn(f.cuts[a])[i].source);
  }

  lemma {:induction false} SeenIsOf(messages: Messages, cands: seq<Candidate>, keys: seq<MsgKey>, k: Text) returns (i: nat)
    requires |cands| == |keys| && k in SeenAfter(messages, cands, keys)
    ensures i <= |cands|
    ensures i == |cands| ==> k in messages && SeenAfter(messages, cands, keys)[k] == messages[k]
    ensures i < |cands| ==> cands[i].record.stableKey == k
                            && SeenAfter(messages, cands, keys)[k] == Seen(keys[i], cands[i].source, cands[i].record.conversationKey)
  {
    var n := |cands| - 1;
    if cands == [] {
      i := 0;
    } else if cands[n].record.stableKey == k {
      i := n;
    } else {
      i := SeenIsOf(messages, cands[..n], keys[..n], k);
      if i == n {
        i := n + 1;
      }
    }
  }

  /** Every id of a batch names a row in its place. */
  ghost predicate KeysStored(f: Course, rows: Rows, cands: seq<Candidate>, keys: seq<MsgKey>)
    requires |keys| == |cands|
  {
    forall i :: 0 <= i < |cands| ==> StoredAs(rows, keys[i], Stored(f, keys[i], cands[i].source))
  }

  /** Every known id names a row in its place. */
  ghost predicate KnownStored(f: Course, rows: Rows, known: Messages) {
    forall k :: k in known ==> StoredAs(rows, known[k].id, PlaceOf(f, known[k]))
  }

  /** One batch's ids, given that those known before name rows in their places. */
  lemma SeenAreStored(f: Course, rows: Rows, before: Messages, cands: seq<Candidate>, keys: seq<MsgKey>)
    requires |cands| == |keys| && KnownStored(f, rows, before) && KeysStored(f, rows, cands, keys)
    ensures KnownStored(f, rows, SeenAfter(before, cands, keys))
  {
    forall k | k in SeenAfter(before, cands, keys)
      ensures var seen := SeenAfter(before, cands, keys)[k]; StoredAs(rows, seen.id, PlaceOf(f, seen))
    {
      var i := SeenIsOf(before, cands, keys, k);
    }
  }

  lemma KeysAreStored(f: Course, a: nat, n: nat, rows: Rows)
    requires a < n <= |f.cuts| && TableAt(f, n, rows)
    ensures KeysStored(f, rows, CandsIn(f.cuts[a]), f.KeysAt(a))
  {
    forall i | 0 <= i < |CandsIn(f.cuts[a])|
      ensures StoredAs(rows, f.KeysAt(a)[i], Stored(f, f.KeysAt(a)[i], CandsIn(f.cuts[a])[i].source))
    {
      KeyIsStored(f, a, n, rows, i);
    }
  }

  /** What is known names a row in its place if every id so far does. */
  lemma {:induction false} KnownFollow(f: Course, n: nat, rows: Rows)
    requires n <= |f.cuts|
    requires forall a :: 0 <= a < n ==> KeysStored(f, rows, CandsIn(f.cuts[a]), f.KeysAt(a))
    ensures KnownStored(f, rows, f.known[n])
  {
    if n > 0 {
      assert f.StepsAt(n - 1);
      KnownFollow(f, n - 1, rows);
      SeenAreStored(f, rows, f.known[n - 1], CandsIn(f.cuts[n - 1]), f.KeysAt(n - 1));
    }
  }

  /** What is known names a row of the table, in its place, then and later. */
  lemma {:induction false} KnownAreStored(f: Course, a: nat, n: nat, rows: Rows)
    requires a <= n <= |f.cuts| && TableAt(f, n, rows)
    ensures KnownStored(f, rows, f.known[a])
  {
    forall i | 0 <= i < a ensures KeysStored(f, rows, CandsIn(f.cuts[i]), f.KeysAt(i)) {
      KeysAreStored(f, i, n, rows);
    }
    KnownFollow(f, a, rows);
  }

  // ------------------------------------------------------ the session so far

  /** A reply of batch a waits for `t`. */
  ghost predicate AwaitsFrom(f: Course, a: nat, t: Text, id: MsgKey)
    requires a < |f.cuts|
  {
    CandsIn(f.cuts[a]) != [] && exists r :: r in f.cuts[a].batch && Replies(f.known[a + 1], r, t, id)
  }

  predicate Replies(known: Messages, r: MessageRecord, t: Text, id: MsgKey) {
    ReplyKey(r) == Some(t) && r.stableKey in known && known[r.stableKey].id == id
  }

  ghost predicate Awaits(f: Course, n: nat, t: Text, id: MsgKey)
    requires n <= |f.cuts|
  {
    exists a :: 0 <= a < n && AwaitsFrom(f, a, t, id)
  }

  ghost predicate PendingAt(f: Course, n: nat, pending: Pending)
    requires n <= |f.cuts|
  {
    && (forall t :: t in f.known[n] ==> t !in pending)
    && (forall t, id :: t !in f.known[n] ==> (id in Waiting(pending, t) <==> Awaits(f, n, t, id)))
  }

  ghost predicate Tracks(f: Course, n: nat, s: Session)
    requires n <= |f.cuts|
  {
    && s.messages == f.known[n]
    && TableAt(f, n, s.rows)
    && PendingAt(f, n, s.pending)
    && Consistent(s)
  }

  /** The next batch, and sources that have found their conversations. */
  predicate NextIs(f: Course, n: nat, s: Session, batch: seq<MessageRecord>) {
    && n < |f.cuts| && f.cuts[n] == Cut(s.conversations, batch)
    && forall k :: k in s.conversations ==> Filed(s.filings, s.conversations[k]) == Filed(f.filings, s.conversations[k])
  }

  // --------------------------------------------------------------- the next batch

  /** The table between the upsert and the replies of batch n. */
  function RowsNext(f: Course, n: nat, s: Session, ctx: Ctx): Rows
    requires n < |f.cuts|
  {
    Upserted(s, ctx, CandsIn(f.cuts[n]), f.KeysAt(n))
  }

  lemma {:induction false} FirstRowSource(rows: Rows, ctx: Ctx, filings: Filings, cands: seq<Candidate>, keys: seq<MsgKey>,
                                          seen: Messages, i: nat)
    requires |cands| == |keys| && i < |cands| && keys[i] !in rows && keys[i] !in keys[..i]
    ensures var rows' := UpsertAll(rows, ctx, filings, cands, keys, seen);
            keys[i] in rows' && rows'[keys[i]].source == Some(cands[i].source)
    decreases |cands|
  {
    var n := |cands| - 1;
    if i < n {
      assert keys[..n][..i] == keys[..i];
      FirstRowSource(rows, ctx, filings, cands[..n], keys[..n], seen, i);
    } else {
      OldRowStays(rows, ctx, filings, cands[..n], keys[..n], seen, keys[n]);
    }
  }

  lemma UpsertPlaces(f: Course, s: Session, ctx: Ctx, cands: seq<Candidate>, keys: seq<MsgKey>, id: MsgKey)
    requires |cands| == |keys| && id in Upserted(s, ctx, cands, keys)
    requires forall k :: k in s.rows ==> RowPlaced(f, s.rows, k)
    requires forall k :: k in f.rows ==> k in s.rows
    requires forall c :: c in cands ==> Filed(s.filings, c.source) == Filed(f.filings, c.source)
    ensures RowPlaced(f, Upserted(s, ctx, cands, keys), id)
  {
    var messages := SeenAfter(s.messages, cands, keys);
    OldRowStays(s.rows, ctx, s.filings, cands, keys, messages, id);
    if id in s.rows {
      assert RowPlaced(f, s.rows, id);
      UpsertFrame(s.rows, ctx, s.filings, cands, keys, messages, id);
    } else {
      var i := FirstWriter(keys, id);
      FirstRowIsFiled(s.rows, ctx, s.filings, cands, keys, messages, i);
      FirstRowSource(s.rows, ctx, s.filings, cands, keys, messages, i);
      assert cands[i] in cands;
    }
  }

  lemma TakenAtFirst(f: Course, n: nat, rows: Rows, id: MsgKey)
    requires n <= |f.cuts| && TableAt(f, n, rows) && id in f.rows
    ensures id in rows
  {
    assert id in f.taken[0];
    TakenStays(f, 0, n, id);
    assert id in OccupiedBy(rows);
  }

  /** The upsert of the next batch extends the table. */
  lemma UpsertTracks(f: Course, n: nat, s: Session, ctx: Ctx, batch: seq<MessageRecord>)
    requires NextIs(f, n, s, batch) && TableAt(f, n, s.rows)
    ensures TableAt(f, n + 1, RowsNext(f, n, s, ctx))
  {
    assert f.StepsAt(n);
    var cands, keys := CandsIn(f.cuts[n]), f.KeysAt(n);
    UpsertOccupies(s.rows, ctx, s.filings, cands, SeenAfter(s.messages, cands, keys));
    forall id | id in f.rows ensures id in s.rows {
      TakenAtFirst(f, n, s.rows, id);
    }
    forall id | id in RowsNext(f, n, s, ctx) ensures RowPlaced(f, RowsNext(f, n, s, ctx), id) {
      UpsertPlaces(f, s, ctx, cands, keys, id);
    }
  }

  /** Places decide whether a reply may be written. */
  lemma PlacesDecide(rows: Rows, id: MsgKey, place: ConvKey, target: MsgKey, other: ConvKey)
    requires StoredAs(rows, id, place) && StoredAs(rows, target, other)
    ensures SameConversation(rows, id, target) <==> place == other
  {
  }

  predicate AllWritesFit(s: Session, ctx: Ctx, cands: seq<Candidate>, keys: seq<MsgKey>)
    requires |cands| == |keys|
  {
    forall i :: 0 <= i < |cands| ==> WriteFits(s, ctx, cands, keys, i)
  }

  predicate AllLinksFit(rows: Rows, known: Messages, batch: seq<MessageRecord>) {
    forall r :: r in batch ==> LinkFits(rows, known, r)
  }

  predicate AllWakesFit(rows: Rows, pending: Pending, known: Messages, batch: seq<MessageRecord>) {
    forall r :: r in batch ==> WakeFits(rows, pending, known, r)
  }

  lemma BatchFitsByPart(s: Session, ctx: Ctx, batch: seq<MessageRecord>, cands: seq<Candidate>, keys: seq<MsgKey>)
    requires |cands| == |keys|
    ensures var rows, known := Upserted(s, ctx, cands, keys), SeenAfter(s.messages, cands, keys);
            BatchFits(s, ctx, batch, cands, keys)
            <==> AllWritesFit(s, ctx, cands, keys) && AllLinksFit(rows, known, batch) && AllWakesFit(rows, s.pending, known, batch)
  {
  }

  lemma WriteAlike(f: Course, s: Session, ctx: Ctx, cands: seq<Candidate>, keys: seq<MsgKey>, known: Messages, i: nat)
    requires |cands| == |keys| && i < |cands| && known == SeenAfter(s.messages, cands, keys)
    requires KeysStored(f, Upserted(s, ctx, cands, keys), cands, keys) && KnownStored(f, Upserted(s, ctx, cands, keys), known)
    ensures WriteFits(s, ctx, cands, keys, i) <==> !WriteCrosses(f, OccupiedBy(s.rows), ctx, cands, keys, known, i)
  {
    var reply := ReplyKey(cands[i].record);
    assert keys[i] in s.rows <==> keys[i] in OccupiedBy(s.rows);
    if reply.Some? && reply.value in known {
      PlacesDecide(Upserted(s, ctx, cands, keys), keys[i], Stored(f, keys[i], cands[i].source),
                   known[reply.value].id, PlaceOf(f, known[reply.value]));
    }
  }

  lemma InsertsCross(f: Course, s: Session, ctx: Ctx, cands: seq<Candidate>, keys: seq<MsgKey>, known: Messages)
    requires |cands| == |keys| && known == SeenAfter(s.messages, cands, keys)
    requires KeysStored(f, Upserted(s, ctx, cands, keys), cands, keys) && KnownStored(f, Upserted(s, ctx, cands, keys), known)
    ensures AllWritesFit(s, ctx, cands, keys) <==> !SomeWriteCrosses(f, OccupiedBy(s.rows), ctx, cands, keys, known)
  {
    forall i | 0 <= i < |cands|
      ensures WriteFits(s, ctx, cands, keys, i) <==> !WriteCrosses(f, OccupiedBy(s.rows), ctx, cands, keys, known, i)
    {
      WriteAlike(f, s, ctx, cands, keys, known, i);
    }
  }

  /** A reply and its target, each known under some map. */
  lemma CrossesExactly(f: Course, rows: Rows, own: Messages, known: Messages, r: MessageRecord)
    requires KnownStored(f, rows, own) && KnownStored(f, rows, known)
    requires r.stableKey in own && ReplyKey(r).Some? && ReplyKey(r).value in known
    ensures SameConversation(rows, own[r.stableKey].id, known[ReplyKey(r).value].id) <==> !Crosses(f, own, known, r)
  {
    PlacesDecide(rows, own[r.stableKey].id, PlaceOf(f, own[r.stableKey]),
                 known[ReplyKey(r).value].id, PlaceOf(f, known[ReplyKey(r).value]));
  }

  lemma LinkAlike(f: Course, rows: Rows, known: Messages, r: MessageRecord)
    requires KnownStored(f, rows, known)
    ensures LinkFits(rows, known, r) <==> !Crosses(f, known, known, r)
  {
    if Links(r, known) {
      CrossesExactly(f, rows, known, known, r);
    }
  }

  lemma LinksCross(f: Course, rows: Rows, known: Messages, batch: seq<MessageRecord>)
    requires KnownStored(f, rows, known)
    ensures AllLinksFit(rows, known, batch) <==> !SomeCrosses(f, known, batch)
  {
    forall r | r in batch ensures LinkFits(rows, known, r) <==> !Crosses(f, known, known, r) {
      LinkAlike(f, rows, known, r);
    }
  }

  lemma WhoAwaits(f: Course, n: nat, t: Text, id: MsgKey) returns (a: nat, q: MessageRecord)
    requires n <= |f.cuts| && Awaits(f, n, t, id)
    ensures a < n && CandsIn(f.cuts[a]) != [] && q in f.cuts[a].batch && Replies(f.known[a + 1], q, t, id)
  {
    a :| 0 <= a < n && AwaitsFrom(f, a, t, id);
    q :| q in f.cuts[a].batch && Replies(f.known[a + 1], q, t, id);
  }

  /** A waiting reply that may not be pointed at its target crosses over. */
  lemma BadWakeIsLate(f: Course, rows: Rows, own: Messages, before: Messages, known: Messages, q: MessageRecord, t: Text, id: MsgKey)
    requires KnownStored(f, rows, own) && KnownStored(f, rows, known)
    requires Replies(own, q, t, id) && t in known && t !in before
    ensures !SameConversation(rows, id, known[t].id) <==> LateCrosses(f, own, before, known, q)
  {
    CrossesExactly(f, rows, own, known, q);
  }

  /** Who waits for a target that is not known yet. */
  lemma {:induction false} WaitedFor(f: Course, n: nat, pending: Pending, t: Text, id: MsgKey) returns (a: nat, q: MessageRecord)
    requires n <= |f.cuts| && PendingAt(f, n, pending) && t in pending && id in pending[t]
    ensures a < n && CandsIn(f.cuts[a]) != [] && q in f.cuts[a].batch && Replies(f.known[a + 1], q, t, id)
    ensures t !in f.known[n]
  {
    assert id in Waiting(pending, t);
    a, q := WhoAwaits(f, n, t, id);
  }

  lemma {:induction false} LateFrom(f: Course, n: nat, a: nat, q: MessageRecord)
    requires a < n < |f.cuts| && CandsIn(f.cuts[a]) != [] && q in f.cuts[a].batch
    requires LateCrosses(f, f.known[a + 1], f.known[n], f.known[n + 1], q)
    ensures WakeCrosses(f, n)
  {
    assert WakeCrossesFrom(f, n, a);
  }

  /** Every id that is known by then or was known earlier names a row in its place. */
  ghost predicate KnownsStored(f: Course, n: nat, rows: Rows)
    requires n <= |f.cuts|
  {
    forall a :: 0 <= a <= n ==> KnownStored(f, rows, f.known[a])
  }

  /** A record of the batch that wakes a reply badly shows that one crosses over. */
  lemma {:induction false} BadWakeCrosses(f: Course, n: nat, rows: Rows, pending: Pending, t: Text, id: MsgKey)
    requires n < |f.cuts| && KnownsStored(f, n + 1, rows) && PendingAt(f, n, pending)
    requires t in f.known[n + 1] && t in pending && id in pending[t]
    requires !SameConversation(rows, id, f.known[n + 1][t].id)
    ensures WakeCrosses(f, n)
  {
    var a, q := WaitedFor(f, n, pending, t, id);
    BadWakeIsLate(f, rows, f.known[a + 1], f.known[n], f.known[n + 1], q, t, id);
    LateFrom(f, n, a, q);
  }

  lemma LateIsBadWake(f: Course, rows: Rows, own: Messages, before: Messages, known: Messages, batch: seq<MessageRecord>)
    returns (q: MessageRecord, t: Text, id: MsgKey)
    requires KnownStored(f, rows, own) && KnownStored(f, rows, known) && SomeLateCrosses(f, own, before, known, batch)
    ensures q in batch && Replies(own, q, t, id) && t in known && t !in before && !SameConversation(rows, id, known[t].id)
  {
    q :| q in batch && LateCrosses(f, own, before, known, q);
    t, id := ReplyKey(q).value, own[q.stableKey].id;
    BadWakeIsLate(f, rows, own, before, known, q, t, id);
  }

  lemma ReplyAwaits(f: Course, n: nat, pending: Pending, a: nat, q: MessageRecord, t: Text, id: MsgKey)
    requires a < n <= |f.cuts| && PendingAt(f, n, pending) && t !in f.known[n]
    requires CandsIn(f.cuts[a]) != [] && q in f.cuts[a].batch && Replies(f.known[a + 1], q, t, id)
    ensures id in Waiting(pending, t)
  {
    assert AwaitsFrom(f, a, t, id);
  }

  lemma CrossingIsLate(f: Course, n: nat, rows: Rows, a: nat) returns (q: MessageRecord, t: Text, id: MsgKey)
    requires a < n < |f.cuts| && WakeCrossesFrom(f, n, a)
    requires KnownStored(f, rows, f.known[a + 1]) && KnownStored(f, rows, f.known[n + 1])
    ensures CandsIn(f.cuts[a]) != [] && q in f.cuts[a].batch && Replies(f.known[a + 1], q, t, id)
    ensures t in f.known[n + 1] && t !in f.known[n]
    ensures !SameConversation(rows, id, f.known[n + 1][t].id)
  {
    q, t, id := LateIsBadWake(f, rows, f.known[a + 1], f.known[n], f.known[n + 1], f.cuts[a].batch);
  }

  lemma NewlyKnown(f: Course, n: nat, t: Text) returns (c: Candidate)
    requires n < |f.cuts| && t in f.known[n + 1] && t !in f.known[n]
    ensures c in CandsIn(f.cuts[n]) && c.record in f.cuts[n].batch && c.record.stableKey == t
  {
    assert f.StepsAt(n);
    var i := SeenIsOf(f.known[n], CandsIn(f.cuts[n]), f.KeysAt(n), t);
    c := CandsIn(f.cuts[n])[i];
  }

  lemma BadlyWoken(rows: Rows, pending: Pending, known: Messages, batch: seq<MessageRecord>, c: Candidate, id: MsgKey)
    requires c.record in batch && c.record.stableKey in known
    requires id in Waiting(pending, c.record.stableKey) && !SameConversation(rows, id, known[c.record.stableKey].id)
    ensures !AllWakesFit(rows, pending, known, batch)
  {
    assert !WakeFits(rows, pending, known, c.record);
  }

  lemma {:induction false} CrossingIsBadWake(f: Course, n: nat, rows: Rows, pending: Pending, a: nat)
    requires a < n < |f.cuts| && PendingAt(f, n, pending) && WakeCrossesFrom(f, n, a)
    requires KnownStored(f, rows, f.known[a + 1]) && KnownStored(f, rows, f.known[n + 1])
    ensures !AllWakesFit(rows, pending, f.known[n + 1], f.cuts[n].batch)
  {
    var q, t, id := CrossingIsLate(f, n, rows, a);
    ReplyAwaits(f, n, pending, a, q, t, id);
    var c := NewlyKnown(f, n, t);
    BadlyWoken(rows, pending, f.known[n + 1], f.cuts[n].batch, c, id);
  }

  lemma {:induction false} SomeWakesBadly(rows: Rows, pending: Pending, known: Messages, batch: seq<MessageRecord>) returns (t: Text, id: MsgKey)
    requires !AllWakesFit(rows, pending, known, batch)
    ensures t in known && t in pending && id in pending[t] && !SameConversation(rows, id, known[t].id)
  {
    var r :| r in batch && !WakeFits(rows, pending, known, r);
    t := r.stableKey;
    id :| id in pending[t] && !SameConversation(rows, id, known[t].id);
  }

  lemma {:induction false} WakesCross(f: Course, n: nat, rows: Rows, pending: Pending, known: Messages)
    requires n < |f.cuts| && KnownsStored(f, n + 1, rows) && PendingAt(f, n, pending) && known == f.known[n + 1]
    ensures AllWakesFit(rows, pending, known, f.cuts[n].batch) <==> !WakeCrosses(f, n)
  {
    if !AllWakesFit(rows, pending, known, f.cuts[n].batch) {
      var t, id := SomeWakesBadly(rows, pending, known, f.cuts[n].batch);
      BadWakeCrosses(f, n, rows, pending, t, id);
    } else if WakeCrosses(f, n) {
      var a :| 0 <= a < n && WakeCrossesFrom(f, n, a);
      WakesCrossFrom(f, n, rows, pending, a);
    }
  }

  lemma {:induction false} WakesCrossFrom(f: Course, n: nat, rows: Rows, pending: Pending, a: nat)
    requires a < n < |f.cuts| && KnownsStored(f, n + 1, rows) && PendingAt(f, n, pending) && WakeCrossesFrom(f, n, a)
    ensures !AllWakesFit(rows, pending, f.known[n + 1], f.cuts[n].batch)
  {
    CrossingIsBadWake(f, n, rows, pending, a);
  }

  lemma KnownsAreStored(f: Course, n: nat, rows: Rows)
    requires n <= |f.cuts| && TableAt(f, n, rows)
    ensures KnownsStored(f, n, rows)
  {
    forall a | 0 <= a <= n ensures KnownStored(f, rows, f.known[a]) {
      KnownAreStored(f, a, n, rows);
    }
  }

  /** The replies of a batch whose ids all name rows in their places. */
  lemma {:induction false} StoredBatchFits(f: Course, n: nat, s: Session, ctx: Ctx, rows: Rows, known: Messages)
    requires n < |f.cuts| && OccupiedBy(s.rows) == f.taken[n] && PendingAt(f, n, s.pending)
    requires rows == RowsNext(f, n, s, ctx) && known == SeenAfter(s.messages, CandsIn(f.cuts[n]), f.KeysAt(n))
    requires known == f.known[n + 1]
    requires KeysStored(f, rows, CandsIn(f.cuts[n]), f.KeysAt(n)) && KnownStored(f, rows, known) && KnownsStored(f, n + 1, rows)
    ensures AllWritesFit(s, ctx, CandsIn(f.cuts[n]), f.KeysAt(n)) && AllLinksFit(rows, known, f.cuts[n].batch)
            && AllWakesFit(rows, s.pending, known, f.cuts[n].batch)
            <==> !CrossesOver(f, ctx, n)
  {
    InsertsCross(f, s, ctx, CandsIn(f.cuts[n]), f.KeysAt(n), known);
    LinksCross(f, rows, known, f.cuts[n].batch);
    WakesCross(f, n, rows, s.pending, known);
  }

  lemma {:induction false} NextIsStored(f: Course, n: nat, s: Session, ctx: Ctx, batch: seq<MessageRecord>, rows: Rows)
    requires NextIs(f, n, s, batch) && TableAt(f, n, s.rows) && rows == RowsNext(f, n, s, ctx)
    ensures KeysStored(f, rows, CandsIn(f.cuts[n]), f.KeysAt(n)) && KnownStored(f, rows, f.known[n + 1])
    ensures KnownsStored(f, n + 1, rows)
  {
    UpsertTracks(f, n, s, ctx, batch);
    KeysAreStored(f, n, n + 1, rows);
    KnownAreStored(f, n + 1, n + 1, rows);
    KnownsAreStored(f, n + 1, rows);
  }

  lemma {:induction false} BatchFitsExactly(f: Course, n: nat, s: Session, ctx: Ctx, batch: seq<MessageRecord>)
    requires n < |f.cuts| && Tracks(f, n, s) && NextIs(f, n, s, batch)
    ensures BatchFits(s, ctx, batch, CandsIn(f.cuts[n]), f.KeysAt(n)) <==> !CrossesOver(f, ctx, n)
  {
    assert f.StepsAt(n);
    var rows := RowsNext(f, n, s, ctx);
    NextIsStored(f, n, s, ctx, batch, rows);
    StoredBatchFits(f, n, s, ctx, rows, f.known[n + 1]);
    BatchFitsByPart(s, ctx, batch, CandsIn(f.cuts[n]), f.KeysAt(n));
  }

  /** A batch is refused exactly when an eligible import meets a message twice within it, or one
      of the replies that it writes crosses into another conversation. */
  lemma NextIsRefusedExactly(f: Course, n: nat, s: Session, ctx: Ctx, batch: seq<MessageRecord>)
    requires n < |f.cuts| && Tracks(f, n, s) && NextIs(f, n, s, batch)
    ensures PersistBatch(s, ctx, batch).None? <==> Refuses(f, ctx, n)
  {
    var cands, keys := CandsIn(f.cuts[n]), f.KeysAt(n);
    if cands != [] {
      AcceptsExactly(s, ctx, batch, cands, keys);
      KeysAreDistinctExactly(OccupiedBy(s.rows), cands);
      BatchFitsExactly(f, n, s, ctx, batch);
    }
  }

  // ------------------------------------------------------- the session stays tracked

  lemma AwaitsMore(f: Course, n: nat, t: Text, id: MsgKey)
    requires n < |f.cuts|
    ensures Awaits(f, n + 1, t, id) <==> Awaits(f, n, t, id) || AwaitsFrom(f, n, t, id)
  {
  }

  lemma KnownStays(f: Course, n: nat, t: Text)
    requires n < |f.cuts| && t in f.known[n]
    ensures t in f.known[n + 1]
  {
    assert f.StepsAt(n);
    SeenElsewhere(f.known[n], CandsIn(f.cuts[n]), f.KeysAt(n), t);
  }

  /** What the two passes over a batch leave waiting for one target. */
  lemma WaitingNext(rows: Rows, pending: Pending, known: Messages, batch: seq<MessageRecord>, t: Text, id: MsgKey)
    ensures var after := LinkAll(WakeAll((rows, pending), known, batch), known, batch).1;
            && (t in known ==> (t in after <==> t in pending && !Woken(t, pending, known, batch)))
            && (t !in known ==>
                  (id in Waiting(after, t) <==> id in Waiting(pending, t) || exists r :: r in batch && Replies(known, r, t, id)))
  {
    var (woken, left) := WakeAll((rows, pending), known, batch);
    WaitingShrinks(rows, pending, known, batch, t);
    LinkWaits(woken, left, known, batch, t);
    RepliesToMembers(batch, known, t, id);
    if r :| r in batch && ReplyKey(r) == Some(t) && r.stableKey in known && known[r.stableKey].id == id {
      assert Replies(known, r, t, id);
    }
  }

  lemma KnownIsNotPending(f: Course, n: nat, rows: Rows, pending: Pending, t: Text)
    requires n < |f.cuts| && PendingAt(f, n, pending) && t in f.known[n + 1]
    ensures var known, batch := f.known[n + 1], f.cuts[n].batch;
            t !in LinkAll(WakeAll((rows, pending), known, batch), known, batch).1
  {
    var known, batch := f.known[n + 1], f.cuts[n].batch;
    WaitingNext(rows, pending, known, batch, t, Base(t));
    if t !in f.known[n] {
      var c := NewlyKnown(f, n, t);
      assert t in pending ==> Woken(t, pending, known, batch);
    }
  }

  lemma UnknownAwaits(f: Course, n: nat, rows: Rows, pending: Pending, t: Text, id: MsgKey)
    requires n < |f.cuts| && PendingAt(f, n, pending) && CandsIn(f.cuts[n]) != [] && t !in f.known[n + 1]
    ensures var known, batch := f.known[n + 1], f.cuts[n].batch;
            id in Waiting(LinkAll(WakeAll((rows, pending), known, batch), known, batch).1, t)
            <==> Awaits(f, n + 1, t, id)
  {
    WaitingNext(rows, pending, f.known[n + 1], f.cuts[n].batch, t, id);
    AwaitsMore(f, n, t, id);
    if t in f.known[n] {
      KnownStays(f, n, t);
    }
  }

  lemma PendingNext(f: Course, n: nat, rows: Rows, pending: Pending, known: Messages, after: Pending)
    requires n < |f.cuts| && PendingAt(f, n, pending) && CandsIn(f.cuts[n]) != []
    requires known == f.known[n + 1]
    requires after == LinkAll(WakeAll((rows, pending), known, f.cuts[n].batch), known, f.cuts[n].batch).1
    ensures PendingAt(f, n + 1, after)
  {
    forall t | t in known ensures t !in after {
      KnownIsNotPending(f, n, rows, pending, t);
    }
    forall t, id | t !in known ensures id in Waiting(after, t) <==> Awaits(f, n + 1, t, id) {
      UnknownAwaits(f, n, rows, pending, t, id);
    }
  }

  lemma QuietTracks(f: Course, n: nat, rows: Rows, rows': Rows)
    requires n <= |f.cuts| && TableAt(f, n, rows) && SameButReplies(rows, rows')
    ensures TableAt(f, n, rows')
  {
    forall id | id in rows
      ensures rows'[id].source == rows[id].source && rows'[id].conversation == rows[id].conversation
    {
      assert rows'[id].(replyTo := None).source == rows[id].(replyTo := None).source;
      assert rows'[id].(replyTo := None).conversation == rows[id].(replyTo := None).conversation;
    }
    assert OccupiedBy(rows') == OccupiedBy(rows);
    forall id | id in rows' ensures RowPlaced(f, rows', id) {
      assert RowPlaced(f, rows, id);
    }
  }

  lemma TableNext(f: Course, n: nat, rows: Rows, pending: Pending, known: Messages, batch: seq<MessageRecord>)
    requires n <= |f.cuts| && TableAt(f, n, rows)
    ensures TableAt(f, n, LinkAll(WakeAll((rows, pending), known, batch), known, batch).0)
  {
    var (woken, left) := WakeAll((rows, pending), known, batch);
    WakeIsQuiet(rows, pending, known, batch);
    LinkIsQuiet(woken, left, known, batch);
    QuietTracks(f, n, rows, woken);
    QuietTracks(f, n, woken, LinkAll((woken, left), known, batch).0);
  }

  lemma IdleTracks(f: Course, n: nat, s: Session)
    requires n < |f.cuts| && Tracks(f, n, s) && CandsIn(f.cuts[n]) == []
    ensures Tracks(f, n + 1, s)
  {
    assert f.StepsAt(n);
    assert f.known[n + 1] == f.known[n];
    assert f.taken[n + 1] == f.taken[n];
    forall t, id | t !in f.known[n + 1] ensures id in Waiting(s.pending, t) <==> Awaits(f, n + 1, t, id) {
      AwaitsMore(f, n, t, id);
    }
  }

  lemma NextTracks(f: Course, n: nat, s: Session, ctx: Ctx, batch: seq<MessageRecord>)
    requires n < |f.cuts| && Tracks(f, n, s) && NextIs(f, n, s, batch) && PersistBatch(s, ctx, batch).Some?
    ensures Tracks(f, n + 1, PersistBatch(s, ctx, batch).value)
  {
    if CandsIn(f.cuts[n]) == [] {
      IdleTracks(f, n, s);
    } else {
      assert f.StepsAt(n);
      UpsertTracks(f, n, s, ctx, batch);
      TableNext(f, n + 1, RowsNext(f, n, s, ctx), s.pending, f.known[n + 1], batch);
      PendingNext(f, n, RowsNext(f, n, s, ctx), s.pending, f.known[n + 1],
                  PersistBatch(s, ctx, batch).value.pending);
      BatchStaysConsistent(s, ctx, batch);
    }
  }
}
