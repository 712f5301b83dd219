/** The two message normalizers: one that holds every row in memory and rewrites its result
    in place, and one that streams a spool and yields batches. */
module WhatsAppMessages {
  import opened Basics
  import opened MessageIdentity
  import opened RecordSpool
  import LineFraming

  /** What a record copies from its row without looking at any other row. */
  type Content = Text

  datatype Row = Row(
    id: Option<int>,
    remote: Option<Text>,
    chatRow: Option<int>,
    sender: Option<Text>,
    senderRow: Option<int>,
    timestamp: Option<Text>,
    direction: Direction,
    nativeCode: Option<int>,
    sourceId: Option<NativeId>,
    quoted: Option<int>,
    reactionTarget: Option<int>,
    content: Content)

  datatype Edit = Edit(message: Option<int>, version: Option<int>, content: Content)

  datatype JidRow = JidRow(id: Option<int>, raw: Option<Text>)
  datatype ChatRow = ChatRow(id: Option<int>, jidRow: Option<int>)

  datatype Extraction = Extraction(
    adapter: Text, account: Text, snapshot: Text, jids: seq<JidRow>, chats: seq<ChatRow>,
    messages: seq<Row>, edits: seq<Edit>)

  /** A reply key that has not been resolved is the literal "pending". */
  datatype Reply = NoReply | Pending | To(key: StableKey)

  datatype Message = Message(
    stableKey: StableKey, conversation: Conversation, sender: Option<Text>, kind: Kind,
    unsupportedCode: Option<int>, content: Content, reply: Reply, reactsTo: Option<StableKey>)

  datatype Record =
    | AMessage(record: Message)
    | Revision(message: StableKey, ordinal: int, revised: Content, firstSeen: Text)

  /** `number(value) ?? -1` */
  function OrMinusOne(id: Option<int>): int {
    if id.Some? then id.value else -1
  }

  // --------------------------------------------------------- reading one row alone

  type Jids = map<int, Text>

  function JidTable(jids: seq<JidRow>): Jids {
    if jids == [] then map[]
    else
      var before, last := JidTable(jids[..|jids| - 1]), jids[|jids| - 1];
      if last.id.Some? && last.raw.Some? then before[last.id.value := last.raw.value] else before
  }

  function ChatTable(chats: seq<ChatRow>, jids: Jids): Jids {
    if chats == [] then map[]
    else
      var before, last := ChatTable(chats[..|chats| - 1], jids), chats[|chats| - 1];
      if last.id.Some? && OrMinusOne(last.jidRow) in jids
      then before[last.id.value := jids[OrMinusOne(last.jidRow)]] else before
  }

  function KindFor(code: Option<int>): Kind {
    if code == Some(0) || code == Some(1) then TextKind
    else if code == Some(2) then Image
    else if code == Some(3) then Audio
    else if code == Some(4) then Video
    else if code == Some(5) then Contact
    else if code == Some(6) then Location
    else if code == Some(7) then Document
    else if code == Some(8) then Sticker
    else if code == Some(9) then Reaction
    else if code == Some(10) then System
    else Unsupported
  }

  function ChatFor(row: Row, chats: Jids): ChatRef {
    if row.remote.Some? then Jid(row.remote.value)
    else if OrMinusOne(row.chatRow) in chats then Jid(chats[OrMinusOne(row.chatRow)])
    else DamagedChat(row.chatRow)
  }

  function SenderFor(row: Row, jids: Jids): Option<Text> {
    if row.sender.Some? then row.sender
    else if OrMinusOne(row.senderRow) in jids then Some(jids[OrMinusOne(row.senderRow)])
    else None
  }

  function IdentityOf(x: Extraction, row: Row): IdentityInput {
    IdentityFrom(x, row, JidTable(x.jids), ChatTable(x.chats, JidTable(x.jids)))
  }

  function IdentityFrom(x: Extraction, row: Row, jids: Jids, chats: Jids): IdentityInput {
    var chat := ChatFor(row, chats);
    IdentityInput(x.adapter, Some(x.account), Conversation(x.account, chat), Some(chat), SenderFor(row, jids),
                  row.timestamp, row.direction, KindFor(row.nativeCode), row.sourceId, None)
  }

  /** What the streaming normalizer keeps of a row until the whole table has been read. */
  datatype Prepared = Prepared(stableKey: StableKey, kind: Kind, collision: bool)

  function Prepare(x: Extraction, row: Row, records: Records): Prepared {
    var input := IdentityOf(x, row);
    PreparedAs(x, row, input, if Accepts(records, input) then Some(DeriveMessageIdentity(input)) else None)
  }

  function PreparedAs(x: Extraction, row: Row, input: IdentityInput, accepted: Option<StableKey>): Prepared {
    Prepared(if accepted.Some? then accepted.value else CollisionKey(x.account, input.conversation, row.timestamp),
             KindFor(row.nativeCode), accepted.None?)
  }

  function RegistryAfter(x: Extraction, rows: seq<Row>): Records {
    if rows == [] then map[]
    else Registered(RegistryAfter(x, rows[..|rows| - 1]), IdentityOf(x, rows[|rows| - 1]))
  }

  function PreparedAt(x: Extraction, i: nat): Prepared
    requires i < |x.messages|
  {
    Prepare(x, x.messages[i], RegistryAfter(x, x.messages[..i]))
  }

  /** The record of a row before any reference is followed. */
  function Unresolved(x: Extraction, row: Row, p: Prepared, reply: Reply): Message {
    UnresolvedFrom(x, row, p, reply, JidTable(x.jids), ChatTable(x.chats, JidTable(x.jids)))
  }

  function UnresolvedFrom(x: Extraction, row: Row, p: Prepared, reply: Reply, jids: Jids, chats: Jids): Message {
    Message(p.stableKey, Conversation(x.account, ChatFor(row, chats)), SenderFor(row, jids),
            if p.collision then Unsupported else p.kind,
            if p.kind == Unsupported then row.nativeCode else None, row.content, reply, None)
  }

  function RevisionOf(x: Extraction, edit: Edit, message: StableKey): Record
    requires edit.version.Some?
  {
    Revision(message, edit.version.value, edit.content, x.snapshot)
  }

  predicate Revises(edit: Edit, byRow: set<int>) {
    OrMinusOne(edit.message) in byRow && edit.version.Some? && edit.version.value >= 1
  }

  // ------------------------------------------------------- the in-memory normalizer

  /** An element of the result: an object made for row `made`, or a copy that nothing else
      refers to. */
  datatype Slot = Slot(made: Option<nat>, record: Message)

  datatype Table = Table(byRow: Originals, result: seq<Slot>)

  function Original(x: Extraction, i: nat): Slot
    requires i < |x.messages|
  {
    var row := x.messages[i];
    Slot(Some(i), Unresolved(x, row, PreparedAt(x, i), if row.quoted.Some? then Pending else NoReply))
  }

  function Normalized(x: Extraction, n: nat): Table
    requires n <= |x.messages|
  {
    if n == 0 then Table(map[], [])
    else
      var before, slot := Normalized(x, n - 1), Original(x, n - 1);
      Table(before.byRow[OrMinusOne(x.messages[n - 1].id) := slot], before.result + [slot])
  }

  /** `result.indexOf(record)`, by object identity. */
  function IndexOf(result: seq<Slot>, slot: Slot): (i: nat)
    ensures i <= |result|
    ensures i < |result| ==> slot.made.Some? && result[i].made == slot.made
    ensures forall j :: 0 <= j < i ==> slot.made.None? || result[j].made != slot.made
  {
    if result == [] || (slot.made.Some? && result[0].made == slot.made) then 0 else 1 + IndexOf(result[1..], slot)
  }

  /** An index of -1 assigns no element. */
  function Replace(result: seq<Slot>, slot: Slot, record: Message): seq<Slot> {
    var i := IndexOf(result, slot);
    if i < |result| then result[i := Slot(None, record)] else result
  }

  type Originals = map<int, Slot>

  function ReactOne(byRow: Originals, result: seq<Slot>, row: Row): seq<Slot> {
    var id, target := OrMinusOne(row.id), OrMinusOne(row.reactionTarget);
    if id !in byRow || byRow[id].record.kind != Reaction || target !in byRow then result
    else Replace(result, byRow[id], byRow[id].record.(reactsTo := Some(byRow[target].record.stableKey)))
  }

  function ReplyOne(byRow: Originals, result: seq<Slot>, row: Row): seq<Slot> {
    var id := OrMinusOne(row.id);
    if id !in byRow || row.quoted.None? then result
    else
      var target := row.quoted.value;
      Replace(result, byRow[id],
              byRow[id].record.(reply := if target in byRow then To(byRow[target].record.stableKey) else NoReply))
  }

  type Visit = (seq<Slot>, Row) -> seq<Slot>

  /** One visit of every row, in order. */
  function Pass(visit: Visit, result: seq<Slot>, rows: seq<Row>): seq<Slot> {
    if rows == [] then result else visit(Pass(visit, result, rows[..|rows| - 1]), rows[|rows| - 1])
  }

  function ReactAll(byRow: Originals, result: seq<Slot>, rows: seq<Row>): seq<Slot> {
    Pass((r, row) => ReactOne(byRow, r, row), result, rows)
  }

  function ReplyAll(byRow: Originals, result: seq<Slot>, rows: seq<Row>): seq<Slot> {
    Pass((r, row) => ReplyOne(byRow, r, row), result, rows)
  }

  function RecordsOf(slots: seq<Slot>): (r: seq<Record>)
    ensures |r| == |slots| && forall i :: 0 <= i < |slots| ==> r[i] == AMessage(slots[i].record)
  {
    if slots == [] then [] else RecordsOf(slots[..|slots| - 1]) + [AMessage(slots[|slots| - 1].record)]
  }

  /** Revisions name the key that their message got, whichever normalizer looks it up. */
  function RevisionsOf(x: Extraction, edits: seq<Edit>, keys: map<int, StableKey>): seq<Record> {
    if edits == [] then []
    else
      var last := edits[|edits| - 1];
      RevisionsOf(x, edits[..|edits| - 1], keys)
      + (if Revises(last, keys.Keys) then [RevisionOf(x, last, keys[OrMinusOne(last.message)])] else [])
  }

  function SlotKeys(byRow: Originals): map<int, StableKey> {
    map k | k in byRow :: byRow[k].record.stableKey
  }

  function MemoryMessages(x: Extraction): seq<Record> {
    var t := Normalized(x, |x.messages|);
    RecordsOf(ReplyAll(t.byRow, ReactAll(t.byRow, t.result, x.messages), x.messages))
  }

  /** The in-memory result before it is sorted by key. */
  function MemoryRecords(x: Extraction): seq<Record> {
    MemoryMessages(x) + RevisionsOf(x, x.edits, SlotKeys(Normalized(x, |x.messages|).byRow))
  }

  // ------------------------------------------------------- the streaming normalizer

  type Prepareds = map<int, Prepared>

  function PrepareAll(x: Extraction, n: nat): Prepareds
    requires n <= |x.messages|
  {
    if n == 0 then map[] else PrepareAll(x, n - 1)[OrMinusOne(x.messages[n - 1].id) := PreparedAt(x, n - 1)]
  }

  function StreamedRecord(x: Extraction, row: Row, p: Prepared, byRow: Prepareds): Message {
    Referring(Unresolved(x, row, p, NoReply), row, byRow)
  }

  function Referring(m: Message, row: Row, byRow: Prepareds): Message {
    m.(reply := if row.quoted.Some? && row.quoted.value in byRow then To(byRow[row.quoted.value].stableKey) else NoReply,
    reactsTo := if row.reactionTarget.Some? && row.reactionTarget.value in byRow
                then Some(byRow[row.reactionTarget.value].stableKey) else None)
  }

  function StreamedMessages(x: Extraction, rows: seq<Row>, byRow: Prepareds): seq<Record> {
    if rows == [] then []
    else
      var last := rows[|rows| - 1];
      StreamedMessages(x, rows[..|rows| - 1], byRow)
      + (if OrMinusOne(last.id) in byRow then [AMessage(StreamedRecord(x, last, byRow[OrMinusOne(last.id)], byRow))] else [])
  }

  function PreparedKeys(byRow: Prepareds): map<int, StableKey> {
    map k | k in byRow :: byRow[k].stableKey
  }

  function StreamedRecords(x: Extraction): seq<Record> {
    var byRow := PrepareAll(x, |x.messages|);
    StreamedMessages(x, x.messages, byRow) + RevisionsOf(x, x.edits, PreparedKeys(byRow))
  }

  /** The rows as the second pass reads them back from the spool; none when the spool outgrows
      its limit, or is corrupt. */
  function SpooledRows(codec: Codec<Row>, rows: seq<Row>, maxSpoolBytes: nat): Option<seq<Row>> {
    if LineFraming.ByteLength(Encoded(codec, rows)) > maxSpoolBytes then None else ReadBack(codec, Encoded(codec, rows))
  }

  /** All records that the streaming normalizer yields, if it comes to its end. */
  function Streamed(codec: Codec<Row>, x: Extraction, maxSpoolBytes: nat): Option<seq<Record>> {
    var byRow, rows := PrepareAll(x, |x.messages|), SpooledRows(codec, x.messages, maxSpoolBytes);
    if rows.None? then None else Some(StreamedMessages(x, rows.value, byRow) + RevisionsOf(x, x.edits, PreparedKeys(byRow)))
  }

  // ------------------------------------------------ what each leaves of one row

  predicate DistinctRows(x: Extraction) {
    forall i, j :: 0 <= i < j < |x.messages| ==> OrMinusOne(x.messages[i].id) != OrMinusOne(x.messages[j].id)
  }

  lemma {:induction false} RowIsFound(x: Extraction, n: nat, i: nat)
    requires i < n <= |x.messages| && DistinctRows(x)
    ensures var id := OrMinusOne(x.messages[i].id);
            && id in PrepareAll(x, n) && PrepareAll(x, n)[id] == PreparedAt(x, i)
            && id in Normalized(x, n).byRow && Normalized(x, n).byRow[id] == Original(x, i)
  {
    if i < n - 1 {
      RowIsFound(x, n - 1, i);
      assert OrMinusOne(x.messages[i].id) != OrMinusOne(x.messages[n - 1].id);
    }
  }

  lemma {:induction false} OnlyRowsAreFound(x: Extraction, n: nat, id: int)
    requires n <= |x.messages|
    ensures id in PrepareAll(x, n) <==> exists i :: 0 <= i < n && OrMinusOne(x.messages[i].id) == id
    ensures id in PrepareAll(x, n) <==> id in Normalized(x, n).byRow
  {
    if n > 0 {
      OnlyRowsAreFound(x, n - 1, id);
    }
  }

  lemma ByRowIsTheRow(x: Extraction, n: nat, id: int)
    requires n <= |x.messages| && DistinctRows(x)
    ensures id in PrepareAll(x, n) <==> exists i :: 0 <= i < n && OrMinusOne(x.messages[i].id) == id
    ensures id in PrepareAll(x, n) <==> id in Normalized(x, n).byRow
    ensures forall i :: 0 <= i < n && OrMinusOne(x.messages[i].id) == id ==>
                          PrepareAll(x, n)[id] == PreparedAt(x, i) && Normalized(x, n).byRow[id] == Original(x, i)
  {
    OnlyRowsAreFound(x, n, id);
    forall i | 0 <= i < n && OrMinusOne(x.messages[i].id) == id
      ensures PrepareAll(x, n)[id] == PreparedAt(x, i) && Normalized(x, n).byRow[id] == Original(x, i)
    {
      RowIsFound(x, n, i);
    }
  }

  predicate Names(x: Extraction, id: Option<int>) {
    id.Some? && id.value in PrepareAll(x, |x.messages|)
  }

  predicate IsReaction(x: Extraction, i: nat)
    requires i < |x.messages|
  {
    KindFor(x.messages[i].nativeCode) == Reaction && !PreparedAt(x, i).collision
  }

  /** The in-memory pass applies a reaction, to row -1 when no target is given. */
  predicate Reacts(x: Extraction, i: nat)
    requires i < |x.messages|
  {
    IsReaction(x, i) && OrMinusOne(x.messages[i].reactionTarget) in PrepareAll(x, |x.messages|)
  }

  /** The target of a reference, as both maps see it. */
  function KeyOfRow(x: Extraction, id: int): StableKey
    requires id in PrepareAll(x, |x.messages|)
  {
    PrepareAll(x, |x.messages|)[id].stableKey
  }

  function AfterReactions(x: Extraction, i: nat): Slot
    requires i < |x.messages|
  {
    if Reacts(x, i)
    then
      var record := Original(x, i).record;
      Slot(None, record.(reactsTo := Some(KeyOfRow(x, OrMinusOne(x.messages[i].reactionTarget)))))
    else Original(x, i)
  }

  function ReplyOf(x: Extraction, i: nat): Reply
    requires i < |x.messages|
  {
    if Names(x, x.messages[i].quoted) then To(KeyOfRow(x, x.messages[i].quoted.value)) else NoReply
  }

  /** A record that the reaction pass replaced is not found again by the reply pass. */
  function AfterReplies(x: Extraction, i: nat): Slot
    requires i < |x.messages|
  {
    if x.messages[i].quoted.Some? && !Reacts(x, i)
    then
      var record := Original(x, i).record;
      Slot(None, record.(reply := ReplyOf(x, i)))
    else AfterReactions(x, i)
  }

  /** Every object is still where it was made, or has been replaced by a copy. */
  predicate Homed(result: seq<Slot>) {
    forall j :: 0 <= j < |result| ==> result[j].made == Some(j) || result[j].made == None
  }

  lemma ReplaceAt(result: seq<Slot>, slot: Slot, record: Message, k: nat)
    requires Homed(result) && slot.made == Some(k) && k < |result|
    ensures Replace(result, slot, record) == if result[k].made == Some(k) then result[k := Slot(None, record)] else result
  {
    var i := IndexOf(result, slot);
  }

  lemma SameKeys(x: Extraction, id: int)
    requires DistinctRows(x) && id in Normalized(x, |x.messages|).byRow
    ensures id in PrepareAll(x, |x.messages|)
    ensures Normalized(x, |x.messages|).byRow[id].record.stableKey == KeyOfRow(x, id)
  {
    ByRowIsTheRow(x, |x.messages|, id);
  }

  lemma {:induction false} NormalizedLength(x: Extraction, n: nat)
    requires n <= |x.messages|
    ensures |Normalized(x, n).result| == n
  {
    if n > 0 {
      NormalizedLength(x, n - 1);
    }
  }

  lemma {:induction false} NormalizedRow(x: Extraction, n: nat, i: nat)
    requires i < n <= |x.messages|
    ensures |Normalized(x, n).result| == n && Normalized(x, n).result[i] == Original(x, i)
  {
    NormalizedLength(x, n);
    NormalizedLength(x, n - 1);
    if i < n - 1 {
      NormalizedRow(x, n - 1, i);
    }
  }

  /** Visiting row i turns element i from `from[i]` into `to[i]` and touches nothing else. */
  ghost predicate Pointwise(visit: Visit, rows: seq<Row>, from: seq<Slot>, to: seq<Slot>) {
    && |from| == |to| == |rows| && Homed(from) && Homed(to)
    && forall i, r :: 0 <= i < |rows| == |r| && Homed(r) && r[i] == from[i] ==> visit(r, rows[i]) == r[i := to[i]]
  }

  lemma {:induction false} PassIsPointwise(visit: Visit, rows: seq<Row>, from: seq<Slot>, to: seq<Slot>, n: nat)
    requires Pointwise(visit, rows, from, to) && n <= |rows|
    ensures Pass(visit, from, rows[..n]) == to[..n] + from[n..]
  {
    if n > 0 {
      assert rows[..n][..n - 1] == rows[..n - 1];
      PassIsPointwise(visit, rows, from, to, n - 1);
      var r := to[..n - 1] + from[n - 1..];
      assert Homed(r) && r[n - 1] == from[n - 1];
      assert r[n - 1 := to[n - 1]] == to[..n] + from[n..];
    }
  }

  lemma ReactAt(x: Extraction, result: seq<Slot>, i: nat)
    requires i < |x.messages| == |result| && DistinctRows(x) && Homed(result) && result[i] == Original(x, i)
    ensures ReactOne(Normalized(x, |x.messages|).byRow, result, x.messages[i]) == result[i := AfterReactions(x, i)]
  {
    var byRow, row := Normalized(x, |x.messages|).byRow, x.messages[i];
    ByRowIsTheRow(x, |x.messages|, OrMinusOne(row.id));
    ByRowIsTheRow(x, |x.messages|, OrMinusOne(row.reactionTarget));
    assert byRow[OrMinusOne(row.id)] == Original(x, i);
    if Reacts(x, i) {
      SameKeys(x, OrMinusOne(row.reactionTarget));
      ReplaceAt(result, Original(x, i), AfterReactions(x, i).record, i);
    }
  }

  lemma ReplyAt(x: Extraction, result: seq<Slot>, i: nat)
    requires i < |x.messages| == |result| && DistinctRows(x) && Homed(result) && result[i] == AfterReactions(x, i)
    ensures ReplyOne(Normalized(x, |x.messages|).byRow, result, x.messages[i]) == result[i := AfterReplies(x, i)]
  {
    var byRow, row := Normalized(x, |x.messages|).byRow, x.messages[i];
    ByRowIsTheRow(x, |x.messages|, OrMinusOne(row.id));
    assert byRow[OrMinusOne(row.id)] == Original(x, i);
    if row.quoted.Some? {
      ByRowIsTheRow(x, |x.messages|, row.quoted.value);
      if row.quoted.value in byRow {
        SameKeys(x, row.quoted.value);
      }
      ReplaceAt(result, Original(x, i), Original(x, i).record.(reply := ReplyOf(x, i)), i);
    }
  }

  /** What the in-memory normalizer leaves of every row. */
  lemma MemoryRows(x: Extraction)
    requires DistinctRows(x)
    ensures var t := Normalized(x, |x.messages|);
            var r := ReplyAll(t.byRow, ReactAll(t.byRow, t.result, x.messages), x.messages);
            |r| == |x.messages| && forall i :: 0 <= i < |r| ==> r[i] == AfterReplies(x, i)
  {
    var n, t := |x.messages|, Normalized(x, |x.messages|);
    NormalizedLength(x, n);
    forall i | 0 <= i < n ensures t.result[i] == Original(x, i) {
      NormalizedRow(x, n, i);
    }
    var reacted := seq(n, i requires 0 <= i < n => AfterReactions(x, i));
    var replied := seq(n, i requires 0 <= i < n => AfterReplies(x, i));
    assert x.messages[..n] == x.messages;
    ReactionsPass(x, t.result, reacted);
    RepliesPass(x, reacted, replied);
  }

  lemma ReactionsPass(x: Extraction, from: seq<Slot>, to: seq<Slot>)
    requires DistinctRows(x) && |from| == |to| == |x.messages|
    requires forall i :: 0 <= i < |from| ==> from[i] == Original(x, i) && to[i] == AfterReactions(x, i)
    ensures ReactAll(Normalized(x, |x.messages|).byRow, from, x.messages) == to
  {
    var byRow := Normalized(x, |x.messages|).byRow;
    var visit: Visit := (r, row) => ReactOne(byRow, r, row);
    forall i, r | 0 <= i < |x.messages| == |r| && Homed(r) && r[i] == from[i]
      ensures visit(r, x.messages[i]) == r[i := to[i]]
    {
      ReactAt(x, r, i);
    }
    PassIsPointwise(visit, x.messages, from, to, |x.messages|);
    assert x.messages[..|x.messages|] == x.messages;
    assert to[..|x.messages|] + from[|x.messages|..] == to;
  }

  lemma RepliesPass(x: Extraction, from: seq<Slot>, to: seq<Slot>)
    requires DistinctRows(x) && |from| == |to| == |x.messages|
    requires forall i :: 0 <= i < |from| ==> from[i] == AfterReactions(x, i) && to[i] == AfterReplies(x, i)
    ensures ReplyAll(Normalized(x, |x.messages|).byRow, from, x.messages) == to
  {
    var byRow := Normalized(x, |x.messages|).byRow;
    var visit: Visit := (r, row) => ReplyOne(byRow, r, row);
    forall i, r | 0 <= i < |x.messages| == |r| && Homed(r) && r[i] == from[i]
      ensures visit(r, x.messages[i]) == r[i := to[i]]
    {
      ReplyAt(x, r, i);
    }
    PassIsPointwise(visit, x.messages, from, to, |x.messages|);
    assert x.messages[..|x.messages|] == x.messages;
    assert to[..|x.messages|] + from[|x.messages|..] == to;
  }

  function StreamedAt(x: Extraction, i: nat): Message
    requires i < |x.messages|
  {
    StreamedRecord(x, x.messages[i], PreparedAt(x, i), PrepareAll(x, |x.messages|))
  }

  lemma {:induction false} StreamedLength(x: Extraction, n: nat)
    requires n <= |x.messages| && DistinctRows(x)
    ensures |StreamedMessages(x, x.messages[..n], PrepareAll(x, |x.messages|))| == n
  {
    if n > 0 {
      assert x.messages[..n][..n - 1] == x.messages[..n - 1];
      StreamedLength(x, n - 1);
      RowIsFound(x, |x.messages|, n - 1);
    }
  }

  lemma {:induction false} StreamedRow(x: Extraction, n: nat, i: nat)
    requires i < n <= |x.messages| && DistinctRows(x)
    ensures var r := StreamedMessages(x, x.messages[..n], PrepareAll(x, |x.messages|));
            |r| == n && r[i] == AMessage(StreamedAt(x, i))
  {
    assert x.messages[..n][..n - 1] == x.messages[..n - 1];
    StreamedLength(x, n);
    StreamedLength(x, n - 1);
    RowIsFound(x, |x.messages|, n - 1);
    if i < n - 1 {
      StreamedRow(x, n - 1, i);
    }
  }

  // ------------------------------------------------------- when the two agree

  /** A target is named only by a reaction that quotes nothing; and no reaction without a
      target can be taken for a reaction to a row that has no id of its own. */
  predicate Agreeable(x: Extraction, i: nat)
    requires i < |x.messages|
  {
    var row := x.messages[i];
    && (Names(x, row.reactionTarget) ==> IsReaction(x, i) && row.quoted.None?)
    && (IsReaction(x, i) && row.reactionTarget.None? ==> -1 !in PrepareAll(x, |x.messages|))
  }

  lemma RowsAgreeExactly(x: Extraction, i: nat)
    requires i < |x.messages|
    ensures AfterReplies(x, i).record == StreamedAt(x, i)
            <==> Agreeable(x, i)
  {
  }

  function CountIf(s: seq<Record>, p: Record -> bool): nat {
    if s == [] then 0 else CountIf(s[..|s| - 1], p) + (if p(s[|s| - 1]) then 1 else 0)
  }

  lemma {:induction false} CountConcat(s: seq<Record>, t: seq<Record>, p: Record -> bool)
    ensures CountIf(s + t, p) == CountIf(s, p) + CountIf(t, p)
  {
    if t == [] {
      assert s + t == s;
    } else {
      assert (s + t)[..|s + t| - 1] == s + t[..|t| - 1];
      CountConcat(s, t[..|t| - 1], p);
    }
  }

  lemma {:induction false} CountAround(a: seq<Record>, r: Record, b: seq<Record>, p: Record -> bool)
    ensures CountIf(a + [r] + b, p) == CountIf(a + b, p) + (if p(r) then 1 else 0)
  {
    assert (a + [r])[..|a|] == a;
    CountConcat(a + [r], b, p);
    CountConcat(a, b, p);
  }

  lemma {:induction false} CountWithout(s: seq<Record>, p: Record -> bool, i: nat)
    requires i < |s|
    ensures CountIf(s, p) == CountIf(s[..i] + s[i + 1..], p) + (if p(s[i]) then 1 else 0)
  {
    assert s == s[..i] + [s[i]] + s[i + 1..];
    CountAround(s[..i], s[i], s[i + 1..], p);
  }

  lemma MultisetWithout<T>(s: seq<T>, i: nat)
    requires i < |s|
    ensures multiset(s[..i] + s[i + 1..]) == multiset(s) - multiset{s[i]}
  {
    assert s == s[..i] + [s[i]] + s[i + 1..];
  }

  lemma FindLast<T>(s: seq<T>, t: seq<T>) returns (i: nat)
    requires s != [] && multiset(s) == multiset(t)
    ensures i < |t| && t[i] == s[|s| - 1] && multiset(s[..|s| - 1]) == multiset(t[..i] + t[i + 1..])
  {
    var n := |s| - 1;
    assert s[n] in multiset(t);
    i :| 0 <= i < |t| && t[i] == s[n];
    MultisetWithout(s, n);
    assert s[..n] + s[n + 1..] == s[..n];
    MultisetWithout(t, i);
  }

  lemma {:induction false} CountIsOfTheMultiset(s: seq<Record>, t: seq<Record>, p: Record -> bool)
    requires multiset(s) == multiset(t)
    ensures CountIf(s, p) == CountIf(t, p)
    decreases |s|
  {
    if s == [] {
      assert t == [] by {
        assert |multiset(t)| == |t|;
      }
    } else {
      var i := FindLast(s, t);
      CountIsOfTheMultiset(s[..|s| - 1], t[..i] + t[i + 1..], p);
      CountWithout(t, p, i);
    }
  }

  lemma {:induction false} CountsOfImplied(s: seq<Record>, t: seq<Record>, p: Record -> bool)
    requires |s| == |t| && forall i :: 0 <= i < |s| ==> (p(s[i]) ==> p(t[i]))
    ensures CountIf(s, p) <= CountIf(t, p)
    ensures CountIf(s, p) == CountIf(t, p) ==> forall i :: 0 <= i < |s| ==> p(s[i]) == p(t[i])
  {
    if s != [] {
      var n := |s| - 1;
      CountsOfImplied(s[..n], t[..n], p);
    }
  }

  lemma Cancel(a: seq<Record>, b: seq<Record>, c: seq<Record>)
    ensures multiset(a + c) == multiset(b + c) <==> multiset(a) == multiset(b)
  {
    assert multiset(a + c) == multiset(a) + multiset(c) && multiset(b + c) == multiset(b) + multiset(c);
    if multiset(a + c) == multiset(b + c) {
      assert multiset(a) == multiset(a + c) - multiset(c) && multiset(b) == multiset(b + c) - multiset(c);
    }
  }

  /** Both normalizers make the same revisions. */
  lemma SameRevisions(x: Extraction)
    requires DistinctRows(x)
    ensures SlotKeys(Normalized(x, |x.messages|).byRow) == PreparedKeys(PrepareAll(x, |x.messages|))
  {
    var slots, prepared := Normalized(x, |x.messages|).byRow, PrepareAll(x, |x.messages|);
    forall k ensures k in slots <==> k in prepared
      ensures k in slots ==> slots[k].record.stableKey == prepared[k].stableKey
    {
      ByRowIsTheRow(x, |x.messages|, k);
    }
  }

  predicate IsPending(r: Record) {
    r.AMessage? && r.record.reply == Pending
  }

  predicate IsReactionTo(r: Record) {
    r.AMessage? && r.record.reactsTo.Some?
  }

  predicate IsStrayReaction(r: Record) {
    r.AMessage? && r.record.reactsTo.Some? && r.record.kind != Reaction
  }

  /** What one row contributes to the three counts that tell the normalizers apart. */
  lemma RowFlags(x: Extraction, i: nat)
    requires i < |x.messages|
    ensures var m, s := AMessage(AfterReplies(x, i).record), AMessage(StreamedAt(x, i));
            && !IsPending(s) && (IsPending(m) <==> Reacts(x, i) && x.messages[i].quoted.Some?)
            && !IsStrayReaction(m) && (IsStrayReaction(s) <==> Names(x, x.messages[i].reactionTarget) && !IsReaction(x, i))
            && (IsReactionTo(m) <==> Reacts(x, i)) && (IsReactionTo(s) <==> Names(x, x.messages[i].reactionTarget))
  {
  }

  lemma NothingStrays(x: Extraction, m: seq<Record>, s: seq<Record>, i: nat)
    requires |m| == |s| == |x.messages| && multiset(m) == multiset(s) && i < |m|
    requires forall i :: 0 <= i < |m| ==> m[i] == AMessage(AfterReplies(x, i).record) && s[i] == AMessage(StreamedAt(x, i))
    ensures !IsPending(m[i]) && !IsStrayReaction(s[i])
  {
    assert m[i] in multiset(m) && s[i] in multiset(s);
    var j :| 0 <= j < |s| && s[j] == m[i];
    var k :| 0 <= k < |m| && m[k] == s[i];
    RowFlags(x, j);
    RowFlags(x, k);
  }

  lemma MultisetsTellRowsApart(x: Extraction, m: seq<Record>, s: seq<Record>)
    requires |m| == |s| == |x.messages| && multiset(m) == multiset(s)
    requires forall i :: 0 <= i < |m| ==> m[i] == AMessage(AfterReplies(x, i).record) && s[i] == AMessage(StreamedAt(x, i))
    ensures forall i :: 0 <= i < |m| ==> Agreeable(x, i)
  {
    forall i | 0 <= i < |m| ensures !IsPending(m[i]) && !IsStrayReaction(s[i]) {
      NothingStrays(x, m, s, i);
    }
    forall i | 0 <= i < |m| ensures IsReactionTo(s[i]) ==> IsReactionTo(m[i]) {
      RowFlags(x, i);
    }
    CountIsOfTheMultiset(m, s, IsReactionTo);
    CountsOfImplied(s, m, IsReactionTo);
    forall i | 0 <= i < |m| ensures Agreeable(x, i) {
      RowFlags(x, i);
      assert !IsPending(m[i]) && !IsStrayReaction(s[i]) && IsReactionTo(s[i]) == IsReactionTo(m[i]);
    }
  }

  lemma MemoryMessageAt(x: Extraction)
    requires DistinctRows(x)
    ensures |MemoryMessages(x)| == |x.messages|
    ensures forall i :: 0 <= i < |x.messages| ==> MemoryMessages(x)[i] == AMessage(AfterReplies(x, i).record)
  {
    MemoryRows(x);
  }

  lemma StreamedMessageAt(x: Extraction)
    requires DistinctRows(x)
    ensures var s := StreamedMessages(x, x.messages, PrepareAll(x, |x.messages|));
            |s| == |x.messages| && forall i :: 0 <= i < |s| ==> s[i] == AMessage(StreamedAt(x, i))
  {
    var s := StreamedMessages(x, x.messages, PrepareAll(x, |x.messages|));
    assert x.messages[..|x.messages|] == x.messages;
    StreamedLength(x, |x.messages|);
    forall i | 0 <= i < |s| ensures s[i] == AMessage(StreamedAt(x, i)) {
      StreamedRow(x, |x.messages|, i);
    }
  }

  lemma MessagesAgreeExactly(x: Extraction, m: seq<Record>, s: seq<Record>)
    requires |m| == |s| == |x.messages|
    requires forall i :: 0 <= i < |m| ==> m[i] == AMessage(AfterReplies(x, i).record) && s[i] == AMessage(StreamedAt(x, i))
    ensures multiset(m) == multiset(s) <==> forall i :: 0 <= i < |m| ==> Agreeable(x, i)
  {
    if forall i :: 0 <= i < |m| ==> Agreeable(x, i) {
      forall i | 0 <= i < |m| ensures m[i] == s[i] {
        RowsAgreeExactly(x, i);
      }
      assert m == s;
    }
    if multiset(m) == multiset(s) {
      MultisetsTellRowsApart(x, m, s);
    }
  }

  /** Rows that the spool gives back are yielded as they were given. */
  lemma RecordsAgreeExactly(x: Extraction)
    requires DistinctRows(x)
    ensures multiset(MemoryRecords(x)) == multiset(StreamedRecords(x))
            <==> forall i :: 0 <= i < |x.messages| ==> Agreeable(x, i)
  {
    var memory, streamed := MemoryMessages(x), StreamedMessages(x, x.messages, PrepareAll(x, |x.messages|));
    MemoryMessageAt(x);
    StreamedMessageAt(x);
    MessagesAgreeExactly(x, memory, streamed);
    SameRevisions(x);
    Cancel(memory, streamed, RevisionsOf(x, x.edits, PreparedKeys(PrepareAll(x, |x.messages|))));
  }

  /** Exactly when the streaming normalizer comes to its end. */
  lemma StreamingEndsExactly(codec: Codec<Row>, x: Extraction, maxSpoolBytes: nat)
    requires EncodesWhole(codec)
    ensures Streamed(codec, x, maxSpoolBytes)
            == if LineFraming.ByteLength(Encoded(codec, x.messages)) <= maxSpoolBytes && AllOneLine(codec, x.messages)
               then Some(StreamedRecords(x)) else None
  {
    ReadsBackExactly(codec, x.messages);
  }

  /** Exactly when the streaming normalizer means the same as the in-memory one: its rows fit
      into the spool, and none of their lines contains a line ending; a named reaction target
      belongs to a reaction that is no collision and quotes nothing; and a reaction without a
      target finds no row without an id. */
  lemma StreamingRefinesExactly(codec: Codec<Row>, x: Extraction, maxSpoolBytes: nat)
    requires EncodesWhole(codec) && DistinctRows(x)
    ensures var streamed := Streamed(codec, x, maxSpoolBytes);
            streamed.Some? && multiset(streamed.value) == multiset(MemoryRecords(x))
            <==> && LineFraming.ByteLength(Encoded(codec, x.messages)) <= maxSpoolBytes
                 && AllOneLine(codec, x.messages)
                 && forall i :: 0 <= i < |x.messages| ==> Agreeable(x, i)
  {
    RecordsAgreeExactly(x);
    StreamingEndsExactly(codec, x, maxSpoolBytes);
  }

  // --------------------------------------------------------------------- the loops

  method ReadJids(jids: seq<JidRow>) returns (byRow: Jids)
    ensures byRow == JidTable(jids)
  {
    byRow := map[];
    for i := 0 to |jids|
      invariant byRow == JidTable(jids[..i])
    {
      assert jids[..i + 1][..i] == jids[..i];
      if jids[i].id.Some? && jids[i].raw.Some? {
        byRow := byRow[jids[i].id.value := jids[i].raw.value];
      }
    }
    assert jids[..|jids|] == jids;
  }

  method ReadChats(chats: seq<ChatRow>, jids: Jids) returns (byRow: Jids)
    ensures byRow == ChatTable(chats, jids)
  {
    byRow := map[];
    for i := 0 to |chats|
      invariant byRow == ChatTable(chats[..i], jids)
    {
      assert chats[..i + 1][..i] == chats[..i];
      if chats[i].id.Some? && OrMinusOne(chats[i].jidRow) in jids {
        byRow := byRow[chats[i].id.value := jids[OrMinusOne(chats[i].jidRow)]];
      }
    }
    assert chats[..|chats|] == chats;
  }

  method AppendRevisions(x: Extraction, keys: map<int, StableKey>) returns (revisions: seq<Record>)
    ensures revisions == RevisionsOf(x, x.edits, keys)
  {
    revisions := [];
    for i := 0 to |x.edits|
      invariant revisions == RevisionsOf(x, x.edits[..i], keys)
    {
      assert x.edits[..i + 1][..i] == x.edits[..i];
      if Revises(x.edits[i], keys.Keys) {
        revisions := revisions + [RevisionOf(x, x.edits[i], keys[OrMinusOne(x.edits[i].message)])];
      }
    }
    assert x.edits[..|x.edits|] == x.edits;
  }

  /** Registers one row, in source order. */
  method PrepareMessage(x: Extraction, i: nat, jids: Jids, chats: Jids, registry: MessageIdentityRegistry) returns (p: Prepared)
    requires i < |x.messages| && jids == JidTable(x.jids) && chats == ChatTable(x.chats, jids)
    requires registry.records == RegistryAfter(x, x.messages[..i])
    modifies registry
    ensures p == PreparedAt(x, i) && registry.records == RegistryAfter(x, x.messages[..i + 1])
  {
    assert x.messages[..i + 1][..i] == x.messages[..i];
    var input := IdentityFrom(x, x.messages[i], jids, chats);
    var accepted := registry.Register(input);
    p := PreparedAs(x, x.messages[i], input, accepted);
  }

  method RegisterRows(x: Extraction, jids: Jids, chats: Jids) returns (byRow: Originals, result: seq<Slot>)
    requires jids == JidTable(x.jids) && chats == ChatTable(x.chats, jids)
    ensures Table(byRow, result) == Normalized(x, |x.messages|)
  {
    var registry := new MessageIdentityRegistry();
    byRow, result := map[], [];
    for i := 0 to |x.messages|
      invariant registry.records == RegistryAfter(x, x.messages[..i])
      invariant Table(byRow, result) == Normalized(x, i)
    {
      var row := x.messages[i];
      var p := PrepareMessage(x, i, jids, chats, registry);
      var made := Slot(Some(i), UnresolvedFrom(x, row, p, if row.quoted.Some? then Pending else NoReply, jids, chats));
      byRow := byRow[OrMinusOne(row.id) := made];
      result := result + [made];
    }
  }

  method ApplyReactions(byRow: Originals, originals: seq<Slot>, rows: seq<Row>) returns (result: seq<Slot>)
    ensures result == ReactAll(byRow, originals, rows)
  {
    result := originals;
    for i := 0 to |rows|
      invariant result == ReactAll(byRow, originals, rows[..i])
    {
      assert rows[..i + 1][..i] == rows[..i];
      var id, target := OrMinusOne(rows[i].id), OrMinusOne(rows[i].reactionTarget);
      if id in byRow && byRow[id].record.kind == Reaction && target in byRow {
        var index := IndexOf(result, byRow[id]);
        if index < |result| {
          result := result[index := Slot(None, byRow[id].record.(reactsTo := Some(byRow[target].record.stableKey)))];
        }
      }
    }
    assert rows[..|rows|] == rows;
  }

  method ResolveReplies(byRow: Originals, reacted: seq<Slot>, rows: seq<Row>) returns (result: seq<Slot>)
    ensures result == ReplyAll(byRow, reacted, rows)
  {
    result := reacted;
    for i := 0 to |rows|
      invariant result == ReplyAll(byRow, reacted, rows[..i])
    {
      assert rows[..i + 1][..i] == rows[..i];
      var id, quoted := OrMinusOne(rows[i].id), rows[i].quoted;
      if id in byRow && quoted.Some? {
        var index := IndexOf(result, byRow[id]);
        if index < |result| {
          var reply := if quoted.value in byRow then To(byRow[quoted.value].record.stableKey) else NoReply;
          result := result[index := Slot(None, byRow[id].record.(reply := reply))];
        }
      }
    }
    assert rows[..|rows|] == rows;
  }

  /** The whole in-memory normalizer, before the final sort by key. */
  method NormalizeInMemory(x: Extraction) returns (records: seq<Record>)
    ensures records == MemoryRecords(x)
  {
    var jids := ReadJids(x.jids);
    var chats := ReadChats(x.chats, jids);
    var byRow, originals := RegisterRows(x, jids, chats);
    var reacted := ApplyReactions(byRow, originals, x.messages);
    var resolved := ResolveReplies(byRow, reacted, x.messages);
    var revisions := AppendRevisions(x, SlotKeys(byRow));
    records := RecordsOf(resolved) + revisions;
  }

  function BatchSize(requested: Option<int>): nat {
    Max(1, Min(1000, if requested.Some? then requested.value else 500))
  }

  /** The first pass: register every row while it is spooled, or give up when the spool
      outgrows its limit. */
  method PrepareRows(codec: Codec<Row>, x: Extraction, jids: Jids, chats: Jids, maxSpoolBytes: nat)
    returns (byRow: Prepareds, spool: Option<string>)
    requires jids == JidTable(x.jids) && chats == ChatTable(x.chats, jids)
    ensures spool == if LineFraming.ByteLength(Encoded(codec, x.messages)) > maxSpoolBytes then None else Some(Encoded(codec, x.messages))
    ensures spool.Some? ==> byRow == PrepareAll(x, |x.messages|)
  {
    var registry := new MessageIdentityRegistry();
    var spooled, text := 0, "";
    byRow := map[];
    for i := 0 to |x.messages|
      invariant registry.records == RegistryAfter(x, x.messages[..i])
      invariant byRow == PrepareAll(x, i)
      invariant text == Encoded(codec, x.messages[..i])
      invariant spooled == LineFraming.ByteLength(text) <= maxSpoolBytes
    {
      var row := x.messages[i];
      var line := Line(codec, row);
      OneRowMore(x, i);
      OneLineMore(codec, x.messages, i);
      spooled := spooled + LineFraming.ByteLength(line);
      if spooled > maxSpoolBytes {
        return byRow, None;
      }
      text := text + line;
      var p := PrepareMessage(x, i, jids, chats, registry);
      byRow := byRow[OrMinusOne(row.id) := p];
    }
    assert x.messages[..|x.messages|] == x.messages;
    spool := Some(text);
  }

  lemma OneRowMore(x: Extraction, i: nat)
    requires i < |x.messages|
    ensures RegistryAfter(x, x.messages[..i + 1]) == Registered(RegistryAfter(x, x.messages[..i]), IdentityOf(x, x.messages[i]))
    ensures PrepareAll(x, i + 1) == PrepareAll(x, i)[OrMinusOne(x.messages[i].id) := PreparedAt(x, i)]
  {
    assert x.messages[..i + 1][..i] == x.messages[..i];
  }

  lemma OneLineMore(codec: Codec<Row>, rows: seq<Row>, i: nat)
    requires i < |rows|
    ensures var before, line := Encoded(codec, rows[..i]), Line(codec, rows[i]);
            && Encoded(codec, rows[..i + 1]) == before + line
            && LineFraming.ByteLength(before + line) == LineFraming.ByteLength(before) + LineFraming.ByteLength(line)
            && LineFraming.ByteLength(before + line) <= LineFraming.ByteLength(Encoded(codec, rows))
  {
    assert rows[..i + 1][..i] == rows[..i];
    LineFraming.ByteLengthConcat(Encoded(codec, rows[..i]), Line(codec, rows[i]));
    EncodedGrows(codec, rows, i + 1);
  }

  /** `readRows`: the lines of the spool, until one does not decode. */
  method ReadRows(codec: Codec<Row>, spool: string) returns (rows: Option<seq<Row>>)
    ensures rows == ReadBack(codec, spool)
  {
    var lines := FileLines(spool);
    var read: seq<Row> := [];
    for i := 0 to |lines|
      invariant DecodeLines(codec, lines[..i]) == Some(read)
    {
      assert lines[..i + 1][..i] == lines[..i];
      var row := codec.decode(lines[i]);
      if row.None? {
        DecodeFails(codec, lines, i + 1);
        return None;
      }
      read := read + [row.value];
    }
    assert lines[..|lines|] == lines;
    rows := Some(read);
  }

  /** The second pass, over the rows read back. */
  method YieldMessages(x: Extraction, rows: seq<Row>, jids: Jids, chats: Jids, byRow: Prepareds, size: nat)
    returns (batches: seq<seq<Record>>)
    requires jids == JidTable(x.jids) && chats == ChatTable(x.chats, jids) && size > 0
    ensures Flatten(batches) == StreamedMessages(x, rows, byRow) && Bounded(batches, size)
  {
    var batch: seq<Record> := [];
    batches := [];
    for i := 0 to |rows|
      invariant Collected(batches, batch, size, StreamedMessages(x, rows[..i], byRow))
    {
      assert rows[..i + 1][..i] == rows[..i];
      var row := rows[i];
      if OrMinusOne(row.id) in byRow {
        var message := UnresolvedFrom(x, row, byRow[OrMinusOne(row.id)], NoReply, jids, chats);
        batches, batch := Collect(batches, batch, AMessage(Referring(message, row, byRow)), size,
                                  StreamedMessages(x, rows[..i], byRow));
      }
    }
    assert rows[..|rows|] == rows;
    batches := CollectRest(batches, batch, size, StreamedMessages(x, rows, byRow));
  }

  method YieldRevisions(x: Extraction, keys: map<int, StableKey>, size: nat) returns (batches: seq<seq<Record>>)
    requires size > 0
    ensures Flatten(batches) == RevisionsOf(x, x.edits, keys) && Bounded(batches, size)
  {
    var batch: seq<Record> := [];
    batches := [];
    for i := 0 to |x.edits|
      invariant Collected(batches, batch, size, RevisionsOf(x, x.edits[..i], keys))
    {
      assert x.edits[..i + 1][..i] == x.edits[..i];
      if Revises(x.edits[i], keys.Keys) {
        batches, batch := Collect(batches, batch, RevisionOf(x, x.edits[i], keys[OrMinusOne(x.edits[i].message)]), size,
                                  RevisionsOf(x, x.edits[..i], keys));
      }
    }
    assert x.edits[..|x.edits|] == x.edits;
    batches := CollectRest(batches, batch, size, RevisionsOf(x, x.edits, keys));
  }

  lemma {:induction false} FlattenBoth(a: seq<seq<Record>>, b: seq<seq<Record>>)
    ensures Flatten(a + b) == Flatten(a) + Flatten(b)
  {
    if a == [] {
      assert a + b == b;
    } else {
      assert (a + b)[1..] == a[1..] + b;
      FlattenBoth(a[1..], b);
    }
  }

  /** The whole streaming normalizer: message batches, then revision batches; none when it
      fails on the way. */
  method NormalizeStreaming(codec: Codec<Row>, x: Extraction, batchSize: Option<int>, maxSpoolBytes: nat)
    returns (batches: Option<seq<seq<Record>>>)
    ensures batches.Some? <==> Streamed(codec, x, maxSpoolBytes).Some?
    ensures batches.Some? ==> Flatten(batches.value) == Streamed(codec, x, maxSpoolBytes).value
                              && Bounded(batches.value, if batchSize == None then 500 else if batchSize.value < 1 then 1
                                                        else if batchSize.value > 1000 then 1000 else batchSize.value)
  {
    var jids := ReadJids(x.jids);
    var chats := ReadChats(x.chats, jids);
    var byRow, spool := PrepareRows(codec, x, jids, chats, maxSpoolBytes);
    if spool.None? {
      return None;
    }
    var rows := ReadRows(codec, spool.value);
    if rows.None? {
      return None;
    }
    var messages := YieldMessages(x, rows.value, jids, chats, byRow, BatchSize(batchSize));
    var revisions := YieldRevisions(x, PreparedKeys(byRow), BatchSize(batchSize));
    FlattenBoth(messages, revisions);
    batches := Some(messages + revisions);
  }
}
