/** What each record of an extraction shows, told by the tables that were extracted: sender and
    conversation through the jid and chat rows, the kind of its native code, the records it refers
    to, and the revisions. */
module NormalizedRecords {
  import opened Basics
  import opened MessageIdentity
  import opened WhatsAppMessages
  import opened NormalizedKeys

  /** A reference that is missing refers to row -1. */
  function Ref(reference: Option<int>): int {
    if reference == None then -1 else reference.value
  }

  /** The last jid row of this id that has a name. */
  predicate LastJid(jids: seq<JidRow>, id: int, k: int) {
    && 0 <= k < |jids| && jids[k].id == Some(id) && jids[k].raw != None
    && forall l :: k < l < |jids| && jids[l].id == Some(id) ==> jids[l].raw == None
  }

  ghost predicate KnownJid(jids: seq<JidRow>, id: int) {
    exists k :: LastJid(jids, id, k)
  }

  /** The name is that of the row's jid, if it has one. */
  ghost predicate NamedBy(jids: seq<JidRow>, reference: Option<int>, name: Option<Text>) {
    && (name != None <==> KnownJid(jids, Ref(reference)))
    && (forall k :: LastJid(jids, Ref(reference), k) ==> name == jids[k].raw)
  }

  lemma {:induction false} JidsTell(jids: seq<JidRow>, id: int)
    ensures id in JidTable(jids) <==> KnownJid(jids, id)
    ensures forall k :: LastJid(jids, id, k) ==> id in JidTable(jids) && jids[k].raw == Some(JidTable(jids)[id])
  {
    if jids != [] {
      var n := |jids| - 1;
      JidsTell(jids[..n], id);
      forall k ensures jids[n].id == Some(id) && jids[n].raw != None ==> (LastJid(jids, id, k) <==> k == n)
        ensures !(jids[n].id == Some(id) && jids[n].raw != None) ==> (LastJid(jids, id, k) <==> LastJid(jids[..n], id, k))
      {
        assert forall l :: 0 <= l < n ==> jids[..n][l] == jids[l];
      }
      if jids[n].id == Some(id) && jids[n].raw != None {
        assert LastJid(jids, id, n);
      } else if KnownJid(jids[..n], id) {
        var k :| LastJid(jids[..n], id, k);
        assert LastJid(jids, id, k);
      }
    }
  }

  /** The last chat row of this id whose jid has a name. */
  ghost predicate LastChat(chats: seq<ChatRow>, jids: seq<JidRow>, id: int, k: int) {
    && 0 <= k < |chats| && chats[k].id == Some(id) && KnownJid(jids, Ref(chats[k].jidRow))
    && forall l :: k < l < |chats| && chats[l].id == Some(id) ==> !KnownJid(jids, Ref(chats[l].jidRow))
  }

  ghost predicate KnownChat(chats: seq<ChatRow>, jids: seq<JidRow>, id: int) {
    exists k :: LastChat(chats, jids, id, k)
  }

  lemma {:induction false} ChatsTell(chats: seq<ChatRow>, jids: seq<JidRow>, id: int)
    ensures var table := ChatTable(chats, JidTable(jids));
            && (id in table <==> KnownChat(chats, jids, id))
            && (forall k :: LastChat(chats, jids, id, k) ==> id in table && NamedBy(jids, chats[k].jidRow, Some(table[id])))
  {
    if chats != [] {
      var n := |chats| - 1;
      ChatsTell(chats[..n], jids, id);
      JidsTell(jids, Ref(chats[n].jidRow));
      var used := chats[n].id == Some(id) && KnownJid(jids, Ref(chats[n].jidRow));
      forall k ensures used ==> (LastChat(chats, jids, id, k) <==> k == n)
        ensures !used ==> (LastChat(chats, jids, id, k) <==> LastChat(chats[..n], jids, id, k))
      {
        assert forall l :: 0 <= l < n ==> chats[..n][l] == chats[l];
      }
      if used {
        assert LastChat(chats, jids, id, n);
      } else if KnownChat(chats[..n], jids, id) {
        var k :| LastChat(chats[..n], jids, id, k);
        assert LastChat(chats, jids, id, k);
      }
    }
  }

  // ------------------------------------------------------------ what a record shows

  /** A row's own sender, or else the name of the jid that it refers to. */
  ghost predicate SenderTold(x: Extraction, row: Row, sender: Option<Text>) {
    if row.sender != None then sender == row.sender else NamedBy(x.jids, row.senderRow, sender)
  }

  /** A row's own remote jid, or else the name of its chat's jid, or else its reference itself. */
  ghost predicate ChatTold(x: Extraction, row: Row, chat: ChatRef) {
    && (row.remote != None ==> chat == Jid(row.remote.value))
    && (row.remote == None ==>
          && (!KnownChat(x.chats, x.jids, Ref(row.chatRow)) ==> chat == DamagedChat(row.chatRow))
          && (forall k :: LastChat(x.chats, x.jids, Ref(row.chatRow), k) ==>
                            chat.Jid? && NamedBy(x.jids, x.chats[k].jidRow, Some(chat.jid))))
  }

  /** The kinds of the native codes from 0. */
  const KINDS: seq<Kind> :=
    [TextKind, TextKind, Image, Audio, Video, Contact, Location, Document, Sticker, Reaction, System]

  predicate Coded(code: Option<int>) {
    code != None && 0 <= code.value < 11
  }

  function KindOf(code: Option<int>): Kind {
    if Coded(code) then KINDS[code.value] else Unsupported
  }

  /** The key that a row claims: that of its own id in its chat, or, without one, of all that it
      says. */
  ghost predicate ClaimTold(x: Extraction, row: Row, m: Message, key: StableKey) {
    if row.sourceId != None then key == SourceKey(x.account, Raw(m.conversation.chat), row.sourceId.value)
    else key == FallbackKey(x.adapter, x.account, m.conversation, if m.sender == None then EMPTY_TEXT else m.sender.value,
                            if row.timestamp == None then EMPTY_TEXT else row.timestamp.value, row.direction,
                            KindOf(row.nativeCode))
  }

  ghost predicate KeyTold(x: Extraction, i: nat, m: Message)
    requires i < |x.messages|
  {
    if Collides(x, i) then m.stableKey == CollisionKey(x.account, m.conversation, x.messages[i].timestamp)
    else ClaimTold(x, x.messages[i], m, m.stableKey)
  }

  /** What the record of a row shows of the row itself. */
  ghost predicate RowTold(x: Extraction, i: nat, m: Message)
    requires i < |x.messages|
  {
    var row := x.messages[i];
    && m.conversation.account == x.account && ChatTold(x, row, m.conversation.chat)
    && SenderTold(x, row, m.sender)
    && m.kind == (if Collides(x, i) then Unsupported else KindOf(row.nativeCode))
    && m.unsupportedCode == (if Coded(row.nativeCode) then None else row.nativeCode)
    && m.content == row.content
    && KeyTold(x, i, m)
  }

  lemma SendersTell(x: Extraction, row: Row)
    ensures SenderTold(x, row, SenderFor(row, JidTable(x.jids)))
  {
    JidsTell(x.jids, Ref(row.senderRow));
  }

  lemma ConversationsTell(x: Extraction, row: Row)
    ensures ChatTold(x, row, ChatFor(row, ChatTable(x.chats, JidTable(x.jids))))
  {
    ChatsTell(x.chats, x.jids, Ref(row.chatRow));
  }

  lemma KeysTell(x: Extraction, i: nat, m: Message)
    requires i < |x.messages|
    requires m.conversation == Conversation(x.account, ChatFor(x.messages[i], ChatTable(x.chats, JidTable(x.jids))))
    requires m.sender == SenderFor(x.messages[i], JidTable(x.jids)) && m.stableKey == KeyOf(x, i)
    ensures KeyTold(x, i, m)
  {
  }

  lemma RowFields(x: Extraction, i: nat, reply: Reply)
    requires i < |x.messages|
    ensures RowTold(x, i, Unresolved(x, x.messages[i], PreparedAt(x, i), reply))
  {
    SendersTell(x, x.messages[i]);
    ConversationsTell(x, x.messages[i]);
    KeysTell(x, i, Unresolved(x, x.messages[i], PreparedAt(x, i), reply));
  }

  /** The record may be given other references. */
  lemma SameRowTold(x: Extraction, i: nat, m: Message, m': Message)
    requires i < |x.messages| && RowTold(x, i, m) && m' == m.(reply := m'.reply, reactsTo := m'.reactsTo)
    ensures RowTold(x, i, m')
  {
  }

  // ------------------------------------------------------------------- references

  /** Row j is the one referred to. */
  predicate IsRow(x: Extraction, id: int, j: int) {
    0 <= j < |x.messages| && Ref(x.messages[j].id) == id
  }

  ghost predicate HasRow(x: Extraction, id: int) {
    exists j :: IsRow(x, id, j)
  }

  /** The key of the row referred to, if there is one. */
  ghost predicate LeadsTo(x: Extraction, id: int, key: Option<StableKey>) {
    && (key != None <==> HasRow(x, id))
    && (forall j :: IsRow(x, id, j) ==> key == Some(KeyOf(x, j)))
  }

  lemma RowsAreFound(x: Extraction, id: int)
    requires DistinctRows(x)
    ensures id in PrepareAll(x, |x.messages|) <==> HasRow(x, id)
    ensures forall j :: IsRow(x, id, j) ==> id in PrepareAll(x, |x.messages|) && PrepareAll(x, |x.messages|)[id].stableKey == KeyOf(x, j)
  {
    ByRowIsTheRow(x, |x.messages|, id);
    if j :| 0 <= j < |x.messages| && OrMinusOne(x.messages[j].id) == id {
      assert IsRow(x, id, j);
    }
    if HasRow(x, id) {
      var j :| IsRow(x, id, j);
      assert OrMinusOne(x.messages[j].id) == id;
    }
  }

  ghost predicate ReplyTold(x: Extraction, row: Row, reply: Reply) {
    if row.quoted == None then reply == NoReply
    else !reply.Pending? && LeadsTo(x, row.quoted.value, if reply.To? then Some(reply.key) else None)
  }

  /** A reaction that keeps its kind, as the in-memory normalizer applies it. */
  predicate Applied(x: Extraction, i: nat)
    requires i < |x.messages|
  {
    x.messages[i].nativeCode == Some(9) && !Collides(x, i)
  }

  /** Streamed, every row names the row that it reacts to and the one that it quotes. */
  ghost predicate StreamedTold(x: Extraction, i: nat, m: Message)
    requires i < |x.messages|
  {
    var row := x.messages[i];
    && RowTold(x, i, m) && ReplyTold(x, row, m.reply)
    && (if row.reactionTarget == None then m.reactsTo == None else LeadsTo(x, row.reactionTarget.value, m.reactsTo))
  }

  /** In memory only reactions name a target, which may be row -1; and one that does keeps its
      reply unresolved. */
  ghost predicate RememberedTold(x: Extraction, i: nat, m: Message)
    requires i < |x.messages|
  {
    var row := x.messages[i];
    && RowTold(x, i, m)
    && (if Applied(x, i) then LeadsTo(x, Ref(row.reactionTarget), m.reactsTo) else m.reactsTo == None)
    && (if m.reactsTo != None then m.reply == (if row.quoted == None then NoReply else Pending) else ReplyTold(x, row, m.reply))
  }

  lemma StreamedTells(x: Extraction, i: nat)
    requires i < |x.messages| && DistinctRows(x)
    ensures StreamedTold(x, i, StreamedAt(x, i))
  {
    var row := x.messages[i];
    RowFields(x, i, NoReply);
    if row.quoted.Some? {
      RowsAreFound(x, row.quoted.value);
    }
    if row.reactionTarget.Some? {
      RowsAreFound(x, row.reactionTarget.value);
    }
  }

  lemma RememberedTells(x: Extraction, i: nat)
    requires i < |x.messages| && DistinctRows(x)
    ensures RememberedTold(x, i, AfterReplies(x, i).record)
  {
    var row := x.messages[i];
    var m := Original(x, i).record;
    RowFields(x, i, if row.quoted.Some? then Pending else NoReply);
    SameRowTold(x, i, m, AfterReplies(x, i).record);
    RememberedReferences(x, i);
  }

  lemma AppliedWhenReacting(x: Extraction, i: nat)
    requires i < |x.messages| && DistinctRows(x)
    ensures Reacts(x, i) <==> Applied(x, i) && HasRow(x, Ref(x.messages[i].reactionTarget))
  {
    RowsAreFound(x, Ref(x.messages[i].reactionTarget));
  }

  lemma QuotesLead(x: Extraction, i: nat)
    requires i < |x.messages| && DistinctRows(x)
    ensures ReplyTold(x, x.messages[i], ReplyOf(x, i))
  {
    if x.messages[i].quoted.Some? {
      RowsAreFound(x, x.messages[i].quoted.value);
    }
  }

  lemma RememberedReferences(x: Extraction, i: nat)
    requires i < |x.messages| && DistinctRows(x)
    ensures var row, m := x.messages[i], AfterReplies(x, i).record;
            && (if Applied(x, i) then LeadsTo(x, Ref(row.reactionTarget), m.reactsTo) else m.reactsTo == None)
            && (if m.reactsTo != None then m.reply == (if row.quoted == None then NoReply else Pending) else ReplyTold(x, row, m.reply))
  {
    AppliedWhenReacting(x, i);
    QuotesLead(x, i);
    if Reacts(x, i) {
      RowsAreFound(x, Ref(x.messages[i].reactionTarget));
    }
  }

  /** The i-th record of either normalizer shows what the tables say of the i-th row. */
  lemma RecordsTell(x: Extraction, i: nat)
    requires i < |x.messages| && DistinctRows(x)
    ensures i < |MemoryRecords(x)| && MemoryRecords(x)[i].AMessage? && RememberedTold(x, i, MemoryRecords(x)[i].record)
    ensures i < |StreamedRecords(x)| && StreamedRecords(x)[i].AMessage? && StreamedTold(x, i, StreamedRecords(x)[i].record)
  {
    MemoryMessageAt(x);
    StreamedMessageAt(x);
    RememberedTells(x, i);
    StreamedTells(x, i);
  }

  // --------------------------------------------------------------------- revisions

  /** An edit with a version, of a message that was extracted. */
  ghost predicate IsRevision(x: Extraction, e: int) {
    0 <= e < |x.edits| && x.edits[e].version != None && x.edits[e].version.value >= 1 && HasRow(x, Ref(x.edits[e].message))
  }

  /** The record is the revision that the edit makes. */
  ghost predicate RevisionTold(x: Extraction, e: int, r: Record) {
    && IsRevision(x, e) && r.Revision?
    && (forall j :: IsRow(x, Ref(x.edits[e].message), j) ==> r.message == KeyOf(x, j))
    && r.ordinal == x.edits[e].version.value && r.revised == x.edits[e].content && r.firstSeen == x.snapshot
  }

  /** The records are the revisions of the first n edits, in their order: `at` lists which. */
  ghost predicate RevisionsTold(x: Extraction, n: nat, revisions: seq<Record>, at: seq<int>) {
    && |at| == |revisions| && (forall k, l :: 0 <= k < l < |at| ==> at[k] < at[l])
    && (forall k :: 0 <= k < |at| ==> at[k] < n && RevisionTold(x, at[k], revisions[k]))
    && (forall e :: 0 <= e < n && IsRevision(x, e) ==> e in at)
  }

  lemma EditTells(x: Extraction, e: nat)
    requires e < |x.edits| && DistinctRows(x)
    ensures var keys, edit := PreparedKeys(PrepareAll(x, |x.messages|)), x.edits[e];
            && (Revises(edit, keys.Keys) <==> IsRevision(x, e))
            && (IsRevision(x, e) ==> RevisionTold(x, e, RevisionOf(x, edit, keys[OrMinusOne(edit.message)])))
  {
    RowsAreFound(x, Ref(x.edits[e].message));
  }

  lemma OneMoreEdit(x: Extraction, e: nat, revisions: seq<Record>, at: seq<int>, r: Record)
    requires RevisionsTold(x, e, revisions, at) && RevisionTold(x, e, r)
    ensures RevisionsTold(x, e + 1, revisions + [r], at + [e])
  {
  }

  lemma {:induction false} RevisionsTell(x: Extraction, n: nat) returns (at: seq<int>)
    requires n <= |x.edits| && DistinctRows(x)
    ensures RevisionsTold(x, n, RevisionsOf(x, x.edits[..n], PreparedKeys(PrepareAll(x, |x.messages|))), at)
  {
    if n == 0 {
      at := [];
    } else {
      var keys, e := PreparedKeys(PrepareAll(x, |x.messages|)), n - 1;
      assert x.edits[..n][..e] == x.edits[..e];
      at := RevisionsTell(x, e);
      EditTells(x, e);
      if IsRevision(x, e) {
        OneMoreEdit(x, e, RevisionsOf(x, x.edits[..e], keys), at, RevisionOf(x, x.edits[e], keys[OrMinusOne(x.edits[e].message)]));
        at := at + [e];
      }
    }
  }

  /** Behind the messages both normalizers yield exactly the revisions that the edits make. */
  lemma EditsTell(x: Extraction) returns (at: seq<int>)
    requires DistinctRows(x)
    ensures |x.messages| <= |MemoryRecords(x)| && RevisionsTold(x, |x.edits|, MemoryRecords(x)[|x.messages|..], at)
    ensures |x.messages| <= |StreamedRecords(x)| && RevisionsTold(x, |x.edits|, StreamedRecords(x)[|x.messages|..], at)
  {
    MemoryMessageAt(x);
    StreamedMessageAt(x);
    SameRevisions(x);
    at := RevisionsTell(x, |x.edits|);
    assert x.edits[..|x.edits|] == x.edits;
    var revisions := RevisionsOf(x, x.edits, PreparedKeys(PrepareAll(x, |x.messages|)));
    assert MemoryRecords(x) == MemoryMessages(x) + revisions;
    assert MemoryRecords(x)[|x.messages|..] == revisions && StreamedRecords(x)[|x.messages|..] == revisions;
  }
}
