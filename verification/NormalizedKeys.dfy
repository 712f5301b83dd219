/** When the normalized messages of an extraction have distinct keys, as the reply resolution of
    an import supposes. */
module NormalizedKeys {
  import opened Basics
  import opened MessageIdentity
  import opened WhatsAppMessages
  import TextImport
  import ReplyResolution

  function KeyOf(x: Extraction, i: nat): StableKey
    requires i < |x.messages|
  {
    PreparedAt(x, i).stableKey
  }

  function ChatRefOf(x: Extraction, i: nat): ChatRef
    requires i < |x.messages|
  {
    ChatFor(x.messages[i], ChatTable(x.chats, JidTable(x.jids)))
  }

  function SenderOf(x: Extraction, i: nat): Option<Text>
    requires i < |x.messages|
  {
    SenderFor(x.messages[i], JidTable(x.jids))
  }

  predicate Collides(x: Extraction, i: nat)
    requires i < |x.messages|
  {
    PreparedAt(x, i).collision
  }

  /** Two rows that agree on all that identifies a message. */
  predicate SameIdentity(x: Extraction, i: nat, j: nat)
    requires i < |x.messages| && j < |x.messages|
  {
    var a, b := x.messages[i], x.messages[j];
    && a.sourceId == b.sourceId && ChatRefOf(x, i) == ChatRefOf(x, j) && SenderOf(x, i) == SenderOf(x, j)
    && a.timestamp == b.timestamp && a.direction == b.direction && KindFor(a.nativeCode) == KindFor(b.nativeCode)
  }

  /** Two rows that were refused their keys, of one conversation and time. */
  predicate SameCollision(x: Extraction, i: nat, j: nat)
    requires i < |x.messages| && j < |x.messages|
  {
    Collides(x, i) && Collides(x, j)
    && ChatRefOf(x, i) == ChatRefOf(x, j) && x.messages[i].timestamp == x.messages[j].timestamp
  }

  function InputsOf(x: Extraction, rows: seq<Row>): (inputs: seq<IdentityInput>)
    ensures |inputs| == |rows|
    ensures forall i :: 0 <= i < |rows| ==> inputs[i] == IdentityOf(x, rows[i])
  {
    seq(|rows|, i requires 0 <= i < |rows| => IdentityOf(x, rows[i]))
  }

  lemma {:induction false} SameRegistry(x: Extraction, n: nat)
    requires n <= |x.messages|
    ensures RegistryAfter(x, x.messages[..n]) == RecordsAfter(InputsOf(x, x.messages)[..n])
  {
    if n > 0 {
      SameRegistry(x, n - 1);
      assert x.messages[..n][..n - 1] == x.messages[..n - 1];
      assert InputsOf(x, x.messages)[..n][..n - 1] == InputsOf(x, x.messages)[..n - 1];
    }
  }

  lemma CollidesWhenRefused(x: Extraction, i: nat)
    requires i < |x.messages|
    ensures Collides(x, i) <==> !AcceptedAt(InputsOf(x, x.messages), i)
  {
    SameRegistry(x, i);
  }

  lemma SameIdentityIsCanonical(x: Extraction, i: nat, j: nat)
    requires i < |x.messages| && j < |x.messages|
    ensures var a, b := IdentityOf(x, x.messages[i]), IdentityOf(x, x.messages[j]);
            && (SameIdentity(x, i, j) <==> CanonicalInput(a) == CanonicalInput(b))
            && (SameIdentity(x, i, j) ==> DeriveMessageIdentity(a) == DeriveMessageIdentity(b))
  {
  }

  predicate SameText(a: Option<Text>, b: Option<Text>) {
    a == b || (a in {None, Some(EMPTY_TEXT)} && b in {None, Some(EMPTY_TEXT)})
  }

  /** Two rows that claim one key: one id of their own in one chat, or, where neither has one, the
      same sender, time, direction and kind in it. */
  predicate SameClaim(x: Extraction, i: nat, j: nat)
    requires i < |x.messages| && j < |x.messages|
  {
    var a, b := x.messages[i], x.messages[j];
    && a.sourceId == b.sourceId && ChatRefOf(x, i) == ChatRefOf(x, j)
    && (a.sourceId == None ==>
          && SameText(SenderOf(x, i), SenderOf(x, j)) && SameText(a.timestamp, b.timestamp)
          && a.direction == b.direction && KindFor(a.nativeCode) == KindFor(b.nativeCode))
  }

  lemma ClaimsCoincideExactly(x: Extraction, i: nat, j: nat)
    requires i < |x.messages| && j < |x.messages|
    ensures DeriveMessageIdentity(IdentityOf(x, x.messages[i])) == DeriveMessageIdentity(IdentityOf(x, x.messages[j]))
            <==> SameClaim(x, i, j)
  {
  }

  /** A row is refused its key exactly when an earlier one has claimed it with another identity. */
  lemma RefusedExactly(x: Extraction, i: nat)
    requires i < |x.messages|
    ensures Collides(x, i) <==>
            exists j :: 0 <= j < i && !Collides(x, j) && !SameIdentity(x, j, i) && SameClaim(x, j, i)
  {
    var inputs := InputsOf(x, x.messages);
    CollidesWhenRefused(x, i);
    CollidesExactly(inputs, i);
    forall j | 0 <= j < i ensures Collides(x, j) <==> !AcceptedAt(inputs, j)
      ensures SameIdentity(x, j, i) <==> CanonicalInput(inputs[j]) == CanonicalInput(inputs[i])
      ensures SameClaim(x, j, i) <==> DeriveMessageIdentity(inputs[j]) == DeriveMessageIdentity(inputs[i])
    {
      CollidesWhenRefused(x, j);
      SameIdentityIsCanonical(x, j, i);
      ClaimsCoincideExactly(x, j, i);
    }
  }

  /** Rows of one identity are refused together. */
  lemma SameIdentitySameFate(x: Extraction, i: nat, j: nat)
    requires i < j < |x.messages| && SameIdentity(x, i, j)
    ensures Collides(x, i) <==> Collides(x, j)
  {
    var inputs := InputsOf(x, x.messages);
    CollidesWhenRefused(x, i);
    CollidesWhenRefused(x, j);
    SameIdentityIsCanonical(x, i, j);
    var key := DeriveMessageIdentity(inputs[i]);
    if AcceptedAt(inputs, i) {
      assert inputs[..j][..i] == inputs[..i];
      AcceptedIsRecorded(inputs[..j], i);
    } else {
      assert inputs[..j][..i] == inputs[..i];
      RecordsPersist(inputs[..j], i, key);
    }
  }

  /** Two rows share a key exactly when they have one identity, or were both refused their
      own keys and have one conversation and time. */
  lemma KeysCoincideExactly(x: Extraction, i: nat, j: nat)
    requires i < j < |x.messages|
    ensures KeyOf(x, i) == KeyOf(x, j) <==> SameIdentity(x, i, j) || SameCollision(x, i, j)
  {
    var inputs := InputsOf(x, x.messages);
    CollidesWhenRefused(x, i);
    CollidesWhenRefused(x, j);
    SameIdentityIsCanonical(x, i, j);
    if SameIdentity(x, i, j) {
      SameIdentitySameFate(x, i, j);
    }
    if !Collides(x, i) && !Collides(x, j) {
      AcceptedKeysAreHonest(inputs, i, j);
    }
  }

  /** A message with an id of its own keeps its key from one extraction of an account to the next,
      and shares it with no message of another account, chat or id. */
  lemma KeysPersistExactly(x: Extraction, y: Extraction, i: nat, j: nat)
    requires i < |x.messages| && j < |y.messages| && !Collides(x, i) && !Collides(y, j)
    requires x.messages[i].sourceId != None && y.messages[j].sourceId != None
    ensures KeyOf(x, i) == KeyOf(y, j)
            <==> x.account == y.account && ChatRefOf(x, i) == ChatRefOf(y, j) && x.messages[i].sourceId == y.messages[j].sourceId
  {
  }

  predicate Repeat(x: Extraction, i: nat, j: nat)
    requires i < |x.messages| && j < |x.messages|
  {
    SameIdentity(x, i, j) || SameCollision(x, i, j)
  }

  predicate NoRepeats(x: Extraction) {
    forall i, j :: 0 <= i < j < |x.messages| ==> !Repeat(x, i, j)
  }

  // ------------------------------------------------------------- the streamed records

  /** The messages of a stream of records, as an import takes them. */
  function MessagesIn(records: seq<Record>, render: Message -> TextImport.MessageRecord): seq<TextImport.MessageRecord> {
    if records == [] then []
    else
      var last := records[|records| - 1];
      MessagesIn(records[..|records| - 1], render) + (if last.AMessage? then [render(last.record)] else [])
  }

  /** The importer's form of a record carries its key, as text that tells keys apart. */
  ghost predicate Renders(render: Message -> TextImport.MessageRecord) {
    forall m, n :: render(m).stableKey == render(n).stableKey <==> m.stableKey == n.stableKey
  }

  lemma {:induction false} MessagesInConcat(a: seq<Record>, b: seq<Record>, render: Message -> TextImport.MessageRecord)
    ensures MessagesIn(a + b, render) == MessagesIn(a, render) + MessagesIn(b, render)
  {
    if b == [] {
      assert a + b == a;
    } else {
      assert (a + b)[..|a + b| - 1] == a + b[..|b| - 1];
      MessagesInConcat(a, b[..|b| - 1], render);
    }
  }

  lemma MessagesInMore(records: seq<Record>, last: Record, render: Message -> TextImport.MessageRecord)
    ensures MessagesIn(records + [last], render)
            == MessagesIn(records, render) + (if last.AMessage? then [render(last.record)] else [])
  {
    assert (records + [last])[..|records|] == records;
  }

  lemma {:induction false} RevisionsAreNoMessages(x: Extraction, edits: seq<Edit>, keys: map<int, StableKey>,
                                                  render: Message -> TextImport.MessageRecord)
    ensures MessagesIn(RevisionsOf(x, edits, keys), render) == []
  {
    if edits != [] {
      var n := |edits| - 1;
      RevisionsAreNoMessages(x, edits[..n], keys, render);
      if Revises(edits[n], keys.Keys) {
        MessagesInMore(RevisionsOf(x, edits[..n], keys), RevisionOf(x, edits[n], keys[OrMinusOne(edits[n].message)]), render);
      } else {
        assert RevisionsOf(x, edits, keys) == RevisionsOf(x, edits[..n], keys);
      }
    }
  }

  /** Each row finds what was prepared for its id. */
  predicate AllIn(rows: seq<Row>, byRow: Prepareds) {
    forall i :: 0 <= i < |rows| ==> OrMinusOne(rows[i].id) in byRow
  }

  function StreamedKeys(rows: seq<Row>, byRow: Prepareds): (keys: seq<StableKey>)
    requires AllIn(rows, byRow)
    ensures |keys| == |rows|
    ensures forall i :: 0 <= i < |rows| ==> keys[i] == byRow[OrMinusOne(rows[i].id)].stableKey
  {
    seq(|rows|, i requires 0 <= i < |rows| => byRow[OrMinusOne(rows[i].id)].stableKey)
  }

  ghost predicate Carries(records: seq<TextImport.MessageRecord>, keys: seq<StableKey>, render: Message -> TextImport.MessageRecord) {
    |records| == |keys| && forall i :: 0 <= i < |keys| ==> exists m: Message :: m.stableKey == keys[i] && records[i] == render(m)
  }

  lemma {:induction false} StreamedCarries(x: Extraction, rows: seq<Row>, byRow: Prepareds, render: Message -> TextImport.MessageRecord)
    requires AllIn(rows, byRow)
    ensures Carries(MessagesIn(StreamedMessages(x, rows, byRow), render), StreamedKeys(rows, byRow), render)
  {
    if rows != [] {
      var n := |rows| - 1;
      StreamedCarries(x, rows[..n], byRow, render);
      var m := StreamedRecord(x, rows[n], byRow[OrMinusOne(rows[n].id)], byRow);
      MessagesInMore(StreamedMessages(x, rows[..n], byRow), AMessage(m), render);
      assert StreamedKeys(rows, byRow)[..n] == StreamedKeys(rows[..n], byRow);
      assert m.stableKey == StreamedKeys(rows, byRow)[n];
    }
  }

  predicate DistinctSeq(keys: seq<StableKey>) {
    forall i, j :: 0 <= i < j < |keys| ==> keys[i] != keys[j]
  }

  lemma CarriedKeysAreDistinct(records: seq<TextImport.MessageRecord>, keys: seq<StableKey>,
                               render: Message -> TextImport.MessageRecord)
    requires Renders(render) && Carries(records, keys, render)
    ensures ReplyResolution.DistinctKeys(records) <==> DistinctSeq(keys)
  {
    forall i, j | 0 <= i < j < |keys| ensures records[i].stableKey == records[j].stableKey <==> keys[i] == keys[j] {
      var m: Message :| m.stableKey == keys[i] && records[i] == render(m);
      var n: Message :| n.stableKey == keys[j] && records[j] == render(n);
    }
  }

  lemma AllPrepared(x: Extraction)
    ensures AllIn(x.messages, PrepareAll(x, |x.messages|))
  {
    forall i | 0 <= i < |x.messages| ensures OrMinusOne(x.messages[i].id) in PrepareAll(x, |x.messages|) {
      OnlyRowsAreFound(x, |x.messages|, OrMinusOne(x.messages[i].id));
    }
  }

  /** Of one row id only the last row's key is kept, and every row of that id gets it. */
  lemma StreamedPair(x: Extraction, i: nat, j: nat)
    requires i < j < |x.messages| && AllIn(x.messages, PrepareAll(x, |x.messages|))
    ensures var keys := StreamedKeys(x.messages, PrepareAll(x, |x.messages|));
            && (OrMinusOne(x.messages[i].id) == OrMinusOne(x.messages[j].id) ==> keys[i] == keys[j])
            && (DistinctRows(x) ==> (keys[i] == keys[j] <==> Repeat(x, i, j)))
  {
    if DistinctRows(x) {
      RowIsFound(x, |x.messages|, i);
      RowIsFound(x, |x.messages|, j);
      KeysCoincideExactly(x, i, j);
    }
  }

  lemma StreamedKeysRepeatExactly(x: Extraction)
    requires AllIn(x.messages, PrepareAll(x, |x.messages|))
    ensures DistinctSeq(StreamedKeys(x.messages, PrepareAll(x, |x.messages|))) <==> DistinctRows(x) && NoRepeats(x)
  {
    var keys := StreamedKeys(x.messages, PrepareAll(x, |x.messages|));
    forall i, j | 0 <= i < j < |keys|
      ensures OrMinusOne(x.messages[i].id) == OrMinusOne(x.messages[j].id) ==> keys[i] == keys[j]
      ensures DistinctRows(x) ==> (keys[i] == keys[j] <==> Repeat(x, i, j))
    {
      StreamedPair(x, i, j);
    }
  }

  lemma OnlyMessagesArrive(x: Extraction, render: Message -> TextImport.MessageRecord) returns (r: seq<TextImport.MessageRecord>)
    ensures r == MessagesIn(StreamedRecords(x), render)
    ensures r == MessagesIn(StreamedMessages(x, x.messages, PrepareAll(x, |x.messages|)), render)
  {
    var byRow := PrepareAll(x, |x.messages|);
    var keys := PreparedKeys(byRow);
    MessagesInConcat(StreamedMessages(x, x.messages, byRow), RevisionsOf(x, x.edits, keys), render);
    RevisionsAreNoMessages(x, x.edits, keys, render);
    r := MessagesIn(StreamedMessages(x, x.messages, byRow), render);
  }

  lemma ArrivingCarry(x: Extraction, render: Message -> TextImport.MessageRecord)
    returns (r: seq<TextImport.MessageRecord>, keys: seq<StableKey>)
    ensures r == MessagesIn(StreamedRecords(x), render)
    ensures Carries(r, keys, render) && (DistinctSeq(keys) <==> DistinctRows(x) && NoRepeats(x))
  {
    var byRow := PrepareAll(x, |x.messages|);
    AllPrepared(x);
    r := OnlyMessagesArrive(x, render);
    keys := StreamedKeys(x.messages, byRow);
    StreamedCarries(x, x.messages, byRow, render);
    StreamedKeysRepeatExactly(x);
  }

  /** The messages that reach the import have distinct keys, exactly when no two rows have one
      row id, one identity, or one conversation and time after both were refused their keys. */
  lemma StreamedKeysAreDistinctExactly(x: Extraction, render: Message -> TextImport.MessageRecord)
    requires Renders(render)
    ensures ReplyResolution.DistinctKeys(MessagesIn(StreamedRecords(x), render)) <==> DistinctRows(x) && NoRepeats(x)
  {
    var r, keys := ArrivingCarry(x, render);
    CarriedKeysAreDistinct(r, keys, render);
  }
}
