/** Durable message keys and the registry that refuses to let two records share one. */
module MessageIdentity {
  import opened Basics

  datatype Direction = Sent | Received | UnknownDirection

  datatype Kind =
    | TextKind | Image | Audio | Video | Contact | Location | Document | Sticker | Reaction | System | Unsupported

  /** The source's name of a chat: its JID, or its damaged row reference. */
  datatype ChatRef = Jid(jid: Text) | DamagedChat(row: Option<int>)

  /** A conversation key is a hash of these. */
  datatype Conversation = Conversation(account: Text, chat: ChatRef)

  /** A native id as it is hashed. A stanza id is marked by a prefix, which a source may
      happen to have given one of its own ids: both are then the same string. */
  datatype NativeId = Plain(text: Text) | Stanza(id: Text)

  /** Source and stanza ids arrive trimmed; a blank one is absent. */
  datatype IdentityInput = IdentityInput(
    adapter: Text,
    account: Option<Text>,
    conversation: Conversation,
    sourceChat: Option<ChatRef>,
    sender: Option<Text>,
    timestamp: Option<Text>,
    direction: Direction,
    kind: Kind,
    sourceId: Option<NativeId>,
    stanzaId: Option<Text>)

  datatype Chat = Raw(ref: ChatRef) | Hashed(key: Conversation)

  /** Every key is a hash, so it stands for what is hashed. */
  datatype StableKey =
    | SourceKey(account: Text, chat: Chat, native: NativeId)
    | FallbackKey(adapter: Text, owner: Text, conversation: Conversation, sender: Text, at: Text,
                  direction: Direction, kind: Kind)
    | CollisionKey(scope: Text, of: Conversation, when: Option<Text>)

  datatype Canonical = Canonical(
    adapter: Text, account: Text, sourceId: Option<NativeId>, stanzaId: Option<Text>, conversation: Conversation,
    sender: Option<Text>, timestamp: Option<Text>, direction: Direction, kind: Kind)

  const DEFAULT_SCOPE: Text := 1

  function ScopeOf(input: IdentityInput): Text {
    if input.account.Some? then input.account.value else DEFAULT_SCOPE
  }

  function ChatOf(input: IdentityInput): Chat {
    if input.sourceChat.Some? then Raw(input.sourceChat.value) else Hashed(input.conversation)
  }

  function OrEmpty(t: Option<Text>): Text {
    if t.Some? then t.value else EMPTY_TEXT
  }

  /** The source's id, else its stanza id, else the normalized fields. */
  function DeriveMessageIdentity(input: IdentityInput): StableKey {
    if input.sourceId.Some? then SourceKey(ScopeOf(input), ChatOf(input), input.sourceId.value)
    else if input.stanzaId.Some? then SourceKey(ScopeOf(input), ChatOf(input), Stanza(input.stanzaId.value))
    else FallbackKey(input.adapter, ScopeOf(input), input.conversation, OrEmpty(input.sender), OrEmpty(input.timestamp),
                     input.direction, input.kind)
  }

  function CanonicalInput(input: IdentityInput): Canonical {
    Canonical(input.adapter, ScopeOf(input), input.sourceId, input.stanzaId, input.conversation, input.sender,
              input.timestamp, input.direction, input.kind)
  }

  type Records = map<StableKey, Canonical>

  function Accepts(records: Records, input: IdentityInput): bool {
    var key := DeriveMessageIdentity(input);
    key in records ==> records[key] == CanonicalInput(input)
  }

  function Registered(records: Records, input: IdentityInput): Records {
    if Accepts(records, input) then records[DeriveMessageIdentity(input) := CanonicalInput(input)] else records
  }

  class MessageIdentityRegistry {
    var records: Records

    constructor ()
      ensures records == map[]
    {
      records := map[];
    }

    /** None is a collision. */
    method Register(input: IdentityInput) returns (accepted: Option<StableKey>)
      modifies this
      ensures records == Registered(old(records), input)
      ensures accepted == if Accepts(old(records), input) then Some(DeriveMessageIdentity(input)) else None
    {
      var key := DeriveMessageIdentity(input);
      var canonical := CanonicalInput(input);
      if key in records && records[key] != canonical {
        return None;
      }
      records := records[key := canonical];
      accepted := Some(key);
    }
  }

  /** A source id that looks like a marked stanza id takes that stanza's key, and whichever of
      the two is registered second is refused. */
  lemma MarkedIdsCollide(records: Records, source: IdentityInput, stanza: IdentityInput)
    requires stanza.sourceId.None? && stanza.stanzaId.Some? && source.sourceId == Some(Stanza(stanza.stanzaId.value))
    requires ScopeOf(source) == ScopeOf(stanza) && ChatOf(source) == ChatOf(stanza)
    ensures DeriveMessageIdentity(source) == DeriveMessageIdentity(stanza)
    ensures Accepts(records, source) ==> !Accepts(Registered(records, source), stanza)
    ensures Accepts(records, stanza) ==> !Accepts(Registered(records, stanza), source)
  {
  }

  // ------------------------------------------------------- sequences of registrations

  function RecordsAfter(inputs: seq<IdentityInput>): Records {
    if inputs == [] then map[] else Registered(RecordsAfter(inputs[..|inputs| - 1]), inputs[|inputs| - 1])
  }

  predicate AcceptedAt(inputs: seq<IdentityInput>, i: nat)
    requires i < |inputs|
  {
    Accepts(RecordsAfter(inputs[..i]), inputs[i])
  }

  /** The registry remembers the first input of each key, for ever. */
  lemma {:induction false} RemembersTheFirst(inputs: seq<IdentityInput>, key: StableKey)
    ensures key in RecordsAfter(inputs) <==> exists i :: 0 <= i < |inputs| && DeriveMessageIdentity(inputs[i]) == key
    ensures key in RecordsAfter(inputs) ==>
              exists i :: 0 <= i < |inputs| && DeriveMessageIdentity(inputs[i]) == key
                          && CanonicalInput(inputs[i]) == RecordsAfter(inputs)[key]
                          && forall j :: 0 <= j < i ==> DeriveMessageIdentity(inputs[j]) != key
  {
    if inputs != [] {
      var n := |inputs| - 1;
      var before := inputs[..n];
      RemembersTheFirst(before, key);
      if key in RecordsAfter(before) {
        var i :| 0 <= i < n && DeriveMessageIdentity(before[i]) == key
                 && CanonicalInput(before[i]) == RecordsAfter(before)[key]
                 && forall j :: 0 <= j < i ==> DeriveMessageIdentity(before[j]) != key;
        assert inputs[i] == before[i] && forall j :: 0 <= j < i ==> inputs[j] == before[j];
      } else {
        assert forall j :: 0 <= j < n ==> inputs[j] == before[j];
        if DeriveMessageIdentity(inputs[n]) == key {
          assert inputs[n] == inputs[|inputs| - 1];
        }
      }
    }
  }

  lemma {:induction false} RecordsPersist(inputs: seq<IdentityInput>, n: nat, key: StableKey)
    requires n <= |inputs| && key in RecordsAfter(inputs[..n])
    ensures key in RecordsAfter(inputs) && RecordsAfter(inputs)[key] == RecordsAfter(inputs[..n])[key]
    decreases |inputs|
  {
    if n < |inputs| {
      assert inputs[..|inputs| - 1][..n] == inputs[..n];
      RecordsPersist(inputs[..|inputs| - 1], n, key);
    } else {
      assert inputs[..n] == inputs;
    }
  }

  lemma AcceptedIsRecorded(inputs: seq<IdentityInput>, i: nat)
    requires i < |inputs| && AcceptedAt(inputs, i)
    ensures DeriveMessageIdentity(inputs[i]) in RecordsAfter(inputs)
            && RecordsAfter(inputs)[DeriveMessageIdentity(inputs[i])] == CanonicalInput(inputs[i])
  {
    assert inputs[..i + 1][..i] == inputs[..i];
    RecordsPersist(inputs, i + 1, DeriveMessageIdentity(inputs[i]));
  }

  /** Two accepted registrations with one key have the same canonical input. */
  lemma AcceptedKeysAreHonest(inputs: seq<IdentityInput>, i: nat, j: nat)
    requires i < |inputs| && j < |inputs| && AcceptedAt(inputs, i) && AcceptedAt(inputs, j)
    ensures DeriveMessageIdentity(inputs[i]) == DeriveMessageIdentity(inputs[j])
            ==> CanonicalInput(inputs[i]) == CanonicalInput(inputs[j])
  {
    AcceptedIsRecorded(inputs, i);
    AcceptedIsRecorded(inputs, j);
  }

  /** A registration collides exactly when an earlier accepted one has its key and another
      canonical input. */
  lemma CollidesExactly(inputs: seq<IdentityInput>, i: nat)
    requires i < |inputs|
    ensures !AcceptedAt(inputs, i) <==>
            exists j :: 0 <= j < i && AcceptedAt(inputs, j)
                        && DeriveMessageIdentity(inputs[j]) == DeriveMessageIdentity(inputs[i])
                        && CanonicalInput(inputs[j]) != CanonicalInput(inputs[i])
  {
    var key := DeriveMessageIdentity(inputs[i]);
    var before := inputs[..i];
    RemembersTheFirst(before, key);
    if key in RecordsAfter(before) {
      var f :| 0 <= f < i && DeriveMessageIdentity(before[f]) == key && CanonicalInput(before[f]) == RecordsAfter(before)[key]
               && forall j :: 0 <= j < f ==> DeriveMessageIdentity(before[j]) != key;
      assert before[..f] == inputs[..f];
      RemembersTheFirst(inputs[..f], key);
      assert AcceptedAt(inputs, f);
    }
    forall j | 0 <= j < i && AcceptedAt(inputs, j) && DeriveMessageIdentity(inputs[j]) == key
      ensures key in RecordsAfter(before) && RecordsAfter(before)[key] == CanonicalInput(inputs[j])
    {
      assert before[..j] == inputs[..j];
      AcceptedIsRecorded(before, j);
    }
  }
}
