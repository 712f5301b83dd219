/** Signed read cursors: what encoding puts in, decoding gives back, to the same reader only. */
module ReadCursors {
  import opened Basics

  type Time = int

  /** A database id: never the empty string. */
  type Uuid = t: Text | t != EMPTY_TEXT witness 1

  datatype Direction = Forward | Backward
  datatype ReadKind = Conversations | People | Messages | Media | Timeline | Search
  datatype ReadSort = ByCreated | BySent | ByName | ByOccurred | ByScore
  datatype EventKind = MediaEvent | MessageEvent      // in text order

  /** A cursor value. Times, ids, scores and event kinds are all JSON strings. */
  datatype CursorValue = Null | Rank(n: int) | Name(text: Text) | Iso(time: Time) | Kind(kind: EventKind) | Score(score: int)

  predicate IsString(v: CursorValue) {
    v.Name? || v.Iso? || v.Kind? || v.Score?
  }

  const MAX_SAFE := 9007199254740991

  predicate IsSafe(n: int) {
    -MAX_SAFE <= n <= MAX_SAFE
  }

  /** A null rank of 0 comes with a value, a null rank of 1 with none. */
  predicate RankedNull(rank: CursorValue, value: CursorValue) {
    (rank == Rank(0) && IsString(value)) || (rank == Rank(1) && value == Null)
  }

  predicate IsCursorTuple(sort: ReadSort, values: seq<CursorValue>) {
    match sort
    case ByCreated => |values| == 2 && IsString(values[0]) && IsString(values[1])
    case BySent => |values| == 2 && IsString(values[0]) && IsString(values[1])
    case ByName => |values| == 3 && RankedNull(values[0], values[1]) && IsString(values[2])
    case ByOccurred => |values| == 3 && IsString(values[0]) && values[1].Kind? && IsString(values[2])
    case ByScore =>
      |values| == 4 && IsString(values[0]) && values[0] != Name(EMPTY_TEXT)
      && RankedNull(values[1], values[2]) && IsString(values[3])
  }

  datatype Position = Position(readKind: ReadKind, resource: Option<Text>, sort: ReadSort, values: seq<CursorValue>, filterKey: Text)
  datatype Payload = Payload(version: int, archive: Text, direction: Direction, position: Position, issuedAt: int, expiresAt: int)

  /** The HMAC of a body under a secret; only its holder can make it. */
  datatype Signature = Signature(secret: Text, body: Payload)

  /** What a client may present as a cursor. */
  datatype Cursor = Signed(body: Payload, signature: Signature) | Garbled

  datatype CursorError = InvalidCursor | WrongArchive
  datatype Decoded = Decoded(position: Position) | Refused(error: CursorError)

  datatype Codec = Codec(secret: Text, ttl: nat)
  datatype Expectation = Expectation(readKind: ReadKind, direction: Direction, resource: Option<Text>, filterKey: Text)

  const CURSOR_VERSION := 1

  function Encode(codec: Codec, now: int, archive: Text, direction: Direction, position: Position): Option<Cursor> {
    if archive == EMPTY_TEXT || !IsCursorTuple(position.sort, position.values) || position.filterKey == EMPTY_TEXT
    then None
    else
      var body := Payload(CURSOR_VERSION, archive, direction, position, now, now + codec.ttl);
      Some(Signed(body, Signature(codec.secret, body)))
  }

  function Decode(codec: Codec, now: int, cursor: Cursor, archive: Text, expected: Expectation): Decoded {
    if cursor.Garbled? || cursor.signature != Signature(codec.secret, cursor.body) then Refused(InvalidCursor)
    else
      var p := cursor.body;
      var at := p.position;
      if p.version != CURSOR_VERSION || !IsCursorTuple(at.sort, at.values) || at.filterKey == EMPTY_TEXT
         || !IsSafe(p.issuedAt) || !IsSafe(p.expiresAt) || now >= p.expiresAt
      then Refused(InvalidCursor)
      else if p.archive != archive then Refused(WrongArchive)
      else if at.readKind != expected.readKind || p.direction != expected.direction
              || at.resource != expected.resource || at.filterKey != expected.filterKey
      then Refused(InvalidCursor)
      else Decoded(at)
  }

  /** A cursor leads back to its position exactly while it lasts, in its archive and for the
      same read. */
  lemma DecodeUndoesEncodeExactly(codec: Codec, issued: int, now: int, archive: Text, direction: Direction,
                                  position: Position, where: Text, expected: Expectation)
    requires Encode(codec, issued, archive, direction, position).Some?
    ensures var cursor := Encode(codec, issued, archive, direction, position).value;
            && (Decode(codec, now, cursor, where, expected).Decoded?
                <==> && IsSafe(issued) && IsSafe(issued + codec.ttl) && now < issued + codec.ttl && where == archive
                     && expected == Expectation(position.readKind, direction, position.resource, position.filterKey))
            && (Decode(codec, now, cursor, where, expected).Decoded? ==>
                  Decode(codec, now, cursor, where, expected).position == position)
  {
  }

  /** One call of `encode`. */
  datatype Issue = Issue(time: int, archive: Text, direction: Direction, position: Position)

  function Issued(codec: Codec, i: Issue): Option<Cursor> {
    Encode(codec, i.time, i.archive, i.direction, i.position)
  }

  /** What a reader without the secret can put together from the cursors handed out: any body
      at all, under one of their signatures or under one made with another secret. */
  ghost predicate Presentable(codec: Codec, issues: set<Issue>, cursor: Cursor) {
    cursor.Garbled? || cursor.signature.secret != codec.secret
    || exists i :: i in issues && Issued(codec, i).Some? && Issued(codec, i).value.signature == cursor.signature
  }

  /** The issued cursor still leads to its position for this read. */
  predicate Serves(codec: Codec, i: Issue, now: int, archive: Text, expected: Expectation) {
    && IsSafe(i.time) && IsSafe(i.time + codec.ttl) && now < i.time + codec.ttl && i.archive == archive
    && expected == Expectation(i.position.readKind, i.direction, i.position.resource, i.position.filterKey)
  }

  /** Whatever a reader presents, it is led to a position exactly when it returns unaltered a
      cursor that was issued at that position, for this archive and read, and has not expired. */
  lemma OnlyIssuedCursorsLead(codec: Codec, issues: set<Issue>, cursor: Cursor, now: int, archive: Text,
                              expected: Expectation, position: Position)
    requires Presentable(codec, issues, cursor)
    ensures Decode(codec, now, cursor, archive, expected) == Decoded(position)
            <==> exists i :: i in issues && Issued(codec, i) == Some(cursor) && i.position == position
                             && Serves(codec, i, now, archive, expected)
  {
    if Decode(codec, now, cursor, archive, expected) == Decoded(position) {
      var i :| i in issues && Issued(codec, i).Some? && Issued(codec, i).value.signature == cursor.signature;
      DecodeUndoesEncodeExactly(codec, i.time, now, i.archive, i.direction, i.position, archive, expected);
    }
    if i :| i in issues && Issued(codec, i) == Some(cursor) && i.position == position && Serves(codec, i, now, archive, expected) {
      DecodeUndoesEncodeExactly(codec, i.time, now, i.archive, i.direction, i.position, archive, expected);
    }
  }
}
