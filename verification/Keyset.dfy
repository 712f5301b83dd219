/** Keyset pagination: the SQL cursor predicates against their ORDER BY, and the walk that
    follows cursors from the first page to the last. */
module Keyset {
  import opened Basics
  import opened ReadCursors

  // ---------------------------------------------------------- SQL's three-valued logic

  datatype Truth = True | False | Unknown

  function And(a: Truth, b: Truth): Truth {
    if a.False? || b.False? then False else if a.Unknown? || b.Unknown? then Unknown else True
  }

  function Or(a: Truth, b: Truth): Truth {
    if a.True? || b.True? then True else if a.Unknown? || b.Unknown? then Unknown else False
  }

  function Of(b: bool): Truth {
    if b then True else False
  }

  function Eq(a: Option<int>, b: Option<int>): Truth {
    if a.None? || b.None? then Unknown else Of(a.value == b.value)
  }

  /** `a > b`, or `a < b` when reading backward. */
  function Beyond(d: Direction, a: Option<int>, b: Option<int>): Truth {
    if a.None? || b.None? then Unknown else Of(if d.Forward? then a.value > b.value else a.value < b.value)
  }

  function IsNull(a: Option<int>): int {
    if a.None? then 1 else 0
  }

  // ------------------------------------------------------------------------- the rows

  datatype Row =
    | ConversationRow(id: Uuid, createdAt: Time)
    | PersonRow(id: Uuid, displayName: Option<Text>)
    | MessageRow(id: Uuid, sentAt: Option<Time>, received: Time)
    | MediaRow(id: Uuid, createdAt: Time)
    | TimelineRow(id: Uuid, kind: EventKind, occurredAt: Time)
    | SearchRow(id: Uuid, sentAt: Option<Time>, score: int)

  function KindOf(row: Row): ReadKind {
    match row
    case ConversationRow(_, _) => Conversations
    case PersonRow(_, _) => People
    case MessageRow(_, _, _) => Messages
    case MediaRow(_, _) => Media
    case TimelineRow(_, _, _) => Timeline
    case SearchRow(_, _, _) => Search
  }

  function SortOf(kind: ReadKind): ReadSort {
    match kind
    case Conversations => ByCreated
    case People => ByName
    case Messages => BySent
    case Media => ByCreated
    case Timeline => ByOccurred
    case Search => ByScore
  }

  /** `COALESCE("sentAt", "createdAt")` */
  function SortTime(row: Row): Time
    requires row.MessageRow?
  {
    if row.sentAt.Some? then row.sentAt.value else row.received
  }

  function KindRank(k: EventKind): int {
    if k.MediaEvent? then 0 else 1
  }

  /** The cursor values that a page takes from its last row. */
  function CursorOf(row: Row): seq<CursorValue> {
    match row
    case ConversationRow(id, at) => [Iso(at), Name(id)]
    case PersonRow(id, name) => [Rank(IsNull(name)), if name.Some? then Name(name.value) else Null, Name(id)]
    case MessageRow(id, _, _) => [Iso(SortTime(row)), Name(id)]
    case MediaRow(id, at) => [Iso(at), Name(id)]
    case TimelineRow(id, kind, at) => [Iso(at), Kind(kind), Name(id)]
    case SearchRow(id, sent, score) =>
      [Score(score), Rank(IsNull(sent)), if sent.Some? then Iso(sent.value) else Null, Name(id)]
  }

  /** What a cursor value is compared as, once cast; NULL for null. */
  function Cast(v: CursorValue): Option<int> {
    match v
    case Null => None
    case Rank(n) => Some(n)
    case Name(t) => Some(t)
    case Iso(t) => Some(t)
    case Kind(k) => Some(KindRank(k))
    case Score(s) => Some(s)
  }

  // ------------------------------------------------------------- the cursor predicates

  /** `at > A OR (at = A AND id > I)` */
  function ByTimePredicate(d: Direction, at: int, id: int, after: seq<CursorValue>): Truth
    requires |after| == 2
  {
    Or(Beyond(d, Some(at), Cast(after[0])),
       And(Eq(Some(at), Cast(after[0])), Beyond(d, Some(id), Cast(after[1]))))
  }

  /** The null rank first; a cursor without a value compares ids alone. */
  function NullablePredicate(d: Direction, value: Option<int>, id: int, after: seq<CursorValue>): Truth
    requires |after| == 3
  {
    var rank := Cast(after[0]);
    var here := Some(IsNull(value));
    Or(Beyond(d, here, rank),
       And(Eq(here, rank),
           Or(if rank == Some(0) then Beyond(d, value, Cast(after[1])) else False,
              And(if rank == Some(0) then Eq(value, Cast(after[1])) else True,
                  Beyond(d, Some(id), Cast(after[2]))))))
  }

  function TimelinePredicate(d: Direction, at: int, kind: int, id: int, after: seq<CursorValue>): Truth
    requires |after| == 3
  {
    Or(Beyond(d, Some(at), Cast(after[0])),
       And(Eq(Some(at), Cast(after[0])),
           Or(Beyond(d, Some(kind), Cast(after[1])),
              And(Eq(Some(kind), Cast(after[1])), Beyond(d, Some(id), Cast(after[2]))))))
  }

  function Opposite(d: Direction): Direction {
    if d.Forward? then Backward else Forward
  }

  /** Scores fall while everything else rises. */
  function SearchPredicate(d: Direction, score: int, sent: Option<int>, id: int, after: seq<CursorValue>): Truth
    requires |after| == 4
  {
    And(if Eq(Some(id), Cast(after[3])).True? then False else True,
        Or(Beyond(Opposite(d), Some(score), Cast(after[0])),
           And(Eq(Some(score), Cast(after[0])), NullablePredicate(d, sent, id, after[1..]))))
  }

  /** Whether a row passes the predicate: it must be true, not merely unknown. */
  predicate Passes(d: Direction, row: Row, after: seq<CursorValue>) {
    match row
    case ConversationRow(id, at) => |after| == 2 && ByTimePredicate(d, at, id, after).True?
    case PersonRow(id, name) => |after| == 3 && NullablePredicate(d, name, id, after).True?
    case MessageRow(id, _, _) => |after| == 2 && ByTimePredicate(d, SortTime(row), id, after).True?
    case MediaRow(id, at) => |after| == 2 && ByTimePredicate(d, at, id, after).True?
    case TimelineRow(id, kind, at) => |after| == 3 && TimelinePredicate(d, at, KindRank(kind), id, after).True?
    case SearchRow(id, sent, score) => |after| == 4 && SearchPredicate(d, score, sent, id, after).True?
  }

  // ------------------------------------------------------------------- the ORDER BYs

  /** Lexicographic order of the ORDER BY columns, ascending. */
  predicate Lex(a: seq<int>, b: seq<int>)
    requires |a| == |b|
  {
    a != [] && (a[0] < b[0] || (a[0] == b[0] && Lex(a[1..], b[1..])))
  }

  /** The ORDER BY columns of a forward read. A null sorts by its null rank alone. */
  function Columns(row: Row): (c: seq<int>)
    ensures row.SearchRow? ==> |c| == 4
    ensures row.PersonRow? || row.TimelineRow? ==> |c| == 3
    ensures row.ConversationRow? || row.MessageRow? || row.MediaRow? ==> |c| == 2
  {
    match row
    case ConversationRow(id, at) => [at, id]
    case PersonRow(id, name) => [IsNull(name), if name.Some? then name.value else 0, id]
    case MessageRow(id, _, _) => [SortTime(row), id]
    case MediaRow(id, at) => [at, id]
    case TimelineRow(id, kind, at) => [at, KindRank(kind), id]
    case SearchRow(id, sent, score) => [-score, IsNull(sent), if sent.Some? then sent.value else 0, id]
  }

  predicate Ordered(d: Direction, a: Row, b: Row) {
    KindOf(a) == KindOf(b) && if d.Forward? then Lex(Columns(a), Columns(b)) else Lex(Columns(b), Columns(a))
  }

  lemma LexTwo(a: seq<int>, b: seq<int>)
    requires |a| == |b| == 2
    ensures Lex(a, b) <==> a[0] < b[0] || (a[0] == b[0] && a[1] < b[1])
  {
    assert Lex(a[1..], b[1..]) <==> a[1] < b[1] by {
      assert a[1..][1..] == [];
    }
  }

  lemma LexUnfolds(a: seq<int>, b: seq<int>)
    requires |a| == |b| >= 1
    ensures Lex(a, b) <==> a[0] < b[0] || (a[0] == b[0] && Lex(a[1..], b[1..]))
  {
  }

  lemma LexThree(a: seq<int>, b: seq<int>)
    requires |a| == |b| == 3
    ensures Lex(a, b) <==> a[0] < b[0] || (a[0] == b[0] && (a[1] < b[1] || (a[1] == b[1] && a[2] < b[2])))
  {
    LexTwo(a[1..], b[1..]);
  }

  lemma NullableIsTheOrder(d: Direction, a: Option<int>, i: int, b: Option<int>, j: int, after: seq<CursorValue>)
    requires |after| == 3 && after[0] == Rank(IsNull(a)) && Cast(after[1]) == a && Cast(after[2]) == Some(i)
    ensures var x, y := [IsNull(a), if a.Some? then a.value else 0, i], [IsNull(b), if b.Some? then b.value else 0, j];
            NullablePredicate(d, b, j, after).True? <==> if d.Forward? then Lex(x, y) else Lex(y, x)
  {
    var x, y := [IsNull(a), if a.Some? then a.value else 0, i], [IsNull(b), if b.Some? then b.value else 0, j];
    LexThree(x, y);
    LexThree(y, x);
  }

  lemma SearchIsTheOrder(d: Direction, a: Row, b: Row)
    requires a.SearchRow? && b.SearchRow?
    requires a.id == b.id ==> a == b
    ensures Passes(d, b, CursorOf(a)) <==> Ordered(d, a, b)
  {
    var after := CursorOf(a);
    NullableIsTheOrder(d, a.sentAt, a.id, b.sentAt, b.id, after[1..]);
    LexUnfolds(Columns(a), Columns(b));
    LexUnfolds(Columns(b), Columns(a));
    assert Columns(a)[1..] == [IsNull(a.sentAt), if a.sentAt.Some? then a.sentAt.value else 0, a.id];
    assert Columns(b)[1..] == [IsNull(b.sentAt), if b.sentAt.Some? then b.sentAt.value else 0, b.id];
    LexThree(Columns(a)[1..], Columns(b)[1..]);
    LexThree(Columns(b)[1..], Columns(a)[1..]);
  }

  /** Each cursor predicate is exactly the strict order of its ORDER BY, null ranks and SQL
      unknowns included, in both directions. */
  lemma PredicateIsTheOrder(d: Direction, a: Row, b: Row)
    requires KindOf(a) == KindOf(b)
    requires a.SearchRow? && a.id == b.id ==> a == b
    ensures Passes(d, b, CursorOf(a)) <==> Ordered(d, a, b)
  {
    if a.SearchRow? {
      SearchIsTheOrder(d, a, b);
    } else if a.PersonRow? {
      NullableIsTheOrder(d, a.displayName, a.id, b.displayName, b.id, CursorOf(a));
    } else if a.TimelineRow? {
      LexThree(Columns(a), Columns(b));
      LexThree(Columns(b), Columns(a));
    } else {
      LexTwo(Columns(a), Columns(b));
      LexTwo(Columns(b), Columns(a));
    }
  }

  lemma {:induction false} LexIsTransitive(a: seq<int>, b: seq<int>, c: seq<int>)
    requires |a| == |b| == |c| && Lex(a, b) && Lex(b, c)
    ensures Lex(a, c)
  {
    if a[0] == b[0] == c[0] {
      LexIsTransitive(a[1..], b[1..], c[1..]);
    }
  }

  lemma {:induction false} LexIsTotal(a: seq<int>, b: seq<int>)
    requires |a| == |b|
    ensures !(Lex(a, b) && Lex(b, a)) && (Lex(a, b) || Lex(b, a) || a == b)
  {
    if a != [] {
      LexIsTotal(a[1..], b[1..]);
      assert a == [a[0]] + a[1..] && b == [b[0]] + b[1..];
    }
  }

  /** Each ORDER BY is a strict order that leaves no two rows tied: their ids differ. */
  lemma OrderIsStrictAndTotal(d: Direction, a: Row, b: Row, c: Row)
    requires KindOf(a) == KindOf(b) == KindOf(c)
    ensures !Ordered(d, a, a)
    ensures Ordered(d, a, b) && Ordered(d, b, c) ==> Ordered(d, a, c)
    ensures a.id != b.id ==> Ordered(d, a, b) || Ordered(d, b, a)
  {
    LexIsTotal(Columns(a), Columns(a));
    LexIsTotal(Columns(a), Columns(b));
    if Ordered(d, a, b) && Ordered(d, b, c) {
      if d.Forward? {
        LexIsTransitive(Columns(a), Columns(b), Columns(c));
      } else {
        LexIsTransitive(Columns(c), Columns(b), Columns(a));
      }
    }
    assert Columns(a)[|Columns(a)| - 1] == a.id && Columns(b)[|Columns(b)| - 1] == b.id;
  }

  /** A named one before a nameless one, then the lesser name; ids break ties. */
  predicate NullsLast(a: Option<int>, i: int, b: Option<int>, j: int) {
    (a != None && b == None) || (a != None && b != None && a.value < b.value) || (a == b && i < j)
  }

  predicate TimeThenId(a: int, i: int, b: int, j: int) {
    a < b || (a == b && i < j)
  }

  /** When a message was sent, or, if that is unknown, when it was received. */
  predicate DatedAt(row: Row, at: Time)
    requires row.MessageRow?
  {
    row.sentAt == Some(at) || (row.sentAt == None && at == row.received)
  }

  /** Which of two rows a forward read shows first. */
  ghost predicate ShownBefore(a: Row, b: Row) {
    match a
    case ConversationRow(i, at) => b.ConversationRow? && TimeThenId(at, i, b.createdAt, b.id)
    case MediaRow(i, at) => b.MediaRow? && TimeThenId(at, i, b.createdAt, b.id)
    case MessageRow(i, _, _) =>
      b.MessageRow? && exists s, t :: DatedAt(a, s) && DatedAt(b, t) && TimeThenId(s, i, t, b.id)
    case PersonRow(i, name) => b.PersonRow? && NullsLast(name, i, b.displayName, b.id)
    case TimelineRow(i, kind, at) =>
      b.TimelineRow?
      && (at < b.occurredAt
          || (at == b.occurredAt && ((kind == MediaEvent && b.kind == MessageEvent) || (kind == b.kind && i < b.id))))
    case SearchRow(i, sent, score) =>
      b.SearchRow? && (score > b.score || (score == b.score && NullsLast(sent, i, b.sentAt, b.id)))
  }

  /** The ORDER BY of each read, in terms of its rows. */
  lemma OrderTells(d: Direction, a: Row, b: Row)
    requires KindOf(a) == KindOf(b)
    ensures Ordered(d, a, b) <==> if d == Forward then ShownBefore(a, b) else ShownBefore(b, a)
  {
    forall x, y | KindOf(x) == KindOf(y) ensures Lex(Columns(x), Columns(y)) <==> ShownBefore(x, y) {
      OneOrderTells(x, y);
    }
  }

  lemma OneOrderTells(a: Row, b: Row)
    requires KindOf(a) == KindOf(b)
    ensures Lex(Columns(a), Columns(b)) <==> ShownBefore(a, b)
  {
    match a
    case ConversationRow(_, _) => LexTwo(Columns(a), Columns(b));
    case MediaRow(_, _) => LexTwo(Columns(a), Columns(b));
    case MessageRow(_, _, _) =>
      LexTwo(Columns(a), Columns(b));
      assert DatedAt(a, SortTime(a)) && DatedAt(b, SortTime(b));
    case PersonRow(_, _) => LexThree(Columns(a), Columns(b));
    case TimelineRow(_, _, _) => LexThree(Columns(a), Columns(b));
    case SearchRow(_, _, _) =>
      LexUnfolds(Columns(a), Columns(b));
      LexThree(Columns(a)[1..], Columns(b)[1..]);
  }

  // --------------------------------------------------------------------- one page

  datatype Request = Request(archive: Text, limit: Option<int>, cursor: Option<Cursor>, direction: Option<Direction>)
  datatype Page = Page(items: seq<Row>, hasMore: bool, next: Option<Cursor>)
  datatype ListResult = Listed(page: Page) | Invalid | CursorFailed(error: CursorError)

  /** What a read is bound to: its kind, its resource and the hash of its filters. */
  datatype Read = Read(kind: ReadKind, resource: Option<Text>, filterKey: Text)

  const DEFAULT_READ_LIMIT := 50
  const MAX_READ_LIMIT := 100

  function LimitOf(r: Request): int {
    if r.limit.Some? then r.limit.value else DEFAULT_READ_LIMIT
  }

  function DirectionOf(r: Request): Direction {
    if r.direction.Some? then r.direction.value else Forward
  }

  function Reverse<T>(s: seq<T>): (r: seq<T>)
    ensures |r| == |s| && forall i :: 0 <= i < |s| ==> r[i] == s[|s| - 1 - i]
  {
    if s == [] then [] else Reverse(s[1..]) + [s[0]]
  }

  /** The rows in the order of an ORDER BY, given those of the forward one. */
  function Listing(d: Direction, table: seq<Row>): seq<Row> {
    if d.Forward? then table else Reverse(table)
  }

  function Filter(d: Direction, rows: seq<Row>, after: seq<CursorValue>): seq<Row> {
    if rows == [] then []
    else (if Passes(d, rows[0], after) then [rows[0]] else []) + Filter(d, rows[1..], after)
  }

  /** WHERE cursor ORDER BY ... LIMIT */
  function Query(d: Direction, table: seq<Row>, after: Option<seq<CursorValue>>, limit: nat): seq<Row> {
    var rows := Listing(d, table);
    var found := if after.Some? then Filter(d, rows, after.value) else rows;
    if |found| <= limit then found else found[..limit]
  }

  /** A page and, when there are more rows, the cursor of its last one. */
  function PageOf(codec: Codec, now: int, read: Read, archive: Text, d: Direction, rows: seq<Row>, limit: nat): ListResult {
    var items := if |rows| > limit then rows[..limit] else rows;
    if |rows| <= limit || items == [] then Listed(Page(items, |rows| > limit, None))
    else
      var last := items[|items| - 1];
      var next := Encode(codec, now, archive, d,
                         Position(read.kind, read.resource, SortOf(read.kind), CursorOf(last), read.filterKey));
      if next.None? then CursorFailed(InvalidCursor) else Listed(Page(items, true, next))
  }

  /** The list and search operations of the read service. */
  function ListRows(codec: Codec, now: int, read: Read, request: Request, table: seq<Row>): ListResult {
    var limit, d := LimitOf(request), DirectionOf(request);
    if request.archive == EMPTY_TEXT || limit < 1 || limit > MAX_READ_LIMIT then Invalid
    else if request.cursor.None?
    then PageOf(codec, now, read, request.archive, d, Query(d, table, None, limit + 1), limit)
    else
      var expected := Expectation(read.kind, d, read.resource, read.filterKey);
      match Decode(codec, now, request.cursor.value, request.archive, expected)
      case Refused(error) => CursorFailed(error)
      case Decoded(position) =>
        if position.sort != SortOf(read.kind) then CursorFailed(InvalidCursor)
        else PageOf(codec, now, read, request.archive, d, Query(d, table, Some(position.values), limit + 1), limit)
  }

  /** A request is turned away for its archive or its limit exactly when it names none, or asks
      for fewer than one row or more than a hundred. */
  lemma InvalidExactly(codec: Codec, now: int, read: Read, request: Request, table: seq<Row>)
    ensures ListRows(codec, now, read, request, table) == Invalid
            <==> request.archive == EMPTY_TEXT || (request.limit != None && !(1 <= request.limit.value <= 100))
  {
  }

  /** What a request leaves out is read as fifty rows, forward. */
  lemma DefaultsTell(codec: Codec, now: int, read: Read, request: Request, table: seq<Row>)
    ensures ListRows(codec, now, read, request, table)
            == ListRows(codec, now, read,
                        request.(limit := Some(if request.limit == None then 50 else request.limit.value),
                        direction := Some(if request.direction == None then Forward else request.direction.value)), table)
  {
  }

  // ----------------------------------------------------------------- the whole walk

  /** Rows of one read kind, strictly ascending by its ORDER BY. */
  predicate Sorted(kind: ReadKind, table: seq<Row>) {
    && (forall i :: 0 <= i < |table| ==> KindOf(table[i]) == kind)
    && (forall i, j :: 0 <= i < j < |table| ==> Ordered(Forward, table[i], table[j]) && table[i].id != table[j].id)
  }

  lemma ListingIsOrdered(d: Direction, kind: ReadKind, table: seq<Row>, i: nat, j: nat)
    requires Sorted(kind, table) && i < |table| && j < |table|
    ensures KindOf(Listing(d, table)[i]) == KindOf(Listing(d, table)[j]) == kind
    ensures Ordered(d, Listing(d, table)[i], Listing(d, table)[j]) <==> i < j
    ensures i != j ==> Listing(d, table)[i].id != Listing(d, table)[j].id
  {
    var n := |table|;
    var x, y := if d.Forward? then i else n - 1 - i, if d.Forward? then j else n - 1 - j;
    LexIsTotal(Columns(table[x]), Columns(table[y]));
    if x < y {
      assert Ordered(Forward, table[x], table[y]);
    } else if y < x {
      assert Ordered(Forward, table[y], table[x]);
    }
  }

  /** Keeping exactly the rows from position `k` on is cutting the listing there. */
  lemma {:induction false} FilterIsSuffix(d: Direction, rows: seq<Row>, after: seq<CursorValue>, k: nat)
    requires k <= |rows| && forall i :: 0 <= i < |rows| ==> (Passes(d, rows[i], after) <==> k <= i)
    ensures Filter(d, rows, after) == rows[k..]
  {
    if rows != [] {
      assert forall i :: 0 <= i < |rows| - 1 ==> rows[1..][i] == rows[i + 1];
      FilterIsSuffix(d, rows[1..], after, if k == 0 then 0 else k - 1);
      if k == 0 {
        assert rows == [rows[0]] + rows[1..];
      }
    }
  }

  lemma QueryAfter(d: Direction, kind: ReadKind, table: seq<Row>, k: nat, limit: nat)
    requires Sorted(kind, table) && k < |table|
    ensures var rows := Listing(d, table);
            Query(d, table, Some(CursorOf(rows[k])), limit)
            == if |rows| - k - 1 <= limit then rows[k + 1..] else rows[k + 1..][..limit]
  {
    var rows := Listing(d, table);
    forall i | 0 <= i < |rows| ensures Passes(d, rows[i], CursorOf(rows[k])) <==> k + 1 <= i {
      ListingIsOrdered(d, kind, table, k, i);
      PredicateIsTheOrder(d, rows[k], rows[i]);
    }
    FilterIsSuffix(d, rows, CursorOf(rows[k]), k + 1);
  }

  /** A client that follows cursors: the same read, page size and direction each time. */
  datatype Client = Client(codec: Codec, read: Read, archive: Text, limit: int, d: Direction)

  predicate Proper(c: Client) {
    c.archive != EMPTY_TEXT && c.read.filterKey != EMPTY_TEXT && 1 <= c.limit <= MAX_READ_LIMIT
  }

  function Ask(c: Client, now: int, cursor: Option<Cursor>, table: seq<Row>): ListResult {
    ListRows(c.codec, now, c.read, Request(c.archive, Some(c.limit), cursor, Some(c.d)), table)
  }

  /** Every step of a walk happens before the cursor of the one before it expires. */
  ghost predicate InTime(codec: Codec, clock: nat -> int) {
    forall n: nat :: IsSafe(clock(n)) && IsSafe(clock(n) + codec.ttl) && clock(n + 1) < clock(n) + codec.ttl
  }

  type Asker = (nat, Option<Cursor>) -> ListResult

  /** The pages that follow, each asked for with the cursor of the last; None if one fails. */
  function Walk(ask: Asker, cursor: Option<Cursor>, step: nat, requests: nat): Option<(seq<seq<Row>>, bool)>
    decreases requests
  {
    if requests == 0 then Some(([], false))
    else
      var r := ask(step, cursor);
      if !r.Listed? then None
      else if r.page.next.None? then Some(([r.page.items], true))
      else
        var rest := Walk(ask, r.page.next, step + 1, requests - 1);
        if rest.None? then None else Some(([r.page.items] + rest.value.0, rest.value.1))
  }

  /** The cursor that a page ending before position `k` of the listing made. */
  function CursorTo(c: Client, now: int, table: seq<Row>, k: nat): Option<Cursor>
    requires 0 < k <= |table|
  {
    Encode(c.codec, now, c.archive, c.d, PositionAt(c, table, k))
  }

  function End(rows: seq<Row>, limit: nat, k: nat): (end: nat)
    requires k <= |rows|
    ensures k <= end <= |rows| && end - k <= limit && (end < |rows| ==> end == k + limit)
  {
    if |rows| - k <= limit then |rows| else k + limit
  }

  lemma RowsMakeCursors(row: Row)
    ensures IsCursorTuple(SortOf(KindOf(row)), CursorOf(row))
  {
  }

  lemma CursorExists(c: Client, now: int, table: seq<Row>, k: nat)
    requires Proper(c) && Sorted(c.read.kind, table) && 0 < k <= |table|
    ensures CursorTo(c, now, table, k).Some?
  {
    ListingIsOrdered(c.d, c.read.kind, table, k - 1, k - 1);
    RowsMakeCursors(Listing(c.d, table)[k - 1]);
  }

  /** One row more than the page, from position `k` on. */
  function Found(c: Client, table: seq<Row>, k: nat): seq<Row>
    requires Proper(c) && k <= |table|
  {
    var rows := Listing(c.d, table);
    if |rows| - k <= c.limit + 1 then rows[k..] else rows[k..][..c.limit + 1]
  }

  lemma AskFirst(c: Client, now: int, table: seq<Row>)
    requires Proper(c)
    ensures Ask(c, now, None, table) == PageOf(c.codec, now, c.read, c.archive, c.d, Found(c, table, 0), c.limit)
  {
    assert Listing(c.d, table)[0..] == Listing(c.d, table);
  }

  function PositionAt(c: Client, table: seq<Row>, k: nat): Position
    requires 0 < k <= |table|
  {
    Position(c.read.kind, c.read.resource, SortOf(c.read.kind), CursorOf(Listing(c.d, table)[k - 1]), c.read.filterKey)
  }

  lemma CursorLeadsBack(c: Client, issued: int, now: int, table: seq<Row>, k: nat)
    requires Proper(c) && Sorted(c.read.kind, table) && 0 < k <= |table|
    requires IsSafe(issued) && IsSafe(issued + c.codec.ttl) && now < issued + c.codec.ttl
    ensures CursorTo(c, issued, table, k).Some?
    ensures Decode(c.codec, now, CursorTo(c, issued, table, k).value, c.archive,
                   Expectation(c.read.kind, c.d, c.read.resource, c.read.filterKey)) == Decoded(PositionAt(c, table, k))
  {
    CursorExists(c, issued, table, k);
    DecodeUndoesEncodeExactly(c.codec, issued, now, c.archive, c.d, PositionAt(c, table, k), c.archive,
                              Expectation(c.read.kind, c.d, c.read.resource, c.read.filterKey));
  }

  lemma AskDecoded(c: Client, now: int, cursor: Cursor, position: Position, table: seq<Row>)
    requires Proper(c) && position.sort == SortOf(c.read.kind)
    requires Decode(c.codec, now, cursor, c.archive, Expectation(c.read.kind, c.d, c.read.resource, c.read.filterKey))
             == Decoded(position)
    ensures Ask(c, now, Some(cursor), table)
            == PageOf(c.codec, now, c.read, c.archive, c.d, Query(c.d, table, Some(position.values), c.limit + 1), c.limit)
  {
  }

  lemma FoundByQuery(c: Client, table: seq<Row>, k: nat)
    requires Proper(c) && Sorted(c.read.kind, table) && 0 < k <= |table|
    ensures Query(c.d, table, Some(PositionAt(c, table, k).values), c.limit + 1) == Found(c, table, k)
  {
    QueryAfter(c.d, c.read.kind, table, k - 1, c.limit + 1);
  }

  lemma AskNext(c: Client, issued: int, now: int, table: seq<Row>, k: nat)
    requires Proper(c) && Sorted(c.read.kind, table) && 0 < k <= |table|
    requires IsSafe(issued) && IsSafe(issued + c.codec.ttl) && now < issued + c.codec.ttl
    ensures Ask(c, now, CursorTo(c, issued, table, k), table)
            == PageOf(c.codec, now, c.read, c.archive, c.d, Found(c, table, k), c.limit)
  {
    CursorLeadsBack(c, issued, now, table, k);
    AskDecoded(c, now, CursorTo(c, issued, table, k).value, PositionAt(c, table, k), table);
    FoundByQuery(c, table, k);
  }

  /** One request returns the rows from `k` on and the cursor that goes on after them. */
  lemma PageAt(c: Client, now: int, table: seq<Row>, k: nat)
    requires Proper(c) && Sorted(c.read.kind, table) && k <= |table|
    ensures var end := End(Listing(c.d, table), c.limit, k);
            PageOf(c.codec, now, c.read, c.archive, c.d, Found(c, table, k), c.limit)
            == Listed(Page(Listing(c.d, table)[k..end], end < |table|, if end < |table| then CursorTo(c, now, table, end) else None))
  {
    var rows, end, found := Listing(c.d, table), End(Listing(c.d, table), c.limit, k), Found(c, table, k);
    if end < |table| {
      assert found[..c.limit] == rows[k..end];
      assert found[..c.limit][c.limit - 1] == rows[end - 1];
      CursorExists(c, now, table, end);
    } else {
      assert found == rows[k..end];
    }
  }

  /** Every page but the last is full. */
  predicate PagesFull(pages: seq<seq<Row>>, limit: int) {
    pages != [] && |pages[|pages| - 1]| <= limit && forall i :: 0 <= i < |pages| - 1 ==> |pages[i]| == limit
  }

  predicate Shows(w: Option<(seq<seq<Row>>, bool)>, rows: seq<Row>, limit: int) {
    w.Some? && w.value.1 && Flatten(w.value.0) == rows && PagesFull(w.value.0, limit)
  }

  lemma ShowsMore(items: seq<Row>, rest: seq<seq<Row>>, rows: seq<Row>, limit: int)
    requires Shows(Some((rest, true)), rows, limit) && |items| == limit
    ensures Shows(Some(([items] + rest, true)), items + rows, limit)
  {
    var pages := [items] + rest;
    assert pages[1..] == rest;
    assert pages[|pages| - 1] == rest[|rest| - 1];
    forall i | 0 <= i < |pages| - 1 ensures |pages[i]| == limit {
      assert i > 0 ==> pages[i] == rest[i - 1];
    }
  }

  predicate LeadsTo(c: Client, clock: nat -> int, table: seq<Row>, cursor: Option<Cursor>, step: nat, k: nat)
    requires k <= |table|
  {
    if k == 0 then cursor.None? else step > 0 && cursor == CursorTo(c, clock(step - 1), table, k)
  }

  lemma Turn(c: Client, clock: nat -> int, table: seq<Row>, cursor: Option<Cursor>, step: nat, k: nat)
    requires InTime(c.codec, clock) && Proper(c) && Sorted(c.read.kind, table) && k <= |table|
    requires LeadsTo(c, clock, table, cursor, step, k)
    ensures var end := End(Listing(c.d, table), c.limit, k);
            var next := if end < |table| then CursorTo(c, clock(step), table, end) else None;
            && (end < |table| ==> next.Some?)
            && Ask(c, clock(step), cursor, table) == Listed(Page(Listing(c.d, table)[k..end], end < |table|, next))
  {
    if k == 0 {
      AskFirst(c, clock(step), table);
    } else {
      assert clock((step - 1) + 1) < clock(step - 1) + c.codec.ttl;
      AskNext(c, clock(step - 1), clock(step), table, k);
    }
    PageAt(c, clock(step), table, k);
    if End(Listing(c.d, table), c.limit, k) < |table| {
      CursorExists(c, clock(step), table, End(Listing(c.d, table), c.limit, k));
    }
  }

  /** The answer to the cursor that leads to position `k`. */
  predicate AnswersAt(ask: Asker, lead: (nat, nat) -> Option<Cursor>, rows: seq<Row>, limit: nat, step: nat, k: nat)
    requires k <= |rows| && (k > 0 ==> step > 0)
  {
    var end := End(rows, limit, k);
    var next := if end < |rows| then lead(step, end) else None;
    && (end < |rows| ==> next.Some?)
    && ask(step, if k == 0 then None else lead(step - 1, k)) == Listed(Page(rows[k..end], end < |rows|, next))
  }

  ghost predicate Answers(ask: Asker, lead: (nat, nat) -> Option<Cursor>, rows: seq<Row>, limit: nat) {
    forall step: nat, k: nat :: k <= |rows| && (k > 0 ==> step > 0) ==> AnswersAt(ask, lead, rows, limit, step, k)
  }

  lemma {:induction false} WalkFrom(ask: Asker, lead: (nat, nat) -> Option<Cursor>, rows: seq<Row>, limit: nat,
                                    step: nat, k: nat, requests: nat)
    requires Answers(ask, lead, rows, limit) && limit > 0 && k <= |rows| && (k > 0 ==> step > 0) && requests > |rows| - k
    ensures Shows(Walk(ask, if k == 0 then None else lead(step - 1, k), step, requests), rows[k..], limit)
    decreases requests
  {
    var cursor := if k == 0 then None else lead(step - 1, k);
    var end := End(rows, limit, k);
    var r := ask(step, cursor);
    assert AnswersAt(ask, lead, rows, limit, step, k);
    if end < |rows| {
      WalkFrom(ask, lead, rows, limit, step + 1, end, requests - 1);
      ShowsMore(rows[k..end], Walk(ask, r.page.next, step + 1, requests - 1).value.0, rows[end..], limit);
      assert rows[k..] == rows[k..end] + rows[end..];
    } else {
      assert [rows[k..]][1..] == [];
      assert rows[k..end] == rows[k..];
    }
  }

  function AskAt(c: Client, clock: nat -> int, table: seq<Row>): Asker {
    (step: nat, cursor: Option<Cursor>) => Ask(c, clock(step), cursor, table)
  }

  function LeadAt(c: Client, clock: nat -> int, table: seq<Row>): (nat, nat) -> Option<Cursor> {
    (step: nat, k: nat) => if 0 < k <= |table| then CursorTo(c, clock(step), table, k) else None
  }

  lemma ServiceAnswers(c: Client, clock: nat -> int, table: seq<Row>)
    requires InTime(c.codec, clock) && Proper(c) && Sorted(c.read.kind, table)
    ensures Answers(AskAt(c, clock, table), LeadAt(c, clock, table), Listing(c.d, table), c.limit)
  {
    var ask, lead, rows := AskAt(c, clock, table), LeadAt(c, clock, table), Listing(c.d, table);
    forall step: nat, k: nat | k <= |rows| && (k > 0 ==> step > 0) ensures AnswersAt(ask, lead, rows, c.limit, step, k)
    {
      Turn(c, clock, table, if k == 0 then None else lead(step - 1, k), step, k);
    }
  }

  /** Following cursors from the first page over a fixed table ends after finitely many
      requests, having shown exactly the sorted rows, each once; backward, their reverse. */
  lemma WalkShowsEveryRowOnce(c: Client, clock: nat -> int, table: seq<Row>, requests: nat)
    requires InTime(c.codec, clock) && Proper(c) && Sorted(c.read.kind, table) && requests > |table|
    ensures Shows(Walk(AskAt(c, clock, table), None, 0, requests), if c.d.Forward? then table else Reverse(table), c.limit)
  {
    ServiceAnswers(c, clock, table);
    WalkFrom(AskAt(c, clock, table), LeadAt(c, clock, table), Listing(c.d, table), c.limit, 0, 0, requests);
    assert Listing(c.d, table)[0..] == Listing(c.d, table);
  }
}
