/** The inbox of live receipts: enqueued once, claimed with an expiry, failed or retried,
    and committed by the import transaction that still holds the claim.

    Claims carry the claiming worker's own idea of the time, so nothing below assumes that
    the clocks of different workers agree or even advance. */
module LiveInbox {
  import opened Basics

  type ReceiptId = nat
  type ClaimId = nat
  type Time = int

  const MAX_ATTEMPTS: nat := 3
  const MAX_CLAIM_LIMIT: int := 100

  datatype Status = Pending | Processing | Normalized | Failed

  /** Receipts are counted per account of an archive; a receipt's id fixes its owner. */
  datatype Owner = Owner(archive: Text, account: Text)

  datatype Receipt = Receipt(
    owner: Owner,
    status: Status,
    attempts: nat,
    claim: Option<ClaimId>,
    claimExpiresAt: Option<Time>,
    receivedAt: Time)

  type Rows = map<ReceiptId, Receipt>

  /** Claimable now: pending with attempts left, or processing under an expired claim. */
  predicate Due(r: Receipt, now: Time) {
    (r.status.Pending? && r.attempts < MAX_ATTEMPTS)
    || (r.status.Processing? && r.claimExpiresAt.Some? && r.claimExpiresAt.value <= now)
  }

  /** The claim order: received first, ties broken by id. */
  predicate Earlier(rows: Rows, a: ReceiptId, b: ReceiptId)
    requires a in rows && b in rows
  {
    rows[a].receivedAt < rows[b].receivedAt || (rows[a].receivedAt == rows[b].receivedAt && a < b)
  }

  /** A poll may be confined to one archive. */
  predicate InScope(r: Receipt, archive: Option<Text>) {
    archive.Some? ==> r.owner.archive == archive.value
  }

  function ClaimLimit(limit: int): nat {
    Max(1, Min(MAX_CLAIM_LIMIT, limit))
  }

  /** What `ORDER BY receivedAt, id FOR UPDATE SKIP LOCKED LIMIT n` may select. */
  predicate Picks(rows: Rows, now: Time, limit: int, locked: set<ReceiptId>, archive: Option<Text>, chosen: set<ReceiptId>) {
    var candidates := set id | id in rows && Due(rows[id], now) && InScope(rows[id], archive) && id !in locked;
    && chosen <= candidates
    && |chosen| == Min(ClaimLimit(limit), |candidates|)
    && forall a, b :: a in chosen && b in candidates - chosen ==> Earlier(rows, a, b)
  }

  function Claimed(r: Receipt, claim: ClaimId, expiresAt: Time): Receipt {
    r.(status := Processing, attempts := r.attempts + 1, claim := Some(claim), claimExpiresAt := Some(expiresAt))
  }

  function Settled(r: Receipt, status: Status): Receipt {
    r.(status := status, claim := None, claimExpiresAt := None)
  }

  /** The claim fence shared by failure handling and by the importer's last statement. */
  predicate HoldsClaim(rows: Rows, id: ReceiptId, claim: ClaimId) {
    id in rows && rows[id].status.Processing? && rows[id].claim == Some(claim)
  }

  datatype EnqueueResult = Accepted | Duplicate | Backpressure

  function PendingCount(rows: Rows, owner: Owner): nat {
    |set id | id in rows && rows[id].status.Pending? && rows[id].owner == owner|
  }

  function EnqueueOutcome(rows: Rows, id: ReceiptId, owner: Owner, maxPending: int): EnqueueResult {
    if id in rows then Duplicate
    else if PendingCount(rows, owner) >= maxPending then Backpressure
    else Accepted
  }

  datatype Command =
    | Enqueue(id: ReceiptId, owner: Owner, receivedAt: Time, maxPending: int)
    | ClaimPending(claims: map<ReceiptId, ClaimId>, now: Time, expiresAt: Time, limit: int,
                   locked: set<ReceiptId>, archive: Option<Text>)
    | ClaimOne(id: ReceiptId, claim: ClaimId, expiresAt: Time)  // normalize called without a claim
    | Commit(id: ReceiptId, claim: ClaimId)                     // the import transaction
    | Fail(id: ReceiptId, claim: ClaimId, retryable: bool)

  function FailStatus(r: Receipt, retryable: bool): Status {
    if !retryable || r.attempts >= MAX_ATTEMPTS then Failed else Pending
  }

  /** The rows after a command; a fence that matches nothing changes nothing. */
  function RowsAfter(rows: Rows, cmd: Command): Rows {
    match cmd
    case Enqueue(id, owner, receivedAt, maxPending) =>
      if EnqueueOutcome(rows, id, owner, maxPending).Accepted?
      then rows[id := Receipt(owner, Pending, 0, None, None, receivedAt)] else rows
    case ClaimPending(claims, _, expiresAt, _, _, _) =>
      map id | id in rows :: if id in claims then Claimed(rows[id], claims[id], expiresAt) else rows[id]
    case ClaimOne(id, claim, expiresAt) =>
      if id in rows && rows[id].status.Pending? then rows[id := Claimed(rows[id], claim, expiresAt)] else rows
    case Commit(id, claim) =>
      if HoldsClaim(rows, id, claim) then rows[id := Settled(rows[id], Normalized)] else rows
    case Fail(id, claim, retryable) =>
      if HoldsClaim(rows, id, claim) then rows[id := Settled(rows[id], FailStatus(rows[id], retryable))] else rows
  }

  // ------------------------------------------------------------------ runs

  /** One committed live import. */
  datatype Import = Import(id: ReceiptId, claim: ClaimId)

  datatype Inbox = Inbox(rows: Rows, issued: set<ClaimId>, imports: seq<Import>)

  const EMPTY_INBOX := Inbox(map[], {}, [])

  /** Claim ids are fresh UUIDs, and a batch is one that the query may select. */
  predicate Allowed(s: Inbox, cmd: Command) {
    match cmd
    case ClaimPending(claims, now, _, limit, locked, archive) =>
      && Picks(s.rows, now, limit, locked, archive, claims.Keys)
      && (forall id :: id in claims ==> claims[id] !in s.issued)
      && (forall a, b :: a in claims && b in claims && a != b ==> claims[a] != claims[b])
    case ClaimOne(_, claim, _) => claim !in s.issued
    case _ => true
  }

  function Next(s: Inbox, cmd: Command): Inbox {
    var issued := match cmd
      case ClaimPending(claims, _, _, _, _, _) => s.issued + claims.Values
      case ClaimOne(_, claim, _) => s.issued + {claim}
      case _ => s.issued;
    var imports := if cmd.Commit? && HoldsClaim(s.rows, cmd.id, cmd.claim)
                   then s.imports + [Import(cmd.id, cmd.claim)] else s.imports;
    Inbox(RowsAfter(s.rows, cmd), issued, imports)
  }

  /** The inbox table, updated in place, with the claim ids it has generated and the imports
      that have committed. */
  class InboxTable {
    var rows: Rows
    var issued: set<ClaimId>
    var imports: seq<Import>

    function State(): Inbox
      reads this
    {
      Inbox(rows, issued, imports)
    }

    constructor ()
      ensures State() == EMPTY_INBOX
    {
      rows, issued, imports := map[], {}, [];
    }

    method EnqueueReceipt(id: ReceiptId, owner: Owner, receivedAt: Time, maxPending: int) returns (result: EnqueueResult)
      modifies this
      ensures result == EnqueueOutcome(old(rows), id, owner, maxPending)
      ensures State() == Next(old(State()), Enqueue(id, owner, receivedAt, maxPending))
    {
      if id in rows {
        return Duplicate;
      }
      var pending := set k | k in rows && rows[k].status.Pending? && rows[k].owner == owner;
      if |pending| >= maxPending {
        return Backpressure;
      }
      rows := rows[id := Receipt(owner, Pending, 0, None, None, receivedAt)];
      return Accepted;
    }

    /** `claims` holds the rows that the locking query selected, each with its generated id: a
        random UUID, never issued before. */
    method ClaimBatch(claims: map<ReceiptId, ClaimId>, now: Time, expiresAt: Time, limit: int,
                      locked: set<ReceiptId>, archive: Option<Text>)
      requires Allowed(State(), ClaimPending(claims, now, expiresAt, limit, locked, archive))
      modifies this
      ensures State() == Next(old(State()), ClaimPending(claims, now, expiresAt, limit, locked, archive))
    {
      rows := map id | id in rows :: if id in claims then Claimed(rows[id], claims[id], expiresAt) else rows[id];
      issued := issued + claims.Values;
    }

    method ClaimDirectly(id: ReceiptId, claim: ClaimId, expiresAt: Time) returns (ok: bool)
      modifies this
      ensures ok == (id in old(rows) && old(rows)[id].status.Pending?)
      ensures State() == Next(old(State()), ClaimOne(id, claim, expiresAt))
    {
      ok := id in rows && rows[id].status.Pending?;
      if ok {
        rows := rows[id := Claimed(rows[id], claim, expiresAt)];
      }
      issued := issued + {claim};
    }

    /** The last statement of a live import; when it fails the whole import rolls back. */
    method CommitReceipt(id: ReceiptId, claim: ClaimId) returns (ok: bool)
      modifies this
      ensures ok == HoldsClaim(old(rows), id, claim)
      ensures State() == Next(old(State()), Commit(id, claim))
    {
      ok := HoldsClaim(rows, id, claim);
      if ok {
        rows := rows[id := rows[id].(status := Normalized, claim := None, claimExpiresAt := None)];
        imports := imports + [Import(id, claim)];
      }
    }

    method FailClaim(id: ReceiptId, claim: ClaimId, retryable: bool) returns (ok: bool)
      modifies this
      ensures ok == HoldsClaim(old(rows), id, claim)
      ensures State() == Next(old(State()), Fail(id, claim, retryable))
    {
      ok := HoldsClaim(rows, id, claim);
      if ok {
        var status := if !retryable || rows[id].attempts >= MAX_ATTEMPTS then Failed else Pending;
        rows := rows[id := rows[id].(status := status, claim := None, claimExpiresAt := None)];
      }
    }
  }

  predicate Valid(s: Inbox, cmds: seq<Command>)
    decreases |cmds|
  {
    cmds == [] || (Allowed(s, cmds[0]) && Valid(Next(s, cmds[0]), cmds[1..]))
  }

  function Run(s: Inbox, cmds: seq<Command>): Inbox
    decreases |cmds|
  {
    if cmds == [] then s else Run(Next(s, cmds[0]), cmds[1..])
  }

  function ImportCount(imports: seq<Import>, id: ReceiptId): nat {
    if imports == [] then 0
    else ImportCount(imports[..|imports| - 1], id) + (if imports[|imports| - 1].id == id then 1 else 0)
  }

  predicate RowInv(r: Receipt, issued: set<ClaimId>) {
    match r.status
    case Pending => r.attempts < MAX_ATTEMPTS && r.claim.None? && r.claimExpiresAt.None?
    case Processing => r.claim.Some? && r.claim.value in issued && r.claimExpiresAt.Some?
    case Normalized => r.claim.None? && r.claimExpiresAt.None?
    case Failed => r.claim.None? && r.claimExpiresAt.None?
  }

  /** Imported as often as it is normalized: once or never. */
  predicate ImportedOnce(s: Inbox, id: ReceiptId) {
    ImportCount(s.imports, id) == (if id in s.rows && s.rows[id].status.Normalized? then 1 else 0)
  }

  ghost predicate Inv(s: Inbox) {
    && (forall id :: id in s.rows ==> RowInv(s.rows[id], s.issued))
    && (forall a, b :: a in s.rows && b in s.rows && a != b && s.rows[a].claim.Some?
                       ==> s.rows[a].claim != s.rows[b].claim)
    && (forall id :: ImportedOnce(s, id))
  }

  lemma NextKeepsRows(s: Inbox, cmd: Command, id: ReceiptId)
    requires Inv(s) && Allowed(s, cmd) && id in Next(s, cmd).rows
    ensures RowInv(Next(s, cmd).rows[id], Next(s, cmd).issued)
    ensures var r := Next(s, cmd).rows[id];
            r.claim.Some? ==>
              if cmd.ClaimPending? && id in cmd.claims then r.claim == Some(cmd.claims[id])
              else if cmd.ClaimOne? && id == cmd.id && s.rows[id].status.Pending? then r.claim == Some(cmd.claim)
              else id in s.rows && r.claim == s.rows[id].claim
  {
    if cmd.ClaimPending? && id in cmd.claims {
      assert cmd.claims[id] in cmd.claims.Values;
    }
  }

  lemma NextKeepsImports(s: Inbox, cmd: Command, id: ReceiptId)
    requires Inv(s) && Allowed(s, cmd)
    ensures ImportedOnce(Next(s, cmd), id)
  {
    assert ImportedOnce(s, id);
    var s' := Next(s, cmd);
    if s'.imports != s.imports {
      assert s'.imports[..|s.imports|] == s.imports;
    }
    if cmd.ClaimPending? && id in s.rows && id in cmd.claims {
      assert Due(s.rows[id], cmd.now);
    }
  }

  lemma NextKeepsInv(s: Inbox, cmd: Command)
    requires Inv(s) && Allowed(s, cmd)
    ensures Inv(Next(s, cmd))
  {
    var s' := Next(s, cmd);
    forall id | id in s'.rows ensures RowInv(s'.rows[id], s'.issued) {
      NextKeepsRows(s, cmd, id);
    }
    forall a, b | a in s'.rows && b in s'.rows && a != b && s'.rows[a].claim.Some?
      ensures s'.rows[a].claim != s'.rows[b].claim
    {
      NextKeepsRows(s, cmd, a);
      NextKeepsRows(s, cmd, b);
      assert a in s.rows ==> RowInv(s.rows[a], s.issued);
      assert b in s.rows ==> RowInv(s.rows[b], s.issued);
    }
    forall id ensures ImportedOnce(s', id) {
      NextKeepsImports(s, cmd, id);
    }
  }

  /** Under any claims, expiries, re-claims, failures and redeliveries: each receipt's
      import commits at most once, and exactly when the receipt becomes normalized. */
  lemma {:induction false} EveryRunIsSafe(s: Inbox, cmds: seq<Command>)
    requires Inv(s) && Valid(s, cmds)
    ensures Inv(Run(s, cmds))
    decreases |cmds|
  {
    if cmds != [] {
      NextKeepsInv(s, cmds[0]);
      EveryRunIsSafe(Next(s, cmds[0]), cmds[1..]);
    }
  }

  lemma ImportsExactlyOnce(cmds: seq<Command>)
    requires Valid(EMPTY_INBOX, cmds)
    ensures forall id :: ImportedOnce(Run(EMPTY_INBOX, cmds), id)
  {
    EveryRunIsSafe(EMPTY_INBOX, cmds);
  }

  predicate Finished(r: Receipt) {
    r.status.Normalized? || r.status.Failed?
  }

  lemma {:induction false} FinishedIsForever(s: Inbox, cmds: seq<Command>, id: ReceiptId)
    requires Inv(s) && Valid(s, cmds) && id in s.rows && Finished(s.rows[id])
    ensures id in Run(s, cmds).rows && Run(s, cmds).rows[id] == s.rows[id]
    decreases |cmds|
  {
    if cmds != [] {
      NextKeepsInv(s, cmds[0]);
      assert !(cmds[0].ClaimPending? && id in cmds[0].claims.Keys);
      FinishedIsForever(Next(s, cmds[0]), cmds[1..], id);
    }
  }

  predicate Current(s: Inbox, claim: ClaimId) {
    exists id :: id in s.rows && s.rows[id].claim == Some(claim)
  }

  /** A claim that was settled or taken over never commits an import afterwards. */
  lemma {:induction false} StaleClaimNeverCommits(s: Inbox, cmds: seq<Command>, claim: ClaimId)
    requires Inv(s) && Valid(s, cmds) && claim in s.issued && !Current(s, claim)
    ensures s.imports <= Run(s, cmds).imports
    ensures forall i :: |s.imports| <= i < |Run(s, cmds).imports| ==> Run(s, cmds).imports[i].claim != claim
    decreases |cmds|
  {
    if cmds != [] {
      var s' := Next(s, cmds[0]);
      NextKeepsInv(s, cmds[0]);
      forall id | id in s'.rows ensures s'.rows[id].claim != Some(claim) {
        NextKeepsRows(s, cmds[0], id);
      }
      StaleClaimNeverCommits(s', cmds[1..], claim);
    }
  }

  // ------------------------------------------------- no receipt is stranded

  predicate Unfinished(s: Inbox, id: ReceiptId) {
    id in s.rows && !Finished(s.rows[id])
  }

  /** When an unfinished receipt becomes claimable again. */
  function DueFrom(r: Receipt): Time {
    if r.status.Processing? && r.claimExpiresAt.Some? then r.claimExpiresAt.value else 0
  }

  lemma WholeSubset(a: set<ReceiptId>, b: set<ReceiptId>)
    requires a <= b && |a| == |b|
    ensures a == b
  {
    if a != b {
      var x :| x in b && x !in a;
      assert |b - {x}| == |b| - 1;
      SubsetSize(a, b - {x});
    }
  }

  lemma {:induction false} SubsetSize(a: set<ReceiptId>, b: set<ReceiptId>)
    requires a <= b
    ensures |a| <= |b|
    decreases a
  {
    if a != {} {
      var x :| x in a;
      SubsetSize(a - {x}, b - {x});
    }
  }

  /** An unfinished receipt is due from a known moment on, and a poll that comes then takes it
      or is full of receipts that come before it. */
  lemma NeverStranded(s: Inbox, id: ReceiptId, now: Time, limit: int, locked: set<ReceiptId>, archive: Option<Text>,
                      chosen: set<ReceiptId>)
    requires Inv(s) && Unfinished(s, id) && id !in locked && InScope(s.rows[id], archive)
    requires s.rows[id].status.Processing? ==> DueFrom(s.rows[id]) <= now
    requires Picks(s.rows, now, limit, locked, archive, chosen)
    ensures id in chosen || (|chosen| == ClaimLimit(limit) && forall a :: a in chosen ==> Earlier(s.rows, a, id))
  {
    var candidates := set k | k in s.rows && Due(s.rows[k], now) && InScope(s.rows[k], archive) && k !in locked;
    assert id in candidates;
    if id !in chosen && |chosen| != ClaimLimit(limit) {
      WholeSubset(chosen, candidates);
    }
  }

  lemma {:induction false} Latest(s: Inbox, ids: set<ReceiptId>) returns (now: Time)
    requires ids <= s.rows.Keys
    ensures forall id :: id in ids ==> DueFrom(s.rows[id]) <= now
    decreases |ids|
  {
    if ids == {} {
      now := 0;
    } else {
      var id :| id in ids;
      var rest := Latest(s, ids - {id});
      now := Max(rest, DueFrom(s.rows[id]));
      assert forall k :: k in ids ==> k == id || k in ids - {id};
    }
  }

  lemma {:induction false} Earliest(rows: Rows, ids: set<ReceiptId>) returns (first: ReceiptId)
    requires ids != {} && ids <= rows.Keys
    ensures first in ids && forall id :: id in ids - {first} ==> Earlier(rows, first, id)
    decreases |ids|
  {
    var id :| id in ids;
    if ids == {id} {
      first := id;
    } else {
      var rest := ids - {id};
      assert rest != {};
      var f := Earliest(rows, rest);
      first := if Earlier(rows, id, f) then id else f;
      assert forall k :: k in ids - {first} ==> k == id || k == f || k in rest - {f};
    }
  }

  function Open(s: Inbox): set<ReceiptId> {
    set id | id in s.rows && !Finished(s.rows[id])
  }

  /** A poll for one receipt, late enough for every open one, takes the earliest. */
  lemma PollTakesEarliest(s: Inbox, first: ReceiptId, now: Time, claim: ClaimId)
    requires Inv(s) && claim !in s.issued && first in Open(s)
    requires forall id :: id in Open(s) ==> DueFrom(s.rows[id]) <= now
    requires forall id :: id in Open(s) - {first} ==> Earlier(s.rows, first, id)
    ensures Allowed(s, ClaimPending(map[first := claim], now, now + 1, 1, {}, None))
  {
    var none: set<ReceiptId> := {};
    var candidates := set id | id in s.rows && Due(s.rows[id], now) && InScope(s.rows[id], None) && id !in none;
    assert candidates == Open(s);
    assert first in candidates && |candidates| >= 1;
    assert map[first := claim].Keys == {first};
  }

  /** Committing what a poll took closes that receipt and no other. */
  lemma CommitCloses(s: Inbox, first: ReceiptId, claim: ClaimId, now: Time)
    requires first in Open(s)
    ensures var s' := Next(Next(s, ClaimPending(map[first := claim], now, now + 1, 1, {}, None)), Commit(first, claim));
            Open(s') == Open(s) - {first} && first in s'.rows && s'.rows[first].status.Normalized?
  {
  }

  /** One late enough poll that takes the earliest open receipt and commits its import. */
  lemma DrainOne(s: Inbox) returns (take: Command, done: Command, first: ReceiptId)
    requires Inv(s) && Open(s) != {}
    ensures Allowed(s, take) && done.Commit?
    ensures first in Open(s) && Open(Next(Next(s, take), done)) == Open(s) - {first}
    ensures first in Next(Next(s, take), done).rows && Next(Next(s, take), done).rows[first].status.Normalized?
  {
    var now := Latest(s, Open(s));
    var claim := FreshId(s.issued);
    first := Earliest(s.rows, Open(s));
    take := ClaimPending(map[first := claim], now, now + 1, 1, {}, None);
    done := Commit(first, claim);
    PollTakesEarliest(s, first, now, claim);
    CommitCloses(s, first, claim, now);
  }

  /** From every reachable state the inbox can be drained: one poll after another, each
      late enough, normalizes every receipt that is still open. */
  lemma {:induction false} AlwaysDrainable(s: Inbox) returns (cmds: seq<Command>)
    requires Inv(s)
    ensures Valid(s, cmds) && Open(Run(s, cmds)) == {}
    ensures forall id :: id in Open(s) ==> id in Run(s, cmds).rows && Run(s, cmds).rows[id].status.Normalized?
    decreases |Open(s)|
  {
    if Open(s) == {} {
      cmds := [];
    } else {
      var take, done, first := DrainOne(s);
      var s1 := Next(s, take);
      var s2 := Next(s1, done);
      NextKeepsInv(s, take);
      NextKeepsInv(s1, done);
      var rest := AlwaysDrainable(s2);
      FinishedIsForever(s2, rest, first);
      assert ([done] + rest)[1..] == rest;
      assert Valid(s1, [done] + rest) && Run(s1, [done] + rest) == Run(s2, rest);
      cmds := [take] + ([done] + rest);
      assert cmds[1..] == [done] + rest;
    }
  }

  /** The only receipt, claimed for the n-th time and abandoned. */
  function Abandoned(n: nat): Rows {
    map[0 := Receipt(Owner(0, 0), Processing, n, Some(n), Some(n), 0)]
  }

  function Retake(n: nat): Command {
    ClaimPending(map[0 := n], n - 1, n, 1, {}, None)
  }

  lemma RetakeWorks(s: Inbox, n: nat)
    requires n > 1 && s.rows == Abandoned(n - 1) && forall c :: c in s.issued ==> c < n
    ensures Allowed(s, Retake(n)) && Next(s, Retake(n)).rows == Abandoned(n)
    ensures Next(s, Retake(n)).issued == s.issued + {n}
  {
    var take := Retake(n);
    var candidates := set id | id in s.rows && Due(s.rows[id], n - 1) && InScope(s.rows[id], None) && id !in take.locked;
    assert candidates == {0} == take.claims.Keys;
    assert take.claims.Values == {n};
  }

  lemma FirstTake()
    ensures var cmds := [Enqueue(0, Owner(0, 0), 0, 1)] + [ClaimOne(0, 1, 1)];
            Valid(EMPTY_INBOX, cmds) && Run(EMPTY_INBOX, cmds).rows == Abandoned(1)
            && Run(EMPTY_INBOX, cmds).issued == {1}
  {
    var first := Enqueue(0, Owner(0, 0), 0, 1);
    assert PendingCount(map[], Owner(0, 0)) == 0;
    var s1 := Next(EMPTY_INBOX, first);
    assert s1.rows == map[0 := Receipt(Owner(0, 0), Pending, 0, None, None, 0)];
    Append(EMPTY_INBOX, [], first);
    assert [] + [first] == [first];
    Append(EMPTY_INBOX, [first], ClaimOne(0, 1, 1));
  }

  /** The attempt limit is not a bound on claims: an expired claim is taken over however
      often that has happened before. */
  lemma {:induction false} AttemptsAreUnbounded(n: nat) returns (cmds: seq<Command>)
    requires n > 0
    ensures Valid(EMPTY_INBOX, cmds) && Run(EMPTY_INBOX, cmds).rows == Abandoned(n)
    ensures forall c :: c in Run(EMPTY_INBOX, cmds).issued ==> c <= n
  {
    if n == 1 {
      FirstTake();
      cmds := [Enqueue(0, Owner(0, 0), 0, 1)] + [ClaimOne(0, 1, 1)];
    } else {
      var before := AttemptsAreUnbounded(n - 1);
      RetakeWorks(Run(EMPTY_INBOX, before), n);
      Append(EMPTY_INBOX, before, Retake(n));
      cmds := before + [Retake(n)];
    }
  }

  /** The takeover of an expired claim whose receipt has used its attempts. */
  predicate TakesOver(s: Inbox, cmd: Command, id: ReceiptId) {
    cmd.ClaimPending? && id in cmd.claims && id in s.rows && s.rows[id].status.Processing? && s.rows[id].attempts >= MAX_ATTEMPTS
  }

  predicate Within(s: Inbox, id: ReceiptId) {
    id in s.rows ==> s.rows[id].attempts <= MAX_ATTEMPTS
  }

  /** One command takes a receipt beyond the limit exactly when it is such a takeover. */
  lemma PassesTheLimitExactly(s: Inbox, cmd: Command, id: ReceiptId)
    requires Inv(s) && Allowed(s, cmd) && Within(s, id)
    ensures Within(Next(s, cmd), id) <==> !TakesOver(s, cmd, id)
  {
    if id in s.rows {
      assert RowInv(s.rows[id], s.issued);
      if cmd.ClaimPending? && id in cmd.claims {
        assert Due(s.rows[id], cmd.now);
      }
    }
  }

  predicate EverTakenOver(s: Inbox, cmds: seq<Command>, id: ReceiptId)
    decreases |cmds|
  {
    cmds != [] && (TakesOver(s, cmds[0], id) || EverTakenOver(Next(s, cmds[0]), cmds[1..], id))
  }

  lemma {:induction false} BeyondForEver(s: Inbox, cmds: seq<Command>, id: ReceiptId)
    requires !Within(s, id)
    ensures !Within(Run(s, cmds), id)
    decreases |cmds|
  {
    if cmds != [] {
      BeyondForEver(Next(s, cmds[0]), cmds[1..], id);
    }
  }

  /** A receipt keeps to the attempt limit over a whole run if and only if no poll of the run
      takes over an expired claim of it once its attempts are used. */
  lemma {:induction false} AttemptsStayWithinExactly(s: Inbox, cmds: seq<Command>, id: ReceiptId)
    requires Inv(s) && Valid(s, cmds) && Within(s, id)
    ensures Within(Run(s, cmds), id) <==> !EverTakenOver(s, cmds, id)
    decreases |cmds|
  {
    if cmds != [] {
      NextKeepsInv(s, cmds[0]);
      PassesTheLimitExactly(s, cmds[0], id);
      if TakesOver(s, cmds[0], id) {
        BeyondForEver(Next(s, cmds[0]), cmds[1..], id);
      } else {
        AttemptsStayWithinExactly(Next(s, cmds[0]), cmds[1..], id);
      }
    }
  }

  lemma {:induction false} Append(s: Inbox, cmds: seq<Command>, last: Command)
    requires Valid(s, cmds) && Allowed(Run(s, cmds), last)
    ensures Valid(s, cmds + [last]) && Run(s, cmds + [last]) == Next(Run(s, cmds), last)
    decreases |cmds|
  {
    if cmds == [] {
      assert cmds + [last] == [last] && [last][1..] == [];
    } else {
      assert (cmds + [last])[1..] == cmds[1..] + [last];
      Append(Next(s, cmds[0]), cmds[1..], last);
    }
  }
}
