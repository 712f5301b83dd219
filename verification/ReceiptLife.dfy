/** What becomes of one receipt: who may take it, when, how often, and what a failure leaves. */
module ReceiptLife {
  import opened Basics
  import opened LiveInbox

  // ------------------------------------------------------------------------- failures

  ghost predicate NeverDue(s: Inbox, id: ReceiptId) {
    id in s.rows && forall now :: !Due(s.rows[id], now)
  }

  /** A failed claim sends its receipt back at once, to be taken at any time, if and only if the
      failure is retryable and fewer than three attempts are used; otherwise no poll of any
      continuation will take it again. */
  lemma RetriedExactly(s: Inbox, id: ReceiptId, claim: ClaimId, retryable: bool, cmds: seq<Command>)
    requires Inv(s) && HoldsClaim(s.rows, id, claim)
    requires Valid(Next(s, Fail(id, claim, retryable)), cmds)
    ensures var after := Next(s, Fail(id, claim, retryable));
            && id in after.rows && after.rows[id].attempts == s.rows[id].attempts
            && ((forall now :: Due(after.rows[id], now)) <==> retryable && s.rows[id].attempts < 3)
            && (!(retryable && s.rows[id].attempts < 3) ==> NeverDue(Run(after, cmds), id))
  {
    var after := Next(s, Fail(id, claim, retryable));
    NextKeepsInv(s, Fail(id, claim, retryable));
    assert retryable && s.rows[id].attempts < 3 ==> forall now :: Due(after.rows[id], now);
    if !(retryable && s.rows[id].attempts < 3) {
      assert !Due(after.rows[id], 0);
      FinishedIsForever(after, cmds, id);
    }
  }

  // --------------------------------------------------------------------------- claims

  /** The command takes the receipt, under this claim and until then. */
  predicate Takes(s: Inbox, cmd: Command, id: ReceiptId, claim: ClaimId, expiresAt: Time) {
    id in s.rows
    && match cmd
       case ClaimPending(claims, _, until, _, _, _) => id in claims && claims[id] == claim && until == expiresAt
       case ClaimOne(one, c, until) => one == id && c == claim && until == expiresAt && s.rows[id].status.Pending?
       case _ => false
  }

  /** A receipt that has been taken belongs to its claim, and is due again just when that expires. */
  lemma ClaimLastsExactly(s: Inbox, cmd: Command, id: ReceiptId, claim: ClaimId, expiresAt: Time, now: Time)
    requires Takes(s, cmd, id, claim, expiresAt)
    ensures HoldsClaim(Next(s, cmd).rows, id, claim)
    ensures Due(Next(s, cmd).rows[id], now) <==> expiresAt <= now
  {
  }

  predicate TakenBy(s: Inbox, cmd: Command, id: ReceiptId) {
    id in s.rows
    && match cmd
       case ClaimPending(claims, _, _, _, _, _) => id in claims
       case ClaimOne(one, _, _) => one == id && s.rows[id].status.Pending?
       case _ => false
  }

  /** How often a run takes the receipt. */
  function Takings(s: Inbox, cmds: seq<Command>, id: ReceiptId): nat
    decreases |cmds|
  {
    if cmds == [] then 0
    else (if TakenBy(s, cmds[0], id) then 1 else 0) + Takings(Next(s, cmds[0]), cmds[1..], id)
  }

  function Attempts(s: Inbox, id: ReceiptId): nat {
    if id in s.rows then s.rows[id].attempts else 0
  }

  /** A receipt's attempts are the number of times that it has been taken. */
  lemma {:induction false} AttemptsCountTakings(s: Inbox, cmds: seq<Command>, id: ReceiptId)
    ensures Attempts(Run(s, cmds), id) == Attempts(s, id) + Takings(s, cmds, id)
    decreases |cmds|
  {
    if cmds != [] {
      AttemptsCountTakings(Next(s, cmds[0]), cmds[1..], id);
    }
  }

  // ---------------------------------------------------------------------------- polls

  /** The receipt waits with attempts left, or its claim has run out; it is of the archive, and
      no other poll holds it. */
  predicate Open(s: Inbox, id: ReceiptId, now: Time, locked: set<ReceiptId>, archive: Option<Text>) {
    && id in s.rows && id !in locked && (archive == None || archive == Some(s.rows[id].owner.archive))
    && ((s.rows[id].status.Pending? && s.rows[id].attempts < 3)
        || (s.rows[id].status.Processing? && s.rows[id].claimExpiresAt.Some? && s.rows[id].claimExpiresAt.value <= now))
  }

  predicate ComesFirst(s: Inbox, a: ReceiptId, b: ReceiptId)
    requires a in s.rows && b in s.rows
  {
    s.rows[a].receivedAt < s.rows[b].receivedAt || (s.rows[a].receivedAt == s.rows[b].receivedAt && a < b)
  }

  /** A poll takes open receipts only, no more than asked for, nor than a hundred, and leaves an
      open one only when it has taken that many, all of them received before it. */
  lemma PollTakesTheFirst(s: Inbox, now: Time, limit: int, locked: set<ReceiptId>, archive: Option<Text>,
                          chosen: set<ReceiptId>, id: ReceiptId)
    requires Picks(s.rows, now, limit, locked, archive, chosen)
    ensures id in chosen ==> Open(s, id, now, locked, archive)
    ensures 1 <= limit <= 100 ==> |chosen| <= limit
    ensures limit > 100 ==> |chosen| <= 100
    ensures limit < 1 ==> |chosen| <= 1
    ensures Open(s, id, now, locked, archive) && id !in chosen ==>
              |chosen| == (if limit < 1 then 1 else if limit > 100 then 100 else limit)
              && forall a :: a in chosen ==> a in s.rows && ComesFirst(s, a, id)
  {
    var candidates := set k | k in s.rows && Due(s.rows[k], now) && InScope(s.rows[k], archive) && k !in locked;
    assert Open(s, id, now, locked, archive) <==> id in candidates;
    if id in candidates && id !in chosen {
      if |chosen| == |candidates| {
        WholeSubset(chosen, candidates);
      }
      forall a | a in chosen ensures a in s.rows && ComesFirst(s, a, id) {
        assert id in candidates - chosen;
        assert Earlier(s.rows, a, id);
      }
    }
  }

  // ------------------------------------------------------------------------- arrivals

  /** The pending receipts of an account of an archive. */
  function Waiting(rows: Rows, owner: Owner): set<ReceiptId> {
    set id | id in rows && rows[id].status == Pending && rows[id].owner == owner
  }

  /** A new receipt is accepted exactly while fewer of its account's receipts wait than allowed;
      then one more waits, as it was received, and nothing else changes. A known one changes
      nothing. */
  lemma AcceptedExactly(s: Inbox, id: ReceiptId, owner: Owner, receivedAt: Time, maxPending: int)
    ensures var after := Next(s, Enqueue(id, owner, receivedAt, maxPending));
            && (EnqueueOutcome(s.rows, id, owner, maxPending) == Accepted <==> id !in s.rows && |Waiting(s.rows, owner)| < maxPending)
            && (EnqueueOutcome(s.rows, id, owner, maxPending) == Duplicate <==> id in s.rows)
            && (EnqueueOutcome(s.rows, id, owner, maxPending) != Accepted ==> after == s)
            && (EnqueueOutcome(s.rows, id, owner, maxPending) == Accepted ==>
                  && Waiting(after.rows, owner) == Waiting(s.rows, owner) + {id} && |Waiting(after.rows, owner)| <= maxPending
                  && after.rows[id].owner == owner && after.rows[id].receivedAt == receivedAt && after.rows[id].attempts == 0
                  && after.rows - {id} == s.rows)
  {
    var after := Next(s, Enqueue(id, owner, receivedAt, maxPending));
    assert PendingCount(s.rows, owner) == |Waiting(s.rows, owner)| by {
      assert Waiting(s.rows, owner) == set k | k in s.rows && s.rows[k].status.Pending? && s.rows[k].owner == owner;
    }
    if id !in s.rows && |Waiting(s.rows, owner)| < maxPending {
      assert Waiting(after.rows, owner) == Waiting(s.rows, owner) + {id};
      assert after.rows - {id} == s.rows;
    }
  }

  /** Whose it is and when it was received never changes. */
  lemma {:induction false} ReceiptIsKept(s: Inbox, cmds: seq<Command>, id: ReceiptId)
    requires id in s.rows
    ensures id in Run(s, cmds).rows
    ensures Run(s, cmds).rows[id].owner == s.rows[id].owner && Run(s, cmds).rows[id].receivedAt == s.rows[id].receivedAt
    decreases |cmds|
  {
    if cmds != [] {
      ReceiptIsKept(Next(s, cmds[0]), cmds[1..], id);
    }
  }
}
