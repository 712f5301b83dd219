/** Pairing sessions: one promise lock per account key, at most one session per account, and
    QR codes that are forgotten for good. */
module AccountPairing {
  import opened Basics
  import opened AsyncLock

  type Key = Text
  type SessionId = Text

  /** An account of an archive. Its row fixes the account key. */
  datatype Account = Account(archive: Text, id: Text)

  type Accounts = map<Account, Key>

  datatype State = AwaitingQr | Connected | Expired

  datatype PairingSession = PairingSession(account: Account, key: Key, qr: Option<Text>, state: State)

  /** Where the replacement of an account's sessions has got to, between two awaits. */
  datatype Stage =
    | Scanning(account: Account, visited: set<SessionId>)
    | Deleting(account: Account, visited: set<SessionId>, target: SessionId)
    | Cleared(account: Account)

  datatype Holder = Holder(key: Key, caller: nat)

  /** `made` holds every session object, `listed` those still in the session map. */
  datatype Controller = Controller(
    locks: map<Key, Lock>, made: map<SessionId, PairingSession>, listed: set<SessionId>, stages: map<Holder, Stage>)

  function LockOf(s: Controller, key: Key): Lock {
    if key in s.locks then s.locks[key] else NewLock(true)
  }

  predicate Held(s: Controller, h: Holder) {
    Holds(LockOf(s, h.key), h.caller)
  }

  /** What may happen between two awaits of any of the operations under way. */
  datatype Event =
    | Queue(key: Key)
    | Admit(h: Holder)
    | Release(h: Holder)                              // normally, or because the operation threw
    | BeginScan(h: Holder, account: Account)
    | PassOver(h: Holder, id: SessionId)              // a session of another account
    | FindOwn(h: Holder, id: SessionId)
    | DeleteOwn(h: Holder)                            // once its cancellation has been confirmed
    | ScanDone(h: Holder)
    | Insert(h: Holder, id: SessionId, qr: Text)
    | Expire(id: SessionId)                           // by replacement, by status, or by any prune
    | Prune(id: SessionId)
    | Connect(h: Holder, id: SessionId)
    | FollowSyncFails(h: Holder, id: SessionId)
    | ReadStatus(h: Holder, id: SessionId)

  predicate Scans(s: Controller, h: Holder) {
    Held(s, h) && h in s.stages && s.stages[h].Scanning?
  }

  predicate Owns(s: Controller, h: Holder, id: SessionId) {
    Held(s, h) && id in s.made && s.made[id].key == h.key
  }

  predicate Enabled(accounts: Accounts, s: Controller, e: Event) {
    match e
    case Queue(_) => true
    case Admit(h) => CanEnter(LockOf(s, h.key), h.caller)
    case Release(h) => Held(s, h)
    case BeginScan(h, account) => Held(s, h) && h !in s.stages && account in accounts && accounts[account] == h.key
    case PassOver(h, id) =>
      Scans(s, h) && id in s.listed && id in s.made && id !in s.stages[h].visited && s.made[id].account != s.stages[h].account
    case FindOwn(h, id) =>
      Scans(s, h) && id in s.listed && id in s.made && id !in s.stages[h].visited && s.made[id].account == s.stages[h].account
    case DeleteOwn(h) =>
      Held(s, h) && h in s.stages && s.stages[h].Deleting? && s.stages[h].target in s.made
      && s.made[s.stages[h].target].state.Expired?
    case ScanDone(h) => Scans(s, h) && s.listed <= s.stages[h].visited
    case Insert(h, id, _) => Held(s, h) && h in s.stages && s.stages[h].Cleared? && id !in s.made
    case Expire(id) => id in s.made
    case Prune(_) => true
    case Connect(h, id) => Owns(s, h, id)
    case FollowSyncFails(h, id) => Owns(s, h, id)
    case ReadStatus(h, id) => Owns(s, h, id)
  }

  function Forget(s: Controller, id: SessionId, state: State): Controller
    requires id in s.made
  {
    s.(made := s.made[id := s.made[id].(state := state, qr := None)])
  }

  function Next(accounts: Accounts, s: Controller, e: Event): Controller
    requires Enabled(accounts, s, e)
  {
    match e
    case Queue(key) => s.(locks := s.locks[key := Arrive(LockOf(s, key))])
    case Admit(h) => s.(locks := s.locks[h.key := Enter(LockOf(s, h.key), h.caller)])
    case Release(h) => s.(locks := s.locks[h.key := Leave(LockOf(s, h.key), h.caller)], stages := s.stages - {h})
    case BeginScan(h, account) => s.(stages := s.stages[h := Scanning(account, {})])
    case PassOver(h, id) => s.(stages := s.stages[h := Scanning(s.stages[h].account, s.stages[h].visited + {id})])
    case FindOwn(h, id) => s.(stages := s.stages[h := Deleting(s.stages[h].account, s.stages[h].visited, id)])
    case DeleteOwn(h) =>
      var stage := s.stages[h];
      s.(listed := s.listed - {stage.target}, stages := s.stages[h := Scanning(stage.account, stage.visited + {stage.target})])
    case ScanDone(h) => s.(stages := s.stages[h := Cleared(s.stages[h].account)])
    case Insert(h, id, qr) =>
      s.(made := s.made[id := PairingSession(s.stages[h].account, h.key, Some(qr), AwaitingQr)],
      listed := s.listed + {id}, stages := s.stages - {h})
    case Expire(id) => Forget(s, id, Expired)
    case Prune(id) => s.(listed := s.listed - {id})
    case Connect(_, id) => Forget(s, id, Connected)
    case FollowSyncFails(_, id) => Forget(s, id, s.made[id].state)
    case ReadStatus(_, _) => s
  }

  /** The session whose QR a step may send to the client: a beginning sends its new one, a
      status read the one it finds at that moment. */
  function Sent(accounts: Accounts, s: Controller, e: Event): Option<(SessionId, Text)>
    requires Enabled(accounts, s, e)
  {
    match e
    case Insert(_, id, qr) => Some((id, qr))
    case ReadStatus(_, id) => if s.made[id].qr.Some? then Some((id, s.made[id].qr.value)) else None
    case _ => None
  }

  // ------------------------------------------------------------------- the invariant

  /** No session of the account that the scan has passed is still listed. */
  predicate StageFits(accounts: Accounts, s: Controller, h: Holder, stage: Stage) {
    && stage.account in accounts && accounts[stage.account] == h.key
    && (forall id :: id in s.listed && id in s.made && (stage.Cleared? || id in stage.visited)
                     ==> s.made[id].account != stage.account)
  }

  ghost predicate LocksInv(s: Controller) {
    forall k :: k in s.locks ==> AsyncLock.Inv(s.locks[k]) && s.locks[k].cleans
  }

  predicate OnePerAccount(s: Controller) {
    forall a, b :: a in s.listed && b in s.listed && a in s.made && b in s.made && s.made[a].account == s.made[b].account
                   ==> a == b
  }

  predicate Consistent(accounts: Accounts, s: Controller) {
    && s.listed <= s.made.Keys
    && (forall id :: id in s.made ==> s.made[id].account in accounts && accounts[s.made[id].account] == s.made[id].key)
    && (forall h :: h in s.stages ==> Held(s, h) && StageFits(accounts, s, h, s.stages[h]))
  }

  ghost predicate Inv(accounts: Accounts, s: Controller) {
    LocksInv(s) && OnePerAccount(s) && Consistent(accounts, s)
  }

  lemma LockOfIsSound(s: Controller, key: Key)
    requires LocksInv(s)
    ensures AsyncLock.Inv(LockOf(s, key)) && LockOf(s, key).cleans
  {
    assert Chain(NewLock(true), 0);
  }

  lemma LockStep(s: Controller, key: Key, step: Step)
    requires LocksInv(s) && AsyncLock.Enabled(LockOf(s, key), step)
    ensures LocksInv(s.(locks := s.locks[key := AsyncLock.After(LockOf(s, key), step)]))
  {
    LockOfIsSound(s, key);
    var m: nat :| Chain(LockOf(s, key), m);
    StepKeepsChain(LockOf(s, key), m, step);
  }

  /** Two callers that hold locks of one key are the same caller. */
  lemma OneHolderPerKey(s: Controller, a: Holder, b: Holder)
    requires LocksInv(s) && Held(s, a) && Held(s, b) && a.key == b.key
    ensures a == b
  {
    LockOfIsSound(s, a.key);
    MutualExclusion(LockOf(s, a.key), a.caller, b.caller);
  }

  /** A step of one lock leaves every other holder in place. */
  lemma HolderStays(s: Controller, key: Key, step: Step, g: Holder)
    requires Held(s, g) && AsyncLock.Enabled(LockOf(s, key), step)
    requires step.Leaving? ==> g != Holder(key, step.i)
    ensures Held(s.(locks := s.locks[key := AsyncLock.After(LockOf(s, key), step)]), g)
  {
  }

  /** Only an insertion lists a session; nothing changes whose it is. */
  lemma SessionsStay(accounts: Accounts, s: Controller, e: Event)
    requires Enabled(accounts, s, e) && !e.Insert?
    ensures var s' := Next(accounts, s, e);
            && s'.listed <= s.listed && s'.made.Keys == s.made.Keys
            && forall id :: id in s.made ==> s'.made[id].account == s.made[id].account && s'.made[id].key == s.made[id].key
  {
  }

  lemma HeldStays(accounts: Accounts, s: Controller, e: Event, g: Holder)
    requires Enabled(accounts, s, e) && g in Next(accounts, s, e).stages
    requires g in s.stages ==> Held(s, g)
    ensures Held(Next(accounts, s, e), g)
  {
    if e.Queue? {
      HolderStays(s, e.key, Arriving, g);
    } else if e.Admit? {
      HolderStays(s, e.h.key, Entering(e.h.caller), g);
    } else if e.Release? {
      HolderStays(s, e.h.key, Leaving(e.h.caller), g);
    }
  }

  lemma FitsStays(accounts: Accounts, s: Controller, e: Event, g: Holder)
    requires Enabled(accounts, s, e) && !e.Insert? && g in Next(accounts, s, e).stages && s.listed <= s.made.Keys
    requires g in s.stages ==> StageFits(accounts, s, g, s.stages[g])
    ensures StageFits(accounts, Next(accounts, s, e), g, Next(accounts, s, e).stages[g])
  {
    SessionsStay(accounts, s, e);
  }

  lemma LocksStay(accounts: Accounts, s: Controller, e: Event)
    requires LocksInv(s) && Enabled(accounts, s, e)
    ensures LocksInv(Next(accounts, s, e))
  {
    if e.Queue? {
      LockStep(s, e.key, Arriving);
    } else if e.Admit? {
      LockStep(s, e.h.key, Entering(e.h.caller));
    } else if e.Release? {
      LockStep(s, e.h.key, Leaving(e.h.caller));
    }
  }

  /** A new session concerns no other replacement under way: that would hold the same lock. */
  lemma InsertFits(accounts: Accounts, s: Controller, h: Holder, id: SessionId, qr: Text, g: Holder)
    requires Inv(accounts, s) && Enabled(accounts, s, Insert(h, id, qr)) && g in s.stages && g != h
    ensures StageFits(accounts, Next(accounts, s, Insert(h, id, qr)), g, s.stages[g])
  {
    if g.key == h.key {
      OneHolderPerKey(s, g, h);
      assert false;
    }
    assert StageFits(accounts, s, g, s.stages[g]) && StageFits(accounts, s, h, s.stages[h]);
  }

  lemma InsertKeepsInv(accounts: Accounts, s: Controller, h: Holder, id: SessionId, qr: Text)
    requires Inv(accounts, s) && Enabled(accounts, s, Insert(h, id, qr))
    ensures Inv(accounts, Next(accounts, s, Insert(h, id, qr)))
  {
    var s' := Next(accounts, s, Insert(h, id, qr));
    assert StageFits(accounts, s, h, s.stages[h]);
    forall g | g in s'.stages ensures Held(s', g) && StageFits(accounts, s', g, s'.stages[g]) {
      HeldStays(accounts, s, Insert(h, id, qr), g);
      InsertFits(accounts, s, h, id, qr, g);
    }
  }

  lemma StepKeepsInv(accounts: Accounts, s: Controller, e: Event)
    requires Inv(accounts, s) && Enabled(accounts, s, e)
    ensures Inv(accounts, Next(accounts, s, e))
  {
    if e.Insert? {
      InsertKeepsInv(accounts, s, e.h, e.id, e.qr);
    } else {
      var s' := Next(accounts, s, e);
      LocksStay(accounts, s, e);
      SessionsStay(accounts, s, e);
      forall g | g in s'.stages ensures Held(s', g) && StageFits(accounts, s', g, s'.stages[g]) {
        HeldStays(accounts, s, e, g);
        FitsStays(accounts, s, e, g);
      }
    }
  }

  ghost predicate StepAt(accounts: Accounts, states: seq<Controller>, events: seq<Event>, n: nat)
    requires n < |events| && |states| == |events| + 1
  {
    Enabled(accounts, states[n], events[n]) && states[n + 1] == Next(accounts, states[n], events[n])
  }

  ghost predicate IsRun(accounts: Accounts, states: seq<Controller>, events: seq<Event>) {
    |states| == |events| + 1 && forall n :: 0 <= n < |events| ==> StepAt(accounts, states, events, n)
  }

  const EMPTY := Controller(map[], map[], {}, map[])

  /** Under every interleaving there is at most one pairing session per account of an
      archive, one operation per account key at a time, and a lock entry exactly while an
      operation holds or waits. */
  lemma {:induction false} PairingIsExclusive(accounts: Accounts, states: seq<Controller>, events: seq<Event>, n: nat)
    requires IsRun(accounts, states, events) && states[0] == EMPTY && n < |states|
    ensures Inv(accounts, states[n])
    ensures forall k :: k in states[n].locks ==>
                          (states[n].locks[k].tail.Some? <==>
                           exists i :: 0 <= i < |states[n].locks[k].phases| && !states[n].locks[k].phases[i].Done?)
  {
    if n > 0 {
      PairingIsExclusive(accounts, states, events, n - 1);
      assert StepAt(accounts, states, events, n - 1);
      StepKeepsInv(accounts, states[n - 1], events[n - 1]);
    }
    forall k | k in states[n].locks
      ensures states[n].locks[k].tail.Some? <==>
              exists i :: 0 <= i < |states[n].locks[k].phases| && !states[n].locks[k].phases[i].Done?
    {
      EntryExistsExactlyWhileUsed(states[n].locks[k]);
    }
  }

  /** A QR that has been dropped is never sent again, whatever happens afterwards. */
  lemma {:induction false} DroppedQrIsGone(accounts: Accounts, states: seq<Controller>, events: seq<Event>,
                                           dropped: nat, n: nat, id: SessionId)
    requires IsRun(accounts, states, events) && dropped <= n < |events|
    requires id in states[dropped].made && states[dropped].made[id].qr.None?
    ensures id in states[n].made && states[n].made[id].qr.None?
    ensures StepAt(accounts, states, events, n)
    ensures Sent(accounts, states[n], events[n]).Some? ==> Sent(accounts, states[n], events[n]).value.0 != id
  {
    if dropped < n {
      DroppedQrIsGone(accounts, states, events, dropped, n - 1, id);
      assert StepAt(accounts, states, events, n - 1);
    }
  }

  /** A session's QR is sent only while the session has neither connected nor expired. */
  lemma {:induction false} QrBelongsToAwaiting(accounts: Accounts, states: seq<Controller>, events: seq<Event>, n: nat, id: SessionId)
    requires IsRun(accounts, states, events) && states[0] == EMPTY && n < |states| && id in states[n].made
    ensures states[n].made[id].qr.Some? ==> states[n].made[id].state.AwaitingQr?
  {
    if n > 0 {
      assert StepAt(accounts, states, events, n - 1);
      if id in states[n - 1].made {
        QrBelongsToAwaiting(accounts, states, events, n - 1, id);
      }
    }
  }

  /** A step after which the session's QR is gone. */
  predicate Forgets(e: Event, id: SessionId) {
    (e.Expire? && e.id == id) || (e.Connect? && e.id == id) || (e.FollowSyncFails? && e.id == id)
  }

  predicate StillWaits(events: seq<Event>, begun: int, n: int, id: SessionId) {
    forall k :: begun < k < n && 0 <= k < |events| ==> !Forgets(events[k], id)
  }

  lemma QrBegins(accounts: Accounts, s: Controller, e: Event, s': Controller)
    requires Enabled(accounts, s, e) && e.Insert? && s' == Next(accounts, s, e)
    ensures e.id in s'.made && s'.made[e.id].qr == Some(e.qr)
  {
  }

  /** A made session keeps its QR through every step that does not forget it. */
  lemma QrStays(accounts: Accounts, s: Controller, e: Event, s': Controller, id: SessionId)
    requires Enabled(accounts, s, e) && id in s.made && s' == Next(accounts, s, e)
    ensures id in s'.made && s'.made[id].qr == if Forgets(e, id) then None else s.made[id].qr
  {
  }

  lemma {:induction false} QrIsKeptExactly(accounts: Accounts, states: seq<Controller>, events: seq<Event>, begun: nat, n: nat,
                                           id: SessionId)
    requires IsRun(accounts, states, events) && begun < n < |states| && events[begun].Insert? && events[begun].id == id
    ensures id in states[n].made
    ensures states[n].made[id].qr == if StillWaits(events, begun, n, id) then Some(events[begun].qr) else None
  {
    assert StepAt(accounts, states, events, n - 1);
    if n == begun + 1 {
      QrBegins(accounts, states[begun], events[begun], states[n]);
    } else {
      QrIsKeptExactly(accounts, states, events, begun, n - 1, id);
      QrStays(accounts, states[n - 1], events[n - 1], states[n], id);
      assert StillWaits(events, begun, n, id) <==> StillWaits(events, begun, n - 1, id) && !Forgets(events[n - 1], id);
    }
  }

  /** A beginning shows its QR at once, and every later status read of the session shows the same,
      until the session has expired, connected or failed to start its sync; then none does. */
  lemma QrIsShownExactly(accounts: Accounts, states: seq<Controller>, events: seq<Event>, begun: nat, n: nat, id: SessionId)
    requires IsRun(accounts, states, events) && begun < n < |events|
    requires events[begun].Insert? && events[begun].id == id && events[n].ReadStatus? && events[n].id == id
    ensures StepAt(accounts, states, events, begun) && StepAt(accounts, states, events, n)
    ensures Sent(accounts, states[begun], events[begun]) == Some((id, events[begun].qr))
    ensures Sent(accounts, states[n], events[n]) == if StillWaits(events, begun, n, id) then Some((id, events[begun].qr)) else None
  {
    QrIsKeptExactly(accounts, states, events, begun, n, id);
  }

  /** The step gives the session a state that it keeps until the next such step. */
  predicate Decides(e: Event, id: SessionId) {
    (e.Expire? && e.id == id) || (e.Connect? && e.id == id)
  }

  lemma StateStays(accounts: Accounts, s: Controller, e: Event, s': Controller, id: SessionId)
    requires Enabled(accounts, s, e) && id in s.made && s' == Next(accounts, s, e)
    ensures id in s'.made
    ensures s'.made[id].state == if Decides(e, id) then if e.Expire? then Expired else Connected else s.made[id].state
  {
  }

  /** The n-th state is what the last deciding step between left: waiting if there is none. */
  predicate StateTold(events: seq<Event>, begun: int, n: int, id: SessionId, state: State) {
    (state == AwaitingQr && forall k :: begun < k < n && 0 <= k < |events| ==> !Decides(events[k], id))
    || (exists k :: begun < k < n && 0 <= k < |events| && Decides(events[k], id)
                    && state == (if events[k].Expire? then Expired else Connected)
                    && forall j :: k < j < n && j < |events| ==> !Decides(events[j], id))
  }

  /** A session waits for its QR to be scanned until it connects or expires; a sync that fails to
      start takes its QR away, but leaves its state. */
  lemma {:induction false} StateIsToldByTheRun(accounts: Accounts, states: seq<Controller>, events: seq<Event>, begun: nat, n: nat,
                                               id: SessionId)
    requires IsRun(accounts, states, events) && begun < n < |states| && events[begun].Insert? && events[begun].id == id
    ensures id in states[n].made && StateTold(events, begun, n, id, states[n].made[id].state)
  {
    assert StepAt(accounts, states, events, n - 1);
    if n > begun + 1 {
      StateIsToldByTheRun(accounts, states, events, begun, n - 1, id);
      StateStays(accounts, states[n - 1], events[n - 1], states[n], id);
      assert Decides(events[n - 1], id) ==> StateTold(events, begun, n, id, states[n].made[id].state);
    }
  }

  // ----------------------------------------------------- replacing an account's sessions

  class PairingTable {
    var made: map<SessionId, PairingSession>
    var listed: set<SessionId>

    constructor ()
      ensures made == map[] && listed == {}
    {
      made, listed := map[], {};
    }

    /** The local state follows only a confirmed cancellation. */
    method ExpireSession(id: SessionId, confirmed: bool) returns (ok: bool)
      requires id in made
      modifies this`made
      ensures ok <==> confirmed || old(made)[id].state.Expired?
      ensures made == if ok && !old(made)[id].state.Expired?
                      then old(made)[id := old(made)[id].(state := Expired, qr := None)] else old(made)
    {
      if made[id].state.Expired? {
        return true;
      }
      if !confirmed {
        return false;
      }
      made := made[id := made[id].(state := Expired, qr := None)];
      ok := true;
    }

    /** The loop of `begin` over the session map, when nothing else runs meanwhile: every session
        of the account is expired and unlisted, unless a cancellation fails on the way. */
    method ReplaceSessions(account: Account, confirms: set<SessionId>) returns (ok: bool)
      requires listed <= made.Keys
      modifies this
      ensures made.Keys == old(made.Keys) && listed <= old(listed)
      ensures forall id :: id in old(listed) && old(made)[id].account != account ==> id in listed && made[id] == old(made)[id]
      ensures ok <==> forall id :: id in old(listed) && old(made)[id].account == account ==>
                                     id in confirms || old(made)[id].state.Expired?
      ensures ok ==> forall id :: id in listed ==> made[id].account != account
      ensures forall id :: id in old(listed) - listed ==> made[id].account == account && made[id].state.Expired?
    {
      var pending := listed;
      while pending != {}
        invariant pending <= listed <= old(listed) && made.Keys == old(made.Keys)
        invariant forall id :: id in made ==> made[id].account == old(made)[id].account
        invariant forall id :: id in pending || (id in old(listed) && old(made)[id].account != account) ==> made[id] == old(made)[id]
        invariant forall id :: id in old(listed) && id !in pending ==> (id in listed <==> old(made)[id].account != account)
        invariant forall id :: id in old(listed) && id !in pending && old(made)[id].account == account ==>
                                 id in confirms || old(made)[id].state.Expired?
        invariant forall id :: id in old(listed) - listed ==> made[id].state.Expired?
        decreases |pending|
      {
        var id :| id in pending;
        if made[id].account == account {
          var expired := ExpireSession(id, id in confirms);
          if !expired {
            return false;
          }
          listed := listed - {id};
        }
        pending := pending - {id};
      }
      ok := true;
    }
  }
}
