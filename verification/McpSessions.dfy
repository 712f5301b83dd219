/** The MCP session table: capacity, eviction, and admissions that await in between. */
module McpSessions {
  import opened Basics
  import opened AsyncLock

  type Time = int
  type SessionId = Text

  /** Sessions by id, with the time of their last activity. */
  type Sessions = map<SessionId, Time>

  /** The eviction order: least recently active first, then by id. */
  predicate Older(s: Sessions, a: SessionId, b: SessionId)
    requires a in s && b in s
  {
    s[a] < s[b] || (s[a] == s[b] && a < b)
  }

  predicate Oldest(s: Sessions, id: SessionId) {
    id in s && forall other :: other in s && other != id ==> Older(s, id, other)
  }

  predicate Idle(s: Sessions, id: SessionId, now: Time, ttl: nat) {
    id in s && now - s[id] >= ttl
  }

  function WithoutIdle(s: Sessions, now: Time, ttl: nat): Sessions {
    map id | id in s && !Idle(s, id, now, ttl) :: s[id]
  }

  /** A session stays exactly while less than the time to live has passed since it was active. */
  lemma IdleExactly(s: Sessions, now: Time, ttl: nat, id: SessionId)
    ensures id in WithoutIdle(s, now, ttl) <==> id in s && now < s[id] + ttl
    ensures id in WithoutIdle(s, now, ttl) ==> WithoutIdle(s, now, ttl)[id] == s[id]
  {
  }

  lemma {:induction false} OldestExists(s: Sessions) returns (id: SessionId)
    requires s != map[]
    ensures Oldest(s, id)
    decreases |s|
  {
    var any :| any in s;
    var rest := s - {any};
    if rest == map[] {
      id := any;
      assert s.Keys == {any} by {
        assert forall k :: k in s && k != any ==> k in rest;
      }
    } else {
      SmallerMap(s, any);
      var eldest := OldestExists(rest);
      id := if Older(s, any, eldest) then any else eldest;
      forall other | other in s && other != id ensures Older(s, id, other) {
        assert other == any || other in rest;
      }
    }
  }

  lemma SmallerMap(s: Sessions, id: SessionId)
    requires id in s
    ensures |s - {id}| == |s| - 1
  {
    assert (s - {id}).Keys == s.Keys - {id};
    assert |s - {id}| == |(s - {id}).Keys| && |s| == |s.Keys|;
  }

  /** The survivors of an eviction are all more recent than its victims. */
  ghost predicate KeptNewest(before: Sessions, after: Sessions) {
    && after.Keys <= before.Keys && (forall id :: id in after ==> after[id] == before[id])
    && forall gone, kept :: gone in before && gone !in after && kept in after ==>
                              before[gone] < before[kept] || (before[gone] == before[kept] && gone < kept)
  }

  class SessionTable {
    var sessions: Sessions
    const maxSessions: nat
    const idleTtl: nat

    constructor (maxSessions: nat, idleTtl: nat)
      requires maxSessions > 0 && idleTtl > 0
      ensures this.maxSessions == maxSessions && this.idleTtl == idleTtl && sessions == map[]
    {
      this.maxSessions, this.idleTtl, sessions := maxSessions, idleTtl, map[];
    }

    /** Walks the table and closes what has been idle too long. */
    method EvictIdleSessions(now: Time)
      modifies this
      ensures sessions == WithoutIdle(old(sessions), now, idleTtl)
      ensures forall id :: id in sessions <==> id in old(sessions) && now < old(sessions)[id] + idleTtl
    {
      var pending := sessions.Keys;
      while pending != {}
        invariant pending <= old(sessions.Keys)
        invariant forall id :: id in sessions <==> id in old(sessions) && (id in pending || !Idle(old(sessions), id, now, idleTtl))
        invariant forall id :: id in sessions ==> sessions[id] == old(sessions)[id]
        decreases |pending|
      {
        var id :| id in pending;
        if now - sessions[id] >= idleTtl {
          sessions := sessions - {id};
        }
        pending := pending - {id};
      }
    }

    method FindOldest() returns (oldest: SessionId)
      requires sessions != map[]
      ensures Oldest(sessions, oldest)
    {
      ghost var some := OldestExists(sessions);
      oldest :| oldest in sessions && forall other :: other in sessions && other != oldest ==> Older(sessions, oldest, other);
    }

    /** Makes room for one session: the idle ones go, then the least recently active, and no
        more of those than needed. The loop ends. */
    method EnsureSessionCapacity(now: Time)
      requires maxSessions > 0
      modifies this
      ensures |sessions| < maxSessions
      ensures KeptNewest(WithoutIdle(old(sessions), now, idleTtl), sessions)
      ensures |WithoutIdle(old(sessions), now, idleTtl)| < maxSessions ==> sessions == WithoutIdle(old(sessions), now, idleTtl)
      ensures |WithoutIdle(old(sessions), now, idleTtl)| >= maxSessions ==> |sessions| == maxSessions - 1
    {
      EvictIdleSessions(now);
      ghost var found := sessions;
      while |sessions| >= maxSessions
        invariant KeptNewest(found, sessions)
        invariant |sessions| == |found| || |sessions| >= maxSessions - 1
        invariant |found| < maxSessions ==> sessions == found
        decreases |sessions|
      {
        var oldest := FindOldest();
        SmallerMap(sessions, oldest);
        sessions := sessions - {oldest};
      }
    }
  }

  // -------------------------------------------------------------- every interleaving

  /** Where the current admission has got to: still making room, or about to insert. */
  datatype Admission = Making | Ready

  datatype Server = Server(lock: Lock, sessions: Sessions, admission: Option<Admission>, max: nat)

  /** What may happen between two awaits. Anyone may close a session at any time; only the
      admission that holds the lock inserts one. */
  datatype Event =
    | Queue
    | Admit(i: nat)
    | Evict(i: nat)                                  // the holder closes the oldest session
    | RoomFound(i: nat)                              // the holder sees that there is room
    | Insert(i: nat, id: SessionId, now: Time)
    | Release(i: nat)
    | Close(id: SessionId)                           // by the client, by idleness, by shutdown
    | Touch(id: SessionId, now: Time)

  predicate Enabled(s: Server, e: Event) {
    match e
    case Queue => true
    case Admit(i) => CanEnter(s.lock, i)
    case Evict(i) => Holds(s.lock, i) && s.admission == Some(Making) && |s.sessions| >= s.max && s.sessions != map[]
    case RoomFound(i) => Holds(s.lock, i) && s.admission == Some(Making) && |s.sessions| < s.max
    case Insert(i, id, _) => Holds(s.lock, i) && s.admission == Some(Ready) && id !in s.sessions
    case Release(i) => Holds(s.lock, i)
    case Close(_) => true
    case Touch(id, _) => id in s.sessions
  }

  ghost predicate Step(s: Server, e: Event, s': Server) {
    Enabled(s, e) &&
    match e
    case Queue => s' == s.(lock := Arrive(s.lock))
    case Admit(i) => s' == s.(lock := Enter(s.lock, i), admission := Some(Making))
    case Evict(i) => exists id :: Oldest(s.sessions, id) && s' == s.(sessions := s.sessions - {id})
    case RoomFound(i) => s' == s.(admission := Some(Ready))
    case Insert(i, id, now) => s' == s.(sessions := s.sessions[id := now], admission := None)
    case Release(i) => s' == s.(lock := Leave(s.lock, i), admission := None)
    case Close(id) => s' == s.(sessions := s.sessions - {id})
    case Touch(id, now) => s' == s.(sessions := s.sessions[id := now])
  }

  ghost predicate ServerInv(s: Server) {
    && s.max > 0 && AsyncLock.Inv(s.lock) && !s.lock.cleans
    && |s.sessions| <= s.max
    && (s.admission == Some(Ready) ==> |s.sessions| < s.max)
    && (s.admission.Some? ==> exists i :: Holds(s.lock, i))
  }

  lemma LockStep(l: Lock, s: AsyncLock.Step)
    requires AsyncLock.Inv(l) && AsyncLock.Enabled(l, s)
    ensures AsyncLock.Inv(AsyncLock.After(l, s))
  {
    var m: nat :| Chain(l, m);
    StepKeepsChain(l, m, s);
  }

  lemma SizeAfterUpdate(s: Sessions, id: SessionId, t: Time)
    ensures |s[id := t]| == if id in s then |s| else |s| + 1
  {
    assert s[id := t].Keys == s.Keys + {id};
    assert |s[id := t]| == |s[id := t].Keys| && |s| == |s.Keys|;
  }

  lemma StepKeepsLock(s: Server, e: Event, s': Server)
    requires ServerInv(s) && Step(s, e, s')
    ensures AsyncLock.Inv(s'.lock) && !s'.lock.cleans
    ensures s'.admission.Some? ==> exists i :: Holds(s'.lock, i)
  {
    if e.Queue? {
      LockStep(s.lock, Arriving);
      if s.admission.Some? {
        var i :| Holds(s.lock, i);
        assert Holds(s'.lock, i);
      }
    } else if e.Admit? {
      LockStep(s.lock, Entering(e.i));
      assert Holds(s'.lock, e.i);
    } else if e.Release? {
      LockStep(s.lock, Leaving(e.i));
    }
  }

  lemma StepKeepsSize(s: Server, e: Event, s': Server)
    requires ServerInv(s) && Step(s, e, s')
    ensures |s'.sessions| <= s'.max == s.max
    ensures s'.admission == Some(Ready) ==> |s'.sessions| < s'.max
  {
    if e.Evict? {
      var id :| Oldest(s.sessions, id) && s' == s.(sessions := s.sessions - {id});
      SmallerMap(s.sessions, id);
    } else if e.Insert? || e.Touch? {
      SizeAfterUpdate(s.sessions, e.id, e.now);
    } else if e.Close? {
      if e.id in s.sessions {
        SmallerMap(s.sessions, e.id);
      } else {
        assert s.sessions - {e.id} == s.sessions;
      }
    }
  }

  lemma StepKeepsServer(s: Server, e: Event, s': Server)
    requires ServerInv(s) && Step(s, e, s')
    ensures ServerInv(s')
  {
    StepKeepsLock(s, e, s');
    StepKeepsSize(s, e, s');
  }

  /** A run, state by state. */
  ghost predicate IsRun(states: seq<Server>, events: seq<Event>) {
    |states| == |events| + 1 &&
    (events == [] ||
     (IsRun(states[..|events|], events[..|events| - 1])
      && Step(states[|events| - 1], events[|events| - 1], states[|events|])))
  }

  /** Under any interleaving of requests, closes and evictions the state that a run reaches is
      never over the cap, and admissions exclude each other. */
  lemma {:induction false} NeverOverCapacity(states: seq<Server>, events: seq<Event>, max: nat)
    requires IsRun(states, events) && max > 0 && states[0] == Server(NewLock(false), map[], None, max)
    ensures var s := states[|events|];
            && ServerInv(s) && s.max == max && |s.sessions| <= max
            && forall i, j :: Holds(s.lock, i) && Holds(s.lock, j) ==> i == j
  {
    var n := |events|;
    if n == 0 {
      assert Chain(NewLock(false), 0);
    } else {
      NeverOverCapacity(states[..n], events[..n - 1], max);
      StepKeepsServer(states[n - 1], events[n - 1], states[n]);
    }
    forall i, j | Holds(states[n].lock, i) && Holds(states[n].lock, j) ensures i == j {
      MutualExclusion(states[n].lock, i, j);
    }
  }

  /** The sessions closed to make room are always the least recently active at that moment. */
  lemma EvictsTheOldest(s: Server, i: nat, s': Server, kept: SessionId)
    requires Step(s, Evict(i), s') && kept in s'.sessions
    ensures exists gone :: gone in s.sessions && gone !in s'.sessions && Older(s.sessions, gone, kept)
                           && s'.sessions == s.sessions - {gone}
  {
    var gone :| Oldest(s.sessions, gone) && s' == s.(sessions := s.sessions - {gone});
  }

  lemma MakingShrinks(s: Server, e: Event, s': Server)
    requires Step(s, e, s') && s.admission == Some(Making)
    ensures |s'.sessions| + (if e.Evict? then 1 else 0) <= |s.sessions|
  {
    if e.Evict? {
      var id :| Oldest(s.sessions, id) && s' == s.(sessions := s.sessions - {id});
      SmallerMap(s.sessions, id);
    } else if e.Touch? {
      SizeAfterUpdate(s.sessions, e.id, e.now);
    } else if e.Close? {
      if e.id in s.sessions {
        SmallerMap(s.sessions, e.id);
      } else {
        assert s.sessions - {e.id} == s.sessions;
      }
    }
  }

  predicate AllMaking(states: seq<Server>) {
    forall n :: 0 <= n < |states| ==> states[n].admission == Some(Making)
  }

  /** Making room takes at most as many evictions as there are sessions, whatever else happens
      meanwhile: nobody adds one while an admission is making room. */
  lemma {:induction false} EvictionEnds(states: seq<Server>, events: seq<Event>)
    requires IsRun(states, events) && AllMaking(states[..|events|])
    ensures |states[|events|].sessions| + Evictions(events) <= |states[0].sessions|
  {
    var n := |events|;
    if n > 0 {
      assert states[..n][..n - 1] == states[..n - 1];
      assert states[..n][n - 1] == states[n - 1];
      EvictionEnds(states[..n], events[..n - 1]);
      MakingShrinks(states[n - 1], events[n - 1], states[n]);
    }
  }

  function Evictions(events: seq<Event>): nat {
    if events == [] then 0 else Evictions(events[..|events| - 1]) + (if events[|events| - 1].Evict? then 1 else 0)
  }
}
