/** The promise-chain mutex: each caller waits for the promise of the caller before it and
    leaves its own promise as the tail of the chain. */
module AsyncLock {
  import opened Basics

  /** A caller, known by its order of arrival; `previous` is the tail it found, if any. */
  datatype Phase = Waiting(previous: Option<nat>) | Holding(previous: Option<nat>) | Done(previous: Option<nat>)

  /** `cleans`: the last caller to leave removes the tail. */
  datatype Lock = Lock(cleans: bool, tail: Option<nat>, phases: seq<Phase>)

  function NewLock(cleans: bool): Lock {
    Lock(cleans, None, [])
  }

  /** The promise that a caller left has resolved: its operation is over, and so is the
      promise that it waited for. */
  predicate Resolved(phases: seq<Phase>, i: nat)
    requires i < |phases|
    decreases i
  {
    phases[i].Done? && (phases[i].previous.None? || (phases[i].previous.value < i && Resolved(phases, phases[i].previous.value)))
  }

  predicate CanEnter(l: Lock, i: nat) {
    && i < |l.phases| && l.phases[i].Waiting?
    && (l.phases[i].previous.None?
        || (l.phases[i].previous.value < i && Resolved(l.phases, l.phases[i].previous.value)))
  }

  predicate Holds(l: Lock, i: nat) {
    i < |l.phases| && l.phases[i].Holding?
  }

  function Arrive(l: Lock): Lock {
    Lock(l.cleans, Some(|l.phases|), l.phases + [Waiting(l.tail)])
  }

  function Enter(l: Lock, i: nat): Lock
    requires CanEnter(l, i)
  {
    l.(phases := l.phases[i := Holding(l.phases[i].previous)])
  }

  function Leave(l: Lock, i: nat): Lock
    requires Holds(l, i)
  {
    Lock(l.cleans, if l.cleans && l.tail == Some(i) then None else l.tail, l.phases[i := Done(l.phases[i].previous)])
  }

  datatype Step = Arriving | Entering(i: nat) | Leaving(i: nat)

  predicate Enabled(l: Lock, s: Step) {
    match s
    case Arriving => true
    case Entering(i) => CanEnter(l, i)
    case Leaving(i) => Holds(l, i)
  }

  function After(l: Lock, s: Step): Lock
    requires Enabled(l, s)
  {
    match s
    case Arriving => Arrive(l)
    case Entering(i) => Enter(l, i)
    case Leaving(i) => Leave(l, i)
  }

  class PromiseLock {
    var lock: Lock

    constructor (cleans: bool)
      ensures lock == NewLock(cleans)
    {
      lock := NewLock(cleans);
    }

    /** `const previous = tail; tail = current` */
    method Queue() returns (me: nat)
      modifies this
      ensures me == |old(lock).phases| && lock == Arrive(old(lock))
    {
      me := |lock.phases|;
      lock := lock.(tail := Some(me), phases := lock.phases + [Waiting(lock.tail)]);
    }

    /** `release()`, and the tail is dropped by the caller that still owns it. */
    method Release(me: nat)
      requires Holds(lock, me)
      modifies this
      ensures lock == Leave(old(lock), me)
    {
      lock := lock.(phases := lock.phases[me := Done(lock.phases[me].previous)]);
      if lock.cleans && lock.tail == Some(me) {
        lock := lock.(tail := None);
      }
    }
  }

  // -------------------------------------------------------------- every interleaving

  /** Callers before `m` are done, those after it wait, each for the one before it. */
  predicate Chain(l: Lock, m: nat) {
    && m <= |l.phases|
    && (forall i :: 0 <= i < m ==> l.phases[i].Done?)
    && (forall i :: m < i < |l.phases| ==> l.phases[i].Waiting?)
    && (m < |l.phases| ==> !l.phases[m].Done?)
    && (forall i :: 0 <= i < |l.phases| ==> l.phases[i].previous == None || l.phases[i].previous == Some(i - 1))
    && (forall i :: m < i < |l.phases| ==> l.phases[i].previous == Some(i - 1))
    && (m < |l.phases| ==> l.tail == Some(|l.phases| - 1))
    && (m == |l.phases| ==> (l.tail == None && (l.cleans || m == 0)) || (!l.cleans && m > 0 && l.tail == Some(m - 1)))
  }

  ghost predicate Inv(l: Lock) {
    exists m: nat :: Chain(l, m)
  }

  lemma {:induction false} DoneIsResolved(l: Lock, m: nat, i: nat)
    requires Chain(l, m) && i < |l.phases|
    ensures Resolved(l.phases, i) <==> i < m
    decreases i
  {
    if l.phases[i].previous.Some? && i > 0 {
      DoneIsResolved(l, m, i - 1);
    }
  }

  lemma StepKeepsChain(l: Lock, m: nat, s: Step)
    requires Chain(l, m) && Enabled(l, s)
    ensures Chain(After(l, s), if s.Leaving? then m + 1 else m)
    ensures s.Entering? || s.Leaving? ==> s.i == m
  {
    if s.Entering? && l.phases[s.i].previous.Some? {
      DoneIsResolved(l, m, s.i - 1);
    }
  }

  predicate Possible(l: Lock, steps: seq<Step>)
    decreases |steps|
  {
    steps == [] || (Enabled(l, steps[0]) && Possible(After(l, steps[0]), steps[1..]))
  }

  function Run(l: Lock, steps: seq<Step>): Lock
    requires Possible(l, steps)
    decreases |steps|
  {
    if steps == [] then l else Run(After(l, steps[0]), steps[1..])
  }

  lemma {:induction false} RunKeepsChain(l: Lock, m: nat, steps: seq<Step>) returns (m': nat)
    requires Chain(l, m) && Possible(l, steps)
    ensures m' >= m && Chain(Run(l, steps), m')
    decreases |steps|
  {
    m' := m;
    if steps != [] {
      StepKeepsChain(l, m, steps[0]);
      m' := RunKeepsChain(After(l, steps[0]), if steps[0].Leaving? then m + 1 else m, steps[1..]);
    }
  }

  lemma EveryRunIsAChain(cleans: bool, steps: seq<Step>)
    requires Possible(NewLock(cleans), steps)
    ensures Inv(Run(NewLock(cleans), steps))
  {
    assert Chain(NewLock(cleans), 0);
    var m := RunKeepsChain(NewLock(cleans), 0, steps);
  }

  /** At most one caller holds the lock. */
  lemma MutualExclusion(l: Lock, i: nat, j: nat)
    requires Inv(l) && Holds(l, i) && Holds(l, j)
    ensures i == j
  {
  }

  /** Callers are served in the order in which they came. */
  lemma FirstComeFirstServed(l: Lock, i: nat, j: nat)
    requires Inv(l) && j < i < |l.phases| && (CanEnter(l, i) || Holds(l, i) || l.phases[i].Done?)
    ensures l.phases[j].Done?
  {
    var m: nat :| Chain(l, m);
    if l.phases[i].Waiting? && l.phases[i].previous.Some? {
      DoneIsResolved(l, m, i - 1);
    }
  }

  /** Nobody waits in vain: while a caller waits, one holds the lock or the first in line may
      take it. */
  lemma SomeoneCanMove(l: Lock, i: nat) returns (k: nat)
    requires Inv(l) && i < |l.phases| && l.phases[i].Waiting?
    ensures k <= i && (Holds(l, k) || CanEnter(l, k))
  {
    var m: nat :| Chain(l, m);
    k := m;
    if l.phases[m].previous.Some? && m > 0 {
      DoneIsResolved(l, m, m - 1);
    }
  }

  /** A lock that cleans up has a tail exactly while someone holds or waits. */
  lemma EntryExistsExactlyWhileUsed(l: Lock)
    requires Inv(l) && l.cleans
    ensures l.tail.Some? <==> exists i :: 0 <= i < |l.phases| && !l.phases[i].Done?
  {
    var m: nat :| Chain(l, m);
    if m < |l.phases| {
      assert !l.phases[m].Done?;
    }
  }
}
