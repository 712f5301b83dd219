/** The owner's presentation grouping: audited merges of source conversations into a target,
    and the unmerges that undo them. */
module Grouping {
  import opened Basics

  type SourceId = Text
  type GroupId = Text

  datatype Group = Group(version: nat, locked: bool)
  datatype Action = Merge | Unmerge

  datatype Audit = Audit(
    target: GroupId, action: Action, sources: seq<SourceId>, previous: map<SourceId, GroupId>, version: nat, key: Text)

  type Members = map<SourceId, GroupId>

  /** Audits are append-only; an audit's id is its place. */
  datatype State = State(members: Members, groups: map<GroupId, Group>, audits: seq<Audit>)

  /** A command, and the ids that its sender is cleared to see. */
  datatype Command = Command(
    action: Action, target: GroupId, sources: seq<SourceId>, expected: nat, key: Text, audit: Option<nat>,
    clearedGroups: set<GroupId>, clearedSources: set<SourceId>)

  datatype Outcome = Accepted(audit: nat, version: nat, replayed: bool) | Rejected

  predicate Distinct(ids: seq<SourceId>) {
    forall i, j :: 0 <= i < j < |ids| ==> ids[i] != ids[j]
  }

  /** The sorted lists are equal. */
  predicate SameIds(a: seq<SourceId>, b: seq<SourceId>) {
    multiset(a) == multiset(b)
  }

  predicate WellFormed(c: Command) {
    c.sources != [] && Distinct(c.sources) && c.target !in c.sources && c.key != EMPTY_TEXT
    && (c.action.Unmerge? ==> c.audit.Some?)
  }

  predicate Authorized(s: State, c: Command) {
    c.target in s.groups && c.target in c.clearedGroups
    && forall id :: id in c.sources ==> id in s.members && id in c.clearedSources
  }

  /** The audit that used an idempotency key. */
  function FindKey(audits: seq<Audit>, key: Text): (i: nat)
    ensures i <= |audits|
    ensures i < |audits| ==> audits[i].key == key
    ensures forall j :: 0 <= j < i ==> audits[j].key != key
  {
    if audits == [] || audits[0].key == key then 0 else 1 + FindKey(audits[1..], key)
  }

  /** The merge that an unmerge names, if it may be undone by this command. */
  predicate UndoesAudit(s: State, c: Command) {
    && c.audit.Some? && c.audit.value < |s.audits|
    && var a := s.audits[c.audit.value];
    && a.action.Merge? && a.target == c.target && SameIds(a.sources, c.sources)
  }

  predicate AllIn(members: Members, sources: seq<SourceId>, target: GroupId) {
    forall id :: id in sources ==> id in members && members[id] == target
  }

  /** What a new command must find: an unlocked target at the expected version, and for an
      unmerge its audit and every source still in the target. */
  predicate Applicable(s: State, c: Command) {
    && c.target in s.groups && !s.groups[c.target].locked && s.groups[c.target].version == c.expected
    && (c.action.Unmerge? ==> UndoesAudit(s, c) && AllIn(s.members, c.sources, c.target))
  }

  function MoveAll(members: Members, sources: seq<SourceId>, target: GroupId): Members {
    if sources == [] then members else MoveAll(members, sources[..|sources| - 1], target)[sources[|sources| - 1] := target]
  }

  function RestoreAll(members: Members, sources: seq<SourceId>, recorded: Members): Members {
    if sources == [] then members
    else
      var before, id := RestoreAll(members, sources[..|sources| - 1], recorded), sources[|sources| - 1];
      if id in recorded then before[id := recorded[id]] else before
  }

  function PreviousGroups(members: Members, sources: seq<SourceId>): Members {
    map id | id in sources && id in members :: members[id]
  }

  function MembersAfter(s: State, c: Command): Members
    requires Applicable(s, c)
  {
    if c.action.Merge? then MoveAll(s.members, c.sources, c.target)
    else RestoreAll(s.members, c.sources, s.audits[c.audit.value].previous)
  }

  function AuditOf(s: State, c: Command): Audit
    requires Applicable(s, c)
  {
    Audit(c.target, c.action, c.sources, PreviousGroups(s.members, c.sources), s.groups[c.target].version + 1, c.key)
  }

  function OutcomeOf(s: State, c: Command): Outcome {
    var known := FindKey(s.audits, c.key);
    if !WellFormed(c) || !Authorized(s, c) then Rejected
    else if known < |s.audits| then
      var a := s.audits[known];
      if a.action == c.action && a.target == c.target && SameIds(a.sources, c.sources)
      then Accepted(known, a.version, true) else Rejected
    else if Applicable(s, c) then Accepted(|s.audits|, s.groups[c.target].version + 1, false)
    else Rejected
  }

  function Next(s: State, c: Command): State {
    var o := OutcomeOf(s, c);
    if o.Rejected? || o.replayed then s
    else
      s.(members := MembersAfter(s, c),
      groups := s.groups[c.target := s.groups[c.target].(version := s.groups[c.target].version + 1)],
      audits := s.audits + [AuditOf(s, c)])
  }

  class GroupingStore {
    var members: Members
    var groups: map<GroupId, Group>
    var audits: seq<Audit>

    function Contents(): State
      reads this
    {
      State(members, groups, audits)
    }

    constructor (s: State)
      ensures Contents() == s
    {
      members, groups, audits := s.members, s.groups, s.audits;
    }

    method MoveSources(sources: seq<SourceId>, target: GroupId)
      requires forall id :: id in sources ==> id in members
      modifies this`members
      ensures members == MoveAll(old(members), sources, target)
    {
      ghost var before := members;
      for i := 0 to |sources|
        invariant members == MoveAll(before, sources[..i], target)
        invariant forall id :: id in sources ==> id in members
      {
        assert sources[..i + 1][..i] == sources[..i];
        if members[sources[i]] != target {
          members := members[sources[i] := target];
        } else {
          assert members[sources[i] := target] == members;
        }
      }
      assert sources[..|sources|] == sources;
    }

    /** Stops at the first source that has left the target; what was moved by then stays moved
        until the transaction is rolled back. */
    method RestoreSources(sources: seq<SourceId>, target: GroupId, recorded: Members) returns (ok: bool)
      requires Distinct(sources) && forall id :: id in sources ==> id in members
      modifies this`members
      ensures ok <==> AllIn(old(members), sources, target)
      ensures ok ==> members == RestoreAll(old(members), sources, recorded)
    {
      var found := members;
      for i := 0 to |sources|
        invariant members == RestoreAll(found, sources[..i], recorded)
        invariant AllIn(found, sources[..i], target)
      {
        assert sources[..i + 1][..i] == sources[..i];
        if found[sources[i]] != target {
          return false;
        }
        if sources[i] in recorded {
          members := members[sources[i] := recorded[sources[i]]];
        }
      }
      assert sources[..|sources|] == sources;
      ok := true;
    }

    /** One command; a rejected one leaves nothing behind, even when a later source fails the
        check after earlier ones have been moved. */
    method Run(c: Command) returns (o: Outcome)
      modifies this
      ensures o == OutcomeOf(old(Contents()), c)
      ensures Contents() == Next(old(Contents()), c)
      ensures o.Rejected? ==> Contents() == old(Contents())
    {
      if !WellFormed(c) || !Authorized(Contents(), c) {
        return Rejected;
      }
      var known := FindKey(audits, c.key);
      if known < |audits| {
        var a := audits[known];
        return if a.action == c.action && a.target == c.target && SameIds(a.sources, c.sources)
               then Accepted(known, a.version, true) else Rejected;
      }
      var group := groups[c.target];
      if group.locked || group.version != c.expected {
        return Rejected;
      }
      var found := members;
      var previous := PreviousGroups(members, c.sources);
      if c.action.Merge? {
        MoveSources(c.sources, c.target);
      } else {
        if !UndoesAudit(Contents(), c) {
          return Rejected;
        }
        var ok := RestoreSources(c.sources, c.target, audits[c.audit.value].previous);
        if !ok {
          members := found;
          return Rejected;
        }
      }
      groups := groups[c.target := group.(version := group.version + 1)];
      audits := audits + [Audit(c.target, c.action, c.sources, previous, group.version + 1, c.key)];
      o := Accepted(|audits| - 1, group.version + 1, false);
    }
  }

  // --------------------------------------------------------- brackets and their undoing

  /** Commands that a caller sends: refused or replayed ones, and merges each followed, after
      more of the same, by its unmerge. */
  datatype Script =
    | Done
    | Idle(command: Command, rest: Script)
    | Bracket(merge: Command, inner: Script, undo: Command, rest: Script)

  function Play(s: State, script: Script): State
    decreases script
  {
    match script
    case Done => s
    case Idle(c, rest) => Play(Next(s, c), rest)
    case Bracket(merge, inner, undo, rest) => Play(Next(Play(Next(s, merge), inner), undo), rest)
  }

  predicate Takes(s: State, c: Command) {
    OutcomeOf(s, c).Accepted? && !OutcomeOf(s, c).replayed
  }

  /** Every bracket's merge and unmerge take effect, and the unmerge names its merge. */
  predicate Bracketed(s: State, script: Script)
    decreases script
  {
    match script
    case Done => true
    case Idle(c, rest) => !Takes(s, c) && Bracketed(Next(s, c), rest)
    case Bracket(merge, inner, undo, rest) =>
      var s1 := Next(s, merge);
      var s2 := Play(s1, inner);
      && Takes(s, merge) && merge.action.Merge?
      && Bracketed(s1, inner)
      && Takes(s2, undo) && undo.action.Unmerge? && undo.audit == Some(OutcomeOf(s, merge).audit)
      && Bracketed(Next(s2, undo), rest)
  }

  lemma {:induction false} AuditsOnlyGrow(s: State, script: Script)
    ensures s.audits <= Play(s, script).audits
    decreases script
  {
    match script
    case Done =>
    case Idle(c, rest) => AuditsOnlyGrow(Next(s, c), rest);
    case Bracket(merge, inner, undo, rest) =>
      AuditsOnlyGrow(Next(s, merge), inner);
      AuditsOnlyGrow(Next(Play(Next(s, merge), inner), undo), rest);
  }

  lemma {:induction false} MovedMember(members: Members, sources: seq<SourceId>, target: GroupId, id: SourceId)
    ensures var after := MoveAll(members, sources, target);
            && (id in after <==> id in members || id in sources)
            && (id in after ==> after[id] == if id in sources then target else members[id])
  {
    if sources != [] {
      MovedMember(members, sources[..|sources| - 1], target, id);
      assert id in sources <==> id in sources[..|sources| - 1] || id == sources[|sources| - 1];
    }
  }

  lemma {:induction false} RestoredMember(members: Members, sources: seq<SourceId>, recorded: Members, id: SourceId)
    ensures var after := RestoreAll(members, sources, recorded);
            && (id in after <==> id in members || (id in sources && id in recorded))
            && (id in after ==> after[id] == if id in sources && id in recorded then recorded[id] else members[id])
  {
    if sources != [] {
      RestoredMember(members, sources[..|sources| - 1], recorded, id);
      assert id in sources <==> id in sources[..|sources| - 1] || id == sources[|sources| - 1];
    }
  }

  lemma SameMembers(a: seq<SourceId>, b: seq<SourceId>, id: SourceId)
    requires SameIds(a, b)
    ensures id in a <==> id in b
  {
    assert id in a <==> id in multiset(a);
    assert id in b <==> id in multiset(b);
  }

  /** Restoring what a merge recorded undoes the merge. */
  lemma UndoRestores(members: Members, merged: seq<SourceId>, target: GroupId, undone: seq<SourceId>)
    requires SameIds(merged, undone) && forall id :: id in merged ==> id in members
    ensures RestoreAll(MoveAll(members, merged, target), undone, PreviousGroups(members, merged)) == members
  {
    var moved, recorded := MoveAll(members, merged, target), PreviousGroups(members, merged);
    var after := RestoreAll(moved, undone, recorded);
    forall id ensures id in after <==> id in members
      ensures id in after ==> after[id] == members[id]
    {
      MovedMember(members, merged, target, id);
      RestoredMember(moved, undone, recorded, id);
      SameMembers(merged, undone, id);
    }
  }

  /** Any well-bracketed sequence of merges and their unmerges is the identity on the map
      from sources to groups. */
  lemma {:induction false} BracketsCancel(s: State, script: Script)
    requires Bracketed(s, script)
    ensures Play(s, script).members == s.members
    decreases script
  {
    match script
    case Done =>
    case Idle(c, rest) => BracketsCancel(Next(s, c), rest);
    case Bracket(merge, inner, undo, rest) =>
      var s1 := Next(s, merge);
      var s2 := Play(s1, inner);
      BracketsCancel(s1, inner);
      AuditsOnlyGrow(s1, inner);
      assert s2.audits[|s.audits|] == AuditOf(s, merge);
      UndoRestores(s.members, merge.sources, merge.target, undo.sources);
      BracketsCancel(Next(s2, undo), rest);
  }

  /** Right after the inner commands of a bracket an unmerge by the same owner is refused for
      nothing but a stale version, a lock or a used key: its sources are all still there. */
  lemma BracketClosesExactly(s: State, merge: Command, inner: Script, undo: Command)
    requires Takes(s, merge) && merge.action.Merge? && Bracketed(Next(s, merge), inner)
    requires WellFormed(undo) && Authorized(Play(Next(s, merge), inner), undo)
    requires undo.action.Unmerge? && undo.target == merge.target && SameIds(merge.sources, undo.sources)
    requires undo.audit == Some(OutcomeOf(s, merge).audit)
    ensures var s2 := Play(Next(s, merge), inner);
            Takes(s2, undo) <==> && FindKey(s2.audits, undo.key) == |s2.audits| && !s2.groups[undo.target].locked
                                 && s2.groups[undo.target].version == undo.expected
  {
    var s1 := Next(s, merge);
    var s2 := Play(s1, inner);
    BracketsCancel(s1, inner);
    AuditsOnlyGrow(s1, inner);
    assert s2.audits[|s.audits|] == AuditOf(s, merge);
    forall id | id in undo.sources ensures id in s2.members && s2.members[id] == undo.target {
      SameMembers(merge.sources, undo.sources, id);
      MovedMember(s.members, merge.sources, merge.target, id);
    }
  }

  // ------------------------------------------------------------- versions and replays

  function AuditsFor(audits: seq<Audit>, group: GroupId): nat {
    if audits == [] then 0
    else AuditsFor(audits[..|audits| - 1], group) + (if audits[|audits| - 1].target == group then 1 else 0)
  }

  /** What else changes the state: imports add groups and sources, owners lock groups. */
  datatype Event =
    | AddGroup(group: GroupId)
    | AddSource(source: SourceId, into: GroupId)
    | SetLock(of: GroupId, locked: bool)
    | Send(command: Command)

  function After(s: State, e: Event): State {
    match e
    case AddGroup(g) => if g in s.groups then s else s.(groups := s.groups[g := Group(0, false)])
    case AddSource(id, g) => if g in s.groups then s.(members := s.members[id := g]) else s
    case SetLock(g, locked) => if g in s.groups then s.(groups := s.groups[g := s.groups[g].(locked := locked)]) else s
    case Send(c) => Next(s, c)
  }

  function Run(s: State, events: seq<Event>): State {
    if events == [] then s else After(Run(s, events[..|events| - 1]), events[|events| - 1])
  }

  /** A group's version counts its audits, which number it 1, 2, 3 and so on; keys are used
      once. */
  predicate Versioned(s: State) {
    && (forall g :: g in s.groups ==> s.groups[g].version == AuditsFor(s.audits, g))
    && (forall i :: 0 <= i < |s.audits| ==> s.audits[i].target in s.groups)
    && (forall i :: 0 <= i < |s.audits| ==> Numbered(s.audits, i))
  }

  predicate Numbered(audits: seq<Audit>, i: nat)
    requires i < |audits|
  {
    audits[i].version == AuditsFor(audits[..i], audits[i].target) + 1 && FindKey(audits, audits[i].key) == i
  }

  lemma {:induction false} NoAudits(audits: seq<Audit>, group: GroupId)
    requires forall i :: 0 <= i < |audits| ==> audits[i].target != group
    ensures AuditsFor(audits, group) == 0
  {
    if audits != [] {
      NoAudits(audits[..|audits| - 1], group);
    }
  }

  lemma {:induction false} FindKeyAppend(audits: seq<Audit>, last: Audit, key: Text)
    ensures FindKey(audits + [last], key)
            == if FindKey(audits, key) < |audits| then FindKey(audits, key)
               else if last.key == key then |audits| else |audits| + 1
  {
    if audits != [] {
      assert (audits + [last])[1..] == audits[1..] + [last];
      FindKeyAppend(audits[1..], last, key);
    }
  }

  lemma StillNumbered(audits: seq<Audit>, last: Audit, i: nat)
    requires i < |audits| && Numbered(audits, i)
    ensures Numbered(audits + [last], i)
  {
    FindKeyAppend(audits, last, audits[i].key);
    assert (audits + [last])[..i] == audits[..i] && (audits + [last])[i] == audits[i];
  }

  lemma NextNumbered(audits: seq<Audit>, last: Audit)
    requires FindKey(audits, last.key) == |audits| && last.version == AuditsFor(audits, last.target) + 1
    ensures Numbered(audits + [last], |audits|)
  {
    FindKeyAppend(audits, last, last.key);
    assert (audits + [last])[..|audits|] == audits;
  }

  lemma AppendKeepsVersions(s: State, s': State, last: Audit)
    requires Versioned(s) && last.target in s.groups && FindKey(s.audits, last.key) == |s.audits|
    requires last.version == s.groups[last.target].version + 1
    requires s'.audits == s.audits + [last]
    requires s'.groups == s.groups[last.target := s.groups[last.target].(version := last.version)]
    ensures Versioned(s')
  {
    forall i | 0 <= i < |s'.audits| ensures Numbered(s'.audits, i) {
      if i < |s.audits| {
        StillNumbered(s.audits, last, i);
      } else {
        NextNumbered(s.audits, last);
      }
    }
    assert s'.audits[..|s.audits|] == s.audits;
    forall g | g in s'.groups ensures s'.groups[g].version == AuditsFor(s'.audits, g) {
    }
  }

  lemma AfterKeepsVersions(s: State, e: Event)
    requires Versioned(s)
    ensures Versioned(After(s, e))
  {
    match e
    case AddGroup(g) =>
      if g !in s.groups {
        NoAudits(s.audits, g);
      }
    case AddSource(_, _) =>
    case SetLock(_, _) =>
    case Send(c) =>
      if Takes(s, c) {
        AppendKeepsVersions(s, Next(s, c), AuditOf(s, c));
      }
  }

  lemma {:induction false} VersionsCountAudits(events: seq<Event>)
    ensures Versioned(Run(State(map[], map[], []), events))
  {
    if events != [] {
      VersionsCountAudits(events[..|events| - 1]);
      AfterKeepsVersions(Run(State(map[], map[], []), events[..|events| - 1]), events[|events| - 1]);
    }
  }

  lemma KeyStaysFound(audits: seq<Audit>, more: seq<Audit>, key: Text)
    requires FindKey(audits, key) < |audits| && audits <= more
    ensures FindKey(more, key) == FindKey(audits, key)
  {
    var i := FindKey(audits, key);
    assert more[i].key == key;
    forall j | 0 <= j < i ensures more[j].key != key {
      assert more[j] == audits[j];
    }
  }

  /** A command sent again, however much later, changes nothing and gets the answer it got the
      first time; its key answers nothing else. */
  lemma ReplaysAnswerAlike(s: State, c: Command, later: State, again: Command)
    requires Takes(s, c) && Next(s, c).audits <= later.audits
    requires again.key == c.key && WellFormed(again) && Authorized(later, again)
    ensures Next(later, again) == later
    ensures OutcomeOf(later, again)
            == if again.action == c.action && again.target == c.target && SameIds(c.sources, again.sources)
               then OutcomeOf(s, c).(replayed := true) else Rejected
  {
    FindKeyAppend(s.audits, AuditOf(s, c), c.key);
    KeyStaysFound(Next(s, c).audits, later.audits, c.key);
    assert later.audits[|s.audits|] == AuditOf(s, c);
  }

  // ------------------------------------------------- what a new command must find and leaves

  /** The named audit is a merge of just these sources into this target. */
  predicate NamesMerge(s: State, c: Command) {
    && c.audit != None && c.audit.value < |s.audits|
    && s.audits[c.audit.value].action == Merge && s.audits[c.audit.value].target == c.target
    && multiset(s.audits[c.audit.value].sources) == multiset(c.sources)
  }

  /** In every reachable state a new command takes effect exactly when it names at least one
      source, each once and none of them the target, all known and cleared, a target that is not
      locked and the number of changes that the target has seen; and, to undo, a merge of just
      these sources that are all still there. */
  lemma TakesExactly(events: seq<Event>, c: Command)
    requires c.key != EMPTY_TEXT && forall a :: a in Run(State(map[], map[], []), events).audits ==> a.key != c.key
    ensures var s := Run(State(map[], map[], []), events);
            Takes(s, c)
            <==> && c.sources != [] && (forall i, j :: 0 <= i < j < |c.sources| ==> c.sources[i] != c.sources[j])
                 && c.target !in c.sources && c.target in s.groups && c.target in c.clearedGroups
                 && (forall id :: id in c.sources ==> id in s.members && id in c.clearedSources)
                 && !s.groups[c.target].locked && c.expected == AuditsFor(s.audits, c.target)
                 && (c.action == Unmerge ==> NamesMerge(s, c) && forall id :: id in c.sources ==> s.members[id] == c.target)
  {
    var s := Run(State(map[], map[], []), events);
    VersionsCountAudits(events);
    assert FindKey(s.audits, c.key) == |s.audits|;
  }

  /** What a command that takes effect leaves: a merge brings its sources into the target, an
      unmerge takes each back to where the merge had found it, every other source stays; and the
      audit says where the sources were. */
  lemma CommandTells(s: State, c: Command, id: SourceId)
    requires Takes(s, c)
    ensures var s' := Next(s, c);
            && (id in s'.members <==> id in s.members)
            && (id in s.members && id !in c.sources ==> s'.members[id] == s.members[id])
            && (c.action == Merge && id in c.sources ==> s'.members[id] == c.target)
            && (c.action == Unmerge && id in c.sources && id in s.audits[c.audit.value].previous ==>
                  s'.members[id] == s.audits[c.audit.value].previous[id])
            && |s'.audits| == |s.audits| + 1 && s'.audits[..|s.audits|] == s.audits
            && var a := s'.audits[|s.audits|];
               && a.target == c.target && a.action == c.action && a.sources == c.sources && a.key == c.key
               && (id in c.sources ==> id in a.previous && a.previous[id] == s.members[id])
               && a.version == s.groups[c.target].version + 1 && s'.groups[c.target].version == a.version
  {
    if c.action.Merge? {
      MovedMember(s.members, c.sources, c.target, id);
    } else {
      RestoredMember(s.members, c.sources, s.audits[c.audit.value].previous, id);
    }
  }

  lemma {:induction false} VersionsGrow(s: State, events: seq<Event>, g: GroupId)
    requires g in s.groups
    ensures g in Run(s, events).groups && s.groups[g].version <= Run(s, events).groups[g].version
  {
    if events != [] {
      VersionsGrow(s, events[..|events| - 1], g);
    }
  }

  /** Of two commands that expect one version of one target at most one takes effect, however long
      after the other. */
  lemma OneCommandPerVersion(s: State, c: Command, events: seq<Event>, other: Command)
    requires Takes(s, c) && other.target == c.target && other.expected == c.expected
    ensures !Takes(Run(Next(s, c), events), other)
  {
    VersionsGrow(Next(s, c), events, c.target);
  }
}
