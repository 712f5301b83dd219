/** The participants of conversations: an import lists them under the conversation to which their
    source belongs, and regrouping a source is what can make the table refuse it. */
module Participants {
  import opened Basics
  import opened ArchiveRows
  import opened TextImport

  /** One person in one conversation: at most one row each. */
  datatype Place = Place(conversation: ConvKey, person: Text)

  /** The source conversation that listed each of them first. */
  type Listings = map<Place, SourceConv>

  /** The other unique index: a source conversation lists a person once. */
  predicate OncePerSource(rows: Listings) {
    forall a, b :: a in rows && b in rows && rows[a] == rows[b] && a.person == b.person ==> a == b
  }

  predicate CanList(rows: Listings, conversation: ConvKey, source: SourceConv, person: Text) {
    Place(conversation, person) in rows || forall a :: a in rows && rows[a] == source ==> a.person != person
  }

  function Listed(rows: Listings, conversation: ConvKey, source: SourceConv, person: Text): Listings {
    var place := Place(conversation, person);
    if place in rows then rows else rows[place := source]
  }

  class ParticipantTable {
    var rows: Listings

    constructor ()
      ensures rows == map[]
    {
      rows := map[];
    }

    /** One upsert: a person who is there keeps the row; a new row is refused when the source
        lists the person elsewhere. */
    method ImportParticipant(conversation: ConvKey, source: SourceConv, person: Text) returns (ok: bool)
      requires OncePerSource(rows)
      modifies this
      ensures OncePerSource(rows)
      ensures ok <==> CanList(old(rows), conversation, source, person)
      ensures rows == if ok then Listed(old(rows), conversation, source, person) else old(rows)
    {
      var place := Place(conversation, person);
      if place in rows {
        return true;
      }
      if exists a :: a in rows && rows[a] == source && a.person == person {
        return false;
      }
      rows := rows[place := source];
      ok := true;
    }
  }

  // ------------------------------------------------------------------- over any run

  datatype Event =
    | Introduce(source: SourceConv, key: Text)
    | List(source: SourceConv, person: Text)
    | Move(source: SourceConv, group: ConvKey)

  datatype State = State(filings: Filings, rows: Listings)

  /** One event; a participant of a conversation that was never introduced is skipped. */
  function Step(s: State, e: Event): Option<State> {
    match e
    case Introduce(source, key) => Some(s.(filings := FileSource(s.filings, source, key)))
    case List(source, person) =>
      if source !in s.filings then Some(s)
      else if !CanList(s.rows, s.filings[source], source, person) then None
      else Some(s.(rows := Listed(s.rows, s.filings[source], source, person)))
    case Move(source, group) => Some(if source in s.filings then s.(filings := s.filings[source := group]) else s)
  }

  /** Events until one is refused. */
  function Run(s: State, events: seq<Event>): Option<State> {
    if events == [] then Some(s)
    else
      match Run(s, events[..|events| - 1])
      case None => None
      case Some(s') => Step(s', events[|events| - 1])
  }

  const EMPTY := State(map[], map[])

  lemma {:induction false} RunStaysUnique(s: State, events: seq<Event>)
    requires OncePerSource(s.rows) && Run(s, events).Some?
    ensures OncePerSource(Run(s, events).value.rows)
  {
    if events != [] {
      RunStaysUnique(s, events[..|events| - 1]);
    }
  }

  predicate Moves(events: seq<Event>, source: SourceConv) {
    exists e :: e in events && e.Move? && e.source == source
  }

  /** Every listing of this source stands where it belongs now. */
  predicate AtHome(s: State, source: SourceConv) {
    forall a :: a in s.rows && s.rows[a] == source ==> source in s.filings && s.filings[source] == a.conversation
  }

  lemma {:induction false} UnmovedStaysHome(events: seq<Event>, source: SourceConv)
    requires Run(EMPTY, events).Some? && !Moves(events, source)
    ensures AtHome(Run(EMPTY, events).value, source)
  {
    if events != [] {
      var n := |events| - 1;
      assert events[n] in events && forall e :: e in events[..n] ==> e in events;
      UnmovedStaysHome(events[..n], source);
    }
  }

  /** A source that is never regrouped is never refused. */
  lemma UnmovedIsAccepted(events: seq<Event>, source: SourceConv, person: Text)
    requires Run(EMPTY, events).Some? && !Moves(events, source)
    ensures Step(Run(EMPTY, events).value, List(source, person)).Some?
  {
    UnmovedStaysHome(events, source);
  }

  /** Without regroupings no run is refused. */
  lemma {:induction false} UngroupedRunsAreAccepted(events: seq<Event>)
    requires forall source :: !Moves(events, source)
    ensures Run(EMPTY, events).Some?
  {
    if events != [] {
      var n := |events| - 1;
      assert forall e :: e in events[..n] ==> e in events;
      assert forall source :: Moves(events[..n], source) ==> Moves(events, source);
      UngroupedRunsAreAccepted(events[..n]);
      if events[n].List? {
        UnmovedIsAccepted(events[..n], events[n].source, events[n].person);
      }
    }
  }

  /** The run is accepted up to here; the source has been introduced, and lists the person where
      it has always belonged. */
  predicate ListsAtHome(events: seq<Event>, source: SourceConv, person: Text) {
    && Run(EMPTY, events).Some? && !Moves(events, source)
    && source in Run(EMPTY, events).value.filings
    && var s := Run(EMPTY, events).value;
       Place(s.filings[source], person) in s.rows && s.rows[Place(s.filings[source], person)] == source
  }

  /** A source that lists a person is refused the person after a regrouping exactly when it ends in
      another conversation that does not have the person; moved back it is accepted again. */
  lemma RegroupedIsRefusedExactly(events: seq<Event>, source: SourceConv, person: Text, group: ConvKey)
    requires ListsAtHome(events, source, person)
    ensures var s := Run(EMPTY, events).value;
            var moved := Step(s, Move(source, group)).value;
            && (Step(moved, List(source, person)).None? <==> group != s.filings[source] && Place(group, person) !in s.rows)
            && Step(Step(moved, Move(source, s.filings[source])).value, List(source, person)).Some?
  {
    var s := Run(EMPTY, events).value;
    var home := Place(s.filings[source], person);
    assert home in s.rows && s.rows[home] == source && home.person == person;
    UnmovedStaysHome(events, source);
    RunStaysUnique(EMPTY, events);
  }
}
