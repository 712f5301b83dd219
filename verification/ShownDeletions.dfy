/** Whether the deletion that a visible message shows is that of an eligible tombstone: exactly
    which imports keep that, and one that does not. */
module ShownDeletions {
  import opened Basics
  import opened ArchiveRows
  import opened TextImport
  import opened CachedView
  import opened Arrivals
  import opened Materialization
  import opened Eligibility
  import opened ArchiveRuns
  import opened RunReplies
  import opened ShownBodies

  /** When a message was deleted, and under which event. */
  datatype Tomb = Tomb(at: Time, key: Text)

  /** What a reader sees of a message's deletion. */
  datatype Mark = Mark(tomb: Option<Tomb>, materialized: bool)
  type Marks = map<MsgKey, Mark>

  function KeyOrEmpty(key: Option<Text>): Text {
    if key.Some? then key.value else EMPTY_TEXT
  }

  function TombOf(row: MessageRow): Option<Tomb> {
    if row.deletedAt.Some? then Some(Tomb(row.deletedAt.value, KeyOrEmpty(row.deletionKey))) else None
  }

  function MarksOf(rows: Rows): Marks {
    map m | m in rows :: Mark(TombOf(rows[m]), rows[m].materialized)
  }

  /** The observation is this tombstone. */
  function IsTomb(t: Tomb): Question {
    (id: ObsId, o: Observation) => id.kind.Tombstone? && o.observedAt == t.at && id.obsKey == t.key
  }

  ghost predicate TruthfulMark(mark: Mark, ledger: Ledger, m: MsgKey) {
    mark.materialized && mark.tomb.Some? ==> Affirmed(ledger, m, IsTomb(mark.tomb.value))
  }

  /** Every deletion that a visible message shows is that of one of its eligible tombstones. */
  ghost predicate Truthful(marks: Marks, ledger: Ledger) {
    forall m :: m in marks ==> TruthfulMark(marks[m], ledger, m)
  }

  // ------------------------------------------------------- what an import leaves

  /** The later of two tombstones, or, of equally late ones, that with the greater key. */
  function Later(a: Option<Tomb>, b: Option<Tomb>): Option<Tomb> {
    if b.Some? && (a.None? || b.value.at > a.value.at || (b.value.at == a.value.at && b.value.key > a.value.key)) then b else a
  }

  function ArrivingTomb(ctx: Ctx, a: Arrival): Option<Tomb> {
    var d := a.c.record.deletion;
    if d.Some? then Some(Tomb(DeletionTime(ctx, d.value), d.value.eventKey)) else None
  }

  function MarkOne(marks: Marks, ctx: Ctx, a: Arrival): Marks {
    var tomb := ArrivingTomb(ctx, a);
    if a.key !in marks then marks[a.key := Mark(tomb, ctx.eligible)]
    else if ctx.eligible then marks[a.key := Mark(Later(marks[a.key].tomb, tomb), true)]
    else marks
  }

  function MarkAll(marks: Marks, ctx: Ctx, arrivals: seq<Arrival>): Marks {
    if arrivals == [] then marks else MarkOne(MarkAll(marks, ctx, arrivals[..|arrivals| - 1]), ctx, arrivals[|arrivals| - 1])
  }

  lemma OneMergeMarks(bare: Rows, ctx: Ctx, a: Arrival)
    ensures MarksOf(MergeOne(bare, ctx, a)) == MarkOne(MarksOf(bare), ctx, a)
  {
  }

  lemma {:induction false} MergesMark(bare: Rows, ctx: Ctx, arrivals: seq<Arrival>)
    ensures MarksOf(MergeAll(bare, ctx, arrivals)) == MarkAll(MarksOf(bare), ctx, arrivals)
  {
    if arrivals != [] {
      var n := |arrivals| - 1;
      MergesMark(bare, ctx, arrivals[..n]);
      OneMergeMarks(MergeAll(bare, ctx, arrivals[..n]), ctx, arrivals[n]);
    }
  }

  lemma BareMarks(rows: Rows)
    ensures MarksOf(BareRows(rows)) == MarksOf(rows)
  {
  }

  lemma ImportMarks(s: Session, ctx: Ctx, buffer: seq<MessageRecord>, records: seq<ImportRecord>)
    requires ImportFrom(s, ctx, buffer, records).Some?
    ensures MarksOf(ImportFrom(s, ctx, buffer, records).value.rows)
            == MarkAll(MarksOf(s.rows), ctx, ArrivalsAt(s, ctx, buffer, records))
  {
    ImportMerges(s, ctx, buffer, records);
    MergesMark(BareRows(s.rows), ctx, ArrivalsAt(s, ctx, buffer, records));
    BareMarks(s.rows);
    BareMarks(ImportFrom(s, ctx, buffer, records).value.rows);
  }

  // ---------------------------------------------------- which imports stay truthful

  function TombBefore(marks: Marks, m: MsgKey): Option<Tomb> {
    if m in marks then marks[m].tomb else None
  }

  /** The latest of the tombstone that the message shows and of all that the import brings it. */
  function LatestTomb(marks: Marks, ctx: Ctx, arrivals: seq<Arrival>, m: MsgKey): Option<Tomb> {
    if arrivals == [] then TombBefore(marks, m)
    else
      var before, last := LatestTomb(marks, ctx, arrivals[..|arrivals| - 1], m), arrivals[|arrivals| - 1];
      if last.key == m then Later(before, ArrivingTomb(ctx, last)) else before
  }

  lemma {:induction false} NoTombArrives(marks: Marks, ctx: Ctx, arrivals: seq<Arrival>, m: MsgKey)
    requires !Arrives(arrivals, m)
    ensures LatestTomb(marks, ctx, arrivals, m) == TombBefore(marks, m)
  {
    if arrivals != [] {
      assert arrivals[|arrivals| - 1] in arrivals;
      assert forall a :: a in arrivals[..|arrivals| - 1] ==> a in arrivals;
      NoTombArrives(marks, ctx, arrivals[..|arrivals| - 1], m);
    }
  }

  lemma {:induction false} MarkedAfter(marks: Marks, ctx: Ctx, arrivals: seq<Arrival>, m: MsgKey)
    ensures var after := MarkAll(marks, ctx, arrivals);
            && (m in after <==> m in marks || Arrives(arrivals, m))
            && (m in after && ctx.eligible ==>
                  after[m].tomb == LatestTomb(marks, ctx, arrivals, m)
                  && (after[m].materialized <==> Arrives(arrivals, m) || (m in marks && marks[m].materialized)))
            && (m in marks && !ctx.eligible ==> after[m] == marks[m])
            && (m in after && m !in marks && !ctx.eligible ==> !after[m].materialized)
  {
    if arrivals != [] {
      var n := |arrivals| - 1;
      assert Arrives(arrivals, m) <==> Arrives(arrivals[..n], m) || arrivals[n].key == m by {
        assert forall a :: a in arrivals <==> a in arrivals[..n] || a == arrivals[n];
      }
      MarkedAfter(marks, ctx, arrivals[..n], m);
      if !Arrives(arrivals[..n], m) {
        NoTombArrives(marks, ctx, arrivals[..n], m);
      }
    }
  }

  /** The deletion that an arriving message will show is on record for it, before or by this import. */
  ghost predicate TombAccounted(marks: Marks, ledger: Ledger, ctx: Ctx, arrivals: seq<Arrival>, m: MsgKey) {
    var tomb := LatestTomb(marks, ctx, arrivals, m);
    tomb.Some? ==> Affirmed(ledger, m, IsTomb(tomb.value)) || Affirms(ledger, ctx, arrivals, m, IsTomb(tomb.value))
  }

  lemma MessageStaysTruthfulExactly(marks: Marks, ledger: Ledger, ctx: Ctx, arrivals: seq<Arrival>, m: MsgKey)
    requires m in marks ==> TruthfulMark(marks[m], ledger, m)
    ensures var after := MarkAll(marks, ctx, arrivals);
            && (m in after <==> m in marks || Arrives(arrivals, m))
            && (m in after ==>
                  (TruthfulMark(after[m], RecordAll(ledger, ctx, arrivals), m)
                   <==> (ctx.eligible && Arrives(arrivals, m) ==> TombAccounted(marks, ledger, ctx, arrivals, m))))
  {
    MarkedAfter(marks, ctx, arrivals, m);
    if LatestTomb(marks, ctx, arrivals, m).Some? {
      AffirmedAfter(ledger, ctx, arrivals, m, IsTomb(LatestTomb(marks, ctx, arrivals, m).value));
    }
    if TombBefore(marks, m).Some? {
      AffirmedAfter(ledger, ctx, arrivals, m, IsTomb(TombBefore(marks, m).value));
    }
    if !Arrives(arrivals, m) {
      NoTombArrives(marks, ctx, arrivals, m);
    }
  }

  ghost predicate TombsAccounted(marks: Marks, ledger: Ledger, ctx: Ctx, arrivals: seq<Arrival>) {
    ctx.eligible ==> forall a :: a in arrivals ==> TombAccounted(marks, ledger, ctx, arrivals, a.key)
  }

  /** An import leaves every visible deletion that of an eligible tombstone, if and only if it is
      excluded, or the latest tombstone of each message that it meets is on record for it. */
  lemma ImportStaysTruthfulExactly(s: Session, ctx: Ctx, buffer: seq<MessageRecord>, records: seq<ImportRecord>)
    requires ImportFrom(s, ctx, buffer, records).Some? && Truthful(MarksOf(s.rows), s.ledger)
    ensures var s' := ImportFrom(s, ctx, buffer, records).value;
            Truthful(MarksOf(s'.rows), s'.ledger)
            <==> TombsAccounted(MarksOf(s.rows), s.ledger, ctx, ArrivalsAt(s, ctx, buffer, records))
  {
    var marks, arrivals := MarksOf(s.rows), ArrivalsAt(s, ctx, buffer, records);
    ImportMarks(s, ctx, buffer, records);
    ImportShows(s, ctx, buffer, records);
    forall m
      ensures m in MarkAll(marks, ctx, arrivals) <==> m in marks || Arrives(arrivals, m)
      ensures m in MarkAll(marks, ctx, arrivals) ==>
                (TruthfulMark(MarkAll(marks, ctx, arrivals)[m], RecordAll(s.ledger, ctx, arrivals), m)
                 <==> (ctx.eligible && Arrives(arrivals, m) ==> TombAccounted(marks, s.ledger, ctx, arrivals, m)))
    {
      MessageStaysTruthfulExactly(marks, s.ledger, ctx, arrivals, m);
    }
    forall a | a in arrivals ensures Arrives(arrivals, a.key) {
      assert a in arrivals && a.key == a.key;
    }
  }

  // ------------------------------------------------------------- decisions, and runs

  ghost predicate WorldTruthful(w: World) {
    Truthful(MarksOf(w.rows), w.ledger)
  }

  lemma RecomputedIsTruthful(row: MessageRow, ledger: Ledger, listing: seq<ObsId>, m: MsgKey)
    ensures var after := Rematerialize(row, EntriesOf(ledger, listing, m));
            TruthfulMark(Mark(TombOf(after), after.materialized), ledger, m)
  {
    var entries := EntriesOf(ledger, listing, m);
    var after := Rematerialize(row, entries);
    RecomputationTells(row, entries);
    if TombOf(after).Some? {
      var e :| LatestTombstone(e, EligibleOf(entries)) && ShowsTombstone(after, e);
      assert e.id in ledger && ledger[e.id] == e.o && IsTomb(TombOf(after).value)(e.id, e.o);
    }
  }

  /** A decision leaves every visible deletion that of an eligible tombstone. */
  lemma DecisionStaysTruthful(w: World, job: Text, eligible: bool, listing: Listing)
    requires WorldTruthful(w) && ListsWorld(w, listing)
    ensures WorldTruthful(Decide(w, job, eligible, listing))
  {
    var w' := Decide(w, job, eligible, listing);
    var ids := Affected(w'.ledger, listing.messages, job);
    forall m | m in w'.rows ensures TruthfulMark(MarksOf(w'.rows)[m], w'.ledger, m) {
      RecomputedRow(w.rows, w'.ledger, listing.messages, ids, m);
      if m in ids {
        RecomputedIsTruthful(w.rows[m], w'.ledger, listing.messages, m);
      } else {
        assert TruthfulMark(MarksOf(w.rows)[m], w.ledger, m);
        forall id | id in w.ledger && id.job == job ensures w.ledger[id].message != m {
          assert id in listing.messages && id in w'.ledger;
        }
        if TombOf(w.rows[m]).Some? {
          UnaffectedAnswer(w.ledger, job, eligible, m, IsTomb(TombOf(w.rows[m]).value));
        }
      }
    }
  }

  /** A committed import has on record every deletion that it leaves visible. */
  ghost predicate AccountsForTombs(w: World, c: Command) {
    c.ImportJob? && c.job in w.jobs && Imported(w, c).Some? ==>
      TombsAccounted(MarksOf(w.rows), w.ledger, ContextOf(w, c), ArrivalsAt(StartOf(w), ContextOf(w, c), [], OrderedRecords(c.source)))
  }

  lemma ApplyStaysTruthful(w: World, job: Text, key: Text, eligible: bool, listing: Listing, ending: Ending)
    requires WorldTruthful(w) && ListsWorld(w, listing)
    ensures WorldTruthful(Apply(w, job, key, eligible, listing, ending))
  {
    if job in w.jobs && ending == Commits {
      DecisionStaysTruthful(w, job, eligible, listing);
    }
  }

  lemma NextStaysTruthfulExactly(w: World, c: Command)
    requires WorldTruthful(w) && Listed(w, c)
    ensures WorldTruthful(Next(w, c)) <==> AccountsForTombs(w, c)
  {
    match c
    case CreateJob(_) =>
    case ImportJob(_, _, _, _, _, _) =>
      if c.job in w.jobs && Imported(w, c).Some? {
        ImportStaysTruthfulExactly(StartOf(w), ContextOf(w, c), [], OrderedRecords(c.source));
      }
    case ApplyRun(job, key, eligible, listing, ending) => ApplyStaysTruthful(w, job, key, eligible, listing, ending);
    case MoveSource(_, _) =>
  }

  ghost predicate AllAccountForTombs(w: World, commands: seq<Command>) {
    commands == [] ||
    (AllAccountForTombs(w, commands[..|commands| - 1]) && AccountsForTombs(Run(w, commands[..|commands| - 1]), commands[|commands| - 1]))
  }

  ghost predicate AlwaysTruthful(w: World, commands: seq<Command>) {
    WorldTruthful(Run(w, commands)) && (commands == [] || AlwaysTruthful(w, commands[..|commands| - 1]))
  }

  /** The runs in which every visible deletion is always that of an eligible tombstone are exactly
      those whose imports all account for theirs. */
  lemma {:induction false} AlwaysTruthfulExactly(commands: seq<Command>)
    requires AllListed(EMPTY_ARCHIVE, commands)
    ensures AlwaysTruthful(EMPTY_ARCHIVE, commands) <==> AllAccountForTombs(EMPTY_ARCHIVE, commands)
  {
    if commands != [] {
      var before := commands[..|commands| - 1];
      AlwaysTruthfulExactly(before);
      if AlwaysTruthful(EMPTY_ARCHIVE, before) {
        assert WorldTruthful(Run(EMPTY_ARCHIVE, before));
        NextStaysTruthfulExactly(Run(EMPTY_ARCHIVE, before), commands[|commands| - 1]);
      }
    }
  }

  // -------------------------------------------------------------- a deletion exposed

  /** A hidden deletion that no eligible observation holds is not accounted for by a message
      that brings none. */
  lemma LivingArrival(marks: Marks, ledger: Ledger, ctx: Ctx, arrivals: seq<Arrival>)
    requires |arrivals| == 1 && arrivals[0].c.record.deletion.None? && ctx.eligible
    requires arrivals[0].key in marks && marks[arrivals[0].key].tomb.Some?
    requires forall id :: id in ledger ==> !ledger[id].eligible
    ensures !TombsAccounted(marks, ledger, ctx, arrivals)
  {
    assert arrivals[..0] == [] && LatestTomb(marks, ctx, arrivals[..0], arrivals[0].key) == marks[arrivals[0].key].tomb;
    assert arrivals[0] in arrivals;
  }

  lemma FirstMark(w: World, ctx: Ctx, m: MessageRecord, namespace: Text, sourceKey: Text)
    requires Fits(w.jobs, ctx) && w.rows == map[] && w.ledger == map[]
    ensures var c := Candidate(m, SourceConv(ctx.account, namespace, sourceKey));
            MarksOf(Next(w, ImportOf(ctx, m, namespace, sourceKey)).rows)
            == map[Base(m.stableKey) := Mark(ArrivingTomb(ctx, Arrival(c, Base(m.stableKey))), ctx.eligible)]
  {
    var c := FirstMessage(w, ctx, m, namespace, sourceKey);
    var records := OneMessageOf(m, namespace, sourceKey);
    OneStreamIsRead(records);
    OneMessageIsAccepted(StartOf(w), ctx, m, namespace, sourceKey);
    OneMessageArrives(StartOf(w), ctx, m, namespace, sourceKey);
    ImportMarks(StartOf(w), ctx, [], records);
    var arrivals := [Arrival(c, Base(m.stableKey))];
    assert arrivals[..0] == [];
    assert MarkAll(map[], ctx, arrivals) == MarkOne(map[], ctx, arrivals[0]);
    assert ContextOf(w, ImportOf(ctx, m, namespace, sourceKey)) == ctx;
  }

  /** An excluded import brings a message deleted, then an eligible one brings it alive: the
      message is shown deleted, by the excluded tombstone. */
  lemma ExcludedDeletionIsExposed(w: World, hidden: Ctx, visible: Ctx, m: MessageRecord, namespace: Text, sourceKey: Text)
    requires w.rows == map[] && w.ledger == map[] && Fits(w.jobs, hidden) && Fits(w.jobs, visible)
    requires !hidden.eligible && visible.eligible && hidden.account == visible.account && m.deletion.Some?
    ensures var w1 := Next(w, ImportOf(hidden, m, namespace, sourceKey));
            && WorldTruthful(w1)
            && !WorldTruthful(Next(w1, ImportOf(visible, m.(deletion := None), namespace, sourceKey)))
  {
    var c := FirstMessage(w, hidden, m, namespace, sourceKey);
    var w1, alive := Next(w, ImportOf(hidden, m, namespace, sourceKey)), m.(deletion := None);
    var key := Base(m.stableKey);
    FirstMark(w, hidden, m, namespace, sourceKey);
    FirstIsPlaced(w, hidden, m, namespace, sourceKey);
    assert key in MarksOf(w1.rows) && !MarksOf(w1.rows)[key].materialized && MarksOf(w1.rows)[key].tomb.Some?;
    assert WorldTruthful(w1);
    var records := OneMessageOf(alive, namespace, sourceKey);
    OneStreamIsRead(records);
    NextStaysFit(w, ImportOf(hidden, m, namespace, sourceKey));
    OneMessageIsAccepted(StartOf(w1), visible, alive, namespace, sourceKey);
    OneMessageArrives(StartOf(w1), visible, alive, namespace, sourceKey);
    var arrivals := ArrivalsAt(StartOf(w1), visible, [], records);
    assert |arrivals| == 1 && arrivals[0].c.record == alive && arrivals[0].key == key;
    LivingArrival(MarksOf(w1.rows), w1.ledger, visible, arrivals);
    assert ContextOf(w1, ImportOf(visible, alive, namespace, sourceKey)) == visible;
    NextStaysTruthfulExactly(w1, ImportOf(visible, alive, namespace, sourceKey));
  }
}
