/** The ledger is append-only, and importing the same records again adds nothing to it. */
module Replay {
  import opened Basics
  import opened ArchiveRows
  import opened TextImport
  import opened ReplyResolution
  import opened CachedRevisions
  import opened Eligibility
  import opened ArchiveRuns

  function IdsOf(ctx: Ctx, cands: seq<Candidate>): set<ObsId> {
    if cands == [] then {} else IdsOf(ctx, cands[..|cands| - 1]) + {ObsIdFor(ctx, cands[|cands| - 1])}
  }

  /** What one record makes an import observe, and how it goes on. */
  function StepIds(conversations: Conversations, ctx: Ctx, buffer: seq<MessageRecord>, r: ImportRecord): set<ObsId> {
    if r.AMessage? && |buffer| + 1 < MESSAGE_BATCH_SIZE then {}
    else IdsOf(ctx, Candidates(conversations, if r.AMessage? then buffer + [r.message] else buffer))
  }

  /** The observations of an import's messages, whatever the archive holds before it. */
  function ImportIds(conversations: Conversations, ctx: Ctx, buffer: seq<MessageRecord>, records: seq<ImportRecord>): set<ObsId>
    decreases |records|
  {
    if records == [] then IdsOf(ctx, Candidates(conversations, buffer))
    else
      StepIds(conversations, ctx, buffer, records[0])
      + ImportIds(StepConversations(conversations, ctx, records[0]), ctx, StepBuffer(buffer, records[0]), records[1..])
  }

  /** Observations are added, never changed. */
  predicate Adds(before: Ledger, after: Ledger, ids: set<ObsId>, id: ObsId) {
    && (id in after <==> id in before || id in ids)
    && (id in before ==> after[id] == before[id])
  }

  lemma {:induction false} CandidatesAdd(ledger: Ledger, ctx: Ctx, cands: seq<Candidate>, keys: seq<MsgKey>, id: ObsId)
    requires |cands| == |keys|
    ensures Adds(ledger, ObserveAll(ledger, ctx, cands, keys), IdsOf(ctx, cands), id)
  {
    if cands != [] {
      var n := |cands| - 1;
      CandidatesAdd(ledger, ctx, cands[..n], keys[..n], id);
    }
  }

  lemma BatchAdds(s: Session, ctx: Ctx, batch: seq<MessageRecord>, id: ObsId)
    requires PersistBatch(s, ctx, batch).Some?
    ensures var s' := PersistBatch(s, ctx, batch).value;
            Adds(s.ledger, s'.ledger, IdsOf(ctx, Candidates(s.conversations, batch)), id) && s'.conversations == s.conversations
  {
    var cands := Candidates(s.conversations, batch);
    if cands != [] {
      CandidatesAdd(s.ledger, ctx, cands, Keys(OccupiedBy(s.rows), cands), id);
    }
  }

  lemma StepAdds(s: Session, ctx: Ctx, buffer: seq<MessageRecord>, r: ImportRecord, id: ObsId)
    requires After(s, ctx, buffer, r).Some?
    ensures var (s', buffer') := After(s, ctx, buffer, r).value;
            && Adds(s.ledger, s'.ledger, StepIds(s.conversations, ctx, buffer, r), id)
            && s'.conversations == StepConversations(s.conversations, ctx, r) && buffer' == StepBuffer(buffer, r)
  {
    if r.AMessage? {
      if |buffer| + 1 >= MESSAGE_BATCH_SIZE {
        BatchAdds(s, ctx, buffer + [r.message], id);
      }
    } else {
      BatchAdds(s, ctx, buffer, id);
    }
  }

  lemma {:induction false} ImportAdds(s: Session, ctx: Ctx, buffer: seq<MessageRecord>, records: seq<ImportRecord>, id: ObsId)
    requires ImportFrom(s, ctx, buffer, records).Some?
    ensures Adds(s.ledger, ImportFrom(s, ctx, buffer, records).value.ledger, ImportIds(s.conversations, ctx, buffer, records), id)
    decreases |records|
  {
    if records == [] {
      BatchAdds(s, ctx, buffer, id);
    } else {
      ImportUnfolds(s, ctx, buffer, records);
      StepAdds(s, ctx, buffer, records[0], id);
      var (s', buffer') := After(s, ctx, buffer, records[0]).value;
      ImportAdds(s', ctx, buffer', records[1..], id);
    }
  }

  /** Which observations an import makes depends on its job and account alone. */
  lemma {:induction false} SameIdsAgain(conversations: Conversations, a: Ctx, b: Ctx, buffer: seq<MessageRecord>, records: seq<ImportRecord>)
    requires a.job == b.job && a.account == b.account
    ensures ImportIds(conversations, a, buffer, records) == ImportIds(conversations, b, buffer, records)
    decreases |records|
  {
    if records == [] {
      SameCandidateIds(a, b, Candidates(conversations, buffer));
    } else {
      var r := records[0];
      SameCandidateIds(a, b, Candidates(conversations, if r.AMessage? then buffer + [r.message] else buffer));
      SameIdsAgain(StepConversations(conversations, a, r), a, b, StepBuffer(buffer, r), records[1..]);
    }
  }

  lemma {:induction false} SameCandidateIds(a: Ctx, b: Ctx, cands: seq<Candidate>)
    requires a.job == b.job
    ensures IdsOf(a, cands) == IdsOf(b, cands)
  {
    if cands != [] {
      SameCandidateIds(a, b, cands[..|cands| - 1]);
    }
  }

  // -------------------------------------------------------------------- revisions

  /** What a revision record makes an import observe, by where its message is filed so far. */
  function RevStepIds(conversations: Conversations, homes: Homes, ctx: Ctx, r: ImportRecord): set<RevObsId> {
    if !r.ARevision? || r.revision.key.messageKey !in homes then {}
    else
      var home := homes[r.revision.key.messageKey];
      if home.1 in conversations then {RevObsId(ctx.job, conversations[home.1], r.revision.key, ctx.live)} else {}
  }

  /** The observations of an import's revisions, whatever the archive holds before it. */
  function RevImportIds(conversations: Conversations, homes: Homes, ctx: Ctx, records: seq<ImportRecord>): set<RevObsId>
    decreases |records|
  {
    if records == [] then {}
    else
      RevStepIds(conversations, homes, ctx, records[0])
      + RevImportIds(StepConversations(conversations, ctx, records[0]), HomesAfter(conversations, homes, records[0]), ctx, records[1..])
  }

  predicate RevAdds(before: RevLedger, after: RevLedger, ids: set<RevObsId>, id: RevObsId) {
    && (id in after <==> id in before || id in ids)
    && (id in before ==> after[id] == before[id])
  }

  lemma RevisionAdds(s: Session, ctx: Ctx, homes: Homes, r: ImportRecord, id: RevObsId)
    requires r.ARevision? && HomeIn(homes, r.revision.key.messageKey) == SourceAt(s.messages, r.revision.key.messageKey)
    ensures RevAdds(s.revLedger, PersistRevision(s, ctx, r.revision).revLedger, RevStepIds(s.conversations, homes, ctx, r), id)
  {
  }

  lemma RevStepAdds(s: Session, ctx: Ctx, buffer: seq<MessageRecord>, homes: Homes, r: ImportRecord, id: RevObsId)
    requires AllFollow(s, buffer, homes) && After(s, ctx, buffer, r).Some?
    ensures RevAdds(s.revLedger, After(s, ctx, buffer, r).value.0.revLedger, RevStepIds(s.conversations, homes, ctx, r), id)
  {
    if r.AMessage? {
      if |buffer| + 1 >= MESSAGE_BATCH_SIZE {
        BatchLeaves(s, ctx, buffer + [r.message]);
      }
    } else {
      BatchLeaves(s, ctx, buffer);
      if r.ARevision? {
        BatchSource(s, ctx, buffer, r.revision.key.messageKey);
        assert Follows(s, buffer, homes, r.revision.key.messageKey);
        RevisionAdds(PersistBatch(s, ctx, buffer).value, ctx, homes, r, id);
      }
    }
  }

  lemma {:induction false} ImportAddsRevisions(s: Session, ctx: Ctx, buffer: seq<MessageRecord>, homes: Homes,
                                               records: seq<ImportRecord>, id: RevObsId)
    requires AllFollow(s, buffer, homes) && ImportFrom(s, ctx, buffer, records).Some?
    ensures RevAdds(s.revLedger, ImportFrom(s, ctx, buffer, records).value.revLedger,
                    RevImportIds(s.conversations, homes, ctx, records), id)
    decreases |records|
  {
    if records == [] {
      BatchLeaves(s, ctx, buffer);
    } else {
      ImportUnfolds(s, ctx, buffer, records);
      RevStepAdds(s, ctx, buffer, homes, records[0], id);
      AfterSteps(s, ctx, buffer, records[0]);
      StepFollows(s, ctx, buffer, homes, records[0]);
      var (s', buffer') := After(s, ctx, buffer, records[0]).value;
      ImportAddsRevisions(s', ctx, buffer', HomesAfter(s.conversations, homes, records[0]), records[1..], id);
    }
  }

  lemma {:induction false} SameRevIdsAgain(conversations: Conversations, homes: Homes, a: Ctx, b: Ctx, records: seq<ImportRecord>)
    requires a.job == b.job && a.account == b.account && a.live == b.live
    ensures RevImportIds(conversations, homes, a, records) == RevImportIds(conversations, homes, b, records)
    decreases |records|
  {
    if records != [] {
      SameRevIdsAgain(StepConversations(conversations, a, records[0]), HomesAfter(conversations, homes, records[0]), a, b, records[1..]);
    }
  }

  // -------------------------------------------------------------- the whole archive

  /** An observation stays for ever; only its eligibility may change. */
  predicate Kept(before: Ledger, after: Ledger, id: ObsId) {
    id in before ==> id in after && after[id].(eligible := true) == before[id].(eligible := true)
  }

  lemma ImportKeeps(w: World, c: Command, id: ObsId)
    requires c.ImportJob? && c.job in w.jobs && Imported(w, c).Some?
    ensures Kept(w.ledger, Imported(w, c).value.ledger, id)
  {
    ImportAdds(StartOf(w), ContextOf(w, c), [], OrderedRecords(c.source), id);
  }

  predicate RevKept(before: RevLedger, after: RevLedger, id: RevObsId) {
    id in before ==> id in after && after[id].(eligible := true) == before[id].(eligible := true)
  }

  lemma ImportKeepsRevision(w: World, c: Command, id: RevObsId)
    requires c.ImportJob? && c.job in w.jobs && Imported(w, c).Some?
    ensures RevKept(w.revLedger, Imported(w, c).value.revLedger, id)
  {
    NothingFollowed(w);
    ImportAddsRevisions(StartOf(w), ContextOf(w, c), [], map[], OrderedRecords(c.source), id);
  }

  lemma ApplyKeepsRevision(w: World, job: Text, key: Text, eligible: bool, listing: Listing, ending: Ending, id: RevObsId)
    ensures RevKept(w.revLedger, Apply(w, job, key, eligible, listing, ending).revLedger, id)
  {
  }

  lemma NextKeepsRevision(w: World, c: Command, id: RevObsId)
    ensures RevKept(w.revLedger, Next(w, c).revLedger, id)
  {
    if c.ApplyRun? {
      ApplyKeepsRevision(w, c.job, c.key, c.eligible, c.listing, c.ending, id);
    } else if c.ImportJob? && c.job in w.jobs && Imported(w, c).Some? {
      ImportKeepsRevision(w, c, id);
    }
  }

  lemma ApplyKeeps(w: World, job: Text, key: Text, eligible: bool, listing: Listing, ending: Ending, id: ObsId)
    ensures Kept(w.ledger, Apply(w, job, key, eligible, listing, ending).ledger, id)
  {
  }

  lemma NextKeeps(w: World, c: Command, id: ObsId)
    ensures Kept(w.ledger, Next(w, c).ledger, id)
  {
    if c.ApplyRun? {
      ApplyKeeps(w, c.job, c.key, c.eligible, c.listing, c.ending, id);
    } else if c.ImportJob? && c.job in w.jobs && Imported(w, c).Some? {
      ImportKeeps(w, c, id);
    }
  }

  /** No observation is ever lost or changed, of a message or of a revision. */
  lemma {:induction false} LedgerOnlyGrows(w: World, commands: seq<Command>)
    ensures forall id :: Kept(w.ledger, Run(w, commands).ledger, id)
    ensures forall id :: RevKept(w.revLedger, Run(w, commands).revLedger, id)
    decreases |commands|
  {
    if commands != [] {
      var w', c := Run(w, commands[..|commands| - 1]), commands[|commands| - 1];
      LedgerOnlyGrows(w, commands[..|commands| - 1]);
      forall id ensures Kept(w.ledger, Next(w', c).ledger, id) {
        assert Kept(w.ledger, w'.ledger, id);
        NextKeeps(w', c, id);
      }
      forall id ensures RevKept(w.revLedger, Next(w', c).revLedger, id) {
        assert RevKept(w.revLedger, w'.revLedger, id);
        NextKeepsRevision(w', c, id);
      }
    }
  }

  /** The same records for the same job and account, from the same kind of source. */
  predicate Replays(c: Command, again: Command) {
    c.ImportJob? && again.ImportJob? && again.job == c.job && again.account == c.account && again.live == c.live
    && OrderedRecords(again.source) == OrderedRecords(c.source)
  }

  lemma MessagesAgain(w: World, c: Command, w': World, again: Command, id: ObsId)
    requires Replays(c, again) && c.job in w.jobs && Imported(w, c).Some? && again.job in w'.jobs && Imported(w', again).Some?
    requires Kept(Next(w, c).ledger, w'.ledger, id)
    ensures Adds(w'.ledger, Imported(w', again).value.ledger, {}, id)
  {
    var a, b, records := ContextOf(w, c), ContextOf(w', again), OrderedRecords(c.source);
    SameIdsAgain(map[], a, b, [], records);
    ImportAdds(StartOf(w), a, [], records, id);
    ImportAdds(StartOf(w'), b, [], records, id);
  }

  lemma RevisionsAgain(w: World, c: Command, w': World, again: Command, id: RevObsId)
    requires Replays(c, again) && c.job in w.jobs && Imported(w, c).Some? && again.job in w'.jobs && Imported(w', again).Some?
    requires RevKept(Next(w, c).revLedger, w'.revLedger, id)
    ensures RevAdds(w'.revLedger, Imported(w', again).value.revLedger, {}, id)
  {
    var a, b, records := ContextOf(w, c), ContextOf(w', again), OrderedRecords(c.source);
    SameRevIdsAgain(map[], map[], a, b, records);
    NothingFollowed(w);
    NothingFollowed(w');
    ImportAddsRevisions(StartOf(w), a, [], map[], records, id);
    ImportAddsRevisions(StartOf(w'), b, [], map[], records, id);
  }

  /** Importing the same records again for the same job and account, after whatever imports and
      decisions, adds no observation of a message or a revision and changes none. */
  lemma ReplayAddsNothing(w: World, c: Command, commands: seq<Command>, again: Command)
    requires Replays(c, again) && c.job in w.jobs && Imported(w, c).Some?
    ensures var w' := Run(Next(w, c), commands);
            Next(w', again).ledger == w'.ledger && Next(w', again).revLedger == w'.revLedger
  {
    var w' := Run(Next(w, c), commands);
    if again.job in w'.jobs && Imported(w', again).Some? {
      var after := Imported(w', again).value;
      LedgerOnlyGrows(Next(w, c), commands);
      forall id ensures Adds(w'.ledger, after.ledger, {}, id) {
        assert Kept(Next(w, c).ledger, w'.ledger, id);
        MessagesAgain(w, c, w', again, id);
      }
      forall rev ensures RevAdds(w'.revLedger, after.revLedger, {}, rev) {
        assert RevKept(Next(w, c).revLedger, w'.revLedger, rev);
        RevisionsAgain(w, c, w', again, rev);
      }
      NothingAdded(w'.ledger, after.ledger);
      NoRevisionAdded(w'.revLedger, after.revLedger);
    }
  }

  lemma NothingAdded(before: Ledger, after: Ledger)
    requires forall id :: Adds(before, after, {}, id)
    ensures before == after
  {
    forall id ensures id in before <==> id in after
      ensures id in before ==> before[id] == after[id]
    {
      assert Adds(before, after, {}, id);
    }
  }

  lemma NoRevisionAdded(before: RevLedger, after: RevLedger)
    requires forall id :: RevAdds(before, after, {}, id)
    ensures before == after
  {
    forall id ensures id in before <==> id in after
      ensures id in before ==> before[id] == after[id]
    {
      assert RevAdds(before, after, {}, id);
    }
  }
}
