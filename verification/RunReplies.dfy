/** Replies over every run: none ever leaves its conversation, and exactly which imports are refused
    to keep it so. */
module RunReplies {
  import opened Basics
  import opened ArchiveRows
  import opened TextImport
  import opened ReplyResolution
  import opened RepeatedKeys
  import opened ReplyConstraint
  import opened Refusals
  import opened ImportRefusals
  import opened Eligibility
  import opened ArchiveRuns

  lemma StepStaysConsistent(s: Session, ctx: Ctx, buffer: seq<MessageRecord>, r: ImportRecord)
    requires Consistent(s) && After(s, ctx, buffer, r).Some?
    ensures Consistent(After(s, ctx, buffer, r).value.0)
  {
    if !Buffers(buffer, r) {
      BatchStaysConsistent(s, ctx, Flushed(buffer, r));
    }
  }

  lemma {:induction false} ImportStaysConsistent(s: Session, ctx: Ctx, buffer: seq<MessageRecord>, records: seq<ImportRecord>)
    requires Consistent(s) && ImportFrom(s, ctx, buffer, records).Some?
    ensures Consistent(ImportFrom(s, ctx, buffer, records).value)
    decreases |records|
  {
    if records == [] {
      BatchStaysConsistent(s, ctx, buffer);
    } else {
      ImportUnfolds(s, ctx, buffer, records);
      StepStaysConsistent(s, ctx, buffer, records[0]);
      var (s', buffer') := After(s, ctx, buffer, records[0]).value;
      ImportStaysConsistent(s', ctx, buffer', records[1..]);
    }
  }

  lemma RecomputedStaysFit(rows: Rows, rows': Rows)
    requires AllRowsFit(rows) && SamePlaces(rows, rows') && forall m :: m in rows ==> rows'[m].replyTo == rows[m].replyTo
    ensures AllRowsFit(rows')
  {
    forall m | m in rows' ensures ReplyFits(rows', m) {
      assert m in rows'.Keys && ReplyFits(rows, m);
      if rows[m].replyTo.Some? {
        SamePlaced(rows, rows', m, rows[m].replyTo.value);
      }
    }
  }

  lemma DecisionStaysFit(w: World, job: Text, eligible: bool, listing: Listing)
    requires AllRowsFit(w.rows)
    ensures AllRowsFit(Decide(w, job, eligible, listing).rows)
  {
    var w' := Decide(w, job, eligible, listing);
    forall m ensures m in w'.rows <==> m in w.rows
      ensures m in w.rows ==> w'.rows[m].replyTo == w.rows[m].replyTo && w'.rows[m].conversation == w.rows[m].conversation
    {
      RecomputedRow(w.rows, w'.ledger, listing.messages, Affected(w'.ledger, listing.messages, job), m);
    }
    assert w'.rows.Keys == w.rows.Keys;
    RecomputedStaysFit(w.rows, w'.rows);
  }

  lemma ApplyStaysFit(w: World, job: Text, key: Text, eligible: bool, listing: Listing, ending: Ending)
    requires AllRowsFit(w.rows)
    ensures AllRowsFit(Apply(w, job, key, eligible, listing, ending).rows)
  {
    if job in w.jobs && ending == Commits {
      DecisionStaysFit(w, job, eligible, listing);
    }
  }

  lemma ImportStaysFit(w: World, c: Command)
    requires AllRowsFit(w.rows) && c.ImportJob? && c.job in w.jobs && Imported(w, c).Some?
    ensures AllRowsFit(Imported(w, c).value.rows)
  {
    ImportStaysConsistent(StartOf(w), ContextOf(w, c), [], OrderedRecords(c.source));
  }

  lemma NextStaysFit(w: World, c: Command)
    requires AllRowsFit(w.rows)
    ensures AllRowsFit(Next(w, c).rows)
  {
    match c
    case CreateJob(_) =>
    case ImportJob(_, _, _, _, _, _) =>
      if c.job in w.jobs && Imported(w, c).Some? {
        ImportStaysFit(w, c);
      }
    case ApplyRun(job, key, eligible, listing, ending) => ApplyStaysFit(w, job, key, eligible, listing, ending);
    case MoveSource(_, _) =>
  }

  /** In every archive reachable by imports, decisions and regroupings, a reply and the message
      that it names belong to one conversation. */
  lemma {:induction false} RepliesNeverLeave(commands: seq<Command>)
    ensures AllRowsFit(Run(EMPTY_ARCHIVE, commands).rows)
  {
    if commands != [] {
      RepliesNeverLeave(commands[..|commands| - 1]);
      NextStaysFit(Run(EMPTY_ARCHIVE, commands[..|commands| - 1]), commands[|commands| - 1]);
    }
  }

  /** After any run, an import commits exactly when no batch of it is refused. */
  lemma CommandIsRefusedExactly(commands: seq<Command>, c: Command)
    requires c.ImportJob? && c.job in Run(EMPTY_ARCHIVE, commands).jobs
    ensures var w := Run(EMPTY_ARCHIVE, commands);
            var f := CourseFor(StartOf(w), ContextOf(w, c), OrderedRecords(c.source));
            Imported(w, c).None? <==> exists n :: 0 <= n < |f.cuts| && Refuses(f, ContextOf(w, c), n)
  {
    var w := Run(EMPTY_ARCHIVE, commands);
    RepliesNeverLeave(commands);
    ImportIsRefusedExactly(StartOf(w), ContextOf(w, c), OrderedRecords(c.source));
  }

  /** A stored message comes again with a new reply to it, all of one source conversation. */
  predicate Continues(w: World, c: Command, a: ImportRecord, target: MessageRecord, reply: MessageRecord) {
    && c.ImportJob? && c.job in w.jobs && OrderedRecords(c.source) == Pair(a, a, target, reply)
    && a.ConversationRecord? && target.stableKey != reply.stableKey
    && target.conversationKey == a.key && reply.conversationKey == a.key
    && ReplyKey(reply) == Some(target.stableKey) && ReplyKey(target) == None
    && var source, id := SourceConv(c.account, a.namespace, a.sourceKey), Base(target.stableKey);
       id in w.rows && w.rows[id].source == Some(source)
       && source in w.filings && w.filings[source] == w.rows[id].conversation
       && Base(reply.stableKey) !in w.rows
  }

  /** The import commits; but once its source is moved to another group, the stored message stays
      behind, the reply would not, and the same import is refused. */
  lemma RegroupingRefusesReplies(w: World, c: Command, a: ImportRecord, target: MessageRecord, reply: MessageRecord, group: ConvKey)
    requires AllRowsFit(w.rows) && Continues(w, c, a, target, reply) && group != w.rows[Base(target.stableKey)].conversation
    ensures Imported(w, c).Some?
    ensures Imported(Next(w, MoveSource(SourceConv(c.account, a.namespace, a.sourceKey), group)), c).None?
  {
    var w' := Next(w, MoveSource(SourceConv(c.account, a.namespace, a.sourceKey), group));
    PairIsRefusedExactly(StartOf(w), ContextOf(w, c), a, a, target, reply);
    PairIsRefusedExactly(StartOf(w'), ContextOf(w', c), a, a, target, reply);
  }
}
