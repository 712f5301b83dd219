/** The conversation of each source conversation: how an import chooses it, and that over every
    run only a regrouping puts two sources into one. */
module SourceFilings {
  import opened Basics
  import opened ArchiveRows
  import opened TextImport
  import opened ReplyResolution
  import opened RepeatedKeys
  import opened ImportRefusals
  import opened Eligibility
  import opened ArchiveRuns

  // ------------------------------------------------------------------- one import

  /** The i-th record is the first to introduce the source. */
  predicate FirstIntroduces(ctx: Ctx, records: seq<ImportRecord>, i: int, source: SourceConv) {
    && 0 <= i < |records| && Names(ctx, records[i], source)
    && forall j :: 0 <= j < i ==> !Names(ctx, records[j], source)
  }

  predicate Names(ctx: Ctx, r: ImportRecord, source: SourceConv) {
    r.ConversationRecord? && source == SourceConv(ctx.account, r.namespace, r.sourceKey)
  }

  /** A new source gets the conversation of the record's key, unless another source is in it by then;
      in that case it gets one that is named after both. */
  predicate NewlyFiled(before: Filings, source: SourceConv, key: Text, conversation: ConvKey) {
    conversation == (if forall other :: other in before ==> before[other] != Given(key) then Given(key) else Qualified(source, key))
  }

  /** A source keeps the conversation that it has; without one, its first record chooses it; and no
      source is filed that is not introduced. */
  lemma {:induction false} FilesExactly(filings: Filings, ctx: Ctx, records: seq<ImportRecord>, source: SourceConv)
    ensures var after := FilingsAfter(filings, ctx, records);
            && (source in filings ==> source in after && after[source] == filings[source])
            && (source in after && source !in filings ==> exists i :: FirstIntroduces(ctx, records, i, source))
            && (forall i :: FirstIntroduces(ctx, records, i, source) && source !in filings ==>
                  source in after
                  && NewlyFiled(FilingsAfter(filings, ctx, records[..i]), source, records[i].key, after[source]))
    decreases |records|
  {
    if source in filings {
      FilingStays(filings, ctx, records, source);
    } else if records != [] {
      var r, rest := records[0], records[1..];
      var next := StepFilings(filings, ctx, r);
      FilesExactly(next, ctx, rest, source);
      if Names(ctx, r, source) {
        assert FirstIntroduces(ctx, records, 0, source);
        assert FilingsAfter(filings, ctx, records[..0]) == filings;
      } else {
        forall i | FirstIntroduces(ctx, rest, i, source) ensures FirstIntroduces(ctx, records, i + 1, source) {
        }
        forall i | FirstIntroduces(ctx, records, i, source)
          ensures source in FilingsAfter(filings, ctx, records)
          ensures NewlyFiled(FilingsAfter(filings, ctx, records[..i]), source, records[i].key, FilingsAfter(filings, ctx, records)[source])
        {
          assert FirstIntroduces(ctx, rest, i - 1, source) by {
            assert forall j :: 0 <= j < i - 1 ==> rest[j] == records[j + 1];
          }
          assert records[..i][1..] == rest[..i - 1] && records[..i][0] == r;
        }
      }
    }
  }

  lemma {:induction false} ImportFiles(s: Session, ctx: Ctx, buffer: seq<MessageRecord>, records: seq<ImportRecord>)
    requires ImportFrom(s, ctx, buffer, records).Some?
    ensures ImportFrom(s, ctx, buffer, records).value.filings == FilingsAfter(s.filings, ctx, records)
    decreases |records|
  {
    if records == [] {
      BatchLeaves(s, ctx, buffer);
    } else {
      ImportUnfolds(s, ctx, buffer, records);
      var (s', buffer') := After(s, ctx, buffer, records[0]).value;
      if !Buffers(buffer, records[0]) {
        BatchLeaves(s, ctx, Flushed(buffer, records[0]));
      }
      if !records[0].AMessage? {
        OtherFilings(PersistBatch(s, ctx, buffer).value, ctx, records[0]);
      }
      ImportFiles(s', ctx, buffer', records[1..]);
    }
  }

  // --------------------------------------------------------------------- every run

  /** The sources that have stayed where they were filed: no two are in one conversation, and one that
      is named after a source is its own. */
  predicate Apart(filings: Filings, moved: set<SourceConv>) {
    && (forall a, b :: a in filings && b in filings && a != b && filings[a] == filings[b] ==> a in moved || b in moved)
    && (forall a :: a in filings && a !in moved && filings[a].Qualified? ==> filings[a].source == a)
  }

  lemma {:induction false} FilingKeepsApart(filings: Filings, moved: set<SourceConv>, ctx: Ctx, records: seq<ImportRecord>)
    requires Apart(filings, moved)
    ensures Apart(FilingsAfter(filings, ctx, records), moved)
    decreases |records|
  {
    if records != [] {
      FilingKeepsApart(StepFilings(filings, ctx, records[0]), moved, ctx, records[1..]);
    }
  }

  lemma NextKeepsApart(w: World, c: Command, moved: set<SourceConv>)
    requires Apart(w.filings, moved) && (c.MoveSource? ==> c.moved in moved)
    ensures Apart(Next(w, c).filings, moved)
  {
    if c.ImportJob? && c.job in w.jobs && Imported(w, c).Some? {
      ImportFiles(StartOf(w), ContextOf(w, c), [], OrderedRecords(c.source));
      FilingKeepsApart(w.filings, moved, ContextOf(w, c), OrderedRecords(c.source));
    }
  }

  lemma OneIsMoved(filings: Filings, moved: set<SourceConv>, a: SourceConv, b: SourceConv)
    requires Apart(filings, moved) && a in filings && b in filings && a != b && filings[a] == filings[b]
    ensures a in moved || b in moved
  {
  }

  predicate Regroups(c: Command, source: SourceConv) {
    c.MoveSource? && c.moved == source
  }

  lemma {:induction false} RunKeepsApart(commands: seq<Command>, moved: set<SourceConv>)
    requires forall i :: 0 <= i < |commands| && commands[i].MoveSource? ==> commands[i].moved in moved
    ensures Apart(Run(EMPTY_ARCHIVE, commands).filings, moved)
  {
    if commands != [] {
      var n := |commands| - 1;
      RunKeepsApart(commands[..n], moved);
      NextKeepsApart(Run(EMPTY_ARCHIVE, commands[..n]), commands[n], moved);
    }
  }

  lemma {:induction false} MovedBy(commands: seq<Command>) returns (moved: set<SourceConv>)
    ensures forall i :: 0 <= i < |commands| && commands[i].MoveSource? ==> commands[i].moved in moved
    ensures forall source :: source in moved ==> exists i :: 0 <= i < |commands| && Regroups(commands[i], source)
  {
    moved := {};
    if commands != [] {
      var n := |commands| - 1;
      moved := MovedBy(commands[..n]);
      assert forall i :: 0 <= i < n ==> commands[..n][i] == commands[i];
      if commands[n].MoveSource? {
        moved := moved + {commands[n].moved};
        assert Regroups(commands[n], commands[n].moved);
      }
    }
  }

  /** Two source conversations come to share a conversation only when one of them is regrouped. */
  lemma SourcesStayApart(commands: seq<Command>, a: SourceConv, b: SourceConv)
    requires var filings := Run(EMPTY_ARCHIVE, commands).filings;
             a in filings && b in filings && a != b && filings[a] == filings[b]
    ensures exists i :: 0 <= i < |commands| && (Regroups(commands[i], a) || Regroups(commands[i], b))
  {
    var moved := MovedBy(commands);
    RunKeepsApart(commands, moved);
    OneIsMoved(Run(EMPTY_ARCHIVE, commands).filings, moved, a, b);
  }
}
