/** What an import leaves in each revision and its observations, told by the revision records
    that it brings. */
module RevisionRows {
  import opened Basics
  import opened TextImport
  import opened ReplyResolution
  import opened CachedView
  import opened CachedRevisions

  /** The first to touch the revision. */
  predicate FirstTouch(touches: seq<Touch>, id: RevId, i: int) {
    0 <= i < |touches| && touches[i].id == id && forall j :: 0 <= j < i ==> touches[j].id != id
  }

  predicate FirstToAsk(touches: seq<Touch>, obsId: RevObsId, i: int) {
    0 <= i < |touches| && touches[i].obsId == obsId && forall j :: 0 <= j < i ==> touches[j].obsId != obsId
  }

  /** A new revision is as its record brings it. */
  predicate MadeFrom(row: RevisionRow, ctx: Ctx, r: RevisionRecord) {
    && row.body == r.body && row.metadata == Noted(r.bodyPresent, r.firstSeenSnapshot)
    && row.firstSeenAt == ctx.observedAt && row.observedAt == ctx.observedAt && row.materialized == ctx.eligible
  }

  /** What the touches leave of a revision: a new one is made by the first of them, a known one keeps
      all but its last sighting and its visibility, which only an eligible import renews. */
  ghost predicate RevisionTold(before: Revisions, after: Revisions, ctx: Ctx, touches: seq<Touch>, id: RevId) {
    && (id in after <==> id in before || exists i :: FirstTouch(touches, id, i))
    && (id in before ==>
          after[id] == if ctx.eligible && exists i :: FirstTouch(touches, id, i)
                       then before[id].(observedAt := ctx.observedAt, materialized := true) else before[id])
    && (id !in before ==> forall i :: FirstTouch(touches, id, i) ==> MadeFrom(after[id], ctx, touches[i].value))
  }

  lemma FirstTouchMoves(touches: seq<Touch>, id: RevId)
    requires touches != []
    ensures if touches[0].id == id then forall i :: FirstTouch(touches, id, i) <==> i == 0
            else forall i :: FirstTouch(touches, id, i) <==> FirstTouch(touches[1..], id, i - 1)
  {
    forall i ensures touches[0].id != id ==> (FirstTouch(touches, id, i) <==> FirstTouch(touches[1..], id, i - 1)) {
      assert forall j :: 0 < j < |touches| ==> touches[j] == touches[1..][j - 1];
      assert forall j :: 0 <= j < |touches| - 1 ==> touches[1..][j] == touches[j + 1];
    }
  }

  lemma {:induction false} TouchesTell(revisions: Revisions, ctx: Ctx, touches: seq<Touch>, id: RevId)
    ensures RevisionTold(revisions, RowsTouched(revisions, ctx, touches), ctx, touches, id)
    decreases |touches|
  {
    if touches != [] {
      TouchesTell(TouchRow(revisions, ctx, touches[0]), ctx, touches[1..], id);
      FirstTouchMoves(touches, id);
      if touches[0].id == id {
        assert FirstTouch(touches, id, 0);
      } else if i :| FirstTouch(touches[1..], id, i) {
        assert FirstTouch(touches, id, i + 1);
        assert FirstTouch(touches[1..], id, (i + 1) - 1);
      }
    }
  }

  /** What the touches leave under an observation key: what was there, or the first to ask for it. */
  ghost predicate ObservationTold(before: RevLedger, after: RevLedger, ctx: Ctx, touches: seq<Touch>, id: RevObsId) {
    && (id in after <==> id in before || exists i :: FirstToAsk(touches, id, i))
    && (id in before ==> after[id] == before[id])
    && (id !in before ==> forall i :: FirstToAsk(touches, id, i) ==>
          && after[id].revision == touches[i].id && after[id].value == touches[i].value
          && after[id].eligible == ctx.eligible && after[id].observedAt == ctx.observedAt && after[id].live == ctx.live)
  }

  lemma FirstToAskMoves(touches: seq<Touch>, id: RevObsId)
    requires touches != []
    ensures if touches[0].obsId == id then forall i :: FirstToAsk(touches, id, i) <==> i == 0
            else forall i :: FirstToAsk(touches, id, i) <==> FirstToAsk(touches[1..], id, i - 1)
  {
    forall i ensures touches[0].obsId != id ==> (FirstToAsk(touches, id, i) <==> FirstToAsk(touches[1..], id, i - 1)) {
      assert forall j :: 0 < j < |touches| ==> touches[j] == touches[1..][j - 1];
      assert forall j :: 0 <= j < |touches| - 1 ==> touches[1..][j] == touches[j + 1];
    }
  }

  lemma {:induction false} AskersTell(revLedger: RevLedger, ctx: Ctx, touches: seq<Touch>, id: RevObsId)
    ensures ObservationTold(revLedger, LedgerTouched(revLedger, ctx, touches), ctx, touches, id)
    decreases |touches|
  {
    if touches != [] {
      AskersTell(TouchLedger(revLedger, ctx, touches[0]), ctx, touches[1..], id);
      FirstToAskMoves(touches, id);
      if touches[0].obsId == id {
        assert FirstToAsk(touches, id, 0);
      } else if i :| FirstToAsk(touches[1..], id, i) {
        assert FirstToAsk(touches, id, i + 1);
        assert FirstToAsk(touches[1..], id, (i + 1) - 1);
      }
    }
  }

  /** Each touch is made by a revision record of the import, and asks for a key of its job. */
  lemma {:induction false} TouchesAreRevisions(names: Naming, conversations: Conversations, ctx: Ctx, buffer: seq<MessageRecord>,
                                               records: seq<ImportRecord>, t: Touch)
    requires t in Touches(names, conversations, ctx, buffer, records)
    ensures ARevision(t.value) in records && t.id.key == t.value.key
    ensures t.obsId.job == ctx.job && t.obsId.key == t.value.key && t.obsId.live == ctx.live
    decreases |records|
  {
    var next := StepNaming(names, conversations, buffer, records[0]);
    if t in StepTouches(next.known, conversations, ctx, records[0]) {
      assert records[0] in records;
    } else {
      TouchesAreRevisions(next, StepConversations(conversations, ctx, records[0]), ctx, StepBuffer(buffer, records[0]), records[1..], t);
    }
  }

  /** Every revision and every observation of one that an accepted import leaves is explained by the
      revision records. */
  lemma ImportExplainsRevisions(s: Session, ctx: Ctx, records: seq<ImportRecord>, id: RevId, obsId: RevObsId)
    requires AtStart(s) && ImportFrom(s, ctx, [], records).Some?
    ensures var s', touches := ImportFrom(s, ctx, [], records).value, Touches(NamingOf(s), map[], ctx, [], records);
            && RevisionTold(s.revisions, s'.revisions, ctx, touches, id)
            && ObservationTold(s.revLedger, s'.revLedger, ctx, touches, obsId)
  {
    var touches := Touches(NamingOf(s), map[], ctx, [], records);
    ImportTouches(s, ctx, [], records);
    TouchesTell(s.revisions, ctx, touches, id);
    AskersTell(s.revLedger, ctx, touches, obsId);
  }
}
