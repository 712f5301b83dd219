/** Which messages are refused in some cut into batches of bounded size: a batch depends on what
    came before it, and on no other cut than that of the batch whose replies it wakes. */
module BatchWindows {
  import opened Basics
  import opened TextImport
  import opened ReplyResolution
  import opened RepeatedKeys
  import opened ReplyConstraint
  import opened Refusals
  import opened ImportRefusals

  // ------------------------------------------------ cuts earlier on leave no trace

  function TakenBy(rows: Rows, cands: seq<Candidate>): Occupied {
    OccupiedAfter(OccupiedBy(rows), cands)
  }

  function KnownBy(rows: Rows, cands: seq<Candidate>): Messages {
    SeenAfter(map[], cands, Keys(OccupiedBy(rows), cands))
  }

  lemma KnownMore(rows: Rows, a: seq<Candidate>, b: seq<Candidate>)
    ensures TakenBy(rows, a + b) == OccupiedAfter(TakenBy(rows, a), b)
    ensures KnownBy(rows, a + b) == SeenAfter(KnownBy(rows, a), b, Keys(TakenBy(rows, a), b))
  {
    OccupiedConcat(OccupiedBy(rows), a, b);
    KeysConcat(OccupiedBy(rows), a, b);
    SeenConcat(map[], a, Keys(OccupiedBy(rows), a), b, Keys(TakenBy(rows, a), b));
  }

  /** The state before batch n is that after the records before it. */
  ghost predicate StateBy(s: Session, f: Course, n: nat, records: seq<MessageRecord>)
    requires n <= |f.cuts|
  {
    var cands := Candidates(s.conversations, records);
    f.taken[n] == TakenBy(s.rows, cands) && f.known[n] == KnownBy(s.rows, cands)
  }

  lemma FlattenPrefix(batches: seq<seq<MessageRecord>>, n: nat)
    requires n < |batches|
    ensures Flatten(batches[..n + 1]) == Flatten(batches[..n]) + batches[n]
  {
    assert batches[..n + 1] == batches[..n] + [batches[n]];
    FlattenAppend(batches[..n], batches[n]);
  }

  lemma {:induction false} PrefixDecides(s: Session, f: Course, batches: seq<seq<MessageRecord>>, n: nat)
    requires n <= |batches| && f.rows == s.rows && f.cuts == CutInto(s.conversations, batches)
    ensures StateBy(s, f, n, Flatten(batches[..n]))
  {
    if n > 0 {
      PrefixDecides(s, f, batches, n - 1);
      FlattenPrefix(batches, n - 1);
      var a, b := Candidates(s.conversations, Flatten(batches[..n - 1])), CandsIn(f.cuts[n - 1]);
      CandidatesConcat(s.conversations, Flatten(batches[..n - 1]), batches[n - 1]);
      KnownMore(s.rows, a, b);
      assert f.StepsAt(n - 1);
    }
  }

  // ------------------------------------------------------------------- windows

  /** Two batches, and all that lies before them and between them. */
  function Windows(records: seq<MessageRecord>, x': nat, y': nat, x: nat, y: nat): seq<seq<MessageRecord>>
    requires x' <= y' <= x <= y <= |records|
  {
    [records[..x'], records[x'..y'], records[y'..x], records[x..y]]
  }

  /** The last batch is refused, by itself or for a reply of the earlier one that it wakes. */
  predicate RefusesLast(f: Course, ctx: Ctx)
    requires |f.cuts| == 4
  {
    && CandsIn(f.cuts[3]) != []
    && ((ctx.eligible && Repeats(CandsIn(f.cuts[3]))) || InsertCrosses(f, ctx, 3) || LinkCrosses(f, 3) || WakeCrossesFrom(f, 3, 1))
  }

  /** Both batches are as large as a batch may be, or smaller. */
  predicate Fit(records: seq<MessageRecord>, x': nat, y': nat, x: nat, y: nat) {
    x' <= y' <= x <= y <= |records| && y' - x' <= MESSAGE_BATCH_SIZE && y - x <= MESSAGE_BATCH_SIZE
  }

  predicate WindowRefuses(s: Session, ctx: Ctx, records: seq<MessageRecord>, x': nat, y': nat, x: nat, y: nat) {
    Fit(records, x', y', x, y) && RefusesLast(CourseThrough(s, Windows(records, x', y', x, y)), ctx)
  }

  /** Batch n of one course and batch m of another are the same batch, met in the same state. */
  ghost predicate SameStep(f: Course, n: nat, g: Course, m: nat) {
    && n < |f.cuts| && m < |g.cuts| && f.rows == g.rows && f.filings == g.filings && f.cuts[n] == g.cuts[m]
    && f.taken[n] == g.taken[m] && f.known[n] == g.known[m] && f.known[n + 1] == g.known[m + 1]
  }

  lemma SameStepRefuses(f: Course, n: nat, g: Course, m: nat, ctx: Ctx)
    requires SameStep(f, n, g, m)
    ensures InsertCrosses(f, ctx, n) <==> InsertCrosses(g, ctx, m)
    ensures LinkCrosses(f, n) <==> LinkCrosses(g, m)
  {
    assert f.KeysAt(n) == g.KeysAt(m);
    var cands, keys, known := CandsIn(f.cuts[n]), f.KeysAt(n), f.known[n + 1];
    forall i | 0 <= i < |cands|
      ensures WriteCrosses(f, f.taken[n], ctx, cands, keys, known, i) <==> WriteCrosses(g, f.taken[n], ctx, cands, keys, known, i)
    {
    }
    forall r ensures Crosses(f, known, known, r) <==> Crosses(g, known, known, r) {
    }
  }

  lemma SameStepsWake(f: Course, a: nat, n: nat, g: Course, b: nat, m: nat)
    requires a < n && b < m && SameStep(f, n, g, m) && SameStep(f, a, g, b)
    ensures WakeCrossesFrom(f, n, a) <==> WakeCrossesFrom(g, m, b)
  {
    var own, before, known := f.known[a + 1], f.known[n], f.known[n + 1];
    forall r ensures LateCrosses(f, own, before, known, r) <==> LateCrosses(g, own, before, known, r) {
    }
  }

  lemma SameSteps(s: Session, f: Course, bs: seq<seq<MessageRecord>>, n: nat, g: Course, cs: seq<seq<MessageRecord>>, m: nat)
    requires f.rows == g.rows == s.rows && f.filings == g.filings
    requires f.cuts == CutInto(s.conversations, bs) && g.cuts == CutInto(s.conversations, cs)
    requires n < |bs| && m < |cs| && bs[n] == cs[m] && Flatten(bs[..n]) == Flatten(cs[..m])
    ensures SameStep(f, n, g, m)
  {
    PrefixDecides(s, f, bs, n);
    PrefixDecides(s, g, cs, m);
    PrefixDecides(s, f, bs, n + 1);
    PrefixDecides(s, g, cs, m + 1);
    FlattenPrefix(bs, n);
    FlattenPrefix(cs, m);
  }

  // ----------------------------------------------------- a refused batch is a window

  lemma {:induction false} FlattenConcat<T>(a: seq<seq<T>>, b: seq<seq<T>>)
    ensures Flatten(a + b) == Flatten(a) + Flatten(b)
  {
    if a == [] {
      assert a + b == b;
    } else {
      assert (a + b)[1..] == a[1..] + b;
      FlattenConcat(a[1..], b);
    }
  }

  /** Where batch n lies among the records. */
  lemma Span(batches: seq<seq<MessageRecord>>, n: nat) returns (x: nat, y: nat)
    requires n < |batches|
    ensures var records := Flatten(batches);
            x <= y <= |records| && y - x == |batches[n]| && records[..x] == Flatten(batches[..n]) && records[x..y] == batches[n]
    ensures x == |Flatten(batches[..n])|
  {
    FlattenPrefix(batches, n);
    assert batches == batches[..n + 1] + batches[n + 1..];
    FlattenConcat(batches[..n + 1], batches[n + 1..]);
    x, y := |Flatten(batches[..n])|, |Flatten(batches[..n + 1])|;
  }

  lemma {:induction false} SpansInOrder(batches: seq<seq<MessageRecord>>, a: nat, n: nat)
    requires a < n <= |batches|
    ensures |Flatten(batches[..a])| + |batches[a]| <= |Flatten(batches[..n])|
  {
    FlattenPrefix(batches, a);
    assert batches[..n] == batches[..a + 1] + batches[a + 1..n];
    FlattenConcat(batches[..a + 1], batches[a + 1..n]);
  }

  lemma WindowsLead(records: seq<MessageRecord>, x': nat, y': nat, x: nat, y: nat)
    requires x' <= y' <= x <= y <= |records|
    ensures var ws := Windows(records, x', y', x, y); Flatten(ws[..1]) == records[..x'] && Flatten(ws[..3]) == records[..x]
  {
    var ws := Windows(records, x', y', x, y);
    FlattenPrefix(ws, 0);
    FlattenPrefix(ws, 1);
    FlattenPrefix(ws, 2);
    assert ws[..0] == [];
    assert records[..x'] + records[x'..y'] + records[y'..x] == records[..x];
  }

  /** A course through the batches and one through the windows of one of them. */
  lemma WindowOf(s: Session, batches: seq<seq<MessageRecord>>, n: nat, x': nat, y': nat, x: nat, y: nat)
    requires n < |batches| && x' <= y' <= x <= y <= |Flatten(batches)|
    requires Flatten(batches)[..x] == Flatten(batches[..n]) && Flatten(batches)[x..y] == batches[n]
    ensures SameStep(CourseThrough(s, batches), n, CourseThrough(s, Windows(Flatten(batches), x', y', x, y)), 3)
  {
    WindowsLead(Flatten(batches), x', y', x, y);
    SameSteps(s, CourseThrough(s, batches), batches, n, CourseThrough(s, Windows(Flatten(batches), x', y', x, y)),
              Windows(Flatten(batches), x', y', x, y), 3);
  }

  lemma EarlierWindowOf(s: Session, batches: seq<seq<MessageRecord>>, a: nat, x': nat, y': nat, x: nat, y: nat)
    requires a < |batches| && x' <= y' <= x <= y <= |Flatten(batches)|
    requires Flatten(batches)[..x'] == Flatten(batches[..a]) && Flatten(batches)[x'..y'] == batches[a]
    ensures SameStep(CourseThrough(s, batches), a, CourseThrough(s, Windows(Flatten(batches), x', y', x, y)), 1)
  {
    WindowsLead(Flatten(batches), x', y', x, y);
    SameSteps(s, CourseThrough(s, batches), batches, a, CourseThrough(s, Windows(Flatten(batches), x', y', x, y)),
              Windows(Flatten(batches), x', y', x, y), 1);
  }

  predicate Bounded(batches: seq<seq<MessageRecord>>) {
    forall b :: b in batches ==> |b| <= MESSAGE_BATCH_SIZE
  }

  ghost predicate SomeWindowRefuses(s: Session, ctx: Ctx, records: seq<MessageRecord>) {
    exists x', y', x, y :: WindowRefuses(s, ctx, records, x', y', x, y)
  }

  lemma RefusedAlone(s: Session, ctx: Ctx, batches: seq<seq<MessageRecord>>, n: nat)
    requires Bounded(batches) && n < |batches| && Refuses(CourseThrough(s, batches), ctx, n) && !WakeCrosses(CourseThrough(s, batches), n)
    ensures SomeWindowRefuses(s, ctx, Flatten(batches))
  {
    var f := CourseThrough(s, batches);
    var x, y := Span(batches, n);
    assert batches[n] in batches;
    WindowOf(s, batches, n, 0, 0, x, y);
    SameStepRefuses(f, n, CourseThrough(s, Windows(Flatten(batches), 0, 0, x, y)), 3, ctx);
    assert WindowRefuses(s, ctx, Flatten(batches), 0, 0, x, y);
  }

  lemma RefusedForAWake(s: Session, ctx: Ctx, batches: seq<seq<MessageRecord>>, a: nat, n: nat)
    requires Bounded(batches) && a < n < |batches| && CandsIn(CourseThrough(s, batches).cuts[n]) != []
    requires WakeCrossesFrom(CourseThrough(s, batches), n, a)
    ensures SomeWindowRefuses(s, ctx, Flatten(batches))
  {
    var f := CourseThrough(s, batches);
    var x, y := Span(batches, n);
    var x', y' := Span(batches, a);
    SpansInOrder(batches, a, n);
    assert batches[n] in batches && batches[a] in batches;
    WindowOf(s, batches, n, x', y', x, y);
    EarlierWindowOf(s, batches, a, x', y', x, y);
    SameStepsWake(f, a, n, CourseThrough(s, Windows(Flatten(batches), x', y', x, y)), 1, 3);
    assert WindowRefuses(s, ctx, Flatten(batches), x', y', x, y);
  }

  // ----------------------------------------------------- a window is a refused batch

  function Singly(records: seq<MessageRecord>): (batches: seq<seq<MessageRecord>>)
    ensures Flatten(batches) == records && |batches| == |records|
    ensures forall b :: b in batches ==> |b| == 1
  {
    if records == [] then [] else [[records[0]]] + Singly(records[1..])
  }

  /** Batches a and n of a cut are the windows. */
  ghost predicate AtWindows(bs: seq<seq<MessageRecord>>, a: nat, n: nat, x': nat, y': nat, x: nat, y: nat) {
    && a < n < |bs| && Fit(Flatten(bs), x', y', x, y)
    && Flatten(bs)[..x'] == Flatten(bs[..a]) && Flatten(bs)[x'..y'] == bs[a]
    && Flatten(bs)[..x] == Flatten(bs[..n]) && Flatten(bs)[x..y] == bs[n]
  }

  lemma {:induction false} JoinedPrefixes<T>(a: seq<seq<T>>, w: seq<T>, c: seq<seq<T>>)
    ensures var bs := a + [w] + c;
            bs[|a|] == w && bs[..|a|] == a && Flatten(bs[..|a| + 1]) == Flatten(a) + w && Flatten(bs) == Flatten(a) + w + Flatten(c)
  {
    var bs := a + [w] + c;
    assert bs[..|a| + 1] == a + [w] && bs == bs[..|a| + 1] + c;
    FlattenAppend(a, w);
    FlattenConcat(a + [w], c);
  }

  lemma {:induction false} Parts(records: seq<MessageRecord>, x': nat, y': nat, x: nat, y: nat)
    requires x' <= y' <= x <= y <= |records|
    ensures records[..x'] + records[x'..y'] + records[y'..x] == records[..x]
    ensures records[..x] + records[x..y] + records[y..] == records
  {
  }

  lemma {:induction false} AllBounded(a: seq<seq<MessageRecord>>, w': seq<MessageRecord>, b: seq<seq<MessageRecord>>,
                                      w: seq<MessageRecord>, c: seq<seq<MessageRecord>>)
    requires Bounded(a) && Bounded(b) && Bounded(c) && |w'| <= MESSAGE_BATCH_SIZE && |w| <= MESSAGE_BATCH_SIZE
    ensures Bounded(a + [w'] + b + [w] + c)
  {
  }

  lemma {:induction false} JoinedTwice<T>(a: seq<seq<T>>, w': seq<T>, b: seq<seq<T>>, w: seq<T>, c: seq<seq<T>>) returns (n: nat)
    ensures var bs := a + [w'] + b + [w] + c;
            && |a| < n < |bs| && bs[|a|] == w' && bs[n] == w
            && Flatten(bs[..|a|]) == Flatten(a) && Flatten(bs[..n]) == Flatten(a) + w' + Flatten(b)
            && Flatten(bs) == (Flatten(a) + w' + Flatten(b)) + w + Flatten(c)
  {
    var head := a + [w'] + b;
    n := |head|;
    JoinedPrefixes(a, w', b);
    JoinedPrefixes(head, w, c);
    assert (head + [w] + c)[..|a|] == head[..|a|];
  }

  /** A cut that has both windows among its batches. */
  lemma {:induction false} CutAround(records: seq<MessageRecord>, x': nat, y': nat, x: nat, y: nat)
    returns (bs: seq<seq<MessageRecord>>, n: nat)
    requires Fit(records, x', y', x, y)
    ensures Bounded(bs) && Flatten(bs) == records && AtWindows(bs, x', n, x', y', x, y)
  {
    var a, b, c := Singly(records[..x']), Singly(records[y'..x]), Singly(records[y..]);
    bs := a + [records[x'..y']] + b + [records[x..y]] + c;
    AllBounded(a, records[x'..y'], b, records[x..y], c);
    n := JoinedTwice(a, records[x'..y'], b, records[x..y], c);
    Parts(records, x', y', x, y);
  }

  lemma RefusesLike(f: Course, a: nat, n: nat, g: Course, ctx: Ctx)
    requires |g.cuts| == 4 && a < n < |f.cuts| && SameStep(f, n, g, 3) && SameStep(f, a, g, 1) && RefusesLast(g, ctx)
    ensures Refuses(f, ctx, n)
  {
    SameStepRefuses(f, n, g, 3, ctx);
    SameStepsWake(f, a, n, g, 1, 3);
  }

  lemma CutAtWindows(s: Session, ctx: Ctx, bs: seq<seq<MessageRecord>>, a: nat, n: nat, x': nat, y': nat, x: nat, y: nat)
    requires AtWindows(bs, a, n, x', y', x, y) && WindowRefuses(s, ctx, Flatten(bs), x', y', x, y)
    ensures Refuses(CourseThrough(s, bs), ctx, n)
  {
    WindowOf(s, bs, n, x', y', x, y);
    EarlierWindowOf(s, bs, a, x', y', x, y);
    RefusesLike(CourseThrough(s, bs), a, n, CourseThrough(s, Windows(Flatten(bs), x', y', x, y)), ctx);
  }

  lemma WindowIsRefused(s: Session, ctx: Ctx, records: seq<MessageRecord>, x': nat, y': nat, x: nat, y: nat)
    returns (bs: seq<seq<MessageRecord>>)
    requires s.messages == map[] && s.pending == map[] && AllRowsFit(s.rows)
    requires WindowRefuses(s, ctx, records, x', y', x, y)
    ensures Bounded(bs) && Flatten(bs) == records && PersistBatches(s, ctx, bs).None?
  {
    var n;
    bs, n := CutAround(records, x', y', x, y);
    CutAtWindows(s, ctx, bs, x', n, x', y', x, y);
    BatchesAreRefusedExactly(s, ctx, bs);
  }

  /** Messages are accepted however they are cut into batches of at most the batch size exactly
      when no batch that can be cut out is refused, by itself or for a reply that it wakes from
      another batch that can be cut out before it. */
  lemma EveryCutIsAcceptedExactly(s: Session, ctx: Ctx, records: seq<MessageRecord>)
    requires s.messages == map[] && s.pending == map[] && AllRowsFit(s.rows)
    ensures (forall batches :: Flatten(batches) == records && Bounded(batches) ==> PersistBatches(s, ctx, batches).Some?)
            <==> !SomeWindowRefuses(s, ctx, records)
  {
    forall batches | Flatten(batches) == records && Bounded(batches) && PersistBatches(s, ctx, batches).None?
      ensures SomeWindowRefuses(s, ctx, records)
    {
      BatchesAreRefusedExactly(s, ctx, batches);
      var f := CourseThrough(s, batches);
      var n :| 0 <= n < |f.cuts| && Refuses(f, ctx, n);
      if WakeCrosses(f, n) {
        var a :| 0 <= a < n && WakeCrossesFrom(f, n, a);
        RefusedForAWake(s, ctx, batches, a, n);
      } else {
        RefusedAlone(s, ctx, batches, n);
      }
    }
    if SomeWindowRefuses(s, ctx, records) {
      var x', y', x, y :| WindowRefuses(s, ctx, records, x', y', x, y);
      var bs := WindowIsRefused(s, ctx, records, x', y', x, y);
    }
  }

  /** Messages in batches of their own never meet one twice: only a reply that crosses over is
      refused. */
  lemma SingleRecordsAreRefusedExactly(s: Session, ctx: Ctx, records: seq<MessageRecord>)
    requires s.messages == map[] && s.pending == map[] && AllRowsFit(s.rows)
    ensures var f := CourseThrough(s, Singly(records));
            PersistBatches(s, ctx, Singly(records)).None?
            <==> exists n :: 0 <= n < |f.cuts| && CandsIn(f.cuts[n]) != [] && CrossesOver(f, ctx, n)
  {
    var f := CourseThrough(s, Singly(records));
    BatchesAreRefusedExactly(s, ctx, Singly(records));
    forall n | 0 <= n < |f.cuts| ensures !Repeats(CandsIn(f.cuts[n])) {
      assert Singly(records)[n] in Singly(records);
      NoMoreCandidates(s.conversations, f.cuts[n].batch);
    }
    if n :| 0 <= n < |f.cuts| && CandsIn(f.cuts[n]) != [] && CrossesOver(f, ctx, n) {
      assert Refuses(f, ctx, n);
    }
  }
}
