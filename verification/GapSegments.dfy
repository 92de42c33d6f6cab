/** What the sequential planner's segments amount to: where they resume, and when they are the parallel
    planner's segments. What their checkpoints say of rows is in GapMeaning.dfy. */
module GapSegments {
  import opened MemConfig
  import opened AddressMap
  import opened Chains
  import opened Trace
  import opened RowStream
  import opened CheckPoints
  import opened GapRows
  import opened GapPlanner
  import opened Workers
  import opened ParallelPlan

  // ---- Resume points ----

  lemma {:induction false} ResumeIsLastStarted(ops: seq<Placed>, a: nat, i: nat)
    requires i < |ops| && ops[i].start < a && forall k :: i < k < |ops| ==> a <= ops[k].start
    ensures Resume(ops, a) == [Piece(ops[i].chunk, ops[i].addr, Min(ops[i].count, a - ops[i].start), 0)]
    decreases |ops|
  {
    if i == |ops| - 1 {
    } else {
      assert a <= ops[|ops| - 1].start;
      ResumeIsLastStarted(ops[..|ops| - 1], a, i);
    }
  }

  lemma {:induction false} FirstPieceStays(ps: seq<Piece>)
    requires ps != []
    ensures ps[0].chunk in Fold(ps)
    ensures Fold(ps)[ps[0].chunk].fromAddr == ps[0].addr && Fold(ps)[ps[0].chunk].fromSkip == Wrap(ps[0].skip)
    decreases |ps|
  {
    if |ps| <= 1 {
    } else {
      FirstPieceStays(ps[..|ps| - 1]);
    }
  }

  /** A segment that is not the first resumes at the last operation started before it, skipping the rows
      of that operation already placed. */
  lemma {:induction false} SegmentResumes(rows: nat, segments: seq<Summary>, ops: seq<Placed>, total: nat, j: nat, i: nat)
    requires Finished(rows, segments, ops, total) && j < |segments| && i < |ops|
    requires ops[i].start < j * rows && forall k :: i < k < |ops| ==> j * rows <= ops[k].start
    ensures ops[i].chunk in segments[j]
    ensures segments[j][ops[i].chunk].fromAddr == ops[i].addr
    ensures segments[j][ops[i].chunk].fromSkip == Wrap(Min(ops[i].count, j * rows - ops[i].start))
  {
    FromIsProduct(rows, j);
    assert SegmentIs(ops, rows, j, segments[j]);
    ResumeIsLastStarted(ops, From(rows, j), i);
    var ps := Events(ops, From(rows, j), From(rows, j) + rows);
    hide Fold, OpsEvents, From;
    FirstPieceStays(ps);
  }

  // ---- Streams without gaps ----

  /** No word is skipped, neither before the first visit nor between two of them. */
  predicate GapFree(base: u32, vs: seq<Visit>) {
    vs != [] ==>
      var front := vs[..|vs| - 1];
      GapFree(base, front) && GapWords(LastAddr(base, front), vs[|vs| - 1].addr) == 0
  }

  lemma {:induction false} GapFreeLayout(base: u32, vs: seq<Visit>, i: nat)
    requires GapFree(base, vs)
    ensures |Layout(base, vs)| == |vs| && GapTotal(base, vs) == RowTotal(vs)
    ensures i < |vs| ==> Layout(base, vs)[i] == Placed(vs[i].chunk, vs[i].addr, 0, RowsBefore(vs, i), vs[i].count)
    decreases |vs|
  {
    LayoutEnds(base, vs);
    if vs == [] {
    } else {
      var front := vs[..|vs| - 1];
      GapFreeLayout(base, front, i);
      LayoutEnds(base, front);
      RowsBeforePrefix(vs, |front|, |front|);
      if i < |front| {
        RowsBeforePrefix(vs, |front|, i);
      }
    }
  }

  ghost predicate InRow(ops: seq<Placed>, vs: seq<Visit>, i: nat)
    requires i < |vs| == |ops|
  {
    vs[i].count > 0 && ops[i] == Placed(vs[i].chunk, vs[i].addr, 0, RowsBefore(vs, i), vs[i].count)
  }

  /** Layout without its gaps, as GapFreeLayout gives it. */
  ghost predicate InRows(ops: seq<Placed>, vs: seq<Visit>) {
    |ops| == |vs| && forall i :: 0 <= i < |vs| ==> InRow(ops, vs, i)
  }

  /** What visit k contributes to a segment: its piece, if any of its rows lie there. */
  lemma {:induction false} EventOfVisit(ops: seq<Placed>, vs: seq<Visit>, a: nat, b: nat, k: nat)
    requires InRows(ops, vs) && k < |vs| && a < b
    ensures OpsEvents(ops[..k + 1], a, b) == OpsEvents(ops[..k], a, b) + OpEvents(ops[k], a, b)
    ensures OpEvents(ops[k], a, b)
            == if a < RowsBefore(vs, k + 1) && RowsBefore(vs, k) < b then [PieceAt(vs, k, a, b)] else []
  {
    assert ops[..k + 1][..k] == ops[..k];
    var p := ops[k];
    assert InRow(ops, vs, k);
    assert RowsBefore(vs, k + 1) == EndOf(p);
    hide InRows, OpsEvents, RowsBefore;
  }

  lemma {:induction false} NoEventsFrom(ops: seq<Placed>, vs: seq<Visit>, a: nat, b: nat, k: nat, n: nat)
    requires InRows(ops, vs) && k <= n <= |vs| == |ops| && a < b
    requires b <= RowsBefore(vs, k)
    ensures OpsEvents(ops[..n], a, b) == OpsEvents(ops[..k], a, b)
    decreases n
  {
    hide InRows, OpEvents, OpsEvents, PieceAt;
    if k >= n {
    } else {
      NoEventsFrom(ops, vs, a, b, k, n - 1);
      RowsBeforeGrows(vs, k, n - 1);
      EventOfVisit(ops, vs, a, b, n - 1);
    }
  }

  lemma {:induction false} NoEventsUpTo(ops: seq<Placed>, vs: seq<Visit>, a: nat, b: nat, k: nat)
    requires InRows(ops, vs) && k <= |vs| == |ops| && RowsBefore(vs, k) <= a < b
    ensures OpsEvents(ops[..k], a, b) == []
    decreases k
  {
    if k == 0 {
    } else {
      hide InRows, OpEvents, OpsEvents, PieceAt, RowsBefore;
      RowsBeforeGrows(vs, k - 1, k);
      NoEventsUpTo(ops, vs, a, b, k - 1);
      EventOfVisit(ops, vs, a, b, k - 1);
    }
  }

  lemma {:induction false} CountsGrow(ops: seq<Placed>, vs: seq<Visit>, k: nat)
    requires InRows(ops, vs) && k < |vs|
    ensures RowsBefore(vs, k) < RowsBefore(vs, k + 1)
  {
    assert InRow(ops, vs, k);
  }

  /** From its second visit on, a segment's events are its pieces. */
  lemma {:induction false} MoreEvents(ops: seq<Placed>, vs: seq<Visit>, a: nat, b: nat, i: nat, k: nat, resume: seq<Piece>)
    requires InRows(ops, vs) && i < k <= |vs| == |ops| && a < b && a <= RowsBefore(vs, i + 1) && RowsBefore(vs, k - 1) < b
    requires Fold(resume + OpsEvents(ops[..i + 1], a, b)) == Fold(Pieces(vs, i, i + 1, a, b))
    ensures Fold(resume + OpsEvents(ops[..k], a, b)) == Fold(Pieces(vs, i, k, a, b))
    decreases k
  {
    hide InRows, OpEvents, OpsEvents, PieceAt, Updated, Fold;
    if i + 1 >= k {
    } else {
      RowsBeforeGrows(vs, i + 1, k - 1);
      CountsGrow(ops, vs, k - 1);
      MoreEvents(ops, vs, a, b, i, k - 1, resume);
      EventOfVisit(ops, vs, a, b, k - 1);
      var es, p := resume + OpsEvents(ops[..k - 1], a, b), PieceAt(vs, k - 1, a, b);
      assert resume + OpsEvents(ops[..k], a, b) == es + [p];
      FoldSnoc(es, p);
      FoldSnoc(Pieces(vs, i, k - 1, a, b), p);
    }
  }

  lemma {:induction false} ResumeIsMerged(chunk: u32, addr: u32, skip: nat, n: nat)
    ensures Fold([Piece(chunk, addr, skip, 0)] + [Piece(chunk, addr, skip, n)]) == Fold([Piece(chunk, addr, skip, n)])
  {
  }

  lemma {:induction false} FirstOfAll(ops: seq<Placed>, vs: seq<Visit>, b: nat)
    requires InRows(ops, vs) && vs != [] && 0 < b
    ensures |ops| == |vs| && OpsEvents(ops[..1], 0, b) == [PieceAt(vs, 0, 0, b)]
  {
    assert RowsBefore(vs, 0) == 0;
    CountsGrow(ops, vs, 0);
    EventOfVisit(ops, vs, 0, b, 0);
    assert OpsEvents(ops[..0], 0, b) == [] by { assert ops[..0] == []; }
    hide OpsEvents, OpEvents, RowsBefore, PieceAt, InRows;
    assert [] + [PieceAt(vs, 0, 0, b)] == [PieceAt(vs, 0, 0, b)];
  }

  lemma {:induction false} FirstAfterResume(ops: seq<Placed>, vs: seq<Visit>, a: nat, b: nat, i: nat)
    requires InRows(ops, vs) && i < |vs| && a < b && RowsBefore(vs, i) < a <= RowsBefore(vs, i + 1)
    ensures |ops| == |vs|
    ensures Fold([Piece(vs[i].chunk, vs[i].addr, a - RowsBefore(vs, i), 0)] + OpsEvents(ops[..i + 1], a, b))
            == Fold([PieceAt(vs, i, a, b)])
  {
    var p := PieceAt(vs, i, a, b);
    var resume := [p.(count := 0)];
    hide OpsEvents, OpEvents, RowsBefore, Fold;
    EventOfVisit(ops, vs, a, b, i);
    NoEventsUpTo(ops, vs, a, b, i);
    ResumeIsMerged(p.chunk, p.addr, p.skip, p.count);
    assert [] + OpEvents(ops[i], a, b) == OpEvents(ops[i], a, b);
    if a < RowsBefore(vs, i + 1) {
      assert resume + [p] == [p.(count := 0)] + [p];
    } else {
      assert resume + [] == resume && p == p.(count := 0);
    }
  }

  lemma {:induction false} OnePiece(vs: seq<Visit>, i: nat, a: nat, b: nat)
    requires i < |vs|
    ensures Pieces(vs, i, i + 1, a, b) == [PieceAt(vs, i, a, b)]
  {
  }

  lemma {:induction false} NothingStarted(ops: seq<Placed>)
    ensures Resume(ops, 0) == []
    decreases |ops|
  {
    if ops == [] {
    } else {
      NothingStarted(ops[..|ops| - 1]);
    }
  }

  lemma {:induction false} ResumeOfSegment(ops: seq<Placed>, vs: seq<Visit>, a: nat)
    requires InRows(ops, vs) && vs != [] && a < RowTotal(vs)
    ensures var i := FirstVisit(vs, a);
            Resume(ops, a) == if a == 0 then [] else [Piece(vs[i].chunk, vs[i].addr, a - RowsBefore(vs, i), 0)]
  {
    var i := FirstVisit(vs, a);
    if a == 0 {
      NothingStarted(ops);
    } else {
      forall k | i < k < |ops|
        ensures a <= ops[k].start
      {
        RowsBeforeGrows(vs, i + 1, k);
        assert InRow(ops, vs, k);
      }
      assert InRow(ops, vs, i);
      ResumeIsLastStarted(ops, a, i);
    }
  }

  /** The first visit of a segment, with the resume point before it. */
  lemma {:induction false} FirstEvents(ops: seq<Placed>, vs: seq<Visit>, a: nat, b: nat)
    requires InRows(ops, vs) && vs != [] && a < b && a < RowTotal(vs)
    ensures var i := FirstVisit(vs, a);
            && a <= RowsBefore(vs, i + 1) && |ops| == |vs|
            && Fold(Resume(ops, a) + OpsEvents(ops[..i + 1], a, b)) == Fold(Pieces(vs, i, i + 1, a, b))
  {
    hide InRows, OpsEvents, Fold, Resume, RowsBefore, PieceAt;
    var i := FirstVisit(vs, a);
    OnePiece(vs, i, a, b);
    ResumeOfSegment(ops, vs, a);
    if a == 0 {
      FirstOfAll(ops, vs, b);
      assert [] + OpsEvents(ops[..1], 0, b) == OpsEvents(ops[..1], 0, b);
    } else {
      FirstAfterResume(ops, vs, a, b, i);
    }
  }

  lemma {:induction false} EventsArePieces(ops: seq<Placed>, vs: seq<Visit>, a: nat, b: nat)
    requires InRows(ops, vs) && vs != [] && a < b && a < RowTotal(vs)
    ensures Fold(Events(ops, a, b)) == Fold(SegmentPieces(vs, a, b))
  {
    hide InRows, OpEvents, OpsEvents, PieceAt, Updated, Fold, Resume;
    var i, n := FirstVisit(vs, a), EndVisit(vs, b);
    SegmentIsForward(vs, a, b);
    FirstEvents(ops, vs, a, b);
    CountsGrow(ops, vs, n - 1);
    MoreEvents(ops, vs, a, b, i, n, Resume(ops, a));
    assert ops[..|ops|] == ops;
    if b <= RowTotal(vs) {
      NoEventsFrom(ops, vs, a, b, n, |vs|);
    }
  }

  lemma {:induction false} GapFreeInRows(base: u32, vs: seq<Visit>)
    requires GapFree(base, vs) && forall i :: 0 <= i < |vs| ==> vs[i].count > 0
    ensures InRows(Layout(base, vs), vs)
  {
    GapFreeLayout(base, vs, |vs|);
    forall i | 0 <= i < |vs|
      ensures InRow(Layout(base, vs), vs, i)
    {
      GapFreeLayout(base, vs, i);
    }
  }

  lemma {:induction false} SegmentStarts(t: nat, rows: nat, j: nat)
    requires rows > 0 && j < (t + rows - 1) / rows
    ensures j * rows < t
  {
    MultipleWithin(j + 1, rows, t + rows - 1);
    MulStep(j, rows);
  }

  lemma {:induction false} CeilOfQuotient(t: nat, rows: nat)
    requires rows > 0
    ensures (t + rows - 1) / rows == t / rows + if t % rows == 0 then 0 else 1
  {
    var q, r := t / rows, t % rows;
    if r == 0 {
      QuotientFrom(t + rows - 1, rows, q, rows - 1);
    } else {
      MulStep(q, rows);
      QuotientFrom(t + rows - 1, rows, q + 1, r - 1);
    }
  }

  /** Where no word is skipped, the two planners agree segment by segment; the parallel one has one more,
      empty segment exactly if the rows are a multiple of the segment size. */
  lemma {:induction false} PlannersAgree(base: u32, vs: seq<Visit>, rows: nat, segments: seq<Summary>)
    requires Finished(rows, segments, Layout(base, vs), GapTotal(base, vs)) && vs != []
    requires GapFree(base, vs) && forall i :: 0 <= i < |vs| ==> vs[i].count > 0
    ensures forall j: nat :: j < |segments| ==> j * rows <= RowTotal(vs) && segments[j] == SegmentOf(vs, rows, j)
    ensures |segments| == RowTotal(vs) / rows + if RowTotal(vs) % rows == 0 then 0 else 1
  {
    hide Layout, RowTotal, GapTotal, InRows, Events, SegmentPieces;
    var ops, t := Layout(base, vs), RowTotal(vs);
    GapFreeLayout(base, vs, |vs|);
    GapFreeInRows(base, vs);
    CeilOfQuotient(t, rows);
    forall j: nat | j < |segments|
      ensures j * rows <= t && segments[j] == SegmentOf(vs, rows, j)
    {
      assert SegmentIs(ops, rows, j, segments[j]);
      SegmentStarts(t, rows, j);
      FromIsProduct(rows, j);
      EventsArePieces(ops, vs, j * rows, j * rows + rows);
    }
  }

  // ---- The planner on a counted trace ----

  /** Counters filled from a trace give the planner a stream it can scan: chunks are numbered below
      NO_CHUNK_ID and every entry has rows. */
  lemma {:induction false} TraceIsScannable(books: seq<Book>, chunks: seq<seq<Op>>, rows: nat, fromPage: nat, hi: nat, vs: seq<Visit>)
    requires BooksWf(books) && TraceWellFormed(chunks) && CountedBy(books, chunks) && CountsFit(chunks)
    requires rows > 0 && fromPage < MAX_PAGES && hi <= CELLS && vs == Stream(books, FirstCell(fromPage), hi)
    ensures Scan(books, vs, rows, fromPage, hi) && Tidy(vs)
  {
    assert |chunks| <= MAX_CHUNKS;
    hide Cell, Wf, Stream, CountsFit, CountedBy, TraceWellFormed;
    TraceIsTidy(books, chunks, FirstCell(fromPage), hi, vs);
  }
}
