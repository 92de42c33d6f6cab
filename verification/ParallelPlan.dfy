/** The parallel plan as a whole: the generator's plan, the queue's interleavings and the workers'
    rebuilt segments together give the sequential cut of the row stream; and the row stream is the
    trace, word by word in address order. */
module ParallelPlan {
  import opened MemConfig
  import opened AddressMap
  import opened Chains
  import opened SlotHeap
  import opened Trace
  import opened RowStream
  import opened CheckPoints
  import opened RowMeaning
  import opened LocatorQueue
  import opened QueueRuns
  import P = MemPlanner

  // ---- What a plan says ----

  /** Locator k of a plan names the entry that holds row k * rows, counting from 1, and how much of it lies
      before the cut: at least one row, at most all. */
  lemma {:induction false} LocatorsCut(books: seq<Book>, vs: seq<Visit>, rows: nat, plan: seq<Locator>, k: nat) returns (i: nat)
    requires BooksWf(books) && rows > 0 && IsPlan(books, vs, rows, plan) && 1 <= k < |plan|
    ensures |plan| == RowTotal(vs) / rows + 1 && i < |vs|
    ensures plan[k].thread == vs[i].thread && plan[k].offset == vs[i].offset && plan[k].cpos == vs[i].cpos
    ensures RowsBefore(vs, i) + plan[k].skip == k * rows && 1 <= plan[k].skip <= vs[i].count
  {
    assert k * rows <= RowTotal(vs) && CutIs(vs, k * rows, plan[k]);
    i := EntryOf(vs, k * rows, |vs|);
  }

  ghost predicate CutsAt(vs: seq<Visit>, rows: nat, k: nat, l: Locator) {
    k * rows <= RowTotal(vs) && CutIs(vs, k * rows, l)
  }

  lemma {:induction false} CutExists(vs: seq<Visit>, rows: nat, k: nat) returns (l: Locator)
    requires rows > 0 && 1 <= k <= RowTotal(vs) / rows
    ensures CutsAt(vs, rows, k, l)
  {
    hide RowTotal;
    MultipleWithin(k, rows, RowTotal(vs));
    MulOrder(1, k, rows);
    l := CutAt(vs, k * rows);
  }

  /** The cuts 1 to k, behind the first locator. */
  lemma {:induction false} CutsExist(vs: seq<Visit>, rows: nat, first: Locator, k: nat) returns (plan: seq<Locator>)
    requires rows > 0 && k <= RowTotal(vs) / rows
    ensures |plan| == k + 1 && plan[0] == first
    ensures forall j :: 1 <= j < |plan| ==> CutsAt(vs, rows, j, plan[j])
    decreases k
  {
    hide CutsAt, RowTotal;
    if k == 0 {
      plan := [first];
    } else {
      plan := CutsExist(vs, rows, first, k - 1);
      var l := CutExists(vs, rows, k);
      plan := plan + [l];
    }
  }

  lemma {:induction false} CutsArePlan(books: seq<Book>, vs: seq<Visit>, rows: nat, plan: seq<Locator>)
    requires BooksWf(books) && rows > 0 && vs != [] && |plan| == RowTotal(vs) / rows + 1 && IsFirst(books, vs[0], plan[0])
    requires forall j :: 1 <= j < |plan| ==> CutsAt(vs, rows, j, plan[j])
    ensures IsPlan(books, vs, rows, plan)
  {
    hide IsFirst, CutIs, RowTotal;
    forall k | 1 <= k < |plan|
      ensures k * rows <= RowTotal(vs) && CutIs(vs, k * rows, plan[k])
    {
      assert CutsAt(vs, rows, k, plan[k]);
    }
  }

  lemma {:induction false} FirstExists(books: seq<Book>, lo: nat, hi: nat, vs: seq<Visit>) returns (first: Locator)
    requires BooksWf(books) && hi <= CELLS && vs == Stream(books, lo, hi) && vs != []
    ensures IsFirst(books, vs[0], first)
  {
    var n, k := Locate(books, lo, hi, 0);
    VisitInCell(books, n, k);
    assert CellOffset(n) in books[CellThread(n)].lists;
    hide Stream, Cell, Wf;
    first := Locator(CellThread(n), CellOffset(n), LastPos(books[CellThread(n)], CellOffset(n)), 0);
  }

  lemma {:induction false} NothingToPlan(books: seq<Book>, rows: nat)
    requires BooksWf(books) && rows > 0
    ensures IsPlan(books, [], rows, [])
  {
  }

  /** Every stream has a plan. */
  lemma {:induction false} PlanExists(books: seq<Book>, lo: nat, hi: nat, vs: seq<Visit>, rows: nat) returns (plan: seq<Locator>)
    requires BooksWf(books) && hi <= CELLS && vs == Stream(books, lo, hi) && rows > 0
    ensures IsPlan(books, vs, rows, plan)
    ensures |plan| == if vs == [] then 0 else RowTotal(vs) / rows + 1
  {
    hide Stream, Wf, Cell, RowTotal, IsPlan, IsFirst, CutsAt;
    if vs == [] {
      NothingToPlan(books, rows);
      plan := [];
    } else {
      var first := FirstExists(books, lo, hi, vs);
      plan := CutsExist(vs, rows, first, RowTotal(vs) / rows);
      CutsArePlan(books, vs, rows, plan);
    }
  }

  // ---- The parallel result is the sequential cut ----

  /** The sequential cut: segment k summarises rows [k * rows, (k + 1) * rows). */
  function SegmentOf(vs: seq<Visit>, rows: nat, k: nat): Summary
    requires vs != [] && rows > 0 && k * rows <= RowTotal(vs)
  {
    Fold(SegmentPieces(vs, k * rows, k * rows + rows))
  }

  ghost function SegmentAt(books: seq<Book>, vs: seq<Visit>, rows: nat, plan: seq<Locator>, k: nat): Summary
    requires BooksWf(books) && rows > 0 && IsPlan(books, vs, rows, plan) && k < |plan|
  {
    MultipleWithin(k, rows, RowTotal(vs));
    SegmentOf(vs, rows, k)
  }

  ghost function JobOf(books: seq<Book>, vs: seq<Visit>, rows: nat, plan: seq<Locator>): Job<Summary>
    requires BooksWf(books) && rows > 0 && IsPlan(books, vs, rows, plan)
  {
    Job(plan, seq(|plan|, k requires 0 <= k < |plan| => SegmentAt(books, vs, rows, plan, k)))
  }

  /** A worker's rebuild step in the queue is what MemPlanner.ExecuteFromLocator ensures. */
  lemma {:induction false} RebuildIsExecute(books: seq<Book>, vs: seq<Visit>, rows: nat, plan: seq<Locator>, k: nat, m: Summary)
    requires BooksWf(books) && rows > 0 && IsPlan(books, vs, rows, plan) && k < |plan|
    ensures P.StartsAt(books, vs, rows, k, plan[k])
    ensures RebuildSpec(JobOf(books, vs, rows, plan), k, plan[k], m) <==> P.Built(vs, rows, k * rows, m)
  {
    P.PlanStarts(books, vs, rows, plan, k);
    assert JobOf(books, vs, rows, plan).results[k] == SegmentAt(books, vs, rows, plan, k);
  }

  /** For every row stream, every segment size and every interleaving of producer and workers in which
      all locators get claimed and stored, the segment map is the sequential cut. */
  lemma {:induction false} ParallelIsSequential(books: seq<Book>, vs: seq<Visit>, rows: nat, plan: seq<Locator>,
                                                states: seq<State<Summary>>, steps: seq<Step<Summary>>)
    requires BooksWf(books) && rows > 0 && IsPlan(books, vs, rows, plan) && |plan| <= MAX_LOCATORS
    requires IsRun(JobOf(books, vs, rows, plan), states, steps)
    requires var s := states[|states| - 1]; s.readPos == |plan| && NobodyHolds(s)
    ensures var segments := states[|states| - 1].segments;
            && (forall k: nat :: k in segments <==> vs != [] && k <= RowTotal(vs) / rows)
            && (forall k: nat :: k in segments ==> k * rows <= RowTotal(vs) && vs != [] && segments[k] == SegmentOf(vs, rows, k))
  {
    var job := JobOf(books, vs, rows, plan);
    AllClaimedMeansAllRight(job, states, steps);
    forall k: nat | k < |plan|
      ensures k * rows <= RowTotal(vs) && vs != [] && job.results[k] == SegmentOf(vs, rows, k)
    {
      MultipleWithin(k, rows, RowTotal(vs));
      assert job.results[k] == SegmentAt(books, vs, rows, plan, k);
    }
  }

  /** And such interleavings there are: every plan can be carried out by any number of workers. */
  lemma {:induction false} ParallelPlanIsCarriedOut(books: seq<Book>, vs: seq<Visit>, rows: nat, plan: seq<Locator>, workers: nat)
    returns (states: seq<State<Summary>>, steps: seq<Step<Summary>>)
    requires BooksWf(books) && rows > 0 && IsPlan(books, vs, rows, plan) && |plan| <= MAX_LOCATORS && workers > 0
    ensures IsRun(JobOf(books, vs, rows, plan), states, steps) && states != []
    ensures var s := states[|states| - 1];
            && |s.workers| == workers && s.readPos == |plan| && NobodyHolds(s) && AllQuit(s)
            && (forall k: nat :: k in s.segments <==> vs != [] && k <= RowTotal(vs) / rows)
            && (forall k: nat :: k in s.segments ==> k * rows <= RowTotal(vs) && vs != [] && s.segments[k] == SegmentOf(vs, rows, k))
  {
    hide IsRun, SegmentOf, RowTotal, Wf;
    states, steps := EveryPlanCanBeCarriedOut(JobOf(books, vs, rows, plan), workers);
    ParallelIsSequential(books, vs, rows, plan, states, steps);
  }

  // ---- The cut covers the stream ----

  function SliceOf(vs: seq<Visit>, rows: nat, k: nat): seq<Row>
    requires rows > 0 && k * rows <= RowTotal(vs) && |Rows(vs)| == RowTotal(vs)
  {
    Rows(vs)[k * rows..Min(k * rows + rows, RowTotal(vs))]
  }

  /** The slices of segments 0 to k, one after the other. */
  function SlicesTo(vs: seq<Visit>, rows: nat, k: nat): seq<Row>
    requires rows > 0 && |Rows(vs)| == RowTotal(vs) && k * rows <= RowTotal(vs)
  {
    if k == 0 then SliceOf(vs, rows, 0) else
      MulOrder(k - 1, k, rows);
      SlicesTo(vs, rows, k - 1) + SliceOf(vs, rows, k)
  }

  /** Segment k stands for exactly its slice of the row stream. */
  lemma {:induction false} SegmentStandsForSlice(vs: seq<Visit>, rows: nat, k: nat)
    requires vs != [] && rows > 0 && k * rows <= RowTotal(vs)
    ensures |Rows(vs)| == RowTotal(vs)
    ensures Expand(SegmentPieces(vs, k * rows, k * rows + rows)) == SliceOf(vs, rows, k)
  {
    RowTotalIsLength(vs);
    hide Expand, SegmentPieces, Rows, RowTotal;
    var a := k * rows;
    SegmentIsSlice(vs, a, a + rows);
  }

  /** Every slice before the end of the stream has `rows` rows. */
  lemma {:induction false} SliceLength(vs: seq<Visit>, rows: nat, k: nat)
    requires rows > 0 && k * rows <= RowTotal(vs)
    ensures |Rows(vs)| == RowTotal(vs)
    ensures |SliceOf(vs, rows, k)| == if k * rows + rows <= RowTotal(vs) then rows else RowTotal(vs) - k * rows
  {
    RowTotalIsLength(vs);
    hide Rows, RowTotal;
  }

  /** The slices of the first segments, one after the other, are the stream up to where they end. */
  lemma {:induction false} SlicesArePrefix(vs: seq<Visit>, rows: nat, k: nat)
    requires rows > 0 && |Rows(vs)| == RowTotal(vs) && k * rows <= RowTotal(vs)
    ensures SlicesTo(vs, rows, k) == Rows(vs)[..Min(k * rows + rows, RowTotal(vs))]
  {
    hide Rows, RowTotal;
    if k == 0 {
    } else {
      MulOrder(k - 1, k, rows);
      MulStep(k - 1, rows);
      SlicesArePrefix(vs, rows, k - 1);
      JoinSlices(Rows(vs), 0, k * rows, Min(k * rows + rows, RowTotal(vs)));
    }
  }

  lemma {:induction false} LastMultiple(t: nat, rows: nat)
    requires rows > 0
    ensures t == t / rows * rows + t % rows && t % rows < rows
  {
  }

  /** All segments together are the whole stream, each row once; the last one is empty exactly when
      the rows are a multiple of the segment size. */
  lemma {:induction false} SlicesAreTheStream(vs: seq<Visit>, rows: nat, q: nat)
    requires vs != [] && rows > 0 && q == RowTotal(vs) / rows
    ensures |Rows(vs)| == RowTotal(vs) && q * rows <= RowTotal(vs)
    ensures SlicesTo(vs, rows, q) == Rows(vs)
    ensures SliceOf(vs, rows, q) == [] <==> RowTotal(vs) % rows == 0
  {
    RowTotalIsLength(vs);
    hide Rows, RowTotal;
    var t := RowTotal(vs);
    LastMultiple(t, rows);
    SlicesArePrefix(vs, rows, q);
    assert Rows(vs)[..t] == Rows(vs);
  }

  // ---- What a segment says of a chunk ----

  lemma {:induction false} PiecesInOrder(vs: seq<Visit>, start: nat, end: nat, a: nat, b: nat)
    requires start <= end <= |vs|
    ensures |Pieces(vs, start, end, a, b)| == end - start
    ensures forall i :: 0 <= i < end - start ==> Pieces(vs, start, end, a, b)[i] == PieceAt(vs, start + i, a, b)
    decreases end
  {
    if start >= end {
    } else {
      PiecesInOrder(vs, start, end - 1, a, b);
    }
  }

  lemma {:induction false} PiecesAscend(vs: seq<Visit>, start: nat, end: nat, a: nat, b: nat)
    requires start <= end <= |vs| && VisitsAscend(vs)
    ensures AddressesAscend(Pieces(vs, start, end, a, b))
  {
    PiecesInOrder(vs, start, end, a, b);
    hide Pieces, RowsBefore;
  }

  lemma {:induction false} OnlyFirstSkips(vs: seq<Visit>, a: nat, b: nat, i: nat)
    requires vs != [] && a <= RowTotal(vs) && FirstVisit(vs, a) < i < |vs|
    ensures PieceAt(vs, i, a, b).skip == 0
  {
    P.PastFirst(vs, a, i);
  }

  /** What the summary m of segment [a, b) must say of a chunk: it has a checkpoint for it exactly if
      the chunk has a piece, that checkpoint describes the chunk's pieces, and it counts the chunk's
      rows in the slice. */
  ghost predicate Tells(m: Summary, ps: seq<Piece>, slice: seq<Row>, chunk: u32) {
    && (chunk in m <==> OfChunk(ps, chunk) != [])
    && (chunk in m ==> Describes(m[chunk], OfChunk(ps, chunk)) && m[chunk].count == RowsOfChunk(slice, chunk))
    && (chunk !in m ==> RowsOfChunk(slice, chunk) == 0)
  }

  lemma {:induction false} PiecesTell(ps: seq<Piece>, chunk: u32)
    requires AddressesAscend(ps) && |Expand(ps)| < WORD
    ensures Tells(Fold(ps), ps, Expand(ps), chunk)
  {
    FoldDescribes(ps, chunk);
    PiecesCountRows(ps, chunk);
    FewerRows(Expand(ps), chunk);
    RowsForCount(Expand(ps), chunk);
    assert CountOf([]) == 0;
  }

  lemma {:induction false} SegmentAscends(vs: seq<Visit>, a: nat, b: nat)
    requires VisitsAscend(vs) && vs != [] && a <= RowTotal(vs) && a < b
    ensures AddressesAscend(SegmentPieces(vs, a, b))
  {
    SegmentIsForward(vs, a, b);
    PiecesAscend(vs, FirstVisit(vs, a), EndVisit(vs, b), a, b);
  }

  /** The checkpoints of a segment mean what they should, chunk by chunk: rows, first address and rows
      there, last address and rows there. */
  lemma {:induction false} CheckPointMeaning(books: seq<Book>, lo: nat, hi: nat, vs: seq<Visit>, rows: nat, k: nat, chunk: u32)
    requires BooksWf(books) && hi <= CELLS && vs == Stream(books, lo, hi) && vs != []
    requires 0 < rows < WORD && k * rows <= RowTotal(vs)
    ensures |Rows(vs)| == RowTotal(vs)
    ensures Tells(SegmentOf(vs, rows, k), SegmentPieces(vs, k * rows, k * rows + rows), SliceOf(vs, rows, k), chunk)
  {
    hide Stream, Wf, Tells, SegmentPieces, Rows, RowTotal, Expand;
    var a := k * rows;
    assert VisitsAscend(vs) by { StreamVisitsAscend(books, lo, hi); }
    SegmentAscends(vs, a, a + rows);
    SegmentStandsForSlice(vs, rows, k);
    PiecesTell(SegmentPieces(vs, a, a + rows), chunk);
  }

  // ---- What a segment says of its rows ----

  /** The entry that the segment starting at row a resumes, if the cut falls exactly at its end: all its
      rows are done. */
  function EntryEndingAt(vs: seq<Visit>, a: nat): Option<Piece>
    requires vs != [] && a <= RowTotal(vs)
  {
    var i := FirstVisit(vs, a);
    if RowsBefore(vs, i + 1) == a then Some(Piece(vs[i].chunk, vs[i].addr, vs[i].count, 0)) else None
  }

  /** Only the entry a segment resumes can have no rows in it. */
  lemma {:induction false} PieceHasRows(vs: seq<Visit>, a: nat, b: nat, j: nat)
    requires Tidy(vs) && vs != [] && a <= RowTotal(vs) && a < b && FirstVisit(vs, a) <= j < EndVisit(vs, b)
    ensures PieceAt(vs, j, a, b).skip <= vs[j].count
    ensures PieceAt(vs, j, a, b).count == 0 <==> j == FirstVisit(vs, a) && RowsBefore(vs, j + 1) == a
    ensures PieceAt(vs, j, a, b).count == 0 ==> PieceAt(vs, j, a, b).skip == vs[j].count
  {
    var i := FirstVisit(vs, a);
    assert RowsBefore(vs, j) < b by {
      if b <= RowTotal(vs) {
        RowsBeforeGrows(vs, j, EndVisit(vs, b) - 1);
      } else {
        RowsBeforeGrows(vs, j + 1, |vs|);
      }
    }
    if i < j {
      RowsBeforeGrows(vs, i + 1, j);
    }
    assert RowsBefore(vs, 0) == 0;
  }

  lemma {:induction false} SegmentEntered(vs: seq<Visit>, a: nat, b: nat)
    requires Tidy(vs) && vs != [] && a <= RowTotal(vs) && a < b
    ensures var ps, i := SegmentPieces(vs, a, b), FirstVisit(vs, a);
            && Entered(ps) && ps != [] && ps[0].chunk == vs[i].chunk
            && ResumedEntry(ps) == EntryEndingAt(vs, a)
            && forall p :: p in ps[1..] ==> p.skip == 0
  {
    SegmentIsForward(vs, a, b);
    var ps, i, e := SegmentPieces(vs, a, b), FirstVisit(vs, a), EndVisit(vs, b);
    PiecesInOrder(vs, i, e, a, b);
    SegmentAscends(vs, a, b);
    forall j | 0 <= j < |ps|
      ensures ps[j].skip < WORD && (j > 0 ==> ps[j].count > 0 && ps[j].skip == 0)
    {
      PieceHasRows(vs, a, b, i + j);
      if j > 0 {
        OnlyFirstSkips(vs, a, b, i + j);
      }
    }
    PieceHasRows(vs, a, b, i);
    hide RowsBefore, SegmentPieces, Pieces, AddressesAscend, FirstVisit, EndVisit;
    forall j | 0 < j < |ps|
      ensures Differ(ps[0], ps[j])
    {
      assert ps[0] == PieceAt(vs, i, a, b) && ps[j] == PieceAt(vs, i + j, a, b);
    }
  }

  lemma {:induction false} SegmentTellsRows(vs: seq<Visit>, a: nat, b: nat, chunk: u32)
    requires Tidy(vs) && vs != [] && a <= RowTotal(vs) && a < b < a + WORD
    ensures a <= Min(b, RowTotal(vs)) <= |Rows(vs)|
    ensures var m := Fold(SegmentPieces(vs, a, b));
            && TellsRows(m, Rows(vs)[a..Min(b, RowTotal(vs))], chunk, EntryEndingAt(vs, a))
            && (chunk in m && chunk != vs[FirstVisit(vs, a)].chunk ==> m[chunk].fromSkip == 0)
  {
    hide Entered, SegmentPieces, Rows, RowTotal, Expand, TellsRows, RowsBefore, FirstVisit, EntryEndingAt, Tidy;
    SegmentIsSlice(vs, a, b);
    SegmentEntered(vs, a, b);
    FoldTellsRows(SegmentPieces(vs, a, b), chunk);
  }

  /** The checkpoints of a segment in terms of its rows, chunk by chunk. A checkpoint starts at its
      chunk's first row in the slice, except that of an entry the cut ends exactly at: that one has a
      checkpoint even without rows, and it starts at that entry. Only the chunk of the resumed entry can
      have a skip. */
  lemma {:induction false} CheckPointsTellRows(vs: seq<Visit>, rows: nat, k: nat, chunk: u32)
    requires Tidy(vs) && vs != [] && 0 < rows < WORD && k * rows <= RowTotal(vs)
    ensures |Rows(vs)| == RowTotal(vs)
    ensures TellsRows(SegmentOf(vs, rows, k), SliceOf(vs, rows, k), chunk, EntryEndingAt(vs, k * rows))
    ensures var m := SegmentOf(vs, rows, k);
            chunk in m && chunk != vs[FirstVisit(vs, k * rows)].chunk ==> m[chunk].fromSkip == 0
  {
    hide Tidy, SegmentPieces, Rows, RowTotal, TellsRows, FirstVisit, EntryEndingAt;
    RowTotalIsLength(vs);
    var a := k * rows;
    SegmentTellsRows(vs, a, a + rows, chunk);
  }

  lemma {:induction false} TwoVisits(v: Visit, w: Visit, a: nat, b: nat)
    ensures var vs := [v, w];
            && RowsBefore(vs, 0) == 0 && RowsBefore(vs, 1) == v.count && RowsBefore(vs, 2) == RowTotal(vs) == v.count + w.count
            && Rows(vs) == RowsOf(v.chunk, v.addr, 0, v.count) + RowsOf(w.chunk, w.addr, 0, w.count)
            && Pieces(vs, 0, 2, a, b) == [PieceAt(vs, 0, a, b), PieceAt(vs, 1, a, b)]
  {
    hide PieceAt, RowsOf;
    var vs := [v, w];
    assert vs[..1] == [v] && [v][..0] == [];
    assert Rows([v]) == [] + RowsOf(v.chunk, v.addr, 0, v.count);
    assert Pieces(vs, 0, 1, a, b) == [] + [PieceAt(vs, 0, a, b)];
  }

  lemma {:induction false} SecondPieces(v: Visit, w: Visit)
    requires v.count == w.count == 1
    ensures RowTotal([v, w]) == 2
    ensures SegmentPieces([v, w], 1, 2) == [Piece(v.chunk, v.addr, 1, 0), Piece(w.chunk, w.addr, 0, 1)]
  {
    var vs := [v, w];
    TwoVisits(v, w, 1, 2);
    EntryIsUnique(vs, 1, 2, 0);
    EntryIsUnique(vs, 2, 2, 1);
    assert PieceAt(vs, 0, 1, 2) == Piece(v.chunk, v.addr, 1, 0);
    assert PieceAt(vs, 1, 1, 2) == Piece(w.chunk, w.addr, 0, 1);
    hide Pieces, RowsBefore, EntryOf, PieceAt;
  }

  lemma {:induction false} SecondRows(v: Visit, w: Visit)
    requires v.count == w.count == 1
    ensures |Rows([v, w])| == 2 == RowTotal([v, w]) && SliceOf([v, w], 1, 1) == [Row(w.chunk, w.addr, 0)]
  {
    TwoVisits(v, w, 1, 2);
    assert RowsOf(v.chunk, v.addr, 0, 1) == [Row(v.chunk, v.addr, 0)] && RowsOf(w.chunk, w.addr, 0, 1) == [Row(w.chunk, w.addr, 0)];
    hide Rows, RowTotal, RowsOf;
  }

  /** It happens wherever a cut falls at the end of an entry: of two one-row visits, cut into one-row
      segments, the second segment has a checkpoint of the first visit's chunk too, which counts nothing.
      Instances.dfy gives a trace for it. */
  lemma {:induction false} CheckPointWithoutRows(v: Visit, w: Visit)
    requires v.count == w.count == 1 && v.chunk != w.chunk
    ensures var vs := [v, w];
            && RowTotal(vs) == 2 && |Rows(vs)| == 2 && SliceOf(vs, 1, 1) == [Row(w.chunk, w.addr, 0)]
            && SegmentOf(vs, 1, 1)
               == map[v.chunk := CheckPoint(v.addr, 1, v.addr, 0, 0, 0), w.chunk := CheckPoint(w.addr, 0, w.addr, 1, 1, 1)]
  {
    hide Fold, Rows, RowTotal, SegmentPieces, SliceOf;
    SecondPieces(v, w);
    SecondRows(v, w);
    FoldTwo(Piece(v.chunk, v.addr, 1, 0), Piece(w.chunk, w.addr, 0, 1));
  }

  // ---- The stream is the trace ----

  /** What the ideal record of a word lists, as a walk would show it. */
  function Shown(c: seq<Visit>): seq<Entry> {
    seq(|c|, i requires 0 <= i < |c| => Entry(c[i].chunk, c[i].count))
  }

  ghost predicate CountsFit(chunks: seq<seq<Op>>) {
    forall c, w :: 0 <= c < |chunks| && 0 <= w < WORD ==> WordOpsIn(chunks[c], w) < WORD
  }

  lemma {:induction false} FewWordOps(ops: seq<Op>, w: u32)
    requires AllWellFormed(ops)
    ensures WordOpsIn(ops, w) <= 2 * |ops|
    decreases |ops|
  {
    if ops == [] {
    } else {
      FewWordOps(ops[..|ops| - 1], w);
      assert WellFormed(ops[|ops| - 1]);
    }
  }

  /** Chunks of fewer than 2^31 operations fit. */
  lemma {:induction false} ShortChunksFit(chunks: seq<seq<Op>>)
    requires TraceWellFormed(chunks) && forall c :: 0 <= c < |chunks| ==> |chunks[c]| < 0x8000_0000
    ensures CountsFit(chunks)
  {
    hide WordOpsIn;
    forall c, w | 0 <= c < |chunks| && 0 <= w < WORD
      ensures WordOpsIn(chunks[c], w) < WORD
    {
      FewWordOps(chunks[c], w);
    }
  }

  lemma {:induction false} IdealCountsFit(chunks: seq<seq<Op>>, w: u32, i: nat)
    requires |chunks| <= MAX_CHUNKS && CountsFit(chunks) && i < |IdealList(chunks, w)|
    ensures IdealList(chunks, w)[i].count < WORD
    decreases |chunks|
  {
    var front := chunks[..|chunks| - 1];
    if i >= |IdealList(front, w)| {
    } else {
      IdealCountsFit(front, w, i);
    }
  }

  /** A cell shows the ideal record of its word, unless its chain is two blocks rooted at block 0;
      then it shows the record without its first seven entries. */
  lemma {:induction false} CellShowsWord(books: seq<Book>, chunks: seq<seq<Op>>, n: nat)
    requires BooksWf(books) && TraceWellFormed(chunks) && CountedBy(books, chunks) && CountsFit(chunks) && n < CELLS
    ensures CellOffset(n) < ADDR_TABLE_SIZE
    ensures var l := IdealList(chunks, SlotAddr(CellOffset(n), CellThread(n)));
            if LosesFirstBlock(books[CellThread(n)], CellOffset(n))
            then |l| >= 8 && Shown(Cell(books, n)) == l[7..]
            else Shown(Cell(books, n)) == l
  {
    hide Walk, Wf, IdealList, RunChunks, WordOpsIn, SlotAddr;
    var t, o := CellThread(n), CellOffset(n);
    var b, w := books[t], SlotAddr(CellOffset(n), CellThread(n));
    ListsAreIdeal(t, chunks, o);
    WalkSeesTheList(b, o);
    var l, c, s := IdealList(chunks, w), Cell(books, n), WalkStart(b, o);
    assert l[0..] == l;
    assert Seen(Walk(b, o)) == Recorded(l[s..]);
    assert |c| == |Seen(Walk(b, o))| == |l[s..]|;
    forall i | 0 <= i < |c|
      ensures Shown(c)[i] == l[s + i]
    {
      assert Seen(Walk(b, o))[i] == (c[i].chunk, c[i].count);
      assert Recorded(l[s..])[i] == (l[s + i].chunk, Wrap(l[s + i].count));
      IdealCountsFit(chunks, w, s + i);
    }
  }

  lemma {:induction false} ShownAt(c: seq<Visit>, k: nat)
    requires k < |c|
    ensures |Shown(c)| == |c| && Shown(c)[k] == Entry(c[k].chunk, c[k].count)
  {
  }

  lemma {:induction false} AscendsAt(l: seq<Entry>, chunks: nat, i: nat, j: nat)
    requires Ascends(l, chunks) && i <= j < |l|
    ensures l[i].chunk < chunks && l[i].count > 0 && (i < j ==> l[i].chunk < l[j].chunk)
  {
  }

  /** Entry k of a cell: its chunk is one of the trace's, it has rows, and later entries are of later chunks. */
  lemma {:induction false} CellAscends(books: seq<Book>, chunks: seq<seq<Op>>, n: nat, k: nat, k': nat)
    requires BooksWf(books) && TraceWellFormed(chunks) && CountedBy(books, chunks) && CountsFit(chunks)
    requires n < CELLS && k <= k' < |Cell(books, n)|
    ensures var c := Cell(books, n);
            c[k].chunk < |chunks| && c[k].count > 0 && (k < k' ==> c[k].chunk < c[k'].chunk)
  {
    assert |chunks| <= MAX_CHUNKS;
    hide Cell, Wf, CountsFit, CountedBy, TraceWellFormed, IdealList, SlotAddr, LosesFirstBlock, Shown, Ascends, BooksWf;
    CellShowsWord(books, chunks, n);
    var c, l := Cell(books, n), IdealList(chunks, SlotAddr(CellOffset(n), CellThread(n)));
    IdealListAscends(chunks, SlotAddr(CellOffset(n), CellThread(n)));
    ShownAt(c, k);
    ShownAt(c, k');
    var s := if LosesFirstBlock(books[CellThread(n)], CellOffset(n)) then 7 else 0;
    AscendsAt(l, |chunks|, s + k, s + k');
  }

  /** One visit at most for a chunk at an address. */
  lemma {:induction false} VisitsDiffer(books: seq<Book>, chunks: seq<seq<Op>>, lo: nat, hi: nat, i: nat, j: nat)
    requires BooksWf(books) && TraceWellFormed(chunks) && CountedBy(books, chunks) && CountsFit(chunks) && hi <= CELLS
    requires i < j < |Stream(books, lo, hi)| && Stream(books, lo, hi)[i].addr == Stream(books, lo, hi)[j].addr
    ensures Stream(books, lo, hi)[i].chunk != Stream(books, lo, hi)[j].chunk
  {
    hide Cell, Wf, Stream, CountsFit, CountedBy, TraceWellFormed, SlotAddr;
    var n1, k1 := Locate(books, lo, hi, i);
    var n2, k2 := Locate(books, lo, hi, j);
    VisitInCell(books, n1, k1);
    VisitInCell(books, n2, k2);
    ScanOrderIsAddressOrder(CellOffset(n1), CellThread(n1), CellOffset(n2), CellThread(n2));
    assert n1 == n2;
    CellAscends(books, chunks, n1, k1, k2);
  }

  /** The stream of a counted trace is tidy, and its chunks are the trace's. */
  lemma {:induction false} TraceIsTidy(books: seq<Book>, chunks: seq<seq<Op>>, lo: nat, hi: nat, vs: seq<Visit>)
    requires BooksWf(books) && TraceWellFormed(chunks) && CountedBy(books, chunks) && CountsFit(chunks)
    requires hi <= CELLS && vs == Stream(books, lo, hi)
    ensures Tidy(vs) && forall i :: 0 <= i < |vs| ==> vs[i].chunk < |chunks|
  {
    hide Cell, Wf, Stream, CountsFit, CountedBy, TraceWellFormed;
    StreamVisitsAscend(books, lo, hi);
    forall i | 0 <= i < |vs|
      ensures vs[i].chunk < |chunks| && vs[i].count > 0
    {
      var n, k := Locate(books, lo, hi, i);
      CellAscends(books, chunks, n, k, k);
    }
    forall i, j | 0 <= i < j < |vs| && vs[i].addr == vs[j].addr
      ensures vs[i].chunk != vs[j].chunk
    {
      VisitsDiffer(books, chunks, lo, hi, i, j);
    }
  }

  function WordRows(chunks: seq<seq<Op>>, n: nat): nat
    requires |chunks| <= MAX_CHUNKS && n < CELLS
  {
    Total(IdealList(chunks, SlotAddr(CellOffset(n), CellThread(n))))
  }

  /** The operations of the trace on the words of cells [lo, hi). */
  function TraceRows(chunks: seq<seq<Op>>, lo: nat, hi: nat): nat
    requires |chunks| <= MAX_CHUNKS && hi <= CELLS
    decreases hi
  {
    if lo >= hi then 0 else TraceRows(chunks, lo, hi - 1) + WordRows(chunks, hi - 1)
  }

  lemma {:induction false} TotalSplits(l: seq<Entry>, i: nat)
    requires i <= |l|
    ensures Total(l) == Total(l[..i]) + Total(l[i..])
    decreases |l|
  {
    if i < |l| {
      TotalSplits(l[..|l| - 1], i);
      assert l[..|l| - 1][..i] == l[..i];
      assert l[..|l| - 1][i..] == l[i..][..|l[i..]| - 1];
    } else {
      assert l[..i] == l;
    }
  }

  lemma {:induction false} ShownRows(c: seq<Visit>)
    ensures RowTotal(c) == Total(Shown(c))
    decreases |c|
  {
    if c == [] {
    } else {
      ShownRows(c[..|c| - 1]);
      RowsBeforePrefix(c, |c| - 1, |c| - 1);
      assert Shown(c)[..|c| - 1] == Shown(c[..|c| - 1]);
    }
  }

  lemma {:induction false} RowsConcat(a: seq<Visit>, b: seq<Visit>, i: nat)
    requires i <= |b|
    ensures RowsBefore(a + b, |a| + i) == RowTotal(a) + RowsBefore(b, i)
  {
    if i > 0 {
      RowsConcat(a, b, i - 1);
    } else {
      RowsBeforePrefix(a + b, |a|, |a|);
      assert (a + b)[..|a|] == a;
    }
  }

  /** A cell has all its word's rows exactly if its chain does not lose its first block. */
  lemma {:induction false} CellRows(books: seq<Book>, chunks: seq<seq<Op>>, n: nat)
    requires BooksWf(books) && TraceWellFormed(chunks) && CountedBy(books, chunks) && CountsFit(chunks) && n < CELLS
    ensures RowTotal(Cell(books, n)) <= WordRows(chunks, n)
    ensures RowTotal(Cell(books, n)) == WordRows(chunks, n) <==> !LosesFirstBlock(books[CellThread(n)], CellOffset(n))
  {
    assert |chunks| <= MAX_CHUNKS;
    hide Cell, Wf, IdealList, SlotAddr, LosesFirstBlock, CountsFit, CountedBy, TraceWellFormed;
    CellShowsWord(books, chunks, n);
    ShownRows(Cell(books, n));
    var l := IdealList(chunks, SlotAddr(CellOffset(n), CellThread(n)));
    IdealListAscends(chunks, SlotAddr(CellOffset(n), CellThread(n)));
    if |l| >= 7 {
      TotalSplits(l, 7);
      TotalSplits(l[..7], 6);
      assert Total(l[..7][6..]) >= l[6].count;
    }
  }

  /** The planners' row stream has exactly the trace's rows of the scanned words if and only if none of
      those words has a two-block chain rooted at block 0; it never has more. */
  lemma {:induction false} StreamIsTrace(books: seq<Book>, chunks: seq<seq<Op>>, lo: nat, hi: nat)
    requires BooksWf(books) && TraceWellFormed(chunks) && CountedBy(books, chunks) && CountsFit(chunks) && hi <= CELLS
    ensures RowTotal(Stream(books, lo, hi)) <= TraceRows(chunks, lo, hi)
    ensures RowTotal(Stream(books, lo, hi)) == TraceRows(chunks, lo, hi)
            <==> forall n :: lo <= n < hi ==> !LosesFirstBlock(books[CellThread(n)], CellOffset(n))
    decreases hi
  {
    hide Cell, Wf, LosesFirstBlock, CountsFit, CountedBy, TraceWellFormed, WordRows;
    if lo >= hi {
    } else {
      StreamIsTrace(books, chunks, lo, hi - 1);
      CellRows(books, chunks, hi - 1);
      RowsConcat(Stream(books, lo, hi - 1), Cell(books, hi - 1), |Cell(books, hi - 1)|);
    }
  }
}
