/** From the feed and the trace to the segments of both planners: what the checkpoints of a chunk count,
    against the chunk's operations on the planned words. */
module EndToEnd {
  import opened MemConfig
  import opened AddressMap
  import opened Chains
  import opened Trace
  import opened RowStream
  import opened CheckPoints
  import opened LostEntries
  import opened LocatorQueue
  import opened ParallelPlan
  import opened Workers
  import opened GapRows
  import opened GapPlanner
  import opened GapSegments
  import opened GapMeaning
  import opened FeedRuns
  import opened Capacity
  import opened AlignCounter
  import F = ChunkFeed

  // ---- What is to be planned ----

  /** The operations of a chunk on the words of cells [lo, hi). */
  function OpsOnCells(ops: seq<Op>, lo: nat, hi: nat): nat
    requires hi <= CELLS
    decreases hi
  {
    if lo >= hi then 0 else OpsOnCells(ops, lo, hi - 1) + WordOpsIn(ops, SlotAddr(CellOffset(hi - 1), CellThread(hi - 1)))
  }

  function EntryCount(l: seq<Entry>, chunk: u32): nat {
    if l == [] then 0 else EntryCount(l[..|l| - 1], chunk) + if l[|l| - 1].chunk == chunk then l[|l| - 1].count else 0
  }

  lemma {:induction false} NoEntries(l: seq<Entry>, chunk: u32)
    requires forall i :: 0 <= i < |l| ==> l[i].chunk != chunk
    ensures EntryCount(l, chunk) == 0
    decreases |l|
  {
    if l == [] {
    } else {
      NoEntries(l[..|l| - 1], chunk);
    }
  }

  lemma {:induction false} EntryCountSnoc(l: seq<Entry>, e: Entry, chunk: u32)
    ensures EntryCount(l + [e], chunk) == EntryCount(l, chunk) + if e.chunk == chunk then e.count else 0
  {
  }

  /** A word's ideal record holds, for each chunk, the chunk's operations on it. */
  lemma {:induction false} RecordHoldsOps(chunks: seq<seq<Op>>, w: u32, chunk: u32)
    requires |chunks| <= MAX_CHUNKS
    ensures EntryCount(IdealList(chunks, w), chunk) == if chunk < |chunks| then WordOpsIn(chunks[chunk], w) else 0
    decreases |chunks|
  {
    hide WordOpsIn, EntryCount;
    if chunks == [] {
      NoEntries([], chunk);
    } else {
      var c := |chunks| - 1;
      var front, n := IdealList(chunks[..c], w), WordOpsIn(chunks[c], w);
      RecordHoldsOps(chunks[..c], w, chunk);
      EntryCountSnoc(front, Entry(c, n), chunk);
      assert front + [] == front;
    }
  }

  // ---- What a stream holds ----

  lemma {:induction false} RowsSnoc(vs: seq<Visit>, v: Visit, chunk: u32)
    ensures RowsOfChunk(Rows(vs + [v]), chunk) == RowsOfChunk(Rows(vs), chunk) + if v.chunk == chunk then v.count else 0
  {
    assert (vs + [v])[..|vs|] == vs;
    RowsOfChunkConcat(Rows(vs), RowsOf(v.chunk, v.addr, 0, v.count), chunk);
    RowsOfOneChunk(v.chunk, v.addr, 0, v.count, chunk);
  }

  /** Visits after others add the rows of the entries they show. */
  lemma {:induction false} VisitsAddEntries(vs: seq<Visit>, c: seq<Visit>, chunk: u32)
    ensures RowsOfChunk(Rows(vs + c), chunk) == RowsOfChunk(Rows(vs), chunk) + EntryCount(Shown(c), chunk)
    decreases |c|
  {
    hide Rows, RowsOfChunk, EntryCount;
    if c == [] {
      assert vs + c == vs;
      NoEntries(Shown(c), chunk);
    } else {
      var front, v := c[..|c| - 1], c[|c| - 1];
      VisitsAddEntries(vs, front, chunk);
      assert vs + c == vs + front + [v];
      RowsSnoc(vs + front, v, chunk);
      assert Shown(c) == Shown(front) + [Entry(v.chunk, v.count)];
      EntryCountSnoc(Shown(front), Entry(v.chunk, v.count), chunk);
    }
  }

  /** The books record a well-formed trace whose counts fit their words. */
  ghost predicate CountsTrace(books: seq<Book>, chunks: seq<seq<Op>>)
    requires |chunks| <= MAX_CHUNKS
  {
    TraceWellFormed(chunks) && CountedBy(books, chunks) && CountsFit(chunks)
  }

  function FirstBlock(l: seq<Entry>): seq<Entry> {
    l[..Min(7, |l|)]
  }

  function WordOfCell(n: nat): u32
    requires n < CELLS
  {
    SlotAddr(CellOffset(n), CellThread(n))
  }

  /** The cell's word is the first one its worker counts, and 8 to 14 chunks touch it. */
  predicate CellLoses(chunks: seq<seq<Op>>, n: nat)
    requires |chunks| <= MAX_CHUNKS && n < CELLS
  {
    LosesEntries(chunks, CellThread(n), WordOfCell(n))
  }

  lemma {:induction false} LossIsOnTrace(books: seq<Book>, chunks: seq<seq<Op>>, n: nat)
    requires |books| == MAX_THREADS && |chunks| <= MAX_CHUNKS && CountsTrace(books, chunks) && n < CELLS
    ensures LosesFirstBlock(books[CellThread(n)], CellOffset(n)) <==> CellLoses(chunks, n)
  {
    hide LosesFirstBlock, RunChunks, LosesEntries, SlotAddr, CountsFit;
    LosesIffFirstWord(CellThread(n), chunks, CellOffset(n));
  }

  /** The operations of a chunk that cells [lo, hi) lose: those in the first seven entries of their words. */
  function Lost(chunks: seq<seq<Op>>, lo: nat, hi: nat, chunk: u32): nat
    requires |chunks| <= MAX_CHUNKS && hi <= CELLS
    decreases hi
  {
    if lo >= hi then 0 else
      Lost(chunks, lo, hi - 1, chunk)
      + if CellLoses(chunks, hi - 1) then EntryCount(FirstBlock(IdealList(chunks, WordOfCell(hi - 1))), chunk) else 0
  }

  lemma {:induction false} EntryCountSplits(l: seq<Entry>, i: nat, chunk: u32)
    requires i <= |l|
    ensures EntryCount(l, chunk) == EntryCount(l[..i], chunk) + EntryCount(l[i..], chunk)
    decreases |l|
  {
    if i == |l| {
      assert l[..i] == l;
    } else {
      EntryCountSplits(l[..|l| - 1], i, chunk);
      assert l[..|l| - 1][..i] == l[..i];
      assert l[..|l| - 1][i..] == l[i..][..|l[i..]| - 1];
    }
  }

  lemma {:induction false} CellHoldsOps(books: seq<Book>, chunks: seq<seq<Op>>, vs: seq<Visit>, n: nat, chunk: u32)
    requires BooksWf(books) && |chunks| <= MAX_CHUNKS && CountsTrace(books, chunks) && n < CELLS && chunk < |chunks|
    ensures RowsOfChunk(Rows(vs + Cell(books, n)), chunk)
            + (if CellLoses(chunks, n) then EntryCount(FirstBlock(IdealList(chunks, WordOfCell(n))), chunk) else 0)
            == RowsOfChunk(Rows(vs), chunk) + WordOpsIn(chunks[chunk], WordOfCell(n))
  {
    hide Rows, RowsOfChunk, Cell, Wf, CountsFit, CountedBy, TraceWellFormed, SlotAddr, IdealList, LosesFirstBlock, WordOpsIn, EntryCount, Shown;
    LossIsOnTrace(books, chunks, n);
    hide LosesEntries;
    CellShowsWord(books, chunks, n);
    VisitsAddEntries(vs, Cell(books, n), chunk);
    RecordHoldsOps(chunks, WordOfCell(n), chunk);
    var l := IdealList(chunks, WordOfCell(n));
    EntryCountSplits(l, Min(7, |l|), chunk);
  }

  lemma {:induction false} NoRows(chunk: u32)
    ensures RowsOfChunk(Rows([]), chunk) == 0
  {
  }

  /** The row stream holds the chunk's operations on the scanned words, less those that are lost. */
  lemma {:induction false} StreamHoldsOps(books: seq<Book>, chunks: seq<seq<Op>>, lo: nat, hi: nat, chunk: u32)
    requires BooksWf(books) && |chunks| <= MAX_CHUNKS && CountsTrace(books, chunks) && chunk < |chunks| && hi <= CELLS
    ensures RowsOfChunk(Rows(Stream(books, lo, hi)), chunk) + Lost(chunks, lo, hi, chunk)
            == OpsOnCells(chunks[chunk], lo, hi)
    decreases hi
  {
    hide Rows, RowsOfChunk, Cell, Wf, CountsTrace, SlotAddr, CellLoses, WordOpsIn, IdealList, EntryCount, FirstBlock;
    if lo < hi {
      StreamHoldsOps(books, chunks, lo, hi - 1, chunk);
      CellHoldsOps(books, chunks, Stream(books, lo, hi - 1), hi - 1, chunk);
    } else {
      NoRows(chunk);
    }
  }

  // ---- When nothing is lost ----

  /** No scanned word is the first one its worker counts and touched by 8 to 14 chunks. */
  ghost predicate NoWordLoses(chunks: seq<seq<Op>>, lo: nat, hi: nat)
    requires |chunks| <= MAX_CHUNKS && hi <= CELLS
  {
    forall n :: lo <= n < hi ==> !CellLoses(chunks, n)
  }

  lemma {:induction false} NoLossCounts(chunks: seq<seq<Op>>, lo: nat, hi: nat, chunk: u32)
    requires |chunks| <= MAX_CHUNKS && hi <= CELLS
    requires NoWordLoses(chunks, lo, hi)
    ensures Lost(chunks, lo, hi, chunk) == 0
    decreases hi
  {
    hide CellLoses, EntryCount;
    if lo < hi {
      NoLossCounts(chunks, lo, hi - 1, chunk);
    } else {
    }
  }

  lemma {:induction false} LostGrows(chunks: seq<seq<Op>>, lo: nat, mid: nat, hi: nat, chunk: u32)
    requires |chunks| <= MAX_CHUNKS && lo <= mid <= hi <= CELLS
    ensures Lost(chunks, lo, mid, chunk) <= Lost(chunks, lo, hi, chunk)
    decreases hi
  {
    hide CellLoses, EntryCount, IdealList, FirstBlock;
    if mid == hi {
    } else {
      LostGrows(chunks, lo, mid, hi - 1, chunk);
    }
  }

  /** A lost word loses operations of its first chunk. */
  lemma {:induction false} LossCounts(chunks: seq<seq<Op>>, lo: nat, hi: nat, n: nat) returns (chunk: u32)
    requires |chunks| <= MAX_CHUNKS && hi <= CELLS
    requires lo <= n < hi && CellLoses(chunks, n)
    ensures chunk < |chunks| && Lost(chunks, lo, hi, chunk) > 0
  {
    var l := IdealList(chunks, WordOfCell(n));
    IdealListAscends(chunks, WordOfCell(n));
    chunk := l[0].chunk;
    EntryCountSplits(FirstBlock(l), 1, chunk);
    EntryCountSnoc([], l[0], chunk);
    assert FirstBlock(l)[..1] == [] + [l[0]];
    hide CellLoses, EntryCount, IdealList, FirstBlock;
    LostGrows(chunks, lo, n + 1, hi, chunk);
  }

  // ---- What the segments hold ----

  /** The rows of a chunk that the segments 0 to n - 1 of a segment map count. */
  function Planned(segments: map<nat, Summary>, n: nat, chunk: u32): nat {
    if n == 0 then 0 else
      Planned(segments, n - 1, chunk) + if n - 1 in segments then ChunkCount(segments[n - 1], chunk) else 0
  }

  /** A segment map holds segments 0 to k of the cut. */
  ghost predicate HoldsCut(segments: map<nat, Summary>, vs: seq<Visit>, rows: nat, k: nat)
    requires vs != [] && rows > 0
  {
    forall j: nat :: j <= k ==> j in segments && j * rows <= RowTotal(vs) && segments[j] == SegmentOf(vs, rows, j)
  }

  lemma {:induction false} PlannedRows(books: seq<Book>, lo: nat, hi: nat, vs: seq<Visit>, rows: nat,
                                       segments: map<nat, Summary>, k: nat, chunk: u32)
    requires BooksWf(books) && hi <= CELLS && vs == Stream(books, lo, hi) && vs != [] && 0 < rows < WORD
    requires HoldsCut(segments, vs, rows, k)
    ensures |Rows(vs)| == RowTotal(vs) && k * rows <= RowTotal(vs)
    ensures Planned(segments, k + 1, chunk) == RowsOfChunk(SlicesTo(vs, rows, k), chunk)
  {
    RowTotalIsLength(vs);
    hide Rows, RowsOfChunk, Wf, Stream, SegmentOf, SliceOf, RowTotal, SegmentPieces;
    CheckPointMeaning(books, lo, hi, vs, rows, k, chunk);
    assert Planned(segments, 0, chunk) == 0;
    if k == 0 {
    } else {
      PlannedRows(books, lo, hi, vs, rows, segments, k - 1, chunk);
      RowsOfChunkConcat(SlicesTo(vs, rows, k - 1), SliceOf(vs, rows, k), chunk);
    }
  }

  lemma {:induction false} AllPlanned(books: seq<Book>, lo: nat, hi: nat, vs: seq<Visit>, rows: nat,
                                      segments: map<nat, Summary>, chunk: u32)
    requires BooksWf(books) && hi <= CELLS && vs == Stream(books, lo, hi) && vs != [] && 0 < rows < WORD
    requires HoldsCut(segments, vs, rows, RowTotal(vs) / rows)
    ensures Planned(segments, RowTotal(vs) / rows + 1, chunk) == RowsOfChunk(Rows(vs), chunk)
  {
    hide Rows, RowsOfChunk, Wf, Stream, RowTotal, HoldsCut, SliceOf, SlicesTo, Planned;
    var q := RowTotal(vs) / rows;
    SlicesAreTheStream(vs, rows, q);
    PlannedRows(books, lo, hi, vs, rows, segments, q, chunk);
  }

  lemma {:induction false} RunHoldsCut(books: seq<Book>, vs: seq<Visit>, rows: nat, plan: seq<Locator>,
                                       states: seq<State<Summary>>, steps: seq<Step<Summary>>)
    requires BooksWf(books) && rows > 0 && IsPlan(books, vs, rows, plan) && |plan| <= MAX_LOCATORS
    requires IsRun(JobOf(books, vs, rows, plan), states, steps)
    requires var s := states[|states| - 1]; s.readPos == |plan| && NobodyHolds(s)
    ensures |plan| == if vs == [] then 0 else RowTotal(vs) / rows + 1
    ensures vs != [] ==> HoldsCut(states[|states| - 1].segments, vs, rows, RowTotal(vs) / rows)
  {
    assert |states| == |steps| + 1;
    ParallelIsSequential(books, vs, rows, plan, states, steps);
    hide IsRun, NobodyHolds, Wf, SegmentOf, RowTotal;
  }

  /** For every trace, every segment size and every interleaving in which all locators get claimed and
      stored: over all segments, the checkpoints of a chunk count the chunk's operations on the planned
      words, each once, less exactly those in the entries that reading loses. */
  lemma {:induction false} EveryOperationIsPlannedOnce(
      books: seq<Book>, chunks: seq<seq<Op>>, lo: nat, hi: nat, vs: seq<Visit>, rows: nat, plan: seq<Locator>,
      states: seq<State<Summary>>, steps: seq<Step<Summary>>, chunk: u32)
    requires BooksWf(books) && |chunks| <= MAX_CHUNKS && CountsTrace(books, chunks) && chunk < |chunks|
    requires hi <= CELLS && vs == Stream(books, lo, hi)
    requires 0 < rows < WORD && IsPlan(books, vs, rows, plan) && |plan| <= MAX_LOCATORS
    requires IsRun(JobOf(books, vs, rows, plan), states, steps)
    requires var s := states[|states| - 1]; s.readPos == |plan| && NobodyHolds(s)
    ensures Planned(states[|states| - 1].segments, |plan|, chunk) + Lost(chunks, lo, hi, chunk)
            == OpsOnCells(chunks[chunk], lo, hi)
  {
    assert |states| == |steps| + 1;
    hide Rows, RowsOfChunk, Wf, Stream, RowTotal, CountsTrace, JobOf, IsRun, IsPlan, NobodyHolds, OpsOnCells, HoldsCut, Lost;
    StreamHoldsOps(books, chunks, lo, hi, chunk);
    RunHoldsCut(books, vs, rows, plan, states, steps);
    if vs == [] {
      NoRows(chunk);
    } else {
      AllPlanned(books, lo, hi, vs, rows, states[|states| - 1].segments, chunk);
    }
  }

  /** The segment map counts the operations of every chunk on cells [lo, hi), each once. */
  ghost predicate PlansAll(segments: map<nat, Summary>, n: nat, chunks: seq<seq<Op>>, lo: nat, hi: nat)
    requires hi <= CELLS && |chunks| <= MAX_CHUNKS
  {
    forall chunk: u32 :: chunk < |chunks| ==> Planned(segments, n, chunk) == OpsOnCells(chunks[chunk], lo, hi)
  }

  /** It counts all of them if and only if no planned word is the first one its worker counts and is
      touched by 8 to 14 chunks. */
  lemma {:induction false} AllPlannedIff(
      books: seq<Book>, chunks: seq<seq<Op>>, lo: nat, hi: nat, vs: seq<Visit>, rows: nat, plan: seq<Locator>,
      states: seq<State<Summary>>, steps: seq<Step<Summary>>)
    requires BooksWf(books) && |chunks| <= MAX_CHUNKS && CountsTrace(books, chunks)
    requires hi <= CELLS && vs == Stream(books, lo, hi)
    requires 0 < rows < WORD && IsPlan(books, vs, rows, plan) && |plan| <= MAX_LOCATORS
    requires IsRun(JobOf(books, vs, rows, plan), states, steps)
    requires var s := states[|states| - 1]; s.readPos == |plan| && NobodyHolds(s)
    ensures PlansAll(states[|states| - 1].segments, |plan|, chunks, lo, hi) <==> NoWordLoses(chunks, lo, hi)
  {
    assert |states| == |steps| + 1;
    hide Wf, Stream, CountsTrace, JobOf, IsRun, IsPlan, NobodyHolds, OpsOnCells, Lost, Planned, CellLoses;
    var segments := states[|states| - 1].segments;
    forall chunk: u32 | chunk < |chunks|
      ensures Planned(segments, |plan|, chunk) + Lost(chunks, lo, hi, chunk) == OpsOnCells(chunks[chunk], lo, hi)
    {
      EveryOperationIsPlannedOnce(books, chunks, lo, hi, vs, rows, plan, states, steps, chunk);
    }
    if NoWordLoses(chunks, lo, hi) {
      forall chunk: u32 | chunk < |chunks|
        ensures Lost(chunks, lo, hi, chunk) == 0
      {
        NoLossCounts(chunks, lo, hi, chunk);
      }
    } else {
      var n :| lo <= n < hi && CellLoses(chunks, n);
      var chunk := LossCounts(chunks, lo, hi, n);
      assert Planned(segments, |plan|, chunk) != OpsOnCells(chunks[chunk], lo, hi);
    }
  }

  lemma {:induction false} QuotientGrows(x: nat, y: nat, rows: nat)
    requires x <= y && rows > 0
    ensures x / rows <= y / rows
  {
    MultipleWithin(x / rows, rows, x);
    MultipleWithin(x / rows, rows, y);
  }

  /** Counters that can count the trace have books, of the right shape. */
  lemma {:induction false} BooksExist(chunks: seq<seq<Op>>) returns (books: seq<Book>)
    requires TraceWellFormed(chunks) && forall id :: 0 <= id < MAX_THREADS ==> CountingFits(chunks, id)
    ensures BooksWf(books) && CountedBy(books, chunks)
  {
    forall id | 0 <= id < MAX_THREADS
      ensures RunChunks(id, chunks).Some? && Wf(RunChunks(id, chunks).value)
    {
      CountingSucceedsIff(id, chunks);
      RunKeepsUsed(id, chunks);
    }
    hide RunChunks, CountingFits, TraceWellFormed, Wf;
    books := seq(MAX_THREADS, id requires 0 <= id < MAX_THREADS => RunChunks(id, chunks).value);
  }

  /** From a trace to its segment map, with nothing left to assume: of every well-formed trace of short
      chunks that every counter can count, and every segment size for which the plan fits the locators,
      there are the counters' books, a plan and a run of any number of workers, at the end of which the
      checkpoints of every chunk count its operations on the planned words, less those that reading loses. */
  lemma {:induction false} TraceIsPlanned(chunks: seq<seq<Op>>, lo: nat, hi: nat, rows: nat, workers: nat)
    returns (books: seq<Book>, plan: seq<Locator>, states: seq<State<Summary>>, steps: seq<Step<Summary>>)
    requires TraceWellFormed(chunks) && forall c :: 0 <= c < |chunks| ==> |chunks[c]| < 0x8000_0000
    requires forall id :: 0 <= id < MAX_THREADS ==> CountingFits(chunks, id)
    requires hi <= CELLS && 0 < rows < WORD && TraceRows(chunks, lo, hi) / rows < MAX_LOCATORS && workers > 0
    ensures BooksWf(books) && CountedBy(books, chunks)
    ensures IsPlan(books, Stream(books, lo, hi), rows, plan)
    ensures IsRun(JobOf(books, Stream(books, lo, hi), rows, plan), states, steps) && states != []
    ensures forall chunk: u32 :: chunk < |chunks| ==>
              Planned(states[|states| - 1].segments, |plan|, chunk) + Lost(chunks, lo, hi, chunk) == OpsOnCells(chunks[chunk], lo, hi)
  {
    books := BooksExist(chunks);
    ShortChunksFit(chunks);
    StreamIsTrace(books, chunks, lo, hi);
    var vs := Stream(books, lo, hi);
    assert CountsTrace(books, chunks);
    hide Wf, Stream, CountedBy, TraceWellFormed, CountsFit, CountsTrace, JobOf, IsRun, IsPlan, NobodyHolds, OpsOnCells, Lost, Planned, RowTotal,
         TraceRows, CountingFits, SegmentOf;
    plan := PlanExists(books, lo, hi, vs, rows);
    QuotientGrows(RowTotal(vs), TraceRows(chunks, lo, hi), rows);
    states, steps := ParallelPlanIsCarriedOut(books, vs, rows, plan, workers);
    forall chunk: u32 | chunk < |chunks|
      ensures Planned(states[|states| - 1].segments, |plan|, chunk) + Lost(chunks, lo, hi, chunk) == OpsOnCells(chunks[chunk], lo, hi)
    {
      EveryOperationIsPlannedOnce(books, chunks, lo, hi, vs, rows, plan, states, steps, chunk);
    }
  }

  // ---- The sequential planner ----

  /** The same for the sequential planner: over the segments it leaves behind, the checkpoints of a chunk
      count the chunk's operations on the planned words, less those that reading loses, and one more for
      every gap before an operation of the chunk that ends on a segment boundary. */
  lemma {:induction false} SequentialPlanCounts(
      books: seq<Book>, chunks: seq<seq<Op>>, fromPage: nat, hi: nat, vs: seq<Visit>, rows: nat, segments: seq<Summary>, chunk: u32)
    requires BooksWf(books) && |chunks| <= MAX_CHUNKS && CountsTrace(books, chunks) && chunk < |chunks|
    requires fromPage < MAX_PAGES && hi <= CELLS && vs == Stream(books, FirstCell(fromPage), hi) && 0 < rows < WORD
    requires Finished(rows, segments, Layout(PageBase(fromPage), vs), GapTotal(PageBase(fromPage), vs))
    ensures CountedIn(segments, chunk) + Lost(chunks, FirstCell(fromPage), hi, chunk)
            == OpsOnCells(chunks[chunk], FirstCell(fromPage), hi) + Meetings(Layout(PageBase(fromPage), vs), rows, chunk)
  {
    assert Tidy(vs) by { TraceIsScannable(books, chunks, rows, fromPage, hi, vs); }
    hide Rows, RowsOfChunk, Wf, Stream, CountsTrace, OpsOnCells, Lost, Finished, Layout, GapTotal, PageBase, Meetings, CountedIn, Tidy;
    StreamHoldsOps(books, chunks, FirstCell(fromPage), hi, chunk);
    SegmentsRecordTheStream(PageBase(fromPage), vs, rows, segments, chunk);
  }

  // ---- The feed ----

  /** The operations of a chunk of the feed. */
  function OpsOf(chunk: F.Chunk<seq<Op>>): seq<Op> {
    chunk.data[..Min(chunk.count, |chunk.data|)]
  }

  function TraceOf(added: seq<F.Chunk<seq<Op>>>): seq<seq<Op>> {
    seq(|added|, k requires 0 <= k < |added| => OpsOf(added[k]))
  }

  /** A chunk holds as many operations as it says. */
  ghost predicate Whole(added: seq<F.Chunk<seq<Op>>>) {
    forall k :: 0 <= k < |added| ==> added[k].count <= |added[k].data|
  }

  /** The trace of a feed is its chunks' operations, each in its place. */
  lemma {:induction false} TraceIsFeed(added: seq<F.Chunk<seq<Op>>>)
    requires forall k :: 0 <= k < |added| ==> added[k].count <= |added[k].data|
    ensures |TraceOf(added)| == |added|
    ensures forall k :: 0 <= k < |added| ==> |TraceOf(added)[k]| == added[k].count
    ensures forall k, i :: 0 <= k < |added| && 0 <= i < added[k].count ==> TraceOf(added)[k][i] == added[k].data[i]
  {
  }

  /** The operations tools.hpp counts for the first n operations of a chunk. */
  function CostUpTo(chunk: F.Chunk<seq<Op>>, n: nat): nat
    requires n <= |chunk.data|
  {
    if n == 0 then 0 else CostUpTo(chunk, n - 1) + OpCost(chunk.data[n - 1])
  }

  ghost function FeedCost(added: seq<F.Chunk<seq<Op>>>): nat
    requires Whole(added)
  {
    if added == [] then 0 else
      var chunk := added[|added| - 1];
      FeedCost(added[..|added| - 1]) + CostUpTo(chunk, chunk.count)
  }

  lemma {:induction false} CostOfPrefix(chunk: F.Chunk<seq<Op>>, n: nat)
    requires n <= |chunk.data|
    ensures TotalCost(chunk.data[..n]) == CostUpTo(chunk, n)
  {
    hide OpCost;
    if n == 0 {
    } else {
      CostOfPrefix(chunk, n - 1);
      assert chunk.data[..n][..n - 1] == chunk.data[..n - 1];
    }
  }

  lemma {:induction false} NoCost()
    ensures TotalCost([]) == 0
  {
  }

  lemma {:induction false} TraceCost(added: seq<F.Chunk<seq<Op>>>)
    requires Whole(added)
    ensures TotalCost(Flatten(TraceOf(added))) == FeedCost(added)
    decreases |added|
  {
    hide TotalCost, CostUpTo;
    if added == [] {
      NoCost();
    } else {
      var front, chunk := added[..|added| - 1], added[|added| - 1];
      TraceCost(front);
      assert TraceOf(added)[..|added| - 1] == TraceOf(front);
      CostConcat(Flatten(TraceOf(front)), OpsOf(chunk));
      CostOfPrefix(chunk, chunk.count);
    }
  }

  /** Reader i has quit, and the book is what it has seen counts to. */
  ghost predicate CountsSeen(s: F.Feed<seq<Op>>, i: nat, book: Book) {
    && F.ReaderIs(s, i, F.Quit)
    && |s.readers[i].seen| <= MAX_CHUNKS && RunChunks(i, TraceOf(s.readers[i].seen)) == Some(book)
  }

  /** If all eight counters have quit, none of them missing a chunk (ChunkFeed.MissesNothingIff), and each
      has counted what it has seen, then their books count the whole feed: all chunks in order, and of each
      the operations it says it has. */
  lemma {:induction false} FeedIsCounted(states: seq<F.Feed<seq<Op>>>, steps: seq<F.Step<seq<Op>>>, loads: seq<nat>,
                                         books: seq<Book>, chunks: seq<seq<Op>>)
    requires F.IsRun(states, steps) && |loads| == |books| == MAX_THREADS
    requires forall i :: 0 <= i < MAX_THREADS ==> CountsSeen(states[|steps|], i, books[i])
    requires forall i :: 0 <= i < MAX_THREADS ==>
               && loads[i] < |steps| && steps[loads[i]] == F.LoadCount(i)
               && forall m :: loads[i] < m < |steps| ==> steps[m] != F.LoadCount(i) && !steps[m].Publish?
    requires var added := states[|steps|].added;
             && |chunks| == |added|
             && (forall k :: 0 <= k < |added| ==> |chunks[k]| == added[k].count <= |added[k].data|)
             && (forall k, i :: 0 <= k < |added| && 0 <= i < added[k].count ==> chunks[k][i] == added[k].data[i])
    ensures |chunks| <= MAX_CHUNKS && CountedBy(books, chunks)
  {
    var s := states[|steps|];
    hide RunChunks, F.IsRun, OpsOf;
    assert CountsSeen(s, 0, books[0]);
    F.ReadersSeePrefixes(states, steps, |steps|, 0);
    TraceIsFeed(s.added);
    forall k | 0 <= k < |chunks|
      ensures chunks[k] == TraceOf(s.added)[k]
    {
      assert |chunks[k]| == |TraceOf(s.added)[k]|;
    }
    assert chunks == TraceOf(s.added);
    forall i | 0 <= i < MAX_THREADS
      ensures RunChunks(i, chunks) == Some(books[i])
    {
      assert CountsSeen(s, i, books[i]);
      F.MissesNothingIff(states, steps, i, loads[i]);
    }
  }

  /** The books of such counters add up to the operations of the feed. */
  lemma {:induction false} FeedAddsUp(added: seq<F.Chunk<seq<Op>>>, books: seq<Book>)
    requires Whole(added) && TraceWellFormed(TraceOf(added)) && |books| == MAX_THREADS && CountedBy(books, TraceOf(added))
    ensures SumOfBooks(books) == FeedCost(added)
  {
    WorkersCountEverything(books, TraceOf(added));
    TraceCost(added);
  }

  /** And it can happen: every feed whose words fit can be seen and counted by eight counters. */
  lemma {:induction false} FeedCanBeCounted(blank: F.Chunk<seq<Op>>, added: seq<F.Chunk<seq<Op>>>)
    returns (states: seq<F.Feed<seq<Op>>>, steps: seq<F.Step<seq<Op>>>, loads: seq<nat>, books: seq<Book>)
    requires Whole(added) && TraceWellFormed(TraceOf(added))
    requires forall id :: 0 <= id < MAX_THREADS ==> CountingFits(TraceOf(added), id)
    ensures F.IsRun(states, steps) && |loads| == |books| == MAX_THREADS && states[|steps|].added == added
    ensures forall i :: 0 <= i < MAX_THREADS ==> CountsSeen(states[|steps|], i, books[i])
    ensures forall i :: 0 <= i < MAX_THREADS ==>
              && loads[i] < |steps| && steps[loads[i]] == F.LoadCount(i)
              && forall m :: loads[i] < m < |steps| ==> steps[m] != F.LoadCount(i) && !steps[m].Publish?
    ensures CountedBy(books, TraceOf(added)) && SumOfBooks(books) == FeedCost(added)
  {
    states, steps, loads := EveryFeedCanBeSeen(blank, added, MAX_THREADS);
    var chunks := TraceOf(added);
    hide RunChunks, F.IsRun, CountingFits, TraceWellFormed, TraceOf, Wf;
    books := BooksExist(chunks);
    FeedAddsUp(added, books);
  }
}
