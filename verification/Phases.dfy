/** The two phases of the program (mem_count_and_plan.hpp), each with its threads run one after the other:
    the counters share nothing but the feed, and the planners only read the counters. */
module Phases {
  import opened MemConfig
  import opened AddressMap
  import opened Chains
  import opened Trace
  import opened Capacity
  import opened RowStream
  import opened CheckPoints
  import opened Workers
  import opened GapRows
  import opened GapPlanner
  import opened ParallelPlan
  import MC = MemCounter
  import P = MemPlanner
  import L = Locators

  lemma {:induction false} BooksOfWorkers(workers: seq<MC.MemCounter>, books: seq<Book>)
    requires |workers| == |books| == MAX_THREADS
    requires forall t :: 0 <= t < MAX_THREADS ==> workers[t].Valid() && workers[t].book == books[t]
    ensures Ready(workers, books) && BooksWf(books)
  {
    hide Wf;
    forall t | 0 <= t < MAX_THREADS
      ensures Wf(books[t])
    {
      workers[t].TableReads(0);
    }
  }

  /** count_phase: eight new counters, each over the whole trace. It goes well exactly if every worker's
      words are mapped and fit its slots. */
  method CountPhase(chunks: seq<seq<Op>>) returns (ok: bool, workers: seq<MC.MemCounter>, ghost books: seq<Book>)
    requires TraceWellFormed(chunks)
    ensures ok <==> forall id :: 0 <= id < MAX_THREADS ==> CountingFits(chunks, id)
    ensures ok ==> Ready(workers, books) && BooksWf(books) && CountedBy(books, chunks)
    ensures ok ==> |workers| == MAX_THREADS && forall id :: 0 <= id < MAX_THREADS ==> workers[id].id == id && workers[id].CountsExact()
  {
    hide RunChunks, MC.Holds, CountingFits, MC.Counts, Wf;
    workers, books := [], [];
    for id := 0 to MAX_THREADS
      invariant |workers| == |books| == id
      invariant forall t :: 0 <= t < id ==> CountingFits(chunks, t)
      invariant forall t :: 0 <= t < id ==>
                  && workers[t].Valid() && workers[t].CountsExact() && workers[t].id == t && workers[t].book == books[t]
                  && RunChunks(t, chunks) == Some(books[t])
    {
      var worker := new MC.MemCounter(id);
      ok := worker.Execute(chunks);
      if !ok {
        return;
      }
      workers, books := workers + [worker], books + [worker.book];
    }
    BooksOfWorkers(workers, books);
    ok := true;
  }

  lemma {:induction false} PlanSize(books: seq<Book>, vs: seq<Visit>, rows: nat, plan: seq<Locator>)
    requires BooksWf(books) && rows > 0 && IsPlan(books, vs, rows, plan)
    ensures |plan| == if vs == [] then 0 else RowTotal(vs) / rows + 1
  {
  }

  lemma {:induction false} LoneWorkerIsSequential(vs: seq<Visit>, rows: nat, k: nat, segment: MemSegment)
    requires P.BuiltAt(vs, rows, k, segment)
    ensures rows > 0 && vs != [] && k * rows <= RowTotal(vs) && segment.Valid() && segment.Contents() == SegmentOf(vs, rows, k)
  {
  }

  /** The parallel planner's part of plan_phase with one worker: the generator, then a planner that rebuilds
      all segments. They are the segments of the sequential cut. */
  method PlanParallel(workers: seq<MC.MemCounter>, rows: u32, fromAddr: u32, mbSize: u32, ghost books: seq<Book>, ghost vs: seq<Visit>)
    returns (segments: map<nat, MemSegment>)
    requires Ready(workers, books) && BooksWf(books) && PagesOf(fromAddr, mbSize).Some?
    requires var (from, last) := PagesOf(fromAddr, mbSize).value;
             && from < MAX_PAGES && last < MAX_PAGES && FirstCell(last) <= CELLS && vs == Stream(books, FirstCell(from), FirstCell(last))
    requires rows > 0 && RowTotal(vs) / rows < MAX_LOCATORS
    ensures forall k: nat :: k in segments <==> vs != [] && k <= RowTotal(vs) / rows
    ensures forall k: nat :: k in segments ==>
              vs != [] && k * rows <= RowTotal(vs) && segments[k].Valid() && segments[k].Contents() == SegmentOf(vs, rows, k)
  {
    hide Ready, Wf, Stream, PagesOf, RowTotal, IsPlan, SegmentOf;
    var generator := P.MemPlanner.Create(rows, fromAddr, mbSize);
    var locators := new L.MemLocators();
    generator.GenerateLocators(workers, locators, books, vs);
    var planner := P.MemPlanner.Create(rows, fromAddr, mbSize);
    segments := planner.ExecuteFromLocators(workers, locators, books, vs);
    PlanSize(books, vs, rows, locators.Pushed());
    forall k: nat | k in segments
      ensures vs != [] && k * rows <= RowTotal(vs) && segments[k].Valid() && segments[k].Contents() == SegmentOf(vs, rows, k)
    {
      LoneWorkerIsSequential(vs, rows, k, segments[k]);
    }
  }

  /** The sequential planner's part: its segments are those of the row axis of its pages, skipped words and
      all. */
  method PlanSequential(workers: seq<MC.MemCounter>, rows: u32, fromAddr: u32, mbSize: u32, ghost books: seq<Book>, ghost vs: seq<Visit>)
    returns (segments: seq<MemSegment>, ghost contents: seq<Summary>)
    requires Ready(workers, books) && BooksWf(books) && PagesOf(fromAddr, mbSize).Some?
    requires var (from, last) := PagesOf(fromAddr, mbSize).value;
             && from < MAX_PAGES && last < MAX_PAGES && FirstCell(last) <= CELLS && vs == Stream(books, FirstCell(from), FirstCell(last))
    requires rows > 0 && forall i :: 0 <= i < |vs| ==> vs[i].chunk != NO_CHUNK_ID
    ensures |segments| == |contents| && forall j :: 0 <= j < |segments| ==> segments[j].Contents() == contents[j]
    ensures var from := PagesOf(fromAddr, mbSize).value.0;
            && Finished(rows, contents, Layout(PageBase(from), vs), GapTotal(PageBase(from), vs))
            && GapTotal(PageBase(from), vs) == RowTotal(vs) + |SkippedWords(PageBase(from), vs)|
  {
    hide Ready, Wf, Stream, PagesOf, RowTotal, Finished, Layout, GapTotal, SkippedWords, PageBase;
    var planner := ImmutableMemPlanner.Create(rows, fromAddr, mbSize);
    planner.Execute(workers, books, vs);
    segments, contents := planner.segments, planner.closed;
  }
}
