/** The parallel planner (mem_planner.hpp): one thread cuts the row stream into a plan of locators,
    and any thread rebuilds a segment from its locator alone. */
module MemPlanner {
  import opened MemConfig
  import opened AddressMap
  import opened Chains
  import opened SlotHeap
  import opened RowStream
  import opened CheckPoints
  import opened Workers
  import L = Locators
  import MC = MemCounter

  // ---- Generating: how far the plan has got ----

  /** The locator array is large enough for the plan; the source does not check it. */
  predicate EnoughLocators(vs: seq<Visit>, rows: nat) {
    rows > 0 && RowTotal(vs) / rows < MAX_LOCATORS
  }

  /** The first m locators are right, and the generator stands p rows into the stream with ra rows of
      the current segment left. */
  ghost predicate Cutting(books: seq<Book>, vs: seq<Visit>, rows: nat, plan: seq<Locator>, p: nat, ra: nat)
    requires BooksWf(books)
  {
    && 1 <= ra <= rows
    && (if plan == [] then p == 0 && ra == rows
        else vs != [] && IsFirst(books, vs[0], plan[0]) && |plan| * rows == p + ra)
    && (forall k :: 1 <= k < |plan| ==> CutIs(vs, k * rows, plan[k]))
  }

  /** When an entry fills the segment, the locator to push is the plan's next. */
  lemma {:induction false} CutHere(books: seq<Book>, vs: seq<Visit>, rows: nat, plan: seq<Locator>, i: nat, d: nat, ra: nat)
    requires BooksWf(books) && i < |vs| && plan != []
    requires Cutting(books, vs, rows, plan, RowsBefore(vs, i) + d, ra) && d + ra <= vs[i].count
    ensures Cutting(books, vs, rows, plan + [Locator(vs[i].thread, vs[i].offset, vs[i].cpos, d + ra)],
                    RowsBefore(vs, i) + d + ra, rows)
    ensures |plan| * rows <= RowTotal(vs)
  {
    var r := |plan| * rows;
    var l := Locator(vs[i].thread, vs[i].offset, vs[i].cpos, d + ra);
    RowsBeforeGrows(vs, i + 1, |vs|);
    EntryIsUnique(vs, r, |vs|, i);
    MulStep(|plan|, rows);
    assert CutIs(vs, r, l);
  }

  lemma {:induction false} FirstIsPlanned(books: seq<Book>, vs: seq<Visit>, rows: nat, p: nat, ra: nat,
                                          thread: nat, offset: nat, pos: nat)
    requires BooksWf(books) && vs != [] && Cutting(books, vs, rows, [], p, ra)
    requires vs[0].thread == thread < MAX_THREADS && vs[0].offset == offset && offset in books[thread].lists
    requires pos == LastPos(books[thread], offset)
    ensures Cutting(books, vs, rows, [Locator(thread, offset, pos, 0)], p, ra)
  {
  }

  lemma {:induction false} NothingIsPlanned(books: seq<Book>, vs: seq<Visit>, rows: nat)
    requires BooksWf(books) && rows > 0
    ensures Cutting(books, vs, rows, [], RowsBefore(vs, 0), rows)
  {
  }

  lemma {:induction false} PlanIsDone(books: seq<Book>, vs: seq<Visit>, rows: nat, plan: seq<Locator>, ra: nat)
    requires BooksWf(books) && Cutting(books, vs, rows, plan, RowTotal(vs), ra)
    requires plan == [] <==> vs == []
    ensures IsPlan(books, vs, rows, plan)
  {
    if vs != [] {
      var m, t := |plan|, RowTotal(vs);
      MulStep(m - 1, rows);
      QuotientFrom(t, rows, m - 1, rows - ra);
      forall k | 1 <= k < |plan|
        ensures k * rows <= t && CutIs(vs, k * rows, plan[k])
      {
        assert CutIs(vs, k * rows, plan[k]);
      }
    }
  }

  // ---- Rebuilding: how far the segment has got ----

  /** Segment segmentId starts after row a, skip rows into step k0 of cell n, which lies at pos. The
      position of the very first locator is not used. */
  ghost predicate EntersAt(books: seq<Book>, vs: seq<Visit>, lo: nat, n: nat, a: nat, k0: nat,
                        segmentId: nat, pos: nat, skip: nat)
    requires BooksWf(books)
  {
    && n < CELLS && k0 < |Cell(books, n)| && |Stream(books, lo, n)| + k0 < |vs|
    && (if segmentId == 0 then k0 == 0 && skip == 0 else Cell(books, n)[k0].cpos == pos)
    && RowsBefore(vs, |Stream(books, lo, n)| + k0) + skip == a && skip <= Cell(books, n)[k0].count
  }

  /** The summary m holds the segment's pieces up to visit i, and ra rows of it are still to come. */
  ghost predicate Building(vs: seq<Visit>, rows: nat, a: nat, i0: nat, i: nat, m: Summary, ra: nat) {
    && i0 < i <= |vs| && m == Fold(Pieces(vs, i0, i, a, a + rows))
    && 1 <= ra <= rows && RowsBefore(vs, i) + ra == a + rows
  }

  ghost predicate Built(vs: seq<Visit>, rows: nat, a: nat, m: Summary) {
    vs != [] && rows > 0 && a <= RowTotal(vs) && m == Fold(SegmentPieces(vs, a, a + rows))
  }

  lemma {:induction false} FoldOneMore(vs: seq<Visit>, i0: nat, i: nat, a: nat, b: nat)
    requires i0 <= i < |vs|
    ensures var p := PieceAt(vs, i, a, b);
            Fold(Pieces(vs, i0, i + 1, a, b))
            == Updated(Fold(Pieces(vs, i0, i, a, b)), p.chunk, p.addr, Wrap(p.skip), Wrap(p.count))
  {
  }

  /** Visit i holds the segment's last row. */
  lemma {:induction false} LastVisit(vs: seq<Visit>, rows: nat, a: nat, i: nat)
    requires i < |vs| && rows > 0 && a <= RowTotal(vs) && RowsBefore(vs, i) < a + rows <= RowsBefore(vs, i + 1)
    ensures EndVisit(vs, a + rows) == i + 1
  {
    RowsBeforeGrows(vs, i + 1, |vs|);
    EntryIsUnique(vs, a + rows, |vs|, i);
  }

  lemma {:induction false} FirstStep(vs: seq<Visit>, rows: nat, a: nat, i: nat, skip: nat, m: Summary, n: nat)
    requires vs != [] && 0 < rows < WORD && a <= RowTotal(vs) && i == FirstVisit(vs, a)
    requires RowsBefore(vs, i) + skip == a && skip <= vs[i].count && n == Min(vs[i].count - skip, rows)
    requires m == Updated(map[], vs[i].chunk, vs[i].addr, skip, n)
    ensures if n < rows then Building(vs, rows, a, i, i + 1, m, rows - n) else Built(vs, rows, a, m)
  {
    assert PieceAt(vs, i, a, a + rows) == Piece(vs[i].chunk, vs[i].addr, skip, n);
    hide PieceAt, Updated;
    assert Pieces(vs, i, i, a, a + rows) == [];
    FoldOneMore(vs, i, i, a, a + rows);
    if n == rows {
      LastVisit(vs, rows, a, i);
    }
  }

  /** Past its first visit a segment lies beyond row a. */
  lemma {:induction false} PastFirst(vs: seq<Visit>, a: nat, i: nat)
    requires vs != [] && a <= RowTotal(vs) && FirstVisit(vs, a) < i <= |vs|
    ensures a <= RowsBefore(vs, i)
  {
    RowsBeforeGrows(vs, FirstVisit(vs, a) + 1, i);
  }

  lemma {:induction false} PieceGoesOn(vs: seq<Visit>, i: nat, a: nat, b: nat, ra: nat)
    requires i < |vs| && a <= RowsBefore(vs, i) && RowsBefore(vs, i) + ra == b
    ensures PieceAt(vs, i, a, b) == Piece(vs[i].chunk, vs[i].addr, 0, Min(ra, vs[i].count))
    ensures RowsBefore(vs, i + 1) == RowsBefore(vs, i) + vs[i].count
  {
  }

  lemma {:induction false} NextStep(vs: seq<Visit>, rows: nat, a: nat, i0: nat, i: nat, m: Summary, ra: nat, m': Summary)
    requires Building(vs, rows, a, i0, i, m, ra) && i < |vs| && a <= RowTotal(vs) && i0 == FirstVisit(vs, a)
    requires rows < WORD
    requires m' == Updated(m, vs[i].chunk, vs[i].addr, 0, Min(ra, vs[i].count))
    ensures if ra > vs[i].count then Building(vs, rows, a, i0, i + 1, m', ra - vs[i].count) else Built(vs, rows, a, m')
  {
    hide PieceAt, Updated, Fold, FirstVisit, RowsBefore;
    PastFirst(vs, a, i);
    PieceGoesOn(vs, i, a, a + rows, ra);
    FoldOneMore(vs, i0, i, a, a + rows);
    if ra <= vs[i].count {
      LastVisit(vs, rows, a, i);
    }
  }

  /** The segment object is segment k of the cut. */
  ghost predicate BuiltAt(vs: seq<Visit>, rows: nat, k: nat, segment: MemSegment)
    reads segment, segment.chunks.Values
  {
    segment.Valid() && Built(vs, rows, k * rows, segment.Contents())
  }

  lemma {:induction false} UsedCellIsCovered(books: seq<Book>, page: nat, first: u32, last: u32, n: nat)
    requires BooksWf(books) && page < MAX_PAGES && CoversPage(books, page, first, last)
    requires FirstCell(page) <= n < FirstCell(page + 1) <= CELLS && Cell(books, n) != []
    ensures first <= CellOffset(n) <= last < ADDR_TABLE_SIZE
  {
  }

  lemma {:induction false} CellIsInPage(n: nat, page: nat, fromPage: nat, toPage: nat)
    requires toPage < MAX_PAGES && FirstCell(fromPage) <= n < FirstCell(toPage) && page == OffsetToPage(CellOffset(n))
    ensures fromPage <= page < toPage && FirstCell(page) <= n < FirstCell(page + 1) <= FirstCell(toPage)
    ensures FirstCell(fromPage) <= FirstCell(page)
  {
  }

  ghost predicate StartsAt(books: seq<Book>, vs: seq<Visit>, rows: nat, segmentId: nat, l: Locator)
    requires BooksWf(books)
  {
    && vs != [] && segmentId * rows <= RowTotal(vs)
    && if segmentId == 0 then IsFirst(books, vs[0], l) else CutIs(vs, segmentId * rows, l)
  }

  /** Every locator of a plan is where its segment starts. */
  lemma {:induction false} PlanStarts(books: seq<Book>, vs: seq<Visit>, rows: nat, plan: seq<Locator>, k: nat)
    requires BooksWf(books) && rows > 0 && IsPlan(books, vs, rows, plan) && k < |plan|
    ensures StartsAt(books, vs, rows, k, plan[k])
  {
  }

  lemma {:induction false} LocatorEnters(books: seq<Book>, vs: seq<Visit>, rows: nat, lo: nat, hi: nat, segmentId: nat,
                                         l: Locator, a: nat)
    returns (n: nat, k: nat)
    requires BooksWf(books) && hi <= CELLS && vs == Stream(books, lo, hi) && rows > 0
    requires StartsAt(books, vs, rows, segmentId, l) && a == segmentId * rows
    ensures vs != [] && a <= RowTotal(vs)
    ensures lo <= n < hi && l.thread < MAX_THREADS && n == l.offset * MAX_THREADS + l.thread && l.offset < ADDR_TABLE_SIZE
    ensures l.skip < WORD && k < |Cell(books, n)| && EntersAt(books, vs, lo, n, a, k, segmentId, l.cpos, l.skip)
    ensures |Stream(books, lo, n)| + k == FirstVisit(vs, a)
  {
    hide Wf, Cell;
    n, k := Locate(books, lo, hi, FirstVisit(vs, a));
    VisitInCell(books, n, k);
  }

  lemma {:induction false} NextAddr(offset: nat, thread: nat)
    requires offset < ADDR_TABLE_SIZE && thread < MAX_THREADS
    ensures OffsetToAddr(offset, thread).Some?
    ensures thread + 1 < MAX_THREADS ==>
              OffsetToAddr(offset, thread + 1) == Some(Wrap(OffsetToAddr(offset, thread).value as int + 8))
  {
  }

  class MemPlanner {
    const rows: u32
    const fromPage: nat
    const toPage: nat
    var rowsAvailable: u32
    var currentSegment: MemSegment?

    /** The pages are those of the first and the last byte of the planned memory. */
    constructor (rows: u32, fromPage: nat, toPage: nat)
      ensures this.rows == rows && this.fromPage == fromPage && this.toPage == toPage
      ensures currentSegment == null
    {
      this.rows := rows;
      this.fromPage := fromPage;
      this.toPage := toPage;
      rowsAvailable := rows;
      currentSegment := null;
    }

    /** The source's constructor: null is its runtime_error, for memory that is unmapped or does not start
        a page. */
    static method Create(rows: u32, fromAddr: u32, mbSize: u32) returns (planner: MemPlanner?)
      ensures planner == null <==> PagesOf(fromAddr, mbSize) == None
      ensures planner != null ==>
                && fresh(planner) && planner.rows == rows && planner.currentSegment == null
                && PagesOf(fromAddr, mbSize) == Some((planner.fromPage, planner.toPage))
    {
      var from, last := AddrToPage(fromAddr), AddrToPage(Wrap(fromAddr + mbSize * 0x10_0000 - 1));
      if from == None || last == None || PageToAddr(from.value) != Some(fromAddr) {
        return null;
      }
      planner := new MemPlanner(rows, from.value, last.value);
    }

    /** One entry of a chain: cut it as often as it fills a segment. */
    method CutEntry(thread: nat, offset: nat, cpos: nat, entryCount: u32, locators: L.MemLocators,
                    ghost books: seq<Book>, ghost vs: seq<Visit>, ghost i: nat)
      requires BooksWf(books) && i < |vs| && locators.Valid()
      requires vs[i].thread == thread && vs[i].offset == offset && vs[i].cpos == cpos && vs[i].count == entryCount
      requires EnoughLocators(vs, rows) && locators.Pushed() != []
      requires Cutting(books, vs, rows, locators.Pushed(), RowsBefore(vs, i), rowsAvailable)
      modifies this`rowsAvailable, locators`writePos, locators.locators
      ensures locators.Valid() && locators.Pushed() != []
      ensures Cutting(books, vs, rows, locators.Pushed(), RowsBefore(vs, i + 1), rowsAvailable)
    {
      var count: u32 := entryCount;
      while count > 0
        invariant count <= entryCount && locators.Valid() && locators.Pushed() != []
        invariant Cutting(books, vs, rows, locators.Pushed(), RowsBefore(vs, i) + (entryCount - count), rowsAvailable)
      {
        ghost var plan, d := locators.Pushed(), entryCount - count;
        if rowsAvailable > count {
          rowsAvailable := rowsAvailable - count;
          count := 0;
          break;
        }
        CutHere(books, vs, rows, plan, i, d, rowsAvailable);
        MultipleWithin(|plan|, rows, RowTotal(vs));
        count := count - rowsAvailable;
        locators.PushLocator(thread, offset, cpos, entryCount - count);
        rowsAvailable := rows;
      }
    }

    /** The plan covers the visits seen so far. */
    ghost predicate PlannedTo(locators: L.MemLocators, books: seq<Book>, vs: seq<Visit>, seen: seq<Visit>)
      requires BooksWf(books)
      reads this, locators, locators.locators
    {
      && locators.Valid() && |seen| <= |vs| && (locators.Pushed() == [] <==> seen == [])
      && Cutting(books, vs, rows, locators.Pushed(), RowsBefore(vs, |seen|), rowsAvailable)
    }

    /** The entries of a used cell, from its initial position to the last one. */
    method CutChain(workers: seq<MC.MemCounter>, locators: L.MemLocators, offset: nat, thread: nat, pos: u32, initialPos: u32,
                    ghost books: seq<Book>, ghost vs: seq<Visit>, ghost lo: nat, ghost hi: nat, ghost n: nat)
      requires Ready(workers, books) && BooksWf(books) && thread < MAX_THREADS
      requires lo <= n < hi <= CELLS && n == offset * MAX_THREADS + thread && vs == Stream(books, lo, hi)
      requires EnoughLocators(vs, rows) && locators.Valid() && locators.Pushed() != []
      requires Cell(books, n) != [] && initialPos == Cell(books, n)[0].cpos
      requires |workers| == MAX_THREADS && workers[thread].Sized() && offset < ADDR_TABLE_SIZE
      requires pos == workers[thread].GetAddrTable(offset)
      requires |Stream(books, lo, n)| + |Cell(books, n)| <= |vs|
      requires Cutting(books, vs, rows, locators.Pushed(), RowsBefore(vs, |Stream(books, lo, n)|), rowsAvailable)
      modifies this`rowsAvailable, locators`writePos, locators.locators
      ensures Ready(workers, books) && locators.Valid() && locators.Pushed() != []
      ensures Cutting(books, vs, rows, locators.Pushed(), RowsBefore(vs, |Stream(books, lo, n)| + |Cell(books, n)|), rowsAvailable)
    {
      hide Ready, Cell, Cutting, Wf, Stream, RowsBefore, RowTotal, EnoughLocators;
      ghost var c, base, k := Cell(books, n), |Stream(books, lo, n)|, 0;
      var w, cpos := workers[thread], initialPos;
      assert CellOffset(n) == offset && CellThread(n) == thread;
      while true
        invariant k < |c| && cpos == c[k].cpos
        invariant Ready(workers, books) && locators.Valid() && locators.Pushed() != []
        invariant Cutting(books, vs, rows, locators.Pushed(), RowsBefore(vs, base + k), rowsAvailable)
        decreases |c| - k
      {
        VisitReads(workers, books, n, k);
        CellInStream(books, lo, n, hi, k);
        CutEntry(thread, offset, cpos, w.GetPosValue(cpos + 1), locators, books, vs, base + k);
        if pos == cpos {
          break;
        }
        cpos := w.GetNextPos(cpos + 1);
        k := k + 1;
      }
    }

    /** One cell: its first entry may be the first of all, and each of its entries is cut. */
    method CutCell(workers: seq<MC.MemCounter>, locators: L.MemLocators, offset: nat, thread: nat, insertedFirst: bool,
                   ghost books: seq<Book>, ghost vs: seq<Visit>, ghost lo: nat, ghost hi: nat, ghost n: nat)
      returns (inserted: bool)
      requires Ready(workers, books) && BooksWf(books) && thread < MAX_THREADS
      requires lo <= n < hi <= CELLS && n == offset * MAX_THREADS + thread && vs == Stream(books, lo, hi)
      requires EnoughLocators(vs, rows)
      requires PlannedTo(locators, books, vs, Stream(books, lo, n))
      requires locators.Valid() && (insertedFirst <==> locators.Pushed() != [])
      modifies this`rowsAvailable, locators`writePos, locators.locators
      ensures Ready(workers, books)
      ensures PlannedTo(locators, books, vs, Stream(books, lo, n + 1))
      ensures locators.Valid() && (inserted <==> locators.Pushed() != [])
    {
      hide Ready, Cell, Cutting, Wf, EnoughLocators;
      ghost var c, base := Cell(books, n), |Stream(books, lo, n)|;
      assert CellOffset(n) == offset && CellThread(n) == thread;
      CellReads(workers, books, n);
      assert Stream(books, lo, n + 1) == Stream(books, lo, n) + c;
      hide Stream, RowsBefore, RowTotal;
      var w := workers[thread];
      var pos := w.GetAddrTable(offset);
      if pos == 0 {
        return insertedFirst;
      }
      inserted := true;
      CellInStream(books, lo, n, hi, 0);
      VisitReads(workers, books, n, 0);
      if !insertedFirst {
        FirstIsPlanned(books, vs, rows, RowsBefore(vs, base), rowsAvailable, thread, offset, pos);
        locators.PushLocator(thread, offset, pos, 0);
        assert locators.Pushed() == [Locator(thread, offset, pos, 0)];
      }
      CutChain(workers, locators, offset, thread, pos, w.GetInitialPos(pos).value, books, vs, lo, hi, n);
    }

    /** An offset: its eight cells. */
    method CutOffset(workers: seq<MC.MemCounter>, locators: L.MemLocators, offset: nat, insertedFirst: bool,
                     ghost books: seq<Book>, ghost vs: seq<Visit>, ghost lo: nat, ghost hi: nat)
      returns (inserted: bool)
      requires Ready(workers, books) && BooksWf(books)
      requires lo <= offset * MAX_THREADS && (offset + 1) * MAX_THREADS <= hi <= CELLS && vs == Stream(books, lo, hi)
      requires EnoughLocators(vs, rows)
      requires PlannedTo(locators, books, vs, Stream(books, lo, offset * MAX_THREADS))
      requires locators.Valid() && (insertedFirst <==> locators.Pushed() != [])
      modifies this`rowsAvailable, locators`writePos, locators.locators
      ensures Ready(workers, books)
      ensures PlannedTo(locators, books, vs, Stream(books, lo, (offset + 1) * MAX_THREADS))
      ensures locators.Valid() && (inserted <==> locators.Pushed() != [])
    {
      hide Ready, Cutting, Stream, Wf, EnoughLocators;
      inserted := insertedFirst;
      ghost var n := offset * MAX_THREADS;
      for thread := 0 to MAX_THREADS
        invariant n == offset * MAX_THREADS + thread
        invariant Ready(workers, books) && PlannedTo(locators, books, vs, Stream(books, lo, n))
        invariant locators.Valid() && (inserted <==> locators.Pushed() != [])
      {
        inserted := CutCell(workers, locators, offset, thread, inserted, books, vs, lo, hi, n);
        n := n + 1;
      }
    }

    method CutPage(workers: seq<MC.MemCounter>, locators: L.MemLocators, page: nat, insertedFirst: bool,
                   ghost books: seq<Book>, ghost vs: seq<Visit>, ghost lo: nat, ghost hi: nat)
      returns (inserted: bool)
      requires Ready(workers, books) && BooksWf(books) && page < MAX_PAGES
      requires lo <= FirstCell(page) && FirstCell(page + 1) <= hi <= CELLS && vs == Stream(books, lo, hi)
      requires EnoughLocators(vs, rows)
      requires PlannedTo(locators, books, vs, Stream(books, lo, FirstCell(page)))
      requires locators.Valid() && (insertedFirst <==> locators.Pushed() != [])
      modifies this`rowsAvailable, locators`writePos, locators.locators
      ensures Ready(workers, books)
      ensures PlannedTo(locators, books, vs, Stream(books, lo, FirstCell(page + 1)))
      ensures locators.Valid() && (inserted <==> locators.Pushed() != [])
    {
      hide Ready, Wf, Cell, PlannedTo, Stream, EnoughLocators;
      inserted := insertedFirst;
      var offset, maxOffset := GetOffsetLimits(workers, page, books);
      PageIsCovered(books, lo, page, offset, maxOffset);
      if offset <= maxOffset {
        while offset <= maxOffset
          invariant offset <= maxOffset + 1 && FirstCell(page) <= offset * MAX_THREADS
          invariant Ready(workers, books) && PlannedTo(locators, books, vs, Stream(books, lo, offset * MAX_THREADS))
          invariant locators.Valid() && (inserted <==> locators.Pushed() != [])
        {
          inserted := CutOffset(workers, locators, offset, inserted, books, vs, lo, hi);
          offset := offset + 1;
        }
      }
    }

    method CutPages(workers: seq<MC.MemCounter>, locators: L.MemLocators,
                    ghost books: seq<Book>, ghost vs: seq<Visit>, ghost lo: nat, ghost hi: nat)
      requires Ready(workers, books) && BooksWf(books) && fromPage < MAX_PAGES && toPage < MAX_PAGES
      requires lo == FirstCell(fromPage) && hi == FirstCell(toPage) <= CELLS && vs == Stream(books, lo, hi)
      requires EnoughLocators(vs, rows)
      requires locators.Valid() && locators.Pushed() == [] && PlannedTo(locators, books, vs, [])
      modifies this`rowsAvailable, locators`writePos, locators.locators
      ensures Ready(workers, books) && locators.Valid() && PlannedTo(locators, books, vs, vs)
    {
      hide Ready, Wf, Cutting, Cell, EnoughLocators;
      var inserted, page := false, fromPage;
      while page < toPage
        invariant fromPage <= page && (page <= toPage || page == fromPage)
        invariant Ready(workers, books) && PlannedTo(locators, books, vs, Stream(books, lo, FirstCell(page)))
        invariant locators.Valid() && (inserted <==> locators.Pushed() != [])
      {
        inserted := CutPage(workers, locators, page, inserted, books, vs, lo, hi);
        page := page + 1;
      }
      assert Stream(books, lo, FirstCell(page)) == vs;
    }

    /** The whole scan (generate_locators): the locators pushed are the plan of the row stream. */
    method GenerateLocators(workers: seq<MC.MemCounter>, locators: L.MemLocators, ghost books: seq<Book>, ghost vs: seq<Visit>)
      requires Ready(workers, books) && BooksWf(books) && fromPage < MAX_PAGES && toPage < MAX_PAGES
      requires FirstCell(toPage) <= CELLS && vs == Stream(books, FirstCell(fromPage), FirstCell(toPage))
      requires EnoughLocators(vs, rows)
      requires locators.Valid() && locators.Pushed() == []
      modifies this`rowsAvailable, locators`writePos, locators`completed, locators.locators
      ensures Ready(workers, books) && locators.Valid() && locators.completed
      ensures IsPlan(books, vs, rows, locators.Pushed())
    {
      rowsAvailable := rows;
      NothingIsPlanned(books, vs, rows);
      hide Ready, Wf, Cutting, Stream, FirstCell, RowsBefore, IsPlan, RowTotal, EnoughLocators;
      CutPages(workers, locators, books, vs, FirstCell(fromPage), FirstCell(toPage));
      PlanIsDone(books, vs, rows, locators.Pushed(), rowsAvailable);
      locators.SetCompleted();
    }

    // ---- Rebuilding one segment ----

    ghost function SegmentRepr(): set<object>
      reads this, currentSegment
    {
      if currentSegment == null then {} else currentSegment.Repr()
    }

    ghost predicate SegmentValid()
      reads this, currentSegment
    {
      currentSegment != null ==> currentSegment.Valid()
    }

    ghost function SegmentContents(): Summary
      reads this, currentSegment, if currentSegment == null then {} else currentSegment.chunks.Values
    {
      if currentSegment == null then map[] else currentSegment.Contents()
    }

    method CurrentSegmentAdd(chunk: u32, addr: u32, count: u32)
      requires currentSegment != null && SegmentValid()
      modifies SegmentRepr()
      ensures currentSegment != null && SegmentValid() && fresh(SegmentRepr() - old(SegmentRepr()))
      ensures SegmentContents() == Updated(old(SegmentContents()), chunk, addr, 0, count)
    {
      currentSegment.AddOrUpdate(chunk, addr, 0, count);
    }

    /** Adds rows to the segment being built, opening it if there is none; false when it is full. */
    method AddChunk(chunk: u32, addr: u32, count: u32, skip: u32) returns (more: bool)
      requires SegmentValid()
      modifies this`rowsAvailable, this`currentSegment, SegmentRepr()
      ensures currentSegment != null && SegmentValid() && fresh(SegmentRepr() - old(SegmentRepr()))
      ensures old(currentSegment) == null ==>
                var n := Min(count, rows);
                && SegmentContents() == Updated(map[], chunk, addr, skip, n)
                && rowsAvailable == rows - n && (more <==> n < rows)
      ensures old(currentSegment) != null ==>
                var n := Min(old(rowsAvailable), count);
                && SegmentContents() == Updated(old(SegmentContents()), chunk, addr, 0, n)
                && rowsAvailable == old(rowsAvailable) - n && (more <==> old(rowsAvailable) > count)
    {
      hide Updated;
      if currentSegment == null {
        var consumed := if count < rows then count else rows;
        currentSegment := new MemSegment.Of(chunk, addr, skip, consumed);
        rowsAvailable := rows - consumed;
        return rowsAvailable != 0;
      }
      if rowsAvailable <= count {
        CurrentSegmentAdd(chunk, addr, rowsAvailable);
        rowsAvailable := 0;
        return false;
      }
      CurrentSegmentAdd(chunk, addr, count);
      rowsAvailable := rowsAvailable - count;
      return true;
    }

    /** The segment starting after row a holds its pieces up to visit i. */
    ghost predicate RebuiltTo(vs: seq<Visit>, a: nat, i: nat)
      reads this, currentSegment, if currentSegment == null then {} else currentSegment.chunks.Values
    {
      && vs != [] && a <= RowTotal(vs) && i <= |vs| && SegmentValid() && rows > 0
      && if currentSegment == null then i == FirstVisit(vs, a)
         else Building(vs, rows, a, FirstVisit(vs, a), i, SegmentContents(), rowsAvailable)
    }

    ghost predicate Rebuilt(vs: seq<Visit>, a: nat)
      reads this, currentSegment, if currentSegment == null then {} else currentSegment.chunks.Values
    {
      currentSegment != null && SegmentValid() && Built(vs, rows, a, SegmentContents())
    }

    /** The next visit's rows, less those the previous segment has taken of it. */
    method AddVisit(chunk: u32, addr: u32, entryCount: u32, skip: u32, ghost vs: seq<Visit>, ghost a: nat, ghost i: nat)
      returns (more: bool)
      requires i < |vs| && vs[i].chunk == chunk && vs[i].addr == addr && vs[i].count == entryCount
      requires RebuiltTo(vs, a, i)
      requires if currentSegment == null then RowsBefore(vs, i) + skip == a && skip <= entryCount else skip == 0
      modifies this`rowsAvailable, this`currentSegment, SegmentRepr()
      ensures currentSegment != null && fresh(SegmentRepr() - old(SegmentRepr()))
      ensures more ==> RebuiltTo(vs, a, i + 1)
      ensures !more ==> Rebuilt(vs, a)
    {
      hide Building, Built, Updated, FirstVisit, RowTotal, RowsBefore;
      ghost var before, m, ra := currentSegment, SegmentContents(), rowsAvailable;
      more := AddChunk(chunk, addr, entryCount - skip, skip);
      if before == null {
        FirstStep(vs, rows, a, i, skip, SegmentContents(), Min(entryCount - skip, rows));
      } else {
        NextStep(vs, rows, a, FirstVisit(vs, a), i, m, ra, SegmentContents());
      }
    }

    /** One entry of a chain, less skip of its rows. */
    method RebuildEntry(workers: seq<MC.MemCounter>, thread: nat, addr: u32, cpos: u32, skip: u32,
                        ghost books: seq<Book>, ghost vs: seq<Visit>, ghost lo: nat, ghost hi: nat, ghost n: nat,
                        ghost a: nat, ghost k: nat)
      returns (more: bool)
      requires Ready(workers, books) && BooksWf(books) && |workers| == MAX_THREADS
      requires lo <= n < hi <= CELLS && CellThread(n) == thread && vs == Stream(books, lo, hi)
      requires workers[thread].Sized() && OffsetToAddr(CellOffset(n), CellThread(n)) == Some(addr)
      requires k < |Cell(books, n)| && cpos == Cell(books, n)[k].cpos
      requires |Stream(books, lo, n)| + |Cell(books, n)| <= |vs|
      requires RebuiltTo(vs, a, |Stream(books, lo, n)| + k)
      requires if currentSegment == null then
                 RowsBefore(vs, |Stream(books, lo, n)| + k) + skip == a && skip <= Cell(books, n)[k].count
               else skip == 0
      modifies this`rowsAvailable, this`currentSegment, SegmentRepr()
      ensures Ready(workers, books) && currentSegment != null && fresh(SegmentRepr() - old(SegmentRepr()))
      ensures more ==> RebuiltTo(vs, a, |Stream(books, lo, n)| + k + 1)
      ensures !more ==> Rebuilt(vs, a)
    {
      hide Ready, Cell, RebuiltTo, Rebuilt, Wf, Stream, RowsBefore, OffsetToAddr, BooksWf;
      VisitReads(workers, books, n, k);
      CellInStream(books, lo, n, hi, k);
      var w := workers[thread];
      more := AddVisit(w.GetPosValue(cpos), addr, w.GetPosValue(cpos + 1), skip, vs, a, |Stream(books, lo, n)| + k);
    }

    /** The entries of a used cell, from step k0 on, less skip rows of the first of them. */
    method RebuildChain(workers: seq<MC.MemCounter>, offset: nat, thread: nat, addr: u32, pos: u32, startPos: nat, startSkip: u32,
                        ghost books: seq<Book>, ghost vs: seq<Visit>, ghost lo: nat, ghost hi: nat, ghost n: nat,
                        ghost a: nat, ghost k0: nat)
      returns (more: bool)
      requires Ready(workers, books) && BooksWf(books) && thread < MAX_THREADS && |workers| == MAX_THREADS
      requires lo <= n < hi <= CELLS && n == offset * MAX_THREADS + thread && vs == Stream(books, lo, hi)
      requires offset < ADDR_TABLE_SIZE && workers[thread].Sized() && pos == workers[thread].GetAddrTable(offset)
      requires OffsetToAddr(offset, thread) == Some(addr)
      requires k0 < |Cell(books, n)| && startPos == Cell(books, n)[k0].cpos
      requires |Stream(books, lo, n)| + |Cell(books, n)| <= |vs|
      requires RebuiltTo(vs, a, |Stream(books, lo, n)| + k0)
      requires if currentSegment == null then
                 RowsBefore(vs, |Stream(books, lo, n)| + k0) + startSkip == a && startSkip <= Cell(books, n)[k0].count
               else startSkip == 0
      modifies this`rowsAvailable, this`currentSegment, SegmentRepr()
      ensures Ready(workers, books) && currentSegment != null && fresh(SegmentRepr() - old(SegmentRepr()))
      ensures more ==> RebuiltTo(vs, a, |Stream(books, lo, n)| + |Cell(books, n)|)
      ensures !more ==> Rebuilt(vs, a)
    {
      hide Ready, Cell, RebuiltTo, Rebuilt, Wf, Stream, RowsBefore, OffsetToAddr, BooksWf;
      ghost var c, base, k := Cell(books, n), |Stream(books, lo, n)|, k0;
      var w, skip: u32, cpos := workers[thread], startSkip, startPos;
      assert CellOffset(n) == offset && CellThread(n) == thread;
      while true
        invariant k < |c| && cpos == c[k].cpos
        invariant Ready(workers, books) && RebuiltTo(vs, a, base + k) && fresh(SegmentRepr() - old(SegmentRepr()))
        invariant if currentSegment == null then RowsBefore(vs, base + k) + skip == a && skip <= c[k].count else skip == 0
        decreases |c| - k
      {
        VisitReads(workers, books, n, k);
        more := RebuildEntry(workers, thread, addr, cpos, skip, books, vs, lo, hi, n, a, k);
        if !more {
          return;
        }
        skip := 0;
        if cpos == pos {
          break;
        }
        cpos := w.GetNextPos(cpos + 1);
        k := k + 1;
      }
      more := true;
    }

    /** One cell. The locator's cell is entered at its position, with its skip; every other cell, and
        all of segment 0, from the start of the chain. The row before a is in the locator's entry. */
    method RebuildCell(workers: seq<MC.MemCounter>, segmentId: nat, offset: nat, thread: nat, addr: u32,
                       firstPos: bool, locatorPos: nat, locatorSkip: u32,
                       ghost books: seq<Book>, ghost vs: seq<Visit>, ghost lo: nat, ghost hi: nat, ghost n: nat,
                       ghost a: nat, ghost k0: nat)
      returns (more: bool)
      requires Ready(workers, books) && BooksWf(books) && thread < MAX_THREADS
      requires lo <= n < hi <= CELLS && n == offset * MAX_THREADS + thread && vs == Stream(books, lo, hi)
      requires firstPos ==> currentSegment == null && EntersAt(books, vs, lo, n, a, k0, segmentId, locatorPos, locatorSkip)
      requires !firstPos ==> currentSegment != null && k0 == 0
      requires RebuiltTo(vs, a, |Stream(books, lo, n)| + k0)
      requires OffsetToAddr(offset, thread) == Some(addr)
      modifies this`rowsAvailable, this`currentSegment, SegmentRepr()
      ensures Ready(workers, books) && currentSegment != null && fresh(SegmentRepr() - old(SegmentRepr()))
      ensures more ==> RebuiltTo(vs, a, |Stream(books, lo, n + 1)|)
      ensures !more ==> Rebuilt(vs, a)
    {
      hide Ready, Cell, RebuiltTo, Rebuilt, Wf;
      ghost var c, base := Cell(books, n), |Stream(books, lo, n)|;
      assert CellOffset(n) == offset && CellThread(n) == thread;
      CellReads(workers, books, n);
      assert Stream(books, lo, n + 1) == Stream(books, lo, n) + c;
      if c != [] {
        CellInStream(books, lo, n, hi, 0);
      }
      hide Stream, RowsBefore;
      var w := workers[thread];
      var pos := w.GetAddrTable(offset);
      if pos == 0 {
        assert !firstPos;
        return true;
      }
      var skip: u32, cpos: nat := locatorSkip, locatorPos;
      if segmentId == 0 || !firstPos {
        skip := 0;
        cpos := w.GetInitialPos(pos).value;
      }
      more := RebuildChain(workers, offset, thread, addr, pos, cpos, skip, books, vs, lo, hi, n, a, k0);
    }

    /** The cells of an offset, from startThread on. Only the locator's cell is entered midway. */
    method RebuildOffset(workers: seq<MC.MemCounter>, segmentId: nat, offset: nat, startThread: nat,
                         firstPos: bool, locatorPos: nat, locatorSkip: u32,
                         ghost books: seq<Book>, ghost vs: seq<Visit>, ghost lo: nat, ghost hi: nat, ghost a: nat, ghost k0: nat)
      returns (more: bool)
      requires Ready(workers, books) && BooksWf(books) && startThread < MAX_THREADS && offset < ADDR_TABLE_SIZE
      requires lo <= offset * MAX_THREADS && (offset + 1) * MAX_THREADS <= hi <= CELLS && vs == Stream(books, lo, hi)
      requires firstPos ==> currentSegment == null
                            && EntersAt(books, vs, lo, offset * MAX_THREADS + startThread, a, k0, segmentId, locatorPos, locatorSkip)
      requires !firstPos ==> currentSegment != null && k0 == 0
      requires RebuiltTo(vs, a, |Stream(books, lo, offset * MAX_THREADS + startThread)| + k0)
      modifies this`rowsAvailable, this`currentSegment, SegmentRepr()
      ensures Ready(workers, books) && currentSegment != null && fresh(SegmentRepr() - old(SegmentRepr()))
      ensures more ==> RebuiltTo(vs, a, |Stream(books, lo, (offset + 1) * MAX_THREADS)|)
      ensures !more ==> Rebuilt(vs, a)
    {
      hide Ready, Cell, RebuiltTo, Rebuilt, Wf, Stream, EntersAt, OffsetToAddr, SlotAddr, AddrToOffset;
      OffsetRoundTrip(offset, startThread);
      var addr, first := OffsetToAddr(offset, startThread).value, firstPos;
      ghost var n, k := offset * MAX_THREADS + startThread, k0;
      for thread := startThread to MAX_THREADS
        invariant n == offset * MAX_THREADS + thread
        invariant Ready(workers, books) && RebuiltTo(vs, a, |Stream(books, lo, n)| + k) && fresh(SegmentRepr() - old(SegmentRepr()))
        invariant first ==> currentSegment == null && EntersAt(books, vs, lo, n, a, k, segmentId, locatorPos, locatorSkip)
        invariant !first ==> currentSegment != null && k == 0
        invariant thread == startThread || !first
        invariant thread < MAX_THREADS ==> OffsetToAddr(offset, thread) == Some(addr)
      {
        NextAddr(offset, thread);
        more := RebuildCell(workers, segmentId, offset, thread, addr, first, locatorPos, locatorSkip, books, vs, lo, hi, n, a, k);
        if !more {
          return;
        }
        first := false;
        addr := Wrap(addr as int + 8);
        n, k := n + 1, 0;
      }
      more := true;
    }

    /** The offsets of a page, from the given one on. */
    method RebuildOffsets(workers: seq<MC.MemCounter>, segmentId: nat, start: nat, maxOffset: nat, startThread: nat,
                          firstPos: bool, locatorPos: nat, locatorSkip: u32,
                          ghost books: seq<Book>, ghost vs: seq<Visit>, ghost lo: nat, ghost hi: nat, ghost a: nat, ghost k0: nat)
      returns (more: bool)
      requires Ready(workers, books) && BooksWf(books) && startThread < MAX_THREADS && start <= maxOffset < ADDR_TABLE_SIZE
      requires lo <= start * MAX_THREADS && (maxOffset + 1) * MAX_THREADS <= hi <= CELLS && vs == Stream(books, lo, hi)
      requires firstPos ==> currentSegment == null
                            && EntersAt(books, vs, lo, start * MAX_THREADS + startThread, a, k0, segmentId, locatorPos, locatorSkip)
      requires !firstPos ==> currentSegment != null && k0 == 0
      requires RebuiltTo(vs, a, |Stream(books, lo, start * MAX_THREADS + startThread)| + k0)
      modifies this`rowsAvailable, this`currentSegment, SegmentRepr()
      ensures Ready(workers, books) && currentSegment != null && fresh(SegmentRepr() - old(SegmentRepr()))
      ensures more ==> RebuiltTo(vs, a, |Stream(books, lo, (maxOffset + 1) * MAX_THREADS)|)
      ensures !more ==> Rebuilt(vs, a)
    {
      hide Ready, Cell, RebuiltTo, Rebuilt, Wf, Stream, EntersAt;
      more := RebuildOffset(workers, segmentId, start, startThread, firstPos, locatorPos, locatorSkip, books, vs, lo, hi, a, k0);
      var offset := start + 1;
      while more && offset <= maxOffset
        invariant start < offset <= maxOffset + 1 && currentSegment != null
        invariant Ready(workers, books) && fresh(SegmentRepr() - old(SegmentRepr()))
        invariant more ==> RebuiltTo(vs, a, |Stream(books, lo, offset * MAX_THREADS)|)
        invariant !more ==> Rebuilt(vs, a)
        decreases maxOffset + 1 - offset
      {
        more := RebuildOffset(workers, segmentId, offset, 0, false, locatorPos, locatorSkip, books, vs, lo, hi, a, 0);
        offset := offset + 1;
      }
    }

    method RebuildPages(workers: seq<MC.MemCounter>, segmentId: nat, startPage: nat, locatorPos: nat,
                        ghost books: seq<Book>, ghost vs: seq<Visit>, ghost lo: nat, ghost hi: nat, ghost a: nat)
      returns (more: bool)
      requires Ready(workers, books) && BooksWf(books) && startPage <= toPage < MAX_PAGES
      requires lo <= FirstCell(startPage) && hi == FirstCell(toPage) <= CELLS && vs == Stream(books, lo, hi)
      requires currentSegment != null && RebuiltTo(vs, a, |Stream(books, lo, FirstCell(startPage))|)
      modifies this`rowsAvailable, this`currentSegment, SegmentRepr()
      ensures Ready(workers, books) && currentSegment != null
      ensures more ==> RebuiltTo(vs, a, |vs|)
      ensures !more ==> Rebuilt(vs, a)
    {
      hide Ready, Cell, RebuiltTo, Rebuilt, Wf, Stream, EntersAt;
      more := true;
      var page := startPage;
      while more && page < toPage
        invariant startPage <= page <= toPage && currentSegment != null
        invariant Ready(workers, books) && fresh(SegmentRepr() - old(SegmentRepr()))
        invariant more ==> RebuiltTo(vs, a, |Stream(books, lo, FirstCell(page))|)
        invariant !more ==> Rebuilt(vs, a)
      {
        var offset, maxOffset := GetOffsetLimits(workers, page, books);
        PageIsCovered(books, lo, page, offset, maxOffset);
        if offset <= maxOffset {
          more := RebuildOffsets(workers, segmentId, offset, maxOffset, 0, false, locatorPos, 0, books, vs, lo, hi, a, 0);
        }
        page := page + 1;
      }
    }

    lemma {:induction false} AllRebuilt(vs: seq<Visit>, a: nat)
      requires currentSegment != null && RebuiltTo(vs, a, |vs|)
      ensures Rebuilt(vs, a)
    {
    }

    /** The scan from the locator's cell on: the rest of its page, then the pages after it. */
    method Rebuild(workers: seq<MC.MemCounter>, segmentId: nat, locator: Locator, ghost books: seq<Book>, ghost vs: seq<Visit>,
                   ghost lo: nat, ghost hi: nat, ghost a: nat, ghost n: nat, ghost k: nat)
      requires Ready(workers, books) && BooksWf(books) && toPage < MAX_PAGES && currentSegment == null
      requires lo == FirstCell(fromPage) && hi == FirstCell(toPage) <= CELLS && vs == Stream(books, lo, hi)
      requires lo <= n < hi && locator.thread < MAX_THREADS && n == locator.offset * MAX_THREADS + locator.thread
      requires locator.skip < WORD && locator.offset < ADDR_TABLE_SIZE
      requires k < |Cell(books, n)| && EntersAt(books, vs, lo, n, a, k, segmentId, locator.cpos, locator.skip)
      requires RebuiltTo(vs, a, |Stream(books, lo, n)| + k)
      modifies this`rowsAvailable, this`currentSegment
      ensures Ready(workers, books) && Rebuilt(vs, a)
    {
      hide Ready, Wf, Cell, Stream, EntersAt, Rebuilt, RebuiltTo, CoversPage;
      var page := OffsetToPage(locator.offset);
      CellIsInPage(n, page, fromPage, toPage);
      var offset, maxOffset := GetOffsetLimits(workers, page, books);
      UsedCellIsCovered(books, page, offset, maxOffset, n);
      PageIsCovered(books, lo, page, offset, maxOffset);
      var more := RebuildOffsets(workers, segmentId, locator.offset, maxOffset, locator.thread, true, locator.cpos, locator.skip,
                                 books, vs, lo, hi, a, k);
      if more {
        more := RebuildPages(workers, segmentId, page + 1, locator.cpos, books, vs, lo, hi, a);
        if more {
          AllRebuilt(vs, a);
        }
      }
    }

    /** execute_from_locator: from its locator alone, the segment's pieces. */
    method ExecuteFromLocator(workers: seq<MC.MemCounter>, segmentId: nat, locator: Locator,
                              ghost books: seq<Book>, ghost vs: seq<Visit>, ghost a: nat)
      requires Ready(workers, books) && BooksWf(books) && fromPage < MAX_PAGES && toPage < MAX_PAGES
      requires FirstCell(toPage) <= CELLS && vs == Stream(books, FirstCell(fromPage), FirstCell(toPage))
      requires rows > 0 && currentSegment == null && StartsAt(books, vs, rows, segmentId, locator) && a == segmentId * rows
      modifies this`rowsAvailable, this`currentSegment
      ensures Ready(workers, books)
      ensures Rebuilt(vs, a)
    {
      hide Ready, Wf, Cell, Stream, StartsAt, EntersAt, Rebuilt, Building, FirstCell, RowTotal, FirstVisit;
      ghost var n, k := LocatorEnters(books, vs, rows, FirstCell(fromPage), FirstCell(toPage), segmentId, locator, a);
      assert RebuiltTo(vs, a, |Stream(books, FirstCell(fromPage), n)| + k);
      Rebuild(workers, segmentId, locator, books, vs, FirstCell(fromPage), FirstCell(toPage), a, n, k);
    }

    /** execute_from_locators with no other worker about and the queue completed: every segment of the
        plan is rebuilt. What many workers do together is in LocatorQueue.dfy. */
    method ExecuteFromLocators(workers: seq<MC.MemCounter>, locators: L.MemLocators, ghost books: seq<Book>, ghost vs: seq<Visit>)
      returns (segments: map<nat, MemSegment>)
      requires Ready(workers, books) && BooksWf(books) && fromPage < MAX_PAGES && toPage < MAX_PAGES
      requires FirstCell(toPage) <= CELLS && vs == Stream(books, FirstCell(fromPage), FirstCell(toPage))
      requires rows > 0 && currentSegment == null
      requires locators.Valid() && locators.readPos == 0 && IsPlan(books, vs, rows, locators.Pushed())
      modifies this`rowsAvailable, this`currentSegment, locators`readPos
      ensures locators.Valid() && locators.Pushed() == old(locators.Pushed())
      ensures forall k: nat :: k in segments <==> k < |locators.Pushed()|
      ensures forall k: nat :: k in segments ==> BuiltAt(vs, rows, k, segments[k])
    {
      hide Ready, Wf, Stream, Built, IsPlan, FirstCell;
      segments := map[];
      while true
        invariant locators.Valid() && locators.Pushed() == old(locators.Pushed()) && currentSegment == null
        invariant Ready(workers, books)
        invariant forall k: nat :: k in segments <==> k < locators.readPos
        invariant forall k: nat :: k in segments ==> BuiltAt(vs, rows, k, segments[k])
        decreases |locators.Pushed()| - locators.readPos
      {
        var claim := locators.GetLocator();
        if claim == None {
          break;
        }
        var (segmentId, locator) := claim.value;
        PlanStarts(books, vs, rows, locators.Pushed(), segmentId);
        ExecuteFromLocator(workers, segmentId, locator, books, vs, segmentId * rows);
        segments := segments[segmentId := currentSegment];
        currentSegment := null;
      }
    }
  }
}
