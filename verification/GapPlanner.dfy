/** The sequential planner (immutable_mem_planner.hpp): it walks the row stream once, counts an
    implicit row for every skipped word, and closes a segment whenever one is full and more comes. */
module GapPlanner {
  import opened MemConfig
  import opened AddressMap
  import opened Chains
  import opened RowStream
  import opened CheckPoints
  import opened GapRows
  import opened Workers
  import MC = MemCounter

  function Skipped(g: Progress, rows: nat, n: nat): Progress
    requires n <= g.available
  {
    if n == 0 && g.available == 0 then Opened(g, rows) else g.(available := g.available - n)
  }

  function Consumed(g: Progress, rows: nat, chunk: u32, addr: u32, n: u32, skip: u32): Progress
    requires n <= g.available
  {
    if n == 0 && g.available > 0 then g else
      var g' := if g.available == 0 then Opened(g, rows) else g;
      Progress(if n <= g'.available then g'.available - n else 0,
               match g'.reference
               case None => None
               case Some(r) => Some(Mark(r.chunk, r.addr, Wrap(r.skip + n))),
               g'.closed, Updated(g'.current, chunk, addr, skip, n))
  }

  lemma {:induction false} SkippedIsGood(rows: nat, g: Progress, ops: seq<Placed>, at: nat, n: nat)
    requires Good(rows, g, ops, at) && n <= g.available
    ensures Good(rows, Skipped(g, rows, n), ops, at + n)
  {
    if n == 0 && g.available == 0 {
      OpenedIsGood(rows, g, ops, at);
    } else {
      GapIsGood(rows, g, ops, at, n);
    }
  }

  /** Placing n rows of the operation in progress; n = 0 only on an empty segment. */
  lemma {:induction false} ConsumedIsGood(rows: nat, g: Progress, ops: seq<Placed>, at: nat, n: u32)
    requires Good(rows, g, ops, at) && n <= g.available && (n == 0 ==> g.available == 0)
    requires ops != [] && End(ops) == at && ops[|ops| - 1].count + n < WORD
    requires ops[|ops| - 1].count == 0 || g.available == 0 || g.available == rows
    ensures var p := ops[|ops| - 1];
            Good(rows, Consumed(g, rows, p.chunk, p.addr, n, p.count), Grow(ops, n), at + n)
  {
    hide Updated, From, SegmentIs;
    var p := ops[|ops| - 1];
    assert g.reference == Some(Mark(p.chunk, p.addr, p.count));
    hide InOrder, Good;
    if n == 0 {
      assert Grow(ops, 0) == ops;
      OpenedIsGood(rows, g, ops, at);
      ReopeningAddsNothing(g, rows, p.chunk, p.addr, p.count);
    } else {
      RowsAreGood(rows, g, ops, at, n);
    }
  }

  /** add_intermediate_rows: passes until nothing is pending. A pass over an empty segment places no
      row but reopens it, so the measure is (rows pending, segment empty). */
  function SkipAll(g: Progress, rows: nat, pending: nat): Progress
    requires rows > 0
    decreases pending, if g.available == 0 then 1 else 0
  {
    if pending == 0 then g else
      var n := Min(pending, g.available);
      SkipAll(Skipped(g, rows, n), rows, pending - n)
  }

  /** add_rows, likewise. */
  function PlaceAll(g: Progress, rows: nat, chunk: u32, addr: u32, count: u32, pending: u32): Progress
    requires rows > 0 && pending <= count
    decreases pending, if g.available == 0 then 1 else 0
  {
    if pending == 0 then g else
      var n := Min(pending, g.available);
      PlaceAll(Consumed(g, rows, chunk, addr, n, count - pending), rows, chunk, addr, count, pending - n)
  }

  lemma {:induction false} OpenedIsFull(g: Progress, rows: nat)
    ensures Opened(g, rows).available == rows
  {
  }

  lemma {:induction false} GoodBounds(rows: nat, g: Progress, ops: seq<Placed>, at: nat)
    requires Good(rows, g, ops, at)
    ensures rows > 0 && g.available <= rows
  {
  }

  lemma {:induction false} SkipAllIsGood(rows: nat, g: Progress, ops: seq<Placed>, at: nat, pending: nat)
    requires Good(rows, g, ops, at)
    ensures Good(rows, SkipAll(g, rows, pending), ops, at + pending)
    ensures pending > 0 ==> SkipAll(g, rows, pending).available < rows
    decreases pending, if g.available == 0 then 1 else 0
  {
    hide Good, Opened;
    GoodBounds(rows, g, ops, at);
    if pending == 0 {
    } else {
      var n := Min(pending, g.available);
      OpenedIsFull(g, rows);
      SkippedIsGood(rows, g, ops, at, n);
      SkipAllIsGood(rows, Skipped(g, rows, n), ops, at + n, pending - n);
    }
  }

  ghost predicate Placing(rows: nat, g: Progress, ops: seq<Placed>, at: nat, count: nat, pending: nat) {
    && ops != [] && End(ops) == at && pending <= count && ops[|ops| - 1].count == count - pending
    && rows > 0 && g.available <= rows
    && (pending == count || pending == 0 || g.available == 0 || g.available == rows)
  }

  lemma {:induction false} PassKeepsPlacing(rows: nat, g: Progress, ops: seq<Placed>, at: nat, count: u32, pending: u32, n: u32)
    requires Placing(rows, g, ops, at, count, pending) && pending > 0 && n == Min(pending, g.available)
    ensures var p := ops[|ops| - 1];
            && Placing(rows, Consumed(g, rows, p.chunk, p.addr, n, p.count), Grow(ops, n), at + n, count, pending - n)
            && Grow(Grow(ops, n), pending - n) == Grow(ops, pending)
            && PlaceAll(g, rows, p.chunk, p.addr, count, pending)
               == PlaceAll(Consumed(g, rows, p.chunk, p.addr, n, p.count), rows, p.chunk, p.addr, count, pending - n)
            && Grow(ops, n)[|ops| - 1].chunk == p.chunk && Grow(ops, n)[|ops| - 1].addr == p.addr
  {
    OpenedIsFull(g, rows);
  }

  /** Before each pass the reference's skip is what has been placed of the operation: count - pending. */
  lemma {:induction false} PlaceAllIsGood(rows: nat, g: Progress, ops: seq<Placed>, at: nat, count: u32, pending: u32)
    requires Good(rows, g, ops, at) && Placing(rows, g, ops, at, count, pending)
    ensures var p := ops[|ops| - 1];
            Good(rows, PlaceAll(g, rows, p.chunk, p.addr, count, pending), Grow(ops, pending), at + pending)
    decreases pending, if g.available == 0 then 1 else 0
  {
    hide Good, From, SegmentIs, InOrder;
    var p := ops[|ops| - 1];
    if pending == 0 {
      assert Grow(ops, 0) == ops;
    } else {
      var n := Min(pending, g.available);
      ConsumedIsGood(rows, g, ops, at, n);
      OpenedIsFull(g, rows);
      PassKeepsPlacing(rows, g, ops, at, count, pending, n);
      var g', ops' := Consumed(g, rows, p.chunk, p.addr, n, p.count), Grow(ops, n);
      assert g'.available == if g.available == 0 then rows else g.available - n;
      hide Placing, PlaceAll, Consumed, Grow;
      PlaceAllIsGood(rows, g', ops', at + n, count, pending - n);
    }
  }

  function Gapped(g: Progress, rows: nat, gap: nat): Progress
    requires rows > 0
  {
    if gap == 0 then g
    else if gap > 1 then SkipAll(SkipAll(g, rows, 1), rows, gap - 1)
    else SkipAll(g, rows, 1)
  }

  function Preopened(g: Progress, rows: nat, gap: nat, chunk: u32, addr: u32): Progress {
    if g.available > 0 then g
    else Opened(if gap > 0 then g.(current := Updated(g.current, chunk, addr, 0, 1)) else g, rows)
  }

  function Started(g: Progress, rows: nat, gap: nat, chunk: u32, addr: u32): Progress
    requires rows > 0
  {
    Preopened(Gapped(g, rows, gap), rows, gap, chunk, addr).(reference := Some(Mark(chunk, addr, 0)))
  }

  function Added(g: Progress, rows: nat, gap: nat, chunk: u32, addr: u32, count: u32): Progress
    requires rows > 0
  {
    PlaceAll(Started(g, rows, gap, chunk, addr), rows, chunk, addr, count, count)
  }

  lemma {:induction false} GappedIsGood(rows: nat, g: Progress, ops: seq<Placed>, at: nat, gap: nat)
    requires Good(rows, g, ops, at)
    ensures Good(rows, Gapped(g, rows, gap), ops, at + gap)
    ensures gap > 0 ==> Gapped(g, rows, gap).available < rows
  {
    assert rows > 0;
    hide Good, SkipAll;
    if gap > 0 {
      SkipAllIsGood(rows, g, ops, at, 1);
      if gap > 1 {
        SkipAllIsGood(rows, SkipAll(g, rows, 1), ops, at + 1, gap - 1);
      }
    }
  }

  lemma {:induction false} PreopenedIsGood(rows: nat, g: Progress, ops: seq<Placed>, at: nat, p: Placed)
    requires Good(rows, g, ops, at) && p.count == 0 && p.start == at && End(ops) + p.gap == at
    requires p.gap > 0 ==> g.available < rows
    ensures var g' := Preopened(g, rows, p.gap, p.chunk, p.addr).(reference := Some(Mark(p.chunk, p.addr, 0)));
            Good(rows, g', ops + [p], at) && g'.available > 0
  {
    if g.available > 0 {
      NewOpIsGood(rows, g, ops, at, p);
    } else {
      NewOpAtEndIsGood(rows, g, ops, at, p);
      assert rows > 0;
    }
  }

  /** Adding an entry keeps every segment right, with the entry's rows and the gap before it placed. */
  lemma {:induction false} AddedIsGood(rows: nat, g: Progress, ops: seq<Placed>, at: nat, gap: nat, chunk: u32, addr: u32, count: u32)
    requires Good(rows, g, ops, at) && End(ops) == at
    ensures Good(rows, Added(g, rows, gap, chunk, addr, count), ops + [Placed(chunk, addr, gap, at + gap, count)], at + gap + count)
  {
    hide Good, Gapped, Preopened, From, SegmentIs, InOrder;
    GoodBounds(rows, g, ops, at);
    var p, g1 := Placed(chunk, addr, gap, at + gap, 0), Gapped(g, rows, gap);
    GappedIsGood(rows, g, ops, at, gap);
    PreopenedIsGood(rows, g1, ops, at + gap, p);
    var g2 := Preopened(g1, rows, gap, chunk, addr).(reference := Some(Mark(chunk, addr, 0)));
    GoodBounds(rows, g2, ops + [p], at + gap);
    assert Grow(ops + [p], count) == ops + [Placed(chunk, addr, gap, at + gap, count)];
    hide PlaceAll;
    PlaceAllIsGood(rows, g2, ops + [p], at + gap, count, count);
  }

  // ---- What the planner leaves behind ----

  /** The segments of a row axis with `total` rows: as many as it takes, each recording its part. */
  ghost predicate Finished(rows: nat, segments: seq<Summary>, ops: seq<Placed>, total: nat) {
    && rows > 0 && |segments| == (total + rows - 1) / rows
    && forall j :: 0 <= j < |segments| ==> SegmentIs(ops, rows, j, segments[j])
  }

  lemma {:induction false} CeilFrom(at: nat, rows: nat, m: nat, available: nat)
    requires 0 < rows && available <= rows && at + available == m * rows + rows
    ensures (at + rows - 1) / rows == if available < rows then m + 1 else m
  {
    if available < rows {
      MulStep(m, rows);
      QuotientFrom(at + rows - 1, rows, m + 1, rows - 1 - available);
    } else {
      QuotientFrom(at + rows - 1, rows, m, rows - 1);
    }
  }

  lemma {:induction false} LastClosed(rows: nat, g: Progress, ops: seq<Placed>, at: nat)
    requires Good(rows, g, ops, at)
    ensures Finished(rows, if g.available < rows then g.closed + [g.current] else g.closed, ops, at)
  {
    hide From, InOrder, SegmentIs;
    FromIsProduct(rows, |g.closed|);
    CeilFrom(at, rows, |g.closed|, g.available);
    var segments := if g.available < rows then g.closed + [g.current] else g.closed;
    forall j | 0 <= j < |segments|
      ensures SegmentIs(ops, rows, j, segments[j])
    {
      if j < |g.closed| {
        assert segments[j] == g.closed[j];
      }
    }
  }

  // ---- The scan, visit by visit ----

  /** Everything the planner is to scan: the stream of its pages, with no chunk numbered NO_CHUNK_ID. */
  ghost predicate Scan(books: seq<Book>, vs: seq<Visit>, rows: nat, fromPage: nat, hi: nat) {
    && BooksWf(books) && 0 < rows && fromPage < MAX_PAGES && hi <= CELLS
    && vs == Stream(books, FirstCell(fromPage), hi)
    && forall i :: 0 <= i < |vs| ==> vs[i].chunk != NO_CHUNK_ID
  }

  /** The visits seen so far are placed. */
  ghost predicate Walked(rows: nat, g: Progress, lastAddr: u32, base: u32, seen: seq<Visit>) {
    lastAddr == LastAddr(base, seen) && Good(rows, g, Layout(base, seen), GapTotal(base, seen))
  }

  lemma {:induction false} NothingWalked(books: seq<Book>, vs: seq<Visit>, rows: nat, fromPage: nat, hi: nat)
    requires Scan(books, vs, rows, fromPage, hi) && FirstCell(fromPage) <= CELLS
    ensures Walked(rows, Progress(rows, None, [], map[]), PageBase(fromPage), PageBase(fromPage),
                   Stream(books, FirstCell(fromPage), FirstCell(fromPage)))
  {
  }

  lemma {:induction false} WordFits(offset: nat, thread: nat)
    requires offset < ADDR_TABLE_SIZE && thread < MAX_THREADS
    ensures SlotAddr(offset, thread) + 8 < WORD
  {
  }

  /** The address the scan of a page starts from; an empty page asks for one too, and gets a dummy. */
  lemma {:induction false} LimitAddr(books: seq<Book>, page: nat, first: u32, last: u32)
    requires BooksWf(books) && page < MAX_PAGES && CoversPage(books, page, first, last)
    ensures OffsetToAddr(first, 0).Some?
    ensures first <= last ==> first < ADDR_TABLE_SIZE && OffsetToAddr(first, 0) == Some(SlotAddr(first, 0))
    ensures first <= last ==> OffsetToPage(first) == page && OffsetToPage(last) == page
  {
  }

  lemma {:induction false} WalkedAddr(rows: nat, g: Progress, lastAddr: u32, base: u32, seen: seq<Visit>)
    requires Walked(rows, g, lastAddr, base, seen)
    ensures lastAddr == LastAddr(base, seen)
  {
  }

  lemma {:induction false} PageStart(page: nat)
    requires page < MAX_PAGES
    ensures CellOffset(FirstCell(page)) < ADDR_TABLE_SIZE && CellThread(FirstCell(page)) == 0
    ensures PageBase(page) == SlotAddr(CellOffset(FirstCell(page)), 0)
  {
  }

  lemma {:induction false} WordsApart(a: u32, b: u32)
    requires a % 8 == 0 && b % 8 == 0 && a <= b
    ensures (b - a) % 8 == 0
  {
  }

  lemma {:induction false} CellsAscend(n1: nat, n2: nat)
    requires n1 <= n2 < CELLS
    ensures CellOffset(n2) < ADDR_TABLE_SIZE
    ensures SlotAddr(CellOffset(n1), CellThread(n1)) <= SlotAddr(CellOffset(n2), CellThread(n2))
    ensures (SlotAddr(CellOffset(n2), CellThread(n2)) - SlotAddr(CellOffset(n1), CellThread(n1))) % 8 == 0
  {
    hide SlotAddr;
    ScanOrderIsAddressOrder(CellOffset(n1), CellThread(n1), CellOffset(n2), CellThread(n2));
    OffsetRoundTrip(CellOffset(n1), CellThread(n1));
    OffsetRoundTrip(CellOffset(n2), CellThread(n2));
    WordsApart(SlotAddr(CellOffset(n1), CellThread(n1)), SlotAddr(CellOffset(n2), CellThread(n2)));
  }

  /** The address last seen does not lie beyond the next cell's, and both are words. */
  lemma {:induction false} WordsGoUp(books: seq<Book>, fromPage: nat, n: nat, k: nat)
    requires BooksWf(books) && fromPage < MAX_PAGES && FirstCell(fromPage) <= n < CELLS && k < |Cell(books, n)|
    ensures CellOffset(n) < ADDR_TABLE_SIZE
    ensures var seen := Stream(books, FirstCell(fromPage), n) + Cell(books, n)[..k];
            var prev, addr := LastAddr(PageBase(fromPage), seen), SlotAddr(CellOffset(n), CellThread(n));
            prev <= addr && (addr - prev) % 8 == 0
  {
    hide SlotAddr, Wf, Cell, Stream, PageBase;
    var lo := FirstCell(fromPage);
    var front := Stream(books, lo, n);
    var seen := front + Cell(books, n)[..k];
    if k > 0 {
      VisitInCell(books, n, k - 1);
      assert seen[|seen| - 1] == Cell(books, n)[k - 1];
    } else if front != [] {
      var n1, k1 := Locate(books, lo, n, |front| - 1);
      VisitInCell(books, n1, k1);
      CellsAscend(n1, n);
      assert seen[|seen| - 1] == front[|front| - 1];
    } else {
      PageStart(fromPage);
      CellsAscend(lo, n);
    }
  }

  /** The scanned visits ascend from the first page's base. */
  lemma {:induction false} StreamFromBase(books: seq<Book>, vs: seq<Visit>, rows: nat, fromPage: nat, hi: nat)
    requires Scan(books, vs, rows, fromPage, hi)
    ensures FromBase(PageBase(fromPage), vs)
  {
    hide SlotAddr, Wf, Cell, Stream, PageBase;
    StreamVisitsAscend(books, FirstCell(fromPage), hi);
    forall i | 0 <= i < |vs|
      ensures PageBase(fromPage) <= vs[i].addr && OnWord(PageBase(fromPage), vs[i].addr)
    {
      var n, k := Locate(books, FirstCell(fromPage), hi, i);
      VisitInCell(books, n, k);
      PageStart(fromPage);
      CellsAscend(FirstCell(fromPage), n);
    }
  }

  /** All rows of a scan: those of its visits, and one for every word it skips. */
  lemma {:induction false} AllRowsOfScan(books: seq<Book>, vs: seq<Visit>, rows: nat, fromPage: nat, hi: nat)
    requires Scan(books, vs, rows, fromPage, hi)
    ensures GapTotal(PageBase(fromPage), vs) == RowTotal(vs) + |SkippedWords(PageBase(fromPage), vs)|
  {
    StreamFromBase(books, vs, rows, fromPage, hi);
    GapTotalIs(PageBase(fromPage), vs);
  }

  /** So many segments are closed. */
  lemma {:induction false} SegmentsOfScan(books: seq<Book>, vs: seq<Visit>, rows: nat, fromPage: nat, hi: nat, segments: seq<Summary>)
    requires Scan(books, vs, rows, fromPage, hi)
    requires Finished(rows, segments, Layout(PageBase(fromPage), vs), GapTotal(PageBase(fromPage), vs))
    ensures rows > 0 && |segments| == (RowTotal(vs) + |SkippedWords(PageBase(fromPage), vs)| + rows - 1) / rows
  {
    AllRowsOfScan(books, vs, rows, fromPage, hi);
  }

  lemma {:induction false} OneMoreIsWalked(rows: nat, g: Progress, lastAddr: u32, base: u32, seen: seq<Visit>, v: Visit)
    requires Walked(rows, g, lastAddr, base, seen)
    ensures rows > 0
    ensures Walked(rows, Added(g, rows, GapWords(lastAddr, v.addr), v.chunk, v.addr, v.count), v.addr, base, seen + [v])
  {
    hide Good, Added, GapWords;
    GoodBounds(rows, g, Layout(base, seen), GapTotal(base, seen));
    LayoutEnds(base, seen);
    assert (seen + [v])[..|seen|] == seen;
    AddedIsGood(rows, g, Layout(base, seen), GapTotal(base, seen), GapWords(lastAddr, v.addr), v.chunk, v.addr, v.count);
  }

  lemma {:induction false} CellIsDone(books: seq<Book>, vs: seq<Visit>, rows: nat, fromPage: nat, hi: nat, n: nat)
    requires Scan(books, vs, rows, fromPage, hi) && FirstCell(fromPage) <= n < hi
    ensures Stream(books, FirstCell(fromPage), n) + Cell(books, n) == Stream(books, FirstCell(fromPage), n + 1)
    ensures n + 1 <= hi <= CELLS && BooksWf(books) && rows > 0
  {
  }

  /** Adding visit k of cell n to the segment. */
  lemma {:induction false} VisitGoesOn(books: seq<Book>, vs: seq<Visit>, rows: nat, fromPage: nat, hi: nat, n: nat, k: nat,
                                       g: Progress, lastAddr: u32)
    requires Scan(books, vs, rows, fromPage, hi) && FirstCell(fromPage) <= n < hi && k < |Cell(books, n)|
    requires Walked(rows, g, lastAddr, PageBase(fromPage), Stream(books, FirstCell(fromPage), n) + Cell(books, n)[..k])
    ensures CellOffset(n) < ADDR_TABLE_SIZE && rows > 0
    ensures var addr, v := SlotAddr(CellOffset(n), CellThread(n)), Cell(books, n)[k];
            && lastAddr <= addr && (addr - lastAddr) % 8 == 0 && v.chunk != NO_CHUNK_ID && v.addr == addr
            && Walked(rows, Added(g, rows, GapWords(lastAddr, addr), v.chunk, addr, v.count), addr, PageBase(fromPage),
                      Stream(books, FirstCell(fromPage), n) + Cell(books, n)[..k + 1])
  {
    hide SlotAddr, Wf, Cell, Stream, PageBase, Walked, GapWords;
    var seen, v := Stream(books, FirstCell(fromPage), n) + Cell(books, n)[..k], Cell(books, n)[k];
    CellInStream(books, FirstCell(fromPage), n, hi, k);
    VisitInCell(books, n, k);
    WalkedAddr(rows, g, lastAddr, PageBase(fromPage), seen);
    WordsGoUp(books, fromPage, n, k);
    OneMoreIsWalked(rows, g, lastAddr, PageBase(fromPage), seen, v);
    assert seen + [v] == Stream(books, FirstCell(fromPage), n) + Cell(books, n)[..k + 1];
  }

  class ImmutableMemPlanner {
    const rowsBySegment: u32
    const fromPage: nat
    const toPage: nat
    var rowsAvailable: u32
    var referenceChunk: u32
    var referenceAddr: u32
    var referenceSkip: u32
    var currentChunk: u32
    var lastAddr: u32
    var currentSegment: MemSegment
    var segments: seq<MemSegment>
    ghost var closed: seq<Summary>
    ghost var Repr: set<object>

    // ---- Ownership ----

    /** What the planner owns is segments and checkpoints, nothing else. */
    ghost predicate Apart()
      reads this`Repr
    {
      forall o :: o in Repr ==> o is MemSegment || o is MemCheckPoint
    }

    ghost predicate OwnsClosed(i: nat)
      requires i < |segments|
      reads this`segments, this`closed, this`currentSegment, this`Repr, Repr
    {
      && segments[i] in Repr && segments[i].Repr() <= Repr
      && segments[i].Valid() && i < |closed| && segments[i].Contents() == closed[i]
      && currentSegment in Repr && segments[i].Repr() !! currentSegment.Repr()
    }

    /** The segments own their checkpoints, the current one apart from the closed ones. */
    ghost predicate Owns()
      reads this`segments, this`closed, this`currentSegment, this`Repr, Repr
    {
      && currentSegment in Repr && currentSegment.Repr() <= Repr && currentSegment.Valid()
      && |closed| == |segments|
      && forall i :: 0 <= i < |segments| ==> OwnsClosed(i)
    }

    ghost function View(): Progress
      reads this`rowsAvailable, this`referenceChunk, this`referenceAddr, this`referenceSkip
      reads this`closed, this`currentSegment, currentSegment, currentSegment.chunks.Values
    {
      Progress(rowsAvailable,
               if referenceChunk == NO_CHUNK_ID then None else Some(Mark(referenceChunk, referenceAddr, referenceSkip)),
               closed, currentSegment.Contents())
    }

    constructor (rows: u32, fromPage: nat, toPage: nat)
      ensures rowsBySegment == rows && this.fromPage == fromPage && this.toPage == toPage
      ensures Apart() && Owns() && fresh(Repr) && View() == Progress(rows, None, [], map[]) && segments == []
    {
      rowsBySegment, this.fromPage, this.toPage := rows, fromPage, toPage;
      rowsAvailable := rows;
      referenceChunk, referenceAddr, referenceSkip := NO_CHUNK_ID, 0, 0;
      currentChunk := NO_CHUNK_ID;
      lastAddr := 0;
      var segment := new MemSegment();
      currentSegment := segment;
      segments, closed := [], [];
      Repr := {segment};
    }

    /** The source's constructor: null is its runtime_error, for memory that is unmapped or does not start
        a page. */
    static method Create(rows: u32, fromAddr: u32, mbSize: u32) returns (planner: ImmutableMemPlanner?)
      ensures planner == null <==> PagesOf(fromAddr, mbSize) == None
      ensures planner != null ==>
                && fresh(planner) && planner.rowsBySegment == rows && planner.Apart() && planner.Owns() && fresh(planner.Repr)
                && PagesOf(fromAddr, mbSize) == Some((planner.fromPage, planner.toPage))
                && planner.View() == Progress(rows, None, [], map[]) && planner.segments == []
    {
      var from, last := AddrToPage(fromAddr), AddrToPage(Wrap(fromAddr + mbSize * 0x10_0000 - 1));
      if from == None || last == None || PageToAddr(from.value) != Some(fromAddr) {
        return null;
      }
      planner := new ImmutableMemPlanner(rows, from.value, last.value);
    }

    /** Adds a checkpoint to the current segment. */
    method AddChunkToSegment(chunk: u32, addr: u32, count: u32, skip: u32)
      requires Apart() && Owns()
      modifies this`Repr, Repr
      ensures Apart() && Owns() && fresh(Repr - old(Repr))
      ensures View() == old(View()).(current := Updated(old(View()).current, chunk, addr, skip, count))
    {
      currentSegment.AddOrUpdate(chunk, addr, skip, count);
      Repr := Repr + currentSegment.Repr();
      forall i | 0 <= i < |segments|
        ensures OwnsClosed(i)
      {
        assert old(OwnsClosed(i));
        assert segments[i].Repr() == old(segments[i].Repr());
        assert segments[i].Contents() == old(segments[i].Contents());
      }
    }

    method CloseSegment()
      requires Apart() && Owns()
      modifies this`segments, this`currentSegment, this`closed, this`Repr
      ensures Apart() && Owns() && fresh(Repr - old(Repr)) && fresh(currentSegment.Repr())
      ensures segments == old(segments) + [old(currentSegment)]
      ensures View() == old(View()).(closed := old(View()).closed + [old(View()).current], current := map[])
    {
      ghost var was, n := currentSegment, |segments|;
      closed := closed + [currentSegment.Contents()];
      segments := segments + [currentSegment];
      currentSegment := new MemSegment();
      Repr := Repr + {currentSegment};
      forall i | 0 <= i < |segments|
        ensures OwnsClosed(i)
      {
        if i < n {
          assert old(OwnsClosed(i));
        } else {
          assert segments[i] == was;
        }
        ghost var segment := segments[i];
        assert segment.Contents() == old(segment.Contents());
      }
    }

    method OpenSegment()
      requires Apart() && Owns()
      modifies this`segments, this`currentSegment, this`closed, this`Repr, this`rowsAvailable, Repr
      ensures Apart() && Owns() && fresh(Repr - old(Repr))
      ensures View() == Opened(old(View()), rowsBySegment)
    {
      CloseSegment();
      if referenceChunk != NO_CHUNK_ID {
        AddChunkToSegment(referenceChunk, referenceAddr, 0, referenceSkip);
      }
      rowsAvailable := rowsBySegment;
    }

    /** False is the runtime_error: too many rows. */
    method ConsumeRows(addr: u32, rowCount: u32, skip: u32) returns (ok: bool)
      requires Apart() && Owns()
      modifies this`segments, this`currentSegment, this`closed, this`Repr, this`rowsAvailable, this`referenceSkip, Repr
      ensures Apart() && Owns() && fresh(Repr - old(Repr))
      ensures ok <==> rowCount <= old(rowsAvailable)
      ensures ok ==> View() == Consumed(old(View()), rowsBySegment, currentChunk, addr, rowCount, skip)
    {
      hide Owns, Updated;
      if rowCount == 0 && rowsAvailable > 0 {
        return true;
      }
      if rowCount > rowsAvailable {
        return false;
      }
      if rowsAvailable == 0 {
        OpenSegment();
      }
      AddChunkToSegment(currentChunk, addr, rowCount, skip);
      rowsAvailable := rowsAvailable - rowCount;
      referenceSkip := Wrap(referenceSkip as int + rowCount);
      return true;
    }

    method ConsumeIntermediateRows(rowCount: u32) returns (ok: bool)
      requires Apart() && Owns()
      modifies this`segments, this`currentSegment, this`closed, this`Repr, this`rowsAvailable, Repr
      ensures Apart() && Owns() && fresh(Repr - old(Repr))
      ensures ok <==> rowCount <= old(rowsAvailable)
      ensures ok ==> View() == Skipped(old(View()), rowsBySegment, rowCount)
    {
      hide Owns, Updated;
      if rowCount == 0 && rowsAvailable > 0 {
        return true;
      }
      if rowCount > rowsAvailable {
        return false;
      }
      if rowsAvailable == 0 {
        OpenSegment();
      }
      rowsAvailable := rowsAvailable - rowCount;
      return true;
    }

    /** Places implicit rows; the too-many-rows error cannot occur. */
    method AddIntermediateRows(count: u32)
      requires Apart() && Owns() && rowsBySegment > 0
      modifies this`segments, this`currentSegment, this`closed, this`Repr, this`rowsAvailable, Repr
      ensures Apart() && Owns() && fresh(Repr - old(Repr))
      ensures View() == SkipAll(old(View()), rowsBySegment, count)
    {
      hide Owns, Opened;
      var pending: u32 := count;
      while pending > 0
        invariant Apart() && Owns() && fresh(Repr - old(Repr))
        invariant SkipAll(View(), rowsBySegment, pending) == SkipAll(old(View()), rowsBySegment, count)
        decreases pending, if rowsAvailable == 0 then 1 else 0
      {
        var consumed := if pending < rowsAvailable then pending else rowsAvailable;
        OpenedIsFull(View(), rowsBySegment);
        var ok := ConsumeIntermediateRows(consumed);
        assert ok;
        pending := pending - consumed;
      }
    }

    /** Places the rows of an operation; the too-many-rows error cannot occur. */
    method AddRows(addr: u32, count: u32)
      requires Apart() && Owns() && rowsBySegment > 0
      modifies this`segments, this`currentSegment, this`closed, this`Repr, this`rowsAvailable, this`referenceSkip, Repr
      ensures Apart() && Owns() && fresh(Repr - old(Repr))
      ensures View() == PlaceAll(old(View()), rowsBySegment, currentChunk, addr, count, count)
    {
      hide Owns, Opened, Updated;
      var pending: u32 := count;
      while pending > 0
        invariant pending <= count && Apart() && Owns() && fresh(Repr - old(Repr))
        invariant PlaceAll(View(), rowsBySegment, currentChunk, addr, count, pending)
                  == PlaceAll(old(View()), rowsBySegment, currentChunk, addr, count, count)
        decreases pending, if rowsAvailable == 0 then 1 else 0
      {
        var consumed := if pending < rowsAvailable then pending else rowsAvailable;
        OpenedIsFull(View(), rowsBySegment);
        var ok := ConsumeRows(addr, consumed, count - pending);
        assert ok;
        pending := pending - consumed;
      }
    }

    method AddIntermediateAddr(fromAddr: u32, toAddr: u32) returns (count: u32)
      requires Apart() && Owns() && rowsBySegment > 0 && fromAddr <= toAddr + 8 && toAddr + 8 - fromAddr < WORD
      modifies this`segments, this`currentSegment, this`closed, this`Repr, this`rowsAvailable, Repr
      ensures Apart() && Owns() && fresh(Repr - old(Repr))
      ensures count == (toAddr + 8 - fromAddr) / 8
      ensures View() == if count > 1 then SkipAll(SkipAll(old(View()), rowsBySegment, 1), rowsBySegment, count - 1)
                        else SkipAll(old(View()), rowsBySegment, 1)
    {
      hide Owns, SkipAll;
      count := Wrap(toAddr as int - fromAddr + 8) / 8;
      if count > 1 {
        AddIntermediateRows(1);
        AddIntermediateRows(count - 1);
      } else {
        AddIntermediateRows(1);
      }
    }

    method AddIntermediates(addr: u32) returns (count: u32)
      requires Apart() && Owns() && rowsBySegment > 0 && lastAddr <= addr && (addr - lastAddr) % 8 == 0
      modifies this`segments, this`currentSegment, this`closed, this`Repr, this`rowsAvailable, this`lastAddr, Repr
      ensures Apart() && Owns() && fresh(Repr - old(Repr))
      ensures count == GapWords(old(lastAddr), addr) == |WordsBetween(old(lastAddr), addr)| && lastAddr == addr
      ensures View() == Gapped(old(View()), rowsBySegment, count)
    {
      hide Owns, SkipAll;
      GapCountsWords(lastAddr, addr);
      count := 0;
      if Wrap(addr as int - lastAddr) > 8 {
        count := AddIntermediateAddr(lastAddr + 8, addr - 8);
      }
      lastAddr := addr;
    }

    method PreopenSegment(addr: u32, intermediateRows: u32)
      requires Apart() && Owns()
      modifies this`segments, this`currentSegment, this`closed, this`Repr, this`rowsAvailable, Repr
      ensures Apart() && Owns() && fresh(Repr - old(Repr))
      ensures View() == Preopened(old(View()), rowsBySegment, intermediateRows, currentChunk, addr)
    {
      hide Owns, Updated;
      if rowsAvailable == 0 {
        if intermediateRows > 0 {
          AddChunkToSegment(currentChunk, addr, 1, 0);
        }
        OpenSegment();
      }
    }

    method SkipAndPreopen(addr: u32)
      requires Apart() && Owns() && rowsBySegment > 0
      requires lastAddr <= addr && (addr - lastAddr) % 8 == 0
      modifies this`segments, this`currentSegment, this`closed, this`Repr, this`rowsAvailable, this`lastAddr, Repr
      ensures Apart() && Owns() && fresh(Repr - old(Repr)) && lastAddr == addr
      ensures var gap := GapWords(old(lastAddr), addr);
              View() == Preopened(Gapped(old(View()), rowsBySegment, gap), rowsBySegment, gap, currentChunk, addr)
    {
      hide Owns, Gapped, Preopened, GapWords;
      var intermediateRows := AddIntermediates(addr);
      PreopenSegment(addr, intermediateRows);
    }

    /** Everything before an entry's rows: the skipped words, a fresh segment if the last one is full,
        and the new reference. */
    method StartOperation(chunk: u32, addr: u32)
      requires Apart() && Owns() && rowsBySegment > 0 && chunk != NO_CHUNK_ID
      requires lastAddr <= addr && (addr - lastAddr) % 8 == 0
      modifies this`segments, this`currentSegment, this`closed, this`Repr, this`rowsAvailable, this`lastAddr, this`currentChunk,
               this`referenceChunk, this`referenceAddr, this`referenceSkip, Repr
      ensures Apart() && Owns() && fresh(Repr - old(Repr)) && lastAddr == addr && currentChunk == chunk
      ensures View() == Started(old(View()), rowsBySegment, GapWords(old(lastAddr), addr), chunk, addr)
    {
      hide Owns, Gapped, Preopened, GapWords;
      currentChunk := chunk;
      SkipAndPreopen(addr);
      referenceChunk, referenceAddr, referenceSkip := chunk, addr, 0;
    }

    /** One entry of a chain: the words skipped before it, then its rows. */
    method AddToCurrentSegment(chunk: u32, addr: u32, count: u32)
      requires Apart() && Owns() && rowsBySegment > 0 && chunk != NO_CHUNK_ID
      requires lastAddr <= addr && (addr - lastAddr) % 8 == 0
      modifies this`segments, this`currentSegment, this`closed, this`Repr, this`rowsAvailable, this`lastAddr, this`currentChunk,
               this`referenceChunk, this`referenceAddr, this`referenceSkip, Repr
      ensures Apart() && Owns() && fresh(Repr - old(Repr)) && lastAddr == addr
      ensures View() == Added(old(View()), rowsBySegment, GapWords(old(lastAddr), addr), chunk, addr, count)
    {
      hide Owns, Started, PlaceAll, GapWords;
      StartOperation(chunk, addr);
      AddRows(addr, count);
    }

    method CloseLastSegment()
      requires Apart() && Owns()
      modifies this`segments, this`currentSegment, this`closed, this`Repr
      ensures Apart() && Owns() && fresh(Repr - old(Repr))
      ensures closed == if rowsAvailable < rowsBySegment then old(closed) + [old(View()).current] else old(closed)
    {
      if rowsAvailable < rowsBySegment {
        CloseSegment();
      }
    }

    // ---- The scan (execute) ----

    /** The visits of the cells before n are placed. */
    ghost predicate PlacedTo(books: seq<Book>, n: nat)
      requires BooksWf(books) && fromPage < MAX_PAGES && n <= CELLS
      reads this`rowsAvailable, this`referenceChunk, this`referenceAddr, this`referenceSkip, this`lastAddr
      reads this`closed, this`currentSegment, currentSegment, currentSegment.chunks.Values
    {
      Walked(rowsBySegment, View(), lastAddr, PageBase(fromPage), Stream(books, FirstCell(fromPage), n))
    }

    /** The entries of a used cell, from its initial position to the last one. */
    method AddChain(workers: seq<MC.MemCounter>, offset: nat, thread: nat, pos: u32, initialPos: u32, addr: u32,
                    ghost books: seq<Book>, ghost vs: seq<Visit>, ghost hi: nat, ghost n: nat)
      requires BooksWf(books) && fromPage < MAX_PAGES && n < CELLS
      requires Apart() && Owns() && Scan(books, vs, rowsBySegment, fromPage, hi) && Ready(workers, books)
      requires FirstCell(fromPage) <= n < hi && n == offset * MAX_THREADS + thread && thread < MAX_THREADS
      requires Cell(books, n) != [] && initialPos == Cell(books, n)[0].cpos
      requires addr == SlotAddr(CellOffset(n), CellThread(n))
      requires |workers| == MAX_THREADS && workers[thread].Sized() && offset < ADDR_TABLE_SIZE
      requires pos == workers[thread].GetAddrTable(offset)
      requires PlacedTo(books, n)
      modifies this`segments, this`currentSegment, this`closed, this`Repr, this`rowsAvailable, this`lastAddr, this`currentChunk,
               this`referenceChunk, this`referenceAddr, this`referenceSkip, Repr
      ensures Apart() && Owns() && fresh(Repr - old(Repr)) && Ready(workers, books) && PlacedTo(books, n + 1)
    {
      hide Ready, Cell, Owns, Wf, Stream, Walked, Added, SlotAddr, GapWords, Layout, GapTotal, LastAddr, Scan, OffsetToAddr, PageBase;
      CellIsDone(books, vs, rowsBySegment, fromPage, hi, n);
      ghost var c, seen, k := Cell(books, n), Stream(books, FirstCell(fromPage), n), 0;
      var w, cpos := workers[thread], initialPos;
      assert CellOffset(n) == offset && CellThread(n) == thread;
      assert seen + c[..0] == seen;
      while true
        invariant k < |c| && cpos == c[k].cpos
        invariant Ready(workers, books) && Apart() && Owns() && fresh(Repr - old(Repr))
        invariant Walked(rowsBySegment, View(), lastAddr, PageBase(fromPage), seen + c[..k])
        decreases |c| - k
      {
        VisitReads(workers, books, n, k);
        VisitGoesOn(books, vs, rowsBySegment, fromPage, hi, n, k, View(), lastAddr);
        AddToCurrentSegment(w.GetPosValue(cpos), addr, w.GetPosValue(cpos + 1));
        k := k + 1;
        if pos == cpos {
          break;
        }
        cpos := w.GetNextPos(cpos + 1);
      }
      assert c[..k] == c;
    }

    method AddCell(workers: seq<MC.MemCounter>, offset: nat, thread: nat, addr: u32,
                   ghost books: seq<Book>, ghost vs: seq<Visit>, ghost hi: nat, ghost n: nat)
      requires BooksWf(books) && fromPage < MAX_PAGES && n < CELLS
      requires Apart() && Owns() && Scan(books, vs, rowsBySegment, fromPage, hi) && Ready(workers, books)
      requires FirstCell(fromPage) <= n < hi && n == offset * MAX_THREADS + thread && thread < MAX_THREADS
      requires offset < ADDR_TABLE_SIZE && addr == SlotAddr(offset, thread)
      requires PlacedTo(books, n)
      modifies this`segments, this`currentSegment, this`closed, this`Repr, this`rowsAvailable, this`lastAddr, this`currentChunk,
               this`referenceChunk, this`referenceAddr, this`referenceSkip, Repr
      ensures Apart() && Owns() && fresh(Repr - old(Repr)) && Ready(workers, books) && PlacedTo(books, n + 1)
    {
      hide Ready, Cell, Owns, Wf, Walked, SlotAddr, Scan;
      assert CellOffset(n) == offset && CellThread(n) == thread;
      CellReads(workers, books, n);
      assert Stream(books, FirstCell(fromPage), n + 1) == Stream(books, FirstCell(fromPage), n) + Cell(books, n);
      hide Stream;
      var w := workers[thread];
      var pos := w.GetAddrTable(offset);
      if pos == 0 {
        assert Stream(books, FirstCell(fromPage), n + 1) == Stream(books, FirstCell(fromPage), n);
        return;
      }
      AddChain(workers, offset, thread, pos, w.GetInitialPos(pos).value, addr, books, vs, hi, n);
    }

    /** An offset: its eight cells, the address moving on by one word each. */
    method AddOffset(workers: seq<MC.MemCounter>, offset: nat, firstAddr: u32,
                     ghost books: seq<Book>, ghost vs: seq<Visit>, ghost hi: nat) returns (addr: u32)
      requires BooksWf(books) && fromPage < MAX_PAGES && (offset + 1) * MAX_THREADS <= hi <= CELLS
      requires Apart() && Owns() && Scan(books, vs, rowsBySegment, fromPage, hi) && Ready(workers, books)
      requires FirstCell(fromPage) <= offset * MAX_THREADS
      requires firstAddr == SlotAddr(offset, 0)
      requires PlacedTo(books, offset * MAX_THREADS)
      modifies this`segments, this`currentSegment, this`closed, this`Repr, this`rowsAvailable, this`lastAddr, this`currentChunk,
               this`referenceChunk, this`referenceAddr, this`referenceSkip, Repr
      ensures Apart() && Owns() && fresh(Repr - old(Repr)) && Ready(workers, books)
      ensures PlacedTo(books, (offset + 1) * MAX_THREADS)
      ensures addr == SlotAddr(offset, 7) + 8
    {
      hide Ready, Owns, Wf, PlacedTo, SlotAddr, Scan;
      addr := firstAddr;
      ghost var n := offset * MAX_THREADS;
      for i := 0 to MAX_THREADS
        invariant n == offset * MAX_THREADS + i
        invariant addr == if i == 0 then SlotAddr(offset, 0) else SlotAddr(offset, i - 1) + 8
        invariant Ready(workers, books) && Apart() && Owns() && fresh(Repr - old(Repr)) && PlacedTo(books, n)
      {
        if i > 0 {
          NextWord(offset, i - 1);
        }
        AddCell(workers, offset, i, addr, books, vs, hi, n);
        WordFits(offset, i);
        addr := Wrap(addr as int + 8);
        n := n + 1;
      }
    }

    method AddPage(workers: seq<MC.MemCounter>, page: nat,
                   ghost books: seq<Book>, ghost vs: seq<Visit>, ghost hi: nat)
      requires BooksWf(books) && fromPage <= page < MAX_PAGES && FirstCell(page + 1) <= hi <= CELLS
      requires Apart() && Owns() && Scan(books, vs, rowsBySegment, fromPage, hi) && Ready(workers, books)
      requires PlacedTo(books, FirstCell(page))
      modifies this`segments, this`currentSegment, this`closed, this`Repr, this`rowsAvailable, this`lastAddr, this`currentChunk,
               this`referenceChunk, this`referenceAddr, this`referenceSkip, Repr
      ensures Apart() && Owns() && fresh(Repr - old(Repr)) && Ready(workers, books)
      ensures PlacedTo(books, FirstCell(page + 1))
    {
      hide Ready, Owns, Wf, Walked, SlotAddr, Scan, Stream, Cell;
      var offset, lastOffset := GetOffsetLimits(workers, page, books);
      PageIsCovered(books, FirstCell(fromPage), page, offset, lastOffset);
      LimitAddr(books, page, offset, lastOffset);
      var addr := OffsetToAddr(offset, 0).value;
      hide PlacedTo, OffsetToAddr;
      if offset <= lastOffset {
        while offset <= lastOffset
          invariant offset <= lastOffset + 1 && FirstCell(page) <= offset * MAX_THREADS
          invariant offset <= lastOffset ==> addr == SlotAddr(offset, 0)
          invariant Ready(workers, books) && Apart() && Owns() && fresh(Repr - old(Repr))
          invariant PlacedTo(books, offset * MAX_THREADS)
        {
          addr := AddOffset(workers, offset, addr, books, vs, hi);
          NextWord(offset, 7);
          offset := offset + 1;
        }
      }
    }

    lemma {:induction false} NoPagesLeft(books: seq<Book>, page: nat)
      requires BooksWf(books) && fromPage < MAX_PAGES && toPage < MAX_PAGES
      requires toPage <= page && (page == toPage || page == fromPage) && PlacedTo(books, FirstCell(page))
      ensures PlacedTo(books, FirstCell(toPage))
    {
      hide Walked, Wf;
    }

    method AddPages(workers: seq<MC.MemCounter>, ghost books: seq<Book>, ghost vs: seq<Visit>, ghost hi: nat)
      requires BooksWf(books) && fromPage < MAX_PAGES && toPage < MAX_PAGES && hi == FirstCell(toPage)
      requires Apart() && Owns() && Scan(books, vs, rowsBySegment, fromPage, hi) && Ready(workers, books)
      requires PlacedTo(books, FirstCell(fromPage))
      modifies this`segments, this`currentSegment, this`closed, this`Repr, this`rowsAvailable, this`lastAddr, this`currentChunk,
               this`referenceChunk, this`referenceAddr, this`referenceSkip, Repr
      ensures Apart() && Owns() && fresh(Repr - old(Repr)) && Ready(workers, books)
      ensures PlacedTo(books, hi)
    {
      hide Ready, Owns, Wf, PlacedTo, Scan, Stream;
      var page := fromPage;
      while page < toPage
        invariant fromPage <= page && (page <= toPage || page == fromPage) && FirstCell(page) <= CELLS
        invariant Ready(workers, books) && Apart() && Owns() && fresh(Repr - old(Repr)) && PlacedTo(books, FirstCell(page))
      {
        AddPage(workers, page, books, vs, hi);
        page := page + 1;
      }
      NoPagesLeft(books, page);
    }

    lemma {:induction false} ContentsAreClosed()
      requires Owns()
      ensures |segments| == |closed| && forall i :: 0 <= i < |segments| ==> segments[i].Contents() == closed[i]
    {
      forall i | 0 <= i < |segments|
        ensures segments[i].Contents() == closed[i]
      {
        assert OwnsClosed(i);
      }
    }

    /** The whole scan (execute): the segments closed are those of the row axis of the planned pages. */
    method Execute(workers: seq<MC.MemCounter>, ghost books: seq<Book>, ghost vs: seq<Visit>)
      requires BooksWf(books) && fromPage < MAX_PAGES && toPage < MAX_PAGES
      requires Scan(books, vs, rowsBySegment, fromPage, FirstCell(toPage)) && Ready(workers, books)
      requires Apart() && Owns() && View() == Progress(rowsBySegment, None, [], map[])
      modifies this`segments, this`currentSegment, this`closed, this`Repr, this`rowsAvailable, this`lastAddr, this`currentChunk,
               this`referenceChunk, this`referenceAddr, this`referenceSkip, Repr
      ensures Apart() && Owns() && Ready(workers, books)
      ensures |segments| == |closed| && forall i :: 0 <= i < |segments| ==> segments[i].Contents() == closed[i]
      ensures Finished(rowsBySegment, closed, Layout(PageBase(fromPage), vs), GapTotal(PageBase(fromPage), vs))
      ensures GapTotal(PageBase(fromPage), vs) == RowTotal(vs) + |SkippedWords(PageBase(fromPage), vs)|
    {
      hide Ready, Owns, Wf, Good, Finished, Layout, GapTotal, Stream, SkippedWords, RowTotal;
      AllRowsOfScan(books, vs, rowsBySegment, fromPage, FirstCell(toPage));
      lastAddr := PageToAddr(fromPage).value;
      NothingWalked(books, vs, rowsBySegment, fromPage, FirstCell(toPage));
      AddPages(workers, books, vs, FirstCell(toPage));
      LastClosed(rowsBySegment, View(), Layout(PageBase(fromPage), vs), GapTotal(PageBase(fromPage), vs));
      CloseLastSegment();
      ContentsAreClosed();
    }
  }
}
