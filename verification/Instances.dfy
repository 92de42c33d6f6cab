/** Two-operation traces that show what the planners do at segment boundaries. */
module Instances {
  import opened MemConfig
  import opened AddressMap
  import opened Chains
  import opened Trace
  import opened RowStream
  import opened CheckPoints
  import opened Workers
  import opened ParallelPlan
  import opened GapRows
  import opened GapPlanner
  import opened GapMeaning

  // ---- Two words of one offset, each accessed once ----

  /** Two chunks, each of one 8-byte access: the word of thread t1 at offset o, and that of t2. */
  function TwoWords(o: nat, t1: nat, t2: nat): seq<seq<Op>>
    requires o < ADDR_TABLE_SIZE && t1 < t2 < MAX_THREADS
  {
    [[Op(SlotAddr(o, t1), 8)], [Op(SlotAddr(o, t2), 8)]]
  }

  /** One entry, one row, in the first block of its worker. */
  function OneEntry(o: nat, chunk: u32): Book {
    Book(map[o := [Entry(chunk, 1)]], map[o := [0]], [(o, 0)], [o])
  }

  function BookOf(o: nat, t1: nat, t2: nat, t: nat): Book
    requires t1 < t2
  {
    if t == t1 then OneEntry(o, 0) else if t == t2 then OneEntry(o, 1) else EMPTY_BOOK
  }

  function BooksOf(o: nat, t1: nat, t2: nat): seq<Book>
    requires t1 < t2
  {
    seq(MAX_THREADS, t requires 0 <= t < MAX_THREADS => BookOf(o, t1, t2, t))
  }

  lemma {:induction false} OneEntryIsRecord(o: nat, chunk: u32)
    ensures HasRoom(EMPTY_BOOK, o, chunk) && Record(EMPTY_BOOK, o, chunk, 1) == OneEntry(o, chunk)
    ensures Wf(OneEntry(o, chunk)) && Wf(EMPTY_BOOK)
    ensures !LosesFirstBlock(OneEntry(o, chunk), o) && Pos([0], 0) == 2
  {
    var b := Record(EMPTY_BOOK, o, chunk, 1);
    assert ListOf(EMPTY_BOOK, o) == [] && ChainOf(EMPTY_BOOK, o) == [];
    assert Count([], chunk, 1) == [Entry(chunk, 1)] && NeedsBlock(EMPTY_BOOK, o, chunk);
    assert ChainOf(EMPTY_BOOK, o) + [|EMPTY_BOOK.owner|] == [0];
    assert b.blocks == WithBlock(EMPTY_BOOK, o).blocks == map[][o := [0]];
    assert map[][o := [0]] == map[o := [0]];
    assert map[][o := [Entry(chunk, 1)]] == map[o := [Entry(chunk, 1)]];
    assert b.lists == map[o := [Entry(chunk, 1)]] && b.blocks == map[o := [0]];
    assert b.owner == [(o, 0)] && b.order == [o];
  }

  lemma {:induction false} WordTouch(o: nat, t: nat, id: nat)
    requires o < ADDR_TABLE_SIZE && t < MAX_THREADS
    ensures var op := Op(SlotAddr(o, t), 8);
            && WellFormed(op) && AddrToOffset(op.addr) == Some(o)
            && TouchBy(op, id) == if id == t then Some(Touch(op.addr, 1)) else None
  {
    hide SlotAddr, AddrToOffset;
    OffsetRoundTrip(o, t);
  }

  lemma {:induction false} OneOpRuns(b: Book, id: nat, chunk: u32, op: Op)
    ensures RunOps(b, id, chunk, [op]) == RunOp(b, id, chunk, op)
  {
    assert [op][..0] == [] && RunOps(b, id, chunk, []) == Some(b);
  }

  lemma {:induction false} TwoWordsRun(o: nat, t1: nat, t2: nat, id: nat)
    requires o < ADDR_TABLE_SIZE && t1 < t2 < MAX_THREADS
    ensures RunChunks(id, TwoWords(o, t1, t2)) == Some(BookOf(o, t1, t2, id))
  {
    var chunks, op1, op2 := TwoWords(o, t1, t2), Op(SlotAddr(o, t1), 8), Op(SlotAddr(o, t2), 8);
    hide SlotAddr, AddrToOffset, TouchBy, Record, HasRoom, Wf, RunOps;
    WordTouch(o, t1, id);
    WordTouch(o, t2, id);
    OneEntryIsRecord(o, 0);
    OneEntryIsRecord(o, 1);
    assert chunks[..1] == [[op1]] && [[op1]][..0] == [];
    OneOpRuns(EMPTY_BOOK, id, 0, op1);
    assert RunChunks(id, [[op1]]) == Some(if id == t1 then OneEntry(o, 0) else EMPTY_BOOK);
    OneOpRuns(if id == t1 then OneEntry(o, 0) else EMPTY_BOOK, id, 1, op2);
  }

  lemma {:induction false} BookOfWf(o: nat, t1: nat, t2: nat, t: nat)
    requires t1 < t2
    ensures Wf(BookOf(o, t1, t2, t))
  {
    hide Wf;
    OneEntryIsRecord(o, 0);
    OneEntryIsRecord(o, 1);
  }

  lemma {:induction false} TwoWordsCounted(o: nat, t1: nat, t2: nat)
    requires o < ADDR_TABLE_SIZE && t1 < t2 < MAX_THREADS
    ensures TraceWellFormed(TwoWords(o, t1, t2)) && CountedBy(BooksOf(o, t1, t2), TwoWords(o, t1, t2))
    ensures BooksWf(BooksOf(o, t1, t2))
  {
    hide SlotAddr, RunChunks, Wf, BookOf;
    WordTouch(o, t1, 0);
    WordTouch(o, t2, 0);
    forall id | 0 <= id < MAX_THREADS
      ensures RunChunks(id, TwoWords(o, t1, t2)) == Some(BooksOf(o, t1, t2)[id]) && Wf(BooksOf(o, t1, t2)[id])
    {
      TwoWordsRun(o, t1, t2, id);
      BookOfWf(o, t1, t2, id);
    }
  }

  function VisitOf(o: nat, t: nat, chunk: u32): Visit
    requires o < ADDR_TABLE_SIZE && t < MAX_THREADS
  {
    Visit(t, o, 2, chunk, SlotAddr(o, t), 1)
  }

  lemma {:induction false} OneEntryCell(books: seq<Book>, n: nat, chunk: u32)
    requires BooksWf(books) && n < CELLS && CellOffset(n) < ADDR_TABLE_SIZE
    requires books[CellThread(n)] == OneEntry(CellOffset(n), chunk)
    ensures Cell(books, n) == [VisitOf(CellOffset(n), CellThread(n), chunk)]
  {
    hide SlotAddr, Wf;
    OneEntryIsRecord(CellOffset(n), chunk);
  }

  lemma {:induction false} UnusedCell(books: seq<Book>, n: nat)
    requires BooksWf(books) && n < CELLS && CellOffset(n) !in books[CellThread(n)].lists
    ensures Cell(books, n) == []
  {
    hide Wf;
  }

  lemma {:induction false} OneMoreCell(books: seq<Book>, lo: nat, n: nat)
    requires BooksWf(books) && lo <= n < CELLS
    ensures Stream(books, lo, n + 1) == Stream(books, lo, n) + Cell(books, n) && Stream(books, lo, lo) == []
  {
  }

  lemma {:induction false} TwoCellsStream(books: seq<Book>, lo: nat, n1: nat, n2: nat, hi: nat, v: Visit, w: Visit)
    requires BooksWf(books) && lo <= n1 < n2 < hi <= CELLS && Cell(books, n1) == [v] && Cell(books, n2) == [w]
    requires forall n :: lo <= n < hi && n != n1 && n != n2 ==> Cell(books, n) == []
    ensures Stream(books, lo, hi) == [v, w]
  {
    hide Wf, Cell, Stream;
    EmptyCells(books, lo, lo, n1);
    OneMoreCell(books, lo, n1);
    EmptyCells(books, lo, n1 + 1, n2);
    OneMoreCell(books, lo, n2);
    EmptyCells(books, lo, n2 + 1, hi);
  }

  lemma {:induction false} CellOfBooks(o: nat, t1: nat, t2: nat, n: nat)
    requires o < ADDR_TABLE_SIZE && t1 < t2 < MAX_THREADS && n < CELLS && BooksWf(BooksOf(o, t1, t2))
    ensures Cell(BooksOf(o, t1, t2), n)
            == if n == o * MAX_THREADS + t1 then [VisitOf(o, t1, 0)]
               else if n == o * MAX_THREADS + t2 then [VisitOf(o, t2, 1)] else []
  {
    hide Wf, Cell, SlotAddr;
    var books := BooksOf(o, t1, t2);
    assert books[CellThread(n)] == BookOf(o, t1, t2, CellThread(n));
    if n == o * MAX_THREADS + t1 {
      OneEntryCell(books, n, 0);
    } else if n == o * MAX_THREADS + t2 {
      OneEntryCell(books, n, 1);
    } else {
      UnusedCell(books, n);
    }
  }

  /** The streams of these books, over any range of cells that begins at or before the first word and ends
      after the second. */
  lemma {:induction false} TwoWordsStream(o: nat, t1: nat, t2: nat, lo: nat, hi: nat)
    requires o < ADDR_TABLE_SIZE && t1 < t2 < MAX_THREADS
    requires lo <= o * MAX_THREADS + t1 && o * MAX_THREADS + t2 < hi <= CELLS
    ensures BooksWf(BooksOf(o, t1, t2))
    ensures Stream(BooksOf(o, t1, t2), lo, hi) == [VisitOf(o, t1, 0), VisitOf(o, t2, 1)]
  {
    hide Wf, Cell, Stream, CountedBy, TraceWellFormed, SlotAddr, BooksOf, BookOf, VisitOf, TwoWords;
    TwoWordsCounted(o, t1, t2);
    forall n | 0 <= n < CELLS
      ensures Cell(BooksOf(o, t1, t2), n)
              == if n == o * MAX_THREADS + t1 then [VisitOf(o, t1, 0)]
                 else if n == o * MAX_THREADS + t2 then [VisitOf(o, t2, 1)] else []
    {
      CellOfBooks(o, t1, t2, n);
    }
    TwoCellsStream(BooksOf(o, t1, t2), lo, o * MAX_THREADS + t1, o * MAX_THREADS + t2, hi, VisitOf(o, t1, 0), VisitOf(o, t2, 1));
  }

  // ---- What the planners make of them ----

  lemma {:induction false} TheWords()
    ensures SlotAddr(0x40_0000, 0) == 0xA000_0000 && SlotAddr(0x40_0000, 1) == 0xA000_0008
    ensures SlotAddr(0, 0) == 0x8000_0000 == PageBase(0) && SlotAddr(0, 2) == 0x8000_0010
  {
  }

  /** One-row segments of two neighbouring words of page 4: the second segment has a checkpoint of the
      first word's chunk, which counts nothing. */
  lemma {:induction false} CutLeavesCheckPoint()
    ensures var books := BooksOf(0x40_0000, 0, 1);
            && CountedBy(books, TwoWords(0x40_0000, 0, 1)) && BooksWf(books) && FirstCell(5) <= CELLS
            && var vs := Stream(books, FirstCell(4), FirstCell(5));
               && vs != [] && RowTotal(vs) == 2 == |Rows(vs)| && SliceOf(vs, 1, 1) == [Row(1, 0xA000_0008, 0)]
               && SegmentOf(vs, 1, 1) == map[0 := CheckPoint(0xA000_0000, 1, 0xA000_0000, 0, 0, 0),
                                             1 := CheckPoint(0xA000_0008, 0, 0xA000_0008, 1, 1, 1)]
  {
    hide SlotAddr, Stream, Wf, CountedBy, SegmentOf, SliceOf, Rows, RowTotal, BooksOf, TwoWords, PageBase;
    TheWords();
    TwoWordsCounted(0x40_0000, 0, 1);
    TwoWordsStream(0x40_0000, 0, 1, FirstCell(4), FirstCell(5));
    CheckPointWithoutRows(VisitOf(0x40_0000, 0, 0), VisitOf(0x40_0000, 1, 1));
  }

  /** Two-row segments of two words of page 0 with one word between them: the checkpoints of both segments
      count the second word's row. */
  lemma {:induction false} GapCountsTwice(segments: seq<Summary>)
    requires BooksWf(BooksOf(0, 0, 2)) && FirstCell(1) <= CELLS
    requires var vs := Stream(BooksOf(0, 0, 2), FirstCell(0), FirstCell(1));
             Finished(2, segments, Layout(PageBase(0), vs), GapTotal(PageBase(0), vs))
    ensures CountedBy(BooksOf(0, 0, 2), TwoWords(0, 0, 2))
    ensures |segments| == 2 && 1 in segments[0] && 1 in segments[1]
    ensures segments[0][1].count == 1 && segments[1][1].count == 1
    ensures segments[0][1].fromAddr == segments[1][1].fromAddr == 0x8000_0010
  {
    hide SlotAddr, Stream, Wf, CountedBy, Finished, Layout, GapTotal, PageBase, BooksOf, TwoWords;
    TheWords();
    TwoWordsCounted(0, 0, 2);
    TwoWordsStream(0, 0, 2, FirstCell(0), FirstCell(1));
    OneRowIsRecordedTwice(segments);
  }
}
