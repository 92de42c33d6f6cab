/** The eight counters as the planners read them: by cell, in scan order. Counting is over before
    planning starts (mem_count_and_plan.hpp:97-120), so the counters no longer change. */
module Workers {
  import opened MemConfig
  import opened AddressMap
  import opened Chains
  import opened SlotHeap
  import opened RowStream
  import MC = MemCounter

  /** Worker t holds books[t]. */
  ghost predicate Ready(workers: seq<MC.MemCounter>, books: seq<Book>)
    reads workers, set w | w in workers :: w.slots, set w | w in workers :: w.table
    reads set w | w in workers :: w.firstOffset, set w | w in workers :: w.lastOffset
  {
    && |workers| == MAX_THREADS && BooksWf(books)
    && forall t :: 0 <= t < MAX_THREADS ==> workers[t].Valid() && workers[t].book == books[t]
  }

  lemma {:induction false} CellReads(workers: seq<MC.MemCounter>, books: seq<Book>, n: nat)
    requires Ready(workers, books) && n < CELLS
    ensures |workers| == MAX_THREADS && BooksWf(books) && CellOffset(n) < ADDR_TABLE_SIZE
    ensures var w, o, c := workers[CellThread(n)], CellOffset(n), Cell(books, n);
            && w.Sized()
            && (w.GetAddrTable(o) == 0 <==> c == [])
            && (c != [] ==>
                  && o in books[CellThread(n)].lists && w.GetAddrTable(o) == LastPos(books[CellThread(n)], o)
                  && w.GetInitialPos(w.GetAddrTable(o)) == Some(c[0].cpos))
  {
    var w := workers[CellThread(n)];
    assert w.Valid() && w.book == books[CellThread(n)];
    w.TableReads(CellOffset(n));
  }

  lemma {:induction false} VisitReads(workers: seq<MC.MemCounter>, books: seq<Book>, n: nat, k: nat)
    requires Ready(workers, books) && BooksWf(books) && n < CELLS && k < |Cell(books, n)|
    ensures |workers| == MAX_THREADS && CellOffset(n) < ADDR_TABLE_SIZE
    ensures var w, c := workers[CellThread(n)], Cell(books, n);
            && w.Sized() && 0 < c[k].cpos && c[k].cpos + 1 < ADDR_SLOTS_SIZE
            && w.GetPosValue(c[k].cpos) == c[k].chunk && w.GetPosValue(c[k].cpos + 1) == c[k].count
            && (k + 1 < |c| ==> w.GetNextPos(c[k].cpos + 1) == c[k + 1].cpos)
            && (c[k].cpos == w.GetAddrTable(CellOffset(n)) <==> k + 1 == |c|)
            && c[k].thread == CellThread(n) && c[k].offset == CellOffset(n)
            && OffsetToAddr(CellOffset(n), CellThread(n)) == Some(c[k].addr)
  {
    hide MC.Holds, Wf;
    var w, c := workers[CellThread(n)], Cell(books, n);
    assert w.Valid() && w.book == books[CellThread(n)];
    w.StepReads(CellOffset(n), k);
    OffsetRoundTrip(CellOffset(n), CellThread(n));
    if k + 1 < |c| {
      assert c[k + 1].cpos == Walk(w.book, CellOffset(n))[k + 1].cpos;
    }
  }

  function FirstCell(page: nat): nat {
    page * ADDR_PAGE_SIZE * MAX_THREADS
  }

  /** Offsets [first, last] of a page are all that is used of it; an empty page gives an empty range. */
  ghost predicate CoversPage(books: seq<Book>, page: nat, first: u32, last: u32)
    requires BooksWf(books) && page < MAX_PAGES
  {
    && (last < first ==> first == EMPTY_PAGE)
    && (first <= last ==> OffsetToPage(first) == page && OffsetToPage(last) == page)
    && (forall n :: FirstCell(page) <= n < FirstCell(page + 1) && Cell(books, n) != [] ==> first <= CellOffset(n) <= last)
  }

  lemma {:induction false} CellsOfPage(page: nat, n: nat)
    requires page < MAX_PAGES
    ensures FirstCell(page) <= n < FirstCell(page + 1) <==> OffsetToPage(CellOffset(n)) == page
    ensures FirstCell(page + 1) <= CELLS
  {
  }

  /** Some worker has counted at the offset. */
  ghost predicate Used(books: seq<Book>, o: nat) {
    exists t :: 0 <= t < |books| && o in books[t].lists
  }

  ghost predicate IsMinOf(x: u32, xs: seq<u32>) {
    x in xs && forall t :: 0 <= t < |xs| ==> x <= xs[t]
  }

  ghost predicate IsMaxOf(x: u32, xs: seq<u32>) {
    x in xs && forall t :: 0 <= t < |xs| ==> xs[t] <= x
  }

  ghost predicate WorkerLimits(books: seq<Book>, page: nat, firsts: seq<u32>, lasts: seq<u32>) {
    && |books| == |firsts| == |lasts| == MAX_THREADS
    && forall t :: 0 <= t < MAX_THREADS ==> MC.LimitsHold(firsts[t], lasts[t], books[t], page)
  }

  lemma {:induction false} LimitsCover(books: seq<Book>, page: nat, firsts: seq<u32>, lasts: seq<u32>, first: u32, last: u32)
    requires BooksWf(books) && page < MAX_PAGES && WorkerLimits(books, page, firsts, lasts)
    requires IsMinOf(first, firsts) && IsMaxOf(last, lasts)
    ensures CoversPage(books, page, first, last)
    ensures first <= last ==> Used(books, first) && Used(books, last)
  {
    hide Wf, OffsetToPage;
    var t1 :| 0 <= t1 < MAX_THREADS && first == firsts[t1];
    var t2 :| 0 <= t2 < MAX_THREADS && last == lasts[t2];
    assert MC.LimitsHold(firsts[t1], lasts[t1], books[t1], page);
    assert MC.LimitsHold(firsts[t2], lasts[t2], books[t2], page);
    if first <= last {
      assert first in books[t1].lists;
      assert last in books[t2].lists || last == lasts[t1];
    }
    forall n | FirstCell(page) <= n < FirstCell(page + 1) && Cell(books, n) != []
      ensures first <= CellOffset(n) <= last
    {
      CellsOfPage(page, n);
      var t := CellThread(n);
      assert MC.LimitsHold(firsts[t], lasts[t], books[t], page);
    }
  }

  lemma {:induction false} ReadyLimits(workers: seq<MC.MemCounter>, books: seq<Book>, page: nat) returns (firsts: seq<u32>, lasts: seq<u32>)
    requires Ready(workers, books) && page < MAX_PAGES
    ensures |workers| == MAX_THREADS && forall t :: 0 <= t < MAX_THREADS ==> workers[t].Sized()
    ensures WorkerLimits(books, page, firsts, lasts)
    ensures forall t :: 0 <= t < MAX_THREADS ==>
              workers[t].firstOffset[page] == firsts[t] && workers[t].lastOffset[page] == lasts[t]
  {
    hide MC.Holds, Wf;
    firsts, lasts := [], [];
    for t := 0 to MAX_THREADS
      invariant |firsts| == |lasts| == t
      invariant forall i :: 0 <= i < t ==> workers[i].Sized()
      invariant forall i :: 0 <= i < t ==>
        workers[i].firstOffset[page] == firsts[i] && workers[i].lastOffset[page] == lasts[i]
      invariant forall i :: 0 <= i < t ==> MC.LimitsHold(firsts[i], lasts[i], books[i], page)
    {
      assert workers[t].Valid() && workers[t].book == books[t];
      workers[t].PageLimits(page);
      firsts, lasts := firsts + [workers[t].firstOffset[page]], lasts + [workers[t].lastOffset[page]];
    }
  }

  method MinAndMax(workers: seq<MC.MemCounter>, page: nat, ghost firsts: seq<u32>, ghost lasts: seq<u32>)
    returns (first: u32, last: u32)
    requires |workers| == |firsts| == |lasts| == MAX_THREADS && page < MAX_PAGES
    requires forall t :: 0 <= t < MAX_THREADS ==>
               workers[t].Sized() && workers[t].firstOffset[page] == firsts[t] && workers[t].lastOffset[page] == lasts[t]
    ensures IsMinOf(first, firsts) && IsMaxOf(last, lasts)
  {
    first, last := workers[0].firstOffset[page], workers[0].lastOffset[page];
    for i := 1 to MAX_THREADS
      invariant first in firsts && forall t :: 0 <= t < i ==> first <= firsts[t]
      invariant last in lasts && forall t :: 0 <= t < i ==> lasts[t] <= last
    {
      first := if workers[i].firstOffset[page] < first then workers[i].firstOffset[page] else first;
      last := if last < workers[i].lastOffset[page] then workers[i].lastOffset[page] else last;
    }
  }

  /** get_offset_limits of both planners (mem_planner.hpp:292-299). */
  method GetOffsetLimits(workers: seq<MC.MemCounter>, page: nat, ghost books: seq<Book>) returns (first: u32, last: u32)
    requires Ready(workers, books) && BooksWf(books) && page < MAX_PAGES
    ensures CoversPage(books, page, first, last)
    ensures first <= last ==> Used(books, first) && Used(books, last)
  {
    hide MC.Holds, Wf;
    ghost var firsts, lasts := ReadyLimits(workers, books, page);
    first, last := MinAndMax(workers, page, firsts, lasts);
    LimitsCover(books, page, firsts, lasts, first, last);
  }

  /** Scanning [first, last] of a page is scanning all its cells. */
  lemma {:induction false} PageIsCovered(books: seq<Book>, lo: nat, page: nat, first: u32, last: u32)
    requires BooksWf(books) && page < MAX_PAGES && CoversPage(books, page, first, last)
    ensures FirstCell(page + 1) <= CELLS
    ensures if first <= last then
              && FirstCell(page) <= first * MAX_THREADS && (last + 1) * MAX_THREADS <= FirstCell(page + 1)
              && Stream(books, lo, first * MAX_THREADS) == Stream(books, lo, FirstCell(page))
              && Stream(books, lo, (last + 1) * MAX_THREADS) == Stream(books, lo, FirstCell(page + 1))
            else
              Stream(books, lo, FirstCell(page)) == Stream(books, lo, FirstCell(page + 1))
  {
    hide Cell, Wf, Stream;
    CellsOfPage(page, 0);
    if first <= last {
      CellsOfPage(page, first * MAX_THREADS);
      CellsOfPage(page, last * MAX_THREADS + 7);
      EmptyCells(books, lo, FirstCell(page), first * MAX_THREADS);
      EmptyCells(books, lo, (last + 1) * MAX_THREADS, FirstCell(page + 1));
    } else {
      EmptyCells(books, lo, FirstCell(page), FirstCell(page + 1));
    }
  }

  // ---- Which words a planner scans ----

  /** The planners' constructors (mem_planner.hpp:94-100, immutable_mem_planner.hpp:77-83): the page of
      the first byte and the page of the last one. None is a runtime_error. */
  function PagesOf(fromAddr: u32, mbSize: u32): Option<(nat, nat)> {
    var from, to := AddrToPage(fromAddr), AddrToPage(Wrap(fromAddr + mbSize * 0x10_0000 - 1));
    if from == None || to == None || PageToAddr(from.value) != Some(fromAddr) then None
    else Some((from.value, to.value))
  }

  function CellOf(addr: u32): nat
    requires AddrToOffset(addr).Some?
  {
    AddrToOffset(addr).value * MAX_THREADS + Owner(addr)
  }

  /** The cell of an address is the one whose word it lies in. */
  lemma {:induction false} CellOfWord(addr: u32)
    requires AddrToOffset(addr).Some?
    ensures CellOf(addr) < CELLS && OffsetToAddr(CellOffset(CellOf(addr)), CellThread(CellOf(addr))) == Some(WordOf(addr))
  {
    AddrRoundTrip(addr);
    hide AddrToPage, AddrToOffset, OffsetToAddr;
  }

  lemma {:induction false} PagesFollowAddresses(a: u32, b: u32)
    requires a <= b && AddrToPage(a).Some? && AddrToPage(b).Some?
    ensures AddrToPage(a).value <= AddrToPage(b).value < MAX_PAGES
  {
  }

  /** The loops run over pages [fromPage, toPage), so of the planned memory a word is scanned exactly if
      it does not lie in the page of the last byte. */
  lemma {:induction false} LastPageIsNotScanned(fromAddr: u32, mbSize: u32, addr: u32)
    requires PagesOf(fromAddr, mbSize).Some? && fromAddr + mbSize * 0x10_0000 <= WORD && 0 < mbSize
    requires fromAddr <= addr < fromAddr + mbSize * 0x10_0000 && AddrToOffset(addr).Some?
    ensures AddrToPage(addr).Some?
    ensures var (fromPage, toPage) := PagesOf(fromAddr, mbSize).value;
            && AddrToPage(fromAddr) == Some(fromPage) && AddrToPage(fromAddr + mbSize * 0x10_0000 - 1) == Some(toPage)
            && (FirstCell(fromPage) <= CellOf(addr) < FirstCell(toPage) <==> AddrToPage(addr).value != toPage)
    ensures CellOf(addr) < CELLS && OffsetToAddr(CellOffset(CellOf(addr)), CellThread(CellOf(addr))) == Some(WordOf(addr))
  {
    AddrRoundTrip(addr);
    CellOfWord(addr);
    hide AddrToPage, AddrToOffset, PageToAddr, OffsetToAddr;
    var last := Wrap(fromAddr + mbSize * 0x10_0000 - 1);
    PagesFollowAddresses(fromAddr, addr);
    PagesFollowAddresses(addr, last);
    var n, p := CellOf(addr), AddrToPage(addr).value;
    assert CellOffset(n) == AddrToOffset(addr).value;
    CellsOfPage(p, n);
  }

  /** The three planners of the program (mem_count_and_plan.hpp:82-88) leave out their last page:
      page 11 of the RAM, page 1 of the ROM and page 3 of the input. */
  lemma {:induction false} ConfiguredPages()
    ensures PagesOf(0xA000_0000, 512) == Some((4, 11))
    ensures PagesOf(0x8000_0000, 128) == Some((0, 1))
    ensures PagesOf(0x9000_0000, 128) == Some((2, 3))
  {
  }
}
