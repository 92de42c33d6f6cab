/** The object every planner must agree on: the visits to the counters' chains in scan order, the
    row stream they stand for, and its cut into segments of a fixed number of rows. Nothing here
    follows the planners' code; MemPlanner.dfy proves that the code computes it. */
module RowStream {
  import opened MemConfig
  import opened AddressMap
  import opened Chains
  import opened SlotHeap

  // ---- Visits ----

  /** One entry of a chain: where it lies, and which rows it stands for. */
  datatype Visit = Visit(thread: nat, offset: nat, cpos: nat, chunk: u32, addr: u32, count: u32)

  ghost predicate BooksWf(books: seq<Book>) {
    |books| == MAX_THREADS && forall t :: 0 <= t < MAX_THREADS ==> Wf(books[t])
  }

  const CELLS: nat := 0xA00_0000

  /** Offset and thread of a cell; cells are numbered in scan order. */
  function CellOffset(n: nat): nat { n / MAX_THREADS }
  function CellThread(n: nat): nat { n % MAX_THREADS }

  /** The visits one (offset, thread) pair gets. */
  function Cell(books: seq<Book>, n: nat): seq<Visit>
    requires BooksWf(books) && n < CELLS
  {
    var w := Walk(books[CellThread(n)], CellOffset(n));
    seq(|w|, k requires 0 <= k < |w| =>
      Visit(CellThread(n), CellOffset(n), w[k].cpos, w[k].chunk, SlotAddr(CellOffset(n), CellThread(n)), w[k].count))
  }

  function Stream(books: seq<Book>, lo: nat, hi: nat): seq<Visit>
    requires BooksWf(books) && hi <= CELLS
    decreases hi
  {
    if lo >= hi then [] else Stream(books, lo, hi - 1) + Cell(books, hi - 1)
  }

  lemma {:induction false} StreamGrows(books: seq<Book>, lo: nat, mid: nat, hi: nat)
    requires BooksWf(books) && mid <= hi <= CELLS
    ensures Stream(books, lo, mid) <= Stream(books, lo, hi)
    decreases hi
  {
    hide Cell, Wf;
    if mid == hi || hi <= lo {
    } else {
      StreamGrows(books, lo, mid, hi - 1);
    }
  }

  /** Cell n's visits stand in the stream just after those of the cells before it. */
  lemma {:induction false} CellInStream(books: seq<Book>, lo: nat, n: nat, hi: nat, k: nat)
    requires BooksWf(books) && lo <= n < hi <= CELLS && k < |Cell(books, n)|
    ensures |Stream(books, lo, n)| + |Cell(books, n)| == |Stream(books, lo, n + 1)| <= |Stream(books, lo, hi)|
    ensures Stream(books, lo, hi)[|Stream(books, lo, n)| + k] == Cell(books, n)[k]
  {
    hide Cell, Wf;
    StreamGrows(books, lo, n + 1, hi);
  }

  lemma {:induction false} EmptyCells(books: seq<Book>, lo: nat, a: nat, b: nat)
    requires BooksWf(books) && a <= b <= CELLS
    requires forall n :: a <= n < b ==> Cell(books, n) == []
    ensures Stream(books, lo, a) == Stream(books, lo, b)
    decreases b
  {
    hide Cell, Wf;
    if a >= b {
    } else {
      EmptyCells(books, lo, a, b - 1);
    }
  }

  /** Every visit of the stream comes from one place of one cell. */
  lemma {:induction false} Locate(books: seq<Book>, lo: nat, hi: nat, i: nat) returns (n: nat, k: nat)
    requires BooksWf(books) && hi <= CELLS && i < |Stream(books, lo, hi)|
    ensures lo <= n < hi && k < |Cell(books, n)| && i == |Stream(books, lo, n)| + k
    ensures Stream(books, lo, hi)[i] == Cell(books, n)[k]
    decreases hi
  {
    hide Cell, Wf;
    if i < |Stream(books, lo, hi - 1)| {
      n, k := Locate(books, lo, hi - 1, i);
    } else {
      n, k := hi - 1, i - |Stream(books, lo, hi - 1)|;
    }
  }

  lemma {:induction false} VisitInCell(books: seq<Book>, n: nat, k: nat)
    requires BooksWf(books) && n < CELLS && k < |Cell(books, n)|
    ensures CellOffset(n) < ADDR_TABLE_SIZE
    ensures Cell(books, n)[k].addr == SlotAddr(CellOffset(n), CellThread(n))
    ensures Cell(books, n)[k].offset == CellOffset(n) && Cell(books, n)[k].thread == CellThread(n)
  {
  }

  /** Addresses never decrease along the stream. */
  lemma {:induction false} StreamAscends(books: seq<Book>, lo: nat, hi: nat, i: nat, j: nat)
    requires BooksWf(books) && hi <= CELLS && i <= j < |Stream(books, lo, hi)|
    ensures Stream(books, lo, hi)[i].addr <= Stream(books, lo, hi)[j].addr
  {
    hide Cell, Wf, SlotAddr, Stream;
    var n1, k1 := Locate(books, lo, hi, i);
    var n2, k2 := Locate(books, lo, hi, j);
    VisitInCell(books, n1, k1);
    VisitInCell(books, n2, k2);
    if n2 < n1 {
      CellInStream(books, lo, n2, hi, k2);
      StreamGrows(books, lo, n2 + 1, n1);
    } else {
      ScanOrderIsAddressOrder(CellOffset(n1), CellThread(n1), CellOffset(n2), CellThread(n2));
    }
  }

  ghost predicate VisitsAscend(vs: seq<Visit>) {
    forall i, j :: 0 <= i <= j < |vs| ==> vs[i].addr <= vs[j].addr
  }

  /** What the stream of a counted trace looks like: ascending addresses, every entry with rows, and one
      entry at most for a chunk at an address. */
  ghost predicate Tidy(vs: seq<Visit>) {
    && VisitsAscend(vs)
    && (forall i :: 0 <= i < |vs| ==> vs[i].count > 0)
    && (forall i, j :: 0 <= i < j < |vs| && vs[i].addr == vs[j].addr ==> vs[i].chunk != vs[j].chunk)
  }

  lemma {:induction false} StreamVisitsAscend(books: seq<Book>, lo: nat, hi: nat)
    requires BooksWf(books) && hi <= CELLS
    ensures VisitsAscend(Stream(books, lo, hi))
  {
    hide Stream, Wf;
    forall i, j | 0 <= i <= j < |Stream(books, lo, hi)|
      ensures Stream(books, lo, hi)[i].addr <= Stream(books, lo, hi)[j].addr
    {
      StreamAscends(books, lo, hi, i, j);
    }
  }

  // ---- Rows ----

  datatype Row = Row(chunk: u32, addr: u32, index: nat)

  function RowsOf(chunk: u32, addr: u32, first: nat, count: nat): seq<Row> {
    seq(count, r requires 0 <= r < count => Row(chunk, addr, first + r))
  }

  /** The row stream: each visit stands for count rows of its chunk at its address. */
  function Rows(vs: seq<Visit>): seq<Row> {
    if vs == [] then [] else
      var v := vs[|vs| - 1];
      Rows(vs[..|vs| - 1]) + RowsOf(v.chunk, v.addr, 0, v.count)
  }

  /** The rows of the first i visits. */
  function RowsBefore(vs: seq<Visit>, i: nat): nat
    requires i <= |vs|
  {
    if i == 0 then 0 else RowsBefore(vs, i - 1) + vs[i - 1].count
  }

  function RowTotal(vs: seq<Visit>): nat {
    RowsBefore(vs, |vs|)
  }

  lemma {:induction false} RowsBeforeGrows(vs: seq<Visit>, i: nat, j: nat)
    requires i <= j <= |vs|
    ensures RowsBefore(vs, i) <= RowsBefore(vs, j)
    decreases j
  {
    if i >= j {
    } else {
      RowsBeforeGrows(vs, i, j - 1);
    }
  }

  lemma {:induction false} RowsBeforePrefix(vs: seq<Visit>, n: nat, i: nat)
    requires i <= n <= |vs|
    ensures RowsBefore(vs[..n], i) == RowsBefore(vs, i)
  {
    if i == 0 {
    } else {
      RowsBeforePrefix(vs, n, i - 1);
    }
  }

  lemma {:induction false} RowTotalIsLength(vs: seq<Visit>)
    ensures |Rows(vs)| == RowTotal(vs)
    decreases |vs|
  {
    if vs == [] {
    } else {
      RowTotalIsLength(vs[..|vs| - 1]);
      RowsBeforePrefix(vs, |vs| - 1, |vs| - 1);
    }
  }

  // ---- Cuts ----

  /** The visit holding row r, counting rows from 1, among the first n visits. */
  function EntryOf(vs: seq<Visit>, r: nat, n: nat): (i: nat)
    requires n <= |vs| && 1 <= r <= RowsBefore(vs, n)
    ensures i < n && RowsBefore(vs, i) < r <= RowsBefore(vs, i + 1)
  {
    if RowsBefore(vs, n - 1) < r then n - 1 else EntryOf(vs, r, n - 1)
  }

  lemma {:induction false} EntryIsUnique(vs: seq<Visit>, r: nat, n: nat, i: nat)
    requires n <= |vs| && 1 <= r <= RowsBefore(vs, n)
    requires i < |vs| && RowsBefore(vs, i) < r <= RowsBefore(vs, i + 1)
    ensures EntryOf(vs, r, n) == i
  {
    var e := EntryOf(vs, r, n);
    if e < i {
      RowsBeforeGrows(vs, e + 1, i);
    } else if i < e {
      RowsBeforeGrows(vs, i + 1, e);
    }
  }

  datatype Locator = Locator(thread: nat, offset: nat, cpos: nat, skip: nat)

  /** The resume point r rows into the stream: the entry holding row r, and how much of it is done. */
  function CutAt(vs: seq<Visit>, r: nat): Locator
    requires 1 <= r <= RowTotal(vs)
  {
    var i := EntryOf(vs, r, |vs|);
    Locator(vs[i].thread, vs[i].offset, vs[i].cpos, r - RowsBefore(vs, i))
  }

  ghost predicate CutIs(vs: seq<Visit>, r: nat, l: Locator) {
    1 <= r <= RowTotal(vs) && l == CutAt(vs, r)
  }

  /** The first locator names the first cell by the position of its last entry. */
  ghost predicate IsFirst(books: seq<Book>, v: Visit, l: Locator)
    requires BooksWf(books)
  {
    && v.thread < MAX_THREADS && v.offset in books[v.thread].lists
    && l == Locator(v.thread, v.offset, LastPos(books[v.thread], v.offset), 0)
  }

  /** The plan of a stream: where each segment of `rows` rows starts. */
  ghost predicate IsPlan(books: seq<Book>, vs: seq<Visit>, rows: nat, plan: seq<Locator>)
    requires BooksWf(books) && rows > 0
  {
    && |plan| == (if vs == [] then 0 else RowTotal(vs) / rows + 1)
    && (vs != [] ==> IsFirst(books, vs[0], plan[0]))
    && (forall k :: 1 <= k < |plan| ==> k * rows <= RowTotal(vs) && CutIs(vs, k * rows, plan[k]))
  }

  // ---- Segments ----

  datatype Piece = Piece(chunk: u32, addr: u32, skip: nat, count: nat)

  function Max(x: int, y: int): int { if x < y then y else x }
  function Min(x: int, y: int): int { if x < y then x else y }

  /** The part of visit i that lies in rows [a, b). */
  function PieceAt(vs: seq<Visit>, i: nat, a: nat, b: nat): Piece
    requires i < |vs|
  {
    var start, end := RowsBefore(vs, i), RowsBefore(vs, i + 1);
    Piece(vs[i].chunk, vs[i].addr, Max(0, a - start), Max(0, Min(b, end) - Max(a, start)))
  }

  function Pieces(vs: seq<Visit>, start: nat, end: nat, a: nat, b: nat): seq<Piece>
    requires start <= end <= |vs|
  {
    if start == end then [] else Pieces(vs, start, end - 1, a, b) + [PieceAt(vs, end - 1, a, b)]
  }

  /** A segment starting after row a resumes at the entry holding that row. */
  function FirstVisit(vs: seq<Visit>, a: nat): (i: nat)
    requires vs != [] && a <= RowTotal(vs)
    ensures i < |vs|
  {
    if a == 0 then 0 else EntryOf(vs, a, |vs|)
  }

  /** It ends with the entry holding row b, or with the stream. */
  function EndVisit(vs: seq<Visit>, b: nat): (j: nat)
    requires vs != []
    ensures 1 <= j <= |vs|
  {
    if 1 <= b <= RowTotal(vs) then EntryOf(vs, b, |vs|) + 1 else |vs|
  }

  lemma {:induction false} SegmentIsForward(vs: seq<Visit>, a: nat, b: nat)
    requires vs != [] && a <= RowTotal(vs) && a < b
    ensures FirstVisit(vs, a) < EndVisit(vs, b)
  {
    if a > 0 && b <= RowTotal(vs) {
      var i, j := EntryOf(vs, a, |vs|), EntryOf(vs, b, |vs|);
      if j < i {
        RowsBeforeGrows(vs, j + 1, i);
      }
    }
  }

  /** The pieces of segment [a, b). */
  function SegmentPieces(vs: seq<Visit>, a: nat, b: nat): seq<Piece>
    requires vs != [] && a <= RowTotal(vs) && a < b
  {
    SegmentIsForward(vs, a, b);
    Pieces(vs, FirstVisit(vs, a), EndVisit(vs, b), a, b)
  }

  function Expand(ps: seq<Piece>): seq<Row> {
    if ps == [] then [] else
      var p := ps[|ps| - 1];
      Expand(ps[..|ps| - 1]) + RowsOf(p.chunk, p.addr, p.skip, p.count)
  }

  lemma {:induction false} RowsOfPrefix(vs: seq<Visit>, i: nat)
    requires i <= |vs|
    ensures RowsBefore(vs, i) == |Rows(vs[..i])|
    ensures Rows(vs[..i]) <= Rows(vs)
    decreases |vs| - i
  {
    RowTotalIsLength(vs[..i]);
    RowsBeforePrefix(vs, i, i);
    if i < |vs| {
      RowsOfPrefix(vs, i + 1);
      assert vs[..i + 1][..i] == vs[..i];
    } else {
      assert vs[..i] == vs;
    }
  }

  /** Where the rows of a visit are. */
  lemma {:induction false} RowsOfVisit(vs: seq<Visit>, i: nat)
    requires i < |vs|
    ensures RowsBefore(vs, i + 1) == RowsBefore(vs, i) + vs[i].count <= |Rows(vs)|
    ensures forall r :: 0 <= r < vs[i].count ==> Rows(vs)[RowsBefore(vs, i) + r] == Row(vs[i].chunk, vs[i].addr, r)
  {
    RowsOfPrefix(vs, i);
    RowsOfPrefix(vs, i + 1);
    assert vs[..i + 1][..i] == vs[..i];
    var start, upTo := RowsBefore(vs, i), Rows(vs[..i + 1]);
    assert upTo == Rows(vs[..i]) + RowsOf(vs[i].chunk, vs[i].addr, 0, vs[i].count);
    hide Rows, RowsBefore;
    forall r | 0 <= r < vs[i].count
      ensures Rows(vs)[start + r] == Row(vs[i].chunk, vs[i].addr, r)
    {
      assert Rows(vs)[start + r] == upTo[start + r];
    }
  }

  /** A piece's rows are its slice of the row stream. */
  lemma {:induction false} PieceExpands(vs: seq<Visit>, i: nat, a: nat, b: nat)
    requires i < |vs| && a <= b && a <= RowsBefore(vs, i + 1)
    ensures var p, start, end := PieceAt(vs, i, a, b), RowsBefore(vs, i), RowsBefore(vs, i + 1);
            && end <= |Rows(vs)|
            && RowsOf(p.chunk, p.addr, p.skip, p.count) == Rows(vs)[Max(a, start)..Max(Max(a, start), Min(b, end))]
  {
    RowsOfVisit(vs, i);
    hide Rows, RowsBefore;
    var p, start, lo := PieceAt(vs, i, a, b), RowsBefore(vs, i), Max(a, RowsBefore(vs, i));
    forall r | 0 <= r < p.count
      ensures Rows(vs)[lo + r] == RowsOf(p.chunk, p.addr, p.skip, p.count)[r]
    {
      assert Rows(vs)[start + (p.skip + r)] == Row(p.chunk, p.addr, p.skip + r);
    }
  }

  lemma {:induction false} ExpandOneMore(vs: seq<Visit>, start: nat, end: nat, a: nat, b: nat)
    requires start < end <= |vs|
    ensures var p := PieceAt(vs, end - 1, a, b);
            Expand(Pieces(vs, start, end, a, b))
            == Expand(Pieces(vs, start, end - 1, a, b)) + RowsOf(p.chunk, p.addr, p.skip, p.count)
  {
  }

  lemma {:induction false} JoinSlices<T>(s: seq<T>, a: nat, b: nat, c: nat)
    requires a <= b <= c <= |s|
    ensures s[a..b] + s[b..c] == s[a..c]
  {
  }

  lemma {:induction false} NoPieces(vs: seq<Visit>, start: nat, a: nat, b: nat)
    requires start <= |vs|
    ensures Expand(Pieces(vs, start, start, a, b)) == []
  {
  }

  lemma {:induction false} PiecesExpand(vs: seq<Visit>, start: nat, end: nat, a: nat, b: nat)
    requires start < end <= |vs| && a < b
    requires RowsBefore(vs, start) <= a <= RowsBefore(vs, start + 1)
    ensures a <= RowsBefore(vs, end) <= RowTotal(vs) == |Rows(vs)|
    ensures Expand(Pieces(vs, start, end, a, b)) == Rows(vs)[a..Max(a, Min(b, RowsBefore(vs, end)))]
    decreases end
  {
    RowsBeforeGrows(vs, start + 1, end);
    RowsBeforeGrows(vs, end, |vs|);
    RowTotalIsLength(vs);
    PieceExpands(vs, end - 1, a, b);
    ExpandOneMore(vs, start, end, a, b);
    RowsBeforeGrows(vs, end - 1, end);
    var from, till := RowsBefore(vs, end - 1), RowsBefore(vs, end);
    hide Pieces, PieceAt, RowsOf, Rows, RowsBefore;
    if end - 1 > start {
      PiecesExpand(vs, start, end - 1, a, b);
      JoinSlices(Rows(vs), a, Max(a, Min(b, from)), Max(a, Min(b, till)));
    } else {
      NoPieces(vs, start, a, b);
    }
  }

  lemma {:induction false} SegmentBounds(vs: seq<Visit>, a: nat, b: nat)
    requires vs != [] && a <= RowTotal(vs) && a < b
    ensures RowsBefore(vs, FirstVisit(vs, a)) <= a <= RowsBefore(vs, FirstVisit(vs, a) + 1)
    ensures Max(a, Min(b, RowsBefore(vs, EndVisit(vs, b)))) == Min(b, RowTotal(vs))
  {
    assert RowsBefore(vs, 0) == 0;
    hide RowsBefore;
  }

  /** A segment's pieces stand for exactly its slice of the row stream. */
  lemma {:induction false} SegmentIsSlice(vs: seq<Visit>, a: nat, b: nat)
    requires vs != [] && a <= RowTotal(vs) && a < b
    ensures a <= Min(b, RowTotal(vs)) <= |Rows(vs)|
    ensures Expand(SegmentPieces(vs, a, b)) == Rows(vs)[a..Min(b, RowTotal(vs))]
  {
    hide Pieces, Expand, Rows, RowsBefore, FirstVisit, EndVisit;
    SegmentIsForward(vs, a, b);
    SegmentBounds(vs, a, b);
    RowTotalIsLength(vs);
    PiecesExpand(vs, FirstVisit(vs, a), EndVisit(vs, b), a, b);
  }
}
