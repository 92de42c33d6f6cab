/** The row axis of the sequential planner: every visit's rows, preceded by one implicit row for each
    word skipped since the previous visit, cut into segments of equal length. Nothing here follows the
    planner's loops; GapPlanner.dfy proves that they compute it. */
module GapRows {
  import opened MemConfig
  import opened RowStream
  import opened CheckPoints

  /** An operation on the row axis: after gap implicit rows, count rows from start on. */
  datatype Placed = Placed(chunk: u32, addr: u32, gap: nat, start: nat, count: nat)

  function EndOf(p: Placed): nat { p.start + p.count }

  function End(ops: seq<Placed>): nat {
    if ops == [] then 0 else EndOf(ops[|ops| - 1])
  }

  /** The words strictly between two accessed ones. */
  function GapWords(prev: u32, addr: u32): nat {
    if addr - prev > 8 then (addr - prev - 8) / 8 else 0
  }

  function LastAddr(base: u32, vs: seq<Visit>): u32 {
    if vs == [] then base else vs[|vs| - 1].addr
  }

  /** The visits of a stream on the row axis; the base address counts as accessed. */
  function Layout(base: u32, vs: seq<Visit>): seq<Placed> {
    if vs == [] then [] else
      var front, v := vs[..|vs| - 1], vs[|vs| - 1];
      var gap := GapWords(LastAddr(base, front), v.addr);
      Layout(base, front) + [Placed(v.chunk, v.addr, gap, End(Layout(base, front)) + gap, v.count)]
  }

  /** All rows: those of the visits and those of the gaps. */
  function GapTotal(base: u32, vs: seq<Visit>): nat {
    if vs == [] then 0 else
      var front, v := vs[..|vs| - 1], vs[|vs| - 1];
      GapTotal(base, front) + GapWords(LastAddr(base, front), v.addr) + v.count
  }

  lemma {:induction false} LayoutEnds(base: u32, vs: seq<Visit>)
    ensures |Layout(base, vs)| == |vs| && End(Layout(base, vs)) == GapTotal(base, vs)
    decreases |vs|
  {
    if vs == [] {
    } else {
      LayoutEnds(base, vs[..|vs| - 1]);
    }
  }

  // ---- How many words a gap skips ----

  predicate OnWord(base: int, w: int) {
    (w - base) % 8 == 0
  }

  /** The words strictly between two words. */
  function WordsBetween(prev: u32, addr: u32): set<int> {
    set w: int | prev < w < addr && OnWord(prev, w)
  }

  /** A gap is as long as the words it skips are many: the next word accessed is that many and one further. */
  lemma {:induction false} GapIsDistance(prev: u32, addr: u32)
    requires prev < addr && (addr - prev) % 8 == 0
    ensures addr == prev + 8 * (GapWords(prev, addr) + 1)
  {
  }

  lemma {:induction false} GapCountsWords(prev: u32, addr: u32)
    requires prev <= addr && (addr - prev) % 8 == 0
    ensures |WordsBetween(prev, addr)| == GapWords(prev, addr)
    decreases addr
  {
    if addr <= prev + 8 {
      assert WordsBetween(prev, addr) == {};
    } else {
      GapCountsWords(prev, addr - 8);
      assert WordsBetween(prev, addr) == WordsBetween(prev, addr - 8) + {(addr - 8) as int};
    }
  }

  ghost predicate Visited(vs: seq<Visit>, w: int) {
    exists i :: 0 <= i < |vs| && vs[i].addr == w
  }

  /** The words between the base and the last visited address that are not visited. */
  ghost function SkippedWords(base: u32, vs: seq<Visit>): set<int> {
    if vs == [] then {} else
      set w: int | base < w < vs[|vs| - 1].addr && OnWord(base, w) && !Visited(vs, w)
  }

  /** The visits ascend from the base, at word addresses. */
  ghost predicate FromBase(base: u32, vs: seq<Visit>) {
    VisitsAscend(vs) && forall i :: 0 <= i < |vs| ==> base <= vs[i].addr && OnWord(base, vs[i].addr)
  }

  /** A word is skipped on the way to a visit if it is skipped before, or lies behind the visit before. */
  lemma {:induction false} SkippedAt(base: u32, vs: seq<Visit>, w: int)
    requires FromBase(base, vs) && vs != [] && base < w < vs[|vs| - 1].addr && OnWord(base, w)
    ensures var front := vs[..|vs| - 1];
            w in SkippedWords(base, vs) <==> w in SkippedWords(base, front) || LastAddr(base, front) < w
  {
    var front, v := vs[..|vs| - 1], vs[|vs| - 1];
    var last := LastAddr(base, front);
    forall i | 0 <= i < |front|
      ensures front[i].addr <= last && front[i].addr == vs[i].addr
    {
      assert vs[i].addr <= vs[|vs| - 2].addr;
    }
    assert Visited(vs, w) <==> Visited(front, w) by {
      if i :| 0 <= i < |vs| && vs[i].addr == w {
        assert front[i].addr == w;
      }
    }
    if w == last {
      assert front[|front| - 1].addr == w;
    }
  }

  lemma {:induction false} MoreSkippedWords(base: u32, vs: seq<Visit>)
    requires FromBase(base, vs) && vs != []
    ensures var front, v := vs[..|vs| - 1], vs[|vs| - 1];
            && LastAddr(base, front) <= v.addr && (v.addr - LastAddr(base, front)) % 8 == 0
            && SkippedWords(base, vs) == SkippedWords(base, front) + WordsBetween(LastAddr(base, front), v.addr)
            && SkippedWords(base, front) !! WordsBetween(LastAddr(base, front), v.addr)
  {
    var front, v := vs[..|vs| - 1], vs[|vs| - 1];
    var last := LastAddr(base, front);
    assert front != [] ==> last == vs[|vs| - 2].addr <= v.addr;
    assert OnWord(base, v.addr) && base <= last && OnWord(base, last);
    forall w: int | base < w < v.addr && OnWord(base, w)
      ensures w in SkippedWords(base, vs) <==> w in SkippedWords(base, front) || w in WordsBetween(last, v.addr)
    {
      SkippedAt(base, vs, w);
    }
  }

  /** The rows of the axis: those of the visits, and one for every word skipped on the way. */
  lemma {:induction false} GapTotalIs(base: u32, vs: seq<Visit>)
    requires FromBase(base, vs)
    ensures GapTotal(base, vs) == RowTotal(vs) + |SkippedWords(base, vs)|
    decreases |vs|
  {
    if vs == [] {
    } else {
      var front, v := vs[..|vs| - 1], vs[|vs| - 1];
      assert FromBase(base, front);
      GapTotalIs(base, front);
      MoreSkippedWords(base, vs);
      GapCountsWords(LastAddr(base, front), v.addr);
      RowsBeforePrefix(vs, |front|, |front|);
    }
  }

  /** Where a visit lies on the axis: behind the rows of the visits before it and the words skipped so far. */
  lemma {:induction false} LayoutPlaces(base: u32, vs: seq<Visit>, i: nat)
    requires FromBase(base, vs) && i < |vs|
    ensures |Layout(base, vs)| == |vs|
    ensures var p := Layout(base, vs)[i];
            && p.chunk == vs[i].chunk && p.addr == vs[i].addr && p.count == vs[i].count
            && p.start == RowsBefore(vs, i) + |SkippedWords(base, vs[..i + 1])|
    decreases |vs|
  {
    hide SkippedWords;
    var front := vs[..|vs| - 1];
    LayoutEnds(base, vs);
    LayoutEnds(base, front);
    assert FromBase(base, front);
    hide FromBase;
    if i == |front| {
      assert vs[..i + 1] == vs;
      GapTotalIs(base, vs);
    } else {
      RowsBeforePrefix(vs, |front|, i);
      LayoutPlaces(base, front, i);
      assert front[..i + 1] == vs[..i + 1];
    }
  }

  // ---- What a segment [a, b) of the row axis records ----

  /** The rows of an operation that lie in the segment; and, oddly, one extra row in a segment for an
      operation that starts where the segment ends, if a gap led up to it. */
  function OpEvents(p: Placed, a: nat, b: nat): seq<Piece> {
    var n := Min(EndOf(p), b) - Max(p.start, a);
    if n > 0 then [Piece(p.chunk, p.addr, Max(0, a - p.start), n)]
    else if p.gap > 0 && p.start == b then [Piece(p.chunk, p.addr, 0, 1)]
    else []
  }

  function OpsEvents(ops: seq<Placed>, a: nat, b: nat): seq<Piece> {
    if ops == [] then [] else OpsEvents(ops[..|ops| - 1], a, b) + OpEvents(ops[|ops| - 1], a, b)
  }

  /** The resume point of a segment: the last operation started before it, and its rows already placed. */
  function Resume(ops: seq<Placed>, a: nat): seq<Piece> {
    if ops == [] then [] else
      var p := ops[|ops| - 1];
      if p.start < a then [Piece(p.chunk, p.addr, Min(p.count, a - p.start), 0)] else Resume(ops[..|ops| - 1], a)
  }

  function Events(ops: seq<Placed>, a: nat, b: nat): seq<Piece> {
    Resume(ops, a) + OpsEvents(ops, a, b)
  }

  function Grow(ops: seq<Placed>, n: nat): seq<Placed>
    requires ops != []
  {
    ops[|ops| - 1 := ops[|ops| - 1].(count := ops[|ops| - 1].count + n)]
  }

  /** An operation that has placed no rows yet changes no segment, but for the odd extra row. */
  lemma {:induction false} StartChanges(ops: seq<Placed>, p: Placed, a: nat, b: nat)
    requires p.count == 0 && a <= p.start && a < b
    ensures Events(ops + [p], a, b)
            == Events(ops, a, b) + if p.gap > 0 && p.start == b then [Piece(p.chunk, p.addr, 0, 1)] else []
  {
  }

  /** Rows placed in a segment are one more piece of it. */
  lemma {:induction false} RowsArePiece(ops: seq<Placed>, n: nat, a: nat, b: nat)
    requires ops != [] && n > 0
    requires var p := ops[|ops| - 1]; a <= EndOf(p) && EndOf(p) + n <= b && (p.count == 0 || EndOf(p) == a)
    ensures var p := ops[|ops| - 1];
            Events(Grow(ops, n), a, b) == Events(ops, a, b) + [Piece(p.chunk, p.addr, p.count, n)]
  {
  }

  lemma {:induction false} NothingInNewSegment(ops: seq<Placed>, a: nat, b: nat)
    requires a < b && forall i :: 0 <= i < |ops| ==> EndOf(ops[i]) <= a
    ensures OpsEvents(ops, a, b) == []
    decreases |ops|
  {
    if ops == [] {
    } else {
      NothingInNewSegment(ops[..|ops| - 1], a, b);
    }
  }

  lemma {:induction false} FoldSnoc(ps: seq<Piece>, p: Piece)
    ensures Fold(ps + [p]) == Updated(Fold(ps), p.chunk, p.addr, Wrap(p.skip), Wrap(p.count))
  {
  }

  // ---- The planner's state against the row axis ----

  datatype Mark = Mark(chunk: u32, addr: u32, skip: nat)

  /** What the planner keeps: rows left in the current segment, the reference operation, the closed
      segments and the current one. */
  datatype Progress = Progress(available: nat, reference: Option<Mark>, closed: seq<Summary>, current: Summary)

  /** The operations are in order and the last of them is the reference. */
  ghost predicate InOrder(reference: Option<Mark>, ops: seq<Placed>, at: nat) {
    && End(ops) <= at
    && (forall i :: 0 <= i < |ops| ==> EndOf(ops[i]) <= End(ops))
    && reference == (if ops == [] then None
                     else Some(Mark(ops[|ops| - 1].chunk, ops[|ops| - 1].addr, ops[|ops| - 1].count)))
  }

  /** The first row of segment j: j * rows, spelled without a product. */
  function From(rows: nat, j: nat): nat {
    if j == 0 then 0 else From(rows, j - 1) + rows
  }

  lemma {:induction false} FromIsProduct(rows: nat, j: nat)
    ensures From(rows, j) == j * rows
  {
    if j == 0 {
    } else {
      FromIsProduct(rows, j - 1);
      MulStep(j - 1, rows);
    }
  }

  lemma {:induction false} FromOrder(rows: nat, j: nat, m: nat)
    ensures From(rows, 0) == 0 && From(rows, m + 1) == From(rows, m) + rows
    ensures j < m ==> From(rows, j) + rows <= From(rows, m)
    decreases m
  {
    if j >= m {
    } else {
      FromOrder(rows, j, m - 1);
    }
  }

  ghost predicate SegmentIs(ops: seq<Placed>, rows: nat, j: nat, m: Summary) {
    m == Fold(Events(ops, From(rows, j), From(rows, j) + rows))
  }

  /** With `at` rows placed: so many segments are full, and every segment so far, closed or current,
      records exactly its part of the row axis. */
  ghost predicate Good(rows: nat, g: Progress, ops: seq<Placed>, at: nat) {
    && rows > 0 && g.available <= rows && at + g.available == From(rows, |g.closed|) + rows
    && InOrder(g.reference, ops, at)
    && (forall i :: 0 <= i < |ops| ==> ops[i].start < From(rows, |g.closed|) + rows)
    && (forall j :: 0 <= j < |g.closed| ==> SegmentIs(ops, rows, j, g.closed[j]))
    && SegmentIs(ops, rows, |g.closed|, g.current)
  }

  function Opened(g: Progress, rows: nat): Progress {
    Progress(rows, g.reference, g.closed + [g.current],
             match g.reference
             case None => map[]
             case Some(r) => Updated(map[], r.chunk, r.addr, Wrap(r.skip), 0))
  }

  lemma {:induction false} NewSegmentResumes(rows: nat, g: Progress, ops: seq<Placed>, at: nat)
    requires rows > 0 && InOrder(g.reference, ops, at) && forall i :: 0 <= i < |ops| ==> ops[i].start < at
    ensures Opened(g, rows).current == Fold(Events(ops, at, at + rows))
  {
    NothingInNewSegment(ops, at, at + rows);
    if ops != [] {
      var p := ops[|ops| - 1];
      assert Events(ops, at, at + rows) == [] + [Piece(p.chunk, p.addr, p.count, 0)];
      FoldSnoc([], Piece(p.chunk, p.addr, p.count, 0));
    }
  }

  lemma {:induction false} OpenedIsGood(rows: nat, g: Progress, ops: seq<Placed>, at: nat)
    requires Good(rows, g, ops, at) && g.available == 0
    ensures Good(rows, Opened(g, rows), ops, at)
  {
    hide From, Updated, Fold;
    var g', m := Opened(g, rows), |g.closed|;
    FromOrder(rows, 0, m);
    NewSegmentResumes(rows, g, ops, at);
    assert SegmentIs(ops, rows, m + 1, g'.current);
    forall j | 0 <= j < |g'.closed|
      ensures SegmentIs(ops, rows, j, g'.closed[j])
    {
      if j < m {
        assert g'.closed[j] == g.closed[j];
      }
    }
  }

  /** Implicit rows use up the segment and are recorded nowhere. */
  lemma {:induction false} GapIsGood(rows: nat, g: Progress, ops: seq<Placed>, at: nat, n: nat)
    requires Good(rows, g, ops, at) && n <= g.available
    ensures Good(rows, g.(available := g.available - n), ops, at + n)
  {
  }

  lemma {:induction false} StartKeepsEvents(ops: seq<Placed>, p: Placed, a: nat, b: nat)
    requires p.count == 0 && a <= p.start && a < b && (p.gap > 0 ==> p.start != b)
    ensures Events(ops + [p], a, b) == Events(ops, a, b)
  {
  }

  lemma {:induction false} StartKeepsClosed(rows: nat, ops: seq<Placed>, p: Placed, j: nat, m: Summary)
    requires rows > 0 && SegmentIs(ops, rows, j, m) && p.count == 0 && From(rows, j) <= p.start
    requires p.gap > 0 ==> p.start != From(rows, j) + rows
    ensures SegmentIs(ops + [p], rows, j, m)
  {
    hide Events, Fold;
    StartKeepsEvents(ops, p, From(rows, j), From(rows, j) + rows);
  }

  lemma {:induction false} StartKeepsOrder(reference: Option<Mark>, ops: seq<Placed>, at: nat, p: Placed)
    requires InOrder(reference, ops, at) && p.count == 0 && p.start == at
    ensures InOrder(Some(Mark(p.chunk, p.addr, 0)), ops + [p], at)
  {
  }

  /** A new operation at `at`, its segment having room. */
  lemma {:induction false} NewOpIsGood(rows: nat, g: Progress, ops: seq<Placed>, at: nat, p: Placed)
    requires Good(rows, g, ops, at) && g.available > 0
    requires p.count == 0 && p.start == at && End(ops) + p.gap == at
    requires p.gap > 0 ==> at > From(rows, |g.closed|)
    ensures Good(rows, g.(reference := Some(Mark(p.chunk, p.addr, 0))), ops + [p], at)
  {
    hide From, SegmentIs, InOrder;
    var m, ops' := |g.closed|, ops + [p];
    StartKeepsOrder(g.reference, ops, at, p);
    forall j | 0 <= j < m
      ensures SegmentIs(ops', rows, j, g.closed[j])
    {
      FromOrder(rows, j, m);
      StartKeepsClosed(rows, ops, p, j, g.closed[j]);
    }
    StartKeepsClosed(rows, ops, p, m, g.current);
  }

  /** The full segment gets one extra row for an operation that a gap led up to. */
  function WithExtraRow(g: Progress, p: Placed): Progress {
    if p.gap > 0 then g.(current := Updated(g.current, p.chunk, p.addr, 0, 1)) else g
  }

  lemma {:induction false} ExtraRowIsRecorded(rows: nat, g: Progress, ops: seq<Placed>, p: Placed)
    requires rows > 0 && SegmentIs(ops, rows, |g.closed|, g.current) && p.count == 0
    requires p.start == From(rows, |g.closed|) + rows
    ensures SegmentIs(ops + [p], rows, |g.closed|, WithExtraRow(g, p).current)
  {
    hide From, Updated, Fold;
    var a, b := From(rows, |g.closed|), From(rows, |g.closed|) + rows;
    StartChanges(ops, p, a, b);
    if p.gap > 0 {
      FoldSnoc(Events(ops, a, b), Piece(p.chunk, p.addr, 0, 1));
    } else {
      assert Events(ops, a, b) + [] == Events(ops, a, b);
    }
  }

  /** A new operation where a segment ends: the full segment gets its extra row if there is a gap, and
      the next one is opened. */
  lemma {:induction false} NewOpAtEndIsGood(rows: nat, g: Progress, ops: seq<Placed>, at: nat, p: Placed)
    requires Good(rows, g, ops, at) && g.available == 0
    requires p.count == 0 && p.start == at && End(ops) + p.gap == at
    ensures Good(rows, Opened(WithExtraRow(g, p), rows).(reference := Some(Mark(p.chunk, p.addr, 0))), ops + [p], at)
  {
    hide From, SegmentIs, InOrder, Updated;
    var m, ops', g' := |g.closed|, ops + [p], Opened(WithExtraRow(g, p), rows);
    OpenedIsGood(rows, g, ops, at);
    StartKeepsOrder(g.reference, ops, at, p);
    FromOrder(rows, 0, m);
    forall j | 0 <= j < m + 1
      ensures SegmentIs(ops', rows, j, g'.closed[j])
    {
      if j < m {
        FromOrder(rows, j, m);
        StartKeepsClosed(rows, ops, p, j, g.closed[j]);
        assert g'.closed[j] == g.closed[j];
      } else {
        ExtraRowIsRecorded(rows, g, ops, p);
      }
    }
    assert SegmentIs(ops, rows, m + 1, Opened(g, rows).current) && g'.current == Opened(g, rows).current;
    StartKeepsClosed(rows, ops, p, m + 1, g'.current);
  }

  lemma {:induction false} GrowKeepsOrder(reference: Option<Mark>, ops: seq<Placed>, at: nat, n: nat)
    requires InOrder(reference, ops, at) && ops != [] && End(ops) == at
    ensures var p := ops[|ops| - 1];
            InOrder(Some(Mark(p.chunk, p.addr, p.count + n)), Grow(ops, n), at + n)
    ensures forall i :: 0 <= i < |ops| ==> Grow(ops, n)[i].start == ops[i].start
  {
  }

  lemma {:induction false} GrowKeepsClosed(rows: nat, ops: seq<Placed>, n: nat, j: nat, m: Summary)
    requires rows > 0 && SegmentIs(ops, rows, j, m) && ops != [] && From(rows, j) + rows <= End(ops)
    ensures SegmentIs(Grow(ops, n), rows, j, m)
  {
  }

  /** Rows of the operation in progress, placed in the current segment. */
  function WithRows(g: Progress, p: Placed, n: u32): Progress {
    Progress(if n <= g.available then g.available - n else 0, Some(Mark(p.chunk, p.addr, p.count + n)), g.closed,
             Updated(g.current, p.chunk, p.addr, Wrap(p.count), n))
  }

  lemma {:induction false} RowsAreGood(rows: nat, g: Progress, ops: seq<Placed>, at: nat, n: u32)
    requires Good(rows, g, ops, at) && 0 < n <= g.available && ops != [] && End(ops) == at
    requires ops[|ops| - 1].count == 0 || g.available == rows
    ensures Good(rows, WithRows(g, ops[|ops| - 1], n), Grow(ops, n), at + n)
  {
    hide From, InOrder, Updated, Fold, Events;
    var m, p, a := |g.closed|, ops[|ops| - 1], From(rows, |g.closed|);
    assert EndOf(p) == at by { assert End(ops) == at; }
    GrowKeepsOrder(g.reference, ops, at, n);
    forall j | 0 <= j < m
      ensures SegmentIs(Grow(ops, n), rows, j, g.closed[j])
    {
      FromOrder(rows, j, m);
      GrowKeepsClosed(rows, ops, n, j, g.closed[j]);
    }
    RowsArePiece(ops, n, a, a + rows);
    FoldSnoc(Events(ops, a, a + rows), Piece(p.chunk, p.addr, p.count, n));
  }

  /** Right after a segment is opened on the operation in progress, adding none of its rows does nothing. */
  lemma {:induction false} ReopeningAddsNothing(g: Progress, rows: nat, chunk: u32, addr: u32, skip: u32)
    requires g.reference == Some(Mark(chunk, addr, skip))
    ensures Updated(Opened(g, rows).current, chunk, addr, skip, 0) == Opened(g, rows).current
  {
  }
}
