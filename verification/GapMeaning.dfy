/** What the sequential planner's checkpoints say of rows, and how many rows they count in all. */
module GapMeaning {
  import opened MemConfig
  import opened RowStream
  import opened CheckPoints
  import opened RowMeaning
  import opened GapRows
  import opened GapPlanner
  import opened GapSegments

  // ---- The row axis, row by row ----

  function Gap(n: nat): seq<Option<Row>> {
    seq(n, _ => None)
  }

  function OpAxis(p: Placed): seq<Option<Row>> {
    Gap(p.gap) + seq(p.count, r requires 0 <= r < p.count => Some(Row(p.chunk, p.addr, r)))
  }

  /** Each operation's rows, after one None for every row of the gap before it. */
  function Axis(ops: seq<Placed>): seq<Option<Row>> {
    if ops == [] then [] else Axis(ops[..|ops| - 1]) + OpAxis(ops[|ops| - 1])
  }

  /** The rows on a stretch of the axis. */
  function Real(xs: seq<Option<Row>>): seq<Row> {
    if xs == [] then [] else
      Real(xs[..|xs| - 1]) + match xs[|xs| - 1] case None => [] case Some(row) => [row]
  }

  function Stretch<T>(xs: seq<T>, a: nat, b: nat): seq<T>
    requires a <= b
  {
    xs[Min(a, |xs|)..Min(b, |xs|)]
  }

  /** The odd row: that of an operation which starts where the segment ends, if a gap leads up to it. */
  function ExtraRow(ops: seq<Placed>, b: nat): seq<Row> {
    if ops == [] then [] else
      var p := ops[|ops| - 1];
      ExtraRow(ops[..|ops| - 1], b) + if p.gap > 0 && p.start == b then [Row(p.chunk, p.addr, 0)] else []
  }

  /** The rows the segment [a, b) of the axis stands for. */
  function SegmentRows(ops: seq<Placed>, a: nat, b: nat): seq<Row>
    requires a <= b
  {
    Real(Stretch(Axis(ops), a, b)) + ExtraRow(ops, b)
  }

  /** The operations lie one after the other, each behind its gap. */
  predicate Laid(ops: seq<Placed>) {
    ops != [] ==> Laid(ops[..|ops| - 1]) && ops[|ops| - 1].start == End(ops[..|ops| - 1]) + ops[|ops| - 1].gap
  }

  lemma {:induction false} LayoutLaid(base: u32, vs: seq<Visit>)
    ensures Laid(Layout(base, vs))
    decreases |vs|
  {
    if vs == [] {
    } else {
      LayoutLaid(base, vs[..|vs| - 1]);
      var ops := Layout(base, vs);
      assert ops[..|ops| - 1] == Layout(base, vs[..|vs| - 1]);
    }
  }

  lemma {:induction false} AxisLength(ops: seq<Placed>)
    requires Laid(ops)
    ensures |Axis(ops)| == End(ops)
    decreases |ops|
  {
    if ops == [] {
    } else {
      AxisLength(ops[..|ops| - 1]);
    }
  }

  lemma {:induction false} RealConcat(xs: seq<Option<Row>>, ys: seq<Option<Row>>)
    ensures Real(xs + ys) == Real(xs) + Real(ys)
    decreases |ys|
  {
    if ys == [] {
      assert xs + ys == xs;
    } else {
      assert (xs + ys)[..|xs + ys| - 1] == xs + ys[..|ys| - 1];
      RealConcat(xs, ys[..|ys| - 1]);
    }
  }

  lemma {:induction false} RealGap(n: nat)
    ensures Real(Gap(n)) == []
    decreases n
  {
    if n == 0 {
    } else {
      assert Gap(n)[..n - 1] == Gap(n - 1);
      RealGap(n - 1);
    }
  }

  function OpRows(p: Placed, from: nat, n: nat): seq<Option<Row>> {
    seq(n, r requires 0 <= r < n => Some(Row(p.chunk, p.addr, from + r)))
  }

  lemma {:induction false} RealOpRows(p: Placed, from: nat, n: nat)
    ensures Real(OpRows(p, from, n)) == RowsOf(p.chunk, p.addr, from, n)
    decreases n
  {
    if n == 0 {
    } else {
      assert OpRows(p, from, n)[..n - 1] == OpRows(p, from, n - 1);
      RealOpRows(p, from, n - 1);
    }
  }

  lemma {:induction false} AxisStep(ops: seq<Placed>)
    requires ops != []
    ensures Axis(ops) == Axis(ops[..|ops| - 1]) + OpAxis(ops[|ops| - 1])
  {
  }

  lemma {:induction false} OpAxisRows(p: Placed)
    ensures Real(OpAxis(p)) == RowsOf(p.chunk, p.addr, 0, p.count)
  {
    assert OpAxis(p) == Gap(p.gap) + OpRows(p, 0, p.count);
    RealConcat(Gap(p.gap), OpRows(p, 0, p.count));
    RealGap(p.gap);
    RealOpRows(p, 0, p.count);
  }

  lemma {:induction false} LayoutStep(base: u32, vs: seq<Visit>)
    requires vs != []
    ensures var front, v, ops := vs[..|vs| - 1], vs[|vs| - 1], Layout(base, vs);
            && ops != [] && ops[..|ops| - 1] == Layout(base, front)
            && ops[|ops| - 1].chunk == v.chunk && ops[|ops| - 1].addr == v.addr && ops[|ops| - 1].count == v.count
  {
  }

  /** The rows on the axis are the rows of the stream. */
  lemma {:induction false} AxisIsStream(base: u32, vs: seq<Visit>)
    ensures Real(Axis(Layout(base, vs))) == Rows(vs)
    decreases |vs|
  {
    if vs == [] {
    } else {
      var ops := Layout(base, vs);
      AxisIsStream(base, vs[..|vs| - 1]);
      LayoutStep(base, vs);
      hide Layout, Axis, Real, OpAxis, RowsOf;
      AxisStep(ops);
      RealConcat(Axis(ops[..|ops| - 1]), OpAxis(ops[|ops| - 1]));
      OpAxisRows(ops[|ops| - 1]);
    }
  }

  // ---- A segment's events and its rows ----

  lemma {:induction false} StretchAt<T>(xs: seq<T>, a: nat, b: nat)
    requires a <= b
    ensures |Stretch(xs, a, b)| == Min(b, |xs|) - Min(a, |xs|)
    ensures forall k :: 0 <= k < |Stretch(xs, a, b)| ==> Stretch(xs, a, b)[k] == xs[Min(a, |xs|) + k]
  {
  }

  /** The part of an operation's stretch that lies on its gap, and the part on its rows. */
  lemma {:induction false} OpStretchParts(p: Placed, lo: nat, hi: nat)
    requires lo <= hi
    ensures var xs, from, till := Stretch(OpAxis(p), lo, hi), Max(lo, p.gap), Min(hi, p.gap + p.count);
            xs == if from < till then Gap(Max(0, p.gap - lo)) + OpRows(p, from - p.gap, till - from) else Gap(|xs|)
  {
    var xs, from, till := Stretch(OpAxis(p), lo, hi), Max(lo, p.gap), Min(hi, p.gap + p.count);
    StretchAt(OpAxis(p), lo, hi);
    hide Stretch;
    if from < till {
      var ys := Gap(Max(0, p.gap - lo)) + OpRows(p, from - p.gap, till - from);
      assert |xs| == |ys|;
      forall k | 0 <= k < |xs|
        ensures xs[k] == ys[k]
      {
      }
    } else {
      forall k | 0 <= k < |xs|
        ensures xs[k] == None
      {
      }
    }
  }

  /** An operation's stretch of the axis between a and b, the operation lying behind `at` rows. */
  lemma {:induction false} OpStretch(p: Placed, at: nat, a: nat, b: nat)
    requires p.start == at + p.gap && a < b
    ensures var n := Min(EndOf(p), b) - Max(p.start, a);
            Real(Stretch(OpAxis(p), Max(0, a - at), Max(0, b - at)))
            == if n > 0 then RowsOf(p.chunk, p.addr, Max(0, a - p.start), n) else []
  {
    hide Real, OpAxis, Stretch, Gap, OpRows, RowsOf;
    var lo, hi := Max(0, a - at), Max(0, b - at);
    var from, till := Max(lo, p.gap), Min(hi, p.gap + p.count);
    OpStretchParts(p, lo, hi);
    if from < till {
      RealConcat(Gap(Max(0, p.gap - lo)), OpRows(p, from - p.gap, till - from));
      RealGap(Max(0, p.gap - lo));
      RealOpRows(p, from - p.gap, till - from);
    } else {
      RealGap(|Stretch(OpAxis(p), lo, hi)|);
    }
  }

  lemma {:induction false} StretchConcat<T>(xs: seq<T>, ys: seq<T>, a: nat, b: nat)
    requires a <= b
    ensures Stretch(xs + ys, a, b) == Stretch(xs, a, b) + Stretch(ys, Max(0, a - |xs|), Max(0, b - |xs|))
  {
  }

  lemma {:induction false} Regroup<T>(r: seq<T>, m: seq<T>, e: seq<T>, x: seq<T>)
    requires e == [] || m == []
    ensures (r + m) + (e + x) == (r + e) + (m + x)
  {
  }

  lemma {:induction false} NoExtraBefore(ops: seq<Placed>, b: nat)
    requires Laid(ops) && End(ops) < b
    ensures ExtraRow(ops, b) == []
    decreases |ops|
  {
    if ops == [] {
    } else {
      NoExtraBefore(ops[..|ops| - 1], b);
    }
  }

  lemma {:induction false} ExpandConcat(ps: seq<Piece>, qs: seq<Piece>)
    ensures Expand(ps + qs) == Expand(ps) + Expand(qs)
    decreases |qs|
  {
    if qs == [] {
      assert ps + qs == ps;
    } else {
      assert (ps + qs)[..|ps + qs| - 1] == ps + qs[..|qs| - 1];
      ExpandConcat(ps, qs[..|qs| - 1]);
    }
  }

  lemma {:induction false} ExpandOne(p: Piece)
    ensures Expand([p]) == RowsOf(p.chunk, p.addr, p.skip, p.count)
  {
  }

  lemma {:induction false} OpEventRows(p: Placed, at: nat, a: nat, b: nat)
    requires p.start == at + p.gap && a < b
    ensures Expand(OpEvents(p, a, b))
            == Real(Stretch(OpAxis(p), Max(0, a - at), Max(0, b - at)))
               + if p.gap > 0 && p.start == b then [Row(p.chunk, p.addr, 0)] else []
  {
    OpStretch(p, at, a, b);
    var n := Min(EndOf(p), b) - Max(p.start, a);
    if n > 0 {
      ExpandOne(Piece(p.chunk, p.addr, Max(0, a - p.start), n));
    } else if p.gap > 0 && p.start == b {
      ExpandOne(Piece(p.chunk, p.addr, 0, 1));
      assert RowsOf(p.chunk, p.addr, 0, 1) == [Row(p.chunk, p.addr, 0)];
    }
  }

  lemma {:induction false} OpStretchBeyond(p: Placed, at: nat, a: nat, b: nat)
    requires p.start == at + p.gap && a < b <= at
    ensures Real(Stretch(OpAxis(p), Max(0, a - at), Max(0, b - at))) == []
  {
  }

  /** The part of segment [a, b) that lies on the last operation's gap and rows. */
  function LastStretch(ops: seq<Placed>, a: nat, b: nat): seq<Option<Row>>
    requires ops != [] && a <= b
  {
    var at := End(ops[..|ops| - 1]);
    Stretch(OpAxis(ops[|ops| - 1]), Max(0, a - at), Max(0, b - at))
  }

  lemma {:induction false} RealStep(ops: seq<Placed>, a: nat, b: nat)
    requires Laid(ops) && ops != [] && a < b
    ensures Real(Stretch(Axis(ops), a, b)) == Real(Stretch(Axis(ops[..|ops| - 1]), a, b)) + Real(LastStretch(ops, a, b))
  {
    var front, p := ops[..|ops| - 1], ops[|ops| - 1];
    AxisLength(front);
    hide Axis, OpAxis, Stretch, Real;
    AxisStep(ops);
    StretchConcat(Axis(front), OpAxis(p), a, b);
    RealConcat(Stretch(Axis(front), a, b), LastStretch(ops, a, b));
  }

  lemma {:induction false} OneOfThem(ops: seq<Placed>, a: nat, b: nat)
    requires Laid(ops) && ops != [] && a < b
    ensures ExtraRow(ops[..|ops| - 1], b) == [] || Real(LastStretch(ops, a, b)) == []
  {
    var front, p := ops[..|ops| - 1], ops[|ops| - 1];
    hide Axis, OpAxis, Stretch, Real, ExtraRow;
    if End(front) < b {
      NoExtraBefore(front, b);
    } else {
      OpStretchBeyond(p, End(front), a, b);
    }
  }

  /** The odd row of the last operation, if it is the one. */
  function LastExtra(ops: seq<Placed>, b: nat): seq<Row>
    requires ops != []
  {
    var p := ops[|ops| - 1];
    if p.gap > 0 && p.start == b then [Row(p.chunk, p.addr, 0)] else []
  }

  lemma {:induction false} LastEventRows(ops: seq<Placed>, a: nat, b: nat)
    requires Laid(ops) && ops != [] && a < b
    ensures Expand(OpEvents(ops[|ops| - 1], a, b)) == Real(LastStretch(ops, a, b)) + LastExtra(ops, b)
  {
    hide Axis, OpAxis, Stretch, Real, Expand, OpEvents;
    OpEventRows(ops[|ops| - 1], End(ops[..|ops| - 1]), a, b);
  }

  lemma {:induction false} SegmentRowsStep(ops: seq<Placed>, a: nat, b: nat)
    requires Laid(ops) && ops != [] && a < b
    ensures SegmentRows(ops, a, b) == SegmentRows(ops[..|ops| - 1], a, b) + Expand(OpEvents(ops[|ops| - 1], a, b))
  {
    hide Axis, Stretch, Real, Expand, OpEvents, Laid, End, LastStretch;
    var front := ops[..|ops| - 1];
    LastEventRows(ops, a, b);
    RealStep(ops, a, b);
    OneOfThem(ops, a, b);
    Regroup(Real(Stretch(Axis(front), a, b)), Real(LastStretch(ops, a, b)), ExtraRow(front, b), LastExtra(ops, b));
    assert ExtraRow(ops, b) == ExtraRow(front, b) + LastExtra(ops, b);
    hide LastExtra, ExtraRow;
  }

  /** The events of a segment stand for its rows. */
  lemma {:induction false} EventRows(ops: seq<Placed>, a: nat, b: nat)
    requires Laid(ops) && a < b
    ensures Expand(OpsEvents(ops, a, b)) == SegmentRows(ops, a, b)
    decreases |ops|
  {
    if ops == [] {
    } else {
      var front, p := ops[..|ops| - 1], ops[|ops| - 1];
      EventRows(front, a, b);
      SegmentRowsStep(ops, a, b);
      hide SegmentRows, Expand, OpEvents;
      ExpandConcat(OpsEvents(front, a, b), OpEvents(p, a, b));
    }
  }

  // ---- A segment's checkpoints and its rows ----

  predicate Before(p: Placed, q: Placed) {
    EndOf(p) <= q.start && p.addr <= q.addr && (p.chunk != q.chunk || p.addr != q.addr)
  }

  /** Operations of a tidy stream: one behind the other, at ascending addresses, none twice. */
  ghost predicate Orderly(ops: seq<Placed>) {
    && (forall i :: 0 <= i < |ops| ==> 0 < ops[i].count < WORD)
    && (forall i, j :: 0 <= i < j < |ops| ==> Before(ops[i], ops[j]))
  }

  /** Operation i of a layout: its visit, behind the rows before it. */
  lemma {:induction false} LayoutItem(base: u32, vs: seq<Visit>, i: nat)
    requires i < |vs|
    ensures |Layout(base, vs)| == |vs|
    ensures var p := Layout(base, vs)[i];
            && p.chunk == vs[i].chunk && p.addr == vs[i].addr && p.count == vs[i].count
            && p.gap <= p.start && EndOf(p) <= GapTotal(base, vs)
    decreases |vs|
  {
    var front := vs[..|vs| - 1];
    LayoutEnds(base, vs);
    LayoutEnds(base, front);
    if i == |front| {
    } else {
      LayoutItem(base, front, i);
    }
  }

  lemma {:induction false} LayoutPair(base: u32, vs: seq<Visit>, i: nat, j: nat)
    requires Tidy(vs) && i < j < |vs|
    ensures |Layout(base, vs)| == |vs| && Before(Layout(base, vs)[i], Layout(base, vs)[j])
    decreases |vs|
  {
    var front := vs[..|vs| - 1];
    LayoutEnds(base, vs);
    LayoutEnds(base, front);
    LayoutItem(base, vs, i);
    LayoutItem(base, vs, j);
    assert vs[i].addr <= vs[j].addr;
    if j == |front| {
      LayoutItem(base, front, i);
    } else {
      assert Tidy(front);
      LayoutPair(base, front, i, j);
    }
  }

  lemma {:induction false} LayoutOrderly(base: u32, vs: seq<Visit>)
    requires Tidy(vs)
    ensures |Layout(base, vs)| == |vs| && Orderly(Layout(base, vs))
  {
    hide Layout;
    LayoutEnds(base, vs);
    var ops := Layout(base, vs);
    forall i | 0 <= i < |ops|
      ensures 0 < ops[i].count < WORD
    {
      LayoutItem(base, vs, i);
    }
    forall i, j | 0 <= i < j < |ops|
      ensures Before(ops[i], ops[j])
    {
      LayoutPair(base, vs, i, j);
    }
  }

  predicate Names(e: Piece, p: Placed) {
    e.chunk == p.chunk && e.addr == p.addr
  }

  ghost predicate FromOp(e: Piece, ops: seq<Placed>, a: nat) {
    exists j :: 0 <= j < |ops| && Names(e, ops[j]) && EndOf(ops[j]) > a
  }

  lemma {:induction false} OneEvent(p: Placed, a: nat, b: nat)
    requires p.count < WORD && a < b
    ensures |OpEvents(p, a, b)| <= 1
    ensures OpEvents(p, a, b) != [] ==>
              var e := OpEvents(p, a, b)[0]; e.count > 0 && e.skip < WORD && Names(e, p) && EndOf(p) > a
  {
  }

  /** A segment's events all have rows, and come from its operations in order. */
  ghost predicate EventsGood(es: seq<Piece>, ops: seq<Placed>, a: nat) {
    AddressesAscend(es) && forall k :: 0 <= k < |es| ==> es[k].count > 0 && es[k].skip < WORD && FromOp(es[k], ops, a)
  }

  lemma {:induction false} FromFront(e: Piece, ops: seq<Placed>, p: Placed, a: nat)
    requires FromOp(e, ops, a) && Orderly(ops + [p])
    ensures FromOp(e, ops + [p], a) && e.addr <= p.addr
  {
    var j :| 0 <= j < |ops| && Names(e, ops[j]) && EndOf(ops[j]) > a;
    assert (ops + [p])[j] == ops[j] && (ops + [p])[|ops|] == p;
    assert Before((ops + [p])[j], (ops + [p])[|ops|]);
  }

  lemma {:induction false} NoEventIsGood(es: seq<Piece>, ops: seq<Placed>, p: Placed, a: nat)
    requires EventsGood(es, ops, a) && Orderly(ops + [p])
    ensures EventsGood(es, ops + [p], a) && forall k :: 0 <= k < |es| ==> es[k].addr <= p.addr
  {
    hide FromOp, Orderly;
    forall k | 0 <= k < |es|
      ensures FromOp(es[k], ops + [p], a) && es[k].addr <= p.addr
    {
      FromFront(es[k], ops, p, a);
    }
  }

  lemma {:induction false} OneEventIsGood(es: seq<Piece>, ops: seq<Placed>, p: Placed, a: nat, e: Piece)
    requires EventsGood(es, ops, a) && Orderly(ops + [p])
    requires e.count > 0 && e.skip < WORD && Names(e, p) && EndOf(p) > a
    ensures EventsGood(es + [e], ops + [p], a)
  {
    NoEventIsGood(es, ops, p, a);
    assert FromOp(e, ops + [p], a) by {
      assert (ops + [p])[|ops|] == p;
    }
    hide FromOp, Orderly;
  }

  lemma {:induction false} FrontOrderly(ops: seq<Placed>)
    requires Orderly(ops) && ops != []
    ensures Orderly(ops[..|ops| - 1])
  {
  }

  lemma {:induction false} EventsOrderly(ops: seq<Placed>, a: nat, b: nat)
    requires Orderly(ops) && a < b
    ensures EventsGood(OpsEvents(ops, a, b), ops, a)
    decreases |ops|
  {
    if ops == [] {
    } else {
      var front, p := ops[..|ops| - 1], ops[|ops| - 1];
      assert p.count < WORD;
      hide EventsGood, Orderly, OpEvents;
      FrontOrderly(ops);
      EventsOrderly(front, a, b);
      OneEvent(p, a, b);
      var fs, e := OpsEvents(front, a, b), OpEvents(p, a, b);
      assert front + [p] == ops;
      if e == [] {
        assert fs + e == fs;
        NoEventIsGood(fs, front, p, a);
      } else {
        assert e == [e[0]];
        OneEventIsGood(fs, front, p, a, e[0]);
      }
    }
  }

  /** The last operation started before row a, if any. */
  lemma {:induction false} LastStarted(ops: seq<Placed>, a: nat) returns (i: int)
    ensures -1 <= i < |ops|
    ensures i >= 0 ==> ops[i].start < a
    ensures forall k :: i < k < |ops| ==> a <= ops[k].start
    decreases |ops|
  {
    if ops == [] || ops[|ops| - 1].start < a {
      i := |ops| - 1;
    } else {
      i := LastStarted(ops[..|ops| - 1], a);
    }
  }

  /** The operation a segment resumes, if it has no row left. */
  function Ended(ops: seq<Placed>, a: nat): Option<Piece> {
    if ops == [] then None else
      var p := ops[|ops| - 1];
      if a <= p.start then Ended(ops[..|ops| - 1], a)
      else if EndOf(p) <= a then Some(Piece(p.chunk, p.addr, p.count, 0))
      else None
  }

  lemma {:induction false} EndedIs(ops: seq<Placed>, a: nat, i: int)
    requires -1 <= i < |ops| && (i >= 0 ==> ops[i].start < a) && forall k :: i < k < |ops| ==> a <= ops[k].start
    ensures i < 0 ==> Ended(ops, a) == None && Resume(ops, a) == []
    ensures i >= 0 ==>
              var p := ops[i];
              && Ended(ops, a) == (if EndOf(p) <= a then Some(Piece(p.chunk, p.addr, p.count, 0)) else None)
              && Resume(ops, a) == [Piece(p.chunk, p.addr, Min(p.count, a - p.start), 0)]
    decreases |ops|
  {
    if ops == [] || i == |ops| - 1 {
    } else {
      assert a <= ops[|ops| - 1].start;
      EndedIs(ops[..|ops| - 1], a, i);
    }
  }

  lemma {:induction false} EventsPrefix(ops: seq<Placed>, a: nat, b: nat, k: nat)
    requires k <= |ops|
    ensures OpsEvents(ops[..k], a, b) <= OpsEvents(ops, a, b)
    decreases |ops|
  {
    if k == |ops| {
      assert ops[..k] == ops;
    } else {
      EventsPrefix(ops[..|ops| - 1], a, b, k);
      assert ops[..|ops| - 1][..k] == ops[..k];
    }
  }

  /** An operation the boundary cuts through comes first in the new segment. */
  lemma {:induction false} CutComesFirst(ops: seq<Placed>, a: nat, b: nat, i: nat)
    requires Orderly(ops) && i < |ops| && a < b && ops[i].start < a < EndOf(ops[i])
    ensures var es, p := OpsEvents(ops, a, b), ops[i];
            es != [] && es[0] == Piece(p.chunk, p.addr, a - p.start, Min(EndOf(p), b) - a)
  {
    forall k | 0 <= k < i
      ensures EndOf(ops[..i][k]) <= a
    {
      assert Before(ops[k], ops[i]);
    }
    NothingInNewSegment(ops[..i], a, b);
    assert ops[..i + 1][..i] == ops[..i];
    assert OpsEvents(ops[..i + 1], a, b) == [] + OpEvents(ops[i], a, b);
    EventsPrefix(ops, a, b, i + 1);
  }

  lemma {:induction false} MergeFirst(p: Piece, rest: seq<Piece>)
    ensures Fold([p.(count := 0)] + ([p] + rest)) == Fold([p] + rest)
    decreases |rest|
  {
    if rest == [] {
      assert [p] + rest == [p];
      ResumeIsMerged(p.chunk, p.addr, p.skip, p.count);
    } else {
      var front, q := rest[..|rest| - 1], rest[|rest| - 1];
      MergeFirst(p, front);
      assert [p] + rest == ([p] + front) + [q];
      assert [p.(count := 0)] + ([p] + rest) == ([p.(count := 0)] + ([p] + front)) + [q];
      FoldSnoc([p] + front, q);
      FoldSnoc([p.(count := 0)] + ([p] + front), q);
    }
  }

  /** A finished operation at the head of a segment is apart from all that follows. */
  lemma {:induction false} FinishedIsApart(ops: seq<Placed>, a: nat, i: nat, e: Piece)
    requires Orderly(ops) && i < |ops| && ops[i].start < a && EndOf(ops[i]) <= a && FromOp(e, ops, a)
    ensures ops[i].addr <= e.addr && (ops[i].chunk != e.chunk || ops[i].addr != e.addr)
  {
  }

  lemma {:induction false} FinishedFirst(ops: seq<Placed>, a: nat, i: nat, es: seq<Piece>)
    requires Orderly(ops) && i < |ops| && ops[i].start < a && EndOf(ops[i]) <= a && AddressesAscend(es)
    requires forall k :: 0 <= k < |es| ==> es[k].count > 0 && es[k].skip < WORD && FromOp(es[k], ops, a)
    ensures var ps := [Piece(ops[i].chunk, ops[i].addr, ops[i].count, 0)] + es;
            Entered(ps) && Expand(ps) == Expand(es)
  {
    var r := Piece(ops[i].chunk, ops[i].addr, ops[i].count, 0);
    var ps := [r] + es;
    assert r.skip < WORD;
    forall k | 0 <= k < |es|
      ensures r.addr <= es[k].addr && Differ(r, es[k])
    {
      FinishedIsApart(ops, a, i, es[k]);
    }
    hide FromOp, Orderly;
    EmptyFirst(ps);
    assert ps[1..] == es;
  }

  lemma {:induction false} NoneEmpty(es: seq<Piece>)
    requires AddressesAscend(es) && forall k :: 0 <= k < |es| ==> es[k].count > 0 && es[k].skip < WORD
    ensures Entered(es) && ResumedEntry(es) == None
  {
  }

  /** The pieces ps, of which only the first may be empty, give segment [a, b) its summary and rows. */
  ghost predicate Gives(ps: seq<Piece>, ops: seq<Placed>, a: nat, b: nat) {
    && Fold(ps) == Fold(Events(ops, a, b)) && Expand(ps) == Expand(OpsEvents(ops, a, b))
    && Entered(ps) && ResumedEntry(ps) == Ended(ops, a)
  }

  lemma {:induction false} GivesUncut(ops: seq<Placed>, a: nat, b: nat, es: seq<Piece>)
    requires es == OpsEvents(ops, a, b) && Entered(es) && ResumedEntry(es) == None
    requires Resume(ops, a) == [] && Ended(ops, a) == None
    ensures Gives(es, ops, a, b)
  {
    hide OpsEvents, Fold, Entered, Expand;
    assert [] + es == es;
  }

  lemma {:induction false} GivesCut(ops: seq<Placed>, a: nat, b: nat, es: seq<Piece>)
    requires es == OpsEvents(ops, a, b) && Entered(es) && ResumedEntry(es) == None && es != []
    requires Resume(ops, a) == [es[0].(count := 0)] && Ended(ops, a) == None
    ensures Gives(es, ops, a, b)
  {
    hide OpsEvents, Fold, Entered, Expand;
    MergeFirst(es[0], es[1..]);
    assert [es[0]] + es[1..] == es;
  }

  lemma {:induction false} GivesFinished(ops: seq<Placed>, a: nat, b: nat, r: Piece, es: seq<Piece>)
    requires es == OpsEvents(ops, a, b) && Entered([r] + es) && r.count == 0 && Expand([r] + es) == Expand(es)
    requires Resume(ops, a) == [r] && Ended(ops, a) == Some(r)
    ensures Gives([r] + es, ops, a, b)
  {
  }

  /** Every segment has such pieces: its events, behind the operation it resumes if that is finished. */
  lemma {:induction false} SegmentPiecesOf(ops: seq<Placed>, a: nat, b: nat) returns (ps: seq<Piece>)
    requires Orderly(ops) && a < b
    ensures Gives(ps, ops, a, b)
  {
    var es := OpsEvents(ops, a, b);
    EventsOrderly(ops, a, b);
    var i := LastStarted(ops, a);
    EndedIs(ops, a, i);
    hide Fold, OpsEvents, FromOp, Orderly, AddressesAscend, Ended, Resume, Expand, Entered, Gives;
    NoneEmpty(es);
    if i >= 0 && EndOf(ops[i]) <= a {
      var r := Piece(ops[i].chunk, ops[i].addr, ops[i].count, 0);
      ps := [r] + es;
      FinishedFirst(ops, a, i, es);
      GivesFinished(ops, a, b, r, es);
    } else {
      ps := es;
      if i < 0 {
        GivesUncut(ops, a, b, es);
      } else {
        CutComesFirst(ops, a, b, i);
        GivesCut(ops, a, b, es);
      }
    }
  }

  lemma {:induction false} NoneCounts()
    ensures CountOf([]) == 0
  {
  }

  lemma {:induction false} OneEventFits(p: Placed, at: nat, a: nat, b: nat)
    requires p.start == at + p.gap && a < b
    ensures CountOf(OpEvents(p, a, b)) + Max(0, Min(at, b) - a) <= Max(0, Min(EndOf(p), b) - a)
  {
  }

  lemma {:induction false} CountOfConcat(ps: seq<Piece>, qs: seq<Piece>)
    ensures CountOf(ps + qs) == CountOf(ps) + CountOf(qs)
    decreases |qs|
  {
    if qs == [] {
      assert ps + qs == ps;
    } else {
      assert (ps + qs)[..|ps + qs| - 1] == ps + qs[..|qs| - 1];
      CountOfConcat(ps, qs[..|qs| - 1]);
    }
  }

  /** A segment records no more rows than it has. */
  lemma {:induction false} EventsFit(ops: seq<Placed>, a: nat, b: nat)
    requires Laid(ops) && a < b
    ensures CountOf(OpsEvents(ops, a, b)) <= Max(0, Min(End(ops), b) - a)
    decreases |ops|
  {
    hide CountOf, OpEvents;
    if ops == [] {
      NoneCounts();
    } else {
      var front, p := ops[..|ops| - 1], ops[|ops| - 1];
      EventsFit(front, a, b);
      OneEventFits(p, End(front), a, b);
      CountOfConcat(OpsEvents(front, a, b), OpEvents(p, a, b));
    }
  }

  lemma {:induction false} NothingTells(chunk: u32)
    ensures TellsRows(Fold([]), Expand([]), chunk, ResumedEntry([]))
  {
  }

  /** What the checkpoints of segment [a, b) say of its rows. */
  lemma {:induction false} SegmentTells(ops: seq<Placed>, a: nat, b: nat, chunk: u32)
    requires Laid(ops) && Orderly(ops) && a < b < a + WORD
    ensures TellsRows(Fold(Events(ops, a, b)), SegmentRows(ops, a, b), chunk, Ended(ops, a))
    ensures |SegmentRows(ops, a, b)| <= b - a
  {
    hide Entered, Orderly, Laid, Events, OpsEvents, SegmentRows, TellsRows, Ended, Fold, Expand, CountOf;
    var ps := SegmentPiecesOf(ops, a, b);
    EventRows(ops, a, b);
    EventsFit(ops, a, b);
    ExpandCounts(OpsEvents(ops, a, b), 0);
    if ps == [] {
      NothingTells(chunk);
    } else {
      FoldTellsRows(ps, chunk);
    }
  }

  lemma {:induction false} SegmentIsTold(ops: seq<Placed>, rows: nat, j: nat, m: Summary, chunk: u32)
    requires SegmentIs(ops, rows, j, m) && Laid(ops) && Orderly(ops) && 0 < rows < WORD
    ensures TellsRows(m, SegmentRows(ops, From(rows, j), From(rows, j) + rows), chunk, Ended(ops, From(rows, j)))
  {
    hide Laid, Orderly, Events, Fold, TellsRows, SegmentRows, Ended, From;
    SegmentTells(ops, From(rows, j), From(rows, j) + rows, chunk);
  }

  lemma {:induction false} TidyLayout(base: u32, vs: seq<Visit>)
    requires Tidy(vs)
    ensures Laid(Layout(base, vs)) && Orderly(Layout(base, vs))
  {
    LayoutLaid(base, vs);
    LayoutOrderly(base, vs);
  }

  /** The checkpoints of every segment the planner leaves behind, in terms of the rows of its part of the
      row axis: they count the chunk's rows there, the odd row included, and start and end with them; only
      the chunk of a resumed operation with no row left has a checkpoint that starts before the segment. */
  lemma {:induction false} SegmentsTellRows(base: u32, vs: seq<Visit>, rows: nat, segments: seq<Summary>, j: nat, chunk: u32)
    requires Finished(rows, segments, Layout(base, vs), GapTotal(base, vs)) && Tidy(vs) && rows < WORD && j < |segments|
    ensures var ops := Layout(base, vs);
            TellsRows(segments[j], SegmentRows(ops, From(rows, j), From(rows, j) + rows), chunk, Ended(ops, From(rows, j)))
  {
    assert SegmentIs(Layout(base, vs), rows, j, segments[j]) && rows > 0;
    hide Layout, Tidy, Laid, Orderly, TellsRows, SegmentRows, Ended, From, SegmentIs, Finished, GapTotal;
    TidyLayout(base, vs);
    SegmentIsTold(Layout(base, vs), rows, j, segments[j], chunk);
  }

  // ---- How many rows the checkpoints count ----

  /** The rows of a chunk that the checkpoints of all segments count. */
  function CountedIn(segments: seq<Summary>, chunk: u32): nat {
    if segments == [] then 0 else
      CountedIn(segments[..|segments| - 1], chunk) + ChunkCount(segments[|segments| - 1], chunk)
  }

  /** A gap leads up to the operation and ends on a segment boundary. */
  predicate Meets(p: Placed, rows: nat)
    requires rows > 0
  {
    p.gap > 0 && p.start % rows == 0
  }

  /** The operations of a chunk that a gap leads up to which ends on a segment boundary. */
  function Meetings(ops: seq<Placed>, rows: nat, chunk: u32): nat
    requires rows > 0
  {
    if ops == [] then 0 else
      var p := ops[|ops| - 1];
      Meetings(ops[..|ops| - 1], rows, chunk) + if p.chunk == chunk && Meets(p, rows) then 1 else 0
  }

  /** The odd rows of a chunk in the first n segments. */
  function ExtraTotal(ops: seq<Placed>, rows: nat, n: nat, chunk: u32): nat {
    if n == 0 then 0 else ExtraTotal(ops, rows, n - 1, chunk) + RowsOfChunk(ExtraRow(ops, From(rows, n)), chunk)
  }

  /** The operation starts where one of the first n segments ends. */
  predicate StartsAtEnd(p: Placed, rows: nat, n: nat) {
    n > 0 && (p.start == From(rows, n) || StartsAtEnd(p, rows, n - 1))
  }

  lemma {:induction false} BeyondAll(p: Placed, rows: nat, n: nat)
    requires From(rows, n) < p.start
    ensures !StartsAtEnd(p, rows, n)
  {
    if n == 0 {
    } else {
      BeyondAll(p, rows, n - 1);
    }
  }

  lemma {:induction false} MultipleOrNot(x: nat, rows: nat, n: nat)
    requires rows > 0 && n > 0 && (n - 1) * rows < x <= n * rows
    ensures x % rows == 0 <==> x == n * rows
  {
    MulStep(n - 1, rows);
    if x == n * rows {
      QuotientFrom(x, rows, n, 0);
    } else {
      QuotientFrom(x, rows, n - 1, x - (n - 1) * rows);
    }
  }

  lemma {:induction false} EndsAreMultiples(p: Placed, rows: nat, n: nat)
    requires rows > 0 && 0 < p.start <= From(rows, n)
    ensures StartsAtEnd(p, rows, n) <==> p.start % rows == 0
  {
    FromIsProduct(rows, n);
    if n == 0 {
    } else if p.start <= From(rows, n - 1) {
      EndsAreMultiples(p, rows, n - 1);
      if p.start == From(rows, n) {
        assert false;
      }
    } else {
      BeyondAll(p, rows, n - 1);
      FromIsProduct(rows, n - 1);
      MultipleOrNot(p.start, rows, n);
    }
  }

  lemma {:induction false} NoRowsOfChunk(chunk: u32)
    ensures RowsOfChunk([], chunk) == 0
  {
  }

  lemma {:induction false} OneRowOfChunk(row: Row, chunk: u32)
    ensures RowsOfChunk([row], chunk) == if row.chunk == chunk then 1 else 0
  {
  }

  lemma {:induction false} ExtraTotalStep(ops: seq<Placed>, rows: nat, n: nat, chunk: u32)
    requires rows > 0 && ops != []
    ensures var p := ops[|ops| - 1];
            ExtraTotal(ops, rows, n, chunk) == ExtraTotal(ops[..|ops| - 1], rows, n, chunk)
              + if p.chunk == chunk && p.gap > 0 && StartsAtEnd(p, rows, n) then 1 else 0
  {
    hide RowsOfChunk;
    if n == 0 {
    } else {
      var front, p, b := ops[..|ops| - 1], ops[|ops| - 1], From(rows, n);
      ExtraTotalStep(ops, rows, n - 1, chunk);
      assert ExtraRow(ops, b) == ExtraRow(front, b) + LastExtra(ops, b);
      RowsOfChunkConcat(ExtraRow(front, b), LastExtra(ops, b), chunk);
      NoRowsOfChunk(chunk);
      OneRowOfChunk(Row(p.chunk, p.addr, 0), chunk);
      if p.start == b {
        BeyondAll(p, rows, n - 1);
      }
    }
  }

  lemma {:induction false} NothingExtra(rows: nat, n: nat, chunk: u32)
    ensures ExtraTotal([], rows, n, chunk) == 0
  {
    if n == 0 {
    } else {
      NothingExtra(rows, n - 1, chunk);
      NoRowsOfChunk(chunk);
    }
  }

  /** The odd rows are as many as the gaps that end on a boundary. */
  lemma {:induction false} ExtraTotalIsMeetings(ops: seq<Placed>, rows: nat, n: nat, chunk: u32)
    requires rows > 0 && forall i :: 0 <= i < |ops| ==> ops[i].gap <= ops[i].start <= From(rows, n)
    ensures ExtraTotal(ops, rows, n, chunk) == Meetings(ops, rows, chunk)
    decreases |ops|
  {
    if ops == [] {
      NothingExtra(rows, n, chunk);
    } else {
      ExtraTotalIsMeetings(ops[..|ops| - 1], rows, n, chunk);
      ExtraTotalStep(ops, rows, n, chunk);
      if ops[|ops| - 1].gap > 0 {
        EndsAreMultiples(ops[|ops| - 1], rows, n);
      }
    }
  }

  lemma {:induction false} JoinStretches(xs: seq<Option<Row>>, b: nat, c: nat)
    requires b <= c
    ensures Real(Stretch(xs, 0, c)) == Real(Stretch(xs, 0, b)) + Real(Stretch(xs, b, c))
  {
    assert Stretch(xs, 0, c) == Stretch(xs, 0, b) + Stretch(xs, b, c);
    RealConcat(Stretch(xs, 0, b), Stretch(xs, b, c));
  }

  /** Segment j tells the rows of its part of the axis. */
  ghost predicate TellsAll(segments: seq<Summary>, ops: seq<Placed>, rows: nat, chunk: u32) {
    forall j :: 0 <= j < |segments| ==>
      TellsRows(segments[j], SegmentRows(ops, From(rows, j), From(rows, j) + rows), chunk, Ended(ops, From(rows, j)))
  }

  lemma {:induction false} NothingYet(xs: seq<Option<Row>>, chunk: u32)
    ensures RowsOfChunk(Real(Stretch(xs, 0, 0)), chunk) == 0
  {
  }

  lemma {:induction false} CountedRows(segments: seq<Summary>, ops: seq<Placed>, rows: nat, chunk: u32)
    requires TellsAll(segments, ops, rows, chunk)
    ensures CountedIn(segments, chunk)
            == RowsOfChunk(Real(Stretch(Axis(ops), 0, From(rows, |segments|))), chunk) + ExtraTotal(ops, rows, |segments|, chunk)
    decreases |segments|
  {
    hide TellsRows, Ended, RowsOfChunk, Real, Stretch, ExtraRow, Axis, ChunkCount;
    var n := |segments|;
    if n == 0 {
      NothingYet(Axis(ops), chunk);
    } else {
      var front, a, b := segments[..n - 1], From(rows, n - 1), From(rows, n);
      assert TellsAll(front, ops, rows, chunk);
      CountedRows(front, ops, rows, chunk);
      TellsCount(segments[n - 1], SegmentRows(ops, a, b), chunk, Ended(ops, a));
      JoinStretches(Axis(ops), a, b);
      RowsOfChunkConcat(Real(Stretch(Axis(ops), 0, a)), Real(Stretch(Axis(ops), a, b)), chunk);
      RowsOfChunkConcat(Real(Stretch(Axis(ops), a, b)), ExtraRow(ops, b), chunk);
    }
  }

  lemma {:induction false} AllTell(base: u32, vs: seq<Visit>, rows: nat, segments: seq<Summary>, chunk: u32)
    requires Finished(rows, segments, Layout(base, vs), GapTotal(base, vs)) && Tidy(vs) && rows < WORD
    ensures TellsAll(segments, Layout(base, vs), rows, chunk)
  {
    var ops := Layout(base, vs);
    hide Finished, Layout, Tidy, TellsRows, SegmentRows, Ended, From, GapTotal;
    forall j | 0 <= j < |segments|
      ensures TellsRows(segments[j], SegmentRows(ops, From(rows, j), From(rows, j) + rows), chunk, Ended(ops, From(rows, j)))
    {
      SegmentsTellRows(base, vs, rows, segments, j, chunk);
    }
  }

  lemma {:induction false} CoveredBySegments(base: u32, vs: seq<Visit>, rows: nat, n: nat)
    requires rows > 0 && n == (GapTotal(base, vs) + rows - 1) / rows
    ensures GapTotal(base, vs) <= From(rows, n)
    ensures Stretch(Axis(Layout(base, vs)), 0, From(rows, n)) == Axis(Layout(base, vs))
  {
    LayoutLaid(base, vs);
    LayoutEnds(base, vs);
    AxisLength(Layout(base, vs));
    hide Layout, Axis, From, GapTotal;
    MultipleWithin(n + 1, rows, GapTotal(base, vs) + rows - 1);
    MulStep(n, rows);
    FromIsProduct(rows, n);
  }

  /** Over all segments, the checkpoints of a chunk count each row of the chunk once, and one row more for
      every gap before an operation of the chunk that ends on a segment boundary. */
  lemma {:induction false} SegmentsRecordTheStream(base: u32, vs: seq<Visit>, rows: nat, segments: seq<Summary>, chunk: u32)
    requires Finished(rows, segments, Layout(base, vs), GapTotal(base, vs)) && Tidy(vs) && rows < WORD
    ensures CountedIn(segments, chunk) == RowsOfChunk(Rows(vs), chunk) + Meetings(Layout(base, vs), rows, chunk)
  {
    var ops, t, n := Layout(base, vs), GapTotal(base, vs), |segments|;
    assert rows > 0 && n == (t + rows - 1) / rows;
    hide Layout, Tidy, From, Rows, RowsOfChunk, Meetings, GapTotal, ExtraTotal, Finished, TellsAll, Orderly;
    AllTell(base, vs, rows, segments, chunk);
    CountedRows(segments, ops, rows, chunk);
    CoveredBySegments(base, vs, rows, n);
    AxisIsStream(base, vs);
    LayoutEnds(base, vs);
    forall i | 0 <= i < |ops|
      ensures ops[i].gap <= ops[i].start <= From(rows, n)
    {
      LayoutItem(base, vs, i);
    }
    ExtraTotalIsMeetings(ops, rows, n, chunk);
  }

  lemma {:induction false} SomeMeeting(ops: seq<Placed>, rows: nat, i: nat)
    requires rows > 0 && i < |ops|
    ensures Meets(ops[i], rows) ==> Meetings(ops, rows, ops[i].chunk) > 0
    decreases |ops|
  {
    if i == |ops| - 1 {
    } else {
      SomeMeeting(ops[..|ops| - 1], rows, i);
    }
  }

  lemma {:induction false} NoMeetings(ops: seq<Placed>, rows: nat, chunk: u32)
    requires rows > 0 && forall i :: 0 <= i < |ops| ==> !Meets(ops[i], rows)
    ensures Meetings(ops, rows, chunk) == 0
    decreases |ops|
  {
    if ops == [] {
    } else {
      NoMeetings(ops[..|ops| - 1], rows, chunk);
    }
  }

  predicate CountsOnce(segments: seq<Summary>, vs: seq<Visit>, chunk: u32) {
    CountedIn(segments, chunk) == RowsOfChunk(Rows(vs), chunk)
  }

  /** The checkpoints count every row of every chunk once. */
  ghost predicate EachRowOnce(segments: seq<Summary>, vs: seq<Visit>) {
    forall chunk: u32 :: CountsOnce(segments, vs, chunk)
  }

  /** They do if and only if no gap ends on a segment boundary. */
  lemma {:induction false} EachRowOnceIff(base: u32, vs: seq<Visit>, rows: nat, segments: seq<Summary>)
    requires Finished(rows, segments, Layout(base, vs), GapTotal(base, vs)) && Tidy(vs) && rows < WORD
    ensures EachRowOnce(segments, vs) <==> forall i :: 0 <= i < |Layout(base, vs)| ==> !Meets(Layout(base, vs)[i], rows)
  {
    var ops := Layout(base, vs);
    assert rows > 0;
    hide Finished, Tidy, Layout, Rows, RowsOfChunk, CountedIn, GapTotal, Meets, Meetings;
    forall i | 0 <= i < |ops| && Meets(ops[i], rows)
      ensures !CountsOnce(segments, vs, ops[i].chunk)
    {
      SegmentsRecordTheStream(base, vs, rows, segments, ops[i].chunk);
      SomeMeeting(ops, rows, i);
    }
    if forall i :: 0 <= i < |ops| ==> !Meets(ops[i], rows) {
      forall chunk: u32
        ensures CountsOnce(segments, vs, chunk)
      {
        SegmentsRecordTheStream(base, vs, rows, segments, chunk);
        NoMeetings(ops, rows, chunk);
      }
    }
  }

  // ---- It happens ----

  lemma {:induction false} TwoPlaced(base: u32, v: Visit, w: Visit)
    ensures var vs, g, h := [v, w], GapWords(base, v.addr), GapWords(v.addr, w.addr);
            && GapTotal(base, vs) == g + v.count + h + w.count
            && Layout(base, vs) == [Placed(v.chunk, v.addr, g, g, v.count), Placed(w.chunk, w.addr, h, g + v.count + h, w.count)]
  {
    hide GapWords;
    assert [v, w][..1] == [v] && [v][..0] == [];
    assert GapTotal(base, []) == 0 && Layout(base, []) == [];
    assert Layout(base, [v]) == [Placed(v.chunk, v.addr, GapWords(base, v.addr), GapWords(base, v.addr), v.count)];
  }

  lemma {:induction false} TwoOps(p: Placed, q: Placed, a: nat, b: nat)
    ensures OpsEvents([p, q], a, b) == OpEvents(p, a, b) + OpEvents(q, a, b)
    ensures q.start >= a && p.start >= a ==> Resume([p, q], a) == []
    ensures q.start >= a && p.start < a ==> Resume([p, q], a) == [Piece(p.chunk, p.addr, Min(p.count, a - p.start), 0)]
  {
    hide OpEvents;
    assert [p, q][..1] == [p] && [p][..0] == [];
    assert OpsEvents([p], a, b) == [] + OpEvents(p, a, b);
    assert Resume([], a) == [];
  }

  /** The first segment's events: the first operation's row, and the odd row of the second. */
  lemma {:induction false} FirstOdd(p: Placed, q: Placed)
    requires p == Placed(0, 0x8000_0000, 0, 0, 1) && q == Placed(1, 0x8000_0010, 1, 2, 1)
    ensures Events([p, q], 0, 2) == [Piece(0, 0x8000_0000, 0, 1), Piece(1, 0x8000_0010, 0, 1)]
  {
    TwoOps(p, q, 0, 2);
    hide OpsEvents, Resume;
  }

  /** The second segment's: the resume point and the second operation's row. */
  lemma {:induction false} SecondOdd(p: Placed, q: Placed)
    requires p == Placed(0, 0x8000_0000, 0, 0, 1) && q == Placed(1, 0x8000_0010, 1, 2, 1)
    ensures Events([p, q], 2, 4) == [Piece(0, 0x8000_0000, 1, 0), Piece(1, 0x8000_0010, 0, 1)]
  {
    TwoOps(p, q, 2, 4);
    hide OpsEvents, Resume;
  }

  /** Of two operations of one row each, a word apart, with segments of two rows, the second is counted by
      the checkpoints of both segments. Instances.dfy gives a trace for it. */
  lemma {:induction false} OneRowIsRecordedTwice(segments: seq<Summary>)
    requires var vs := [Visit(0, 0, 2, 0, 0x8000_0000, 1), Visit(2, 0, 2, 1, 0x8000_0010, 1)];
             Finished(2, segments, Layout(0x8000_0000, vs), GapTotal(0x8000_0000, vs))
    ensures |segments| == 2 && 1 in segments[0] && 1 in segments[1]
    ensures segments[0][1].count == 1 && segments[1][1].count == 1
    ensures segments[0][1].fromAddr == segments[1][1].fromAddr == 0x8000_0010
  {
    hide Layout, GapTotal, Events, Fold;
    var p, q := Placed(0, 0x8000_0000, 0, 0, 1), Placed(1, 0x8000_0010, 1, 2, 1);
    TwoPlaced(0x8000_0000, Visit(0, 0, 2, 0, 0x8000_0000, 1), Visit(2, 0, 2, 1, 0x8000_0010, 1));
    assert SegmentIs([p, q], 2, 0, segments[0]) && SegmentIs([p, q], 2, 1, segments[1]);
    assert From(2, 0) == 0 && From(2, 1) == 2;
    FirstOdd(p, q);
    SecondOdd(p, q);
    FoldTwo(Piece(0, 0x8000_0000, 0, 1), Piece(1, 0x8000_0010, 0, 1));
    FoldTwo(Piece(0, 0x8000_0000, 1, 0), Piece(1, 0x8000_0010, 0, 1));
  }
}
