/** Packing unaligned operations into segments (mem_align_counter.hpp). An operation's rows are never
    split over two segments; a checkpoint stands for a run of operations of one chunk in one segment. */
module AlignCounter {
  import opened MemConfig
  import opened Trace

  // ---- The operations to pack ----

  /** An unaligned operation: the index-th of its chunk, and the rows it takes. */
  datatype Item = Item(chunk: u32, index: nat, rows: nat)

  /** One row for every memory access and one for the result. */
  function AlignRows(op: Op): nat {
    (if Bytes(op) + op.addr % 8 > 8 then 2 else 1) * (if op.flags / 0x1_0000 % 2 == 1 then 2 else 1) + 1
  }

  function UnalignedIn(ops: seq<Op>): nat {
    if ops == [] then 0 else UnalignedIn(ops[..|ops| - 1]) + if FullWord(ops[|ops| - 1]) then 0 else 1
  }

  function ItemsIn(chunk: u32, ops: seq<Op>): seq<Item> {
    if ops == [] then [] else
      var front, op := ops[..|ops| - 1], ops[|ops| - 1];
      ItemsIn(chunk, front) + if FullWord(op) then [] else [Item(chunk, UnalignedIn(front), AlignRows(op))]
  }

  function Items(chunks: seq<seq<Op>>): seq<Item>
    requires |chunks| <= MAX_CHUNKS
  {
    if chunks == [] then [] else
      var c := |chunks| - 1;
      Items(chunks[..c]) + ItemsIn(c, chunks[c])
  }

  // ---- The ideal packing ----

  /** Where an operation goes: a segment and its first row there. */
  datatype Slot = Slot(segment: nat, chunk: u32, index: nat, offset: nat, rows: nat)

  function After(s: Slot): nat { s.offset + s.rows }

  /** Next to the operation before it if that leaves room, else at the start of the next segment. */
  function NextSlot(slots: seq<Slot>, item: Item, rows: nat): Slot {
    if slots == [] then Slot(0, item.chunk, item.index, 0, item.rows) else
      var last := slots[|slots| - 1];
      if After(last) + item.rows <= rows then Slot(last.segment, item.chunk, item.index, After(last), item.rows)
      else Slot(last.segment + 1, item.chunk, item.index, 0, item.rows)
  }

  function Slots(items: seq<Item>, rows: nat): seq<Slot> {
    if items == [] then [] else
      var front := Slots(items[..|items| - 1], rows);
      front + [NextSlot(front, items[|items| - 1], rows)]
  }

  datatype MemAlignCheckPoint = MemAlignCheckPoint(segmentId: nat, chunkId: u32, skip: nat, count: nat, rows: nat, offset: nat)

  /** Adding a slot to the checkpoints: the last one grows, or a new one is opened. */
  function WithSlot(cps: seq<MemAlignCheckPoint>, s: Slot): seq<MemAlignCheckPoint> {
    if cps != [] && cps[|cps| - 1].segmentId == s.segment && cps[|cps| - 1].chunkId == s.chunk then
      var last := cps[|cps| - 1];
      cps[|cps| - 1 := last.(count := last.count + 1, rows := last.rows + s.rows)]
    else
      cps + [MemAlignCheckPoint(s.segment, s.chunk, s.index, 1, s.rows, s.offset)]
  }

  /** Runs of slots of one chunk in one segment, as checkpoints. */
  function Grouped(slots: seq<Slot>): seq<MemAlignCheckPoint> {
    if slots == [] then [] else WithSlot(Grouped(slots[..|slots| - 1]), slots[|slots| - 1])
  }

  ghost predicate Follows(items: seq<Item>, i: nat)
    requires i < |items|
  {
    && 2 <= items[i].rows <= 5
    && (if i > 0 && items[i - 1].chunk == items[i].chunk then items[i].index == items[i - 1].index + 1
        else items[i].index == 0)
  }

  /** Operations take two to five rows, and within a chunk they are numbered 0, 1, 2, ... */
  ghost predicate InSequence(items: seq<Item>) {
    forall i :: 0 <= i < |items| ==> Follows(items, i)
  }

  // ---- The counter's state is the ideal packing ----

  /** The last slot and the last checkpoint end together. */
  ghost predicate LastMatches(cps: seq<MemAlignCheckPoint>, slots: seq<Slot>, rows: nat) {
    (cps == [] <==> slots == []) &&
    (slots != [] ==>
       var cp, s := cps[|cps| - 1], slots[|slots| - 1];
       && cp.segmentId == s.segment && cp.chunkId == s.chunk
       && cp.skip + cp.count == s.index + 1 && cp.offset + cp.rows == After(s) <= rows && 1 <= cp.count <= cp.rows)
  }

  lemma {:induction false} FrontInSequence(items: seq<Item>)
    requires InSequence(items) && items != []
    ensures InSequence(items[..|items| - 1])
  {
    var front := items[..|items| - 1];
    forall i | 0 <= i < |front|
      ensures Follows(front, i)
    {
      assert Follows(items, i);
    }
  }

  lemma {:induction false} SlotsMatch(items: seq<Item>, rows: nat)
    requires InSequence(items) && rows >= 5
    ensures |Slots(items, rows)| == |items| && LastMatches(Grouped(Slots(items, rows)), Slots(items, rows), rows)
    ensures items != [] ==>
              var s, item := Slots(items, rows)[|items| - 1], items[|items| - 1];
              s.chunk == item.chunk && s.index == item.index && s.rows == item.rows && s.segment < |items|
    decreases |items|
  {
    if items == [] {
    } else {
      var front := items[..|items| - 1];
      assert Follows(items, |items| - 1);
      FrontInSequence(items);
      SlotsMatch(front, rows);
      var slots := Slots(items, rows);
      assert slots[..|slots| - 1] == Slots(front, rows);
    }
  }

  // ---- What the checkpoints say ----

  /** The operations the checkpoints name, in order. */
  function Named(cps: seq<MemAlignCheckPoint>): seq<(u32, nat)> {
    if cps == [] then [] else
      var cp := cps[|cps| - 1];
      Named(cps[..|cps| - 1]) + seq(cp.count, i requires 0 <= i < cp.count => (cp.chunkId, cp.skip + i))
  }

  function NamesOf(items: seq<Item>): seq<(u32, nat)> {
    seq(|items|, i requires 0 <= i < |items| => (items[i].chunk, items[i].index))
  }

  function RowsIn(cps: seq<MemAlignCheckPoint>, segment: nat): nat {
    if cps == [] then 0 else
      var cp := cps[|cps| - 1];
      RowsIn(cps[..|cps| - 1], segment) + if cp.segmentId == segment then cp.rows else 0
  }

  function RowsUpTo(cps: seq<MemAlignCheckPoint>, segments: nat): nat {
    if segments == 0 then 0 else RowsUpTo(cps, segments - 1) + RowsIn(cps, segments - 1)
  }

  function ItemRows(items: seq<Item>): nat {
    if items == [] then 0 else ItemRows(items[..|items| - 1]) + items[|items| - 1].rows
  }

  lemma {:induction false} SlotIsNamed(cps: seq<MemAlignCheckPoint>, s: Slot)
    requires cps != [] && cps[|cps| - 1].segmentId == s.segment && cps[|cps| - 1].chunkId == s.chunk ==>
               cps[|cps| - 1].skip + cps[|cps| - 1].count == s.index
    ensures Named(WithSlot(cps, s)) == Named(cps) + [(s.chunk, s.index)]
  {
  }

  lemma {:induction false} SlotRows(cps: seq<MemAlignCheckPoint>, s: Slot, segment: nat)
    ensures RowsIn(WithSlot(cps, s), segment) == RowsIn(cps, segment) + if s.segment == segment then s.rows else 0
  {
  }

  lemma {:induction false} SlotRowsUpTo(cps: seq<MemAlignCheckPoint>, s: Slot, segments: nat)
    ensures RowsUpTo(WithSlot(cps, s), segments) == RowsUpTo(cps, segments) + if s.segment < segments then s.rows else 0
  {
    hide WithSlot, RowsIn;
    if segments == 0 {
    } else {
      SlotRowsUpTo(cps, s, segments - 1);
      SlotRows(cps, s, segments - 1);
    }
  }

  /** No operation is lost, repeated or reordered: the (skip, count) runs of the checkpoints name exactly
      the unaligned operations of the chunks, in order. */
  lemma {:induction false} CheckPointsTile(items: seq<Item>, rows: nat)
    requires InSequence(items) && rows >= 5
    ensures Named(Grouped(Slots(items, rows))) == NamesOf(items)
    decreases |items|
  {
    if items == [] {
    } else {
      var front, item := items[..|items| - 1], items[|items| - 1];
      var slots := Slots(items, rows);
      assert slots[..|slots| - 1] == Slots(front, rows);
      FrontInSequence(items);
      SlotsMatch(front, rows);
      assert Follows(items, |items| - 1);
      CheckPointsTile(front, rows);
      SlotIsNamed(Grouped(Slots(front, rows)), slots[|slots| - 1]);
      assert NamesOf(items) == NamesOf(front) + [(item.chunk, item.index)];
    }
  }

  ghost predicate Filled(cps: seq<MemAlignCheckPoint>, rows: nat, last: nat, end: nat) {
    && end <= rows && RowsIn(cps, last) == end
    && (forall s: nat :: s < last ==> rows - 5 < RowsIn(cps, s) <= rows)
    && (forall s: nat :: s > last ==> RowsIn(cps, s) == 0)
  }

  ghost predicate StartsWhereItSays(cps: seq<MemAlignCheckPoint>, k: nat)
    requires k < |cps|
  {
    cps[k].offset == RowsIn(cps[..k], cps[k].segmentId)
  }

  ghost predicate Started(cps: seq<MemAlignCheckPoint>, last: nat) {
    forall k :: 0 <= k < |cps| ==> StartsWhereItSays(cps, k) && cps[k].segmentId <= last
  }

  /** How full the segments are, the last slot being in segment `last` and ending after row `end`. */
  ghost predicate Packed(cps: seq<MemAlignCheckPoint>, rows: nat, last: nat, end: nat) {
    Filled(cps, rows, last, end) && Started(cps, last)
  }

  lemma {:induction false} SlotKeepsStarts(cps: seq<MemAlignCheckPoint>, s: Slot, last: nat)
    requires Started(cps, last) && last <= s.segment && s.offset == RowsIn(cps, s.segment)
    ensures Started(WithSlot(cps, s), s.segment)
  {
    var cps' := WithSlot(cps, s);
    forall k | 0 <= k < |cps'|
      ensures StartsWhereItSays(cps', k) && cps'[k].segmentId <= s.segment
    {
      assert cps'[..k] == cps[..k];
      if k < |cps| {
        assert StartsWhereItSays(cps, k);
      } else {
        assert cps[..k] == cps;
      }
    }
  }

  /** Where the next operation goes: after the last one if it fits, else into a fresh segment, which
      leaves fewer than five rows of the old one unused. */
  ghost predicate Fits(s: Slot, rows: nat, last: nat, end: nat) {
    && 2 <= s.rows <= 5 <= rows
    && (if end + s.rows <= rows then s.segment == last && s.offset == end else s.segment == last + 1 && s.offset == 0)
  }

  lemma {:induction false} SlotKeepsPacked(cps: seq<MemAlignCheckPoint>, rows: nat, last: nat, end: nat, s: Slot)
    requires Packed(cps, rows, last, end) && Fits(s, rows, last, end)
    ensures Packed(WithSlot(cps, s), rows, s.segment, After(s))
  {
    hide WithSlot, RowsIn, Started;
    SlotKeepsStarts(cps, s, last);
    forall t: nat
      ensures RowsIn(WithSlot(cps, s), t) == RowsIn(cps, t) + if s.segment == t then s.rows else 0
    {
      SlotRows(cps, s, t);
    }
  }

  lemma {:induction false} NothingIsPacked(rows: nat)
    ensures Packed([], rows, 0, 0)
  {
    hide StartsWhereItSays;
  }

  lemma {:induction false} FirstSlotIsPacked(rows: nat, s: Slot)
    requires 2 <= s.rows <= 5 <= rows && s.segment == 0 && s.offset == 0
    ensures Packed(WithSlot([], s), rows, 0, s.rows)
  {
    hide Packed, WithSlot;
    NothingIsPacked(rows);
    SlotKeepsPacked([], rows, 0, 0, s);
  }

  /** The packing: no segment holds more than `rows` rows, every one before the last wastes at most four,
      and every checkpoint starts where the ones before it in its segment end. */
  lemma {:induction false} SegmentsArePacked(items: seq<Item>, rows: nat)
    requires InSequence(items) && rows >= 5 && items != []
    ensures var slots := Slots(items, rows);
            |slots| == |items| && Packed(Grouped(slots), rows, slots[|slots| - 1].segment, After(slots[|slots| - 1]))
    decreases |items|
  {
    var front, item, slots := items[..|items| - 1], items[|items| - 1], Slots(items, rows);
    assert slots[..|slots| - 1] == Slots(front, rows);
    FrontInSequence(items);
    SlotsMatch(front, rows);
    assert Follows(items, |items| - 1);
    hide Packed, Follows, InSequence, WithSlot;
    if front == [] {
      FirstSlotIsPacked(rows, slots[0]);
    } else {
      SegmentsArePacked(front, rows);
      var f := Slots(front, rows);
      SlotKeepsPacked(Grouped(f), rows, f[|f| - 1].segment, After(f[|f| - 1]), slots[|slots| - 1]);
    }
  }

  lemma {:induction false} NoRows(segments: nat)
    ensures RowsUpTo([], segments) == 0
  {
    if segments == 0 {
    } else {
      NoRows(segments - 1);
    }
  }

  lemma {:induction false} AllRowsArePacked(items: seq<Item>, rows: nat, segments: nat)
    requires InSequence(items) && rows >= 5
    requires items != [] ==> |Slots(items, rows)| == |items| && Slots(items, rows)[|items| - 1].segment < segments
    ensures RowsUpTo(Grouped(Slots(items, rows)), segments) == ItemRows(items)
    decreases |items|
  {
    if items == [] {
      NoRows(segments);
    } else {
      var front, slots := items[..|items| - 1], Slots(items, rows);
      assert slots[..|slots| - 1] == Slots(front, rows);
      FrontInSequence(items);
      SlotsMatch(front, rows);
      SlotsMatch(items, rows);
      AllRowsArePacked(front, rows, segments);
      SlotRowsUpTo(Grouped(Slots(front, rows)), slots[|slots| - 1], segments);
    }
  }

  lemma {:induction false} FullSegmentsHold(cps: seq<MemAlignCheckPoint>, rows: nat, last: nat, end: nat, segments: nat)
    requires Packed(cps, rows, last, end) && segments <= last && rows >= 5
    ensures RowsUpTo(cps, segments) >= segments * (rows - 4)
  {
    if segments == 0 {
    } else {
      FullSegmentsHold(cps, rows, last, end, segments - 1);
      MulStep(segments - 1, rows - 4);
    }
  }

  lemma {:induction false} LastTakesRows(items: seq<Item>)
    requires InSequence(items) && items != []
    ensures items[|items| - 1].rows >= 2
  {
    assert Follows(items, |items| - 1);
  }

  lemma {:induction false} BoundFrom(last: nat, rows: nat, total: nat)
    requires rows >= 5 && total >= last * (rows - 4) + 1
    ensures last + 1 <= (total + rows - 5) / (rows - 4)
  {
  }

  /** The waste bound: the segments are at most ceil(total rows / (rows - 4)). */
  lemma {:induction false} SegmentBound(items: seq<Item>, rows: nat)
    requires InSequence(items) && rows >= 5 && items != []
    ensures |Slots(items, rows)| == |items|
    ensures var segments := Slots(items, rows)[|items| - 1].segment + 1;
            && RowsUpTo(Grouped(Slots(items, rows)), segments) == ItemRows(items)
            && segments <= (ItemRows(items) + rows - 5) / (rows - 4)
  {
    hide Grouped, Slots, ItemRows, InSequence, RowsIn, LastMatches, Started;
    SegmentsArePacked(items, rows);
    SlotsMatch(items, rows);
    var slots, cps := Slots(items, rows), Grouped(Slots(items, rows));
    var last, end := slots[|slots| - 1].segment, After(slots[|slots| - 1]);
    LastTakesRows(items);
    AllRowsArePacked(items, rows, last + 1);
    FullSegmentsHold(cps, rows, last, end, last);
    assert RowsUpTo(cps, last + 1) == RowsUpTo(cps, last) + end;
    BoundFrom(last, rows, ItemRows(items));
  }

  // ---- The trace's operations ----

  lemma {:induction false} RowsOfOp(op: Op)
    requires WellFormed(op)
    ensures 2 <= AlignRows(op) <= 5
    ensures !FullWord(op) ==> AlignRows(op) == OpCost(op) + 1
    ensures FullWord(op) ==> OpCost(op) == 1
  {
  }

  lemma {:induction false} ItemsInChunk(chunk: u32, ops: seq<Op>)
    requires AllWellFormed(ops)
    ensures |ItemsIn(chunk, ops)| == UnalignedIn(ops) <= |ops|
    ensures forall i :: 0 <= i < |ItemsIn(chunk, ops)| ==>
              var item := ItemsIn(chunk, ops)[i]; item.chunk == chunk && item.index == i && 2 <= item.rows <= 5
    decreases |ops|
  {
    if ops == [] {
    } else {
      ItemsInChunk(chunk, ops[..|ops| - 1]);
      RowsOfOp(ops[|ops| - 1]);
    }
  }

  lemma {:induction false} ChunkContinues(items: seq<Item>, chunk: u32, ops: seq<Op>)
    requires AllWellFormed(ops) && InSequence(items) && forall i :: 0 <= i < |items| ==> items[i].chunk < chunk
    ensures InSequence(items + ItemsIn(chunk, ops))
    ensures forall i :: 0 <= i < |items + ItemsIn(chunk, ops)| ==> (items + ItemsIn(chunk, ops))[i].chunk <= chunk
  {
    ItemsInChunk(chunk, ops);
    hide ItemsIn, UnalignedIn;
    var all := items + ItemsIn(chunk, ops);
    forall i | 0 <= i < |all|
      ensures Follows(all, i)
    {
      if i < |items| {
        assert Follows(items, i);
      }
    }
  }

  lemma {:induction false} TraceInSequence(chunks: seq<seq<Op>>)
    requires TraceWellFormed(chunks)
    ensures InSequence(Items(chunks))
    ensures forall i :: 0 <= i < |Items(chunks)| ==> Items(chunks)[i].chunk < |chunks|
    decreases |chunks|
  {
    if chunks == [] {
    } else {
      var c := |chunks| - 1;
      TraceInSequence(chunks[..c]);
      ChunkContinues(Items(chunks[..c]), c, chunks[c]);
    }
  }

  /** What tools.hpp counts for the unaligned operations. */
  function UnalignedCost(ops: seq<Op>): nat {
    if ops == [] then 0 else
      UnalignedCost(ops[..|ops| - 1]) + if FullWord(ops[|ops| - 1]) then 0 else OpCost(ops[|ops| - 1])
  }

  lemma {:induction false} ItemRowsConcat(xs: seq<Item>, ys: seq<Item>)
    ensures ItemRows(xs + ys) == ItemRows(xs) + ItemRows(ys)
    decreases |ys|
  {
    if ys == [] {
      assert xs + ys == xs;
    } else {
      assert (xs + ys)[..|xs + ys| - 1] == xs + ys[..|ys| - 1];
      ItemRowsConcat(xs, ys[..|ys| - 1]);
    }
  }

  lemma {:induction false} ChunkCost(chunk: u32, ops: seq<Op>)
    requires AllWellFormed(ops)
    ensures ItemRows(ItemsIn(chunk, ops)) == UnalignedCost(ops) + UnalignedIn(ops)
    ensures TotalCost(ops) == UnalignedCost(ops) + (|ops| - UnalignedIn(ops))
    decreases |ops|
  {
    if ops == [] {
    } else {
      var front, op := ops[..|ops| - 1], ops[|ops| - 1];
      ChunkCost(chunk, front);
      RowsOfOp(op);
      if !FullWord(op) {
        ItemRowsConcat(ItemsIn(chunk, front), [Item(chunk, UnalignedIn(front), AlignRows(op))]);
        assert ItemRows([]) == 0 && [Item(chunk, UnalignedIn(front), AlignRows(op))][..0] == [];
      } else {
        assert ItemsIn(chunk, front) + [] == ItemsIn(chunk, front);
      }
    }
  }

  lemma {:induction false} CostConcat(xs: seq<Op>, ys: seq<Op>)
    ensures TotalCost(xs + ys) == TotalCost(xs) + TotalCost(ys)
    decreases |ys|
  {
    if ys == [] {
      assert xs + ys == xs;
    } else {
      assert (xs + ys)[..|xs + ys| - 1] == xs + ys[..|ys| - 1];
      CostConcat(xs, ys[..|ys| - 1]);
    }
  }

  lemma {:induction false} ChunkBalance(items: seq<Item>, before: seq<Op>, chunk: u32, ops: seq<Op>)
    requires AllWellFormed(ops)
    ensures |ItemsIn(chunk, ops)| <= |ops|
    ensures ItemRows(items + ItemsIn(chunk, ops)) + |ops| + TotalCost(before)
            == ItemRows(items) + TotalCost(before + ops) + 2 * |ItemsIn(chunk, ops)|
  {
    hide AllWellFormed, ItemRows, TotalCost, ItemsIn, UnalignedIn, UnalignedCost;
    ChunkCost(chunk, ops);
    ItemsInChunk(chunk, ops);
    ItemRowsConcat(items, ItemsIn(chunk, ops));
    CostConcat(before, ops);
  }

  /** The rows packed are the memory operations of the unaligned accesses, as tools.hpp counts them, and
      one more for each: with `aligned` accesses of full words, total operations and rows determine each
      other. */
  lemma {:induction false} RowsAreOperations(chunks: seq<seq<Op>>)
    requires TraceWellFormed(chunks)
    ensures |Items(chunks)| <= |Flatten(chunks)|
    ensures var aligned := |Flatten(chunks)| - |Items(chunks)|;
            ItemRows(Items(chunks)) + aligned == TotalCost(Flatten(chunks)) + |Items(chunks)|
    decreases |chunks|
  {
    if chunks == [] {
    } else {
      var c := |chunks| - 1;
      RowsAreOperations(chunks[..c]);
      ChunkBalance(Items(chunks[..c]), Flatten(chunks[..c]), c, chunks[c]);
    }
  }

  // ---- The counter ----

  /** One more operation, from the counter's point of view. */
  lemma {:induction false} OneMoreItem(items: seq<Item>, item: Item, rows: nat)
    ensures var slots := Slots(items, rows);
            && Slots(items + [item], rows) == slots + [NextSlot(slots, item, rows)]
            && Grouped(Slots(items + [item], rows)) == WithSlot(Grouped(slots), NextSlot(slots, item, rows))
  {
  }

  /** The counter's fields are those of the ideal packing of the operations so far. */
  ghost predicate Stands(rows: nat, cps: seq<MemAlignCheckPoint>, segmentId: int, available: nat, items: seq<Item>) {
    var slots := Slots(items, rows);
    && InSequence(items) && |slots| == |items| && 5 <= rows < WORD
    && cps == Grouped(slots)
    && (if slots == [] then segmentId == -1 && available == 0
        else segmentId == slots[|slots| - 1].segment && available == rows - After(slots[|slots| - 1]))
  }

  lemma {:induction false} StandsBounds(rows: nat, cps: seq<MemAlignCheckPoint>, segmentId: int, available: nat, items: seq<Item>)
    requires Stands(rows, cps, segmentId, available, items)
    ensures rows >= 5 && available <= rows && -1 <= segmentId < |items|
    ensures available > 0 ==>
              && cps != [] && segmentId >= 0 && items != []
              && var cp := cps[|cps| - 1];
                 cp.segmentId == segmentId && cp.chunkId == items[|items| - 1].chunk && cp.count <= cp.rows <= rows - available
  {
    SlotsMatch(items, rows);
  }

  /** What add_mem_align_op does to the fields, case by case. */
  ghost predicate AddsOp(rows: nat, cps: seq<MemAlignCheckPoint>, segmentId: int, available: nat, chunk: u32, ops: nat, skip: nat,
                         cps': seq<MemAlignCheckPoint>, segmentId': int, available': int)
    requires segmentId >= -1 && available <= rows
  {
    if available < ops then
      && cps' == cps + [MemAlignCheckPoint(segmentId + 1, chunk, skip, 1, ops, 0)]
      && segmentId' == segmentId + 1 && available' == rows - ops
    else
      && segmentId' == segmentId >= 0 && available' == available - ops && cps != []
      && var lcp := cps[|cps| - 1];
         if lcp.chunkId != chunk then cps' == cps + [MemAlignCheckPoint(segmentId, chunk, 0, 1, ops, rows - available)]
         else cps' == cps[|cps| - 1 := lcp.(count := lcp.count + 1, rows := lcp.rows + ops)]
  }

  lemma {:induction false} AddedStands(rows: nat, cps: seq<MemAlignCheckPoint>, segmentId: int, available: nat, items: seq<Item>, item: Item,
                                       cps': seq<MemAlignCheckPoint>, segmentId': int, available': int)
    requires Stands(rows, cps, segmentId, available, items) && InSequence(items + [item])
    requires segmentId >= -1 && available <= rows
    requires AddsOp(rows, cps, segmentId, available, item.chunk, item.rows, item.index, cps', segmentId', available')
    ensures available' >= 0 && Stands(rows, cps', segmentId', available', items + [item])
  {
    SlotsMatch(items, rows);
    OneMoreItem(items, item, rows);
    assert Follows(items + [item], |items|);
    hide InSequence, Slots, Grouped;
  }

  lemma {:induction false} NoOpsYet(items: seq<Item>, chunk: u32, data: seq<Op>)
    ensures items + ItemsIn(chunk, data[..0]) == items && UnalignedIn(data[..0]) == 0
  {
  }

  lemma {:induction false} OneMoreOp(items: seq<Item>, chunk: u32, data: seq<Op>, i: nat)
    requires i < |data| && AllWellFormed(data) && InSequence(items) && forall i :: 0 <= i < |items| ==> items[i].chunk < chunk
    ensures UnalignedIn(data[..i + 1]) == UnalignedIn(data[..i]) + if FullWord(data[i]) then 0 else 1
    ensures FullWord(data[i]) <==> data[i].flags % 256 == 8 && data[i].addr % 8 == 0
    ensures var done := items + ItemsIn(chunk, data[..i]);
            && |done| <= |items| + i
            && items + ItemsIn(chunk, data[..i + 1])
               == if FullWord(data[i]) then done else done + [Item(chunk, UnalignedIn(data[..i]), AlignRows(data[i]))]
    ensures InSequence(items + ItemsIn(chunk, data[..i + 1]))
    ensures var bytes, addr := data[i].flags % 256, data[i].addr;
            AlignRows(data[i]) == (if bytes + addr % 8 > 8 then 2 else 1) * (if data[i].flags / 0x1_0000 % 2 == 1 then 2 else 1) + 1
  {
    assert data[..i + 1][..i] == data[..i];
    ItemsInChunk(chunk, data[..i]);
    ChunkContinues(items, chunk, data[..i + 1]);
    hide InSequence, AllWellFormed, AlignRows, FullWord;
  }

  lemma {:induction false} FlattenGrows(chunks: seq<seq<Op>>, c: nat)
    requires c <= |chunks|
    ensures |Flatten(chunks[..c])| <= |Flatten(chunks)|
    decreases |chunks|
  {
    if c < |chunks| {
      FlattenGrows(chunks[..|chunks| - 1], c);
      assert chunks[..|chunks| - 1][..c] == chunks[..c];
    } else {
      assert chunks[..c] == chunks;
    }
  }

  lemma {:induction false} PrefixFits(chunks: seq<seq<Op>>, c: nat)
    requires TraceWellFormed(chunks) && 1 <= c <= |chunks|
    ensures |Items(chunks[..c - 1])| + |chunks[c - 1]| <= |Flatten(chunks)|
  {
    FlattenGrows(chunks, c);
    RowsAreOperations(chunks[..c - 1]);
    assert chunks[..c][..c - 1] == chunks[..c - 1];
  }

  class MemAlignCounter {
    const rows: u32
    var checkpoints: seq<MemAlignCheckPoint>
    var segmentId: int
    var availableRows: u32
    var skip: u32

    /** The counter has packed these operations; fewer than 2^31 of them keep every field in its word. */
    ghost predicate HasPacked(items: seq<Item>)
      reads this
    {
      Stands(rows, checkpoints, segmentId, availableRows, items) && |items| < 0x8000_0000
    }

    constructor (rows: u32)
      requires rows >= 5
      ensures this.rows == rows && HasPacked([])
    {
      this.rows := rows;
      checkpoints, segmentId, availableRows, skip := [], -1, 0, 0;
    }

    method OpenChunk(chunk: u32, ops: u32)
      requires 0 <= segmentId && availableRows <= rows
      modifies this`checkpoints
      ensures checkpoints == old(checkpoints)
                + [MemAlignCheckPoint(Wrap(segmentId), chunk, 0, if ops > 0 then 1 else 0, ops, rows - availableRows)]
    {
      checkpoints := checkpoints + [MemAlignCheckPoint(Wrap(segmentId), chunk, 0, if ops > 0 then 1 else 0, ops, rows - availableRows)];
    }

    method OpenSegment(chunk: u32, ops: u32)
      modifies this`checkpoints, this`segmentId, this`availableRows
      ensures segmentId == old(segmentId) + 1 && availableRows == rows
      ensures checkpoints == old(checkpoints)
                + [MemAlignCheckPoint(Wrap(segmentId), chunk, skip, if ops > 0 then 1 else 0, ops, 0)]
    {
      segmentId := segmentId + 1;
      checkpoints := checkpoints + [MemAlignCheckPoint(Wrap(segmentId), chunk, skip, if ops > 0 then 1 else 0, ops, 0)];
      availableRows := rows;
    }

    method AddMemAlignOp(chunk: u32, ops: u32, ghost items: seq<Item>)
      requires HasPacked(items) && InSequence(items + [Item(chunk, skip, ops)]) && |items| + 1 < 0x8000_0000
      modifies this`checkpoints, this`segmentId, this`availableRows
      ensures HasPacked(items + [Item(chunk, skip, ops)])
    {
      StandsBounds(rows, checkpoints, segmentId, availableRows, items);
      assert 2 <= ops <= 5 by { assert Follows(items + [Item(chunk, skip, ops)], |items|); }
      hide Stands, InSequence;
      if availableRows < ops {
        OpenSegment(chunk, ops);
      } else {
        var lcp := checkpoints[|checkpoints| - 1];
        if lcp.chunkId != chunk {
          OpenChunk(chunk, ops);
        } else {
          checkpoints := checkpoints[|checkpoints| - 1 := lcp.(count := Wrap(lcp.count + 1), rows := Wrap(lcp.rows + ops))];
        }
      }
      availableRows := availableRows - ops;
      AddedStands(rows, old(checkpoints), old(segmentId), old(availableRows), items, Item(chunk, skip, ops),
                  checkpoints, segmentId, availableRows);
    }

    /** The unaligned operations of a chunk, in order. */
    method ExecuteChunk(chunk: u32, data: seq<Op>, ghost items: seq<Item>)
      requires AllWellFormed(data) && InSequence(items) && forall i :: 0 <= i < |items| ==> items[i].chunk < chunk
      requires HasPacked(items) && |items| + |data| < 0x8000_0000
      modifies this
      ensures HasPacked(items + ItemsIn(chunk, data))
    {
      hide Stands, ItemsIn, InSequence, UnalignedIn, FullWord, AlignRows;
      skip := 0;
      NoOpsYet(items, chunk, data);
      for i := 0 to |data|
        invariant HasPacked(items + ItemsIn(chunk, data[..i])) && skip == UnalignedIn(data[..i]) <= i
      {
        var bytes, addr := data[i].flags % 256, data[i].addr;
        ghost var done := items + ItemsIn(chunk, data[..i]);
        OneMoreOp(items, chunk, data, i);
        if bytes != 8 || addr % 8 != 0 {
          var addrCount := if bytes + addr % 8 > 8 then 2 else 1;
          var opsByAddr := if data[i].flags / 0x1_0000 % 2 == 1 then 2 else 1;
          var ops := addrCount * opsByAddr + 1;
          AddMemAlignOp(chunk, ops, done);
          skip := skip + 1;
        }
      }
      assert data[..|data|] == data;
    }

    /** Every chunk of the feed, in order: the checkpoints are the ideal packing of its operations. */
    method Execute(chunks: seq<seq<Op>>)
      requires TraceWellFormed(chunks) && |Flatten(chunks)| < 0x8000_0000 && HasPacked([])
      modifies this
      ensures HasPacked(Items(chunks))
      ensures checkpoints == Grouped(Slots(Items(chunks), rows))
    {
      var chunk := 0;
      while chunk < |chunks|
        invariant 0 <= chunk <= |chunks| && HasPacked(Items(chunks[..chunk]))
      {
        PrefixFits(chunks, chunk + 1);
        TraceInSequence(chunks[..chunk]);
        assert chunks[..chunk + 1][..chunk] == chunks[..chunk];
        ExecuteChunk(chunk, chunks[chunk], Items(chunks[..chunk]));
        chunk := chunk + 1;
      }
      assert chunks[..|chunks|] == chunks;
    }
  }
}
