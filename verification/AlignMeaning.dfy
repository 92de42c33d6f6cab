/** What every checkpoint of the align counter says, against the operations of the trace. */
module AlignMeaning {
  import opened MemConfig
  import opened Trace
  import opened AlignCounter

  // ---- Which operation is which ----

  function UnalignedBefore(ops: seq<Op>, j: nat): set<nat>
    requires j <= |ops|
  {
    set i: nat | i < j && !(ops[i].flags % 256 == 8 && ops[i].addr % 8 == 0)
  }

  /** An item counts the unaligned operations before it in its chunk. */
  lemma {:induction false} UnalignedCount(ops: seq<Op>, j: nat)
    requires j <= |ops|
    ensures UnalignedIn(ops[..j]) == |UnalignedBefore(ops, j)|
    decreases j
  {
    if j == 0 {
      assert UnalignedBefore(ops, 0) == {};
    } else {
      UnalignedCount(ops, j - 1);
      assert ops[..j][..j - 1] == ops[..j - 1];
      assert UnalignedBefore(ops, j) == UnalignedBefore(ops, j - 1) + if FullWord(ops[j - 1]) then {} else {j - 1};
    }
  }

  lemma {:induction false} ItemOfOpIn(chunk: u32, ops: seq<Op>, j: nat)
    requires AllWellFormed(ops) && j < |ops| && !FullWord(ops[j])
    ensures |ItemsIn(chunk, ops)| == UnalignedIn(ops) && UnalignedIn(ops[..j]) < UnalignedIn(ops)
    ensures ItemsIn(chunk, ops)[UnalignedIn(ops[..j])] == Item(chunk, UnalignedIn(ops[..j]), OpCost(ops[j]) + 1)
    decreases |ops|
  {
    var front, op := ops[..|ops| - 1], ops[|ops| - 1];
    ItemsInChunk(chunk, ops);
    ItemsInChunk(chunk, front);
    RowsOfOp(ops[j]);
    hide AlignRows, OpCost, WellFormed, FullWord;
    if j == |front| {
    } else {
      ItemOfOpIn(chunk, front, j);
      assert front[..j] == ops[..j];
    }
  }

  lemma {:induction false} ItemsGrow(chunks: seq<seq<Op>>, c: nat)
    requires c <= |chunks| <= MAX_CHUNKS
    ensures Items(chunks[..c]) <= Items(chunks)
    ensures c < |chunks| ==> Items(chunks[..c]) + ItemsIn(c, chunks[c]) <= Items(chunks)
    decreases |chunks|
  {
    hide ItemsIn;
    if c == |chunks| {
      assert chunks[..c] == chunks;
    } else {
      var front := chunks[..|chunks| - 1];
      ItemsGrow(front, c);
      assert front[..c] == chunks[..c];
    }
  }

  /** The unaligned operation j of chunk c is packed behind those of the chunks before it and those before it
      in its chunk, and takes one row more than tools.hpp counts for it. */
  lemma {:induction false} ItemOfOp(chunks: seq<seq<Op>>, c: nat, j: nat)
    requires TraceWellFormed(chunks) && c < |chunks| && j < |chunks[c]| && !FullWord(chunks[c][j])
    ensures var n, p := UnalignedIn(chunks[c][..j]), |Items(chunks[..c])| + UnalignedIn(chunks[c][..j]);
            p < |Items(chunks)| && Items(chunks)[p] == Item(c, n, OpCost(chunks[c][j]) + 1)
    ensures |Items(chunks[..c + 1])| == |Items(chunks[..c])| + UnalignedIn(chunks[c])
  {
    assert AllWellFormed(chunks[c]);
    assert chunks[..c + 1][..c] == chunks[..c];
    hide ItemsIn, UnalignedIn, AllWellFormed, OpCost, FullWord;
    ItemOfOpIn(c, chunks[c], j);
    ItemsGrow(chunks, c);
  }

  // ---- What a checkpoint says ----

  function ItemsBefore(cps: seq<MemAlignCheckPoint>, k: nat): nat
    requires k <= |cps|
  {
    if k == 0 then 0 else ItemsBefore(cps, k - 1) + cps[k - 1].count
  }

  /** Where a checkpoint starts: the first in segment 0; another right behind the one before it, if its first
      operation fits there, and then it is of another chunk; else in the next segment. */
  ghost predicate Opens(cps: seq<MemAlignCheckPoint>, items: seq<Item>, rows: nat, k: nat)
    requires k < |cps| && ItemsBefore(cps, k) < |items|
  {
    var cp, first := cps[k], items[ItemsBefore(cps, k)];
    if k == 0 then cp.segmentId == 0 && cp.offset == 0 else
      var p := cps[k - 1];
      if p.offset + p.rows + first.rows <= rows then
        cp.segmentId == p.segmentId && cp.offset == p.offset + p.rows && cp.chunkId != p.chunkId
      else
        cp.segmentId == p.segmentId + 1 && cp.offset == 0
  }

  /** A checkpoint stands for the next `count` operations, numbered from skip in its chunk, and takes their
      rows, within the segment. */
  ghost predicate Covers(cps: seq<MemAlignCheckPoint>, items: seq<Item>, rows: nat, k: nat)
    requires k < |cps|
  {
    var cp, n := cps[k], ItemsBefore(cps, k);
    && cp.count >= 1 && n + cp.count <= |items|
    && (forall i :: n <= i < n + cp.count ==> items[i].chunk == cp.chunkId && items[i].index == cp.skip + (i - n))
    && cp.rows == ItemRows(items[n..n + cp.count]) && cp.offset + cp.rows <= rows
  }

  ghost predicate Account(cps: seq<MemAlignCheckPoint>, items: seq<Item>, rows: nat) {
    && ItemsBefore(cps, |cps|) == |items|
    && (forall k :: 0 <= k < |cps| ==> Covers(cps, items, rows, k) && Opens(cps, items, rows, k))
  }

  lemma {:induction false} SameBefore(xs: seq<MemAlignCheckPoint>, ys: seq<MemAlignCheckPoint>, k: nat)
    requires k <= |xs| && k <= |ys| && xs[..k] == ys[..k]
    ensures ItemsBefore(xs, k) == ItemsBefore(ys, k)
  {
    if k == 0 {
    } else {
      assert xs[k - 1] == xs[..k][k - 1] && ys[k - 1] == ys[..k][k - 1];
      assert xs[..k - 1] == xs[..k][..k - 1] && ys[..k - 1] == ys[..k][..k - 1];
      SameBefore(xs, ys, k - 1);
    }
  }

  /** A checkpoint before the one that changes says the same of more items. */
  lemma {:induction false} OldCheckPoint(cps: seq<MemAlignCheckPoint>, cps': seq<MemAlignCheckPoint>, items: seq<Item>, item: Item, rows: nat, k: nat)
    requires k < |cps| && k < |cps'| && cps[..k + 1] == cps'[..k + 1]
    requires Covers(cps, items, rows, k) && Opens(cps, items, rows, k)
    ensures Covers(cps', items + [item], rows, k) && Opens(cps', items + [item], rows, k)
  {
    var n, cp := ItemsBefore(cps, k), cps[k];
    assert cps[k] == cps[..k + 1][k] && cps'[k] == cps'[..k + 1][k];
    assert k > 0 ==> cps[k - 1] == cps[..k + 1][k - 1] && cps'[k - 1] == cps'[..k + 1][k - 1];
    assert cps[..k] == cps[..k + 1][..k] && cps'[..k] == cps'[..k + 1][..k];
    SameBefore(cps, cps', k);
    assert (items + [item])[n..n + cp.count] == items[n..n + cp.count];
  }

  lemma {:induction false} ItemRowsSnoc(xs: seq<Item>, item: Item)
    ensures ItemRows(xs + [item]) == ItemRows(xs) + item.rows
  {
    assert (xs + [item])[..|xs|] == xs;
  }

  lemma {:induction false} LastCovers(cps: seq<MemAlignCheckPoint>, items: seq<Item>, rows: nat, item: Item, cp: MemAlignCheckPoint)
    requires cps != [] && ItemsBefore(cps, |cps|) == |items| && Covers(cps, items, rows, |cps| - 1)
    requires var last := cps[|cps| - 1];
             && item.chunk == last.chunkId && item.index == last.skip + last.count
             && last.offset + last.rows + item.rows <= rows
             && cp == last.(count := last.count + 1, rows := last.rows + item.rows)
    ensures ItemsBefore(cps[|cps| - 1 := cp], |cps| - 1) == ItemsBefore(cps, |cps| - 1)
    ensures Covers(cps[|cps| - 1 := cp], items + [item], rows, |cps| - 1)
  {
    var k, last, items' := |cps| - 1, cps[|cps| - 1], items + [item];
    var cps', n := cps[k := cp], ItemsBefore(cps, k);
    assert cps'[..k] == cps[..k];
    SameBefore(cps', cps, k);
    assert n + last.count == |items|;
    assert items'[n..n + cp.count] == items[n..n + last.count] + [item];
    ItemRowsSnoc(items[n..n + last.count], item);
    hide ItemRows, ItemsBefore;
  }

  /** One more operation in the last checkpoint. */
  lemma {:induction false} GrowsLast(cps: seq<MemAlignCheckPoint>, items: seq<Item>, rows: nat, item: Item, cp: MemAlignCheckPoint)
    requires Account(cps, items, rows) && cps != []
    requires var last := cps[|cps| - 1];
             && item.chunk == last.chunkId && item.index == last.skip + last.count
             && last.offset + last.rows + item.rows <= rows
             && cp == last.(count := last.count + 1, rows := last.rows + item.rows)
    ensures Account(cps[|cps| - 1 := cp], items + [item], rows)
  {
    var k, items' := |cps| - 1, items + [item];
    var cps' := cps[k := cp];
    assert Covers(cps, items, rows, k) && Opens(cps, items, rows, k);
    assert ItemsBefore(cps, k) < |items|;
    hide Covers;
    LastCovers(cps, items, rows, item, cp);
    assert Opens(cps', items', rows, k);
    hide Opens;
    forall j | 0 <= j < k
      ensures Covers(cps', items', rows, j) && Opens(cps', items', rows, j)
    {
      assert cps'[..j + 1] == cps[..j + 1];
      OldCheckPoint(cps, cps', items, item, rows, j);
    }
  }

  /** One more operation in a checkpoint of its own. */
  lemma {:induction false} OpensNew(cps: seq<MemAlignCheckPoint>, items: seq<Item>, rows: nat, item: Item, cp: MemAlignCheckPoint)
    requires Account(cps, items, rows) && item.rows <= rows
    requires cp == MemAlignCheckPoint(cp.segmentId, item.chunk, item.index, 1, item.rows, cp.offset)
    requires if cps == [] then cp.segmentId == 0 && cp.offset == 0 else
               var p := cps[|cps| - 1];
               if p.offset + p.rows + item.rows <= rows then
                 cp.segmentId == p.segmentId && cp.offset == p.offset + p.rows && cp.chunkId != p.chunkId
               else cp.segmentId == p.segmentId + 1 && cp.offset == 0
    ensures Account(cps + [cp], items + [item], rows)
  {
    var k, items', cps' := |cps|, items + [item], cps + [cp];
    assert cps'[..k] == cps[..k];
    SameBefore(cps', cps, k);
    assert items'[|items|..|items| + 1] == [] + [item];
    ItemRowsSnoc([], item);
    assert Covers(cps', items', rows, k) && Opens(cps', items', rows, k);
    forall j | 0 <= j < k
      ensures Covers(cps', items', rows, j) && Opens(cps', items', rows, j)
    {
      assert cps'[..j + 1] == cps[..j + 1];
      OldCheckPoint(cps, cps', items, item, rows, j);
    }
  }

  /** Every checkpoint says what it should, and together they account for all operations. */
  lemma {:induction false} CheckPointsAccount(items: seq<Item>, rows: nat)
    requires InSequence(items) && rows >= 5
    ensures Account(Grouped(Slots(items, rows)), items, rows)
    decreases |items|
  {
    if items == [] {
    } else {
      var front, item := items[..|items| - 1], items[|items| - 1];
      var slots, s := Slots(front, rows), NextSlot(Slots(front, rows), item, rows);
      var cps := Grouped(slots);
      assert front + [item] == items;
      OneMoreItem(front, item, rows);
      FrontInSequence(items);
      SlotsMatch(front, rows);
      assert Follows(items, |items| - 1);
      assert front != [] ==> items[|items| - 2] == front[|front| - 1];
      CheckPointsAccount(front, rows);
      hide Account, Slots, Grouped, InSequence;
      if cps != [] && cps[|cps| - 1].segmentId == s.segment && cps[|cps| - 1].chunkId == s.chunk {
        var last := cps[|cps| - 1];
        GrowsLast(cps, front, rows, item, last.(count := last.count + 1, rows := last.rows + s.rows));
      } else {
        OpensNew(cps, front, rows, item, MemAlignCheckPoint(s.segment, s.chunk, s.index, 1, s.rows, s.offset));
      }
    }
  }

  /** Checkpoint k in full: the operations it stands for, their rows, and where it starts. */
  lemma {:induction false} CheckPointSays(items: seq<Item>, rows: nat, k: nat)
    requires InSequence(items) && rows >= 5 && k < |Grouped(Slots(items, rows))|
    ensures ItemsBefore(Grouped(Slots(items, rows)), |Grouped(Slots(items, rows))|) == |items|
    ensures var cps := Grouped(Slots(items, rows));
            var cp, n := cps[k], ItemsBefore(cps, k);
            && cp.count >= 1 && n + cp.count <= |items|
            && (forall i :: n <= i < n + cp.count ==> items[i].chunk == cp.chunkId && items[i].index == cp.skip + (i - n))
            && cp.rows == ItemRows(items[n..n + cp.count]) && cp.offset + cp.rows <= rows
            && (k == 0 ==> cp.segmentId == 0 && cp.offset == 0)
            && (k > 0 ==>
                  var p := cps[k - 1];
                  if p.offset + p.rows + items[n].rows <= rows
                  then cp.segmentId == p.segmentId && cp.offset == p.offset + p.rows && cp.chunkId != p.chunkId
                  else cp.segmentId == p.segmentId + 1 && cp.offset == 0)
  {
    CheckPointsAccount(items, rows);
    assert Covers(Grouped(Slots(items, rows)), items, rows, k) && Opens(Grouped(Slots(items, rows)), items, rows, k);
    hide Grouped, Slots, InSequence, ItemRows;
  }
}
