/** When counting a trace succeeds: every word the worker counts must be mapped, and its words must fit the
    slots, ceil(entries / 7) blocks each. */
module Capacity {
  import opened MemConfig
  import opened AddressMap
  import opened Chains
  import opened Trace

  // ---- Sums over offsets ----

  function SumTo(m: map<nat, nat>, n: nat): nat {
    if n == 0 then 0 else SumTo(m, n - 1) + At(m, n - 1)
  }

  lemma {:induction false} SumToUpdate(m: map<nat, nat>, o: nat, v: nat, n: nat)
    requires At(m, o) == 0
    ensures SumTo(m[o := v], n) == SumTo(m, n) + if o < n then v else 0
  {
    if n == 0 {
    } else {
      SumToUpdate(m, o, v, n - 1);
    }
  }

  lemma {:induction false} SumToEmpty(n: nat)
    ensures SumTo(map[], n) == 0
  {
    if n == 0 {
    } else {
      SumToEmpty(n - 1);
    }
  }

  /** Only what lies on the order. */
  function Restrict(order: seq<nat>, m: map<nat, nat>): map<nat, nat> {
    map o | o in order :: At(m, o)
  }

  /** Summing along an order of offsets below n is summing over all of them. */
  lemma {:induction false} SumAlongOrder(order: seq<nat>, m: map<nat, nat>, n: nat)
    requires NoDuplicates(order) && forall i :: 0 <= i < |order| ==> order[i] < n
    ensures SumAt(order, m) == SumTo(Restrict(order, m), n)
    decreases |order|
  {
    if order == [] {
      assert Restrict(order, m) == map[];
      SumToEmpty(n);
    } else {
      var front, o := order[..|order| - 1], order[|order| - 1];
      SumAlongOrder(front, m, n);
      assert o !in front;
      assert Restrict(order, m) == Restrict(front, m)[o := At(m, o)];
      SumToUpdate(Restrict(front, m), o, At(m, o), n);
    }
  }

  // ---- The blocks a trace needs ----

  /** The blocks that the words of worker id at offsets below n need. */
  function BlocksNeeded(chunks: seq<seq<Op>>, id: nat, n: nat): nat
    requires |chunks| <= MAX_CHUNKS && id < MAX_THREADS && n <= ADDR_TABLE_SIZE
  {
    if n == 0 then 0 else BlocksNeeded(chunks, id, n - 1) + BlocksFor(|IdealList(chunks, SlotAddr(n - 1, id))|)
  }

  predicate OpMapped(op: Op, id: nat) {
    TouchBy(op, id).Some? ==> AddrToOffset(TouchBy(op, id).value.addr).Some?
  }

  /** Every word the worker counts is mapped. */
  ghost predicate WordsMapped(chunks: seq<seq<Op>>, id: nat) {
    forall c, i :: 0 <= c < |chunks| && 0 <= i < |chunks[c]| ==> OpMapped(chunks[c][i], id)
  }

  ghost predicate CountingFits(chunks: seq<seq<Op>>, id: nat)
    requires |chunks| <= MAX_CHUNKS && id < MAX_THREADS
  {
    WordsMapped(chunks, id) && BlocksNeeded(chunks, id, ADDR_TABLE_SIZE) <= ADDR_SLOTS
  }

  lemma {:induction false} SumIsNeeded(chunks: seq<seq<Op>>, id: nat, m: map<nat, nat>, n: nat)
    requires |chunks| <= MAX_CHUNKS && id < MAX_THREADS && n <= ADDR_TABLE_SIZE
    requires forall o :: 0 <= o < n ==> At(m, o) == BlocksFor(|IdealList(chunks, SlotAddr(o, id))|)
    ensures SumTo(m, n) == BlocksNeeded(chunks, id, n)
  {
    hide IdealList, SlotAddr, BlocksFor, At;
    if n == 0 {
    } else {
      SumIsNeeded(chunks, id, m, n - 1);
    }
  }

  // ---- What a run has used ----

  /** The book of a run: shaped as it should be, with offsets of the table only, in the slots there are. */
  ghost predicate Used(b: Book) {
    Wf(b) && SlotsExact(b) && |b.owner| <= ADDR_SLOTS && forall o :: o in b.lists ==> o < ADDR_TABLE_SIZE
  }

  lemma {:induction false} RecordStaysUsed(b: Book, o: nat, chunk: u32, count: nat)
    requires Used(b) && HasRoom(b, o, chunk) && o < ADDR_TABLE_SIZE
    ensures Used(Record(b, o, chunk, count))
  {
    hide WfLists, WfBlocks, SlotsExact, NoDuplicates, NeedsBlock, Count;
    RecordKeepsWf(b, o, chunk, count);
    RecordKeepsSlotsExact(b, o, chunk, count);
  }

  lemma {:induction false} OpKeepsUsed(b: Book, id: nat, chunk: u32, op: Op)
    requires Used(b) && RunOp(b, id, chunk, op).Some?
    ensures Used(RunOp(b, id, chunk, op).value)
  {
    hide TouchBy, AddrToOffset, Wf, SlotsExact, NeedsBlock;
    match TouchBy(op, id)
    case None =>
    case Some(t) =>
      var o := AddrToOffset(t.addr).value;
      AddrRoundTrip(t.addr);
      RecordStaysUsed(b, o, chunk, t.count);
  }

  lemma {:induction false} OpsKeepUsed(b: Book, id: nat, chunk: u32, ops: seq<Op>)
    requires Used(b) && RunOps(b, id, chunk, ops).Some?
    ensures Used(RunOps(b, id, chunk, ops).value)
    decreases |ops|
  {
    hide Used, RunOp;
    if ops == [] {
    } else {
      OpsKeepUsed(b, id, chunk, ops[..|ops| - 1]);
      OpKeepsUsed(RunOps(b, id, chunk, ops[..|ops| - 1]).value, id, chunk, ops[|ops| - 1]);
    }
  }

  lemma {:induction false} NothingUsed()
    ensures Used(EMPTY_BOOK)
  {
  }

  lemma {:induction false} RunKeepsUsed(id: nat, chunks: seq<seq<Op>>)
    requires |chunks| <= MAX_CHUNKS && RunChunks(id, chunks).Some?
    ensures Used(RunChunks(id, chunks).value)
    decreases |chunks|
  {
    hide Used, RunOps;
    if chunks == [] {
      NothingUsed();
    } else {
      var c := |chunks| - 1;
      RunKeepsUsed(id, chunks[..c]);
      OpsKeepUsed(RunChunks(id, chunks[..c]).value, id, c, chunks[c]);
    }
  }

  lemma {:induction false} SizeAt(b: Book, o: nat)
    requires Used(b)
    ensures At(Restrict(b.order, Sizes(b.lists)), o) == BlocksFor(|ListOf(b, o)|)
  {
    hide WfBlocks, SlotsExact;
    assert BlocksFor(0) == 0;
  }

  lemma {:induction false} OrderInTable(b: Book)
    requires Used(b)
    ensures |b.owner| == SumAt(b.order, Sizes(b.lists)) && NoDuplicates(b.order)
    ensures forall i :: 0 <= i < |b.order| ==> b.order[i] < ADDR_TABLE_SIZE
  {
    hide WfBlocks, WfLists;
    forall i | 0 <= i < |b.order|
      ensures b.order[i] < ADDR_TABLE_SIZE
    {
      assert b.order[i] in b.order;
    }
  }

  /** A run has used exactly the blocks its trace needs. */
  lemma {:induction false} RunUsesNeeded(id: nat, chunks: seq<seq<Op>>)
    requires TraceWellFormed(chunks) && id < MAX_THREADS && RunChunks(id, chunks).Some?
    ensures |RunChunks(id, chunks).value.owner| == BlocksNeeded(chunks, id, ADDR_TABLE_SIZE)
    ensures |RunChunks(id, chunks).value.owner| <= ADDR_SLOTS
  {
    var b := RunChunks(id, chunks).value;
    RunKeepsUsed(id, chunks);
    assert |b.owner| <= ADDR_SLOTS;
    hide Used, RunChunks, IdealList, SlotAddr, BlocksFor, NoDuplicates, SumAt, Restrict, Sizes, At, ListOf;
    OrderInTable(b);
    var m := Restrict(b.order, Sizes(b.lists));
    SumAlongOrder(b.order, Sizes(b.lists), ADDR_TABLE_SIZE);
    forall o | 0 <= o < ADDR_TABLE_SIZE
      ensures At(m, o) == BlocksFor(|IdealList(chunks, SlotAddr(o, id))|)
    {
      SizeAt(b, o);
      ListsAreIdeal(id, chunks, o);
    }
    SumIsNeeded(chunks, id, m, ADDR_TABLE_SIZE);
  }

  // ---- When a run stops ----

  /** Up to operation i of chunk c. */
  function UpTo(chunks: seq<seq<Op>>, c: nat, i: nat): seq<seq<Op>>
    requires c < |chunks| && i <= |chunks[c]|
  {
    chunks[..c] + [chunks[c][..i]]
  }

  lemma {:induction false} OpsStop(b: Book, id: nat, chunk: u32, ops: seq<Op>) returns (i: nat)
    requires RunOps(b, id, chunk, ops) == None
    ensures i < |ops| && RunOps(b, id, chunk, ops[..i]).Some?
    ensures RunOp(RunOps(b, id, chunk, ops[..i]).value, id, chunk, ops[i]) == None
    decreases |ops|
  {
    hide RunOp;
    assert ops != [];
    var front := ops[..|ops| - 1];
    if RunOps(b, id, chunk, front) == None {
      i := OpsStop(b, id, chunk, front);
      assert ops[..i] == front[..i];
    } else {
      i := |ops| - 1;
    }
  }

  /** A run that fails does so at an operation: all goes well up to it, and it does not. */
  lemma {:induction false} RunStops(id: nat, chunks: seq<seq<Op>>) returns (c: nat, i: nat)
    requires |chunks| <= MAX_CHUNKS && RunChunks(id, chunks) == None
    ensures c < |chunks| && i < |chunks[c]| && RunChunks(id, UpTo(chunks, c, i)).Some?
    ensures RunOp(RunChunks(id, UpTo(chunks, c, i)).value, id, c, chunks[c][i]) == None
    decreases |chunks|
  {
    hide RunOp, RunOps;
    assert chunks != [];
    var last := |chunks| - 1;
    if RunChunks(id, chunks[..last]) == None {
      c, i := RunStops(id, chunks[..last]);
      assert chunks[..last][..c] == chunks[..c];
    } else {
      c := last;
      i := OpsStop(RunChunks(id, chunks[..last]).value, id, last, chunks[last]);
      assert UpTo(chunks, c, i)[..c] == chunks[..c];
    }
  }

  lemma {:induction false} WordOpsGrow(ops: seq<Op>, i: nat, w: u32)
    requires i <= |ops|
    ensures WordOpsIn(ops[..i], w) <= WordOpsIn(ops, w)
    ensures i < |ops| ==> WordOpsIn(ops[..i], w) + WordOps(ops[i], w) <= WordOpsIn(ops, w)
    decreases |ops|
  {
    hide WordOps;
    if i == |ops| {
      assert ops[..i] == ops;
    } else {
      var front := ops[..|ops| - 1];
      assert front[..i] == ops[..i];
      WordOpsGrow(front, i, w);
    }
  }

  lemma {:induction false} ListsGrow(chunks: seq<seq<Op>>, c: nat, w: u32)
    requires c <= |chunks| <= MAX_CHUNKS
    ensures |IdealList(chunks[..c], w)| <= |IdealList(chunks, w)|
    decreases |chunks|
  {
    hide WordOpsIn;
    if c == |chunks| {
      assert chunks[..c] == chunks;
    } else {
      ListsGrow(chunks[..|chunks| - 1], c, w);
      assert chunks[..|chunks| - 1][..c] == chunks[..c];
    }
  }

  lemma {:induction false} LastChunkList(chunks: seq<seq<Op>>, c: nat, ops: seq<Op>, w: u32)
    requires c < |chunks| <= MAX_CHUNKS
    ensures IdealList(chunks[..c] + [ops], w) == WithEntry(IdealList(chunks[..c], w), c, WordOpsIn(ops, w))
  {
    assert (chunks[..c] + [ops])[..c] == chunks[..c];
  }

  /** Up to an operation, no list is longer than in the whole trace; and if the operation is the chunk's
      first on its word, the whole trace has one more entry for that word. */
  lemma {:induction false} ListUpTo(chunks: seq<seq<Op>>, c: nat, i: nat, w: u32)
    requires c < |chunks| <= MAX_CHUNKS && i < |chunks[c]|
    ensures |IdealList(UpTo(chunks, c, i), w)| <= |IdealList(chunks, w)|
    ensures WordOpsIn(chunks[c][..i], w) == 0 && WordOps(chunks[c][i], w) > 0 ==>
              |IdealList(UpTo(chunks, c, i), w)| + 1 <= |IdealList(chunks, w)|
  {
    hide WordOpsIn, WordOps, IdealList;
    LastChunkList(chunks, c, chunks[c][..i], w);
    LastChunkList(chunks, c, chunks[c], w);
    assert chunks[..c] + [chunks[c]] == chunks[..c + 1];
    ListsGrow(chunks, c + 1, w);
    WordOpsGrow(chunks[c], i, w);
  }

  lemma {:induction false} BlocksGrow(x: nat, y: nat)
    requires x <= y
    ensures BlocksFor(x) <= BlocksFor(y)
    ensures x < y && x % 7 == 0 ==> BlocksFor(x) + 1 <= BlocksFor(y)
  {
  }

  /** Lists that are nowhere longer need no more blocks, and fewer if one block is missing somewhere. */
  lemma {:induction false} NeededGrows(xs: seq<seq<Op>>, ys: seq<seq<Op>>, id: nat, n: nat, o: nat)
    requires |xs| <= MAX_CHUNKS && |ys| <= MAX_CHUNKS && id < MAX_THREADS && n <= ADDR_TABLE_SIZE
    requires forall q :: 0 <= q < n ==> |IdealList(xs, SlotAddr(q, id))| <= |IdealList(ys, SlotAddr(q, id))|
    ensures BlocksNeeded(xs, id, n) <= BlocksNeeded(ys, id, n)
    ensures o < n && |IdealList(xs, SlotAddr(o, id))| % 7 == 0 && |IdealList(xs, SlotAddr(o, id))| < |IdealList(ys, SlotAddr(o, id))|
            ==> BlocksNeeded(xs, id, n) + 1 <= BlocksNeeded(ys, id, n)
  {
    hide IdealList, SlotAddr, BlocksFor;
    if n == 0 {
    } else {
      NeededGrows(xs, ys, id, n - 1, o);
      BlocksGrow(|IdealList(xs, SlotAddr(n - 1, id))|, |IdealList(ys, SlotAddr(n - 1, id))|);
    }
  }

  lemma {:induction false} PrefixWellFormed(chunks: seq<seq<Op>>, c: nat, i: nat)
    requires TraceWellFormed(chunks) && c < |chunks| && i <= |chunks[c]|
    ensures TraceWellFormed(UpTo(chunks, c, i))
  {
    assert AllWellFormed(chunks[c]);
    hide WellFormed;
  }

  /** An operation that needs a block is its chunk's first on its word, whose list fills its blocks. */
  lemma {:induction false} BlockIsNeeded(chunks: seq<seq<Op>>, id: nat, c: nat, i: nat, o: nat)
    requires TraceWellFormed(chunks) && id < MAX_THREADS && c < |chunks| && i < |chunks[c]| && o < ADDR_TABLE_SIZE
    requires RunChunks(id, UpTo(chunks, c, i)).Some? && NeedsBlock(RunChunks(id, UpTo(chunks, c, i)).value, o, c)
    ensures WordOpsIn(chunks[c][..i], SlotAddr(o, id)) == 0
    ensures |IdealList(UpTo(chunks, c, i), SlotAddr(o, id))| % 7 == 0
  {
    var pre, w := UpTo(chunks, c, i), SlotAddr(o, id);
    PrefixWellFormed(chunks, c, i);
    ListsAreIdeal(id, pre, o);
    LastChunkList(chunks, c, chunks[c][..i], w);
    hide RunChunks, SlotAddr, WordOpsIn, IdealList, TraceWellFormed, AllWellFormed;
  }

  lemma {:induction false} SomeShare(op: Op)
    ensures Share(op) > 0
  {
  }

  lemma {:induction false} StopNeedsMore(chunks: seq<seq<Op>>, id: nat, c: nat, i: nat)
    requires TraceWellFormed(chunks) && id < MAX_THREADS && c < |chunks| && i < |chunks[c]| && OpMapped(chunks[c][i], id)
    requires RunChunks(id, UpTo(chunks, c, i)).Some?
    requires RunOp(RunChunks(id, UpTo(chunks, c, i)).value, id, c, chunks[c][i]) == None
    ensures BlocksNeeded(chunks, id, ADDR_TABLE_SIZE) > ADDR_SLOTS
  {
    var op, pre := chunks[c][i], UpTo(chunks, c, i);
    var b := RunChunks(id, pre).value;
    var a := TouchBy(op, id).value.addr;
    var o := AddrToOffset(a).value;
    assert NeedsBlock(b, o, c) && |b.owner| >= ADDR_SLOTS;
    assert WellFormed(op) by { assert AllWellFormed(chunks[c]); }
    hide TouchBy, AddrToOffset, RunChunks, SlotAddr, WordOpsIn, WordOps, IdealList, NeedsBlock, TraceWellFormed, WellFormed, Share;
    AddrRoundTrip(a);
    BlockIsNeeded(chunks, id, c, i, o);
    PrefixWellFormed(chunks, c, i);
    RunUsesNeeded(id, pre);
    TouchIsWordOps(op, id, o);
    SomeShare(op);
    forall q | 0 <= q < ADDR_TABLE_SIZE
      ensures |IdealList(pre, SlotAddr(q, id))| <= |IdealList(chunks, SlotAddr(q, id))|
    {
      ListUpTo(chunks, c, i, SlotAddr(q, id));
    }
    ListUpTo(chunks, c, i, SlotAddr(o, id));
    NeededGrows(pre, chunks, id, ADDR_TABLE_SIZE, o);
  }

  lemma {:induction false} SuccessIsMapped(id: nat, chunks: seq<seq<Op>>, c: nat, i: nat)
    requires |chunks| <= MAX_CHUNKS && RunChunks(id, chunks).Some? && c < |chunks| && i < |chunks[c]|
    ensures OpMapped(chunks[c][i], id)
  {
    hide AddrToOffset, TouchBy;
    if !OpMapped(chunks[c][i], id) {
      assert chunks[..c + 1][..c] == chunks[..c] && chunks[c][..i + 1][..i] == chunks[c][..i];
      if RunChunks(id, chunks[..c]) == None {
        ChunksFail(id, chunks, c);
      } else {
        RunFails(RunChunks(id, chunks[..c]).value, id, c, chunks[c], i + 1);
        ChunksFail(id, chunks, c + 1);
      }
      assert false;
    }
  }

  /** Counting a trace succeeds if and only if every word the worker counts is mapped and all of them
      together need no more blocks than there are. */
  lemma {:induction false} CountingSucceedsIff(id: nat, chunks: seq<seq<Op>>)
    requires TraceWellFormed(chunks) && id < MAX_THREADS
    ensures RunChunks(id, chunks).Some? <==> CountingFits(chunks, id)
  {
    assert |chunks| <= MAX_CHUNKS;
    hide RunChunks, BlocksNeeded, TraceWellFormed, OpMapped, RunOp;
    if RunChunks(id, chunks).Some? {
      RunUsesNeeded(id, chunks);
      forall c, i | 0 <= c < |chunks| && 0 <= i < |chunks[c]|
        ensures OpMapped(chunks[c][i], id)
      {
        SuccessIsMapped(id, chunks, c, i);
      }
    } else if WordsMapped(chunks, id) {
      var c, i := RunStops(id, chunks);
      StopNeedsMore(chunks, id, c, i);
    }
  }
}
