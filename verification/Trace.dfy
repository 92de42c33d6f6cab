/** Traces of memory operations, the share of a trace each counting worker takes
    (mem_counter.hpp:108-135), and the plain operation count (tools.hpp:56-79). */
module Trace {
  import opened MemConfig
  import opened AddressMap
  import opened Chains

  datatype Op = Op(addr: u32, flags: u32)

  function Bytes(op: Op): nat {
    op.flags % 256
  }

  /** What the bus delivers: sizes of 1, 2, 4 or 8 bytes and a one-bit write flag. */
  predicate WellFormed(op: Op) {
    Bytes(op) in {1, 2, 4, 8} && op.flags / 0x1_0000 in {0, 1}
  }

  predicate AllWellFormed(ops: seq<Op>) {
    forall i :: 0 <= i < |ops| ==> WellFormed(ops[i])
  }

  predicate TraceWellFormed(chunks: seq<seq<Op>>) {
    |chunks| <= MAX_CHUNKS && forall c :: 0 <= c < |chunks| ==> AllWellFormed(chunks[c])
  }

  predicate FullWord(op: Op) {
    Bytes(op) == 8 && op.addr % 8 == 0
  }

  // ---- The reference: what an operation does to a word ----

  /** The operations op makes on word w: none unless they share a byte; one for a full aligned word;
      otherwise a read, and a write if it is one. */
  function WordOps(op: Op, w: u32): nat {
    if op.addr < w + 8 && w < op.addr + Bytes(op) then
      if FullWord(op) then 1 else 1 + op.flags / 0x1_0000
    else 0
  }

  function WordOpsIn(ops: seq<Op>, w: u32): nat {
    if ops == [] then 0 else WordOpsIn(ops[..|ops| - 1], w) + WordOps(ops[|ops| - 1], w)
  }

  function WithEntry(l: seq<Entry>, chunk: u32, n: nat): seq<Entry> {
    l + (if n > 0 then [Entry(chunk, n)] else [])
  }

  /** The ideal record of word w: one entry for each chunk that touches it, in chunk order. */
  function IdealList(chunks: seq<seq<Op>>, w: u32): seq<Entry>
    requires |chunks| <= MAX_CHUNKS
  {
    if chunks == [] then [] else
      var c := |chunks| - 1;
      WithEntry(IdealList(chunks[..c], w), c, WordOpsIn(chunks[c], w))
  }

  ghost predicate Ascends(l: seq<Entry>, chunks: nat) {
    && (forall i :: 0 <= i < |l| ==> l[i].chunk < chunks && l[i].count > 0)
    && (forall i, j :: 0 <= i < j < |l| ==> l[i].chunk < l[j].chunk)
  }

  /** Ideal lists have strictly increasing chunks and positive counts. */
  lemma {:induction false} IdealListAscends(chunks: seq<seq<Op>>, w: u32)
    requires |chunks| <= MAX_CHUNKS
    ensures Ascends(IdealList(chunks, w), |chunks|)
    decreases |chunks|
  {
    if chunks == [] {
    } else {
      IdealListAscends(chunks[..|chunks| - 1], w);
    }
  }

  // ---- One worker's share ----

  datatype Touch = Touch(addr: u32, count: u32)

  /** What worker id counts of op, branch by branch. */
  function TouchBy(op: Op, id: nat): Option<Touch> {
    var ops := 1 + op.flags / 0x1_0000;
    var word := WordOf(op.addr);
    if FullWord(op) then
      if Owner(op.addr) == id then Some(Touch(op.addr, 1)) else None
    else if Owner(word) == id then
      Some(Touch(word, ops))
    else if Bytes(op) + op.addr % 8 > 8 && Owner(Wrap(word as int + 8)) == id then
      Some(Touch(Wrap(word as int + 8), ops))
    else None
  }

  /** None: an unmapped address, or no free slot. */
  function RunOp(b: Book, id: nat, chunk: u32, op: Op): Option<Book> {
    match TouchBy(op, id)
    case None => Some(b)
    case Some(t) =>
      match AddrToOffset(t.addr)
      case None => None
      case Some(o) => if HasRoom(b, o, chunk) then Some(Record(b, o, chunk, t.count)) else None
  }

  function RunOps(b: Book, id: nat, chunk: u32, ops: seq<Op>): Option<Book>
    decreases |ops|
  {
    if ops == [] then Some(b) else
      match RunOps(b, id, chunk, ops[..|ops| - 1])
      case None => None
      case Some(b') => RunOp(b', id, chunk, ops[|ops| - 1])
  }

  /** A run that fails stays failed. */
  lemma {:induction false} RunFails(b: Book, id: nat, chunk: u32, ops: seq<Op>, n: nat)
    requires n <= |ops| && RunOps(b, id, chunk, ops[..n]) == None
    ensures RunOps(b, id, chunk, ops) == None
    decreases |ops|
  {
    if n < |ops| {
      assert ops[..|ops| - 1][..n] == ops[..n];
      RunFails(b, id, chunk, ops[..|ops| - 1], n);
    } else {
      assert ops[..n] == ops;
    }
  }

  function RunChunks(id: nat, chunks: seq<seq<Op>>): Option<Book>
    requires |chunks| <= MAX_CHUNKS
  {
    if chunks == [] then Some(EMPTY_BOOK) else
      var c := |chunks| - 1;
      match RunChunks(id, chunks[..c])
      case None => None
      case Some(b) => RunOps(b, id, c, chunks[c])
  }

  lemma {:induction false} NoChunks(id: nat, chunks: seq<seq<Op>>)
    requires |chunks| <= MAX_CHUNKS
    ensures RunChunks(id, chunks[..0]) == Some(EMPTY_BOOK)
  {
  }

  lemma {:induction false} OneMoreChunkRuns(id: nat, chunks: seq<seq<Op>>, c: nat)
    requires c < |chunks| <= MAX_CHUNKS
    ensures RunChunks(id, chunks[..c + 1])
            == match RunChunks(id, chunks[..c]) case None => None case Some(b) => RunOps(b, id, c, chunks[c])
  {
    assert chunks[..c + 1][..c] == chunks[..c];
  }

  lemma {:induction false} ChunksFail(id: nat, chunks: seq<seq<Op>>, n: nat)
    requires n <= |chunks| <= MAX_CHUNKS && RunChunks(id, chunks[..n]) == None
    ensures RunChunks(id, chunks) == None
    decreases |chunks|
  {
    if n < |chunks| {
      assert chunks[..|chunks| - 1][..n] == chunks[..n];
      ChunksFail(id, chunks[..|chunks| - 1], n);
    } else {
      assert chunks[..n] == chunks;
    }
  }

  // ---- Every word is counted by its owner, and exactly ----

  function Share(op: Op): nat {
    if FullWord(op) then 1 else 1 + op.flags / 0x1_0000
  }

  predicate Crosses(op: Op) {
    Bytes(op) + op.addr % 8 > 8
  }

  lemma {:induction false} WordOpsByWord(op: Op, w: u32)
    requires WellFormed(op) && w % 8 == 0
    ensures WordOps(op, w) == if w == WordOf(op.addr) || (Crosses(op) && w == WordOf(op.addr) + 8) then Share(op) else 0
  {
  }

  lemma {:induction false} NextWordHasNextOwner(w: u32)
    requires w % 8 == 0
    ensures var next := Wrap(w as int + 8); next % 8 == 0 && Owner(next) == (Owner(w) + 1) % 8
    ensures w + 8 < WORD ==> Wrap(w as int + 8) == w + 8
    ensures w + 8 >= WORD ==> Wrap(w as int + 8) == 0
  {
    if w + 8 < WORD {
      assert (w + 8) / 8 == w / 8 + 1;
    } else {
      assert w == WORD - 8;
    }
  }

  lemma {:induction false} TouchByWord(op: Op, id: nat)
    requires WellFormed(op)
    ensures var w := WordOf(op.addr);
            TouchBy(op, id) == if Owner(w) == id then Some(Touch(w, Share(op)))
                               else if Crosses(op) && (Owner(w) + 1) % 8 == id then Some(Touch(Wrap(w as int + 8), Share(op)))
                               else None
    ensures WordOf(op.addr) % 8 == 0
  {
    NextWordHasNextOwner(WordOf(op.addr));
  }

  /** Two words of one class with the same offset are the same word. */
  lemma {:induction false} OffsetTellsWord(a: u32, id: nat, o: nat)
    requires a % 8 == 0 && Owner(a) == id && id < MAX_THREADS && o < ADDR_TABLE_SIZE && AddrToOffset(a).Some?
    ensures AddrToOffset(a) == Some(o) <==> a == SlotAddr(o, id)
    ensures SlotAddr(o, id) % 8 == 0 && Owner(SlotAddr(o, id)) == id
  {
    OffsetRoundTrip(o, id);
    AddrRoundTrip(a);
  }

  lemma {:induction false} ZeroIsUnmapped()
    ensures AddrToOffset(0) == None
  {
  }

  /** Of a word in its class, a worker counts exactly the operations on it. */
  lemma {:induction false} TouchIsWordOps(op: Op, id: nat, o: nat)
    requires WellFormed(op) && id < MAX_THREADS && o < ADDR_TABLE_SIZE
    requires TouchBy(op, id).Some? ==> AddrToOffset(TouchBy(op, id).value.addr).Some?
    ensures WordOps(op, SlotAddr(o, id))
            == if TouchBy(op, id).Some? && AddrToOffset(TouchBy(op, id).value.addr) == Some(o)
               then Share(op) else 0
    ensures TouchBy(op, id).Some? ==> TouchBy(op, id).value.count == Share(op)
  {
    hide TouchBy, WordOps, AddrToOffset, SlotAddr, Share, WellFormed, Crosses;
    var w, w1 := SlotAddr(o, id), WordOf(op.addr);
    assert w % 8 == 0 && Owner(w) == id by { OffsetRoundTrip(o, id); }
    TouchByWord(op, id);
    WordOpsByWord(op, w);
    NextWordHasNextOwner(w1);
    if TouchBy(op, id).Some? {
      var a := TouchBy(op, id).value.addr;
      ZeroIsUnmapped();
      assert a == w1 || a == w1 + 8;
      OffsetTellsWord(a, id, o);
    }
  }

  lemma {:induction false} RecordOnList(b: Book, o: nat, chunk: u32, count: nat, q: nat)
    ensures ListOf(Record(b, o, chunk, count), q) == if q == o then Count(ListOf(b, o), chunk, count) else ListOf(b, q)
  {
  }

  lemma {:induction false} TouchOnList(b: Book, id: nat, chunk: u32, op: Op, o: nat, l: seq<Entry>, n: nat)
    requires WellFormed(op) && id < MAX_THREADS && o < ADDR_TABLE_SIZE && RunOp(b, id, chunk, op).Some?
    requires (l != [] ==> l[|l| - 1].chunk != chunk) && ListOf(b, o) == WithEntry(l, chunk, n)
    ensures ListOf(RunOp(b, id, chunk, op).value, o) == WithEntry(l, chunk, n + WordOps(op, SlotAddr(o, id)))
  {
    hide TouchBy, WordOps, AddrToOffset, SlotAddr, WellFormed, Record, HasRoom;
    TouchIsWordOps(op, id, o);
    if TouchBy(op, id).Some? {
      var t := TouchBy(op, id).value;
      RecordOnList(b, AddrToOffset(t.addr).value, chunk, t.count, o);
    }
  }

  lemma {:induction false} ChunkOnList(b: Book, id: nat, chunk: u32, ops: seq<Op>, o: nat)
    requires AllWellFormed(ops) && id < MAX_THREADS && o < ADDR_TABLE_SIZE
    requires var l := ListOf(b, o); l != [] ==> l[|l| - 1].chunk != chunk
    requires RunOps(b, id, chunk, ops).Some?
    ensures ListOf(RunOps(b, id, chunk, ops).value, o)
            == WithEntry(ListOf(b, o), chunk, WordOpsIn(ops, SlotAddr(o, id)))
    decreases |ops|
  {
    hide RunOp, SlotAddr, WordOps, ListOf, WellFormed;
    if ops == [] {
    } else {
      var front, op, w := ops[..|ops| - 1], ops[|ops| - 1], SlotAddr(o, id);
      ChunkOnList(b, id, chunk, front, o);
      TouchOnList(RunOps(b, id, chunk, front).value, id, chunk, op, o, ListOf(b, o), WordOpsIn(front, w));
    }
  }

  /** The sharded counters agree with the reference: after any well-formed trace a worker's list for
      any of its words is the ideal one. The else-branch of execute_chunk loses nothing. */
  lemma {:induction false} ListsAreIdeal(id: nat, chunks: seq<seq<Op>>, o: nat)
    requires TraceWellFormed(chunks) && id < MAX_THREADS && o < ADDR_TABLE_SIZE
    requires RunChunks(id, chunks).Some?
    ensures ListOf(RunChunks(id, chunks).value, o) == IdealList(chunks, SlotAddr(o, id))
    decreases |chunks|
  {
    if chunks == [] {
    } else {
      var c := |chunks| - 1;
      ListsAreIdeal(id, chunks[..c], o);
      IdealListAscends(chunks[..c], SlotAddr(o, id));
      ChunkOnList(RunChunks(id, chunks[..c]).value, id, c, chunks[c], o);
    }
  }

  // ---- The workers together ----

  function TouchCount(op: Op, id: nat): nat {
    match TouchBy(op, id)
    case None => 0
    case Some(t) => t.count
  }

  function SumTouches(op: Op, ids: nat): nat {
    if ids == 0 then 0 else SumTouches(op, ids - 1) + TouchCount(op, ids - 1)
  }

  /** The operations tools.hpp counts for one bus entry. */
  function OpCost(op: Op): nat {
    var bytes, offset, wr := op.flags % 16, op.addr % 8, op.flags / 0x1_0000 % 2 == 1;
    if offset == 0 && bytes == 8 then 1
    else if offset + bytes > 8 then if wr then 4 else 2
    else if wr then 2 else 1
  }

  function TotalCost(ops: seq<Op>): nat {
    if ops == [] then 0 else TotalCost(ops[..|ops| - 1]) + OpCost(ops[|ops| - 1])
  }

  function ShareOf(op: Op, id: nat): nat {
    var first := Owner(WordOf(op.addr));
    if id == first || (Crosses(op) && id == (first + 1) % 8) then Share(op) else 0
  }

  lemma {:induction false} UnrollTouches(op: Op)
    ensures SumTouches(op, 8) == TouchCount(op, 0) + TouchCount(op, 1) + TouchCount(op, 2) + TouchCount(op, 3)
                                 + TouchCount(op, 4) + TouchCount(op, 5) + TouchCount(op, 6) + TouchCount(op, 7)
  {
    assert SumTouches(op, 1) == TouchCount(op, 0);
    assert SumTouches(op, 2) == TouchCount(op, 0) + TouchCount(op, 1);
    assert SumTouches(op, 4) == SumTouches(op, 2) + TouchCount(op, 2) + TouchCount(op, 3);
    assert SumTouches(op, 6) == SumTouches(op, 4) + TouchCount(op, 4) + TouchCount(op, 5);
  }

  /** No access is counted twice or dropped: the eight shares of an operation add up to its cost. */
  lemma {:induction false} SharesAddUp(op: Op)
    requires WellFormed(op)
    ensures SumTouches(op, MAX_THREADS) == OpCost(op)
  {
    assert forall id :: 0 <= id < 8 ==> TouchCount(op, id) == ShareOf(op, id) by {
      forall id | 0 <= id < 8
        ensures TouchCount(op, id) == ShareOf(op, id)
      {
        TouchByWord(op, id);
      }
    }
    assert SumTouches(op, 8) == TouchCount(op, 0) + TouchCount(op, 1) + TouchCount(op, 2) + TouchCount(op, 3)
                                + TouchCount(op, 4) + TouchCount(op, 5) + TouchCount(op, 6) + TouchCount(op, 7) by {
      UnrollTouches(op);
    }
  }

  function ShareOfOps(ops: seq<Op>, id: nat): nat {
    if ops == [] then 0 else ShareOfOps(ops[..|ops| - 1], id) + TouchCount(ops[|ops| - 1], id)
  }

  function SharesOfOps(ops: seq<Op>, ids: nat): nat {
    if ids == 0 then 0 else SharesOfOps(ops, ids - 1) + ShareOfOps(ops, ids - 1)
  }

  lemma {:induction false} LastOpShares(ops: seq<Op>, ids: nat)
    requires ops != []
    ensures SharesOfOps(ops, ids) == SharesOfOps(ops[..|ops| - 1], ids) + SumTouches(ops[|ops| - 1], ids)
  {
    if ids == 0 {
    } else {
      LastOpShares(ops, ids - 1);
    }
  }

  lemma {:induction false} NoOpsNoShares(ids: nat)
    ensures SharesOfOps([], ids) == 0
  {
    if ids == 0 {
    } else {
      NoOpsNoShares(ids - 1);
    }
  }

  lemma {:induction false} AllSharesAddUp(ops: seq<Op>)
    requires AllWellFormed(ops)
    ensures SharesOfOps(ops, MAX_THREADS) == TotalCost(ops)
    decreases |ops|
  {
    if ops != [] {
      AllSharesAddUp(ops[..|ops| - 1]);
      LastOpShares(ops, MAX_THREADS);
      SharesAddUp(ops[|ops| - 1]);
    } else {
      NoOpsNoShares(MAX_THREADS);
    }
  }

  lemma {:induction false} ShareOfConcat(a: seq<Op>, b: seq<Op>, id: nat)
    ensures ShareOfOps(a + b, id) == ShareOfOps(a, id) + ShareOfOps(b, id)
    decreases |b|
  {
    if b == [] {
      assert a + b == a;
    } else {
      assert (a + b)[..|a + b| - 1] == a + b[..|b| - 1];
      ShareOfConcat(a, b[..|b| - 1], id);
    }
  }

  function Flatten(chunks: seq<seq<Op>>): seq<Op> {
    if chunks == [] then [] else Flatten(chunks[..|chunks| - 1]) + chunks[|chunks| - 1]
  }

  lemma {:induction false} RunOpsTotal(b: Book, id: nat, chunk: u32, ops: seq<Op>)
    requires WfOrder(b) && RunOps(b, id, chunk, ops).Some?
    ensures var b' := RunOps(b, id, chunk, ops).value;
            WfOrder(b') && GrandTotal(b') == GrandTotal(b) + ShareOfOps(ops, id)
    decreases |ops|
  {
    hide TouchBy, AddrToOffset, Record, HasRoom, GrandTotal, WfOrder;
    if ops == [] {
    } else {
      var op := ops[|ops| - 1];
      RunOpsTotal(b, id, chunk, ops[..|ops| - 1]);
      var b' := RunOps(b, id, chunk, ops[..|ops| - 1]).value;
      if TouchBy(op, id).Some? {
        var t := TouchBy(op, id).value;
        RecordKeepsOrder(b', AddrToOffset(t.addr).value, chunk, t.count);
        RecordAddsToGrandTotal(b', AddrToOffset(t.addr).value, chunk, t.count);
      }
    }
  }

  lemma {:induction false} RunChunksTotal(id: nat, chunks: seq<seq<Op>>)
    requires |chunks| <= MAX_CHUNKS && RunChunks(id, chunks).Some?
    ensures var b := RunChunks(id, chunks).value;
            WfOrder(b) && GrandTotal(b) == ShareOfOps(Flatten(chunks), id)
    decreases |chunks|
  {
    if chunks == [] {
    } else {
      var c := |chunks| - 1;
      RunChunksTotal(id, chunks[..c]);
      RunOpsTotal(RunChunks(id, chunks[..c]).value, id, c, chunks[c]);
      ShareOfConcat(Flatten(chunks[..c]), chunks[c], id);
    }
  }

  function SumOfBooks(books: seq<Book>): nat {
    if books == [] then 0 else SumOfBooks(books[..|books| - 1]) + GrandTotal(books[|books| - 1])
  }

  ghost predicate CountedBy(books: seq<Book>, chunks: seq<seq<Op>>)
    requires |chunks| <= MAX_CHUNKS
  {
    forall id :: 0 <= id < |books| ==> RunChunks(id, chunks) == Some(books[id])
  }

  lemma {:induction false} BooksHoldTheirShares(books: seq<Book>, chunks: seq<seq<Op>>)
    requires |chunks| <= MAX_CHUNKS && CountedBy(books, chunks)
    ensures SumOfBooks(books) == SharesOfOps(Flatten(chunks), |books|)
    decreases |books|
  {
    if books == [] {
    } else {
      BooksHoldTheirShares(books[..|books| - 1], chunks);
      RunChunksTotal(|books| - 1, chunks);
    }
  }

  lemma {:induction false} FlattenWellFormed(chunks: seq<seq<Op>>)
    requires TraceWellFormed(chunks)
    ensures AllWellFormed(Flatten(chunks))
    decreases |chunks|
  {
    if chunks == [] {
    } else {
      FlattenWellFormed(chunks[..|chunks| - 1]);
    }
  }

  /** Conservation: the eight workers together count exactly the operations of the trace. */
  lemma {:induction false} WorkersCountEverything(books: seq<Book>, chunks: seq<seq<Op>>)
    requires TraceWellFormed(chunks) && |books| == MAX_THREADS && CountedBy(books, chunks)
    ensures SumOfBooks(books) == TotalCost(Flatten(chunks))
  {
    BooksHoldTheirShares(books, chunks);
    FlattenWellFormed(chunks);
    AllSharesAddUp(Flatten(chunks));
  }

  /** tools.hpp's count: the operations of the chunk, in a 32-bit sum. */
  method CountOperations(ops: seq<Op>) returns (total: u32)
    ensures total == Wrap(TotalCost(ops))
  {
    total := 0;
    var cops: u32 := 0;
    for i := 0 to |ops|
      invariant total == Wrap(TotalCost(ops[..i]))
    {
      var bytes, offset := ops[i].flags % 16, ops[i].addr % 8;
      var wr := ops[i].flags / 0x1_0000 % 2 == 1;
      if offset == 0 && bytes == 8 {
        cops := 1;
      } else if offset + bytes > 8 {
        cops := if wr then 4 else 2;
      } else if wr {
        cops := 2;
      } else {
        cops := 1;
      }
      WrapAdd(TotalCost(ops[..i]), cops);
      assert ops[..i + 1][..i] == ops[..i];
      total := Wrap(total as int + cops);
    }
    assert ops[..|ops|] == ops;
  }
}
