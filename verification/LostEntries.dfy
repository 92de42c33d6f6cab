/** Which words of a trace lose entries when their chain is read: the first word a worker counts, as long
    as 8 to 14 chunks have touched it. */
module LostEntries {
  import opened MemConfig
  import opened AddressMap
  import opened Chains
  import opened Trace

  /** The first word worker id counts. */
  function FirstTouched(id: nat, ops: seq<Op>): Option<u32> {
    if ops == [] then None else
      match FirstTouched(id, ops[..|ops| - 1])
      case Some(w) => Some(w)
      case None =>
        match TouchBy(ops[|ops| - 1], id)
        case None => None
        case Some(t) => Some(t.addr)
  }

  /** The book after some operations: its first offset is that of the first word. */
  ghost predicate FirstMatches(b: Book, id: nat, ops: seq<Op>) {
    && Wf(b) && RootFirst(b)
    && (b.order == [] <==> FirstTouched(id, ops) == None)
    && (b.order != [] ==> AddrToOffset(FirstTouched(id, ops).value) == Some(b.order[0]))
  }

  lemma {:induction false} OpKeepsFirst(b: Book, id: nat, before: seq<Op>, chunk: u32, op: Op)
    requires FirstMatches(b, id, before) && RunOp(b, id, chunk, op).Some?
    ensures FirstMatches(RunOp(b, id, chunk, op).value, id, before + [op])
  {
    assert (before + [op])[..|before|] == before;
    hide Wf, RootFirst, TouchBy, AddrToOffset, Record;
    match TouchBy(op, id)
    case None =>
    case Some(t) =>
      var o := AddrToOffset(t.addr).value;
      RecordKeepsWf(b, o, chunk, t.count);
      RecordKeepsRootFirst(b, o, chunk, t.count);
  }

  lemma {:induction false} OpsKeepFirst(b: Book, id: nat, before: seq<Op>, chunk: u32, ops: seq<Op>)
    requires FirstMatches(b, id, before) && RunOps(b, id, chunk, ops).Some?
    ensures FirstMatches(RunOps(b, id, chunk, ops).value, id, before + ops)
    decreases |ops|
  {
    hide FirstMatches, RunOp;
    if ops == [] {
      assert before + ops == before;
    } else {
      var front, op := ops[..|ops| - 1], ops[|ops| - 1];
      OpsKeepFirst(b, id, before, chunk, front);
      OpKeepsFirst(RunOps(b, id, chunk, front).value, id, before + front, chunk, op);
      assert before + front + [op] == before + ops;
    }
  }

  lemma {:induction false} NothingIsFirst(id: nat)
    ensures FirstMatches(EMPTY_BOOK, id, [])
  {
  }

  lemma {:induction false} RunMatchesFirst(id: nat, chunks: seq<seq<Op>>)
    requires |chunks| <= MAX_CHUNKS && RunChunks(id, chunks).Some?
    ensures FirstMatches(RunChunks(id, chunks).value, id, Flatten(chunks))
    decreases |chunks|
  {
    hide FirstMatches, RunOps;
    if chunks == [] {
      NothingIsFirst(id);
    } else {
      var c := |chunks| - 1;
      RunMatchesFirst(id, chunks[..c]);
      OpsKeepFirst(RunChunks(id, chunks[..c]).value, id, Flatten(chunks[..c]), c, chunks[c]);
    }
  }

  lemma {:induction false} FirstTouchedIsOwn(id: nat, ops: seq<Op>)
    requires AllWellFormed(ops) && id < MAX_THREADS
    ensures FirstTouched(id, ops).Some? ==> FirstTouched(id, ops).value % 8 == 0 && Owner(FirstTouched(id, ops).value) == id
    decreases |ops|
  {
    if ops == [] {
    } else {
      FirstTouchedIsOwn(id, ops[..|ops| - 1]);
      TouchByWord(ops[|ops| - 1], id);
      NextWordHasNextOwner(WordOf(ops[|ops| - 1].addr));
      assert WellFormed(ops[|ops| - 1]);
      hide TouchBy, WellFormed, Crosses, AllWellFormed;
    }
  }

  /** Word w loses its first seven entries: it is the first one worker id counts, and 8 to 14 chunks touch it. */
  predicate LosesEntries(chunks: seq<seq<Op>>, id: nat, w: u32)
    requires |chunks| <= MAX_CHUNKS
  {
    FirstTouched(id, Flatten(chunks)) == Some(w) && 8 <= |IdealList(chunks, w)| <= 14
  }

  /** The loss in terms of the trace alone. */
  lemma {:induction false} LosesIffFirstWord(id: nat, chunks: seq<seq<Op>>, o: nat)
    requires TraceWellFormed(chunks) && id < MAX_THREADS && o < ADDR_TABLE_SIZE && RunChunks(id, chunks).Some?
    ensures LosesFirstBlock(RunChunks(id, chunks).value, o) <==> LosesEntries(chunks, id, SlotAddr(o, id))
  {
    hide Wf, RootFirst, LosesFirstBlock, RunChunks, IdealList, SlotAddr, AddrToOffset, FirstTouched;
    var b := RunChunks(id, chunks).value;
    RunMatchesFirst(id, chunks);
    LosesIff(b, o);
    ListsAreIdeal(id, chunks, o);
    FlattenWellFormed(chunks);
    FirstTouchedIsOwn(id, Flatten(chunks));
    if b.order != [] {
      OffsetTellsWord(FirstTouched(id, Flatten(chunks)).value, id, o);
    }
  }

  // ---- It happens ----

  /** n chunks of one operation each, an 8-byte access to the first word of page 4. */
  function SameWord(n: nat): seq<seq<Op>> {
    seq(n, _ => [Op(0xA000_0000, 8)])
  }

  const SAME_OFFSET: nat := 0x40_0000

  lemma {:induction false} SameWordTouch()
    ensures WellFormed(Op(0xA000_0000, 8)) && TouchBy(Op(0xA000_0000, 8), 0) == Some(Touch(0xA000_0000, 1))
    ensures AddrToOffset(0xA000_0000) == Some(SAME_OFFSET)
  {
  }

  lemma {:induction false} SameWordOp(b: Book, chunk: u32)
    requires HasRoom(b, SAME_OFFSET, chunk)
    ensures RunOps(b, 0, chunk, [Op(0xA000_0000, 8)]) == Some(Record(b, SAME_OFFSET, chunk, 1))
  {
    hide TouchBy, AddrToOffset, Record;
    SameWordTouch();
    assert [Op(0xA000_0000, 8)][..0] == [];
    assert RunOps(b, 0, chunk, []) == Some(b);
  }

  lemma {:induction false} FewBlocks(n: nat)
    requires n <= 8
    ensures HasRoom(RecordAll(EMPTY_BOOK, OnePerChunk(SAME_OFFSET, n)), SAME_OFFSET, n)
  {
    hide Record, NeedsBlock;
    if n == 0 {
    } else {
      FirstAddressFillsBlocks(SAME_OFFSET, n);
      hide RecordAll;
    }
  }

  lemma {:induction false} SameWordRuns(n: nat)
    requires n <= 8
    ensures RunChunks(0, SameWord(n)) == Some(RecordAll(EMPTY_BOOK, OnePerChunk(SAME_OFFSET, n)))
    decreases n
  {
    hide Record, RunOps, HasRoom, NeedsBlock, OnlyAddress;
    if n == 0 {
    } else {
      var c := n - 1;
      SameWordRuns(c);
      assert SameWord(n)[..c] == SameWord(c) && OnePerChunk(SAME_OFFSET, n)[..c] == OnePerChunk(SAME_OFFSET, c);
      FewBlocks(c);
      SameWordOp(RecordAll(EMPTY_BOOK, OnePerChunk(SAME_OFFSET, c)), c);
    }
  }

  /** One word, accessed once in each of eight chunks: its worker's chain is read back with the last entry
      only. */
  lemma {:induction false} EightChunksLoseSeven()
    ensures TraceWellFormed(SameWord(8)) && RunChunks(0, SameWord(8)).Some?
    ensures var b := RunChunks(0, SameWord(8)).value;
            && Wf(b) && AddrToOffset(0xA000_0000) == Some(SAME_OFFSET) && |ListOf(b, SAME_OFFSET)| == 8
            && Seen(Walk(b, SAME_OFFSET)) == [(7, 1)]
  {
    hide RunChunks, RecordAll, Walk, Seen, Wf, AddrToOffset;
    SameWordTouch();
    SameWordRuns(8);
    FirstAddressLosesEntries(SAME_OFFSET);
  }
}
