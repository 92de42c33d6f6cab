/** How the flat slot array represents a book's chains (mem_counter.hpp:206-263): blocks of 16
    words, a two-word header and seven (chunk, count) pairs. Header word 0 is the previous block, 0
    in the first one; word 1 is the next block, and in the last block the first one. */
module SlotHeap {
  import opened MemConfig
  import opened Chains

  ghost predicate HeaderHolds(s: seq<u32>, b: Book, x: nat)
    requires |s| == ADDR_SLOTS_SIZE && x < |b.owner| <= ADDR_SLOTS
  {
    var (o, j) := b.owner[x];
    && OwnedAs(b, x, o, j)
    && s[16 * x] == (if j == 0 then 0 else 16 * b.blocks[o][j - 1])
    && s[16 * x + 1] == 16 * b.blocks[o][if j + 1 < |b.blocks[o]| then j + 1 else 0]
  }

  ghost predicate PairHolds(s: seq<u32>, b: Book, x: nat, r: nat)
    requires |s| == ADDR_SLOTS_SIZE && x < |b.owner| <= ADDR_SLOTS && r < 7
  {
    var l, i := ListOf(b, b.owner[x].0), 7 * b.owner[x].1 + r;
    i < |l| ==> s[16 * x + 2 + 2 * r] == l[i].chunk && s[16 * x + 3 + 2 * r] == Wrap(l[i].count)
  }

  ghost predicate Headers(s: seq<u32>, b: Book)
    requires |s| == ADDR_SLOTS_SIZE && |b.owner| <= ADDR_SLOTS
  {
    forall x :: 0 <= x < |b.owner| ==> HeaderHolds(s, b, x)
  }

  ghost predicate Pairs(s: seq<u32>, b: Book)
    requires |s| == ADDR_SLOTS_SIZE && |b.owner| <= ADDR_SLOTS
  {
    forall x, r :: 0 <= x < |b.owner| && 0 <= r < 7 ==> PairHolds(s, b, x, r)
  }

  ghost predicate Represents(s: seq<u32>, b: Book) {
    |s| == ADDR_SLOTS_SIZE && Wf(b) && |b.owner| <= ADDR_SLOTS && Headers(s, b) && Pairs(s, b)
  }

  /** Where the last entry of o lies; the table holds this position. */
  function LastPos(b: Book, o: nat): (p: nat)
    requires Wf(b) && o in b.lists
  {
    Pos(b.blocks[o], |b.lists[o]| - 1)
  }

  function LastBlock(b: Book, o: nat): nat
    requires Wf(b) && o in b.lists
  {
    b.blocks[o][|b.blocks[o]| - 1]
  }

  lemma {:induction false} LastPosIsInLastBlock(b: Book, o: nat)
    requires Wf(b) && o in b.lists
    ensures LastPos(b, o) == 16 * LastBlock(b, o) + 2 + 2 * ((|b.lists[o]| - 1) % 7)
    ensures LastBlock(b, o) < |b.owner|
    ensures b.owner[LastBlock(b, o)] == (o, |b.blocks[o]| - 1)
    ensures |b.blocks[o]| - 1 == (|b.lists[o]| - 1) / 7
  {
  }

  lemma {:induction false} LastPairHolds(s: seq<u32>, b: Book, o: nat)
    requires Represents(s, b) && o in b.lists
    ensures LastPos(b, o) + 1 < |s|
    ensures s[LastPos(b, o)] == b.lists[o][|b.lists[o]| - 1].chunk
    ensures s[LastPos(b, o) + 1] == Wrap(b.lists[o][|b.lists[o]| - 1].count)
  {
    LastPosIsInLastBlock(b, o);
    var i := |b.lists[o]| - 1;
    assert PairHolds(s, b, LastBlock(b, o), i % 7);
    assert 7 * (i / 7) + i % 7 == i;
  }

  // ---- The writes of count_aligned, branch by branch ----

  /** Block z holds entry 7 * j + q, the last one, of o's list. */
  ghost predicate LastAt(b: Book, o: nat, z: nat, j: nat, q: nat) {
    && o in b.lists && |b.lists[o]| == 7 * j + q + 1 && q < 7
    && z < |b.owner| && b.owner[z] == (o, j)
  }

  lemma {:induction false} LastIsSomewhere(b: Book, o: nat)
    requires Wf(b) && o in b.lists
    ensures var z, n := LastBlock(b, o), |b.lists[o]|;
            && LastAt(b, o, z, (n - 1) / 7, (n - 1) % 7)
            && LastPos(b, o) == 16 * z + 2 + 2 * ((n - 1) % 7)
            && o in b.blocks && |b.blocks[o]| == (n - 1) / 7 + 1
  {
  }

  lemma {:induction false} OwnersDiffer(b: Book, x: nat, z: nat)
    requires WfBlocks(b) && x < |b.owner| && z < |b.owner| && x != z
    ensures b.owner[x] != b.owner[z]
  {
  }

  lemma {:induction false} RecordBumps(b: Book, o: nat, chunk: u32, count: u32)
    requires o in b.lists && b.lists[o] != [] && b.lists[o][|b.lists[o]| - 1].chunk == chunk
    ensures !NeedsBlock(b, o, chunk)
    ensures var l, n := b.lists[o], |b.lists[o]|;
            Record(b, o, chunk, count) == b.(lists := b.lists[o := l[n - 1 := Entry(chunk, l[n - 1].count + count)]])
  {
  }

  lemma {:induction false} RecordAppends(b: Book, o: nat, chunk: u32, count: u32)
    requires o in b.lists && b.lists[o] != [] && b.lists[o][|b.lists[o]| - 1].chunk != chunk
    requires |b.lists[o]| % 7 != 0
    ensures !NeedsBlock(b, o, chunk)
    ensures Record(b, o, chunk, count) == b.(lists := b.lists[o := b.lists[o] + [Entry(chunk, count)]])
  {
  }

  /** A pair of another block keeps its words, and a pair of block z is either the last entry's or an
      older one: the last pair's words are written, everything else stays. */
  lemma {:induction false} PairAfterBump(s: seq<u32>, b: Book, b': Book, o: nat, count: u32, z: nat, j: nat, q: nat, x: nat, r: nat)
    requires |s| == ADDR_SLOTS_SIZE && x < |b.owner| <= ADDR_SLOTS && r < 7
    requires LastAt(b, o, z, j, q) && (x != z ==> b.owner[x] != b.owner[z])
    requires b'.owner == b.owner
    requires var e := b.lists[o][7 * j + q];
             b'.lists == b.lists[o := b.lists[o][7 * j + q := Entry(e.chunk, e.count + count)]]
    requires PairHolds(s, b, x, r) && PairHolds(s, b, z, q)
    ensures var p := 16 * z + 3 + 2 * q;
            PairHolds(s[p := Wrap(s[p] as int + count)], b', x, r)
  {
  }

  lemma {:induction false} PairAfterAppend(s: seq<u32>, b: Book, b': Book, o: nat, chunk: u32, count: u32,
                        z: nat, j: nat, q: nat, x: nat, r: nat)
    requires |s| == ADDR_SLOTS_SIZE && x < |b.owner| <= ADDR_SLOTS && r < 7
    requires LastAt(b, o, z, j, q) && q < 6 && (x != z ==> b.owner[x] != b.owner[z])
    requires b'.owner == b.owner && b'.lists == b.lists[o := b.lists[o] + [Entry(chunk, count)]]
    requires PairHolds(s, b, x, r)
    ensures var p := 16 * z + 4 + 2 * q;
            PairHolds(s[p := chunk][p + 1 := count], b', x, r)
  {
  }

  /** The slot array after a block is taken: its four words are written, and then the link at t. */
  function WithNewBlock(s: seq<u32>, y: nat, w0: u32, w1: u32, w2: u32, w3: u32): (s': seq<u32>)
    requires |s| == ADDR_SLOTS_SIZE && y < ADDR_SLOTS
    ensures |s'| == |s|
  {
    s[16 * y := w0][16 * y + 1 := w1][16 * y + 2 := w2][16 * y + 3 := w3]
  }

  lemma {:induction false} PairAfterNewBlock(s: seq<u32>, s': seq<u32>, b: Book, b': Book, o: nat, chunk: u32, count: u32, x: nat, r: nat)
    requires |s| == |s'| == ADDR_SLOTS_SIZE && |b.owner| < ADDR_SLOTS && r < 7
    requires b'.owner == b.owner + [(o, |ChainOf(b, o)|)] && x < |b'.owner|
    requires |ListOf(b, o)| == 7 * |ChainOf(b, o)|
    requires b'.lists == b.lists[o := ListOf(b, o) + [Entry(chunk, count)]]
    requires x < |b.owner| ==> PairHolds(s, b, x, r) && (b.owner[x].0 == o ==> b.owner[x].1 < |ChainOf(b, o)|)
    requires x < |b.owner| ==> s'[16 * x + 2 + 2 * r] == s[16 * x + 2 + 2 * r] && s'[16 * x + 3 + 2 * r] == s[16 * x + 3 + 2 * r]
    requires s'[16 * |b.owner| + 2] == chunk && s'[16 * |b.owner| + 3] == count
    ensures PairHolds(s', b', x, r)
  {
  }

  lemma {:induction false} HeaderUntouched(s: seq<u32>, s': seq<u32>, b: Book, b': Book, x: nat)
    requires |s| == |s'| == ADDR_SLOTS_SIZE && x < |b.owner| <= ADDR_SLOTS
    requires b'.owner == b.owner && b'.blocks == b.blocks
    requires HeaderHolds(s, b, x) && s'[16 * x] == s[16 * x] && s'[16 * x + 1] == s[16 * x + 1]
    ensures HeaderHolds(s', b', x)
  {
  }

  lemma {:induction false} HeaderAfterNewBlock(s: seq<u32>, s': seq<u32>, b: Book, b': Book, o: nat, x: nat)
    requires |s| == |s'| == ADDR_SLOTS_SIZE && |b.owner| < ADDR_SLOTS && x < |b'.owner|
    requires b'.owner == b.owner + [(o, |ChainOf(b, o)|)]
    requires b'.blocks == b.blocks[o := ChainOf(b, o) + [|b.owner|]]
    requires ChainOf(b, o) == [] || |b.owner| > 0
    requires x < |b.owner| ==> HeaderHolds(s, b, x) && s'[16 * x] == s[16 * x]
    requires x < |b.owner| ==>
               s'[16 * x + 1] == if b.owner[x] == (o, |ChainOf(b, o)| - 1) then 16 * |b.owner| else s[16 * x + 1]
    requires s'[16 * |b.owner|] == if ChainOf(b, o) == [] then 0 else 16 * ChainOf(b, o)[|ChainOf(b, o)| - 1]
    requires s'[16 * |b.owner| + 1] == if ChainOf(b, o) == [] then 16 * |b.owner| else 16 * ChainOf(b, o)[0]
    ensures HeaderHolds(s', b', x)
  {
  }

  lemma {:induction false} HeadersUntouched(s: seq<u32>, s': seq<u32>, b: Book, b': Book)
    requires |s| == |s'| == ADDR_SLOTS_SIZE && |b.owner| <= ADDR_SLOTS
    requires b'.owner == b.owner && b'.blocks == b.blocks && Headers(s, b)
    requires forall x :: 0 <= x < |b.owner| ==> s'[16 * x] == s[16 * x] && s'[16 * x + 1] == s[16 * x + 1]
    ensures Headers(s', b')
  {
    forall x | 0 <= x < |b'.owner|
      ensures HeaderHolds(s', b', x)
    {
      HeaderUntouched(s, s', b, b', x);
    }
  }

  lemma {:induction false} BumpRepresents(s: seq<u32>, b: Book, o: nat, chunk: u32, count: u32)
    requires Represents(s, b) && o in b.lists && b.lists[o][|b.lists[o]| - 1].chunk == chunk
    ensures LastPos(b, o) + 1 < |s| && !NeedsBlock(b, o, chunk)
    ensures var p := LastPos(b, o) + 1;
            Represents(s[p := Wrap(s[p] as int + count)], Record(b, o, chunk, count))
  {
    hide WfBlocks, WfOrder, WfLists;
    LastIsSomewhere(b, o);
    RecordBumps(b, o, chunk, count);
    var p, b', i, z := LastPos(b, o) + 1, Record(b, o, chunk, count), |b.lists[o]| - 1, LastBlock(b, o);
    var s' := s[p := Wrap(s[p] as int + count)];
    assert Wf(b') by { RecordKeepsWf(b, o, chunk, count); }
    assert Headers(s', b') by { HeadersUntouched(s, s', b, b'); }
    forall x, r | 0 <= x < |b'.owner| && 0 <= r < 7
      ensures PairHolds(s', b', x, r)
    {
      if x != z {
        OwnersDiffer(b, x, z);
      }
      PairAfterBump(s, b, b', o, count, z, i / 7, i % 7, x, r);
    }
  }

  lemma {:induction false} AppendRepresents(s: seq<u32>, b: Book, o: nat, chunk: u32, count: u32)
    requires Represents(s, b) && o in b.lists && b.lists[o][|b.lists[o]| - 1].chunk != chunk
    requires |b.lists[o]| % 7 != 0
    ensures !NeedsBlock(b, o, chunk) && LastPos(b, o) + 3 < |s|
    ensures Represents(s[LastPos(b, o) + 2 := chunk][LastPos(b, o) + 3 := count], Record(b, o, chunk, count))
  {
    hide WfBlocks, WfOrder, WfLists;
    LastIsSomewhere(b, o);
    RecordAppends(b, o, chunk, count);
    var p, b', i, z := LastPos(b, o) + 2, Record(b, o, chunk, count), |b.lists[o]| - 1, LastBlock(b, o);
    assert i % 7 < 6;
    var s' := s[p := chunk][p + 1 := count];
    assert Wf(b') by { RecordKeepsWf(b, o, chunk, count); }
    assert Headers(s', b') by { HeadersUntouched(s, s', b, b'); }
    forall x, r | 0 <= x < |b'.owner| && 0 <= r < 7
      ensures PairHolds(s', b', x, r)
    {
      if x != z {
        OwnersDiffer(b, x, z);
      }
      PairAfterAppend(s, b, b', o, chunk, count, z, i / 7, i % 7, x, r);
    }
  }

  lemma {:induction false} RecordTakesBlock(b: Book, o: nat, chunk: u32, count: u32)
    requires Wf(b) && NeedsBlock(b, o, chunk)
    ensures var b' := Record(b, o, chunk, count);
            && b'.owner == b.owner + [(o, |ChainOf(b, o)|)]
            && b'.blocks == b.blocks[o := ChainOf(b, o) + [|b.owner|]]
            && b'.lists == b.lists[o := ListOf(b, o) + [Entry(chunk, count)]]
    ensures |ListOf(b, o)| == 7 * |ChainOf(b, o)|
    ensures ChainOf(b, o) == [] || |b.owner| > 0
  {
    if ChainOf(b, o) != [] {
      assert OwnedAs(b, ChainOf(b, o)[0], o, 0);
    }
  }

  lemma {:induction false} NewBlockRepresents(s: seq<u32>, s': seq<u32>, b: Book, o: nat, chunk: u32, count: u32)
    requires Represents(s, b) && |b.owner| < ADDR_SLOTS && |s'| == |s|
    requires NeedsBlock(b, o, chunk)
    requires forall x :: 0 <= x < |b.owner| ==> s'[16 * x] == s[16 * x]
    requires forall x :: 0 <= x < |b.owner| ==>
               s'[16 * x + 1] == if b.owner[x] == (o, |ChainOf(b, o)| - 1) then 16 * |b.owner| else s[16 * x + 1]
    requires forall x, r :: 0 <= x < |b.owner| && 0 <= r < 7 ==>
               s'[16 * x + 2 + 2 * r] == s[16 * x + 2 + 2 * r] && s'[16 * x + 3 + 2 * r] == s[16 * x + 3 + 2 * r]
    requires s'[16 * |b.owner|] == if ChainOf(b, o) == [] then 0 else 16 * ChainOf(b, o)[|ChainOf(b, o)| - 1]
    requires s'[16 * |b.owner| + 1] == if ChainOf(b, o) == [] then 16 * |b.owner| else 16 * ChainOf(b, o)[0]
    requires s'[16 * |b.owner| + 2] == chunk && s'[16 * |b.owner| + 3] == count
    ensures Represents(s', Record(b, o, chunk, count))
  {
    RecordTakesBlock(b, o, chunk, count);
    var b' := Record(b, o, chunk, count);
    assert Wf(b') by { RecordKeepsWf(b, o, chunk, count); }
    forall x | 0 <= x < |b'.owner|
      ensures HeaderHolds(s', b', x)
    {
      HeaderAfterNewBlock(s, s', b, b', o, x);
    }
    forall x, r | 0 <= x < |b'.owner| && 0 <= r < 7
      ensures PairHolds(s', b', x, r)
    {
      if x < |b.owner| {
        assert OwnedAs(b, x, b.owner[x].0, b.owner[x].1);
      }
      PairAfterNewBlock(s, s', b, b', o, chunk, count, x, r);
    }
  }

  lemma {:induction false} OpenChainRepresents(s: seq<u32>, b: Book, o: nat, chunk: u32, count: u32)
    requires Represents(s, b) && o !in b.lists && |b.owner| < ADDR_SLOTS
    ensures Represents(WithNewBlock(s, |b.owner|, 0, 16 * |b.owner|, chunk, count), Record(b, o, chunk, count))
  {
    NewBlockRepresents(s, WithNewBlock(s, |b.owner|, 0, 16 * |b.owner|, chunk, count), b, o, chunk, count);
  }

  /** Linking block y behind block z touches nothing below y but the link of z. */
  lemma {:induction false} LinkedBlock(s: seq<u32>, z: nat, y: nat, chunk: u32, count: u32)
    requires |s| == ADDR_SLOTS_SIZE && z < y < ADDR_SLOTS
    ensures var s' := WithNewBlock(s, y, 16 * z, s[16 * z + 1], chunk, count)[16 * z + 1 := 16 * y];
            && |s'| == |s|
            && (forall x :: 0 <= x < y ==> s'[16 * x] == s[16 * x] && s'[16 * x + 1] == if x == z then 16 * y else s[16 * x + 1])
            && (forall x, r :: 0 <= x < y && 0 <= r < 7 ==>
                  s'[16 * x + 2 + 2 * r] == s[16 * x + 2 + 2 * r] && s'[16 * x + 3 + 2 * r] == s[16 * x + 3 + 2 * r])
            && s'[16 * y] == 16 * z && s'[16 * y + 1] == s[16 * z + 1] && s'[16 * y + 2] == chunk && s'[16 * y + 3] == count
  {
  }

  lemma {:induction false} ExtendChainRepresents(s: seq<u32>, b: Book, o: nat, chunk: u32, count: u32)
    requires Represents(s, b) && o in b.lists && NeedsBlock(b, o, chunk) && |b.owner| < ADDR_SLOTS
    ensures LastBlock(b, o) < |b.owner|
    ensures var t, y := 16 * LastBlock(b, o), |b.owner|;
            Represents(WithNewBlock(s, y, t, s[t + 1], chunk, count)[t + 1 := 16 * y], Record(b, o, chunk, count))
  {
    hide WfBlocks, WfOrder, WfLists, Pairs, Record, WithNewBlock, NeedsBlock;
    LastIsSomewhere(b, o);
    var z, y := LastBlock(b, o), |b.owner|;
    var s' := WithNewBlock(s, y, 16 * z, s[16 * z + 1], chunk, count)[16 * z + 1 := 16 * y];
    LinkedBlock(s, z, y, chunk, count);
    assert HeaderHolds(s, b, z);
    forall x | 0 <= x < y
      ensures s'[16 * x + 1] == if b.owner[x] == (o, |ChainOf(b, o)| - 1) then 16 * y else s[16 * x + 1]
    {
      if x != z {
        OwnersDiffer(b, x, z);
      }
    }
    NewBlockRepresents(s, s', b, o, chunk, count);
  }

  // ---- The reads ----

  /** get_initial_pos past its bounds check: the position after the only block's header, or after
      the header of the block the last one links to. */
  function InitialPos(s: seq<u32>, pos: u32): u32
    requires |s| == ADDR_SLOTS_SIZE && pos < ADDR_SLOTS_SIZE
  {
    var tpos := pos - pos % ADDR_SLOT_SIZE;
    if s[tpos] == 0 then tpos + 2 else Wrap(s[tpos + 1] as int + 2)
  }

  function NextPos(s: seq<u32>, pos: u32): u32
    requires |s| == ADDR_SLOTS_SIZE && pos < ADDR_SLOTS_SIZE
  {
    if pos % ADDR_SLOT_SIZE < ADDR_SLOT_SIZE - 1 then pos + 1
    else
      var tpos := pos - pos % ADDR_SLOT_SIZE;
      if s[tpos + 1] != 0 then Wrap(s[tpos + 1] as int + 2) else 0
  }

  /** The last block's header tells the root, and whether it looks like the only block. */
  lemma {:induction false} LastHeader(s: seq<u32>, b: Book, o: nat)
    requires Represents(s, b) && o in b.lists
    ensures var z, chain := LastBlock(b, o), b.blocks[o];
            && z < ADDR_SLOTS && chain[0] < ADDR_SLOTS
            && (s[16 * z] == 0 <==> |chain| == 1 || LosesFirstBlock(b, o))
            && s[16 * z + 1] == 16 * chain[0]
            && (|chain| == 1 ==> z == chain[0])
  {
    hide Pairs, WfOrder;
    var z, chain := LastBlock(b, o), b.blocks[o];
    assert OwnedAs(b, z, o, |chain| - 1) && OwnedAs(b, chain[0], o, 0);
    assert HeaderHolds(s, b, z);
    if |chain| >= 2 {
      assert OwnedAs(b, chain[|chain| - 2], o, |chain| - 2);
    }
  }

  lemma {:induction false} BlockStart(z: nat, q: nat)
    requires q < 7
    ensures var p := 16 * z + 2 + 2 * q; p - p % ADDR_SLOT_SIZE == 16 * z
  {
  }

  /** Where a walk starts: in the last block if that is the only one, or looks like it, else in the root. */
  lemma {:induction false} FirstStepPos(b: Book, o: nat)
    requires Wf(b) && o in b.lists
    ensures Walk(b, o) != []
    ensures Walk(b, o)[0].cpos
            == if |b.blocks[o]| == 1 || LosesFirstBlock(b, o) then 16 * LastBlock(b, o) + 2 else 16 * b.blocks[o][0] + 2
  {
    assert Walk(b, o)[0] == StepAt(b, o, WalkStart(b, o));
  }

  lemma {:induction false} InitialPosIsFirstStep(s: seq<u32>, b: Book, o: nat)
    requires Represents(s, b) && o in b.lists
    ensures LastPos(b, o) < ADDR_SLOTS_SIZE && |Walk(b, o)| > 0
    ensures InitialPos(s, LastPos(b, o)) == Walk(b, o)[0].cpos
  {
    LastPosIsInLastBlock(b, o);
    LastHeader(s, b, o);
    FirstStepPos(b, o);
    hide Wf, Headers, Pairs, Walk, LastPos, LastBlock, LosesFirstBlock;
    BlockStart(LastBlock(b, o), (|b.lists[o]| - 1) % 7);
  }

  lemma {:induction false} StepReads(s: seq<u32>, b: Book, o: nat, i: nat)
    requires Represents(s, b) && o in b.lists && i < |b.lists[o]|
    ensures var p := Pos(b.blocks[o], i);
            && 2 <= p && p + 1 < ADDR_SLOTS_SIZE
            && s[p] == b.lists[o][i].chunk && s[p + 1] == Wrap(b.lists[o][i].count)
            && (i + 1 < |b.lists[o]| ==> NextPos(s, p + 1) == Pos(b.blocks[o], i + 1))
  {
    var chain, j, r := b.blocks[o], i / 7, i % 7;
    assert OwnedAs(b, chain[j], o, j);
    assert PairHolds(s, b, chain[j], r);
    assert 7 * j + r == i;
    if i + 1 < |b.lists[o]| && r == 6 {
      assert HeaderHolds(s, b, chain[j]);
      assert (i + 1) / 7 == j + 1;
      assert OwnedAs(b, chain[j + 1], o, j + 1);
      assert OwnedAs(b, chain[0], o, 0);
    }
  }

  /** Reading from the array walks the chain: the initial position is the first step's, each step's
      words are its chunk and count, the position after a step is the next step's, and the last
      step's position is the one the table holds. */
  lemma {:induction false} ReadsWalk(s: seq<u32>, b: Book, o: nat, k: nat)
    requires Represents(s, b) && o in b.lists && k < |Walk(b, o)|
    ensures var w := Walk(b, o);
            && 2 <= w[k].cpos && w[k].cpos + 1 < ADDR_SLOTS_SIZE
            && InitialPos(s, LastPos(b, o)) == w[0].cpos
            && s[w[k].cpos] == w[k].chunk && s[w[k].cpos + 1] == w[k].count
            && (k + 1 < |w| ==> NextPos(s, w[k].cpos + 1) == w[k + 1].cpos)
            && (w[k].cpos == LastPos(b, o) <==> k + 1 == |w|)
  {
    hide Headers, Pairs, WfBlocks, WfOrder;
    InitialPosIsFirstStep(s, b, o);
    var i := WalkStart(b, o) + k;
    StepReads(s, b, o, i);
    assert Walk(b, o)[k] == StepAt(b, o, i);
    if k + 1 < |Walk(b, o)| {
      assert Walk(b, o)[k + 1] == StepAt(b, o, i + 1);
    }
    WalkPositionsDiffer(b, o, i, |b.lists[o]| - 1);
  }
}
