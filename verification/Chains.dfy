/** What a counter has recorded, as a mathematical object: for every offset the list of
    (chunk, count) entries, and which 16-word blocks of the slot array hold that list.
    MemCounter.dfy proves that the arrays represent such a book. */
module Chains {
  import opened MemConfig

  const ENTRIES_PER_BLOCK: nat := 7

  datatype Entry = Entry(chunk: u32, count: nat)

  /** lists: what was counted. blocks: the chain of each offset, oldest block first. owner: for each
      allocated block, the offset and place in the chain it serves. order: offsets by first use. */
  datatype Book = Book(lists: map<nat, seq<Entry>>,
                       blocks: map<nat, seq<nat>>,
                       owner: seq<(nat, nat)>,
                       order: seq<nat>)

  const EMPTY_BOOK: Book := Book(map[], map[], [], [])

  function ListOf(b: Book, o: nat): seq<Entry> {
    if o in b.lists then b.lists[o] else []
  }

  function Total(l: seq<Entry>): nat {
    if l == [] then 0 else Total(l[..|l| - 1]) + l[|l| - 1].count
  }

  /** Counting on one list: add to the last entry if it is of the same chunk, else append. */
  function Count(l: seq<Entry>, chunk: u32, count: nat): seq<Entry> {
    if l != [] && l[|l| - 1].chunk == chunk then
      l[|l| - 1 := Entry(chunk, l[|l| - 1].count + count)]
    else
      l + [Entry(chunk, count)]
  }

  predicate NeedsBlock(b: Book, o: nat, chunk: u32) {
    var l := ListOf(b, o);
    |Count(l, chunk, 0)| > |l| && |l| % ENTRIES_PER_BLOCK == 0
  }

  function ChainOf(b: Book, o: nat): seq<nat> {
    if o in b.blocks then b.blocks[o] else []
  }

  /** The next free block joins the chain of o. */
  function WithBlock(b: Book, o: nat): Book {
    b.(blocks := b.blocks[o := ChainOf(b, o) + [|b.owner|]],
       owner := b.owner + [(o, |ChainOf(b, o)|)])
  }

  function Record(b: Book, o: nat, chunk: u32, count: nat): Book {
    var b' := if NeedsBlock(b, o, chunk) then WithBlock(b, o) else b;
    b'.(lists := b.lists[o := Count(ListOf(b, o), chunk, count)],
        order := if o in b.lists then b.order else b.order + [o])
  }

  /** There is a free slot, or none is needed. */
  predicate HasRoom(b: Book, o: nat, chunk: u32) {
    NeedsBlock(b, o, chunk) ==> |b.owner| < ADDR_SLOTS
  }

  // ---- Heap shape ----

  function BlocksFor(entries: nat): nat {
    (entries + 6) / ENTRIES_PER_BLOCK
  }

  ghost predicate NoDuplicates(s: seq<nat>) {
    forall i, j :: 0 <= i < j < |s| ==> s[i] != s[j]
  }

  /** Every list has a chain of exactly the blocks it needs. */
  ghost predicate WfLists(b: Book) {
    && b.lists.Keys == b.blocks.Keys
    && (forall o :: o in b.lists ==> b.lists[o] != [])
    && (forall o :: o in b.lists ==> |b.blocks[o]| == BlocksFor(|b.lists[o]|))
  }

  ghost predicate OwnedAs(b: Book, x: nat, o: nat, j: nat) {
    && o in b.blocks && j < |b.blocks[o]| && b.blocks[o][j] == x
    && x < |b.owner| && b.owner[x] == (o, j)
    && (j > 0 ==> x > 0)
  }

  /** The owner table is a two-sided inverse of the chains: every allocated block is in exactly one
      chain, at one place; and block 0 can only be the root of a chain. */
  ghost predicate WfBlocks(b: Book) {
    && (forall o, j :: o in b.blocks && 0 <= j < |b.blocks[o]| ==> OwnedAs(b, b.blocks[o][j], o, j))
    && (forall x :: 0 <= x < |b.owner| ==> OwnedAs(b, x, b.owner[x].0, b.owner[x].1))
  }

  ghost predicate WfOrder(b: Book) {
    && NoDuplicates(b.order)
    && (forall o :: o in b.order <==> o in b.lists)
  }

  ghost predicate Wf(b: Book) {
    WfLists(b) && WfBlocks(b) && WfOrder(b)
  }

  lemma {:induction false} RecordKeepsLists(b: Book, o: nat, chunk: u32, count: nat)
    requires WfLists(b)
    ensures WfLists(Record(b, o, chunk, count))
  {
    var b' := Record(b, o, chunk, count);
    assert |b'.blocks[o]| == BlocksFor(|b'.lists[o]|);
  }

  lemma {:induction false} WithBlockKeepsBlocks(b: Book, o: nat)
    requires WfBlocks(b)
    ensures WfBlocks(WithBlock(b, o))
  {
    var b' := WithBlock(b, o);
    if ChainOf(b, o) != [] {
      assert OwnedAs(b, ChainOf(b, o)[0], o, 0);
    }
    forall q, j | q in b'.blocks && 0 <= j < |b'.blocks[q]|
      ensures OwnedAs(b', b'.blocks[q][j], q, j)
    {
      if q != o || j < |ChainOf(b, o)| {
        assert OwnedAs(b, b.blocks[q][j], q, j);
      }
    }
    forall x | 0 <= x < |b'.owner|
      ensures OwnedAs(b', x, b'.owner[x].0, b'.owner[x].1)
    {
      if x < |b.owner| {
        assert OwnedAs(b, x, b.owner[x].0, b.owner[x].1);
      }
    }
  }

  lemma {:induction false} RecordKeepsBlocks(b: Book, o: nat, chunk: u32, count: nat)
    requires WfBlocks(b)
    ensures WfBlocks(Record(b, o, chunk, count))
  {
    WithBlockKeepsBlocks(b, o);
    var b1, b2 := if NeedsBlock(b, o, chunk) then WithBlock(b, o) else b, Record(b, o, chunk, count);
    assert WfBlocks(b1) && b1.blocks == b2.blocks && b1.owner == b2.owner;
    forall q, j | q in b2.blocks && 0 <= j < |b2.blocks[q]|
      ensures OwnedAs(b2, b2.blocks[q][j], q, j)
    {
      assert OwnedAs(b1, b1.blocks[q][j], q, j);
    }
    forall x | 0 <= x < |b2.owner|
      ensures OwnedAs(b2, x, b2.owner[x].0, b2.owner[x].1)
    {
      assert OwnedAs(b1, x, b1.owner[x].0, b1.owner[x].1);
    }
  }

  lemma {:induction false} RecordKeepsOrder(b: Book, o: nat, chunk: u32, count: nat)
    requires WfOrder(b)
    ensures WfOrder(Record(b, o, chunk, count))
  {
  }

  lemma {:induction false} RecordKeepsWf(b: Book, o: nat, chunk: u32, count: nat)
    requires Wf(b)
    ensures Wf(Record(b, o, chunk, count))
  {
    RecordKeepsLists(b, o, chunk, count);
    RecordKeepsBlocks(b, o, chunk, count);
    RecordKeepsOrder(b, o, chunk, count);
  }

  /** Chains of different offsets share no block, and no chain visits a block twice. */
  lemma {:induction false} ChainsAreDisjoint(b: Book, o1: nat, j1: nat, o2: nat, j2: nat)
    requires Wf(b) && o1 in b.blocks && o2 in b.blocks && j1 < |b.blocks[o1]| && j2 < |b.blocks[o2]|
    ensures b.blocks[o1][j1] == b.blocks[o2][j2] <==> o1 == o2 && j1 == j2
  {
  }

  // ---- Sums over the recorded offsets ----

  function At(m: map<nat, nat>, o: nat): nat {
    if o in m then m[o] else 0
  }

  function SumAt(order: seq<nat>, m: map<nat, nat>): nat {
    if order == [] then 0 else SumAt(order[..|order| - 1], m) + At(m, order[|order| - 1])
  }

  lemma {:induction false} SumAtUpdate(order: seq<nat>, m: map<nat, nat>, o: nat, v: nat)
    requires NoDuplicates(order)
    ensures SumAt(order, m[o := v]) == SumAt(order, m) + if o in order then v - At(m, o) else 0
    decreases |order|
  {
    if order == [] {
    } else {
      var front, last := order[..|order| - 1], order[|order| - 1];
      assert order == front + [last];
      SumAtUpdate(front, m, o, v);
    }
  }

  function Sizes(lists: map<nat, seq<Entry>>): map<nat, nat> {
    map o | o in lists :: BlocksFor(|lists[o]|)
  }

  function Totals(lists: map<nat, seq<Entry>>): map<nat, nat> {
    map o | o in lists :: Total(lists[o])
  }

  /** Everything the book has counted. */
  function GrandTotal(b: Book): nat
  {
    SumAt(b.order, Totals(b.lists))
  }

  /** The slots used are the sum over the offsets of ceil(entries / 7): no block is wasted. */
  predicate SlotsExact(b: Book)
  {
    |b.owner| == SumAt(b.order, Sizes(b.lists))
  }

  lemma {:induction false} RecordAndSums(b: Book, b': Book, o: nat, m: map<nat, nat>, v: nat)
    requires WfOrder(b) && m.Keys == b.lists.Keys
    requires b'.order == if o in b.lists then b.order else b.order + [o]
    ensures SumAt(b'.order, m[o := v]) == SumAt(b.order, m) + v - At(m, o)
  {
    SumAtUpdate(b.order, m, o, v);
    if o !in b.lists {
      assert b'.order[..|b'.order| - 1] == b.order;
    }
  }

  lemma {:induction false} NewBlockWhenNeeded(b: Book, o: nat, chunk: u32, count: nat)
    ensures |Record(b, o, chunk, count).owner| - |b.owner|
            == BlocksFor(|Count(ListOf(b, o), chunk, count)|) - BlocksFor(|ListOf(b, o)|)
  {
  }

  lemma {:induction false} RecordKeepsSlotsExact(b: Book, o: nat, chunk: u32, count: nat)
    requires WfOrder(b) && SlotsExact(b)
    ensures SlotsExact(Record(b, o, chunk, count))
  {
    var b' := Record(b, o, chunk, count);
    var size := BlocksFor(|b'.lists[o]|);
    assert Sizes(b'.lists) == Sizes(b.lists)[o := size];
    RecordAndSums(b, b', o, Sizes(b.lists), size);
    NewBlockWhenNeeded(b, o, chunk, count);
  }

  lemma {:induction false} CountAddsToTotal(l: seq<Entry>, chunk: u32, count: nat)
    ensures Total(Count(l, chunk, count)) == Total(l) + count
  {
  }

  lemma {:induction false} TotalsOfRecord(b: Book, o: nat, chunk: u32, count: nat)
    ensures Totals(Record(b, o, chunk, count).lists)
            == Totals(b.lists)[o := Total(ListOf(b, o)) + count]
  {
  }

  lemma {:induction false} TotalsAt(b: Book, o: nat, chunk: u32, count: nat)
    ensures Totals(b.lists).Keys == b.lists.Keys && At(Totals(b.lists), o) == Total(ListOf(b, o))
    ensures Record(b, o, chunk, count).order == if o in b.lists then b.order else b.order + [o]
  {
  }

  lemma {:induction false} RecordAddsToGrandTotal(b: Book, o: nat, chunk: u32, count: nat)
    requires WfOrder(b)
    ensures GrandTotal(Record(b, o, chunk, count)) == GrandTotal(b) + count
  {
    hide Record, Totals, SumAt, At, Total, ListOf, WfOrder;
    TotalsAt(b, o, chunk, count);
    TotalsOfRecord(b, o, chunk, count);
    RecordAndSums(b, Record(b, o, chunk, count), o, Totals(b.lists), Total(ListOf(b, o)) + count);
  }

  // ---- Walking a chain ----

  /** The word index of entry i of a chain: two header words, then pairs. */
  function Pos(chain: seq<nat>, i: nat): nat
    requires i / ENTRIES_PER_BLOCK < |chain|
  {
    ADDR_SLOT_SIZE * chain[i / ENTRIES_PER_BLOCK] + 2 + 2 * (i % ENTRIES_PER_BLOCK)
  }

  /** A chain of exactly two blocks whose first block is block 0. Its second block's back link is 0,
      which the reader takes for "this is the only block". */
  predicate LosesFirstBlock(b: Book, o: nat) {
    o in b.blocks && |b.blocks[o]| == 2 && b.blocks[o][0] == 0
  }

  function WalkStart(b: Book, o: nat): nat {
    if LosesFirstBlock(b, o) then ENTRIES_PER_BLOCK else 0
  }

  datatype Stop = Stop(cpos: nat, chunk: u32, count: u32)

  function StepAt(b: Book, o: nat, i: nat): Stop
    requires Wf(b) && o in b.lists && i < |b.lists[o]|
  {
    Stop(Pos(b.blocks[o], i), b.lists[o][i].chunk, Wrap(b.lists[o][i].count))
  }

  /** The entries a reader meets, from the initial position to the last one. */
  function Walk(b: Book, o: nat): seq<Stop>
    requires Wf(b)
  {
    if o !in b.lists then [] else
      seq(|b.lists[o]| - WalkStart(b, o),
          k requires 0 <= k < |b.lists[o]| - WalkStart(b, o) => StepAt(b, o, WalkStart(b, o) + k))
  }

  function Recorded(l: seq<Entry>): seq<(u32, u32)> {
    seq(|l|, i requires 0 <= i < |l| => (l[i].chunk, Wrap(l[i].count)))
  }

  function Seen(w: seq<Stop>): seq<(u32, u32)> {
    seq(|w|, i requires 0 <= i < |w| => (w[i].chunk, w[i].count))
  }

  lemma {:induction false} TwoBlocksHold(b: Book, o: nat)
    requires Wf(b) && LosesFirstBlock(b, o)
    ensures o in b.lists && 8 <= |b.lists[o]| <= 14
  {
  }

  lemma {:induction false} WalkShowsRest(b: Book, o: nat)
    requires Wf(b) && o in b.lists
    ensures WalkStart(b, o) < |b.lists[o]| && Seen(Walk(b, o)) == Recorded(b.lists[o][WalkStart(b, o)..])
  {
    var l, s := b.lists[o], WalkStart(b, o);
    assert s < |l|;
    hide Wf, LosesFirstBlock;
    forall k | 0 <= k < |l| - s
      ensures Seen(Walk(b, o))[k] == Recorded(l[s..])[k]
    {
      assert Walk(b, o)[k] == StepAt(b, o, s + k);
    }
  }

  /** A walk yields the recorded list, except for a chain of two blocks rooted at block 0: it has 8 to
      14 entries and the walk misses precisely the first seven. */
  lemma {:induction false} WalkSeesTheList(b: Book, o: nat)
    requires Wf(b)
    ensures Seen(Walk(b, o)) == Recorded(ListOf(b, o)) <==> !LosesFirstBlock(b, o)
    ensures LosesFirstBlock(b, o) ==>
              8 <= |ListOf(b, o)| <= 14 && Seen(Walk(b, o)) == Recorded(ListOf(b, o)[7..])
  {
    if LosesFirstBlock(b, o) {
      TwoBlocksHold(b, o);
    }
    if o in b.lists {
      WalkShowsRest(b, o);
      hide Wf, Walk, Seen, LosesFirstBlock;
      assert b.lists[o][0..] == b.lists[o];
      assert |Recorded(b.lists[o])| == |b.lists[o]|;
    } else {
      assert Seen(Walk(b, o)) == Recorded(ListOf(b, o));
    }
  }

  lemma {:induction false} WalkPositionsDiffer(b: Book, o: nat, i: nat, j: nat)
    requires Wf(b) && o in b.lists && i < |b.lists[o]| && j < |b.lists[o]|
    ensures Pos(b.blocks[o], i) >= 2
    ensures Pos(b.blocks[o], i) == Pos(b.blocks[o], j) <==> i == j
  {
  }

  // ---- Which chain loses its first block ----

  /** Block 0 is the root of the first offset ever used. */
  ghost predicate RootFirst(b: Book) {
    && (b.owner == [] <==> b.order == [])
    && (b.owner != [] ==> b.owner[0] == (b.order[0], 0))
  }

  lemma {:induction false} RecordKeepsRootFirst(b: Book, o: nat, chunk: u32, count: nat)
    requires Wf(b) && RootFirst(b)
    ensures RootFirst(Record(b, o, chunk, count))
    ensures Record(b, o, chunk, count).order != []
    ensures Record(b, o, chunk, count).order[0] == if b.order == [] then o else b.order[0]
  {
  }

  /** It is the first offset's, as long as it has 8 to 14 entries. */
  lemma {:induction false} LosesIff(b: Book, o: nat)
    requires Wf(b) && RootFirst(b)
    ensures LosesFirstBlock(b, o) <==> b.order != [] && b.order[0] == o && 8 <= |ListOf(b, o)| <= 14
  {
  }

  // ---- Runs ----

  datatype Event = Event(offset: nat, chunk: u32, count: nat)

  function RecordAll(b: Book, events: seq<Event>): Book
    decreases |events|
  {
    if events == [] then b else
      var e := events[|events| - 1];
      Record(RecordAll(b, events[..|events| - 1]), e.offset, e.chunk, e.count)
  }

  /** Whatever is counted, and in whatever order, the heap keeps its shape. */
  lemma {:induction false} EveryRunKeepsShape(events: seq<Event>)
    ensures Wf(RecordAll(EMPTY_BOOK, events)) && SlotsExact(RecordAll(EMPTY_BOOK, events))
    decreases |events|
  {
    if events == [] {
    } else {
      var e := events[|events| - 1];
      EveryRunKeepsShape(events[..|events| - 1]);
      RecordKeepsWf(RecordAll(EMPTY_BOOK, events[..|events| - 1]), e.offset, e.chunk, e.count);
      RecordKeepsSlotsExact(RecordAll(EMPTY_BOOK, events[..|events| - 1]), e.offset, e.chunk, e.count);
    }
  }

  function OnePerChunk(o: nat, n: nat): seq<Event>
    requires n <= 14
  {
    seq(n, c requires 0 <= c < n => Event(o, c, 1))
  }

  ghost predicate OnlyAddress(b: Book, o: nat, n: nat) {
    && b.lists.Keys == {o} && b.blocks.Keys == {o}
    && 1 <= n == |b.lists[o]| && n <= 14 && b.lists[o][n - 1] == Entry(n - 1, 1)
    && b.blocks[o] == (if n <= 7 then [0] else [0, 1])
    && |b.owner| == |b.blocks[o]|
  }

  lemma {:induction false} OneMoreChunk(b: Book, o: nat, n: nat)
    requires OnlyAddress(b, o, n) && n < 14
    ensures OnlyAddress(Record(b, o, n, 1), o, n + 1)
  {
  }

  lemma {:induction false} FirstAddressFillsBlocks(o: nat, n: nat)
    requires 1 <= n <= 14
    ensures OnlyAddress(RecordAll(EMPTY_BOOK, OnePerChunk(o, n)), o, n)
    decreases n
  {
    assert OnePerChunk(o, n)[..n - 1] == OnePerChunk(o, n - 1);
    var b := RecordAll(EMPTY_BOOK, OnePerChunk(o, n - 1));
    assert RecordAll(EMPTY_BOOK, OnePerChunk(o, n)) == Record(b, o, n - 1, 1);
    if n > 1 {
      FirstAddressFillsBlocks(o, n - 1);
      OneMoreChunk(b, o, n - 1);
    } else {
      assert b == EMPTY_BOOK && NeedsBlock(b, o, 0);
    }
  }

  /** The loss happens: the first address a counter ever sees, touched in 8 different chunks, is
      walked as if it had been touched in the last chunk only. */
  lemma {:induction false} FirstAddressLosesEntries(o: nat)
    ensures var b := RecordAll(EMPTY_BOOK, OnePerChunk(o, 8));
            Wf(b) && |ListOf(b, o)| == 8 && Seen(Walk(b, o)) == [(7, 1)]
  {
    EveryRunKeepsShape(OnePerChunk(o, 8));
    FirstAddressFillsBlocks(o, 8);
    var b := RecordAll(EMPTY_BOOK, OnePerChunk(o, 8));
    hide RecordAll, Wf, SlotsExact;
    assert |Walk(b, o)| == 1 && Walk(b, o)[0] == StepAt(b, o, 7);
    assert b.lists[o][7] == Entry(7, 1);
  }
}
