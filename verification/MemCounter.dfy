/** One counting worker (mem_counter.hpp): the table of last positions, the slot array with the
    chains, and the first and last used offset of every page. */
module MemCounter {
  import opened MemConfig
  import opened AddressMap
  import opened Chains
  import opened SlotHeap
  import opened Trace
  import opened Capacity

  datatype AddrCount = AddrCount(pos: u32, count: u32)

  ghost predicate TableHolds(t: seq<AddrCount>, b: Book, o: nat)
    requires |t| == ADDR_TABLE_SIZE && o < ADDR_TABLE_SIZE && Wf(b)
  {
    t[o].pos == if o in b.lists then LastPos(b, o) else 0
  }

  ghost predicate Table(t: seq<AddrCount>, b: Book)
    requires Wf(b)
  {
    && |t| == ADDR_TABLE_SIZE
    && (forall o :: o in b.lists ==> o < ADDR_TABLE_SIZE)
    && (forall o :: 0 <= o < ADDR_TABLE_SIZE ==> TableHolds(t, b, o))
  }

  /** The count kept beside each position is the sum of that offset's chain. */
  ghost predicate Counts(t: seq<AddrCount>, b: Book) {
    forall o :: 0 <= o < |t| ==> t[o].count == Wrap(Total(ListOf(b, o)))
  }

  /** The limits of a page are the least and the greatest offset used in it, or (max, 0) if none is. */
  ghost predicate LimitsHold(first: u32, last: u32, b: Book, page: nat) {
    && (forall o :: o in b.lists && OffsetToPage(o) == page ==> first <= o <= last)
    && (if first == EMPTY_PAGE then last == 0
        else first in b.lists && OffsetToPage(first) == page && last in b.lists && OffsetToPage(last) == page)
  }

  ghost predicate Limits(first: seq<u32>, last: seq<u32>, b: Book) {
    && |first| == |last| == MAX_PAGES
    && (forall p :: 0 <= p < MAX_PAGES ==> LimitsHold(first[p], last[p], b, p))
  }

  lemma {:induction false} TableAfterRecord(t: seq<AddrCount>, v: AddrCount, b: Book, o: nat, chunk: u32, count: u32)
    requires Wf(b) && Wf(Record(b, o, chunk, count)) && Table(t, b) && o < ADDR_TABLE_SIZE
    requires v.pos == LastPos(Record(b, o, chunk, count), o)
    ensures Table(t[o := v], Record(b, o, chunk, count))
  {
    hide Wf;
    var t', b' := t[o := v], Record(b, o, chunk, count);
    forall q | 0 <= q < ADDR_TABLE_SIZE
      ensures TableHolds(t', b', q)
    {
      assert TableHolds(t, b, q);
    }
  }

  lemma {:induction false} CountsAfterRecord(t: seq<AddrCount>, v: AddrCount, b: Book, o: nat, chunk: u32, count: u32)
    requires Counts(t, b) && o < |t| && v.count == Wrap(t[o].count as int + count)
    ensures Counts(t[o := v], Record(b, o, chunk, count))
  {
    CountAddsToTotal(ListOf(b, o), chunk, count);
    WrapAdd(Total(ListOf(b, o)), count);
  }

  lemma {:induction false} LastPosAfterRecord(b: Book, o: nat, chunk: u32, count: u32)
    requires Wf(b) && Wf(Record(b, o, chunk, count))
    ensures NeedsBlock(b, o, chunk) ==> LastPos(Record(b, o, chunk, count), o) == 16 * |b.owner| + 2
    ensures !NeedsBlock(b, o, chunk) ==>
              && o in b.lists && b.lists[o] != []
              && LastPos(Record(b, o, chunk, count), o)
                 == LastPos(b, o) + if b.lists[o][|b.lists[o]| - 1].chunk == chunk then 0 else 2
  {
  }

  lemma {:induction false} ListIsUsed(b: Book, o: nat)
    requires Wf(b) && o in b.lists
    ensures b.lists[o] != []
  {
  }

  lemma {:induction false} PosInBlock(z: nat, n: nat)
    requires n > 0
    ensures var p := 16 * z + 2 + 2 * ((n - 1) % 7);
            && (p % ADDR_SLOT_SIZE == ADDR_SLOT_SIZE - 2 <==> n % 7 == 0)
            && (n % 7 == 0 ==> p - ADDR_SLOT_SIZE + 2 == 16 * z)
  {
  }

  /** The table's position tells apart the four cases of count_aligned. */
  lemma {:induction false} PosTellsCase(t: seq<AddrCount>, s: seq<u32>, b: Book, o: nat, chunk: u32)
    requires Represents(s, b) && Table(t, b) && o < ADDR_TABLE_SIZE
    ensures t[o].pos == 0 <==> o !in b.lists
    ensures o !in b.lists ==> NeedsBlock(b, o, chunk)
    ensures o in b.lists ==>
              && t[o].pos == LastPos(b, o) && t[o].pos + 1 < |s|
              && s[t[o].pos] == b.lists[o][|b.lists[o]| - 1].chunk
              && (NeedsBlock(b, o, chunk) <==> s[t[o].pos] != chunk && |b.lists[o]| % 7 == 0)
              && (t[o].pos % ADDR_SLOT_SIZE == ADDR_SLOT_SIZE - 2 <==> |b.lists[o]| % 7 == 0)
              && (|b.lists[o]| % 7 == 0 ==> t[o].pos - ADDR_SLOT_SIZE + 2 == 16 * LastBlock(b, o))
  {
    hide Headers, Pairs, Wf, LastPos, LastBlock, LastAt;
    assert TableHolds(t, b, o);
    if o in b.lists {
      LastPairHolds(s, b, o);
      LastIsSomewhere(b, o);
      ListIsUsed(b, o);
      PosInBlock(LastBlock(b, o), |b.lists[o]|);
    }
  }

  lemma {:induction false} LimitsOfNewOffset(first: u32, last: u32, b: Book, o: nat, chunk: u32, count: u32, page: nat)
    requires LimitsHold(first, last, b, page) && o < ADDR_TABLE_SIZE
    requires forall q :: q in b.lists ==> q < ADDR_TABLE_SIZE
    ensures OffsetToPage(o) == page ==>
              LimitsHold(if o < first then o else first, if last < o then o else last, Record(b, o, chunk, count), page)
    ensures OffsetToPage(o) != page || o in b.lists ==> LimitsHold(first, last, Record(b, o, chunk, count), page)
  {
  }

  lemma {:induction false} LimitsAfterRecord(first: seq<u32>, last: seq<u32>, first': seq<u32>, last': seq<u32>,
                          b: Book, o: nat, chunk: u32, count: u32)
    requires Limits(first, last, b) && o < ADDR_TABLE_SIZE
    requires forall q :: q in b.lists ==> q < ADDR_TABLE_SIZE
    requires var p := OffsetToPage(o);
             if o in b.lists then first' == first && last' == last else
             && first' == first[p := if o < first[p] then o else first[p]]
             && last' == last[p := if last[p] < o then o else last[p]]
    ensures Limits(first', last', Record(b, o, chunk, count))
  {
    forall p | 0 <= p < MAX_PAGES
      ensures LimitsHold(first'[p], last'[p], Record(b, o, chunk, count), p)
    {
      assert LimitsHold(first[p], last[p], b, p);
      LimitsOfNewOffset(first[p], last[p], b, o, chunk, count, p);
    }
  }

  /** The arrays of a counter, as one value. */
  datatype Store = Store(slots: seq<u32>, table: seq<AddrCount>, first: seq<u32>, last: seq<u32>)

  ghost predicate Holds(st: Store, b: Book) {
    Represents(st.slots, b) && SlotsExact(b) && Table(st.table, b) && Limits(st.first, st.last, b)
  }

  // ---- The stores the four cases of count_aligned leave behind ----

  function Opened(st: Store, o: nat, y: nat, chunk: u32, count: u32): Store
    requires |st.slots| == ADDR_SLOTS_SIZE && |st.table| == ADDR_TABLE_SIZE && |st.first| == |st.last| == MAX_PAGES
    requires y < ADDR_SLOTS && o < ADDR_TABLE_SIZE
  {
    var p := OffsetToPage(o);
    Store(WithNewBlock(st.slots, y, 0, 16 * y, chunk, count),
          st.table[o := AddrCount(16 * y + 2, count)],
          st.first[p := if o < st.first[p] then o else st.first[p]],
          st.last[p := if st.last[p] < o then o else st.last[p]])
  }

  /** An offset in use: its count grows first, whatever comes next. */
  function Tallied(st: Store, o: nat, count: u32): Store
    requires o < |st.table|
  {
    st.(table := st.table[o := st.table[o].(count := Wrap(st.table[o].count as int + count))])
  }

  function Bumped(st: Store, p: nat, count: u32): Store
    requires p + 1 < |st.slots|
  {
    st.(slots := st.slots[p + 1 := Wrap(st.slots[p + 1] as int + count)])
  }

  function Extended(st: Store, o: nat, t: nat, y: nat, chunk: u32, count: u32): Store
    requires |st.slots| == ADDR_SLOTS_SIZE && o < |st.table| && y < ADDR_SLOTS && t + 1 < ADDR_SLOTS_SIZE
  {
    st.(slots := WithNewBlock(st.slots, y, t, st.slots[t + 1], chunk, count)[t + 1 := 16 * y],
        table := st.table[o := st.table[o].(pos := 16 * y + 2)])
  }

  function Appended(st: Store, o: nat, p: nat, chunk: u32, count: u32): Store
    requires o < |st.table| && p + 3 < |st.slots| && p < ADDR_SLOTS_SIZE
  {
    st.(slots := st.slots[p + 2 := chunk][p + 3 := count],
        table := st.table[o := st.table[o].(pos := p + 2)])
  }

  lemma {:induction false} RestOfTable(t: seq<AddrCount>, v: AddrCount, b: Book, o: nat, chunk: u32, count: u32)
    requires Wf(b) && Table(t, b) && o < ADDR_TABLE_SIZE && Wf(Record(b, o, chunk, count))
    requires v.pos == if NeedsBlock(b, o, chunk) then 16 * |b.owner| + 2
                      else LastPos(b, o) + if b.lists[o][|b.lists[o]| - 1].chunk == chunk then 0 else 2
    requires Counts(t, b) ==> v.count == Wrap(t[o].count as int + count)
    ensures Table(t[o := v], Record(b, o, chunk, count))
    ensures Counts(t, b) ==> Counts(t[o := v], Record(b, o, chunk, count))
  {
    hide WfBlocks, WfOrder, Counts;
    LastPosAfterRecord(b, o, chunk, count);
    TableAfterRecord(t, v, b, o, chunk, count);
    if Counts(t, b) {
      CountsAfterRecord(t, v, b, o, chunk, count);
    }
  }

  /** What the four cases have in common: the table entry moves to the last position and the limits
      widen to the offset. */
  lemma {:induction false} RestHolds(st: Store, st': Store, b: Book, o: nat, chunk: u32, count: u32)
    requires Holds(st, b) && o < ADDR_TABLE_SIZE
    requires |st.table| == |st'.table| == ADDR_TABLE_SIZE && st'.table == st.table[o := st'.table[o]]
    requires |st.first| == |st.last| == MAX_PAGES
    requires var p := OffsetToPage(o);
             if o in b.lists then st'.first == st.first && st'.last == st.last else
             && st'.first == st.first[p := if o < st.first[p] then o else st.first[p]]
             && st'.last == st.last[p := if st.last[p] < o then o else st.last[p]]
    requires Represents(st'.slots, Record(b, o, chunk, count))
    requires st'.table[o].pos == if NeedsBlock(b, o, chunk) then 16 * |b.owner| + 2
                                 else LastPos(b, o) + if b.lists[o][|b.lists[o]| - 1].chunk == chunk then 0 else 2
    requires Counts(st.table, b) ==> st'.table[o].count == Wrap(st.table[o].count as int + count)
    ensures Holds(st', Record(b, o, chunk, count))
    ensures Counts(st.table, b) ==> Counts(st'.table, Record(b, o, chunk, count))
  {
    RestOfTable(st.table, st'.table[o], b, o, chunk, count);
    LimitsAfterRecord(st.first, st.last, st'.first, st'.last, b, o, chunk, count);
    RecordKeepsSlotsExact(b, o, chunk, count);
  }

  lemma {:induction false} OpenedHolds(st: Store, st': Store, b: Book, b': Book, o: nat, chunk: u32, count: u32)
    requires Holds(st, b) && o < ADDR_TABLE_SIZE && o !in b.lists && |b.owner| < ADDR_SLOTS
    requires |st.slots| == ADDR_SLOTS_SIZE && |st.table| == ADDR_TABLE_SIZE && |st.first| == |st.last| == MAX_PAGES
    requires st' == Opened(st, o, |b.owner|, chunk, count) && b' == Record(b, o, chunk, count)
    ensures Holds(st', b') && (Counts(st.table, b) ==> Counts(st'.table, b'))
  {
    OpenChainRepresents(st.slots, b, o, chunk, count);
    RestHolds(st, st', b, o, chunk, count);
  }

  lemma {:induction false} TalliedHolds(st: Store, st': Store, b: Book, o: nat, count: u32)
    requires Holds(st, b) && o < |st.table| && st' == Tallied(st, o, count)
    ensures Holds(st', b)
  {
    var t, t' := st.table, st'.table;
    forall q | 0 <= q < ADDR_TABLE_SIZE
      ensures TableHolds(t', b, q)
    {
      assert TableHolds(t, b, q);
    }
  }

  lemma {:induction false} BumpedHolds(st: Store, st': Store, b: Book, b': Book, o: nat, chunk: u32, count: u32)
    requires Holds(st, b) && o in b.lists && b.lists[o][|b.lists[o]| - 1].chunk == chunk
    requires o < |st.table| && LastPos(b, o) + 1 < |st.slots|
    requires st' == Bumped(Tallied(st, o, count), LastPos(b, o), count) && b' == Record(b, o, chunk, count)
    ensures Holds(st', b') && (Counts(st.table, b) ==> Counts(st'.table, b'))
  {
    hide LastPos, Wf;
    var p := LastPos(b, o);
    assert st.table[o].pos == p by { assert TableHolds(st.table, b, o); }
    hide Table, Limits, Headers, Pairs, Record, Counts, SlotsExact;
    assert !NeedsBlock(b, o, chunk) && Represents(st'.slots, b') by {
      BumpRepresents(st.slots, b, o, chunk, count);
    }
    RestHolds(st, st', b, o, chunk, count);
  }

  lemma {:induction false} ExtendedHolds(st: Store, st': Store, b: Book, b': Book, o: nat, chunk: u32, count: u32)
    requires Holds(st, b) && o in b.lists && NeedsBlock(b, o, chunk) && |b.owner| < ADDR_SLOTS
    requires |st.slots| == ADDR_SLOTS_SIZE && o < |st.table| && LastBlock(b, o) < ADDR_SLOTS
    requires st' == Extended(Tallied(st, o, count), o, 16 * LastBlock(b, o), |b.owner|, chunk, count) && b' == Record(b, o, chunk, count)
    ensures Holds(st', b') && (Counts(st.table, b) ==> Counts(st'.table, b'))
  {
    ExtendChainRepresents(st.slots, b, o, chunk, count);
    RestHolds(st, st', b, o, chunk, count);
  }

  lemma {:induction false} AppendedHolds(st: Store, st': Store, b: Book, b': Book, o: nat, chunk: u32, count: u32)
    requires Holds(st, b) && o in b.lists && b.lists[o][|b.lists[o]| - 1].chunk != chunk && |b.lists[o]| % 7 != 0
    requires |st.slots| == ADDR_SLOTS_SIZE && o < |st.table| && LastPos(b, o) + 3 < ADDR_SLOTS_SIZE
    requires st' == Appended(Tallied(st, o, count), o, LastPos(b, o), chunk, count) && b' == Record(b, o, chunk, count)
    ensures Holds(st', b') && (Counts(st.table, b) ==> Counts(st'.table, b'))
  {
    AppendRepresents(st.slots, b, o, chunk, count);
    RestHolds(st, st', b, o, chunk, count);
  }

  // ---- The four cases together ----

  datatype Outcome = Outcome(st: Store, free: nat, ok: bool)

  predicate InBounds(st: Store, o: nat) {
    && |st.slots| == ADDR_SLOTS_SIZE && |st.table| == ADDR_TABLE_SIZE && |st.first| == |st.last| == MAX_PAGES
    && o < ADDR_TABLE_SIZE
    && var pos := st.table[o].pos;
       pos != 0 ==> pos + 1 < ADDR_SLOTS_SIZE
                    && if pos % ADDR_SLOT_SIZE == ADDR_SLOT_SIZE - 2 then pos >= ADDR_SLOT_SIZE - 2
                       else pos + 3 < ADDR_SLOTS_SIZE
  }

  /** What counting does to the arrays, and whether it finds a slot. */
  function Counted(st: Store, free: nat, o: nat, chunk: u32, count: u32): Outcome
    requires InBounds(st, o) && free <= ADDR_SLOTS
  {
    var pos := st.table[o].pos;
    if pos == 0 then
      if free == ADDR_SLOTS then Outcome(st, free, false)
      else Outcome(Opened(st, o, free, chunk, count), free + 1, true)
    else
      var tallied := Tallied(st, o, count);
      if st.slots[pos] == chunk then Outcome(Bumped(tallied, pos, count), free, true)
      else if pos % ADDR_SLOT_SIZE == ADDR_SLOT_SIZE - 2 then
        if free == ADDR_SLOTS then Outcome(tallied, free, false)
        else Outcome(Extended(tallied, o, pos - ADDR_SLOT_SIZE + 2, free, chunk, count), free + 1, true)
      else Outcome(Appended(tallied, o, pos, chunk, count), free, true)
  }

  lemma {:induction false} HoldsInBounds(st: Store, b: Book, o: nat)
    requires Holds(st, b) && o < ADDR_TABLE_SIZE
    ensures InBounds(st, o) && |b.owner| <= ADDR_SLOTS
  {
    assert TableHolds(st.table, b, o);
    if o in b.lists {
      LastIsSomewhere(b, o);
    }
  }

  lemma {:induction false} FreeAfterRecord(b: Book, o: nat, chunk: u32, count: u32)
    ensures var b' := Record(b, o, chunk, count);
            && |b'.owner| == |b.owner| + (if NeedsBlock(b, o, chunk) then 1 else 0)
            && |b'.order| == |b.order| + (if o in b.lists then 0 else 1)
  {
  }

  lemma {:induction false} CountedHolds(st: Store, b: Book, o: nat, chunk: u32, count: u32)
    requires Holds(st, b) && InBounds(st, o) && |b.owner| <= ADDR_SLOTS
    ensures var r, b' := Counted(st, |b.owner|, o, chunk, count), Record(b, o, chunk, count);
            && (r.ok <==> HasRoom(b, o, chunk))
            && (r.ok ==> Holds(r.st, b') && (Counts(st.table, b) ==> Counts(r.st.table, b'))
                         && r.free == |b'.owner| && |b'.order| == |b.order| + if o in b.lists then 0 else 1)
            && (!r.ok ==> Holds(r.st, b) && r.free == |b.owner|)
    ensures st.table[o].pos == 0 <==> o !in b.lists
  {
    hide Represents, Table, Limits, SlotsExact, Record, NeedsBlock, Opened, Bumped, Extended, Appended, Tallied, LastPos, LastBlock;
    var r, b' := Counted(st, |b.owner|, o, chunk, count), Record(b, o, chunk, count);
    PosTellsCase(st.table, st.slots, b, o, chunk);
    FreeAfterRecord(b, o, chunk, count);
    if o !in b.lists {
      if r.ok {
        OpenedHolds(st, r.st, b, b', o, chunk, count);
      }
    } else if st.slots[st.table[o].pos] == chunk {
      BumpedHolds(st, r.st, b, b', o, chunk, count);
    } else if |b.lists[o]| % 7 == 0 {
      if r.ok {
        ExtendedHolds(st, r.st, b, b', o, chunk, count);
      } else {
        TalliedHolds(st, r.st, b, o, count);
      }
    } else {
      AppendedHolds(st, r.st, b, b', o, chunk, count);
    }
  }

  class MemCounter {
    const id: nat
    const slots: array<u32>
    const table: array<AddrCount>
    const firstOffset: array<u32>
    const lastOffset: array<u32>
    var freeSlot: u32
    var addrCount: int
    ghost var book: Book

    ghost function Contents(): Store
      reads slots, table, firstOffset, lastOffset
    {
      Store(slots[..], table[..], firstOffset[..], lastOffset[..])
    }

    predicate Sized() {
      && slots.Length == ADDR_SLOTS_SIZE && table.Length == ADDR_TABLE_SIZE
      && firstOffset.Length == lastOffset.Length == MAX_PAGES
      && slots != firstOffset && slots != lastOffset && firstOffset != lastOffset
    }

    ghost predicate Valid()
      reads this, slots, table, firstOffset, lastOffset
    {
      && Sized() && Holds(Contents(), book)
      && freeSlot == |book.owner| && addrCount == |book.order|
    }

    /** The count kept beside each position is the sum of that offset's chain. */
    ghost predicate CountsExact()
      reads this, table
    {
      Counts(table[..], book)
    }

    constructor (id: nat)
      ensures this.id == id
      ensures Valid() && CountsExact() && book == EMPTY_BOOK
      ensures fresh(slots) && fresh(table) && fresh(firstOffset) && fresh(lastOffset)
    {
      this.id := id;
      slots := new u32[ADDR_SLOTS_SIZE];
      table := new AddrCount[ADDR_TABLE_SIZE](_ => AddrCount(0, 0));
      firstOffset := new u32[MAX_PAGES](_ => EMPTY_PAGE);
      lastOffset := new u32[MAX_PAGES](_ => 0);
      freeSlot := 0;
      addrCount := 0;
      book := EMPTY_BOOK;
    }

    /** None is the runtime_error: no more free slots. */
    method GetNextSlotPos() returns (pos: Option<u32>)
      requires freeSlot <= ADDR_SLOTS
      modifies this`freeSlot
      ensures old(freeSlot) == ADDR_SLOTS ==> pos == None && freeSlot == old(freeSlot)
      ensures old(freeSlot) < ADDR_SLOTS ==> pos == Some(16 * old(freeSlot)) && freeSlot == old(freeSlot) + 1
    {
      if freeSlot >= ADDR_SLOTS {
        return None;
      }
      pos := Some(freeSlot * ADDR_SLOT_SIZE);
      freeSlot := freeSlot + 1;
    }

    method WriteBlock(pos: u32, previous: u32, next: u32, chunk: u32, count: u32)
      requires slots.Length == ADDR_SLOTS_SIZE && pos % ADDR_SLOT_SIZE == 0 && pos < ADDR_SLOTS_SIZE
      modifies slots
      ensures slots[..] == WithNewBlock(old(slots[..]), pos / ADDR_SLOT_SIZE, previous, next, chunk, count)
    {
      slots[pos] := previous;
      slots[pos + 1] := next;
      slots[pos + 2] := chunk;
      slots[pos + 3] := count;
    }

    method OpenChain(offset: u32, pos: u32, chunk: u32, count: u32)
      requires Sized() && offset < ADDR_TABLE_SIZE && pos % ADDR_SLOT_SIZE == 0 && pos < ADDR_SLOTS_SIZE
      modifies slots, table, firstOffset, lastOffset, this`addrCount
      ensures Contents() == Opened(old(Contents()), offset, pos / ADDR_SLOT_SIZE, chunk, count)
      ensures addrCount == old(addrCount) + 1
    {
      WriteBlock(pos, 0, pos, chunk, count);
      table[offset] := AddrCount(pos + 2, count);
      var page := OffsetToPage(offset);
      firstOffset[page] := if offset < firstOffset[page] then offset else firstOffset[page];
      lastOffset[page] := if lastOffset[page] < offset then offset else lastOffset[page];
      addrCount := addrCount + 1;
    }

    method ExtendChain(offset: u32, tpos: u32, npos: u32, chunk: u32, count: u32)
      requires Sized() && offset < ADDR_TABLE_SIZE && npos % ADDR_SLOT_SIZE == 0 && npos < ADDR_SLOTS_SIZE
      requires tpos + 1 < ADDR_SLOTS_SIZE
      modifies slots, table
      ensures Contents() == Extended(old(Contents()), offset, tpos, npos / ADDR_SLOT_SIZE, chunk, count)
    {
      WriteBlock(npos, tpos, slots[tpos + 1], chunk, count);
      slots[tpos + 1] := npos;
      table[offset] := table[offset].(pos := npos + 2);
    }

    method AppendToBlock(offset: u32, pos: u32, chunk: u32, count: u32)
      requires Sized() && offset < ADDR_TABLE_SIZE && pos + 3 < ADDR_SLOTS_SIZE
      modifies slots, table
      ensures Contents() == Appended(old(Contents()), offset, pos, chunk, count)
    {
      slots[pos + 2] := chunk;
      slots[pos + 3] := count;
      table[offset] := table[offset].(pos := pos + 2);
    }

    /** The body of count_aligned, on the arrays alone. */
    method CountAt(offset: u32, chunk: u32, count: u32) returns (ok: bool)
      requires Sized() && InBounds(Contents(), offset) && freeSlot <= ADDR_SLOTS
      modifies this`freeSlot, this`addrCount, slots, table, firstOffset, lastOffset
      ensures Outcome(Contents(), freeSlot, ok) == Counted(old(Contents()), old(freeSlot), offset, chunk, count)
      ensures addrCount == old(addrCount) + if ok && old(table[offset].pos) == 0 then 1 else 0
    {
      var pos := table[offset].pos;
      if pos == 0 {
        var slot := GetNextSlotPos();
        if slot == None {
          return false;
        }
        OpenChain(offset, slot.value, chunk, count);
        return true;
      }
      table[offset] := table[offset].(count := Wrap(table[offset].count as int + count));
      if slots[pos] == chunk {
        slots[pos + 1] := Wrap(slots[pos + 1] as int + count);
        return true;
      }
      if pos % ADDR_SLOT_SIZE == ADDR_SLOT_SIZE - 2 {
        var slot := GetNextSlotPos();
        if slot == None {
          return false;
        }
        ExtendChain(offset, pos - ADDR_SLOT_SIZE + 2, slot.value, chunk, count);
        return true;
      }
      AppendToBlock(offset, pos, chunk, count);
      return true;
    }

    method CountMapped(offset: u32, chunk: u32, count: u32) returns (ok: bool)
      requires Valid() && offset < ADDR_TABLE_SIZE
      modifies this`freeSlot, this`addrCount, this`book, slots, table, firstOffset, lastOffset
      ensures Valid()
      ensures ok <==> HasRoom(old(book), offset, chunk)
      ensures book == if ok then Record(old(book), offset, chunk, count) else old(book)
      ensures ok && old(CountsExact()) ==> CountsExact()
    {
      hide Holds, Counted, HasRoom, Record, Counts, Wf;
      HoldsInBounds(Contents(), book, offset);
      CountedHolds(Contents(), book, offset, chunk, count);
      ok := CountAt(offset, chunk, count);
      if ok {
        book := Record(book, offset, chunk, count);
      }
    }

    /** Counts accesses to one word. Fails, leaving the chains as they were, if the address is
        unmapped or a block is needed and none is left. */
    method CountAligned(addr: u32, chunk: u32, count: u32) returns (ok: bool)
      requires Valid()
      modifies this`freeSlot, this`addrCount, this`book, slots, table, firstOffset, lastOffset
      ensures Valid()
      ensures ok <==> AddrToOffset(addr).Some? && HasRoom(old(book), AddrToOffset(addr).value, chunk)
      ensures book == if ok then Record(old(book), AddrToOffset(addr).value, chunk, count) else old(book)
      ensures ok && old(CountsExact()) ==> CountsExact()
    {
      AddrRoundTrip(addr);
      hide Holds, AddrToOffset, Record, Counts, HasRoom;
      var offset := AddrToOffset(addr);
      if offset == None {
        return false;
      }
      ok := CountMapped(offset.value, chunk, count);
    }

    /** One bus entry: the body of execute_chunk's loop. */
    method CountOp(chunk: u32, op: Op) returns (ok: bool)
      requires Valid()
      modifies this`freeSlot, this`addrCount, this`book, slots, table, firstOffset, lastOffset
      ensures Valid()
      ensures ok <==> RunOp(old(book), id, chunk, op).Some?
      ensures ok ==> RunOp(old(book), id, chunk, op) == Some(book)
      ensures ok && old(CountsExact()) ==> CountsExact()
    {
      hide Holds, AddrToOffset, Record, HasRoom, Counts;
      var bytes, addr := op.flags % 256, op.addr;
      if bytes == 8 && addr % 8 == 0 {
        if Owner(addr) != id {
          return true;
        }
        ok := CountAligned(addr, chunk, 1);
      } else {
        var aligned, ops := addr - addr % 8, 1 + op.flags / 0x1_0000;
        if Owner(aligned) == id {
          ok := CountAligned(aligned, chunk, ops);
        } else if bytes + addr % 8 > 8 && Owner(Wrap(aligned as int + 8)) == id {
          ok := CountAligned(Wrap(aligned as int + 8), chunk, ops);
        } else {
          ok := true;
        }
      }
    }

    /** Counts this worker's share of a chunk; fails at the first access that cannot be counted. */
    method ExecuteChunk(chunk: u32, data: seq<Op>) returns (ok: bool)
      requires Valid()
      modifies this`freeSlot, this`addrCount, this`book, slots, table, firstOffset, lastOffset
      ensures Valid()
      ensures ok <==> RunOps(old(book), id, chunk, data).Some?
      ensures ok ==> RunOps(old(book), id, chunk, data) == Some(book)
      ensures ok && old(CountsExact()) ==> CountsExact()
    {
      hide Holds, RunOp, Counts;
      ghost var b := book;
      for i := 0 to |data|
        invariant Valid()
        invariant RunOps(b, id, chunk, data[..i]) == Some(book)
        invariant old(CountsExact()) ==> CountsExact()
      {
        assert data[..i + 1][..i] == data[..i];
        ok := CountOp(chunk, data[i]);
        if !ok {
          RunFails(b, id, chunk, data, i + 1);
          return false;
        }
      }
      assert data[..|data|] == data;
      return true;
    }

    /** Counts this worker's share of the chunks the feed delivers, in order. */
    method Execute(chunks: seq<seq<Op>>) returns (ok: bool)
      requires Valid() && book == EMPTY_BOOK && |chunks| <= MAX_CHUNKS
      modifies this`freeSlot, this`addrCount, this`book, slots, table, firstOffset, lastOffset
      ensures Valid()
      ensures ok <==> RunChunks(id, chunks).Some?
      ensures TraceWellFormed(chunks) && id < MAX_THREADS ==> (ok <==> CountingFits(chunks, id))
      ensures ok ==> RunChunks(id, chunks) == Some(book)
      ensures ok && old(CountsExact()) ==> CountsExact()
    {
      hide RunChunks, RunOps, Valid, CountsExact, TraceWellFormed, CountingFits;
      if TraceWellFormed(chunks) && id < MAX_THREADS {
        CountingSucceedsIff(id, chunks);
      }
      assert RunChunks(id, chunks[..0]) == Some(EMPTY_BOOK) by { NoChunks(id, chunks); }
      for chunk := 0 to |chunks|
        invariant Valid()
        invariant RunChunks(id, chunks[..chunk]) == Some(book)
        invariant old(CountsExact()) ==> CountsExact()
      {
        OneMoreChunkRuns(id, chunks, chunk);
        ok := ExecuteChunk(chunk, chunks[chunk]);
        if !ok {
          ChunksFail(id, chunks, chunk + 1);
          return false;
        }
      }
      assert chunks[..|chunks|] == chunks;
      return true;
    }

    // ---- What the planners read ----

    function GetAddrTable(offset: u32): u32
      requires offset < table.Length
      reads table
    {
      table[offset].pos
    }

    /** None is the runtime_error: position out of bounds. */
    function GetInitialPos(pos: u32): Option<u32>
      requires slots.Length == ADDR_SLOTS_SIZE
      reads slots
    {
      if pos - pos % ADDR_SLOT_SIZE >= ADDR_SLOTS_SIZE then None else Some(InitialPos(slots[..], pos))
    }

    function GetPosValue(pos: u32): u32
      requires pos < slots.Length
      reads slots
    {
      slots[pos]
    }

    function GetNextPos(pos: u32): u32
      requires slots.Length == ADDR_SLOTS_SIZE && pos < ADDR_SLOTS_SIZE
      reads slots
    {
      NextPos(slots[..], pos)
    }

    /** The table says whether an offset is used, and where its walk starts. */
    lemma {:induction false} TableReads(o: u32)
      requires Valid() && o < ADDR_TABLE_SIZE
      ensures Sized() && Wf(book)
      ensures GetAddrTable(o) == 0 <==> Walk(book, o) == []
      ensures Walk(book, o) != [] ==>
                && o in book.lists && GetAddrTable(o) == LastPos(book, o)
                && GetInitialPos(GetAddrTable(o)) == Some(Walk(book, o)[0].cpos)
    {
      assert TableHolds(table[..], book, o);
      if o in book.lists {
        InitialPosIsFirstStep(slots[..], book, o);
      }
    }

    /** Each step reads its chunk and count, and knows the next step or that it is the last. */
    lemma {:induction false} StepReads(o: u32, k: nat)
      requires Valid() && Wf(book) && o < ADDR_TABLE_SIZE && k < |Walk(book, o)|
      ensures Sized() && o in book.lists
      ensures var w := Walk(book, o);
              && 0 < w[k].cpos && w[k].cpos + 1 < ADDR_SLOTS_SIZE
              && GetPosValue(w[k].cpos) == w[k].chunk && GetPosValue(w[k].cpos + 1) == w[k].count
              && (k + 1 < |w| ==> GetNextPos(w[k].cpos + 1) == w[k + 1].cpos)
              && (w[k].cpos == GetAddrTable(o) <==> k + 1 == |w|)
    {
      hide Represents, Wf, Limits, SlotsExact, NextPos, InitialPos, StepAt, WalkStart;
      assert TableHolds(table[..], book, o);
      ReadsWalk(slots[..], book, o, k);
    }

    lemma {:induction false} PageLimits(page: nat)
      requires Valid() && page < MAX_PAGES
      ensures Sized() && LimitsHold(firstOffset[page], lastOffset[page], book, page)
    {
    }
  }
}
