/** The mapping between 8-byte words and (offset, thread) pairs (mem_counter.hpp:277-365).

    An offset names a group of eight consecutive words, one per worker thread; a page is a run of
    2^20 offsets. The three switch tables are kept apart, as in the source: that they agree with
    one another is what the lemmas prove. */
module AddressMap {
  import opened MemConfig

  /** (addr >> 24) & 0xFC: the six top bits of the address, in place. */
  function TopBits(addr: u32): nat {
    addr / 0x400_0000 * 4
  }

  function OffsetToPage(offset: nat): nat {
    offset / ADDR_PAGE_SIZE
  }

  /** The page number is passed as a uint8_t; None is the runtime_error. */
  function PageToAddr(page: nat): Option<u32> {
    match page % 256
    case 0 => Some(0x8000_0000)
    case 1 => Some(0x8400_0000)
    case 2 => Some(0x9000_0000)
    case 3 => Some(0x9400_0000)
    case 4 => Some(0xA000_0000)
    case 5 => Some(0xA400_0000)
    case 6 => Some(0xA800_0000)
    case 7 => Some(0xAC00_0000)
    case 8 => Some(0xB000_0000)
    case 9 => Some(0xB400_0000)
    case 10 => Some(0xB800_0000)
    case 11 => Some(0xBC00_0000)
    case 12 => Some(0xC000_0000)
    case 13 => Some(0xC400_0000)
    case 14 => Some(0xC800_0000)
    case 15 => Some(0xCC00_0000)
    case 16 => Some(0xD000_0000)
    case 17 => Some(0xD400_0000)
    case 18 => Some(0xD800_0000)
    case 19 => Some(0xDC00_0000)
    case 255 => Some(0xFFFF_FFFF)
    case _ => None
  }

  function AddrToPage(addr: u32): Option<nat> {
    match TopBits(addr)
    case 0x80 => Some(0)
    case 0x84 => Some(1)
    case 0x90 => Some(2)
    case 0x94 => Some(3)
    case 0xA0 => Some(4)
    case 0xA4 => Some(5)
    case 0xA8 => Some(6)
    case 0xAC => Some(7)
    case 0xB0 => Some(8)
    case 0xB4 => Some(9)
    case 0xB8 => Some(10)
    case 0xBC => Some(11)
    case 0xC0 => Some(12)
    case 0xC4 => Some(13)
    case 0xC8 => Some(14)
    case 0xCC => Some(15)
    case 0xD0 => Some(16)
    case 0xD4 => Some(17)
    case 0xD8 => Some(18)
    case 0xDC => Some(19)
    case _ => None
  }

  function AddrToOffset(addr: u32): Option<u32> {
    match TopBits(addr)
    case 0x80 => Some((addr - 0x8000_0000) / 64 + 0 * ADDR_PAGE_SIZE)
    case 0x84 => Some((addr - 0x8400_0000) / 64 + 1 * ADDR_PAGE_SIZE)
    case 0x90 => Some((addr - 0x9000_0000) / 64 + 2 * ADDR_PAGE_SIZE)
    case 0x94 => Some((addr - 0x9400_0000) / 64 + 3 * ADDR_PAGE_SIZE)
    case 0xA0 => Some((addr - 0xA000_0000) / 64 + 4 * ADDR_PAGE_SIZE)
    case 0xA4 => Some((addr - 0xA400_0000) / 64 + 5 * ADDR_PAGE_SIZE)
    case 0xA8 => Some((addr - 0xA800_0000) / 64 + 6 * ADDR_PAGE_SIZE)
    case 0xAC => Some((addr - 0xAC00_0000) / 64 + 7 * ADDR_PAGE_SIZE)
    case 0xB0 => Some((addr - 0xB000_0000) / 64 + 8 * ADDR_PAGE_SIZE)
    case 0xB4 => Some((addr - 0xB400_0000) / 64 + 9 * ADDR_PAGE_SIZE)
    case 0xB8 => Some((addr - 0xB800_0000) / 64 + 10 * ADDR_PAGE_SIZE)
    case 0xBC => Some((addr - 0xBC00_0000) / 64 + 11 * ADDR_PAGE_SIZE)
    case 0xC0 => Some((addr - 0xC000_0000) / 64 + 12 * ADDR_PAGE_SIZE)
    case 0xC4 => Some((addr - 0xC400_0000) / 64 + 13 * ADDR_PAGE_SIZE)
    case 0xC8 => Some((addr - 0xC800_0000) / 64 + 14 * ADDR_PAGE_SIZE)
    case 0xCC => Some((addr - 0xCC00_0000) / 64 + 15 * ADDR_PAGE_SIZE)
    case 0xD0 => Some((addr - 0xD000_0000) / 64 + 16 * ADDR_PAGE_SIZE)
    case 0xD4 => Some((addr - 0xD400_0000) / 64 + 17 * ADDR_PAGE_SIZE)
    case 0xD8 => Some((addr - 0xD800_0000) / 64 + 18 * ADDR_PAGE_SIZE)
    case 0xDC => Some((addr - 0xDC00_0000) / 64 + 19 * ADDR_PAGE_SIZE)
    case _ => None
  }

  function OffsetToAddr(offset: u32, thread: nat): Option<u32> {
    match PageToAddr(OffsetToPage(offset))
    case None => None
    case Some(base) => Some(Wrap(offset % ADDR_PAGE_SIZE * 64 + base + thread * 8))
  }

  /** The worker that owns the word holding addr: (addr >> 3) & 7. */
  function Owner(addr: u32): nat {
    addr / 8 % 8
  }

  function WordOf(addr: u32): u32 {
    addr - addr % 8
  }

  // ---- What the tables have in common ----

  /** A page's base address, where it is one of the twenty mapped pages. */
  function PageBase(page: nat): (base: u32)
    requires page < MAX_PAGES
    ensures PageToAddr(page) == Some(base)
    ensures base % 0x400_0000 == 0 && base <= 0xDC00_0000
    ensures AddrToPage(base) == Some(page)
  {
    PageToAddr(page).value
  }

  lemma {:induction false} TopBitsBound(addr: u32)
    ensures TopBits(addr) * 0x100_0000 <= addr < TopBits(addr) * 0x100_0000 + 0x400_0000
  {
  }

  /** The three switches agree page by page. */
  lemma {:induction false} TablesAgree(addr: u32)
    ensures AddrToOffset(addr).Some? <==> AddrToPage(addr).Some?
    ensures AddrToPage(addr).Some? ==>
              var p := AddrToPage(addr).value;
              && p < MAX_PAGES
              && PageBase(p) <= addr < PageBase(p) + 0x400_0000
              && AddrToOffset(addr) == Some((addr - PageBase(p)) / 64 + p * ADDR_PAGE_SIZE)
  {
    TopBitsBound(addr);
    if AddrToPage(addr).Some? {
      var p := AddrToPage(addr).value;
      var base := PageBase(p);
      assert base == TopBits(addr) * 0x100_0000;
      assert AddrToOffset(addr) == Some((addr - base) / 64 + p * ADDR_PAGE_SIZE);
    }
  }

  lemma {:induction false} SplitRelative(r: nat)
    requires r < 0x400_0000
    ensures r / 64 < ADDR_PAGE_SIZE
    ensures r / 64 * 64 + r / 8 % 8 * 8 == r - r % 8
  {
  }

  lemma {:induction false} SplitOffset(p: nat, q: nat)
    requires q < ADDR_PAGE_SIZE
    ensures OffsetToPage(q + p * ADDR_PAGE_SIZE) == p && (q + p * ADDR_PAGE_SIZE) % ADDR_PAGE_SIZE == q
  {
  }

  lemma {:induction false} OwnerIsRelative(base: u32, r: nat)
    requires base % 0x400_0000 == 0 && r < 0x400_0000 && base + r < WORD
    ensures Owner(base + r) == r / 8 % 8 && (base + r) % 8 == r % 8
  {
  }

  lemma {:induction false} PageOf(p: nat, r: nat)
    requires p < MAX_PAGES && r < 0x400_0000
    ensures AddrToOffset(PageBase(p) + r) == Some(r / 64 + p * ADDR_PAGE_SIZE)
  {
    assert TopBits(PageBase(p) + r) == TopBits(PageBase(p));
  }

  /** AddrToOffset and OffsetToAddr are inverse: a mapped address comes back as its word, and its
      offset lies in the table, in the page AddrToPage reports. */
  lemma {:induction false} AddrRoundTrip(addr: u32)
    ensures AddrToOffset(addr).Some? <==> AddrToPage(addr).Some?
    ensures AddrToOffset(addr).Some? ==>
              var o := AddrToOffset(addr).value;
              && o < ADDR_TABLE_SIZE
              && AddrToPage(addr) == Some(OffsetToPage(o))
              && OffsetToAddr(o, Owner(addr)) == Some(WordOf(addr))
  {
    TablesAgree(addr);
    if AddrToPage(addr).Some? {
      var p := AddrToPage(addr).value;
      var r := addr - PageBase(p);
      SplitRelative(r);
      SplitOffset(p, r / 64);
      OwnerIsRelative(PageBase(p), r);
    }
  }

  lemma {:induction false} RelativeInPage(offset: nat, thread: nat)
    requires offset < ADDR_TABLE_SIZE && thread < MAX_THREADS
    ensures OffsetToPage(offset) < MAX_PAGES
    ensures var r := offset % ADDR_PAGE_SIZE * 64 + thread * 8;
            && r < 0x400_0000 && r / 64 == offset % ADDR_PAGE_SIZE && r / 8 % 8 == thread && r % 8 == 0
    ensures offset % ADDR_PAGE_SIZE + OffsetToPage(offset) * ADDR_PAGE_SIZE == offset
  {
  }

  /** Where a table entry lives: page base plus 64 bytes per offset plus 8 per thread. */
  function SlotAddr(offset: nat, thread: nat): u32
    requires offset < ADDR_TABLE_SIZE && thread < MAX_THREADS
  {
    RelativeInPage(offset, thread);
    PageBase(OffsetToPage(offset)) + (offset % ADDR_PAGE_SIZE * 64 + thread * 8)
  }

  /** OffsetToAddr and AddrToOffset are inverse in the other order too: every table entry of every
      thread has an address of its own. */
  lemma {:induction false} OffsetRoundTrip(offset: nat, thread: nat)
    requires offset < ADDR_TABLE_SIZE && thread < MAX_THREADS
    ensures OffsetToAddr(offset, thread) == Some(SlotAddr(offset, thread))
    ensures AddrToOffset(SlotAddr(offset, thread)) == Some(offset)
    ensures SlotAddr(offset, thread) % 8 == 0 && Owner(SlotAddr(offset, thread)) == thread
  {
    RelativeInPage(offset, thread);
    var p, r := OffsetToPage(offset), offset % ADDR_PAGE_SIZE * 64 + thread * 8;
    OwnerIsRelative(PageBase(p), r);
    PageOf(p, r);
  }

  lemma {:induction false} LaterSlotIsHigher(o1: nat, t1: nat, o2: nat, t2: nat)
    requires o1 < ADDR_TABLE_SIZE && t1 < MAX_THREADS && o2 < ADDR_TABLE_SIZE && t2 < MAX_THREADS
    requires o1 < o2 || (o1 == o2 && t1 < t2)
    ensures SlotAddr(o1, t1) < SlotAddr(o2, t2)
  {
  }

  /** Scanning offsets upward and, within an offset, threads upward is scanning the words by
      increasing address, in both directions. */
  lemma {:induction false} ScanOrderIsAddressOrder(o1: nat, t1: nat, o2: nat, t2: nat)
    requires o1 < ADDR_TABLE_SIZE && t1 < MAX_THREADS && o2 < ADDR_TABLE_SIZE && t2 < MAX_THREADS
    ensures SlotAddr(o1, t1) < SlotAddr(o2, t2) <==> (o1 < o2 || (o1 == o2 && t1 < t2))
    ensures SlotAddr(o1, t1) == SlotAddr(o2, t2) <==> (o1 == o2 && t1 == t2)
  {
    if o1 < o2 || (o1 == o2 && t1 < t2) {
      LaterSlotIsHigher(o1, t1, o2, t2);
    } else if o2 < o1 || t2 < t1 {
      LaterSlotIsHigher(o2, t2, o1, t1);
    }
  }

  /** The planners step from word to word with addr += 8; inside a page that never leaves the map. */
  lemma {:induction false} NextWord(offset: nat, thread: nat)
    requires offset < ADDR_TABLE_SIZE && thread < MAX_THREADS
    ensures thread + 1 < MAX_THREADS ==> SlotAddr(offset, thread + 1) == SlotAddr(offset, thread) + 8
    ensures thread + 1 == MAX_THREADS && offset + 1 < ADDR_TABLE_SIZE && OffsetToPage(offset) == OffsetToPage(offset + 1) ==>
              SlotAddr(offset + 1, 0) == SlotAddr(offset, thread) + 8
  {
  }

  /** The offset of an empty page's limits, 0xFFFFFFFF, is page 0xFF after truncation: mapped to a
      dummy address instead of an error, so asking for its address is harmless. */
  lemma {:induction false} EmptyPageOffsetIsHarmless(thread: nat)
    requires thread < MAX_THREADS
    ensures OffsetToAddr(EMPTY_PAGE, thread).Some?
  {
  }
}
