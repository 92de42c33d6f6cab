/** The sizes the counters and planners are compiled with (mem_config.hpp) and the 32-bit
    machine word they compute in. */
module MemConfig {

  const WORD: int := 0x1_0000_0000

  type u32 = x: int | 0 <= x < 0x1_0000_0000

  const MAX_THREADS: nat := 8
  const MAX_PAGES: nat := 20
  const MAX_LOCATORS: nat := 2048
  const MAX_CHUNKS: nat := 8192

  const ADDR_PAGE_SIZE: nat := 0x10_0000
  const ADDR_TABLE_SIZE: nat := 0x140_0000

  const ADDR_SLOT_SIZE: nat := 16
  const ADDR_SLOTS: nat := 0x40_0000
  const ADDR_SLOTS_SIZE: nat := 0x400_0000

  const NO_CHUNK_ID: u32 := 0xFFFF_FFFF
  const EMPTY_PAGE: u32 := 0xFFFF_FFFF

  /** Unsigned arithmetic in the source wraps; this is the wrap. */
  function Wrap(x: int): (w: u32)
    ensures 0 <= x < WORD ==> w == x
  {
    x % WORD
  }

  /** Adding in two wrapped steps is adding once and wrapping once. */
  lemma {:induction false} WrapAdd(x: int, y: int)
    ensures Wrap(Wrap(x) + y) == Wrap(x + y)
  {
  }

  // ---- Products with a symbolic number of rows ----

  lemma {:induction false} MulStep(m: nat, rows: nat)
    ensures (m + 1) * rows == m * rows + rows
  {
  }

  lemma {:induction false} MulOrder(x: nat, y: nat, rows: nat)
    requires x <= y
    ensures x * rows <= y * rows
  {
  }

  lemma {:induction false} QuotientFrom(t: nat, rows: nat, q: nat, r: nat)
    requires rows > 0 && r < rows && t == q * rows + r
    ensures t / rows == q
  {
    MulStep(q, rows);
    MulStep(t / rows, rows);
    if t / rows < q {
      MulOrder(t / rows + 1, q, rows);
      assert false;
    } else if q < t / rows {
      MulOrder(q + 1, t / rows, rows);
      assert false;
    }
  }

  /** The m-th multiple of rows does not lie beyond t exactly if m is at most the quotient. */
  lemma {:induction false} MultipleWithin(m: nat, rows: nat, t: nat)
    requires rows > 0
    ensures m * rows <= t <==> m <= t / rows
  {
    MulStep(t / rows, rows);
    if m <= t / rows {
      MulOrder(m, t / rows, rows);
    } else {
      MulOrder(t / rows + 1, m, rows);
    }
  }

  datatype Option<+T> = None | Some(value: T)
}
