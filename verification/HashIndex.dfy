/** The versioned index from chunk to checkpoint position (mem_segment.hpp:10-62). A stored value carries
    the tag of the generation that wrote it, so a new tag empties the table at once; only when the tags
    run out is the table cleared for real. */
module HashIndex {
  import opened MemConfig
  import opened Bits

  const KEY_NOT_FOUND: u32 := 0xFFFF_FFFF

  // ---- The table as a value ----

  datatype Index = Index(values: seq<u32>, id: u32)

  lemma {:induction false} WordIsPower()
    ensures Pow2(32) == WORD && Pow2(31) == 0x8000_0000
  {
    assert Pow2(8) == 256;
    assert Pow2(16) == 0x1_0000;
    assert Pow2(24) == 0x100_0000;
    assert Pow2(31) == 0x8000_0000;
  }

  lemma {:induction false} OrFitsWord(x: u32, y: u32)
    ensures BitOr(x, y) < WORD
  {
    WordIsPower();
    OrIsBounded(x, y, 32);
  }

  function Tag(id: u32, pos: u32): u32 {
    OrFitsWord(id, pos);
    BitOr(id, pos)
  }

  function WithKey(x: Index, key: nat, pos: u32): Index
    requires key < |x.values|
  {
    x.(values := x.values[key := Tag(x.id, pos)])
  }

  function Lookup(x: Index, bits: nat, key: nat): nat
    requires key < |x.values|
  {
    if x.values[key] < x.id then KEY_NOT_FOUND else BitAnd(x.values[key], Pow2(bits) - 1)
  }

  function Cleared(size: nat, bits: nat): Index
    requires bits <= 31
  {
    Pow2Grows(bits, 31);
    WordIsPower();
    Index(seq(size, k requires 0 <= k < size => 0), Pow2(bits))
  }

  function NextGeneration(x: Index, bits: nat): Index
    requires bits <= 31
  {
    var id := Wrap(x.id + Pow2(bits));
    if id == 0 then Cleared(|x.values|, bits) else x.(id := id)
  }

  // ---- The table is a map that resets empty ----

  ghost predicate HoldsKey(x: Index, bits: nat, m: map<nat, u32>, k: nat)
    requires k < |x.values|
  {
    if k in m then m[k] < Pow2(bits) && x.values[k] == x.id + m[k] else x.values[k] < x.id
  }

  /** The index stands for the map m from keys to positions. */
  ghost predicate StandsFor(x: Index, bits: nat, m: map<nat, u32>) {
    && bits <= 31 && 0 < x.id && x.id % Pow2(bits) == 0 && x.id + Pow2(bits) <= WORD
    && (forall k :: k in m ==> k < |x.values|)
    && (forall k :: 0 <= k < |x.values| ==> HoldsKey(x, bits, m, k))
  }

  /** Every stored value lies below the next tag: no stale value can pass for one of a later generation. */
  lemma {:induction false} ValuesBelowNextTag(x: Index, bits: nat, m: map<nat, u32>, k: nat)
    requires StandsFor(x, bits, m) && k < |x.values|
    ensures x.values[k] < x.id + Pow2(bits)
  {
    assert HoldsKey(x, bits, m, k);
  }

  lemma {:induction false} SumRemainder(a: nat, b: nat, p: nat)
    requires p > 0 && a % p == 0 && b < p
    ensures (a + b) % p == b
  {
    RemainderIs(a + b, p, a / p, b);
  }

  lemma {:induction false} ClearedIsEmpty(size: nat, bits: nat)
    requires bits <= 31
    ensures StandsFor(Cleared(size, bits), bits, map[])
  {
    Pow2Grows(bits, 31);
    WordIsPower();
    RemainderIs(Pow2(bits), Pow2(bits), 1, 0);
  }

  /** Looking a key up gives its position in the map, or KEY_NOT_FOUND. */
  lemma {:induction false} LookupIsMap(x: Index, bits: nat, m: map<nat, u32>, key: nat)
    requires StandsFor(x, bits, m) && key < |x.values|
    ensures Lookup(x, bits, key) == if key in m then m[key] else KEY_NOT_FOUND
    ensures key in m ==> m[key] != KEY_NOT_FOUND
  {
    assert HoldsKey(x, bits, m, key);
    Pow2Grows(bits, 31);
    WordIsPower();
    if key in m {
      MaskIsRemainder(x.values[key], bits);
      SumRemainder(x.id, m[key], Pow2(bits));
    }
  }

  lemma {:induction false} SetIsMapUpdate(x: Index, bits: nat, m: map<nat, u32>, key: nat, pos: u32)
    requires StandsFor(x, bits, m) && key < |x.values| && pos < Pow2(bits)
    ensures StandsFor(WithKey(x, key, pos), bits, m[key := pos])
  {
    OrIsSum(x.id, pos, bits);
    var y, m' := WithKey(x, key, pos), m[key := pos];
    forall k | 0 <= k < |y.values|
      ensures HoldsKey(y, bits, m', k)
    {
      assert HoldsKey(x, bits, m, k);
    }
  }

  lemma {:induction false} TagsDivideWord(bits: nat, n: nat)
    requires bits <= n
    ensures Pow2(n) % Pow2(bits) == 0
    decreases n
  {
    if bits < n {
      TagsDivideWord(bits, n - 1);
      RemainderIs(Pow2(n), Pow2(bits), 2 * (Pow2(n - 1) / Pow2(bits)), 0);
    } else {
      RemainderIs(Pow2(n), Pow2(n), 1, 0);
    }
  }

  /** Two multiples of p either agree or are at least p apart. */
  lemma {:induction false} MultiplesApart(a: nat, b: nat, p: nat)
    requires p > 0 && a % p == 0 && b % p == 0 && a < b
    ensures a + p <= b
  {
    if b < a + p {
      SumRemainder(a, b - a, p);
    }
  }

  lemma {:induction false} NextMultiple(a: nat, p: nat)
    requires p > 0 && a % p == 0
    ensures (a + p) % p == 0
  {
    RemainderIs(a + p, p, a / p + 1, 0) by { MulStep(a / p, p); }
  }

  /** As long as the tags do not run out, the next one has room below the end of the word. */
  lemma {:induction false} NextTagHasRoom(id: nat, bits: nat)
    requires bits <= 31 && id % Pow2(bits) == 0 && id + Pow2(bits) < WORD
    ensures (id + Pow2(bits)) % Pow2(bits) == 0 && id + 2 * Pow2(bits) <= WORD
  {
    TagsDivideWord(bits, 32);
    WordIsPower();
    hide Pow2;
    NextMultiple(id, Pow2(bits));
    MultiplesApart(id + Pow2(bits), WORD, Pow2(bits));
  }

  /** A reset empties the map, in every generation; the table is cleared exactly when the tags run out. */
  lemma {:induction false} ResetIsEmptyMap(x: Index, bits: nat, m: map<nat, u32>)
    requires StandsFor(x, bits, m)
    ensures StandsFor(NextGeneration(x, bits), bits, map[])
    ensures NextGeneration(x, bits) == Cleared(|x.values|, bits) <==> x.id + Pow2(bits) == WORD
  {
    hide Pow2;
    if x.id + Pow2(bits) == WORD {
      ClearedIsEmpty(|x.values|, bits);
    } else {
      NextTagHasRoom(x.id, bits);
      var y := NextGeneration(x, bits);
      forall k | 0 <= k < |y.values|
        ensures HoldsKey(y, bits, map[], k)
      {
        ValuesBelowNextTag(x, bits, m, k);
      }
    }
  }

  /** A position comes back as it went in exactly if it fits under the tag. */
  lemma {:induction false} SetThenGet(x: Index, bits: nat, m: map<nat, u32>, key: nat, pos: u32)
    requires StandsFor(x, bits, m) && key < |x.values|
    ensures Lookup(WithKey(x, key, pos), bits, key) == pos <==> pos < Pow2(bits)
  {
    if pos < Pow2(bits) {
      SetIsMapUpdate(x, bits, m, key, pos);
      LookupIsMap(WithKey(x, key, pos), bits, m[key := pos], key);
    } else {
      OrIsLarger(x.id, pos);
      MaskIsRemainder(Tag(x.id, pos), bits);
    }
  }

  // ---- Whole runs ----

  datatype Command = Set(key: nat, pos: u32) | Get(key: nat) | Reset

  ghost predicate Usable(cs: seq<Command>, size: nat, bits: nat) {
    forall i :: 0 <= i < |cs| ==>
      match cs[i]
      case Set(key, pos) => key < size && pos < Pow2(bits)
      case Get(key) => key < size
      case Reset => true
  }

  lemma {:induction false} UsableCommands(cs: seq<Command>, size: nat, bits: nat, key: nat, pos: u32)
    requires Usable(cs, size, bits) && key < size && pos < Pow2(bits)
    ensures Usable([], size, bits) && Usable(cs + [Set(key, pos)], size, bits)
    ensures Usable(cs + [Get(key)], size, bits) && Usable(cs + [Reset], size, bits)
  {
  }

  function IndexRun(size: nat, bits: nat, cs: seq<Command>): (r: (Index, seq<nat>))
    requires bits <= 31 && Usable(cs, size, bits)
    ensures |r.0.values| == size
  {
    if cs == [] then (Cleared(size, bits), []) else
      var (x, answers) := IndexRun(size, bits, cs[..|cs| - 1]);
      match cs[|cs| - 1]
      case Set(key, pos) => (WithKey(x, key, pos), answers)
      case Get(key) => (x, answers + [Lookup(x, bits, key)])
      case Reset => (NextGeneration(x, bits), answers)
  }

  function MapRun(cs: seq<Command>): (map<nat, u32>, seq<nat>) {
    if cs == [] then (map[], []) else
      var (m, answers) := MapRun(cs[..|cs| - 1]);
      match cs[|cs| - 1]
      case Set(key, pos) => (m[key := pos], answers)
      case Get(key) => (m, answers + [if key in m then m[key] else KEY_NOT_FOUND])
      case Reset => (map[], answers)
  }

  /** For every sequence of operations, over any number of generations, the answers are those of a plain
      map that every reset empties. */
  lemma {:induction false} IndexIsMap(size: nat, bits: nat, cs: seq<Command>)
    requires bits <= 31 && Usable(cs, size, bits)
    ensures IndexRun(size, bits, cs).1 == MapRun(cs).1
    ensures StandsFor(IndexRun(size, bits, cs).0, bits, MapRun(cs).0)
    decreases |cs|
  {
    hide StandsFor, Lookup, WithKey, NextGeneration;
    if cs == [] {
      ClearedIsEmpty(size, bits);
    } else {
      var front := cs[..|cs| - 1];
      IndexIsMap(size, bits, front);
      var x, m := IndexRun(size, bits, front).0, MapRun(front).0;
      match cs[|cs| - 1]
      case Set(key, pos) => SetIsMapUpdate(x, bits, m, key, pos);
      case Get(key) => LookupIsMap(x, bits, m, key);
      case Reset => ResetIsEmptyMap(x, bits, m);
    }
  }

  // ---- The table in memory ----

  function FloorLog(n: nat): nat {
    if n <= 1 then 0 else 1 + FloorLog(n / 2)
  }

  /** The tags start at the largest power of two that is not above the number of keys. */
  lemma {:induction false} FloorLogBounds(n: nat)
    requires n > 0
    ensures Pow2(FloorLog(n)) <= n < Pow2(FloorLog(n) + 1)
  {
    if n == 1 {
    } else {
      FloorLogBounds(n / 2);
    }
  }

  lemma {:induction false} BitsFit(n: u32)
    ensures FloorLog(n) <= 31
  {
    if n > 0 && FloorLog(n) >= 32 {
      FloorLogBounds(n);
      WordIsPower();
      Pow2Grows(32, FloorLog(n));
    }
  }

  class MemSegmentHashTable {
    var hashId: u32
    const hashTable: array<u32>
    const hashCount: nat
    const hashBits: nat
    const hashMask: nat
    ghost var contents: map<nat, u32>

    ghost predicate Valid()
      reads this, hashTable
    {
      && hashTable.Length == hashCount && hashMask == Pow2(hashBits) - 1
      && StandsFor(Index(hashTable[..], hashId), hashBits, contents)
    }

    static method GetHashBits(keySize: u32) returns (bits: nat)
      ensures bits == FloorLog(keySize)
    {
      var n := keySize;
      bits := 0;
      while n > 1
        invariant bits + FloorLog(n) == FloorLog(keySize)
      {
        n := n / 2;
        bits := bits + 1;
      }
    }

    method FullReset()
      requires hashTable.Length == hashCount && hashMask == Pow2(hashBits) - 1 && hashBits <= 31
      modifies this`hashId, this`contents, hashTable
      ensures Valid() && contents == map[]
      ensures Index(hashTable[..], hashId) == Cleared(hashCount, hashBits)
    {
      Pow2Grows(hashBits, 31);
      WordIsPower();
      hashId := Pow2(hashBits);
      contents := map[];
      forall k | 0 <= k < hashTable.Length {
        hashTable[k] := 0;
      }
      ClearedIsEmpty(hashCount, hashBits);
      assert hashTable[..] == Cleared(hashCount, hashBits).values;
    }

    constructor (keySize: u32)
      ensures Valid() && contents == map[] && hashCount == keySize && hashBits == FloorLog(keySize) && fresh(hashTable)
    {
      var bits := GetHashBits(keySize);
      hashCount, hashBits, hashMask := keySize, bits, Pow2(bits) - 1;
      hashTable := new u32[keySize];
      new;
      BitsFit(keySize);
      FullReset();
    }

    /** A position above the mask can spoil the tag (SetThenGet). */
    method Set(key: nat, pos: u32)
      requires Valid() && key < hashCount
      modifies this`contents, hashTable
      ensures Index(hashTable[..], hashId) == WithKey(old(Index(hashTable[..], hashId)), key, pos)
      ensures pos <= hashMask ==> Valid() && contents == old(contents)[key := pos]
    {
      ghost var x := Index(hashTable[..], hashId);
      hashTable[key] := Tag(hashId, pos);
      assert Index(hashTable[..], hashId) == WithKey(x, key, pos);
      if pos <= hashMask {
        SetIsMapUpdate(x, hashBits, contents, key, pos);
        contents := contents[key := pos];
      }
    }

    method Get(key: nat) returns (pos: nat)
      requires Valid() && key < hashCount
      ensures pos == if key in contents then contents[key] else KEY_NOT_FOUND
      ensures key in contents ==> pos <= hashMask
    {
      LookupIsMap(Index(hashTable[..], hashId), hashBits, contents, key);
      assert HoldsKey(Index(hashTable[..], hashId), hashBits, contents, key);
      var value := hashTable[key];
      if value < hashId {
        return KEY_NOT_FOUND;
      }
      return BitAnd(value, hashMask);
    }

    /** Whatever the generation, no key is found afterwards. */
    method FastReset()
      requires Valid()
      modifies this`hashId, this`contents, hashTable
      ensures Valid() && contents == map[]
      ensures Index(hashTable[..], hashId) == NextGeneration(old(Index(hashTable[..], hashId)), hashBits)
    {
      ResetIsEmptyMap(Index(hashTable[..], hashId), hashBits, contents);
      hashId := Wrap(hashId + Pow2(hashBits));
      contents := map[];
      if hashId == 0 {
        FullReset();
      }
    }
  }
}
