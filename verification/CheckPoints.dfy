/** A segment's summary of its rows, one checkpoint per chunk (mem_check_point.hpp,
    mem_segment.hpp:100-177 with MEM_CHECK_POINT_MAP). tot_count and debug_row are left out. */
module CheckPoints {
  import opened MemConfig
  import opened RowStream

  datatype CheckPoint = CheckPoint(fromAddr: u32, fromSkip: u32, toAddr: u32, toCount: u32, count: u32, fromCount: u32)

  type Summary = map<u32, CheckPoint>

  function Start(addr: u32, skip: u32, count: u32): CheckPoint {
    CheckPoint(addr, skip, addr, count, count, count)
  }

  function Extend(cp: CheckPoint, addr: u32, n: u32): CheckPoint {
    CheckPoint(cp.fromAddr, cp.fromSkip, addr,
               if addr == cp.toAddr then Wrap(cp.toCount as int + n) else n,
               Wrap(cp.count as int + n),
               if addr == cp.fromAddr then Wrap(cp.fromCount as int + n) else cp.fromCount)
  }

  function Updated(m: Summary, chunk: u32, addr: u32, skip: u32, n: u32): Summary {
    m[chunk := if chunk in m then Extend(m[chunk], addr, n) else Start(addr, skip, n)]
  }

  // ---- What a summary says ----

  function Fold(ps: seq<Piece>): Summary {
    if ps == [] then map[] else
      var p := ps[|ps| - 1];
      Updated(Fold(ps[..|ps| - 1]), p.chunk, p.addr, Wrap(p.skip), Wrap(p.count))
  }

  function OfChunk(ps: seq<Piece>, chunk: u32): seq<Piece> {
    if ps == [] then [] else
      OfChunk(ps[..|ps| - 1], chunk) + if ps[|ps| - 1].chunk == chunk then [ps[|ps| - 1]] else []
  }

  function CountOf(ps: seq<Piece>): nat {
    if ps == [] then 0 else CountOf(ps[..|ps| - 1]) + ps[|ps| - 1].count
  }

  function CountAt(ps: seq<Piece>, addr: u32): nat {
    if ps == [] then 0 else CountAt(ps[..|ps| - 1], addr) + if ps[|ps| - 1].addr == addr then ps[|ps| - 1].count else 0
  }

  ghost predicate AddressesAscend(ps: seq<Piece>) {
    forall i, j :: 0 <= i <= j < |ps| ==> ps[i].addr <= ps[j].addr
  }

  /** What the checkpoint of a chunk must say, given the chunk's pieces in order. */
  ghost predicate Describes(cp: CheckPoint, qs: seq<Piece>) {
    && qs != []
    && var first, last := qs[0], qs[|qs| - 1];
       && cp.fromAddr == first.addr && cp.fromSkip == Wrap(first.skip) && cp.toAddr == last.addr
       && cp.count == Wrap(CountOf(qs))
       && cp.fromCount == Wrap(CountAt(qs, first.addr))
       && cp.toCount == Wrap(CountAt(qs, last.addr))
  }

  lemma {:induction false} NoneAbove(qs: seq<Piece>, addr: u32)
    requires forall i :: 0 <= i < |qs| ==> qs[i].addr != addr
    ensures CountAt(qs, addr) == 0
    decreases |qs|
  {
    if qs == [] {
    } else {
      NoneAbove(qs[..|qs| - 1], addr);
    }
  }

  lemma {:induction false} CountsOneMore(qs: seq<Piece>, p: Piece, addr: u32)
    ensures CountOf(qs + [p]) == CountOf(qs) + p.count
    ensures CountAt(qs + [p], addr) == CountAt(qs, addr) + if p.addr == addr then p.count else 0
  {
  }

  lemma {:induction false} WrapSum(x: nat, y: nat)
    ensures Wrap(Wrap(x) as int + Wrap(y)) == Wrap(x + y)
  {
  }

  lemma {:induction false} ExtendDescribes(cp: CheckPoint, qs: seq<Piece>, p: Piece)
    requires Describes(cp, qs) && AddressesAscend(qs + [p])
    ensures Describes(Extend(cp, p.addr, Wrap(p.count)), qs + [p])
  {
    hide CountOf, CountAt, Wrap;
    var qs' := qs + [p];
    var first, last := qs[0], qs[|qs| - 1];
    assert qs'[0] == first && qs'[|qs'| - 1] == p;
    CountsOneMore(qs, p, first.addr);
    CountsOneMore(qs, p, p.addr);
    WrapSum(CountOf(qs), p.count);
    WrapSum(CountAt(qs, first.addr), p.count);
    WrapSum(CountAt(qs, last.addr), p.count);
    if p.addr != last.addr {
      forall i | 0 <= i < |qs|
        ensures qs[i].addr != p.addr
      {
        assert qs'[i].addr <= qs'[|qs| - 1].addr <= qs'[|qs|].addr;
      }
      NoneAbove(qs, p.addr);
    }
  }

  lemma {:induction false} StartDescribes(p: Piece)
    ensures Describes(Start(p.addr, Wrap(p.skip), Wrap(p.count)), [p])
  {
  }

  lemma {:induction false} OfChunkKeepsOrder(ps: seq<Piece>, chunk: u32)
    requires AddressesAscend(ps)
    ensures AddressesAscend(OfChunk(ps, chunk))
    ensures forall i :: 0 <= i < |OfChunk(ps, chunk)| ==> OfChunk(ps, chunk)[i] in ps
    decreases |ps|
  {
    if ps == [] {
    } else {
      var front, last := ps[..|ps| - 1], ps[|ps| - 1];
      OfChunkKeepsOrder(front, chunk);
      forall i | 0 <= i < |OfChunk(front, chunk)|
        ensures OfChunk(front, chunk)[i].addr <= last.addr
      {
        var j :| 0 <= j < |front| && front[j] == OfChunk(front, chunk)[i];
        assert ps[j].addr <= ps[|ps| - 1].addr;
      }
    }
  }

  /** A summary has a checkpoint for exactly the chunks with a piece, and each checkpoint says what it
      should: rows, first address and rows there, last address and rows there, first skip. */
  lemma {:induction false} FoldDescribes(ps: seq<Piece>, chunk: u32)
    requires AddressesAscend(ps)
    ensures chunk in Fold(ps) <==> OfChunk(ps, chunk) != []
    ensures chunk in Fold(ps) ==> Describes(Fold(ps)[chunk], OfChunk(ps, chunk))
    decreases |ps|
  {
    if ps == [] {
    } else {
      var front, p := ps[..|ps| - 1], ps[|ps| - 1];
      FoldDescribes(front, chunk);
      if p.chunk == chunk {
        assert AddressesAscend(OfChunk(ps, chunk)) by { OfChunkKeepsOrder(ps, chunk); }
        hide Describes, Extend, Start, AddressesAscend;
        if chunk in Fold(front) {
          ExtendDescribes(Fold(front)[chunk], OfChunk(front, chunk), p);
        } else {
          StartDescribes(p);
          assert OfChunk(ps, chunk) == [p];
        }
      } else {
        assert OfChunk(ps, chunk) == OfChunk(front, chunk);
      }
    }
  }

  lemma {:induction false} FoldTwo(p: Piece, q: Piece)
    requires p.chunk != q.chunk
    ensures Fold([p, q]) == map[p.chunk := Start(p.addr, Wrap(p.skip), Wrap(p.count)), q.chunk := Start(q.addr, Wrap(q.skip), Wrap(q.count))]
  {
    assert [p, q][..1] == [p] && [p][..0] == [];
    assert Fold([p]) == map[p.chunk := Start(p.addr, Wrap(p.skip), Wrap(p.count))];
  }

  /** The rows of a chunk that a summary counts. */
  function ChunkCount(m: Summary, chunk: u32): nat {
    if chunk in m then m[chunk].count else 0
  }

  // ---- In terms of rows ----

  function RowsOfChunk(rows: seq<Row>, chunk: u32): nat {
    if rows == [] then 0 else
      RowsOfChunk(rows[..|rows| - 1], chunk) + if rows[|rows| - 1].chunk == chunk then 1 else 0
  }

  lemma {:induction false} RowsOfChunkConcat(r: seq<Row>, s: seq<Row>, chunk: u32)
    ensures RowsOfChunk(r + s, chunk) == RowsOfChunk(r, chunk) + RowsOfChunk(s, chunk)
    decreases |s|
  {
    if s == [] {
      assert r + s == r;
    } else {
      assert (r + s)[..|r + s| - 1] == r + s[..|s| - 1];
      RowsOfChunkConcat(r, s[..|s| - 1], chunk);
    }
  }

  lemma {:induction false} RowsOfOneChunk(c: u32, addr: u32, first: nat, n: nat, chunk: u32)
    ensures RowsOfChunk(RowsOf(c, addr, first, n), chunk) == if c == chunk then n else 0
    decreases n
  {
    if n == 0 {
    } else {
      assert RowsOf(c, addr, first, n)[..n - 1] == RowsOf(c, addr, first, n - 1);
      RowsOfOneChunk(c, addr, first, n - 1, chunk);
    }
  }

  /** The pieces of a chunk count its rows. */
  lemma {:induction false} PiecesCountRows(ps: seq<Piece>, chunk: u32)
    ensures CountOf(OfChunk(ps, chunk)) == RowsOfChunk(Expand(ps), chunk)
    decreases |ps|
  {
    if ps == [] {
    } else {
      var front, p := ps[..|ps| - 1], ps[|ps| - 1];
      PiecesCountRows(front, chunk);
      RowsOfChunkConcat(Expand(front), RowsOf(p.chunk, p.addr, p.skip, p.count), chunk);
      RowsOfOneChunk(p.chunk, p.addr, p.skip, p.count, chunk);
      if p.chunk == chunk {
        assert (OfChunk(front, chunk) + [p])[..|OfChunk(front, chunk)|] == OfChunk(front, chunk);
      } else {
        assert OfChunk(front, chunk) + [] == OfChunk(front, chunk);
      }
    }
  }

  // ---- The objects ----

  class MemCheckPoint {
    var fromAddr: u32
    var fromSkip: u32
    var toAddr: u32
    var toCount: u32
    var count: u32
    var fromCount: u32

    function Value(): CheckPoint
      reads this
    {
      CheckPoint(fromAddr, fromSkip, toAddr, toCount, count, fromCount)
    }

    constructor (fromAddr: u32, skip: u32, count: u32)
      ensures Value() == Start(fromAddr, skip, count)
    {
      this.fromAddr := fromAddr;
      fromSkip := skip;
      toAddr := fromAddr;
      toCount := count;
      this.count := count;
      fromCount := count;
    }

    method AddRows(addr: u32, n: u32)
      modifies this
      ensures Value() == Extend(old(Value()), addr, n)
    {
      count := Wrap(count as int + n);
      if addr == fromAddr {
        fromCount := Wrap(fromCount as int + n);
      }
      if addr == toAddr {
        toCount := Wrap(toCount as int + n);
      } else {
        toAddr := addr;
        toCount := n;
      }
    }
  }

  class MemSegment {
    var chunks: map<u32, MemCheckPoint>

    ghost function Repr(): set<object>
      reads this
    {
      {this} + set k | k in chunks :: chunks[k]
    }

    ghost predicate Valid()
      reads this
    {
      forall i, j :: i in chunks && j in chunks && i != j ==> chunks[i] != chunks[j]
    }

    ghost function Contents(): Summary
      reads this, chunks.Values
    {
      map k | k in chunks :: chunks[k].Value()
    }

    constructor ()
      ensures Valid() && Contents() == map[] && Repr() == {this}
    {
      chunks := map[];
    }

    /** A segment with its first checkpoint. */
    constructor Of(chunk: u32, fromAddr: u32, skip: u32, count: u32)
      ensures Valid() && fresh(Repr()) && Contents() == Updated(map[], chunk, fromAddr, skip, count)
    {
      var cp := new MemCheckPoint(fromAddr, skip, count);
      chunks := map[chunk := cp];
    }

    /** try_emplace, and add_rows on the checkpoint already there if the chunk has one. */
    method AddOrUpdate(chunk: u32, fromAddr: u32, skip: u32, count: u32)
      requires Valid()
      modifies Repr()
      ensures Valid() && fresh(Repr() - old(Repr()))
      ensures Contents() == Updated(old(Contents()), chunk, fromAddr, skip, count)
    {
      if chunk in chunks {
        chunks[chunk].AddRows(fromAddr, count);
      } else {
        var cp := new MemCheckPoint(fromAddr, skip, count);
        chunks := chunks[chunk := cp];
      }
    }
  }
}
