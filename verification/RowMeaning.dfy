/** What a summary says of the rows its segment stands for. */
module RowMeaning {
  import opened MemConfig
  import opened RowStream
  import opened CheckPoints

  /** The rows of a chunk. */
  function RowsFor(rows: seq<Row>, chunk: u32): seq<Row> {
    if rows == [] then [] else
      RowsFor(rows[..|rows| - 1], chunk) + if rows[|rows| - 1].chunk == chunk then [rows[|rows| - 1]] else []
  }

  function RowsAt(rows: seq<Row>, addr: u32): nat {
    if rows == [] then 0 else RowsAt(rows[..|rows| - 1], addr) + if rows[|rows| - 1].addr == addr then 1 else 0
  }

  predicate Resumes(resumed: Option<Piece>, chunk: u32) {
    resumed.Some? && resumed.value.chunk == chunk
  }

  ghost predicate StartTells(cp: CheckPoint, rs: seq<Row>, chunk: u32, resumed: Option<Piece>) {
    && (rs != [] ==> (cp.fromAddr == rs[0].addr <==> !Resumes(resumed, chunk)))
    && (rs != [] && !Resumes(resumed, chunk) ==> cp.fromSkip == rs[0].index)
    && (Resumes(resumed, chunk) ==> cp.fromAddr == resumed.value.addr && cp.fromSkip == resumed.value.skip && cp.fromCount == 0)
    && cp.fromCount == RowsAt(rs, cp.fromAddr)
  }

  ghost predicate EndTells(cp: CheckPoint, rs: seq<Row>) {
    && (if rs == [] then cp.toAddr == cp.fromAddr else cp.toAddr == rs[|rs| - 1].addr)
    && cp.toCount == RowsAt(rs, cp.toAddr)
  }

  /** What the summary m of a segment says of a chunk. rs are the chunk's rows in the segment; resumed is
      the entry the segment before it ended with, if that entry has no row left in this one.

      There is a checkpoint exactly if there are rows, or the chunk is that of the resumed entry. It counts
      the rows, and its end is the last of them. Its start is the first of them, unless the chunk is that
      of the resumed entry: then it is that entry, all its rows skipped, which is not a row of the segment. */
  ghost predicate TellsRows(m: Summary, slice: seq<Row>, chunk: u32, resumed: Option<Piece>) {
    var rs := RowsFor(slice, chunk);
    && (chunk in m <==> rs != [] || Resumes(resumed, chunk))
    && (chunk in m ==> StartTells(m[chunk], rs, chunk, resumed) && EndTells(m[chunk], rs) && m[chunk].count == |rs|)
  }

  // ---- Pieces and their rows ----

  lemma {:induction false} RowsForConcat(r: seq<Row>, s: seq<Row>, chunk: u32)
    ensures RowsFor(r + s, chunk) == RowsFor(r, chunk) + RowsFor(s, chunk)
    decreases |s|
  {
    if s == [] {
      assert r + s == r;
    } else {
      assert (r + s)[..|r + s| - 1] == r + s[..|s| - 1];
      RowsForConcat(r, s[..|s| - 1], chunk);
    }
  }

  lemma {:induction false} RowsForOne(c: u32, addr: u32, first: nat, n: nat, chunk: u32)
    ensures RowsFor(RowsOf(c, addr, first, n), chunk) == if c == chunk then RowsOf(c, addr, first, n) else []
    decreases n
  {
    if n == 0 {
    } else {
      assert RowsOf(c, addr, first, n)[..n - 1] == RowsOf(c, addr, first, n - 1);
      RowsForOne(c, addr, first, n - 1, chunk);
    }
  }

  lemma {:induction false} RowsAtConcat(r: seq<Row>, s: seq<Row>, addr: u32)
    ensures RowsAt(r + s, addr) == RowsAt(r, addr) + RowsAt(s, addr)
    decreases |s|
  {
    if s == [] {
      assert r + s == r;
    } else {
      assert (r + s)[..|r + s| - 1] == r + s[..|s| - 1];
      RowsAtConcat(r, s[..|s| - 1], addr);
    }
  }

  lemma {:induction false} RowsAtOne(c: u32, a: u32, first: nat, n: nat, addr: u32)
    ensures RowsAt(RowsOf(c, a, first, n), addr) == if a == addr then n else 0
    decreases n
  {
    if n == 0 {
    } else {
      assert RowsOf(c, a, first, n)[..n - 1] == RowsOf(c, a, first, n - 1);
      RowsAtOne(c, a, first, n - 1, addr);
    }
  }

  /** The rows of a chunk are those of its pieces. */
  lemma {:induction false} ExpandOfChunk(ps: seq<Piece>, chunk: u32)
    ensures RowsFor(Expand(ps), chunk) == Expand(OfChunk(ps, chunk))
    decreases |ps|
  {
    if ps == [] {
    } else {
      var front, p := ps[..|ps| - 1], ps[|ps| - 1];
      ExpandOfChunk(front, chunk);
      RowsForConcat(Expand(front), RowsOf(p.chunk, p.addr, p.skip, p.count), chunk);
      RowsForOne(p.chunk, p.addr, p.skip, p.count, chunk);
      var fs := OfChunk(front, chunk);
      if p.chunk == chunk {
        assert (fs + [p])[..|fs|] == fs;
      } else {
        assert fs + [] == fs;
      }
    }
  }

  lemma {:induction false} ExpandCounts(qs: seq<Piece>, addr: u32)
    ensures |Expand(qs)| == CountOf(qs) && RowsAt(Expand(qs), addr) == CountAt(qs, addr)
    decreases |qs|
  {
    if qs == [] {
    } else {
      var front, p := qs[..|qs| - 1], qs[|qs| - 1];
      ExpandCounts(front, addr);
      RowsAtConcat(Expand(front), RowsOf(p.chunk, p.addr, p.skip, p.count), addr);
      RowsAtOne(p.chunk, p.addr, p.skip, p.count, addr);
    }
  }

  lemma {:induction false} FirstRow(qs: seq<Piece>)
    requires qs != [] && qs[0].count > 0
    ensures Expand(qs) != [] && Expand(qs)[0] == Row(qs[0].chunk, qs[0].addr, qs[0].skip)
    decreases |qs|
  {
    if |qs| == 1 {
      assert Expand(qs[..0]) == [];
    } else {
      FirstRow(qs[..|qs| - 1]);
    }
  }

  lemma {:induction false} LastRow(qs: seq<Piece>)
    requires qs != [] && qs[|qs| - 1].count > 0
    ensures Expand(qs) != [] && Expand(qs)[|Expand(qs)| - 1].addr == qs[|qs| - 1].addr
  {
  }

  lemma {:induction false} EmptyFirst(qs: seq<Piece>)
    requires qs != [] && qs[0].count == 0
    ensures Expand(qs) == Expand(qs[1..])
    decreases |qs|
  {
    if |qs| == 1 {
      assert Expand(qs[..0]) == [];
    } else {
      EmptyFirst(qs[..|qs| - 1]);
      assert qs[..|qs| - 1][1..] == qs[1..][..|qs| - 2];
    }
  }

  // ---- A segment's pieces ----

  predicate Differ(p: Piece, q: Piece) {
    p.chunk != q.chunk || p.addr != q.addr
  }

  /** Only the first piece may be empty, and then no other is of its chunk and address. */
  ghost predicate Entered(ps: seq<Piece>) {
    && AddressesAscend(ps)
    && (forall i :: 0 < i < |ps| ==> ps[i].count > 0)
    && (forall i :: 0 <= i < |ps| ==> ps[i].skip < WORD)
    && (ps != [] && ps[0].count == 0 ==> forall i :: 0 < i < |ps| ==> Differ(ps[0], ps[i]))
  }

  function ResumedEntry(ps: seq<Piece>): Option<Piece> {
    if ps != [] && ps[0].count == 0 then Some(ps[0]) else None
  }

  lemma {:induction false} FrontEntered(ps: seq<Piece>)
    requires Entered(ps) && |ps| > 1
    ensures Entered(ps[..|ps| - 1]) && ResumedEntry(ps[..|ps| - 1]) == ResumedEntry(ps)
  {
  }

  /** qs are the pieces of a chunk among ps: only the first can be empty, and that one is the first of ps. */
  ghost predicate OfEntered(qs: seq<Piece>, ps: seq<Piece>, chunk: u32)
    requires ps != []
  {
    && (forall i :: 0 <= i < |qs| ==> qs[i].chunk == chunk && qs[i].skip < WORD)
    && (forall i :: 0 < i < |qs| ==> qs[i].count > 0 && qs[i] in ps[1..])
    && (ps[0].chunk == chunk ==> qs != [] && qs[0] == ps[0])
    && (ps[0].chunk != chunk && qs != [] ==> qs[0].count > 0 && qs[0] in ps[1..])
    && (Resumes(ResumedEntry(ps), chunk) ==> forall i :: 0 < i < |qs| ==> qs[i].addr != ps[0].addr)
  }

  lemma {:induction false} OneMoreOf(qs: seq<Piece>, ps: seq<Piece>, p: Piece, chunk: u32)
    requires ps != [] && OfEntered(qs, ps, chunk) && p.count > 0 && p.skip < WORD
    requires ps[0].count == 0 ==> Differ(ps[0], p)
    ensures p.chunk != chunk ==> OfEntered(qs, ps + [p], chunk)
    ensures p.chunk == chunk ==> OfEntered(qs + [p], ps + [p], chunk)
  {
    assert (ps + [p])[1..] == ps[1..] + [p];
  }

  lemma {:induction false} OfChunkStep(ps: seq<Piece>, chunk: u32)
    requires ps != []
    ensures OfChunk(ps, chunk) == OfChunk(ps[..|ps| - 1], chunk) + if ps[|ps| - 1].chunk == chunk then [ps[|ps| - 1]] else []
  {
  }

  lemma {:induction false} ChunkPieces(ps: seq<Piece>, chunk: u32)
    requires Entered(ps) && ps != []
    ensures OfEntered(OfChunk(ps, chunk), ps, chunk)
    decreases |ps|
  {
    OfChunkStep(ps, chunk);
    if |ps| == 1 {
      assert OfChunk(ps[..0], chunk) == [];
    } else {
      var front, p := ps[..|ps| - 1], ps[|ps| - 1];
      FrontEntered(ps);
      ChunkPieces(front, chunk);
      assert p.count > 0 && p.skip < WORD && (ps[0].count == 0 ==> Differ(ps[0], p));
      hide Entered, OfChunk, OfEntered, Differ;
      assert front + [p] == ps;
      assert OfChunk(front, chunk) + [] == OfChunk(front, chunk);
      OneMoreOf(OfChunk(front, chunk), front, p, chunk);
    }
  }

  lemma {:induction false} NothingElsewhere(qs: seq<Piece>)
    requires qs != [] && qs[0].count == 0 && forall i :: 0 < i < |qs| ==> qs[i].addr != qs[0].addr
    ensures CountAt(qs, qs[0].addr) == 0
    decreases |qs|
  {
    if |qs| == 1 {
      assert CountAt(qs[..0], qs[0].addr) == 0;
    } else {
      NothingElsewhere(qs[..|qs| - 1]);
    }
  }

  lemma {:induction false} StartIsTold(cp: CheckPoint, qs: seq<Piece>, chunk: u32, resumed: Option<Piece>)
    requires Describes(cp, qs) && CountOf(qs) < WORD && CountAt(qs, qs[0].addr) < WORD && qs[0].skip < WORD
    requires forall i :: 0 < i < |qs| ==> qs[i].count > 0
    requires if Resumes(resumed, chunk) then qs[0] == resumed.value && qs[0].count == 0 && forall i :: 0 < i < |qs| ==> qs[i].addr != qs[0].addr
             else qs[0].count > 0
    ensures StartTells(cp, Expand(qs), chunk, resumed)
  {
    ExpandCounts(qs, qs[0].addr);
    if Resumes(resumed, chunk) {
      NothingElsewhere(qs);
      EmptyFirst(qs);
      if |qs| > 1 {
        FirstRow(qs[1..]);
      } else {
        assert qs[1..] == [];
      }
    } else {
      FirstRow(qs);
    }
  }

  lemma {:induction false} EndIsTold(cp: CheckPoint, qs: seq<Piece>)
    requires Describes(cp, qs) && CountAt(qs, qs[|qs| - 1].addr) < WORD
    requires forall i :: 0 < i < |qs| ==> qs[i].count > 0
    ensures EndTells(cp, Expand(qs))
  {
    ExpandCounts(qs, qs[|qs| - 1].addr);
    if qs[|qs| - 1].count > 0 {
      LastRow(qs);
    } else {
      assert |qs| == 1;
      EmptyFirst(qs);
      assert qs[1..] == [];
    }
  }

  lemma {:induction false} AtMostCount(qs: seq<Piece>, addr: u32)
    ensures CountAt(qs, addr) <= CountOf(qs)
    decreases |qs|
  {
    if qs == [] {
    } else {
      AtMostCount(qs[..|qs| - 1], addr);
    }
  }

  lemma {:induction false} FewerRows(rows: seq<Row>, chunk: u32)
    ensures |RowsFor(rows, chunk)| <= |rows|
    decreases |rows|
  {
    if rows == [] {
    } else {
      FewerRows(rows[..|rows| - 1], chunk);
    }
  }

  lemma {:induction false} RowsForCount(rows: seq<Row>, chunk: u32)
    ensures |RowsFor(rows, chunk)| == RowsOfChunk(rows, chunk)
    decreases |rows|
  {
    if rows == [] {
    } else {
      RowsForCount(rows[..|rows| - 1], chunk);
    }
  }

  /** So a summary that tells the rows counts them. */
  lemma {:induction false} TellsCount(m: Summary, slice: seq<Row>, chunk: u32, resumed: Option<Piece>)
    requires TellsRows(m, slice, chunk, resumed)
    ensures ChunkCount(m, chunk) == RowsOfChunk(slice, chunk)
  {
    RowsForCount(slice, chunk);
  }

  /** The summary of a segment's pieces says of every chunk what it should of the rows they stand for. */
  lemma {:induction false} FoldTellsRows(ps: seq<Piece>, chunk: u32)
    requires Entered(ps) && ps != [] && |Expand(ps)| < WORD
    ensures TellsRows(Fold(ps), Expand(ps), chunk, ResumedEntry(ps))
    ensures chunk in Fold(ps) && chunk != ps[0].chunk ==> exists p :: p in ps[1..] && Fold(ps)[chunk].fromSkip == p.skip
  {
    var qs := OfChunk(ps, chunk);
    FoldDescribes(ps, chunk);
    ChunkPieces(ps, chunk);
    ExpandOfChunk(ps, chunk);
    FewerRows(Expand(ps), chunk);
    hide Entered, OfChunk, Fold, AddressesAscend, RowsFor;
    if qs == [] {
      assert Expand(qs) == [];
    } else {
      ExpandCounts(qs, 0);
      AtMostCount(qs, qs[0].addr);
      AtMostCount(qs, qs[|qs| - 1].addr);
      assert qs[0].count == 0 ==> Resumes(ResumedEntry(ps), chunk);
      StartIsTold(Fold(ps)[chunk], qs, chunk, ResumedEntry(ps));
      EndIsTold(Fold(ps)[chunk], qs);
      if qs[0].count > 0 {
        FirstRow(qs);
      }
    }
  }
}
