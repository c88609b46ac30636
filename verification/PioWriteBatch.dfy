/** A batch of writes as the client sees it (src/fuse/PioV.cc over src/client/storage/StorageClientInMem.cc). */
module PioWriteBatch {
  import opened Prelude
  import opened Chunks
  import opened ChunkSplit
  import opened ChunkWrite
  import opened Stitch
  import opened StitchRead
  import opened StitchTally
  import opened StitchBatch
  import opened StitchStrict
  import opened PioRead
  import opened PioBatch
  import opened PioWrite

  // ---------- the pieces of a batch do not overlap ----------

  /** A piece lies in the range of a request. */
  ghost predicate PieceIn(io: Io, f: File, lo: int, hi: int)
    requires ValidFile(f)
  {
    exists pos, data, c :: lo <= pos && 0 <= pos && pos + io.length <= hi && PieceAt(io, f, pos, data, c)
  }

  lemma {:induction false} TilesIn(ios: seq<Io>, f: File, pos: int, data: int, len: int, c: int, k: int)
    requires ValidFile(f) && 0 <= pos && Tiles(ios, f, pos, data, len, c) && 0 <= k < |ios|
    ensures PieceIn(ios[k], f, pos, pos + len) && 0 < ios[k].length
    ensures 0 < k ==> PieceIn(ios[k], f, pos + ios[0].length, pos + len)
    decreases |ios|
  {
    hide ChunkOf, ChunkKey, OffsetIn;
    if k == 0 {
      assert PieceAt(ios[0], f, pos, data, c);
      TilesLength(ios[1..], f, pos + ios[0].length, data + ios[0].length, len - ios[0].length, c);
    } else {
      TilesIn(ios[1..], f, pos + ios[0].length, data + ios[0].length, len - ios[0].length, c, k - 1);
      assert ios[k] == ios[1..][k - 1];
    }
  }

  lemma {:induction false} TilesLength(ios: seq<Io>, f: File, pos: int, data: int, len: int, c: int)
    requires ValidFile(f) && 0 <= pos && Tiles(ios, f, pos, data, len, c)
    ensures 0 <= len
    decreases |ios|
  {
    hide ChunkOf, OffsetIn;
    if ios != [] { TilesLength(ios[1..], f, pos + ios[0].length, data + ios[0].length, len - ios[0].length, c); }
  }

  /** Pieces of separate ranges of one file are compatible. */
  lemma RangesCompatible(a: Io, b: Io, f: File, lo: int, hi: int, lo': int, hi': int)
    requires ValidFile(f) && PieceIn(a, f, lo, hi) && PieceIn(b, f, lo', hi') && (hi <= lo' || hi' <= lo)
    ensures Compatible(a, b) && Compatible(b, a)
  {
    hide ChunkOf, OffsetIn;
    var pos, data, c :| lo <= pos && 0 <= pos && pos + a.length <= hi && PieceAt(a, f, pos, data, c);
    var pos', data', c' :| lo' <= pos' && 0 <= pos' && pos' + b.length <= hi' && PieceAt(b, f, pos', data', c');
    if a.key == b.key {
      assert ChunkOf(pos, f.chunkSize) == ChunkOf(pos', f.chunkSize);
      PositionUnique(pos, pos', f.chunkSize);
    }
  }

  /** Pieces of different files are compatible. */
  lemma FilesCompatible(a: Io, b: Io, f: File, g: File, lo: int, hi: int, lo': int, hi': int)
    requires ValidFile(f) && ValidFile(g) && f.inode != g.inode && PieceIn(a, f, lo, hi) && PieceIn(b, g, lo', hi')
    ensures Compatible(a, b)
  {
    hide ChunkOf, OffsetIn;
  }

  lemma {:induction false} TilesCompatible(ios: seq<Io>, f: File, pos: int, data: int, len: int, c: int)
    requires ValidFile(f) && 0 <= pos && Tiles(ios, f, pos, data, len, c)
    ensures AllCompatible(ios)
    decreases |ios|
  {
    hide PieceAt, Compatible;
    if ios != [] {
      PieceData(f, ios[0], pos, data, c);
      TilesCompatible(ios[1..], f, pos + ios[0].length, data + ios[0].length, len - ios[0].length, c);
      assert PieceIn(ios[0], f, pos, pos + ios[0].length) by { assert PieceAt(ios[0], f, pos, data, c); }
      forall i, j | 0 <= i < j < |ios| ensures Compatible(ios[i], ios[j]) {
        if i == 0 {
          TilesIn(ios, f, pos, data, len, c, j);
          RangesCompatible(ios[0], ios[j], f, pos, pos + ios[0].length, pos + ios[0].length, pos + len);
        } else {
          assert ios[i] == ios[1..][i - 1] && ios[j] == ios[1..][j - 1];
        }
      }
    }
  }

  /** Requests of one batch write different files or separate ranges. */
  ghost predicate Independent(a: Request, b: Request) {
    a.file.inode != b.file.inode || (a.file == b.file && (a.off + a.len <= b.off || b.off + b.len <= a.off))
  }

  ghost predicate AllIndependent(reqs: seq<Request>) {
    forall i, j :: 0 <= i < j < |reqs| ==> Independent(reqs[i], reqs[j])
  }

  lemma {:induction false} PiecedIn(reqs: seq<Request>, lim: int, m: int, k: int)
    requires ValidRequests(reqs) && 0 <= m <= |reqs| && 0 <= k < |Pieced(reqs, lim, m)|
    ensures 0 < Pieced(reqs, lim, m)[k].length
    ensures exists j ::
      0 <= j < m && PieceIn(Pieced(reqs, lim, m)[k], reqs[j].file, reqs[j].off, reqs[j].off + Served(reqs[j]))
    decreases m
  {
    hide PiecesOf, PieceIn, Tiles;
    if m > 0 {
      var r, before := reqs[m - 1], |Pieced(reqs, lim, m - 1)|;
      if k < before {
        PiecedIn(reqs, lim, m - 1, k);
      } else {
        RequestTiles(reqs[m - 1], lim, m - 1);
        TilesIn(PiecesOf(r, lim, m - 1).ios, r.file, r.off, r.buf, Served(r), m - 1, k - before);
      }
    }
  }

  lemma {:induction false} PiecedCompatible(reqs: seq<Request>, lim: int, m: int)
    requires ValidRequests(reqs) && AllIndependent(reqs) && 0 <= m <= |reqs|
    ensures AllCompatible(Pieced(reqs, lim, m))
    decreases m
  {
    hide PiecesOf, PieceIn, Tiles, Compatible;
    if m > 0 {
      var r, was, new_ := reqs[m - 1], Pieced(reqs, lim, m - 1), PiecesOf(reqs[m - 1], lim, m - 1).ios;
      PiecedCompatible(reqs, lim, m - 1);
      RequestTiles(reqs[m - 1], lim, m - 1);
      TilesCompatible(new_, r.file, r.off, r.buf, Served(r), m - 1);
      forall i, k | 0 <= i < |was| && 0 <= k < |new_| ensures Compatible(was[i], new_[k]) {
        AcrossRequests(reqs, lim, m, i, k);
      }
    }
  }

  lemma AcrossRequests(reqs: seq<Request>, lim: int, m: int, i: int, k: int)
    requires ValidRequests(reqs) && AllIndependent(reqs) && 0 < m <= |reqs|
    requires 0 <= i < |Pieced(reqs, lim, m - 1)| && 0 <= k < |PiecesOf(reqs[m - 1], lim, m - 1).ios|
    ensures Compatible(Pieced(reqs, lim, m - 1)[i], PiecesOf(reqs[m - 1], lim, m - 1).ios[k])
  {
    hide PiecesOf, PieceIn, Tiles, Compatible, Pieced;
    var r, a, b := reqs[m - 1], Pieced(reqs, lim, m - 1)[i], PiecesOf(reqs[m - 1], lim, m - 1).ios[k];
    RequestTiles(reqs[m - 1], lim, m - 1);
    TilesIn(PiecesOf(r, lim, m - 1).ios, r.file, r.off, r.buf, Served(r), m - 1, k);
    PiecedIn(reqs, lim, m - 1, i);
    var j :| 0 <= j < m - 1 && PieceIn(a, reqs[j].file, reqs[j].off, reqs[j].off + Served(reqs[j]));
    var q := reqs[j];
    assert Independent(q, r);
    if q.file.inode != r.file.inode {
      FilesCompatible(a, b, q.file, r.file, q.off, q.off + Served(q), r.off, r.off + Served(r));
    } else {
      RangesCompatible(a, b, r.file, q.off, q.off + Served(q), r.off, r.off + Served(r));
    }
  }

  // ---------- the files after a batch ----------

  lemma {:induction false} TilesKeepWritable(st: Store, ios: seq<Io>, f: File, g: File, pos: int, data: int, len: int,
                                             c: int, mem: seq<Byte>, p: int)
    requires ValidFile(f) && ValidFile(g) && (f.inode != g.inode || f == g) && 0 <= pos && 0 <= p
    requires Tiles(ios, g, pos, data, len, c) && ValidWrites(ios, |mem|)
    ensures Writable(WriteAll(st, ios, mem), f, p) <==> Writable(st, f, p)
    ensures f.inode != g.inode ==> Stored(WriteAll(st, ios, mem), f, p) == Stored(st, f, p)
    decreases |ios|
  {
    hide AfterWrite, PieceAt, Writable, WriteAll, Stored;
    if ios == [] {
      NothingWritten(st, mem);
    } else {
      var io, bytes := ios[0], WriteBytes(mem, ios[0]);
      PieceData(g, io, pos, data, c);
      WriteFirst(st, ios, mem);
      if f.inode == g.inode {
        WritableStays(st, g, io, pos, data, c, bytes, p);
      } else {
        OtherFile(st, f, g, io, pos, data, c, bytes, p);
      }
      TilesKeepWritable(AfterWrite(st, io, bytes), ios[1..], f, g, pos + io.length, data + io.length, len - io.length,
                        c, mem, p);
    }
  }

  /** One file after the first `m` requests, as if each had been written whole, up to the first chunk that cannot be
      addressed. */
  function BatchView(reqs: seq<Request>, m: int, mem: seq<Byte>, f: File, was: Option<Byte>, p: int): Option<Byte>
    requires ValidRequests(reqs) && InBounds(reqs, |mem|) && ValidFile(f) && 0 <= m <= |reqs| && 0 <= p
    decreases m
  {
    if m == 0 then was
    else
      var r, prev := reqs[m - 1], BatchView(reqs, m - 1, mem, f, was, p);
      if r.file.inode == f.inode then ViewAfter(f.chunkSize, prev, r.off, mem[r.buf..r.buf + Served(r)], p) else prev
  }

  ghost predicate Agrees(reqs: seq<Request>, f: File) {
    forall j :: 0 <= j < |reqs| ==> reqs[j].file.inode != f.inode || reqs[j].file == f
  }

  lemma {:induction false} PiecedWritten(st: Store, reqs: seq<Request>, lim: int, m: int, mem: seq<Byte>, f: File,
                                         p: int)
    requires ValidRequests(reqs) && InBounds(reqs, |mem|) && 0 <= m <= |reqs| && 0 <= p
    requires ValidFile(f) && Agrees(reqs, f) && ValidWrites(Pieced(reqs, lim, m), |mem|)
    ensures Stored(WriteAll(st, Pieced(reqs, lim, m), mem), f, p)
         == if Writable(st, f, p) then BatchView(reqs, m, mem, f, Stored(st, f, p), p) else Stored(st, f, p)
    ensures forall q :: 0 <= q ==> (Writable(WriteAll(st, Pieced(reqs, lim, m), mem), f, q) <==> Writable(st, f, q))
    decreases m
  {
    hide PiecesOf, Tiles, Writable, WriteAll, Stored;
    if m == 0 {
      NothingWritten(st, mem);
    } else {
      var r, was, new_ := reqs[m - 1], Pieced(reqs, lim, m - 1), PiecesOf(reqs[m - 1], lim, m - 1).ios;
      assert was == Pieced(reqs, lim, m)[..|was|] && new_ == Pieced(reqs, lim, m)[|was|..];
      PiecedWritten(st, reqs, lim, m - 1, mem, f, p);
      RequestTiles(reqs[m - 1], lim, m - 1);
      WriteAppend(st, was, new_, mem);
      var st' := WriteAll(st, was, mem);
      forall q | 0 <= q ensures Writable(WriteAll(st', new_, mem), f, q) <==> Writable(st', f, q) {
        TilesKeepWritable(st', new_, f, r.file, r.off, r.buf, Served(r), m - 1, mem, q);
      }
      if r.file.inode == f.inode {
        TilesWritten(st', new_, f, r.off, r.buf, Served(r), m - 1, mem, p);
      } else {
        TilesKeepWritable(st', new_, f, r.file, r.off, r.buf, Served(r), m - 1, mem, p);
      }
    }
  }

  lemma {:induction false} PiecedWrites(reqs: seq<Request>, lim: int, size: int)
    requires ValidRequests(reqs) && InBounds(reqs, size)
    ensures ValidWrites(Pieced(reqs, lim, |reqs|), size)
  {
    hide Pieced;
    PiecedValid(reqs, lim, |reqs|, size);
    var ios := Pieced(reqs, lim, |reqs|);
    forall k | 0 <= k < |ios| ensures 0 < ios[k].length {
      PiecedIn(reqs, lim, |reqs|, k);
    }
  }

  // ---------- the results of a batch ----------

  function WriteResults(st: Store, ios: seq<Io>): (r: seq<IoResult>)
    ensures |r| == |ios| && forall k :: 0 <= k < |ios| ==> r[k] == WriteResult(st, ios[k])
  {
    seq(|ios|, k requires 0 <= k < |ios| => WriteResult(st, ios[k]))
  }

  /** A piece gets the same outcome before and after the others. */
  lemma {:induction false} ResultStable(st: Store, ios: seq<Io>, io: Io, mem: seq<Byte>)
    requires ValidWrites(ios, |mem|) && CompatibleWithAll(io, ios)
    ensures WriteResult(WriteAll(st, ios, mem), io) == WriteResult(st, io)
    decreases |ios|
  {
    hide AfterWrite, WriteResult, WriteBytes;
    if ios != [] {
      var n := |ios| - 1;
      ResultStable(st, ios[..n], io, mem);
      AcceptanceStable(WriteAll(st, ios[..n], mem), ios[n], WriteBytes(mem, ios[n]), io);
    }
  }

  /** The first piece of a request that the store refuses, or `b`. */
  predicate Refused(st: Store, ios: seq<Io>, a: int, b: int)
    requires 0 <= a <= b <= |ios|
  {
    exists k :: a <= k < b && WriteResult(st, ios[k]).Err?
  }

  lemma {:induction false} WriteVerdict(st: Store, ios: seq<Io>, a: int, b: int, c: int, base: int)
    requires 0 <= a <= b <= |ios| && Segment(ios, a, b, c, base)
    ensures Failed(false, ios, WriteResults(st, ios), a, b) <==> Refused(st, ios, a, b)
    ensures !Refused(st, ios, a, b) ==> !Gap(ios, WriteResults(st, ios), a, b)
    decreases b - a
  {
    hide Gap;
    var rs := WriteResults(st, ios);
    if a < b {
      WriteVerdict(st, ios, a, b - 1, c, base);
      assert Refused(st, ios, a, b) <==> Refused(st, ios, a, b - 1) || WriteResult(st, ios[b - 1]).Err?;
    }
    assert Gap(ios, rs, a, b) <==> a < b && (Short(ios[b - 1], rs[b - 1]) || Gap(ios, rs, a, b - 1)) by {
      GapUnfold(ios, rs, a, b);
    }
  }

  lemma GapUnfold(ios: seq<Io>, rs: seq<IoResult>, a: int, b: int)
    requires 0 <= a <= b <= |ios| == |rs|
    ensures Gap(ios, rs, a, b) <==> a < b && (Short(ios[b - 1], rs[b - 1]) || Gap(ios, rs, a, b - 1))
  {
  }

  lemma SameChunkWritable(st: Store, f: File, io: Io, pos: int, data: int, c: int, p: int)
    requires ValidFile(f) && 0 <= pos && PieceAt(io, f, pos, data, c) && pos <= p < pos + io.length
    ensures Writable(st, f, p) <==> WriteResult(st, io).Len?
  {
    hide ChunkOf, OffsetIn;
    SameChunk(pos, p - pos, f.chunkSize);
    PieceAccepted(st, f, io, pos, data, c);
  }

  /** A request is refused exactly when some chunk of its range does not take writes. */
  lemma {:induction false} TilesRefused(st: Store, ios: seq<Io>, f: File, pos: int, data: int, len: int, c: int)
    requires ValidFile(f) && 0 <= pos && Tiles(ios, f, pos, data, len, c)
    ensures Refused(st, ios, 0, |ios|) <==> !WritableRange(st, f, pos, pos + len)
    decreases |ios|
  {
    hide PieceAt, Writable, WriteResult;
    if ios != [] {
      var io, rest := ios[0], ios[1..];
      PieceData(f, io, pos, data, c);
      TilesLength(rest, f, pos + io.length, data + io.length, len - io.length, c);
      TilesRefused(st, rest, f, pos + io.length, data + io.length, len - io.length, c);
      forall p | pos <= p < pos + io.length ensures Writable(st, f, p) <==> WriteResult(st, io).Len? {
        SameChunkWritable(st, f, io, pos, data, c, p);
      }
      assert Writable(st, f, pos) <==> WriteResult(st, io).Len?;
      RefusedSplit(st, ios);
    }
  }

  lemma RefusedSplit(st: Store, ios: seq<Io>)
    requires ios != []
    ensures Refused(st, ios, 0, |ios|) <==> WriteResult(st, ios[0]).Err? || Refused(st, ios[1..], 0, |ios| - 1)
  {
    hide WriteResult;
    if k :| 0 <= k < |ios| && WriteResult(st, ios[k]).Err? && k != 0 { assert ios[1..][k - 1] == ios[k]; }
    if k :| 0 <= k < |ios| - 1 && WriteResult(st, ios[1..][k]).Err? { assert ios[k + 1] == ios[1..][k]; }
  }

  lemma RefusedSlice(st: Store, ios: seq<Io>, a: int, b: int)
    requires 0 <= a <= b <= |ios|
    ensures Refused(st, ios, a, b) <==> Refused(st, ios[a..b], 0, b - a)
  {
    hide WriteResult;
    if k :| a <= k < b && WriteResult(st, ios[k]).Err? { assert ios[a..b][k - a] == ios[k]; }
    if k :| 0 <= k < b - a && WriteResult(st, ios[a..b][k]).Err? { assert ios[a + k] == ios[a..b][k]; }
  }

  // ---------- main results ----------

  /** The scan of a batch of writes. */
  function WriteOutcome(st: Store, reqs: seq<Request>, lim: int, mem: seq<Byte>): (s: Scan)
    requires ValidRequests(reqs) && InBounds(reqs, |mem|)
    ensures |s.res| == |reqs|
  {
    PiecedValid(reqs, lim, |reqs|, |mem|);
    var ios := Pieced(reqs, lim, |reqs|);
    Scanned(false, false, ios, WriteResults(st, ios), 0, |ios|, Start(Presets(reqs), mem))
  }

  lemma WriteSetting(st: Store, reqs: seq<Request>, lim: int, mem: seq<Byte>)
    requires ValidRequests(reqs) && InBounds(reqs, |mem|)
    ensures ValidIos(Pieced(reqs, lim, |reqs|), |mem|)
    ensures var ios := Pieced(reqs, lim, |reqs|);
      StrictSetting(false, false, ios, WriteResults(st, ios), Spans(reqs, lim), Presets(reqs))
  {
    hide Pieced, Batch, SpanOf, Preset;
    PiecedValid(reqs, lim, |reqs|, |mem|);
    PiecedIsBatch(st, reqs, lim, mem);
    WritesPlausible(st, Pieced(reqs, lim, |reqs|), |mem|);
  }

  /** A write reports its whole length when every chunk of its range takes writes, and an error otherwise; so does a
      write that failed beforehand. */
  lemma WriteCounts(st: Store, reqs: seq<Request>, lim: int, mem: seq<Byte>, j: int)
    requires ValidRequests(reqs) && InBounds(reqs, |mem|) && 0 <= j < |reqs|
    ensures var r, reported := reqs[j], WriteOutcome(st, reqs, lim, mem).res[j];
      if Failure(r).Some? then reported in {-Failure(r).value, -HOLE_IN_IO_OUTCOME}
      else if WritableRange(st, r.file, r.off, r.off + r.len) then reported == r.len
      else reported < 0
  {
    hide Pieced, Scanned, Batch, SpanOf, Refused, Failed, Reach, Tiles, Segment, ReadsFile, Copied, WriteResult,
         Writable, Served;
    var ios, spans, r := Pieced(reqs, lim, |reqs|), Spans(reqs, lim), reqs[j];
    var sp := SpanOf(reqs, lim, j);
    WriteSetting(st, reqs, lim, mem);
    StrictResults(false, false, ios, WriteResults(st, ios), spans, Presets(reqs), mem);
    RequestReads(st, reqs, lim, j, mem);
    OwnPieces(reqs, lim, j);
    SpanBase(reqs, lim, j);
    RequestTiles(r, lim, j);
    TilesRefused(st, PiecesOf(r, lim, j).ios, r.file, r.off, r.buf, Served(r), j);
    RefusedSlice(st, ios, sp.lo, sp.hi);
    WriteVerdict(st, ios, sp.lo, sp.hi, j, sp.base);
    if !Refused(st, ios, sp.lo, sp.hi) { NoGap(false, ios, WriteResults(st, ios), sp.lo, sp.hi, j, sp.base); }
    assert spans[j] == sp;
  }

  /** Finishing a batch of writes leaves the buffers alone. */
  lemma WriteLeavesMemory(st: Store, reqs: seq<Request>, lim: int, mem: seq<Byte>)
    requires ValidRequests(reqs) && InBounds(reqs, |mem|)
    ensures WriteOutcome(st, reqs, lim, mem).mem == mem
  {
    hide Pieced, Scanned, Batch, Verdict, SpanOf, Preset;
    WriteSetting(st, reqs, lim, mem);
    var ios := Pieced(reqs, lim, |reqs|);
    StrictResults(false, false, ios, WriteResults(st, ios), Spans(reqs, lim), Presets(reqs), mem);
  }

  lemma WritesPlausible(st: Store, ios: seq<Io>, size: int)
    requires ValidIos(ios, size)
    ensures Plausible(ios, WriteResults(st, ios), 0, |ios|)
  {
  }

  /** Whatever order the store writes the pieces in: where a file takes writes, it ends up as if the requests had been
      written whole, one after the other, up to the first chunk of each that cannot be addressed; elsewhere it is as it
      was. */
  lemma BatchWritten(st: Store, reqs: seq<Request>, lim: int, mem: seq<Byte>, order: seq<int>, f: File, p: int)
    requires ValidRequests(reqs) && InBounds(reqs, |mem|) && AllIndependent(reqs) && 0 <= p
    requires ValidFile(f) && Agrees(reqs, f)
    requires IsOrder(order, |Pieced(reqs, lim, |reqs|)|) && Indices(order, |Pieced(reqs, lim, |reqs|)|)
    ensures ValidWrites(Shuffled(Pieced(reqs, lim, |reqs|), order), |mem|)
    ensures Stored(WriteAll(st, Shuffled(Pieced(reqs, lim, |reqs|), order), mem), f, p)
         == if Writable(st, f, p) then BatchView(reqs, |reqs|, mem, f, Stored(st, f, p), p) else Stored(st, f, p)
  {
    hide Pieced, Stored, WriteAll, BatchView, Shuffled, Writable, AllCompatible;
    var ios := Pieced(reqs, lim, |reqs|);
    PiecedWrites(reqs, lim, |mem|);
    PiecedCompatible(reqs, lim, |reqs|);
    ShuffleKeeps(ios, order, |mem|);
    AnyOrder(st, ios, Shuffled(ios, order), mem);
    PiecedWritten(st, reqs, lim, |reqs|, mem, f, p);
  }

  /** A single read of a range in which every byte is stored. */
  lemma ReadStored(st: Store, r: Request, lim: int, mem: seq<Byte>)
    requires ValidRequest(r) && Failure(r).None? && r.buf + r.len <= |mem|
    requires forall p :: r.off <= p < r.off + r.len ==> Stored(st, r.file, p).Some?
    ensures ReadOutcome(st, [r], lim, mem).res == [r.len]
    ensures forall p :: r.off <= p < r.off + r.len ==>
      Stored(st, r.file, p) == Some(ReadOutcome(st, [r], lim, mem).mem[r.buf + (p - r.off)])
  {
    hide Stored, ReadOutcome, StoredEnd, Failure;
    StoredEndUnique(st, r.file, r.off, r.off + r.len, r.off + r.len);
    SingleRead(st, r, lim, mem);
  }

  /** The range after a single write. */
  lemma WrittenStored(st: Store, r: Request, lim: int, mem: seq<Byte>, order: seq<int>, p: int)
    requires ValidRequest(r) && Failure(r).None? && r.buf + r.len <= |mem|
    requires WritableRange(st, r.file, r.off, r.off + r.len) && r.off <= p < r.off + r.len
    requires IsOrder(order, |Pieced([r], lim, 1)|) && Indices(order, |Pieced([r], lim, 1)|)
    requires ValidWrites(Shuffled(Pieced([r], lim, 1), order), |mem|)
    ensures Stored(WriteAll(st, Shuffled(Pieced([r], lim, 1), order), mem), r.file, p) == Some(mem[r.buf + (p - r.off)])
  {
    hide Pieced, Stored, WriteAll, Shuffled, Writable, Served, Failure;
    BatchWritten(st, [r], lim, mem, order, r.file, p);
    BatchViewOfOne(r, mem, Stored(st, r.file, p), p);
  }

  /** Reading back what was written returns it, in whatever order the store wrote the pieces and whatever the
      piece limits were. */
  lemma WriteThenRead(st: Store, r: Request, lim: int, mem: seq<Byte>, order: seq<int>, st': Store, back: Request,
                      lim': int, mem': seq<Byte>)
    requires ValidRequest(r) && Failure(r).None? && r.buf + r.len <= |mem|
    requires WritableRange(st, r.file, r.off, r.off + r.len)
    requires IsOrder(order, |Pieced([r], lim, 1)|) && Indices(order, |Pieced([r], lim, 1)|)
    requires ValidWrites(Shuffled(Pieced([r], lim, 1), order), |mem|)
    requires st' == WriteAll(st, Shuffled(Pieced([r], lim, 1), order), mem)
    requires ValidRequest(back) && Failure(back).None? && back.buf + back.len <= |mem'|
    requires back.file == r.file && back.off == r.off && back.len == r.len
    ensures WriteOutcome(st, [r], lim, mem).res == [r.len] && ReadOutcome(st', [back], lim', mem').res == [r.len]
    ensures forall p :: r.off <= p < r.off + r.len ==>
      Some(ReadOutcome(st', [back], lim', mem').mem[back.buf + (p - r.off)])
      == Stored(st', r.file, p) == Some(mem[r.buf + (p - r.off)])
  {
    hide Pieced, Stored, WriteAll, Shuffled, Writable, ReadOutcome, WriteOutcome, Failure, Served;
    WriteCounts(st, [r], lim, mem, 0);
    forall p | r.off <= p < r.off + r.len ensures Stored(st', r.file, p) == Some(mem[r.buf + (p - r.off)]) {
      WrittenStored(st, r, lim, mem, order, p);
    }
    ReadStored(st', back, lim', mem');
  }

  lemma BatchViewOfOne(r: Request, mem: seq<Byte>, was: Option<Byte>, p: int)
    requires ValidRequest(r) && r.buf + r.len <= |mem| && 0 <= p
    ensures BatchView([r], 1, mem, r.file, was, p)
         == ViewAfter(r.file.chunkSize, was, r.off, mem[r.buf..r.buf + Served(r)], p)
  {
    assert BatchView([r], 0, mem, r.file, was, p) == was;
  }
}
