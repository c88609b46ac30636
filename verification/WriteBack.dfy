/** The write-back buffer of an open file (src/fuse/FuseOps.cc, src/fuse/FuseClients.h). */
module WriteBack {
  import opened Prelude
  import opened Chunks
  import opened ChunkSplit
  import opened ChunkWrite
  import opened Stitch
  import opened StitchStrict
  import opened PioRead
  import opened PioBatch
  import opened PioWrite
  import opened PioWriteBatch
  import opened PioVector

  /** Every chunk of the range can be addressed. */
  ghost predicate Addressed(f: File, off: int, len: int)
    requires ValidFile(f) && 0 <= off && 0 <= len
  {
    forall p :: off <= p < off + Max(len, 1) ==> Locate(f, p).0.Some?
  }

  /** Every chunk of the range can be addressed and takes writes. */
  ghost predicate Flushable(st: Store, f: File, off: int, len: int)
    requires ValidFile(f) && 0 <= off && 0 <= len
  {
    Addressed(f, off, len) && WritableRange(st, f, off, off + len)
  }

  /** The file takes reads and writes below `end`. */
  ghost predicate Available(st: Store, f: File, end: int)
    requires ValidFile(f)
  {
    forall p :: 0 <= p < end ==> Locate(f, p).0.Some? && Writable(st, f, p)
  }

  ghost predicate SameAvailable(st: Store, was: Store, f: File)
    requires ValidFile(f)
  {
    forall end :: Available(st, f, end) <==> Available(was, f, end)
  }

  /** The store shows the file as `data` written at `off` over what it showed before, and takes the same writes. */
  ghost predicate Shows(st: Store, was: Store, f: File, off: int, data: seq<Byte>)
    requires ValidFile(f) && 0 <= off
  {
    && (forall p :: 0 <= p ==> Stored(st, f, p) == ViewAfter(f.chunkSize, Stored(was, f, p), off, data, p))
    && (forall p :: 0 <= p ==> (Writable(st, f, p) <==> Writable(was, f, p))) && st.faulty == was.faulty
  }

  /** What a refused write leaves: the data shows in the chunks that take writes, unless some chunk cannot be
      addressed. */
  ghost predicate Partly(st: Store, was: Store, f: File, off: int, data: seq<Byte>)
    requires ValidFile(f) && 0 <= off
  {
    forall p :: 0 <= p ==> Stored(st, f, p) == PartView(was, f, Stored(was, f, p), off, data, p)
  }

  /** One byte of it. */
  ghost function PartView(st: Store, f: File, was: Option<Byte>, off: int, data: seq<Byte>, p: int): Option<Byte>
    requires ValidFile(f) && 0 <= off && 0 <= p
  {
    if Addressed(f, off, |data|) && Writable(st, f, p) then ViewAfter(f.chunkSize, was, off, data, p) else was
  }

  /** A flush that succeeded does not change what can be flushed. */
  lemma StillFlushable(st: Store, was: Store, f: File, off: int, data: seq<Byte>, at: int, len: int)
    requires ValidFile(f) && 0 <= off && 0 <= at && 0 <= len && Shows(st, was, f, off, data)
    ensures Flushable(st, f, at, len) <==> Flushable(was, f, at, len)
  {
    hide Stored, Writable, ViewAfter, Locate;
  }

  lemma StillAvailable(st: Store, was: Store, f: File, off: int, data: seq<Byte>, end: int)
    requires ValidFile(f) && 0 <= off && Shows(st, was, f, off, data)
    ensures Available(st, f, end) <==> Available(was, f, end)
  {
    hide Stored, Writable, ViewAfter, Locate;
  }

  lemma AvailableFlushes(st: Store, f: File, off: int, len: int, end: int)
    requires ValidFile(f) && 0 <= off && 0 <= len && off + Max(len, 1) <= end && Available(st, f, end)
    ensures Flushable(st, f, off, len)
  {
    hide Writable, Locate;
  }

  /** A request whose file and buffer are known, and whose chunks can all be addressed. */
  predicate Ready(r: Request, size: int) { ValidRequest(r) && Failure(r).None? && r.buf + r.len <= size }

  lemma LocatedIff(r: Request, lim: int)
    requires ValidRequest(r) && r.lookup.None?
    ensures PiecesOf(r, lim, 0).error == Failure(r)
    ensures Failure(r).None? <==> forall p :: r.off <= p < r.off + Max(r.len, 1) ==> Locate(r.file, p).0.Some?
  {
    hide Split, Locate, Failure;
    SplitFailsIff(r.file, r.off, r.buf, r.len, PieceLimit(lim, r.file.chunkSize), 0);
    RequestTiles(r, lim, 0);
  }

  lemma NoPresets(r: Request)
    requires ValidRequest(r) && Failure(r).None?
    ensures Presets([r]) == [0] && Served(r) == r.len
  {
    assert [r][0] == r;
  }

  lemma OneRequest(r: Request, lim: int)
    requires ValidRequest(r)
    ensures Pieced([r], lim, 1) == PiecesOf(r, lim, 0).ios
  {
    assert Pieced([r], lim, 0) == [];
  }

  lemma OneWritten(st: Store, r: Request, lim: int, mem: seq<Byte>)
    requires Ready(r, |mem|) && ValidWrites(PiecesOf(r, lim, 0).ios, |mem|) && Addressed(r.file, r.off, r.len)
    ensures Partly(WriteAll(st, PiecesOf(r, lim, 0).ios, mem), st, r.file, r.off, mem[r.buf..r.buf + r.len])
    ensures WritableRange(st, r.file, r.off, r.off + r.len) ==>
      Shows(WriteAll(st, PiecesOf(r, lim, 0).ios, mem), st, r.file, r.off, mem[r.buf..r.buf + r.len])
  {
    hide PiecesOf, WriteAll, Stored, Writable, Pieced, ViewAfter, Served, Failure, Locate, Addressed;
    var data, st' := mem[r.buf..r.buf + r.len], WriteAll(st, PiecesOf(r, lim, 0).ios, mem);
    OneRequest(r, lim);
    NoPresets(r);
    AllKeepFaults(st, PiecesOf(r, lim, 0).ios, mem);
    PiecedWritten(st, [r], lim, 1, mem, r.file, 0);
    forall p | 0 <= p ensures Stored(st', r.file, p) == PartView(st, r.file, Stored(st, r.file, p), r.off, data, p) {
      PiecedWritten(st, [r], lim, 1, mem, r.file, p);
      BatchViewOfOne(r, mem, Stored(st, r.file, p), p);
    }
    if WritableRange(st, r.file, r.off, r.off + r.len) {
      forall p | 0 <= p
        ensures Stored(st', r.file, p) == ViewAfter(r.file.chunkSize, Stored(st, r.file, p), r.off, data, p)
      {
        if !Writable(st, r.file, p) { ViewWritable(st, r.file, r.off, data, p); }
      }
    }
  }

  lemma OneCompatible(r: Request, lim: int, size: int)
    requires Ready(r, size)
    ensures AllCompatible(PiecesOf(r, lim, 0).ios) && ValidWrites(PiecesOf(r, lim, 0).ios, size)
  {
    hide PiecesOf, Pieced;
    OneRequest(r, lim);
    PiecedCompatible([r], lim, 1);
    PiecedWrites([r], lim, size);
  }

  lemma OneReport(st: Store, r: Request, lim: int, mem: seq<Byte>)
    requires Ready(r, |mem|)
    ensures var ios := PiecesOf(r, lim, 0).ios;
      && WellFormed(ios, WriteResults(st, ios), 1) && InMemory(ios, |mem|)
      && (ios == [] ==> r.len == 0)
      && (forall k :: 0 <= k < |ios| ==> WriteResults(st, ios)[k].Len? ==> 0 <= WriteResults(st, ios)[k].n)
      && var final := Scanned(false, false, ios, WriteResults(st, ios), 0, |ios|, Start([0], mem));
         final.mem == mem
         && if WritableRange(st, r.file, r.off, r.off + r.len) then final.res[0] == r.len else final.res[0] < 0
  {
    hide Pieced, PiecesOf, Writable, Scanned, Served, Failure, Found;
    OneRequest(r, lim);
    PiecedValid([r], lim, 1, |mem|);
    SpanFacts(st, [r], lim, |mem|, 0);
    WriteCounts(st, [r], lim, mem, 0);
    NoPresets(r);
    WriteLeavesMemory(st, [r], lim, mem);
  }

  lemma EmptyRange(st: Store, r: Request)
    requires ValidRequest(r) && r.len == 0
    ensures WritableRange(st, r.file, r.off, r.off + r.len)
  {
  }

  /** An executor that holds the pieces of one request runs them. */
  method RunPieces(exec: PioV, r: Request, mem: array<Byte>)
    requires Ready(r, mem.Length) && exec.rios == [] && exec.wios == PiecesOf(r, exec.lim, 0).ios
    requires exec.res.Length == 1 && exec.res[0] == 0
    modifies exec`outcomes, exec.storage, exec.res, mem
    ensures mem[..] == old(mem[..])
    ensures ValidWrites(exec.wios, mem.Length) && exec.storage.st == WriteAll(old(exec.storage.st), exec.wios, mem[..])
    ensures if WritableRange(old(exec.storage.st), r.file, r.off, r.off + r.len) then exec.res[0] == r.len
            else exec.res[0] < 0
  {
    hide Pieced, PiecesOf, WriteAll, Writable, Scanned, Locate, AllCompatible, ValidWrites, WriteResults, Failure,
         WritableRange;
    OneCompatible(r, exec.lim, mem.Length);
    OneReport(exec.storage.st, r, exec.lim, mem[..]);
    exec.ExecuteWrite(mem);
    assert exec.res[..] == [0];
    if exec.wios == [] {
      NoTurn(true, true, [], [], 0, Start([0], mem[..]));
      EmptyRange(old(exec.storage.st), r);
    }
    exec.FinishIo(true, mem);
    assert exec.res[..][0] == exec.res[0];
  }

  /** One turn of the flush loop: an executor of its own writes the range. */
  method WriteOnce(storage: MemStorage, r: Request, lim: int, mem: array<Byte>) returns (done: int)
    requires ValidRequest(r) && r.lookup.None? && r.buf + r.len <= mem.Length
    modifies storage, mem
    ensures mem[..] == old(mem[..])
    ensures done >= 0 <==> Flushable(old(storage.st), r.file, r.off, r.len)
    ensures done >= 0 ==> done == r.len && Shows(storage.st, old(storage.st), r.file, r.off, mem[r.buf..r.buf + r.len])
    ensures done < 0 ==> Partly(storage.st, old(storage.st), r.file, r.off, mem[r.buf..r.buf + r.len])
  {
    assert |mem[r.buf..r.buf + r.len]| == r.len;
    hide Pieced, PiecesOf, WriteAll, Stored, Writable, Locate, Shows, Failure;
    var res := new int[1](_ => 0);
    var exec := new PioV(storage, lim, res);
    LocatedIff(r, lim);
    var error := exec.AddWrite(0, r, true);
    if error.Some? { return -1; }
    RunPieces(exec, r, mem);
    done := res[0];
    assert mem[..][r.buf..r.buf + r.len] == mem[r.buf..r.buf + r.len];
    OneWritten(old(storage.st), r, lim, mem[..]);
  }

  method FlushBuf(storage: MemStorage, f: File, off: int, mem: array<Byte>, len: int, flushAll: bool, lim: int)
    returns (done: int)
    requires ValidFile(f) && 0 <= off && 0 <= len <= mem.Length
    modifies storage, mem
    ensures mem[..] == old(mem[..])
    ensures done >= 0 <==> Flushable(old(storage.st), f, off, len)
    ensures done >= 0 ==> done == len && Shows(storage.st, old(storage.st), f, off, mem[..len])
    ensures done < 0 ==> Partly(storage.st, old(storage.st), f, off, mem[..len])
  {
    hide Flushable, Shows, Partly;
    done := 0;
    var again := true;
    while again
      invariant mem[..] == old(mem[..])
      invariant again ==> done == 0 && storage.st == old(storage.st)
      invariant !again ==>
        done == len && Flushable(old(storage.st), f, off, len) && Shows(storage.st, old(storage.st), f, off, mem[..len])
      decreases again
    {
      var n := WriteOnce(storage, Request(f, off + done, len - done, done, None), lim, mem);
      if n < 0 { return -1; }
      done := done + n;
      again := flushAll && done < len;
    }
  }

  lemma {:induction false} AllKeepFaults(st: Store, ios: seq<Io>, mem: seq<Byte>)
    requires ValidWrites(ios, |mem|)
    ensures WriteAll(st, ios, mem).faulty == st.faulty
    decreases |ios|
  {
    hide WriteBytes;
    if ios != [] { AllKeepFaults(st, ios[..|ios| - 1], mem); }
  }

  lemma OneRead(st: Store, r: Request, lim: int, mem: seq<Byte>)
    requires Ready(r, |mem|)
    ensures var ios := PiecesOf(r, lim, 0).ios;
      && WellFormed(ios, ReadResults(st, ios), 1) && InMemory(ios, |mem|) && ValidIos(ios, |mem|)
      && (forall k :: 0 <= k < |ios| ==> ReadResults(st, ios)[k].Len? ==> 0 <= ReadResults(st, ios)[k].n)
      && var final := Scanned(true, true, ios, ReadResults(st, ios), 0, |ios|,
                              Start([0], CopyIn(st, ios, 0, |ios|, mem)));
         && final.res == [StoredEnd(st, r.file, r.off, r.off + r.len) - r.off]
         && HasBytes(st, r.file, r.off, final.res[0], final.mem, r.buf)
  {
    hide Pieced, PiecesOf, Scanned, StoredEnd, HasBytes, CopyIn, ReadResult, Served, Failure;
    OneRequest(r, lim);
    PiecedValid([r], lim, 1, |mem|);
    ReadOutcomes(st, Pieced([r], lim, 1), |mem|);
    SingleRead(st, r, lim, mem);
    NoPresets(r);
  }

  /** The chain of the chunk at `p` answers. */
  predicate OnHealthyChain(st: Store, f: File, p: int)
    requires ValidFile(f) && 0 <= p
  {
    var key := ChunkKey(f, ChunkOf(p, f.chunkSize));
    key.Some? && key.value.chain !in st.faulty
  }

  /** Every chunk of the range can be addressed, and their chains answer. */
  ghost predicate Readable(st: Store, f: File, off: int, len: int)
    requires ValidFile(f) && 0 <= off && 0 <= len
  {
    && (forall p :: off <= p < off + Max(len, 1) ==> Locate(f, p).0.Some?)
    && (forall p :: off <= p < off + len ==> OnHealthyChain(st, f, p))
  }

  lemma ReadableSame(st: Store, was: Store, f: File, off: int, len: int)
    requires ValidFile(f) && 0 <= off && 0 <= len && st.faulty == was.faulty
    ensures Readable(st, f, off, len) <==> Readable(was, f, off, len)
  {
    hide Locate;
    assert forall p :: 0 <= p ==> (OnHealthyChain(st, f, p) <==> OnHealthyChain(was, f, p));
  }

  lemma AvailableReads(st: Store, f: File, off: int, len: int, end: int)
    requires ValidFile(f) && 0 <= off && 0 <= len && off + Max(len, 1) <= end && Available(st, f, end)
    ensures Readable(st, f, off, len)
  {
    hide Locate;
    forall p | off <= p < off + len ensures OnHealthyChain(st, f, p) { assert Writable(st, f, p); }
  }

  /** Every full buffer that filling `total` bytes from `off` on makes can be flushed. */
  ghost predicate FullFlushes(st: Store, f: File, off: int, total: int, size: int)
    requires ValidFile(f) && 0 <= off && 0 < size
    decreases total
  {
    total < size || (Flushable(st, f, off, size) && FullFlushes(st, f, off + size, total - size, size))
  }

  lemma {:induction false} AvailableFills(st: Store, f: File, off: int, total: int, size: int, end: int)
    requires ValidFile(f) && 0 <= off && 0 < size && off + total <= end && Available(st, f, end)
    ensures FullFlushes(st, f, off, total, size)
    decreases total
  {
    hide Available, Flushable;
    if size <= total {
      AvailableFlushes(st, f, off, size, end);
      AvailableFills(st, f, off + size, total - size, size, end);
    }
  }

  lemma PieceHealthy(st: Store, f: File, io: Io, pos: int, data: int, c: int, p: int)
    requires ValidFile(f) && 0 <= pos && PieceAt(io, f, pos, data, c) && pos <= p < pos + io.length
    ensures OnHealthyChain(st, f, p) <==> io.key.chain !in st.faulty
  {
    hide ChunkOf, OffsetIn;
    SameChunk(pos, p - pos, f.chunkSize);
  }

  lemma {:induction false} TilesHealthy(st: Store, ios: seq<Io>, f: File, pos: int, data: int, len: int, c: int)
    requires ValidFile(f) && 0 <= pos && Tiles(ios, f, pos, data, len, c)
    ensures Healthy(st, ios) <==> forall p :: pos <= p < pos + len ==> OnHealthyChain(st, f, p)
    decreases |ios|
  {
    hide PieceAt, OnHealthyChain;
    if ios != [] {
      var io, rest := ios[0], ios[1..];
      PieceData(f, io, pos, data, c);
      TilesLength(rest, f, pos + io.length, data + io.length, len - io.length, c);
      TilesHealthy(st, rest, f, pos + io.length, data + io.length, len - io.length, c);
      forall p | pos <= p < pos + io.length ensures OnHealthyChain(st, f, p) <==> io.key.chain !in st.faulty {
        PieceHealthy(st, f, io, pos, data, c, p);
      }
      assert OnHealthyChain(st, f, pos) <==> io.key.chain !in st.faulty;
      assert Healthy(st, ios) <==> io.key.chain !in st.faulty && Healthy(st, rest) by { HealthyFirst(st, ios); }
    }
  }

  lemma HealthyFirst(st: Store, ios: seq<Io>)
    requires ios != []
    ensures Healthy(st, ios) <==> ios[0].key.chain !in st.faulty && Healthy(st, ios[1..])
  {
    if Healthy(st, ios[1..]) && ios[0].key.chain !in st.faulty {
      forall k | 0 <= k < |ios| ensures ios[k].key.chain !in st.faulty {
        if k > 0 { assert ios[k] == ios[1..][k - 1]; }
      }
    }
  }

  /** An executor that holds the pieces of one read runs them. */
  method ReadPieces(exec: PioV, r: Request, mem: array<Byte>) returns (ok: bool)
    requires Ready(r, mem.Length) && exec.wios == [] && exec.rios == PiecesOf(r, exec.lim, 0).ios
    requires exec.res.Length == 1 && exec.res[0] == 0
    modifies exec`outcomes, exec.res, mem
    ensures ok <==> Healthy(exec.storage.st, exec.rios)
    ensures ok ==> exec.res[0] == StoredEnd(exec.storage.st, r.file, r.off, r.off + r.len) - r.off
    ensures ok ==> HasBytes(exec.storage.st, r.file, r.off, exec.res[0], mem[..], r.buf)
  {
    hide PiecesOf, Scanned, CopyIn, HasBytes, ReadResults, Healthy, Failure, StoredEnd;
    OneRead(exec.storage.st, r, exec.lim, mem[..]);
    ok := exec.ExecuteRead(mem);
    if !ok { return; }
    assert exec.res[..] == [0];
    exec.FinishIo(true, mem);
    assert exec.res[..][0] == exec.res[0];
  }

  /** A single read with an executor of its own. */
  method ReadOnce(storage: MemStorage, r: Request, lim: int, mem: array<Byte>) returns (n: int)
    requires ValidRequest(r) && r.lookup.None? && r.buf == 0 && r.len == mem.Length
    modifies mem
    ensures n >= 0 <==> Readable(storage.st, r.file, r.off, r.len)
    ensures n >= 0 ==> n == StoredEnd(storage.st, r.file, r.off, r.off + r.len) - r.off
    ensures n >= 0 ==> HasBytes(storage.st, r.file, r.off, n, mem[..], 0)
  {
    hide PiecesOf, Locate, HasBytes, Healthy, OnHealthyChain, Failure, Tiles;
    var res := new int[1](_ => 0);
    var exec := new PioV(storage, lim, res);
    LocatedIff(r, lim);
    var error := exec.AddRead(0, r, true);
    if error.Some? { return -1; }
    assert exec.rios == PiecesOf(r, lim, 0).ios;
    RequestTiles(r, lim, 0);
    NoPresets(r);
    TilesHealthy(storage.st, exec.rios, r.file, r.off, r.buf, r.len, 0);
    var ok := ReadPieces(exec, r, mem);
    n := if ok then res[0] else -1;
  }

  // ---------- the buffer ----------

  /** The last byte of the range that the flat file holds, and what a read of the range delivers. */
  ghost predicate Delivers(flat: int -> Option<Byte>, off: int, size: int, bytes: seq<Byte>) {
    && |bytes| <= size
    && (bytes != [] ==> flat(off + |bytes| - 1).Some?)
    && (forall p :: off + |bytes| <= p < off + size ==> flat(p) == None)
    && (forall p :: off <= p < off + |bytes| ==> bytes[p - off] == if flat(p).Some? then flat(p).value else 0)
  }

  class CachedFile {
    const storage: MemStorage
    const f: File
    const lim: int
    const buf: array<Byte>
    var off: int
    var len: int
    /** The file the user sees: every write applied directly. */
    ghost var flat: int -> Option<Byte>

    /** The user's file is the stored one with the buffered bytes written over it. */
    ghost predicate Coherent()
      reads this, storage, buf
    {
      && ValidFile(f) && 0 <= off && 0 <= len <= buf.Length
      && forall p :: 0 <= p ==> flat(p) == ViewAfter(f.chunkSize, Stored(storage.st, f, p), off, buf[..len], p)
    }

    /** Between operations the buffer is never full. */
    ghost predicate Valid()
      reads this, storage, buf
    {
      Coherent() && (0 < buf.Length ==> len < buf.Length)
    }

    /** A file without a buffer has a `writeBufSize` of zero. */
    constructor (storage: MemStorage, f: File, lim: int, writeBufSize: nat)
      requires ValidFile(f)
      ensures Valid() && fresh(buf) && this.storage == storage && this.f == f && buf.Length == writeBufSize
      ensures forall p :: 0 <= p ==> flat(p) == Stored(storage.st, f, p)
    {
      this.storage, this.f, this.lim, off, len := storage, f, lim, 0, 0;
      buf := new Byte[writeBufSize];
      var st := storage.st;
      flat := p => if p < 0 then None else Stored(st, f, p);
    }

    /** Where the buffered bytes end. */
    function BufferedEnd(): int
      reads this
    {
      if len == 0 then 0 else off + len
    }

    /** Every flush site: writes out the buffer, if it holds anything. A failed flush drops what was buffered: the user
        then sees it only where the chunks took it. */
    method Flush() returns (ok: bool)
      requires Coherent()
      modifies this, storage, buf
      ensures Valid() && len == 0
      ensures ok <==> old(len) == 0 || Flushable(old(storage.st), f, old(off), old(len))
      ensures ok ==> flat == old(flat)
      ensures !ok ==> forall p :: 0 <= p ==>
        flat(p) == if Addressed(f, old(off), old(len)) && Writable(old(storage.st), f, p) then old(flat(p))
                   else Stored(old(storage.st), f, p)
      ensures ok ==> SameFlushable(storage.st, old(storage.st), f)
      ensures ok ==> forall p :: 0 <= p ==> (Writable(storage.st, f, p) <==> Writable(old(storage.st), f, p))
      ensures ok ==> SameAvailable(storage.st, old(storage.st), f) && storage.st.faulty == old(storage.st.faulty)
    {
      hide Flushable, Stored, ViewAfter, Writable, Available;
      ok := true;
      if len != 0 {
        ghost var was, data := storage.st, buf[..len];
        var done := FlushBuf(storage, f, off, buf, len, true, lim);
        if done >= 0 {
          forall at, n | 0 <= at && 0 <= n ensures Flushable(storage.st, f, at, n) <==> Flushable(was, f, at, n) {
            StillFlushable(storage.st, was, f, off, data, at, n);
          }
          forall end ensures Available(storage.st, f, end) <==> Available(was, f, end) {
            StillAvailable(storage.st, was, f, off, data, end);
          }
        }
        ok := done >= 0;
        len := 0;
        if !ok {
          ghost var st := storage.st;
          flat := p => if p < 0 then None else Stored(st, f, p);
        }
        NothingBuffered(f.chunkSize, off);
        assert buf[..0] == [];
      }
    }

    /** An O_DIRECT write, or any write when there is no buffer: flushes what is buffered, then writes through. */
    method WriteDirect(at: int, data: seq<Byte>) returns (n: int)
      requires Valid() && 0 <= at
      modifies this, storage, buf
      ensures Valid() && len == 0
      ensures n >= 0 <==>
        && (old(len) == 0 || Flushable(old(storage.st), f, old(off), old(len)))
        && Flushable(old(storage.st), f, at, |data|)
      ensures n >= 0 ==> n == |data| && Applied(old(flat), flat, f.chunkSize, at, data)
      ensures n < 0 && (old(len) == 0 || Flushable(old(storage.st), f, old(off), old(len))) ==>
        forall p :: 0 <= p ==> flat(p) == PartView(old(storage.st), f, old(flat(p)), at, data, p)
      ensures n >= 0 ==> SameAvailable(storage.st, old(storage.st), f)
    {
      hide Flushable, Stored, ViewAfter, Writable, Available;
      var ok := Flush();
      if !ok { return -1; }
      var memh := new Byte[|data|](i requires 0 <= i < |data| => data[i]);
      assert memh[..|data|] == data;
      ghost var before := storage.st;
      n := FlushBuf(storage, f, at, memh, |data|, false, lim);
      if n >= 0 {
        forall end ensures Available(storage.st, f, end) <==> Available(before, f, end) {
          StillAvailable(storage.st, before, f, at, data, end);
        }
      }
      ghost var st := storage.st;
      flat := p => if p < 0 then None else Stored(st, f, p);
      NothingBuffered(f.chunkSize, off);
      assert buf[..0] == [];
    }

    method Append(chunk: seq<Byte>)
      requires Coherent() && len + |chunk| <= buf.Length
      modifies this, buf
      ensures Coherent() && off == old(off) && len == old(len) + |chunk|
      ensures Applied(old(flat), flat, f.chunkSize, off + old(len), chunk)
    {
      hide Stored, ViewAfter;
      ghost var held, was := buf[..len], flat;
      Memcpy(buf, len, chunk);
      ghost var cs, at := f.chunkSize, off + len;
      flat := p => if p < 0 then None else ViewAfter(cs, was(p), at, chunk, p);
      ViewsAppend(f.chunkSize, off, held, chunk);
      len := len + |chunk|;
      assert buf[..len] == held + chunk;
    }

    /** An empty buffer may be placed anywhere. */
    method Place(at: int)
      requires Coherent() && len == 0 && 0 <= at
      modifies this`off
      ensures Coherent() && off == at
    {
      hide Stored, ViewAfter;
      NothingBuffered(f.chunkSize, off);
      NothingBuffered(f.chunkSize, at);
      assert buf[..0] == [];
      off := at;
    }

    /** One turn of the copy loop: a buffer that becomes full is flushed, and goes on where it ended. */
    method AppendSpilling(chunk: seq<Byte>) returns (ok: bool)
      requires Coherent() && len + |chunk| <= buf.Length && 0 < buf.Length
      modifies this, storage, buf
      ensures Valid()
      ensures var full := old(len) + |chunk| == buf.Length;
        && (ok <==> !full || Flushable(old(storage.st), f, old(off), buf.Length))
        && (ok ==> off == old(off) + if full then buf.Length else 0)
      ensures ok ==> off + len == old(off) + old(len) + |chunk|
      ensures ok ==> Applied(old(flat), flat, f.chunkSize, old(off) + old(len), chunk)
      ensures ok ==> SameAvailable(storage.st, old(storage.st), f) && SameFlushable(storage.st, old(storage.st), f)
    {
      assert ValidFile(f) && 0 <= off && len <= buf.Length;
      hide Flushable, Coherent, Applied, Available, Writable, Stored, Addressed;
      Append(chunk);
      ok := true;
      if len == buf.Length {
        var end := off + len;
        ok := Flush();
        if ok { Place(end); }
      }
    }

    /** The copy loop of a buffered write, once the buffer ends where the data starts. */
    method BufferAll(at: int, data: seq<Byte>) returns (ok: bool)
      requires Valid() && 0 <= at == off + len && 0 < buf.Length
      modifies this, storage, buf
      ensures Valid()
      ensures ok <==> FullFlushes(old(storage.st), f, old(off), old(len) + |data|, buf.Length)
      ensures ok ==> Applied(old(flat), flat, f.chunkSize, at, data)
      ensures ok ==> off + len == at + |data| && SameAvailable(storage.st, old(storage.st), f)
    {
      assert ValidFile(f) && 0 <= off && 0 <= len;
      hide Flushable, Coherent, Applied, Available;
      var done := 0;
      var more := true;
      ghost var all := FullFlushes(storage.st, f, off, len + |data|, buf.Length);
      NotYetApplied(flat, f.chunkSize, at, data);
      while more
        invariant Valid() && 0 <= done <= |data| && 0 <= off && off + len == at + done
        invariant Applied(old(flat), flat, f.chunkSize, at, data[..done])
        invariant !more ==> done == |data|
        invariant SameAvailable(storage.st, old(storage.st), f) && SameFlushable(storage.st, old(storage.st), f)
        invariant all <==> FullFlushes(old(storage.st), f, off, len + |data| - done, buf.Length)
        decreases more, |data| - done
      {
        var cplen := Min(|data| - done, buf.Length - len);
        ghost var was := flat;
        ok := AppendSpilling(data[done..done + cplen]);
        if !ok { return; }
        AppliedTwice(old(flat), was, flat, f.chunkSize, at, data, done, cplen);
        done := done + cplen;
        more := done < |data|;
      }
      assert data[..done] == data;
      NotFull();
      ok := true;
    }

    lemma NotFull()
      requires Valid() && 0 < buf.Length
      ensures len < buf.Length
    {
    }

    /** The data follows the buffered bytes. */
    predicate Follows(at: int)
      reads this
    {
      len != 0 && off + len == at
    }

    /** A buffered write. It succeeds exactly when the buffer can be flushed, if the data does not follow it, and every
        buffer that becomes full can be flushed. */
    method WriteBuffered(at: int, data: seq<Byte>) returns (n: int)
      requires Valid() && 0 <= at && 0 < buf.Length
      modifies this, storage, buf
      ensures Valid()
      ensures n >= 0 <==>
        if old(Follows(at)) then FullFlushes(old(storage.st), f, old(off), old(len) + |data|, buf.Length)
        else
          && (old(len) == 0 || Flushable(old(storage.st), f, old(off), old(len)))
          && FullFlushes(old(storage.st), f, at, |data|, buf.Length)
      ensures n >= 0 ==> BufferedEnd() <= at + |data| && SameAvailable(storage.st, old(storage.st), f)
      ensures n >= 0 ==> n == |data| && Applied(old(flat), flat, f.chunkSize, at, data)
    {
      assert ValidFile(f) && 0 <= off && 0 <= len;
      hide Flushable, Coherent, Applied, Available;
      var ok: bool;
      if len != 0 && off + len != at {
        ok := Flush();
        if !ok { return -1; }
      }
      if len == 0 { Place(at); }
      FlushesSame(storage.st, old(storage.st), f, off, len + |data|, buf.Length);
      ok := BufferAll(at, data);
      n := if ok then |data| else -1;
    }

    /** A read flushes first, so that it sees what was buffered. */
    method Read(at: int, size: int) returns (n: int, bytes: seq<Byte>)
      requires Valid() && 0 <= at && 0 <= size
      modifies this, storage, buf
      ensures Valid()
      ensures n >= 0 <==>
        && (old(len) == 0 || Flushable(old(storage.st), f, old(off), old(len)))
        && Readable(old(storage.st), f, at, size)
      ensures n >= 0 ==> len == 0 && SameAvailable(storage.st, old(storage.st), f)
      ensures n >= 0 ==> flat == old(flat) && n == |bytes| && Delivers(flat, at, size, bytes)
    {
      hide Flushable, Stored, ViewAfter, Delivers, HasBytes, Available, Readable;
      var ok := Flush();
      if !ok { return -1, []; }
      ReadableSame(storage.st, old(storage.st), f, at, size);
      var memh := new Byte[size](_ => 0);
      n := ReadOnce(storage, Request(f, at, size, 0, None), lim, memh);
      if n < 0 { return -1, []; }
      bytes := memh[..n];
      NothingBuffered(f.chunkSize, off);
      assert buf[..0] == [];
      Delivered(storage.st, f, flat, at, size, memh[..], n);
    }
  }

  ghost predicate SameFlushable(st: Store, was: Store, f: File)
    requires ValidFile(f)
  {
    forall at, n :: 0 <= at && 0 <= n ==> (Flushable(st, f, at, n) <==> Flushable(was, f, at, n))
  }

  lemma {:induction false} FlushesSame(st: Store, was: Store, f: File, off: int, total: int, size: int)
    requires ValidFile(f) && 0 <= off && 0 < size && SameFlushable(st, was, f)
    ensures FullFlushes(st, f, off, total, size) <==> FullFlushes(was, f, off, total, size)
    decreases total
  {
    hide Flushable;
    if size <= total { FlushesSame(st, was, f, off + size, total - size, size); }
  }

  lemma Delivered(st: Store, f: File, flat: int -> Option<Byte>, at: int, size: int, mem: seq<Byte>, n: int)
    requires ValidFile(f) && 0 <= at && 0 <= n <= size == |mem|
    requires n == StoredEnd(st, f, at, at + size) - at
    requires forall p :: 0 <= p ==> flat(p) == Stored(st, f, p)
    requires HasBytes(st, f, at, n, mem, 0)
    ensures Delivers(flat, at, size, mem[..n])
  {
    hide Stored;
    assert n > 0 ==> flat(at + n - 1) == Stored(st, f, StoredEnd(st, f, at, at + size) - 1);
  }

  lemma NotYetApplied(flat: int -> Option<Byte>, cs: int, off: int, data: seq<Byte>)
    requires 0 < cs && 0 <= off
    ensures Applied(flat, flat, cs, off, data[..0])
  {
    assert data[..0] == [];
  }

  lemma AppliedTwice(was: int -> Option<Byte>, mid: int -> Option<Byte>, now: int -> Option<Byte>, cs: int, off: int,
                     data: seq<Byte>, done: int, more: int)
    requires 0 < cs && 0 <= off && 0 <= done && 0 <= more && done + more <= |data|
    requires Applied(was, mid, cs, off, data[..done]) && Applied(mid, now, cs, off + done, data[done..done + more])
    ensures Applied(was, now, cs, off, data[..done + more])
  {
    hide ViewAfter;
    ViewsAppend(cs, off, data[..done], data[done..done + more]);
    assert data[..done] + data[done..done + more] == data[..done + more];
  }

  /** The flat file after `data` was written at `off`. */
  ghost predicate Applied(was: int -> Option<Byte>, now: int -> Option<Byte>, cs: int, off: int, data: seq<Byte>)
    requires 0 < cs && 0 <= off
  {
    forall p :: 0 <= p ==> now(p) == ViewAfter(cs, was(p), off, data, p)
  }

  lemma ViewsAppend(cs: int, off: int, a: seq<Byte>, b: seq<Byte>)
    requires 0 < cs && 0 <= off
    ensures forall was: Option<Byte>, p :: 0 <= p ==>
      ViewAfter(cs, ViewAfter(cs, was, off, a, p), off + |a|, b, p) == ViewAfter(cs, was, off, a + b, p)
  {
    forall was: Option<Byte>, p | 0 <= p
      ensures ViewAfter(cs, ViewAfter(cs, was, off, a, p), off + |a|, b, p) == ViewAfter(cs, was, off, a + b, p)
    {
      ViewAppend(cs, was, off, a, b, p);
    }
  }

  lemma NothingBuffered(cs: int, off: int)
    requires 0 < cs && 0 <= off
    ensures forall was: Option<Byte>, p :: 0 <= p ==> ViewAfter(cs, was, off, [], p) == was
  {
  }

  // ---------- any sequence of operations ----------

  datatype FileOp =
    | Buffered(at: int, data: seq<Byte>) | Direct(at: int, data: seq<Byte>) | Reading(at: int, size: int) | Flushing

  predicate OpOk(op: FileOp) {
    match op
    case Buffered(at, _) => 0 <= at
    case Direct(at, _) => 0 <= at
    case Reading(at, size) => 0 <= at && 0 <= size
    case Flushing => true
  }

  /** How far into the file an operation reaches. */
  function OpEnd(op: FileOp): int {
    match op
    case Buffered(at, data) => at + Max(|data|, 1)
    case Direct(at, data) => at + Max(|data|, 1)
    case Reading(at, size) => at + Max(size, 1)
    case Flushing => 0
  }

  predicate OpsOk(ops: seq<FileOp>) { forall i :: 0 <= i < |ops| ==> OpOk(ops[i]) }

  /** The byte at `p` after the operations, each write applied directly and in order. */
  function DirectView(cs: int, ops: seq<FileOp>, was: Option<Byte>, p: int): Option<Byte>
    requires 0 < cs && 0 <= p && OpsOk(ops)
  {
    if ops == [] then was
    else
      var op, prev := ops[|ops| - 1], DirectView(cs, ops[..|ops| - 1], was, p);
      match op
      case Buffered(at, data) => ViewAfter(cs, prev, at, data, p)
      case Direct(at, data) => ViewAfter(cs, prev, at, data, p)
      case _ => prev
  }

  /** The file after the operations. */
  ghost function DirectFile(cs: int, ops: seq<FileOp>, start: int -> Option<Byte>): int -> Option<Byte>
    requires 0 < cs && OpsOk(ops)
  {
    p => if p < 0 then None else DirectView(cs, ops, start(p), p)
  }

  ghost predicate SameFile(f: int -> Option<Byte>, g: int -> Option<Byte>) { forall p :: 0 <= p ==> f(p) == g(p) }

  lemma DeliversSame(f: int -> Option<Byte>, g: int -> Option<Byte>, off: int, size: int, bytes: seq<Byte>)
    requires SameFile(f, g) && Delivers(f, off, size, bytes) && 0 <= off
    ensures Delivers(g, off, size, bytes)
  {
  }

  lemma NextDirect(cs: int, ops: seq<FileOp>, k: int, start: int -> Option<Byte>, was: int -> Option<Byte>,
                   now: int -> Option<Byte>)
    requires 0 < cs && OpsOk(ops) && 0 <= k < |ops| && SameFile(was, DirectFile(cs, ops[..k], start))
    requires match ops[k]
      case Buffered(at, data) => Applied(was, now, cs, at, data)
      case Direct(at, data) => Applied(was, now, cs, at, data)
      case _ => now == was
    ensures SameFile(now, DirectFile(cs, ops[..k + 1], start))
  {
    hide ViewAfter;
    var some := ops[..k + 1];
    assert some[..|some| - 1] == ops[..k] && some[|some| - 1] == ops[k];
    forall p | 0 <= p ensures now(p) == DirectFile(cs, some, start)(p) {
      assert was(p) == DirectView(cs, ops[..k], start(p), p);
      assert DirectFile(cs, some, start)(p) == DirectView(cs, some, start(p), p);
    }
  }

  /** Any sequence of buffered writes, direct writes, reads and flushes that succeeds leaves the file that applying each
      write directly gives, and every read on the way delivers that file as it was then. The sequence succeeds when the
      file takes reads and writes as far as the operations reach. */
  method RunOps(c: CachedFile, ops: seq<FileOp>, ghost end: int) returns (ok: bool, outs: seq<seq<Byte>>)
    requires c.Valid() && OpsOk(ops) && 0 < c.buf.Length
    requires c.BufferedEnd() <= end && forall i :: 0 <= i < |ops| ==> OpEnd(ops[i]) <= end
    modifies c, c.storage, c.buf
    ensures c.Valid() && |outs| <= |ops| && (ok ==> |outs| == |ops|)
    ensures Available(old(c.storage.st), c.f, end) ==> ok
    ensures ok ==> SameFile(c.flat, DirectFile(c.f.chunkSize, ops, old(c.flat)))
    ensures forall k :: 0 <= k < |outs| && ops[k].Reading? ==>
      Delivers(DirectFile(c.f.chunkSize, ops[..k], old(c.flat)), ops[k].at, ops[k].size, outs[k])
  {
    assert ValidFile(c.f);
    hide Delivers, Applied, Available, Flushable, DirectFile;
    outs := [];
    ghost var cs := c.f.chunkSize;
    NothingDone(cs, ops, c.flat);
    while |outs| < |ops|
      invariant |outs| <= |ops| && c.Valid() && SameFile(c.flat, DirectFile(cs, ops[..|outs|], old(c.flat)))
      invariant forall k :: 0 <= k < |outs| && ops[k].Reading? ==>
        Delivers(DirectFile(cs, ops[..k], old(c.flat)), ops[k].at, ops[k].size, outs[k])
      invariant c.BufferedEnd() <= end && SameAvailable(c.storage.st, old(c.storage.st), c.f)
    {
      ghost var was := c.flat;
      var bytes := [];
      ok, bytes := RunOp(c, ops[|outs|], end);
      if !ok { return; }
      NextDirect(cs, ops, |outs|, old(c.flat), was, c.flat);
      if ops[|outs|].Reading? {
        DeliversSame(was, DirectFile(cs, ops[..|outs|], old(c.flat)), ops[|outs|].at, ops[|outs|].size, bytes);
      }
      outs := outs + [bytes];
    }
    ok := true;
    assert ops[..|outs|] == ops;
  }

  lemma NothingDone(cs: int, ops: seq<FileOp>, start: int -> Option<Byte>)
    requires 0 < cs && OpsOk(ops)
    ensures SameFile(start, DirectFile(cs, ops[..0], start))
  {
    assert ops[..0] == [];
  }

  lemma AvailableFlushesAll(st: Store, f: File, off: int, len: int, at: int, n: int, end: int)
    requires ValidFile(f) && 0 <= off && 0 <= len && 0 <= at && 0 <= n && Available(st, f, end)
    requires (len == 0 || off + len <= end) && at + Max(n, 1) <= end
    ensures (len == 0 || Flushable(st, f, off, len)) && Flushable(st, f, at, n)
  {
    hide Available, Flushable;
    if len != 0 { AvailableFlushes(st, f, off, len, end); }
    AvailableFlushes(st, f, at, n, end);
  }

  method RunOp(c: CachedFile, op: FileOp, ghost end: int) returns (ok: bool, bytes: seq<Byte>)
    requires c.Valid() && OpOk(op) && 0 < c.buf.Length && c.BufferedEnd() <= end && OpEnd(op) <= end
    modifies c, c.storage, c.buf
    ensures c.Valid() && ValidFile(c.f)
    ensures Available(old(c.storage.st), c.f, end) ==> ok
    ensures ok ==> c.BufferedEnd() <= end && SameAvailable(c.storage.st, old(c.storage.st), c.f)
    ensures ok ==> match op
      case Buffered(at, data) => Applied(old(c.flat), c.flat, c.f.chunkSize, at, data)
      case Direct(at, data) => Applied(old(c.flat), c.flat, c.f.chunkSize, at, data)
      case Reading(at, size) => c.flat == old(c.flat) && Delivers(c.flat, at, size, bytes)
      case Flushing => c.flat == old(c.flat) && c.len == 0
  {
    assert ValidFile(c.f);
    hide Delivers, Applied, Available, Flushable, FullFlushes, Readable;
    bytes := [];
    var n: int;
    match op {
      case Buffered(at, data) =>
        if Available(c.storage.st, c.f, end) {
          if c.len != 0 { AvailableFlushes(c.storage.st, c.f, c.off, c.len, end); }
          AvailableFills(c.storage.st, c.f, at, |data|, c.buf.Length, end);
          if c.Follows(at) { AvailableFills(c.storage.st, c.f, c.off, c.len + |data|, c.buf.Length, end); }
        }
        n := c.WriteBuffered(at, data);
        ok := n >= 0;
      case Direct(at, data) =>
        if Available(c.storage.st, c.f, end) {
          AvailableFlushesAll(c.storage.st, c.f, c.off, c.len, at, |data|, end);
        }
        n := c.WriteDirect(at, data);
        ok := n >= 0;
      case Reading(at, size) =>
        if Available(c.storage.st, c.f, end) {
          if c.len != 0 { AvailableFlushes(c.storage.st, c.f, c.off, c.len, end); }
          AvailableReads(c.storage.st, c.f, at, size, end);
        }
        n, bytes := c.Read(at, size);
        ok := n >= 0;
      case Flushing =>
        if Available(c.storage.st, c.f, end) && c.len != 0 {
          AvailableFlushes(c.storage.st, c.f, c.off, c.len, end);
        }
        ok := c.Flush();
    }
  }
}
