/** Writes of files, end to end: split into pieces, written to the store in any order
    (src/fuse/PioV.cc over src/client/storage/StorageClientInMem.cc). */
module PioWrite {
  import opened Prelude
  import opened Chunks
  import opened ChunkSplit
  import opened ChunkWrite

  // ---------- what a write does to the file ----------

  /** The byte at `p` after `data` is written at `off`: inside the range the new byte; before it, up to the start
      of its chunk, a hole becomes zero; elsewhere unchanged. */
  function ViewAfter(cs: int, was: Option<Byte>, off: int, data: seq<Byte>, p: int): Option<Byte>
    requires 0 < cs && 0 <= off && 0 <= p
  {
    if off <= p < off + |data| then Some(data[p - off])
    else if was.None? && p < off && 0 < |data| && ChunkOf(p, cs) == ChunkOf(off, cs) then Some(0)
    else was
  }

  lemma ChunkOfMonotone(p: int, q: int, cs: int)
    requires 0 <= p <= q && 0 < cs
    ensures ChunkOf(p, cs) <= ChunkOf(q, cs)
  {
    assert cs * (q / cs) + q % cs == q && cs * (p / cs) + p % cs == p;
    assert cs * (p / cs) - cs * (q / cs) == cs * (p / cs - q / cs);
    if q / cs < p / cs { MulAtLeast(cs, p / cs - q / cs); }
  }

  /** Two writes in a row, the second behind the first, are one write. */
  lemma ViewAppend(cs: int, was: Option<Byte>, off: int, a: seq<Byte>, b: seq<Byte>, p: int)
    requires 0 < cs && 0 <= off && 0 <= p
    ensures ViewAfter(cs, ViewAfter(cs, was, off, a, p), off + |a|, b, p) == ViewAfter(cs, was, off, a + b, p)
  {
    hide ChunkOf;
    if p < off {
      ChunkOfMonotone(p, off, cs);
      ChunkOfMonotone(off, off + |a|, cs);
    }
  }

  /** The chunk at `p` takes writes: its chain is known and healthy, and it has the chunk size of the file. */
  predicate Writable(st: Store, f: File, p: int)
    requires ValidFile(f) && 0 <= p
  {
    var key := ChunkKey(f, ChunkOf(p, f.chunkSize));
    && key.Some? && key.value.chain !in st.faulty
    && (key.value in st.chunks ==> st.chunks[key.value].capacity == f.chunkSize)
  }

  lemma PieceAccepted(st: Store, f: File, io: Io, pos: int, data: int, c: int)
    requires ValidFile(f) && 0 <= pos && PieceAt(io, f, pos, data, c)
    ensures WriteAccepted(st, io) <==> Writable(st, f, pos)
    ensures WriteResult(st, io).Len? <==> Writable(st, f, pos)
    ensures WriteResult(st, io).Len? ==> WriteResult(st, io).n == io.length
  {
    hide ChunkOf, OffsetIn;
  }

  lemma WritableStays(st: Store, f: File, io: Io, pos: int, data: int, c: int, bytes: seq<Byte>, p: int)
    requires ValidFile(f) && 0 <= pos && 0 <= p && PieceAt(io, f, pos, data, c)
    ensures Writable(AfterWrite(st, io, bytes), f, p) <==> Writable(st, f, p)
  {
    hide ChunkOf, OffsetIn, Overlay, Grow;
  }

  /** A piece shows where the chunk takes writes. */
  lemma PieceWritten(st: Store, f: File, io: Io, pos: int, data: int, c: int, bytes: seq<Byte>, p: int)
    requires ValidFile(f) && 0 <= pos && 0 <= p && PieceAt(io, f, pos, data, c) && |bytes| == io.length
    ensures Stored(AfterWrite(st, io, bytes), f, p)
         == if Writable(st, f, p) then ViewAfter(f.chunkSize, Stored(st, f, p), pos, bytes, p) else Stored(st, f, p)
  {
    hide ChunkOf, OffsetIn, Overlay, Grow;
    PieceAccepted(st, f, io, pos, data, c);
    var cs := f.chunkSize;
    if ChunkOf(p, cs) == ChunkOf(pos, cs) {
      PositionUnique(p, pos, cs);
    } else if pos <= p < pos + io.length {
      SameChunk(pos, p - pos, cs);
    }
  }

  /** A piece of another file changes nothing. */
  lemma OtherFile(st: Store, f: File, g: File, io: Io, pos: int, data: int, c: int, bytes: seq<Byte>, p: int)
    requires ValidFile(f) && ValidFile(g) && 0 <= pos && 0 <= p && PieceAt(io, g, pos, data, c) && f.inode != g.inode
    ensures Stored(AfterWrite(st, io, bytes), f, p) == Stored(st, f, p)
    ensures Writable(AfterWrite(st, io, bytes), f, p) <==> Writable(st, f, p)
  {
    hide ChunkOf, OffsetIn, Overlay, Grow;
  }

  // ---------- the pieces of one request ----------

  predicate WritableRange(st: Store, f: File, pos: int, end: int)
    requires ValidFile(f) && 0 <= pos
  {
    forall p :: pos <= p < end ==> Writable(st, f, p)
  }

  lemma WriteFirst(st: Store, ios: seq<Io>, mem: seq<Byte>)
    requires ValidWrites(ios, |mem|) && ios != []
    ensures ValidWrites(ios[1..], |mem|)
    ensures WriteAll(st, ios, mem) == WriteAll(AfterWrite(st, ios[0], WriteBytes(mem, ios[0])), ios[1..], mem)
  {
    hide AfterWrite, WriteBytes;
    assert ios == [ios[0]] + ios[1..];
    WriteAppend(st, [ios[0]], ios[1..], mem);
    assert [ios[0]][..0] == [];
    assert WriteAll(st, [], mem) == st;
    assert WriteAll(st, [ios[0]], mem) == AfterWrite(st, ios[0], WriteBytes(mem, ios[0]));
  }

  /** The pieces of one request, written in order, write the range where its chunks take writes. */
  lemma {:induction false} TilesWritten(st: Store, ios: seq<Io>, f: File, pos: int, data: int, len: int, c: int,
                                        mem: seq<Byte>, p: int)
    requires ValidFile(f) && 0 <= pos && 0 <= p && 0 <= len && 0 <= data && data + len <= |mem|
    requires Tiles(ios, f, pos, data, len, c) && ValidWrites(ios, |mem|)
    ensures Stored(WriteAll(st, ios, mem), f, p)
         == if Writable(st, f, p) then ViewAfter(f.chunkSize, Stored(st, f, p), pos, mem[data..data + len], p)
            else Stored(st, f, p)
    decreases |ios|
  {
    hide ChunkOf, Stored, AfterWrite, PieceAt, Writable, WriteAll;
    if ios == [] {
      NothingWritten(st, mem);
    } else {
      var io, bytes := ios[0], WriteBytes(mem, ios[0]);
      PieceData(f, io, pos, data, c);
      WriteFirst(st, ios, mem);
      PieceWritten(st, f, io, pos, data, c, bytes, p);
      WritableStays(st, f, io, pos, data, c, bytes, p);
      TilesWritten(AfterWrite(st, io, bytes), ios[1..], f, pos + io.length, data + io.length, len - io.length, c, mem,
                   p);
      ViewAppend(f.chunkSize, Stored(st, f, p), pos, bytes, mem[data + io.length..data + len], p);
      assert bytes + mem[data + io.length..data + len] == mem[data..data + len];
    }
  }

  /** A write to a range that takes writes shows everywhere. */
  lemma ViewWritable(st: Store, f: File, off: int, data: seq<Byte>, p: int)
    requires ValidFile(f) && 0 <= off && 0 <= p && WritableRange(st, f, off, off + |data|) && !Writable(st, f, p)
    ensures ViewAfter(f.chunkSize, Stored(st, f, p), off, data, p) == Stored(st, f, p)
  {
    hide ChunkOf, OffsetIn;
    if data != [] { assert Writable(st, f, off); }
  }

  lemma NothingWritten(st: Store, mem: seq<Byte>)
    ensures WriteAll(st, [], mem) == st
  {
  }

  lemma PieceData(f: File, io: Io, pos: int, data: int, c: int)
    requires ValidFile(f) && 0 <= pos && PieceAt(io, f, pos, data, c)
    ensures io.data == data && 0 < io.length && io.ctx == c && 0 <= io.offset
  {
  }
}
