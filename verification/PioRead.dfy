/** Batched reads of files, end to end: split into pieces, read from the store, stitched together
    (src/fuse/PioV.cc over src/client/storage/StorageClientInMem.cc). */
module PioRead {
  import opened Prelude
  import opened Chunks
  import opened ChunkSplit
  import opened Stitch
  import opened StitchRead
  import opened StitchBatch

  // ---------- the store's batchRead ----------

  /** What a piece reads. */
  function ReadBytes(st: Store, io: Io): (r: seq<Byte>)
    requires 0 <= io.offset && 0 <= io.length
    ensures |r| == Got(ReadResult(st, io)) <= io.length
  {
    if io.key in st.chunks && io.offset <= |st.chunks[io.key].content|
    then st.chunks[io.key].content[io.offset..io.offset + ReadLength(st.chunks[io.key].content, io.offset, io.length)]
    else []
  }

  predicate ValidIos(ios: seq<Io>, size: int) {
    forall k :: 0 <= k < |ios| ==>
      0 <= ios[k].offset && 0 <= ios[k].data && 0 <= ios[k].length && ios[k].data + ios[k].length <= size
  }

  /** The memory after the pieces from `a` up to `b` were read into it. */
  function CopyIn(st: Store, ios: seq<Io>, a: int, b: int, mem: seq<Byte>): (r: seq<Byte>)
    requires ValidIos(ios, |mem|) && 0 <= a <= b <= |ios|
    ensures |r| == |mem|
    decreases b - a
  {
    if a == b then mem else Overlay(CopyIn(st, ios, a, b - 1, mem), ios[b - 1].data, ReadBytes(st, ios[b - 1]))
  }

  function ReadResults(st: Store, ios: seq<Io>): (r: seq<IoResult>)
    ensures |r| == |ios| && forall k :: 0 <= k < |ios| ==> r[k] == ReadResult(st, ios[k])
  {
    seq(|ios|, k requires 0 <= k < |ios| => ReadResult(st, ios[k]))
  }

  /** The first piece whose chain has an injected fault ends the batch. */
  predicate Healthy(st: Store, ios: seq<Io>) {
    forall k :: 0 <= k < |ios| ==> ios[k].key.chain !in st.faulty
  }

  method BatchRead(st: Store, ios: seq<Io>, mem: array<Byte>) returns (ok: bool, results: seq<IoResult>)
    requires ValidIos(ios, mem.Length)
    modifies mem
    ensures ok <==> Healthy(st, ios)
    ensures ok ==> results == ReadResults(st, ios) && mem[..] == CopyIn(st, ios, 0, |ios|, old(mem[..]))
  {
    results := [];
    while |results| < |ios|
      invariant |results| <= |ios|
      invariant forall k :: 0 <= k < |results| ==>
        ios[k].key.chain !in st.faulty && results[k] == ReadResult(st, ios[k])
      invariant mem[..] == CopyIn(st, ios, 0, |results|, old(mem[..]))
    {
      var io := ios[|results|];
      if io.key.chain in st.faulty { return false, results; }
      var r := ReadResult(st, io);
      if r.Len? { Memcpy(mem, io.data, ReadBytes(st, io)); }
      results := results + [r];
    }
    ok := true;
  }

  method Memcpy(mem: array<Byte>, at: int, bytes: seq<Byte>)
    requires 0 <= at && at + |bytes| <= mem.Length
    modifies mem
    ensures mem[..] == Overlay(old(mem[..]), at, bytes)
  {
    var i := 0;
    while i < |bytes|
      invariant 0 <= i <= |bytes|
      invariant forall x :: 0 <= x < mem.Length ==> mem[x] == if at <= x < at + i then bytes[x - at] else old(mem[x])
    {
      mem[at + i] := bytes[i];
      i := i + 1;
    }
  }

  // ---------- what the pieces of one range read ----------

  /** The byte of the file that belongs at buffer address `x`, `shift` being the distance from buffer to file. */
  function FileByte(st: Store, f: File, shift: int, x: int): Option<Byte>
    requires ValidFile(f)
  {
    if 0 <= x + shift then Stored(st, f, x + shift) else None
  }

  /** A piece returns exactly the stored bytes of its range, which are a prefix of it. */
  lemma PieceReads(st: Store, f: File, io: Io, shift: int, ctx: int, x: int)
    requires ValidFile(f) && 0 <= io.data + shift && PieceAt(io, f, io.data + shift, io.data, ctx)
    requires io.data <= x < io.data + io.length
    ensures FileByte(st, f, shift, x).Some? <==> x < io.data + Got(ReadResult(st, io))
    ensures x < io.data + Got(ReadResult(st, io)) ==> FileByte(st, f, shift, x) == Some(ReadBytes(st, io)[x - io.data])
  {
    hide ChunkOf, OffsetIn;
    SameChunk(io.data + shift, x - io.data, f.chunkSize);
  }

  /** The end of the range up to its last stored byte, or its start when none is stored. */
  function StoredEnd(st: Store, f: File, pos: int, end: int): (e: int)
    requires ValidFile(f) && 0 <= pos <= end
    ensures pos <= e <= end
    ensures pos < e ==> Stored(st, f, e - 1).Some?
    ensures forall p :: e <= p < end ==> Stored(st, f, p) == None
    decreases end
  {
    if end == pos || Stored(st, f, end - 1).Some? then end else StoredEnd(st, f, pos, end - 1)
  }

  lemma StoredEndUnique(st: Store, f: File, pos: int, end: int, e: int)
    requires ValidFile(f) && 0 <= pos <= e <= end
    requires pos < e ==> Stored(st, f, e - 1).Some?
    requires forall p :: e <= p < end ==> Stored(st, f, p) == None
    ensures StoredEnd(st, f, pos, end) == e
  {
    hide Stored;
    var m := StoredEnd(st, f, pos, end);
    if m < e {
    } else if e < m {
    }
  }

  // ---------- the pieces of one request ----------

  /** The pieces from `a` up to `b` transfer the bytes of the file into the buffer at `base`. */
  ghost predicate ReadsFile(st: Store, f: File, shift: int, ios: seq<Io>, results: seq<IoResult>, a: int, b: int,
                            base: int)
    requires ValidFile(f) && 0 <= base + shift && 0 <= a <= b <= |ios| == |results|
  {
    var end := End(ios, a, b, base);
    && base <= end
    && Reach(ios, results, a, b, base) + shift == StoredEnd(st, f, base + shift, end + shift)
    && forall x :: Covered(ios, results, a, b, x) <==> base <= x < end && FileByte(st, f, shift, x).Some?
  }

  /** The stored bytes are in the buffer from `base` up to `end`, everything else is as it was. */
  ghost predicate Copied(st: Store, f: File, shift: int, base: int, end: int, was: seq<Byte>, mem: seq<Byte>)
    requires ValidFile(f)
  {
    && |mem| == |was|
    && forall x :: 0 <= x < |mem| ==>
         mem[x] == if base <= x < end && FileByte(st, f, shift, x).Some? then FileByte(st, f, shift, x).value
                   else was[x]
  }

  lemma NextPieceReads(st: Store, f: File, shift: int, ios: seq<Io>, results: seq<IoResult>, a: int, b: int, base: int,
                       c: int)
    requires ValidFile(f) && 0 <= base + shift && 0 <= a < b <= |ios| == |results|
    requires ReadsFile(st, f, shift, ios, results, a, b - 1, base)
    requires ios[b - 1].data == End(ios, a, b - 1, base)
    requires PieceAt(ios[b - 1], f, ios[b - 1].data + shift, ios[b - 1].data, c)
    requires results[b - 1] == ReadResult(st, ios[b - 1])
    ensures ReadsFile(st, f, shift, ios, results, a, b, base)
  {
    hide Stored, ReadResult, PieceAt, ReadBytes;
    var io, i, was := ios[b - 1], b - 1, Reach(ios, results, a, b - 1, base);
    var n := Got(ReadResult(st, io));
    assert 0 <= n <= io.length && 0 < io.length by { PieceLength(st, f, io, io.data + shift, io.data, c); }
    forall x | io.data <= x < io.data + io.length
      ensures FileByte(st, f, shift, x).Some? <==> x < io.data + n
    {
      PieceReads(st, f, io, shift, c, x);
    }
    assert forall x :: Covered(ios, results, a, b, x) <==> io.data <= x < io.data + n || Covered(ios, results, a, i, x);
    var e := if n > 0 then io.data + n else was;
    forall p | e + shift <= p < io.data + io.length + shift ensures Stored(st, f, p) == None {
      assert FileByte(st, f, shift, p - shift) == Stored(st, f, p);
    }
    assert n > 0 ==> FileByte(st, f, shift, e - 1).Some?;
    StoredEndUnique(st, f, base + shift, io.data + io.length + shift, e + shift);
  }

  lemma PieceLength(st: Store, f: File, io: Io, pos: int, data: int, c: int)
    requires ValidFile(f) && 0 <= pos && PieceAt(io, f, pos, data, c)
    ensures 0 <= io.offset && 0 <= |ReadBytes(st, io)| == Got(ReadResult(st, io)) <= io.length && 0 < io.length
  {
  }

  lemma NextPieceCopied(st: Store, f: File, shift: int, io: Io, base: int, c: int, was: seq<Byte>, mem: seq<Byte>)
    requires ValidFile(f) && 0 <= base + shift && base <= io.data && PieceAt(io, f, io.data + shift, io.data, c)
    requires 0 <= io.offset && 0 <= io.data && io.data + io.length <= |mem|
    requires Copied(st, f, shift, base, io.data, was, mem)
    ensures Copied(st, f, shift, base, io.data + io.length, was, Overlay(mem, io.data, ReadBytes(st, io)))
  {
    hide FileByte, ReadResult, PieceAt, ReadBytes;
    PieceLength(st, f, io, io.data + shift, io.data, c);
    forall x | io.data <= x < io.data + io.length
      ensures FileByte(st, f, shift, x)
           == if x < io.data + |ReadBytes(st, io)| then Some(ReadBytes(st, io)[x - io.data]) else None
    {
      PieceReads(st, f, io, shift, c, x);
    }
  }

  /** All pieces of a split: from `k` on the rest of the range is still to come. */
  lemma {:induction false} TilesRead(st: Store, f: File, shift: int, ios: seq<Io>, a: int, k: int, b: int, base: int,
                                     end: int, c: int, was: seq<Byte>)
    requires ValidFile(f) && 0 <= base + shift && 0 <= a <= k <= b <= |ios| && ValidIos(ios, |was|)
    requires Segment(ios, a, k, c, base) && ReadsFile(st, f, shift, ios, ReadResults(st, ios), a, k, base)
    requires var at := End(ios, a, k, base);
      && base <= at && Copied(st, f, shift, base, at, was, CopyIn(st, ios, a, k, was))
      && Tiles(ios[k..b], f, at + shift, at, end - at, c)
    ensures Segment(ios, a, b, c, base) && End(ios, a, b, base) == end
    ensures ReadsFile(st, f, shift, ios, ReadResults(st, ios), a, b, base)
    ensures Copied(st, f, shift, base, end, was, CopyIn(st, ios, a, b, was))
    decreases b - k
  {
    hide PieceAt, ReadsFile, Copied, ReadResults;
    if k < b {
      assert ios[k..b][0] == ios[k] && ios[k..b][1..] == ios[k + 1..b];
      var at := End(ios, a, k, base);
      assert PieceAt(ios[k], f, at + shift, at, c);
      PieceParts(f, ios[k], at + shift, at, c);
      NextPieceReads(st, f, shift, ios, ReadResults(st, ios), a, k + 1, base, c);
      NextPieceCopied(st, f, shift, ios[k], base, c, was, CopyIn(st, ios, a, k, was));
      TilesRead(st, f, shift, ios, a, k + 1, b, base, end, c, was);
    }
  }

  lemma PieceParts(f: File, io: Io, pos: int, data: int, c: int)
    requires ValidFile(f) && 0 <= pos && PieceAt(io, f, pos, data, c)
    ensures 0 < io.length && io.data == data && io.ctx == c
  {
  }
}
