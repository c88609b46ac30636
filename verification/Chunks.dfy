/** Files as chunks on storage chains, and the in-memory chunk store
    (src/client/storage/StorageClientInMem.cc). */
module Chunks {
  import opened Prelude

  newtype Byte = b: int | 0 <= b < 256

  /** What the layout of a file gives: the chunk size, and for every chunk index the chain
      that stores it, or None when the routing information does not know the chain. */
  datatype File = File(inode: int, chunkSize: int, route: int -> Option<int>)

  /** A chunk on a chain. */
  datatype Key = Key(chain: int, inode: int, chunk: int)

  datatype ChunkData = ChunkData(content: seq<Byte>, capacity: int, version: int)

  /** The chunks of all chains; `faulty` holds the chains with an injected error. */
  datatype Store = Store(chunks: map<Key, ChunkData>, faulty: set<int>)

  datatype IoResult = Len(n: int) | Err(code: int)

  const CHUNK_NOT_FOUND: int := 7007
  const INVALID_ARG: int := 7002
  const NOT_INITIALIZED: int := 7003

  /** One read or write of a piece of a chunk; `data` is the address of its buffer and
      `ctx` the request it belongs to. */
  datatype Io = Io(key: Key, offset: int, length: int, chunkSize: int, data: int, ctx: int)

  // ---------- positions ----------

  function ChunkOf(pos: int, cs: int): (c: int)
    requires 0 <= pos && 0 < cs
    ensures 0 <= c
  {
    pos / cs
  }

  function OffsetIn(pos: int, cs: int): (o: int)
    requires 0 <= pos && 0 < cs
    ensures 0 <= o < cs
  {
    pos % cs
  }

  lemma MulAtLeast(n: int, d: int)
    requires 0 < n && 1 <= d
    ensures n <= n * d
  {
  }

  lemma DivUnique(n: int, q: int, r: int, q': int, r': int)
    requires 0 <= r < n && 0 <= r' < n && n * q + r == n * q' + r'
    ensures q == q' && r == r'
  {
    assert n * (q' - q) == r - r';
    assert n * (q - q') == r' - r;
    if q < q' { MulAtLeast(n, q' - q); }
    if q' < q { MulAtLeast(n, q - q'); }
  }

  /** Moving `i` bytes on without leaving the chunk. */
  lemma SameChunk(pos: int, i: int, cs: int)
    requires 0 <= pos && 0 <= i && 0 < cs && OffsetIn(pos, cs) + i < cs
    ensures ChunkOf(pos + i, cs) == ChunkOf(pos, cs) && OffsetIn(pos + i, cs) == OffsetIn(pos, cs) + i
  {
    DivUnique(cs, pos / cs, pos % cs + i, (pos + i) / cs, (pos + i) % cs);
  }

  /** Stepping over the end of the chunk lands at the start of the next one. */
  lemma NextChunk(pos: int, cs: int)
    requires 0 <= pos && 0 < cs
    ensures var pos' := pos + (cs - OffsetIn(pos, cs));
      ChunkOf(pos', cs) == ChunkOf(pos, cs) + 1 && OffsetIn(pos', cs) == 0
  {
    var pos' := pos + (cs - pos % cs);
    assert pos' == cs * (pos / cs + 1);
    DivUnique(cs, pos / cs + 1, 0, pos' / cs, pos' % cs);
  }

  /** A position is determined by its chunk and its offset. */
  lemma PositionUnique(pos: int, pos': int, cs: int)
    requires 0 <= pos && 0 <= pos' && 0 < cs
    requires ChunkOf(pos, cs) == ChunkOf(pos', cs)
    ensures pos' - pos == OffsetIn(pos', cs) - OffsetIn(pos, cs)
  {
  }

  // ---------- the sparse file a store holds ----------

  predicate ValidFile(f: File) { 0 < f.chunkSize }

  function ChunkKey(f: File, chunk: int): Option<Key> {
    var chain := f.route(chunk);
    if chain.None? then None else Some(Key(chain.value, f.inode, chunk))
  }

  /** The stored byte at `pos`, or None in a hole or past the end. */
  function Stored(st: Store, f: File, pos: int): Option<Byte>
    requires ValidFile(f) && 0 <= pos
  {
    var key := ChunkKey(f, ChunkOf(pos, f.chunkSize));
    if key.Some? && key.value in st.chunks && OffsetIn(pos, f.chunkSize) < |st.chunks[key.value].content|
    then Some(st.chunks[key.value].content[OffsetIn(pos, f.chunkSize)])
    else None
  }

  // ---------- store operations ----------

  /** How many bytes a read of a chunk returns. */
  function ReadLength(content: seq<Byte>, offset: int, length: int): int {
    if |content| < offset then 0 else Min(length, |content| - offset)
  }

  function ReadResult(st: Store, io: Io): IoResult {
    if io.key !in st.chunks then Err(CHUNK_NOT_FOUND)
    else Len(ReadLength(st.chunks[io.key].content, io.offset, io.length))
  }

  /** `data` placed over `base` from `at` on. */
  function Overlay(base: seq<Byte>, at: int, data: seq<Byte>): (r: seq<Byte>)
    requires 0 <= at && at + |data| <= |base|
    ensures |r| == |base|
    ensures forall i :: 0 <= i < |base| ==> r[i] == if at <= i < at + |data| then data[i - at] else base[i]
  {
    base[..at] + data + base[at + |data|..]
  }

  function Zeros(n: int): (z: seq<Byte>)
    ensures |z| == (if n < 0 then 0 else n) && forall i :: 0 <= i < |z| ==> z[i] == 0
  {
    seq(if n < 0 then 0 else n, _ => 0)
  }

  /** `std::vector::resize` that only grows, filling with zeros. */
  function Grow(content: seq<Byte>, size: int): (r: seq<Byte>)
    ensures |r| == Max(|content|, size)
    ensures forall i :: 0 <= i < |r| ==> r[i] == if i < |content| then content[i] else 0
  {
    content + Zeros(size - |content|)
  }

  predicate WriteAccepted(st: Store, io: Io) {
    && io.offset + io.length <= io.chunkSize
    && io.key.chain !in st.faulty
    && (io.key in st.chunks ==> st.chunks[io.key].capacity == io.chunkSize)
  }

  function WriteResult(st: Store, io: Io): IoResult {
    if io.offset + io.length > io.chunkSize then Err(INVALID_ARG)
    else if io.key.chain in st.faulty then Err(NOT_INITIALIZED)
    else if io.key in st.chunks && st.chunks[io.key].capacity != io.chunkSize then Err(INVALID_ARG)
    else Len(io.length)
  }

  /** The chunk after a write of `bytes`. */
  function WrittenChunk(st: Store, io: Io, bytes: seq<Byte>): ChunkData
    requires 0 <= io.offset
  {
    var was := if io.key in st.chunks then st.chunks[io.key] else ChunkData([], io.chunkSize, 0);
    ChunkData(Overlay(Grow(was.content, io.offset + |bytes|), io.offset, bytes), was.capacity, was.version + 1)
  }

  function AfterWrite(st: Store, io: Io, bytes: seq<Byte>): Store
    requires 0 <= io.offset
  {
    if WriteAccepted(st, io) then st.(chunks := st.chunks[io.key := WrittenChunk(st, io, bytes)]) else st
  }
}
