/** Splitting a byte range of a file into pieces of chunks (src/fuse/PioV.cc, chunkIo). */
module ChunkSplit {
  import opened Prelude
  import opened Chunks

  const ROUTING_INFO_NOT_READY: int := 6004
  const FILE_TOO_LARGE: int := 3102
  const MAX_CHUNK: int := 0xFFFF_FFFF

  /** The pieces added so far, and the error that stopped the split, if any. */
  datatype Pieces = Pieces(ios: seq<Io>, error: Option<int>)

  /** The largest piece: the configured limit, or the whole chunk when there is none. The limit
      is converted to an unsigned size, so a negative one is larger than any chunk. */
  function PieceLimit(lim: int, chunkSize: int): (rcs: int)
    requires 0 < chunkSize
    ensures 0 < rcs <= chunkSize
  {
    if lim <= 0 then chunkSize else Min(lim, chunkSize)
  }

  /** `len` bytes of one chunk from `offset` on, in pieces of at most `rcs` bytes. */
  function ChunkPieces(key: Key, cs: int, offset: int, data: int, len: int, rcs: int, ctx: int): seq<Io>
    requires 0 < rcs
    decreases if len < 0 then 0 else len
  {
    if len <= 0 then []
    else
      var l := Min(rcs, len);
      [Io(key, offset, l, cs, data, ctx)] + ChunkPieces(key, cs, offset + l, data + l, len - l, rcs, ctx)
  }

  /** The chunk that holds `pos`, or why it cannot be addressed. */
  function Locate(f: File, pos: int): (r: (Option<Key>, int))
    requires ValidFile(f) && 0 <= pos
    ensures r.0.Some? ==> ChunkKey(f, ChunkOf(pos, f.chunkSize)) == r.0
  {
    var chunk := ChunkOf(pos, f.chunkSize);
    var key := ChunkKey(f, chunk);
    if key.None? then (None, ROUTING_INFO_NOT_READY)
    else if chunk > MAX_CHUNK then (None, FILE_TOO_LARGE)
    else (key, 0)
  }

  /** The split of `len` bytes at `pos`, chunk by chunk. Even an empty range looks up its chunk. */
  function Split(f: File, pos: int, data: int, len: int, rcs: int, ctx: int): Pieces
    requires ValidFile(f) && 0 <= pos && 0 <= len && 0 < rcs
    decreases len
  {
    var (key, code) := Locate(f, pos);
    if key.None? then Pieces([], Some(code))
    else
      var offset := OffsetIn(pos, f.chunkSize);
      var l := Min(f.chunkSize - offset, len);
      var here := ChunkPieces(key.value, f.chunkSize, offset, data, l, rcs, ctx);
      if l == len then Pieces(here, None)
      else
        var rest := Split(f, pos + l, data + l, len - l, rcs, ctx);
        Pieces(here + rest.ios, rest.error)
  }

  // ---------- what a complete split is ----------

  /** `io` reads or writes the bytes of `f` from `pos` on, inside one chunk. */
  ghost predicate PieceAt(io: Io, f: File, pos: int, data: int, ctx: int)
    requires ValidFile(f) && 0 <= pos
  {
    && 0 < io.length
    && ChunkKey(f, ChunkOf(pos, f.chunkSize)) == Some(io.key)
    && io.offset == OffsetIn(pos, f.chunkSize) && io.offset + io.length <= f.chunkSize == io.chunkSize
    && io.data == data && io.ctx == ctx
  }

  /** The pieces cover `len` bytes from `pos` and from buffer address `data` on, in order and without gaps. */
  ghost predicate Tiles(ios: seq<Io>, f: File, pos: int, data: int, len: int, ctx: int)
    requires ValidFile(f) && 0 <= pos
    decreases |ios|
  {
    if ios == [] then len == 0
    else
      && PieceAt(ios[0], f, pos, data, ctx)
      && ios[0].length <= len
      && Tiles(ios[1..], f, pos + ios[0].length, data + ios[0].length, len - ios[0].length, ctx)
  }

  lemma {:induction false} TilesAppend(a: seq<Io>, b: seq<Io>, f: File, pos: int, data: int, len: int, more: int,
                                       ctx: int)
    requires ValidFile(f) && 0 <= pos && 0 <= len && 0 <= more
    requires Tiles(a, f, pos, data, len, ctx) && Tiles(b, f, pos + len, data + len, more, ctx)
    ensures Tiles(a + b, f, pos, data, len + more, ctx)
    decreases |a|
  {
    hide ChunkOf, OffsetIn;
    if a == [] {
      assert a + b == b;
    } else {
      assert (a + b)[1..] == a[1..] + b;
      TilesAppend(a[1..], b, f, pos + a[0].length, data + a[0].length, len - a[0].length, more, ctx);
    }
  }

  lemma {:induction false} ChunkPiecesTile(f: File, key: Key, pos: int, data: int, len: int, rcs: int, ctx: int)
    requires ValidFile(f) && 0 <= pos && 0 <= len && 0 < rcs
    requires ChunkKey(f, ChunkOf(pos, f.chunkSize)) == Some(key)
    requires OffsetIn(pos, f.chunkSize) + len <= f.chunkSize
    ensures Tiles(ChunkPieces(key, f.chunkSize, OffsetIn(pos, f.chunkSize), data, len, rcs, ctx), f, pos, data, len,
                  ctx)
    decreases len
  {
    hide ChunkOf, OffsetIn;
    var l := Min(rcs, len);
    if l < len {
      SameChunk(pos, l, f.chunkSize);
      ChunkPiecesTile(f, key, pos + l, data + l, len - l, rcs, ctx);
    }
  }

  /** The bytes of the range before the first chunk that cannot be addressed. */
  function Addressable(f: File, pos: int, len: int): (n: int)
    requires ValidFile(f) && 0 <= pos && 0 <= len
    ensures 0 <= n <= len
    decreases len
  {
    if Locate(f, pos).0.None? then 0
    else
      var l := Min(f.chunkSize - OffsetIn(pos, f.chunkSize), len);
      if l == len then len else l + Addressable(f, pos + l, len - l)
  }

  lemma NoTiles(f: File, pos: int, data: int, ctx: int)
    requires ValidFile(f) && 0 <= pos
    ensures Tiles([], f, pos, data, 0, ctx)
  {
  }

  /** A split covers exactly the range up to the first chunk that cannot be addressed, whatever the piece limit, and
      says why it stopped there. */
  lemma {:induction false} SplitCovers(f: File, pos: int, data: int, len: int, rcs: int, ctx: int)
    requires ValidFile(f) && 0 <= pos && 0 <= len && 0 < rcs
    ensures var split, n := Split(f, pos, data, len, rcs, ctx), Addressable(f, pos, len);
      && Tiles(split.ios, f, pos, data, n, ctx)
      && if split.error.None? then n == len && Locate(f, pos).0.Some?
         else (n < len || len == 0) && Locate(f, pos + n) == (None, split.error.value)
    decreases len
  {
    hide ChunkOf, OffsetIn, Tiles, ChunkPieces, Locate;
    NoTiles(f, pos, data, ctx);
    if Locate(f, pos).0.Some? {
      var key := Locate(f, pos).0.value;
      var offset := OffsetIn(pos, f.chunkSize);
      var l := Min(f.chunkSize - offset, len);
      ChunkPiecesTile(f, key, pos, data, l, rcs, ctx);
      if l < len {
        SplitCovers(f, pos + l, data + l, len - l, rcs, ctx);
        TilesAppend(ChunkPieces(key, f.chunkSize, offset, data, l, rcs, ctx),
                    Split(f, pos + l, data + l, len - l, rcs, ctx).ios,
                    f, pos, data, l, Addressable(f, pos + l, len - l), ctx);
      }
    }
  }

  /** Every position before the first that cannot be addressed can be. */
  lemma {:induction false} AddressableIs(f: File, pos: int, len: int, p: int)
    requires ValidFile(f) && 0 <= pos && 0 <= len && pos <= p < pos + Addressable(f, pos, len)
    ensures Locate(f, p).0.Some?
    decreases len
  {
    hide ChunkOf, OffsetIn;
    var l := Min(f.chunkSize - OffsetIn(pos, f.chunkSize), len);
    if p < pos + l { SameChunk(pos, p - pos, f.chunkSize); } else { AddressableIs(f, pos + l, len - l, p); }
  }

  /** The split fails exactly when some chunk of the range cannot be addressed; an empty range still
      needs the chunk at its offset. */
  lemma {:induction false} SplitFailsIff(f: File, pos: int, data: int, len: int, rcs: int, ctx: int)
    requires ValidFile(f) && 0 <= pos && 0 <= len && 0 < rcs
    ensures Split(f, pos, data, len, rcs, ctx).error.Some?
       <==> exists p :: pos <= p < pos + Max(len, 1) && Locate(f, p).0.None?
    decreases len
  {
    hide ChunkOf, OffsetIn;
    var offset := OffsetIn(pos, f.chunkSize);
    var l := Min(f.chunkSize - offset, len);
    forall p | pos <= p < pos + Max(l, 1) ensures Locate(f, p) == Locate(f, pos) {
      SameChunk(pos, p - pos, f.chunkSize);
    }
    if Locate(f, pos).0.Some? && l < len {
      SplitFailsIff(f, pos + l, data + l, len - l, rcs, ctx);
      if p :| pos <= p < pos + len && Locate(f, p).0.None? {
        assert pos + l <= p;
      }
    }
  }

  /** The inner loop of `chunkIo`. */
  method ConsumeChunk(key: Key, cs: int, chunkOff: int, data: int, chunkLen: int, rcs: int, ctx: int)
    returns (ios: seq<Io>)
    requires 0 < rcs
    ensures ios == ChunkPieces(key, cs, chunkOff, data, chunkLen, rcs, ctx)
  {
    ios := [];
    var co := 0;
    while co < chunkLen
      invariant 0 <= co
      invariant ios + ChunkPieces(key, cs, chunkOff + co, data + co, chunkLen - co, rcs, ctx)
             == ChunkPieces(key, cs, chunkOff, data, chunkLen, rcs, ctx)
    {
      ios := ios + [Io(key, chunkOff + co, Min(rcs, chunkLen - co), cs, data + co, ctx)];
      co := co + rcs;
    }
  }

  /** The outer loop of `chunkIo`, one chunk per turn. */
  method ChunkIo(f: File, off: int, len: int, lim: int, data: int, ctx: int) returns (pieces: Pieces)
    requires ValidFile(f) && 0 <= off && 0 <= len
    ensures pieces == Split(f, off, data, len, PieceLimit(lim, f.chunkSize), ctx)
  {
    hide ChunkOf, OffsetIn;
    var chunkOff := OffsetIn(off, f.chunkSize);
    var rcs := PieceLimit(lim, f.chunkSize);
    var ios: seq<Io> := [];
    var lastL, l := 0, Min(f.chunkSize - chunkOff, len);
    ghost var whole := Split(f, off, data, len, rcs, ctx);
    ghost var finished := false;
    while l < len + f.chunkSize
      invariant 0 <= lastL <= len && 0 <= chunkOff < f.chunkSize
      invariant finished ==> l >= len + f.chunkSize && whole == Pieces(ios, None)
      invariant !finished ==>
        && l < len + f.chunkSize
        && chunkOff == OffsetIn(off + lastL, f.chunkSize)
        && Min(l, len) == lastL + Min(f.chunkSize - chunkOff, len - lastL)
        && var rest := Split(f, off + lastL, data + lastL, len - lastL, rcs, ctx);
           whole == Pieces(ios + rest.ios, rest.error)
      decreases !finished, len - lastL
    {
      l := Min(l, len);
      var opOff := off + lastL;
      var (key, code) := Locate(f, opOff);
      if key.None? { return Pieces(ios, Some(code)); }
      var chunkLen := l - lastL;
      ghost var before := ios;
      var here := ConsumeChunk(key.value, f.chunkSize, chunkOff, data + lastL, chunkLen, rcs, ctx);
      ios := ios + here;
      assert forall more: seq<Io> :: before + (here + more) == ios + more;
      finished := l == len;
      NextChunk(off + lastL, f.chunkSize);
      chunkOff := 0;
      lastL := l;
      l := l + f.chunkSize;
    }
    return Pieces(ios, None);
  }
}
