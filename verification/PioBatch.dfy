/** A batch of reads as the client sees it: what it reports and what its buffers hold
    (src/fuse/PioV.cc over src/client/storage/StorageClientInMem.cc). */
module PioBatch {
  import opened Prelude
  import opened Chunks
  import opened ChunkSplit
  import opened Stitch
  import opened StitchRead
  import opened StitchTally
  import opened StitchBatch
  import opened PioRead

  /** A read or write of a range; `lookup` is the error of looking up its file or buffer, if that failed. */
  datatype Request = Request(file: File, off: int, len: int, buf: int, lookup: Option<int>)

  predicate ValidRequest(r: Request) {
    && ValidFile(r.file) && 0 <= r.off && 0 <= r.len && 0 <= r.buf
    && (r.lookup.Some? ==> 0 < r.lookup.value)
  }

  predicate ValidRequests(reqs: seq<Request>) { forall j :: 0 <= j < |reqs| ==> ValidRequest(reqs[j]) }

  function PiecesOf(r: Request, lim: int, j: int): Pieces
    requires ValidRequest(r)
  {
    if r.lookup.Some? then Pieces([], r.lookup)
    else Split(r.file, r.off, r.buf, r.len, PieceLimit(lim, r.file.chunkSize), j)
  }

  /** The bytes of the request that its pieces cover: up to the first chunk that cannot be addressed. */
  function Served(r: Request): (n: int)
    requires ValidRequest(r)
    ensures 0 <= n <= r.len
  {
    if r.lookup.Some? then 0 else Addressable(r.file, r.off, r.len)
  }

  /** Why the request fails before anything is read or written, if it does. */
  function Failure(r: Request): (code: Option<int>)
    requires ValidRequest(r)
    ensures code.Some? ==> 0 < code.value
    ensures code.None? ==> Served(r) == r.len
  {
    if r.lookup.Some? then r.lookup
    else if Served(r) == r.len != 0 then None
    else
      var (key, code) := Locate(r.file, r.off + Served(r));
      if key.None? then Some(code) else StopsThere(r); None
  }

  lemma StopsThere(r: Request)
    requires ValidRequest(r) && r.lookup.None?
    ensures Served(r) < r.len ==> Locate(r.file, r.off + Served(r)).0.None?
  {
    SplitCovers(r.file, r.off, r.buf, r.len, r.file.chunkSize, 0);
  }

  /** What a request reports before the scan: nothing yet, or the error it failed with. */
  function Preset(r: Request): (n: int)
    requires ValidRequest(r)
    ensures n <= 0 && (n < 0 <==> Failure(r).Some?)
  {
    if Failure(r).Some? then -Failure(r).value else 0
  }

  function Presets(reqs: seq<Request>): (r: seq<int>)
    requires ValidRequests(reqs)
    ensures |r| == |reqs| && forall j :: 0 <= j < |reqs| ==> r[j] == Preset(reqs[j])
  {
    seq(|reqs|, j requires 0 <= j < |reqs| => Preset(reqs[j]))
  }

  /** The pieces of a request, whatever the piece limit. */
  lemma RequestTiles(r: Request, lim: int, j: int)
    requires ValidRequest(r)
    ensures Tiles(PiecesOf(r, lim, j).ios, r.file, r.off, r.buf, Served(r), j)
    ensures PiecesOf(r, lim, j).error == Failure(r)
  {
    hide Split, Locate, Addressable;
    if r.lookup.None? { SplitCovers(r.file, r.off, r.buf, r.len, PieceLimit(lim, r.file.chunkSize), j); }
  }

  /** The pieces of the first `m` requests. */
  function Pieced(reqs: seq<Request>, lim: int, m: int): seq<Io>
    requires ValidRequests(reqs) && 0 <= m <= |reqs|
    decreases m
  {
    if m == 0 then [] else Pieced(reqs, lim, m - 1) + PiecesOf(reqs[m - 1], lim, m - 1).ios
  }

  function SpanOf(reqs: seq<Request>, lim: int, j: int): Span
    requires ValidRequests(reqs) && 0 <= j < |reqs|
  {
    Span(|Pieced(reqs, lim, j)|, |Pieced(reqs, lim, j + 1)|, reqs[j].buf)
  }

  function Spans(reqs: seq<Request>, lim: int): (r: seq<Span>)
    requires ValidRequests(reqs)
    ensures |r| == |reqs| && forall j :: 0 <= j < |reqs| ==> r[j] == SpanOf(reqs, lim, j)
  {
    seq(|reqs|, j requires 0 <= j < |reqs| => SpanOf(reqs, lim, j))
  }

  lemma {:induction false} PiecedPrefix(reqs: seq<Request>, lim: int, m: int, n: int)
    requires ValidRequests(reqs) && 0 <= m <= n <= |reqs|
    ensures Pieced(reqs, lim, m) <= Pieced(reqs, lim, n)
    decreases n
  {
    hide PiecesOf;
    if m < n { PiecedPrefix(reqs, lim, m, n - 1); }
  }

  /** The pieces of request `j` inside the whole batch. */
  lemma OwnPieces(reqs: seq<Request>, lim: int, j: int)
    requires ValidRequests(reqs) && 0 <= j < |reqs|
    ensures var sp := SpanOf(reqs, lim, j);
      && 0 <= sp.lo <= sp.hi <= |Pieced(reqs, lim, |reqs|)|
      && Pieced(reqs, lim, |reqs|)[sp.lo..sp.hi] == PiecesOf(reqs[j], lim, j).ios
  {
    hide PiecesOf;
    PiecedPrefix(reqs, lim, j, |reqs|);
    PiecedPrefix(reqs, lim, j + 1, |reqs|);
    var all, upTo := Pieced(reqs, lim, |reqs|), Pieced(reqs, lim, j + 1);
    assert all[..|upTo|] == upTo;
  }

  /** The distance from the buffer of a request to its place in the file. */
  function Shift(r: Request): int { r.off - r.buf }

  /** What the pieces of request `j` do, whatever the memory held before. */
  lemma RequestReads(st: Store, reqs: seq<Request>, lim: int, j: int, was: seq<Byte>)
    requires ValidRequests(reqs) && 0 <= j < |reqs|
    requires ValidIos(Pieced(reqs, lim, |reqs|), |was|)
    ensures var ios, sp, r := Pieced(reqs, lim, |reqs|), SpanOf(reqs, lim, j), reqs[j];
      && Owns(ios, sp, j) && End(ios, sp.lo, sp.hi, sp.base) == r.buf + Served(r)
      && ReadsFile(st, r.file, Shift(r), ios, ReadResults(st, ios), sp.lo, sp.hi, sp.base)
      && Copied(st, r.file, Shift(r), r.buf, r.buf + Served(r), was, CopyIn(st, ios, sp.lo, sp.hi, was))
  {
    hide Pieced, Tiles, PiecesOf, Stored, Served;
    var ios, sp, r := Pieced(reqs, lim, |reqs|), SpanOf(reqs, lim, j), reqs[j];
    OwnPieces(reqs, lim, j);
    RequestTiles(r, lim, j);
    TilesRead(st, r.file, Shift(r), ios, sp.lo, sp.lo, sp.hi, r.buf, r.buf + Served(r), j, was);
  }

  lemma {:induction false} SpansInOrder(reqs: seq<Request>, lim: int, m: int)
    requires ValidRequests(reqs) && 0 <= m <= |reqs|
    ensures InOrder(Spans(reqs, lim), m) && Cut(Spans(reqs, lim), m) == |Pieced(reqs, lim, m)|
    decreases m
  {
    hide PiecesOf;
    if m > 0 { SpansInOrder(reqs, lim, m - 1); }
  }

  lemma PiecedIsBatch(st: Store, reqs: seq<Request>, lim: int, mem: seq<Byte>)
    requires ValidRequests(reqs) && ValidIos(Pieced(reqs, lim, |reqs|), |mem|)
    ensures Batch(Pieced(reqs, lim, |reqs|), Spans(reqs, lim))
  {
    hide Pieced, SpanOf, Owns, ReadsFile, Copied, InOrder, Cut;
    SpansInOrder(reqs, lim, |reqs|);
    forall j | 0 <= j < |reqs| ensures Owns(Pieced(reqs, lim, |reqs|), Spans(reqs, lim)[j], j) {
      RequestReads(st, reqs, lim, j, mem);
    }
  }

  // ---------- the memory ----------

  predicate InBounds(reqs: seq<Request>, size: int) {
    forall j :: 0 <= j < |reqs| ==> reqs[j].buf + reqs[j].len <= size
  }

  predicate OwnedBy(ios: seq<Io>, n: int) { forall k :: 0 <= k < |ios| ==> 0 <= ios[k].ctx < n }

  lemma {:induction false} ChunkPiecesValid(key: Key, cs: int, offset: int, data: int, len: int, rcs: int, c: int,
                                            size: int)
    requires 0 < rcs && 0 <= offset && 0 <= data && data + len <= size && 0 <= c
    ensures ValidIos(ChunkPieces(key, cs, offset, data, len, rcs, c), size)
    ensures OwnedBy(ChunkPieces(key, cs, offset, data, len, rcs, c), c + 1)
    decreases if len < 0 then 0 else len
  {
    if len > 0 {
      var l := Min(rcs, len);
      ChunkPiecesValid(key, cs, offset + l, data + l, len - l, rcs, c, size);
    }
  }

  lemma {:induction false} SplitValid(f: File, pos: int, data: int, len: int, rcs: int, c: int, size: int)
    requires ValidFile(f) && 0 <= pos && 0 <= len && 0 < rcs && 0 <= data && data + len <= size && 0 <= c
    ensures ValidIos(Split(f, pos, data, len, rcs, c).ios, size) && OwnedBy(Split(f, pos, data, len, rcs, c).ios, c + 1)
    decreases len
  {
    hide ChunkOf, OffsetIn, ChunkPieces;
    var key := Locate(f, pos).0;
    if key.Some? {
      var offset := OffsetIn(pos, f.chunkSize);
      var l := Min(f.chunkSize - offset, len);
      ChunkPiecesValid(key.value, f.chunkSize, offset, data, l, rcs, c, size);
      if l < len { SplitValid(f, pos + l, data + l, len - l, rcs, c, size); }
    }
  }

  lemma RequestValid(r: Request, lim: int, j: int, size: int)
    requires ValidRequest(r) && r.buf + r.len <= size && 0 <= j
    ensures ValidIos(PiecesOf(r, lim, j).ios, size) && OwnedBy(PiecesOf(r, lim, j).ios, j + 1)
  {
    hide Split;
    if r.lookup.None? { SplitValid(r.file, r.off, r.buf, r.len, PieceLimit(lim, r.file.chunkSize), j, size); }
  }

  lemma {:induction false} PiecedValid(reqs: seq<Request>, lim: int, m: int, size: int)
    requires ValidRequests(reqs) && InBounds(reqs, size) && 0 <= m <= |reqs|
    ensures ValidIos(Pieced(reqs, lim, m), size) && OwnedBy(Pieced(reqs, lim, m), m)
    decreases m
  {
    hide PiecesOf;
    if m > 0 {
      PiecedValid(reqs, lim, m - 1, size);
      RequestValid(reqs[m - 1], lim, m - 1, size);
    }
  }

  lemma {:induction false} CopyInSplit(st: Store, ios: seq<Io>, a: int, m: int, b: int, mem: seq<Byte>)
    requires ValidIos(ios, |mem|) && 0 <= a <= m <= b <= |ios|
    ensures CopyIn(st, ios, a, b, mem) == CopyIn(st, ios, m, b, CopyIn(st, ios, a, m, mem))
    decreases b - m
  {
    hide ReadBytes, Overlay;
    if m < b { CopyInSplit(st, ios, a, m, b - 1, mem); }
  }

  /** The buffers of different requests share no byte. */
  predicate Separate(reqs: seq<Request>) {
    forall i, j :: 0 <= i < |reqs| && 0 <= j < |reqs| && i != j ==>
      reqs[i].buf + reqs[i].len <= reqs[j].buf || reqs[j].buf + reqs[j].len <= reqs[i].buf
  }

  /** Address `x` of the buffer of request `j` after the first `m` requests were read. */
  lemma {:induction false} BufferCopied(st: Store, reqs: seq<Request>, lim: int, m: int, mem: seq<Byte>, j: int, x: int)
    requires ValidRequests(reqs) && InBounds(reqs, |mem|) && Separate(reqs)
    requires 0 <= m <= |reqs| && 0 <= j < |reqs| && reqs[j].buf <= x < reqs[j].buf + Served(reqs[j])
    requires ValidIos(Pieced(reqs, lim, |reqs|), |mem|) && |Pieced(reqs, lim, m)| <= |Pieced(reqs, lim, |reqs|)|
    ensures var byte := FileByte(st, reqs[j].file, Shift(reqs[j]), x);
      CopyIn(st, Pieced(reqs, lim, |reqs|), 0, |Pieced(reqs, lim, m)|, mem)[x]
      == if j < m && byte.Some? then byte.value else mem[x]
    decreases m
  {
    hide Pieced, Stored, ReadsFile, Owns, CopyIn, PiecesOf, FileByte, Served;
    var ios := Pieced(reqs, lim, |reqs|);
    if m == 0 {
      NothingCopied(st, reqs, lim, mem);
    } else {
      OwnPieces(reqs, lim, m - 1);
      var sp := SpanOf(reqs, lim, m - 1);
      BufferCopied(st, reqs, lim, m - 1, mem, j, x);
      CopyInSplit(st, ios, 0, sp.lo, sp.hi, mem);
      var was := CopyIn(st, ios, 0, sp.lo, mem);
      RequestReads(st, reqs, lim, m - 1, was);
    }
  }

  lemma NothingCopied(st: Store, reqs: seq<Request>, lim: int, mem: seq<Byte>)
    requires ValidRequests(reqs) && ValidIos(Pieced(reqs, lim, |reqs|), |mem|)
    ensures Pieced(reqs, lim, 0) == [] && CopyIn(st, Pieced(reqs, lim, |reqs|), 0, 0, mem) == mem
  {
  }

  // ---------- when a request inherits a hole ----------

  predicate ChunkMissing(st: Store, f: File, pos: int)
    requires ValidFile(f) && 0 <= pos
  {
    var key := ChunkKey(f, ChunkOf(pos, f.chunkSize));
    key.Some? && key.value !in st.chunks
  }

  /** The bytes of the request up to the last stored one. */
  function Found(st: Store, r: Request): (n: int)
    requires ValidRequest(r)
    ensures 0 <= n <= Served(r)
  {
    StoredEnd(st, r.file, r.off, r.off + Served(r)) - r.off
  }

  lemma PastFound(st: Store, r: Request, i: int)
    requires ValidRequest(r) && Found(st, r) <= i < Served(r)
    ensures Stored(st, r.file, r.off + i) == None
  {
  }

  /** The request starts with a missing chunk. */
  predicate StartsMissing(st: Store, r: Request)
    requires ValidRequest(r)
  {
    0 < Served(r) && ChunkMissing(st, r.file, r.off)
  }

  /** The size of the hole that is open behind a request, `hole` being open before it. */
  function HoleAfter(st: Store, r: Request, hole: int): int
    requires ValidRequest(r)
  {
    var n, taken := Found(st, r), if StartsMissing(st, r) then hole else 0;
    if Served(r) == 0 then hole
    else if Failure(r).None? then Served(r) - n + if n == 0 then taken else 0
    else if n == 0 || taken <= 0 then taken
    else if hole < Failure(r).value then 0
    else Served(r) - n
  }

  /** The size of the hole that is open behind the first `m` requests. */
  function HoleBehind(st: Store, reqs: seq<Request>, m: int): int
    requires ValidRequests(reqs) && 0 <= m <= |reqs|
    decreases m
  {
    if m == 0 then 0 else HoleAfter(st, reqs[m - 1], HoleBehind(st, reqs, m - 1))
  }

  /** A hole is open behind the requests before, and this one starts with a missing chunk but holds data further on. */
  predicate InheritsHole(st: Store, reqs: seq<Request>, j: int)
    requires ValidRequests(reqs) && 0 <= j < |reqs|
  {
    0 < HoleBehind(st, reqs, j) && StartsMissing(st, reqs[j]) && 0 < Found(st, reqs[j])
  }

  /** The last request before `j` that asks for any bytes, or -1. */
  function PrevNonEmpty(reqs: seq<Request>, j: int): (i: int)
    requires 0 <= j <= |reqs|
    ensures -1 <= i < j && (0 <= i ==> reqs[i].len != 0)
    decreases j
  {
    if j == 0 then -1 else if reqs[j - 1].len != 0 then j - 1 else PrevNonEmpty(reqs, j - 1)
  }

  /** When the requests before did not fail, a hole is open exactly when the last of them that asked for any bytes ended
      in a hole or past the end of its file. */
  lemma {:induction false} HoleBehindIff(st: Store, reqs: seq<Request>, j: int)
    requires ValidRequests(reqs) && 0 <= j <= |reqs| && forall i :: 0 <= i < j ==> Failure(reqs[i]).None?
    ensures var i := PrevNonEmpty(reqs, j);
      && 0 <= HoleBehind(st, reqs, j)
      && (0 < HoleBehind(st, reqs, j) <==> 0 <= i && Stored(st, reqs[i].file, reqs[i].off + reqs[i].len - 1) == None)
    decreases j
  {
    hide Stored, Served, Failure, StartsMissing;
    if j > 0 { HoleBehindIff(st, reqs, j - 1); }
  }

  lemma ReadOutcomes(st: Store, ios: seq<Io>, size: int)
    requires ValidIos(ios, size)
    ensures Outcomes(ios, ReadResults(st, ios), 0, |ios|)
  {
    forall k | 0 <= k < |ios| ensures 0 <= Got(ReadResult(st, ios[k])) <= ios[k].length {
      assert |ReadBytes(st, ios[k])| == Got(ReadResult(st, ios[k]));
    }
  }

  /** The span of a request in terms of the file. */
  lemma SpanFacts(st: Store, reqs: seq<Request>, lim: int, size: int, j: int)
    requires ValidRequests(reqs) && InBounds(reqs, size) && 0 <= size && 0 <= j < |reqs|
    ensures var ios, sp, r := Pieced(reqs, lim, |reqs|), SpanOf(reqs, lim, j), reqs[j];
      && 0 <= sp.lo <= sp.hi <= |ios| && (sp.lo == sp.hi <==> Served(r) == 0)
      && Count(ios, ReadResults(st, ios), sp) == Found(st, r)
      && End(ios, sp.lo, sp.hi, sp.base) == sp.base + Served(r)
      && (sp.lo < sp.hi ==> (ReadResults(st, ios)[sp.lo].Err? <==> ChunkMissing(st, r.file, r.off)))
  {
    hide Pieced, Stored, Tiles, Segment, Reach, Copied, Covered, Served;
    var ios, sp, r := Pieced(reqs, lim, |reqs|), SpanOf(reqs, lim, j), reqs[j];
    PiecedValid(reqs, lim, |reqs|, size);
    RequestReads(st, reqs, lim, j, Zeros(size));
    ReadOutcomes(st, ios, size);
    ReachBounds(ios, ReadResults(st, ios), sp.lo, sp.hi, j, sp.base);
    if sp.lo < sp.hi {
      assert ReadResults(st, ios)[sp.lo].Err? <==> ChunkMissing(st, r.file, r.off) by { FirstPiece(reqs, lim, j); }
    }
  }

  lemma FirstPiece(reqs: seq<Request>, lim: int, j: int)
    requires ValidRequests(reqs) && 0 <= j < |reqs|
    requires SpanOf(reqs, lim, j).lo < SpanOf(reqs, lim, j).hi
    ensures SpanOf(reqs, lim, j).lo < |Pieced(reqs, lim, |reqs|)|
    ensures Some(Pieced(reqs, lim, |reqs|)[SpanOf(reqs, lim, j).lo].key)
         == ChunkKey(reqs[j].file, ChunkOf(reqs[j].off, reqs[j].file.chunkSize))
  {
    hide Pieced, PiecesOf, ChunkOf, ChunkKey, Served;
    var sp := SpanOf(reqs, lim, j);
    OwnPieces(reqs, lim, j);
    RequestTiles(reqs[j], lim, j);
    assert Pieced(reqs, lim, |reqs|)[sp.lo..sp.hi][0] == Pieced(reqs, lim, |reqs|)[sp.lo];
  }

  // ---------- main results ----------

  /** A batch of reads over a healthy store: pieces, store and stitching together. */
  function ReadOutcome(st: Store, reqs: seq<Request>, lim: int, mem: seq<Byte>): (s: Scan)
    requires ValidRequests(reqs) && InBounds(reqs, |mem|)
    ensures |s.res| == |reqs| && |s.mem| == |mem|
  {
    PiecedValid(reqs, lim, |reqs|, |mem|);
    var ios := Pieced(reqs, lim, |reqs|);
    ReadBatch(ios, ReadResults(st, ios), Presets(reqs), CopyIn(st, ios, 0, |ios|, mem))
  }

  /** The pieces are a batch without failed ones. */
  ghost predicate ReadSetting(st: Store, reqs: seq<Request>, lim: int)
    requires ValidRequests(reqs)
  {
    var ios := Pieced(reqs, lim, |reqs|);
    && ScanSetting(ios, ReadResults(st, ios), Spans(reqs, lim), Presets(reqs))
    && Outcomes(ios, ReadResults(st, ios), 0, |ios|)
  }

  lemma PiecedSetting(st: Store, reqs: seq<Request>, lim: int, mem: seq<Byte>)
    requires ValidRequests(reqs) && InBounds(reqs, |mem|)
    ensures ValidIos(Pieced(reqs, lim, |reqs|), |mem|) && ReadSetting(st, reqs, lim)
  {
    hide Pieced, Batch, SpanOf, Preset;
    PiecedValid(reqs, lim, |reqs|, |mem|);
    PiecedIsBatch(st, reqs, lim, mem);
    ReadOutcomes(st, Pieced(reqs, lim, |reqs|), |mem|);
  }

  lemma BehindIsHoleAfter(st: Store, reqs: seq<Request>, lim: int, size: int, j: int, hole: int)
    requires ValidRequests(reqs) && InBounds(reqs, size) && 0 <= size && 0 <= j < |reqs| && 0 <= hole
    requires ReadSetting(st, reqs, lim)
    ensures var ios, sp := Pieced(reqs, lim, |reqs|), SpanOf(reqs, lim, j);
      && InRange(ios, ReadResults(st, ios), sp)
      && Behind(ios, ReadResults(st, ios), sp, Preset(reqs[j]), hole) == HoleAfter(st, reqs[j], hole)
  {
    hide Pieced, SpanOf, Count, Found, Served, Failure, ChunkMissing, End, Segment, FirstData, DataAt;
    SpanFacts(st, reqs, lim, size, j);
    assert Spans(reqs, lim)[j] == SpanOf(reqs, lim, j);
    CountFacts(Pieced(reqs, lim, |reqs|), ReadResults(st, Pieced(reqs, lim, |reqs|)), Spans(reqs, lim)[j], j);
  }

  lemma NextCarried(st: Store, reqs: seq<Request>, lim: int, m: int)
    requires ValidRequests(reqs) && 0 < m <= |reqs| && ReadSetting(st, reqs, lim)
    ensures var ios := Pieced(reqs, lim, |reqs|);
      var results, spans, presets := ReadResults(st, ios), Spans(reqs, lim), Presets(reqs);
      var hole := Carried(ios, results, spans, presets, m - 1);
      0 <= Carried(ios, results, spans, presets, m)
        == Behind(ios, results, SpanOf(reqs, lim, m - 1), Preset(reqs[m - 1]), hole)
  {
    hide Pieced, SpanOf, Preset, Segment, ReadResults, TallyOf, Carried, Behind;
    var ios := Pieced(reqs, lim, |reqs|);
    assert Spans(reqs, lim)[m - 1] == SpanOf(reqs, lim, m - 1) && Presets(reqs)[m - 1] == Preset(reqs[m - 1]);
    CarriedNext(ios, ReadResults(st, ios), Spans(reqs, lim), Presets(reqs), m);
  }

  lemma {:induction false} CarriedIsHoleBehind(st: Store, reqs: seq<Request>, lim: int, size: int, m: int)
    requires ValidRequests(reqs) && InBounds(reqs, size) && 0 <= size && 0 <= m <= |reqs|
    requires ReadSetting(st, reqs, lim)
    ensures var ios := Pieced(reqs, lim, |reqs|);
      0 <= Carried(ios, ReadResults(st, ios), Spans(reqs, lim), Presets(reqs), m) == HoleBehind(st, reqs, m)
    decreases m
  {
    hide Pieced, Spans, SpanOf, Behind, HoleAfter, Presets, Preset, ReadResults, TallyOf, ReadSetting, InBounds;
    if m > 0 {
      CarriedIsHoleBehind(st, reqs, lim, size, m - 1);
      BehindIsHoleAfter(st, reqs, lim, size, m - 1, HoleBehind(st, reqs, m - 1));
      NextCarried(st, reqs, lim, m);
    }
  }

  lemma TaintedIsInherited(st: Store, reqs: seq<Request>, lim: int, size: int, j: int)
    requires ValidRequests(reqs) && InBounds(reqs, size) && 0 <= size && 0 <= j < |reqs|
    requires ReadSetting(st, reqs, lim)
    ensures var ios := Pieced(reqs, lim, |reqs|);
      var hole := Carried(ios, ReadResults(st, ios), Spans(reqs, lim), Presets(reqs), j);
      && hole == HoleBehind(st, reqs, j)
      && (Tainted(ReadResults(st, ios), Spans(reqs, lim)[j], hole) <==> InheritsHole(st, reqs, j))
  {
    hide Pieced, SpanOf, Count, Found, Served, ChunkMissing, Carried, HoleBehind, Segment, FirstData, DataAt;
    CarriedIsHoleBehind(st, reqs, lim, size, j);
    SpanFacts(st, reqs, lim, size, j);
    assert Spans(reqs, lim)[j] == SpanOf(reqs, lim, j);
    CountFacts(Pieced(reqs, lim, |reqs|), ReadResults(st, Pieced(reqs, lim, |reqs|)), Spans(reqs, lim)[j], j);
  }

  /** What a request should report: the error it failed with, or the distance to the last stored byte of its range. */
  function Expected(st: Store, r: Request): int
    requires ValidRequest(r)
  {
    if Failure(r).Some? then -Failure(r).value else Found(st, r)
  }

  /** Whatever the piece limit and whatever requests fail beforehand, every request reports what it should exactly
      when it does not inherit a hole; otherwise the hole is added to the count, or to the negative error code. */
  lemma ReadCounts(st: Store, reqs: seq<Request>, lim: int, mem: seq<Byte>, j: int)
    requires ValidRequests(reqs) && InBounds(reqs, |mem|) && 0 <= j < |reqs|
    ensures var reported := ReadOutcome(st, reqs, lim, mem).res[j];
      var shifted := Expected(st, reqs[j]) + HoleBehind(st, reqs, j);
      && (reported == Expected(st, reqs[j]) <==> !InheritsHole(st, reqs, j))
      && (InheritsHole(st, reqs, j) && (Failure(reqs[j]).None? || shifted < 0) ==> reported == shifted)
      && (InheritsHole(st, reqs, j) && shifted >= 0 ==> reported >= shifted)
  {
    hide Pieced, InheritsHole, Found, ReadBatch, CopyIn, Batch, Count, Tainted, SpanOf, Carried, HoleBehind, Segment,
         DataAt;
    var ios, spans := Pieced(reqs, lim, |reqs|), Spans(reqs, lim);
    PiecedSetting(st, reqs, lim, mem);
    BatchCounts(ios, ReadResults(st, ios), spans, Presets(reqs), CopyIn(st, ios, 0, |ios|, mem), j);
    SpanFacts(st, reqs, lim, |mem|, j);
    TaintedIsInherited(st, reqs, lim, |mem|, j);
    assert spans[j] == SpanOf(reqs, lim, j);
    SpanCount(st, reqs, lim, |mem|, j);
  }

  lemma SpanCount(st: Store, reqs: seq<Request>, lim: int, size: int, j: int)
    requires ValidRequests(reqs) && InBounds(reqs, size) && 0 <= size && 0 <= j < |reqs|
    requires ReadSetting(st, reqs, lim)
    ensures var ios, sp := Pieced(reqs, lim, |reqs|), Spans(reqs, lim)[j];
      DataAt(ios, ReadResults(st, ios), sp) <= sp.base + Count(ios, ReadResults(st, ios), sp)
  {
    hide Pieced, SpanOf, Count, Segment, DataAt;
    CountFacts(Pieced(reqs, lim, |reqs|), ReadResults(st, Pieced(reqs, lim, |reqs|)), Spans(reqs, lim)[j], j);
  }

  lemma SpansDisjoint(st: Store, reqs: seq<Request>, lim: int, mem: seq<Byte>)
    requires ValidRequests(reqs) && Separate(reqs) && ValidIos(Pieced(reqs, lim, |reqs|), |mem|)
    requires Batch(Pieced(reqs, lim, |reqs|), Spans(reqs, lim))
    ensures Disjoint(Pieced(reqs, lim, |reqs|), Spans(reqs, lim))
  {
    hide Pieced, SpanOf, Batch, ReadsFile, Copied, End, Owns, Served;
    var ios, spans := Pieced(reqs, lim, |reqs|), Spans(reqs, lim);
    forall j | 0 <= j < |spans|
      ensures 0 <= spans[j].lo <= spans[j].hi <= |ios|
      ensures End(ios, spans[j].lo, spans[j].hi, spans[j].base) == reqs[j].buf + Served(reqs[j])
      ensures spans[j].base == reqs[j].buf
    {
      OwnPieces(reqs, lim, j);
      RequestReads(st, reqs, lim, j, mem);
      assert spans[j] == SpanOf(reqs, lim, j);
      SpanBase(reqs, lim, j);
    }
  }

  lemma SpanBase(reqs: seq<Request>, lim: int, j: int)
    requires ValidRequests(reqs) && 0 <= j < |reqs|
    ensures SpanOf(reqs, lim, j).base == reqs[j].buf
  {
  }

  lemma NoneTainted(st: Store, reqs: seq<Request>, lim: int, size: int, j: int)
    requires ValidRequests(reqs) && InBounds(reqs, size) && 0 <= size && 0 <= j < |reqs|
    requires ReadSetting(st, reqs, lim)
    requires forall k :: j < k < |reqs| ==> !InheritsHole(st, reqs, k)
    ensures var ios := Pieced(reqs, lim, |reqs|);
      forall k :: j < k < |reqs| ==>
        !Tainted(ReadResults(st, ios), Spans(reqs, lim)[k],
                 Carried(ios, ReadResults(st, ios), Spans(reqs, lim), Presets(reqs), k))
  {
    hide Pieced, SpanOf, Carried, Tainted, InheritsHole, Segment;
    var ios, spans := Pieced(reqs, lim, |reqs|), Spans(reqs, lim);
    forall k | j < k < |reqs|
      ensures !Tainted(ReadResults(st, ios), spans[k], Carried(ios, ReadResults(st, ios), spans, Presets(reqs), k))
    {
      TaintedIsInherited(st, reqs, lim, size, k);
    }
  }

  /** The bytes of every request that did not fail, whether or not any request inherits a hole: up to the last stored
      one they are the stored ones, or zero in a hole. The rest of its buffer is left alone if no later request
      inherits a hole. */
  lemma ReadBytesRight(st: Store, reqs: seq<Request>, lim: int, mem: seq<Byte>, j: int, i: int)
    requires ValidRequests(reqs) && InBounds(reqs, |mem|) && Separate(reqs)
    requires 0 <= j < |reqs| && Failure(reqs[j]).None? && 0 <= i < reqs[j].len
    ensures var r := reqs[j];
      var byte, stored := ReadOutcome(st, reqs, lim, mem).mem[r.buf + i], Stored(st, r.file, r.off + i);
      if i < Found(st, r) then byte == if stored.Some? then stored.value else 0
      else (forall k :: j < k < |reqs| ==> !InheritsHole(st, reqs, k)) ==> byte == mem[r.buf + i]
  {
    hide Pieced, InheritsHole, Found, ReadBatch, CopyIn, Tainted, SpanOf, Stored, Segment, Reach, Covered, ReadResults,
         Carried, Count;
    var r, x := reqs[j], reqs[j].buf + i;
    var ios, spans := Pieced(reqs, lim, |reqs|), Spans(reqs, lim);
    PiecedSetting(st, reqs, lim, mem);
    SpansDisjoint(st, reqs, lim, mem);
    if forall k :: j < k < |reqs| ==> !InheritsHole(st, reqs, k) { NoneTainted(st, reqs, lim, |mem|, j); }
    SpanFacts(st, reqs, lim, |mem|, j);
    RequestReads(st, reqs, lim, j, mem);
    SpanBase(reqs, lim, j);
    assert spans[j] == SpanOf(reqs, lim, j);
    BatchBytes(ios, ReadResults(st, ios), spans, Presets(reqs), CopyIn(st, ios, 0, |ios|, mem), j, x);
    BufferCopied(st, reqs, lim, |reqs|, mem, j, x);
    assert FileByte(st, r.file, Shift(r), x) == Stored(st, r.file, r.off + i);
    if Found(st, r) <= i { PastFound(st, r, i); }
  }

  /** The `n` bytes of the file from `off` on are in the buffer, with zeros in the holes. */
  ghost predicate HasBytes(st: Store, f: File, off: int, n: int, mem: seq<Byte>, buf: int)
    requires ValidFile(f) && 0 <= off && 0 <= buf && buf + n <= |mem|
  {
    forall p :: off <= p < off + n ==>
      mem[buf + (p - off)] == if Stored(st, f, p).Some? then Stored(st, f, p).value else 0
  }

  /** A single read is always right: it reports why it failed, or the distance to the last stored byte of its range, and
      delivers the stored bytes with zeros in the holes. */
  lemma SingleRead(st: Store, r: Request, lim: int, mem: seq<Byte>)
    requires ValidRequest(r) && r.buf + r.len <= |mem|
    ensures ReadOutcome(st, [r], lim, mem).res == [Expected(st, r)]
    ensures Failure(r).None? ==> HasBytes(st, r.file, r.off, Found(st, r), ReadOutcome(st, [r], lim, mem).mem, r.buf)
  {
    hide Found, ReadOutcome, Stored, Pieced, ChunkMissing, Failure;
    var reqs := [r];
    ReadCounts(st, reqs, lim, mem, 0);
    if Failure(r).None? {
      forall p | r.off <= p < r.off + Found(st, r)
        ensures ReadOutcome(st, reqs, lim, mem).mem[r.buf + (p - r.off)]
             == if Stored(st, r.file, p).Some? then Stored(st, r.file, p).value else 0
      {
        ReadBytesRight(st, reqs, lim, mem, 0, p - r.off);
      }
    }
  }
}
