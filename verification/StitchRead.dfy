/** What `concatIoRes` (src/fuse/PioV.cc) makes of reads that may find holes. */
module StitchRead {
  import opened Prelude
  import opened Chunks
  import opened Stitch

  predicate Short(io: Io, r: IoResult) { Got(r) < io.length }

  // ---------- one request ----------

  /** The buffer address behind the pieces from `a` up to `b`. */
  function End(ios: seq<Io>, a: int, b: int, base: int): int
    requires 0 <= a && b <= |ios|
  {
    if b <= a then base else ios[b - 1].data + ios[b - 1].length
  }

  /** The pieces from `a` up to `b` belong to request `c` and fill its buffer from `base` on. */
  ghost predicate Segment(ios: seq<Io>, a: int, b: int, c: int, base: int)
    requires 0 <= a <= b <= |ios|
    decreases b - a
  {
    a == b ||
    (Segment(ios, a, b - 1, c, base) && ios[b - 1].ctx == c && 0 < ios[b - 1].length
     && ios[b - 1].data == End(ios, a, b - 1, base))
  }

  /** Every piece from `a` up to `b` returned data, came up short or found no chunk. */
  ghost predicate Outcomes(ios: seq<Io>, results: seq<IoResult>, a: int, b: int)
    requires 0 <= a <= b <= |ios| == |results|
  {
    forall k :: a <= k < b ==> !HardError(true, results[k]) && 0 <= Got(results[k]) <= ios[k].length
  }

  /** The buffer address behind the last byte that was read. */
  function Reach(ios: seq<Io>, results: seq<IoResult>, a: int, b: int, base: int): int
    requires 0 <= a <= b <= |ios| == |results|
    decreases b - a
  {
    if a == b then base
    else if Got(results[b - 1]) > 0 then ios[b - 1].data + Got(results[b - 1])
    else Reach(ios, results, a, b - 1, base)
  }

  /** Address `x` was read by one of the pieces. */
  predicate Covered(ios: seq<Io>, results: seq<IoResult>, a: int, b: int, x: int)
    requires 0 <= a <= b <= |ios| == |results|
    decreases b - a
  {
    a < b && (ios[b - 1].data <= x < ios[b - 1].data + Got(results[b - 1]) || Covered(ios, results, a, b - 1, x))
  }

  lemma {:induction false} ReachBounds(ios: seq<Io>, results: seq<IoResult>, a: int, b: int, c: int, base: int)
    requires 0 <= a <= b <= |ios| == |results|
    requires Segment(ios, a, b, c, base) && Outcomes(ios, results, a, b)
    ensures base <= Reach(ios, results, a, b, base) <= End(ios, a, b, base)
    ensures a < b ==> base < End(ios, a, b, base)
    ensures a < b ==> (Reach(ios, results, a, b, base) == End(ios, a, b, base) <==> !Short(ios[b - 1], results[b - 1]))
    decreases b - a
  {
    if a < b { ReachBounds(ios, results, a, b - 1, c, base); }
  }

  lemma {:induction false} NothingPastReach(ios: seq<Io>, results: seq<IoResult>, a: int, b: int, c: int, base: int,
                                            x: int)
    requires 0 <= a <= b <= |ios| == |results|
    requires Segment(ios, a, b, c, base) && Outcomes(ios, results, a, b)
    ensures Covered(ios, results, a, b, x) ==> base <= x < Reach(ios, results, a, b, base)
    decreases b - a
  {
    if a < b {
      NothingPastReach(ios, results, a, b - 1, c, base, x);
      ReachBounds(ios, results, a, b - 1, c, base);
    }
  }

  // ---------- the scan of one request ----------

  /** The hole left open by the request before, which the first piece of this one takes over. */
  function Inherited(r: IoResult, s: Scan): int {
    if r.Err? && s.holeIo.Some? then s.holeSize else 0
  }

  /** The hole open at the start of a request. At first the scan holds a hole of no size. */
  ghost predicate HoleIs(s: Scan, hole: int) {
    && 0 <= hole && (s.inHole <==> 0 < hole)
    && (s.inHole ==> s.holeIo.Some? && s.holeSize == hole)
    && (!s.inHole && s.holeIo.Some? ==> s.holeIo == Some(0) && s.holeOff == 0 && s.holeSize == 0)
  }

  /** The state in which a request starts. A hole of another request may still be open. */
  ghost predicate Entry(c: int, s: Scan, hole: int) {
    0 <= c < |s.res| && s.res[c] == 0 && s.lastCtx != c && HoleIs(s, hole)
  }

  /** The count: up to the last byte read, plus what was inherited once anything was read. */
  ghost predicate CountOk(count: int, reach: int, base: int, z: int) {
    0 <= count == reach - base + if reach > base then z else 0
  }

  /** The open hole: from the last byte read to the end of the pieces. */
  ghost predicate HoleOk(end: int, base: int, reach: int, z: int, s: Scan) {
    && (s.inHole <==> reach < end)
    && (s.inHole <==> s.holeIo.Some?)
    && (s.inHole ==> s.holeSize == end - reach + if reach == base then z else 0)
  }

  ghost predicate Progress(ios: seq<Io>, results: seq<IoResult>, a: int, b: int, c: int, base: int, z: int, s0: Scan,
                           s: Scan)
    requires 0 <= a < b <= |ios| == |results|
  {
    var reach := Reach(ios, results, a, b, base);
    && s.lastCtx == c
    && |s.res| == |s0.res| && 0 <= c < |s.res| && s.res == s0.res[c := s.res[c]]
    && CountOk(s.res[c], reach, base, z)
    && HoleOk(End(ios, a, b, base), base, reach, z, s)
  }

  lemma FirstTurn(ios: seq<Io>, results: seq<IoResult>, a: int, c: int, base: int, s0: Scan, hole: int)
    requires 0 <= a < |ios| == |results|
    requires Segment(ios, a, a + 1, c, base) && Outcomes(ios, results, a, a + 1) && Entry(c, s0, hole)
    ensures Progress(ios, results, a, a + 1, c, base, Inherited(results[a], s0), s0,
                     Turn(true, true, ios, results[a], a, s0))
  {
    hide FillHole;
    assert Reach(ios, results, a, a, base) == base == End(ios, a, a, base);
  }

  lemma NextTurn(ios: seq<Io>, results: seq<IoResult>, a: int, b: int, c: int, base: int, z: int, s0: Scan, s: Scan)
    requires 0 <= a < b - 1 && b <= |ios| == |results|
    requires Segment(ios, a, b, c, base) && Outcomes(ios, results, a, b)
    requires Progress(ios, results, a, b - 1, c, base, z, s0, s)
    requires (0 <= z || base < Reach(ios, results, a, b - 1, base))
    ensures Progress(ios, results, a, b, c, base, z, s0, Turn(true, true, ios, results[b - 1], b - 1, s))
    ensures base < Reach(ios, results, a, b - 1, base) ==> base < Reach(ios, results, a, b, base)
  {
    hide FillHole, Segment;
    SegmentLast(ios, a, b, c, base);
    ReachBounds(ios, results, a, b - 1, c, base);
  }

  lemma SegmentLast(ios: seq<Io>, a: int, b: int, c: int, base: int)
    requires 0 <= a < b <= |ios| && Segment(ios, a, b, c, base)
    ensures ios[b - 1].ctx == c && 0 < ios[b - 1].length && ios[b - 1].data == End(ios, a, b - 1, base)
    ensures Segment(ios, a, b - 1, c, base)
  {
  }

  /** Progress after the pieces up to `m` leads to progress after those up to `b`. */
  lemma {:induction false} ProgressOn(ios: seq<Io>, results: seq<IoResult>, a: int, m: int, b: int, c: int, base: int,
                                      z: int, s0: Scan, s: Scan)
    requires 0 <= a < m <= b <= |ios| && WellFormed(ios, results, |s.res|)
    requires Segment(ios, a, b, c, base) && Outcomes(ios, results, a, b)
    requires Progress(ios, results, a, m, c, base, z, s0, s) && (0 <= z || base < Reach(ios, results, a, m, base))
    ensures Progress(ios, results, a, b, c, base, z, s0, Scanned(true, true, ios, results, m, b, s))
    ensures base < Reach(ios, results, a, m, base) ==> base < Reach(ios, results, a, b, base)
    decreases b - m
  {
    hide Turn, Progress, Reach;
    if m < b {
      SegmentLast(ios, a, b, c, base);
      ProgressOn(ios, results, a, m, b - 1, c, base, z, s0, s);
      NextTurn(ios, results, a, b, c, base, z, s0, Scanned(true, true, ios, results, m, b - 1, s));
    }
  }

  lemma {:induction false} RequestScanned(ios: seq<Io>, results: seq<IoResult>, a: int, b: int, c: int, base: int,
                                          s0: Scan, hole: int)
    requires 0 <= a < b <= |ios| && WellFormed(ios, results, |s0.res|)
    requires Segment(ios, a, b, c, base) && Outcomes(ios, results, a, b) && Entry(c, s0, hole)
    ensures Progress(ios, results, a, b, c, base, Inherited(results[a], s0), s0,
                     Scanned(true, true, ios, results, a, b, s0))
  {
    hide Turn, Progress, Reach;
    NoTurn(true, true, ios, results, a, s0);
    LastTurn(true, true, ios, results, a, a + 1, s0);
    SegmentParts(ios, a, a + 1, b, c, base);
    FirstTurn(ios, results, a, c, base, s0, hole);
    var s := Scanned(true, true, ios, results, a, a + 1, s0);
    ScanSplit(true, true, ios, results, a, a + 1, b, s0);
    InheritedIs(results[a], c, s0, hole);
    ProgressOn(ios, results, a, a + 1, b, c, base, Inherited(results[a], s0), s0, s);
  }

  lemma {:induction false} SegmentParts(ios: seq<Io>, a: int, m: int, b: int, c: int, base: int)
    requires 0 <= a <= m <= b <= |ios| && Segment(ios, a, b, c, base)
    ensures Segment(ios, a, m, c, base) && AllOf(ios, a, b, c)
    decreases b - a
  {
    if m < b { SegmentParts(ios, a, m, b - 1, c, base); }
    else if a < b { SegmentParts(ios, a, b - 1, b - 1, c, base); }
  }

  ghost predicate AllOf(ios: seq<Io>, a: int, b: int, c: int)
    requires 0 <= a <= b <= |ios|
  {
    forall k :: a <= k < b ==> ios[k].ctx == c
  }

  lemma {:induction false} ScanSplit(read: bool, holes: bool, ios: seq<Io>, results: seq<IoResult>, a: int, m: int,
                                     b: int, s: Scan)
    requires WellFormed(ios, results, |s.res|) && 0 <= a <= m <= b <= |ios|
    ensures Scanned(read, holes, ios, results, a, b, s)
         == Scanned(read, holes, ios, results, m, b, Scanned(read, holes, ios, results, a, m, s))
    decreases b - m
  {
    hide Turn;
    if m < b { ScanSplit(read, holes, ios, results, a, m, b - 1, s); }
  }

  // ---------- the scan of a request that has failed ----------

  /** The first piece from `a` up to `b` that returned data, or `b`. */
  function FirstData(results: seq<IoResult>, a: int, b: int): (d: int)
    requires 0 <= a <= b <= |results|
    ensures a <= d <= b
    ensures forall k :: a <= k < d ==> Got(results[k]) <= 0
    ensures d < b ==> Got(results[d]) > 0
    decreases b - a
  {
    if a == b || Got(results[a]) > 0 then a else FirstData(results, a + 1, b)
  }

  /** Once a request has failed, nothing changes until data arrives behind an open hole. */
  lemma {:induction false} FailedIsQuiet(ios: seq<Io>, results: seq<IoResult>, a: int, b: int, c: int, s: Scan)
    requires WellFormed(ios, results, |s.res|) && 0 <= a <= b <= |ios| && AllOf(ios, a, b, c)
    requires 0 <= c < |s.res| && s.res[c] < 0 && s.lastCtx == c
    requires s.inHole ==> forall k :: a <= k < b ==> Got(results[k]) <= 0
    ensures Scanned(true, true, ios, results, a, b, s) == s
    decreases b - a
  {
    hide FillHole;
    if a < b { FailedIsQuiet(ios, results, a, b - 1, c, s); }
  }

  /** The first piece of a request that failed before the scan: if it found its chunk, the open hole is dropped. */
  function FailedFirst(r: IoResult, c: int, s: Scan): Scan {
    if r.Len? then s.(inHole := false, holeIo := None, lastCtx := c) else s.(lastCtx := c)
  }

  /** Data behind an open hole adds the size of the hole to the negative result, and the scan goes on from there. */
  lemma FailedCloses(ios: seq<Io>, results: seq<IoResult>, a: int, d: int, c: int, base: int, s0: Scan, s: Scan)
    requires 0 <= a <= d < |ios| && WellFormed(ios, results, |s.res|)
    requires Segment(ios, a, d + 1, c, base) && Outcomes(ios, results, a, d + 1)
    requires 0 <= c < |s.res| && s.res == s0.res && s.res[c] < 0 && s.lastCtx == c && s.inHole && 0 < Got(results[d])
    ensures var s', shifted := Turn(true, true, ios, results[d], d, s), s.res[c] + s.holeSize;
      if shifted < 0 then s'.res == s0.res[c := shifted] && s'.lastCtx == c && !s'.inHole && s'.holeIo == None
      else Progress(ios, results, a, d + 1, c, base, shifted - (ios[d].data - base), s0, s')
    ensures base < Reach(ios, results, a, d + 1, base)
  {
    hide FillHole;
    ReachBounds(ios, results, a, d, c, base);
  }

  /** What a failed request reports and leaves open: `hole` is the hole its first piece finds open. */
  ghost predicate FailedOk(ios: seq<Io>, results: seq<IoResult>, a: int, b: int, c: int, base: int, hole: int, s0: Scan,
                           s: Scan)
    requires 0 <= a < b <= |ios| == |results| && 0 <= c < |s0.res|
  {
    var taken := if results[a].Err? then hole else 0;
    var d, shifted := FirstData(results, a, b), s0.res[c] + taken;
    && s.lastCtx == c && |s.res| == |s0.res| && s.res == s0.res[c := s.res[c]]
    && if taken == 0 || d == b then s.res[c] == s0.res[c] && HoleIs(s, taken)
       else if shifted < 0 then s.res[c] == shifted && HoleIs(s, 0)
       else
         && s.res[c] == shifted + Reach(ios, results, a, b, base) - ios[d].data
         && HoleIs(s, End(ios, a, b, base) - Reach(ios, results, a, b, base))
  }

  lemma FailedScanned(ios: seq<Io>, results: seq<IoResult>, a: int, b: int, c: int, base: int, s0: Scan, hole: int)
    requires 0 <= a < b <= |ios| && WellFormed(ios, results, |s0.res|)
    requires Segment(ios, a, b, c, base) && Outcomes(ios, results, a, b)
    requires 0 <= c < |s0.res| && s0.res[c] < 0 && s0.lastCtx != c && HoleIs(s0, hole)
    ensures FailedOk(ios, results, a, b, c, base, hole, s0, Scanned(true, true, ios, results, a, b, s0))
  {
    hide Turn, Scanned, Segment, Reach, FirstData;
    var d, taken := FirstData(results, a, b), if results[a].Err? then hole else 0;
    SegmentParts(ios, a, a + 1, b, c, base);
    var s := Scanned(true, true, ios, results, a, a + 1, s0);
    FailedStarts(ios, results, a, c, s0);
    ScanSplit(true, true, ios, results, a, a + 1, b, s0);
    if taken == 0 || d == b {
      FailedIsQuiet(ios, results, a + 1, b, c, s);
    } else {
      ScanSplit(true, true, ios, results, a + 1, d, b, s);
      FailedIsQuiet(ios, results, a + 1, d, c, s);
      FailedGoesOn(ios, results, a, d, b, c, base, s0, s);
    }
  }

  lemma FailedStarts(ios: seq<Io>, results: seq<IoResult>, a: int, c: int, s0: Scan)
    requires 0 <= a < |ios| && WellFormed(ios, results, |s0.res|) && ios[a].ctx == c
    requires s0.res[c] < 0 && s0.lastCtx != c && (results[a].Err? ==> results[a].code == CHUNK_NOT_FOUND)
    ensures Scanned(true, true, ios, results, a, a + 1, s0) == FailedFirst(results[a], c, s0)
  {
    hide FillHole;
    NoTurn(true, true, ios, results, a, s0);
    LastTurn(true, true, ios, results, a, a + 1, s0);
  }

  lemma FailedGoesOn(ios: seq<Io>, results: seq<IoResult>, a: int, d: int, b: int, c: int, base: int, s0: Scan, s: Scan)
    requires 0 <= a < d < b <= |ios| && WellFormed(ios, results, |s.res|)
    requires Segment(ios, a, b, c, base) && Outcomes(ios, results, a, b) && 0 < Got(results[d])
    requires 0 <= c < |s.res| && s.res == s0.res && s.res[c] < 0 && s.lastCtx == c && s.inHole
    ensures var s', shifted := Scanned(true, true, ios, results, d, b, s), s.res[c] + s.holeSize;
      && s'.lastCtx == c && s'.res == s0.res[c := s'.res[c]]
      && if shifted < 0 then s'.res[c] == shifted && HoleIs(s', 0)
         else
           && s'.res[c] == shifted + Reach(ios, results, a, b, base) - ios[d].data
           && HoleIs(s', End(ios, a, b, base) - Reach(ios, results, a, b, base))
  {
    hide Turn, Scanned, Segment, Reach;
    NoTurn(true, true, ios, results, d, s);
    LastTurn(true, true, ios, results, d, d + 1, s);
    ScanSplit(true, true, ios, results, d, d + 1, b, s);
    SegmentParts(ios, a, d + 1, b, c, base);
    FailedCloses(ios, results, a, d, c, base, s0, s);
    var s1, shifted := Scanned(true, true, ios, results, d, d + 1, s), s.res[c] + s.holeSize;
    if shifted < 0 {
      FailedIsQuiet(ios, results, d + 1, b, c, s1);
    } else {
      ProgressOn(ios, results, a, d + 1, b, c, base, shifted - (ios[d].data - base), s0, s1);
      ReachBounds(ios, results, a, b, c, base);
    }
  }

  // ---------- the memory, address by address ----------

  predicate InPiece(io: Io, x: int) { io.data <= x < io.data + io.length }

  predicate InPieces(ios: seq<Io>, j: int, i: int, x: int)
    requires 0 <= j && i <= |ios|
  {
    exists k :: j <= k < i && InPiece(ios[k], x)
  }

  lemma {:induction false} FillPiecesAt(mem: seq<Byte>, ios: seq<Io>, j: int, i: int, x: int)
    requires 0 <= j && i <= |ios| && 0 <= x < |mem|
    ensures FillPieces(mem, ios, j, i)[x] == if InPieces(ios, j, i, x) then 0 else mem[x]
    decreases i - j
  {
    if j < i {
      var filled := Fill(mem, ios[j].data, ios[j].data + ios[j].length);
      FillPiecesAt(filled, ios, j + 1, i, x);
      assert InPieces(ios, j, i, x) <==> InPiece(ios[j], x) || InPieces(ios, j + 1, i, x);
    }
  }

  /** Address `x` lies in the open hole: closing it before piece `i` would zero it. */
  predicate InZone(ios: seq<Io>, i: int, s: Scan, x: int)
    requires i <= |ios|
  {
    && s.holeIo.Some? && 0 <= s.holeIo.value < i
    && var h := s.holeIo.value;
       ios[h].data + s.holeOff <= x < ios[h].data + ios[h].length || InPieces(ios, h + 1, i, x)
  }

  /** An open hole starts at an earlier piece. */
  ghost predicate HoleAt(i: int, s: Scan) {
    && (s.inHole ==> s.holeIo.Some? && s.holeIo.value < i)
    && (s.holeIo.Some? ==> 0 <= s.holeIo.value && s.holeIo.value < Max(i, 1) && 0 <= s.holeOff)
    && (i == 0 && s.holeIo.Some? ==> s.holeOff == 0)
  }

  /** The piece closes the hole of its request. */
  predicate Closes(io: Io, r: IoResult, s: Scan) { r.Len? && 0 < r.n && s.inHole && s.lastCtx == io.ctx }

  lemma TurnAt(ios: seq<Io>, r: IoResult, i: int, s: Scan, x: int)
    requires 0 <= i < |ios| && 0 <= ios[i].ctx < |s.res| && HoleAt(i, s) && 0 <= Got(r) && 0 <= x < |s.mem|
    ensures var s' := Turn(true, true, ios, r, i, s);
      && HoleAt(i + 1, s')
      && s'.mem[x] == if Closes(ios[i], r, s) && InZone(ios, i, s, x) then 0 else s.mem[x]
  {
    if s.holeIo.Some? && s.holeIo.value < i {
      var h := s.holeIo.value;
      FillPiecesAt(Fill(s.mem, ios[h].data + s.holeOff, ios[h].data + ios[h].length), ios, h + 1, i, x);
    }
    hide FillPieces, Fill, InPieces;
  }

  /** A turn keeps the hole, drops it or opens one at its own piece. */
  lemma TurnHole(ios: seq<Io>, r: IoResult, i: int, s: Scan)
    requires 0 <= i < |ios| && 0 <= ios[i].ctx < |s.res|
    ensures var s' := Turn(true, true, ios, r, i, s);
      || (s'.holeIo == s.holeIo && s'.holeOff == s.holeOff && (s.inHole ==> s'.inHole))
      || s'.holeIo == None
      || (s'.holeIo == Some(i) && s'.holeOff == Got(r) && s'.inHole)
  {
    hide FillHole;
  }

  lemma ZoneGrows(ios: seq<Io>, i: int, s: Scan, s': Scan, x: int)
    requires 0 <= i < |ios| && HoleAt(i, s) && s'.holeIo == s.holeIo && s'.holeOff == s.holeOff
    ensures i == 0 || s.holeIo.None? || InPiece(ios[i], x) || (InZone(ios, i + 1, s', x) <==> InZone(ios, i, s, x))
    ensures s.holeIo.Some? && InPiece(ios[i], x) ==> InZone(ios, i + 1, s', x)
    ensures i == 0 && !InPiece(ios[i], x) ==> !InZone(ios, i + 1, s', x)
  {
    if s.holeIo.Some? && s.holeIo.value < i {
      assert InPieces(ios, s.holeIo.value + 1, i + 1, x)
        <==> InPieces(ios, s.holeIo.value + 1, i, x) || InPiece(ios[i], x);
    }
  }

  /** A piece elsewhere leaves an address alone unless it lies in the open hole. */
  lemma ForeignTurn(ios: seq<Io>, r: IoResult, i: int, s: Scan, x: int)
    requires 0 <= i < |ios| && 0 <= ios[i].ctx < |s.res| && HoleAt(i, s) && 0 <= Got(r) && 0 <= x < |s.mem|
    requires !InPiece(ios[i], x) && (InZone(ios, i, s, x) ==> s.inHole)
    ensures var s' := Turn(true, true, ios, r, i, s);
      && HoleAt(i + 1, s') && (InZone(ios, i + 1, s', x) ==> s'.inHole)
      && (!InZone(ios, i, s, x) ==> !InZone(ios, i + 1, s', x))
      && (!InZone(ios, i, s, x) || !Closes(ios[i], r, s) ==> s'.mem[x] == s.mem[x])
  {
    TurnAt(ios, r, i, s, x);
    TurnHole(ios, r, i, s);
    var s' := Turn(true, true, ios, r, i, s);
    hide Turn, InPieces;
    if s'.holeIo == s.holeIo && s'.holeOff == s.holeOff { ZoneGrows(ios, i, s, s', x); }
  }

  ghost predicate Elsewhere(ios: seq<Io>, a: int, b: int, x: int)
    requires 0 <= a <= b <= |ios|
  {
    forall k :: a <= k < b ==> !InPiece(ios[k], x)
  }

  /** Pieces elsewhere leave an address alone that does not lie in the open hole. */
  lemma {:induction false} ForeignScanned(ios: seq<Io>, results: seq<IoResult>, a: int, b: int, s: Scan, x: int)
    requires WellFormed(ios, results, |s.res|) && 0 <= a <= b <= |ios| && 0 <= x < |s.mem| && HoleAt(a, s)
    requires Elsewhere(ios, a, b, x) && (InZone(ios, a, s, x) ==> s.inHole)
    requires forall k :: a <= k < b ==> 0 <= Got(results[k])
    ensures var s' := Scanned(true, true, ios, results, a, b, s);
      && HoleAt(b, s') && (InZone(ios, b, s', x) ==> s'.inHole)
      && (!InZone(ios, a, s, x) ==> s'.mem[x] == s.mem[x] && !InZone(ios, b, s', x))
      && ((forall k :: a <= k < b ==> Got(results[k]) == 0) ==> s'.mem[x] == s.mem[x])
    decreases b - a
  {
    hide Turn, InZone;
    if a < b {
      ForeignScanned(ios, results, a, b - 1, s, x);
      ForeignTurn(ios, results[b - 1], b - 1, Scanned(true, true, ios, results, a, b - 1, s), x);
    }
  }

  /** Address `x` of the request's own buffer: zero in a hole before the last byte read, and otherwise as it was; what
      is left of the buffer is the open hole. */
  ghost predicate OwnOk(ios: seq<Io>, results: seq<IoResult>, a: int, b: int, base: int, x: int, was: Byte, s: Scan)
    requires 0 <= a <= b <= |ios| == |results| && 0 <= x < |s.mem|
  {
    var reach := Reach(ios, results, a, b, base);
    && HoleAt(b, s)
    && s.mem[x] == (if x < reach && !Covered(ios, results, a, b, x) then 0 else was)
    && (InZone(ios, b, s, x) <==> s.inHole && reach <= x < End(ios, a, b, base))
  }

  lemma OwnFirst(ios: seq<Io>, results: seq<IoResult>, a: int, c: int, base: int, s0: Scan, hole: int, x: int)
    requires 0 <= a < |ios| && WellFormed(ios, results, |s0.res|) && 0 <= x < |s0.mem|
    requires Segment(ios, a, a + 1, c, base) && Outcomes(ios, results, a, a + 1) && Entry(c, s0, hole)
    requires HoleAt(a, s0) && base <= x && !InZone(ios, a, s0, x)
    ensures OwnOk(ios, results, a, a + 1, base, x, s0.mem[x], Turn(true, true, ios, results[a], a, s0))
  {
    var s, r := Turn(true, true, ios, results[a], a, s0), results[a];
    TurnAt(ios, r, a, s0, x);
    FirstTurn(ios, results, a, c, base, s0, hole);
    assert Reach(ios, results, a, a, base) == base == End(ios, a, a, base);
    OwnZoneFirst(ios, r, a, c, s0, x);
  }

  lemma OwnZoneFirst(ios: seq<Io>, r: IoResult, a: int, c: int, s0: Scan, x: int)
    requires 0 <= a < |ios| && 0 <= ios[a].ctx == c < |s0.res| && HoleAt(a, s0) && !InZone(ios, a, s0, x)
    requires s0.res[c] == 0 && s0.lastCtx != c && 0 <= Got(r) <= ios[a].length && !HardError(true, r)
    ensures var s' := Turn(true, true, ios, r, a, s0);
      InZone(ios, a + 1, s', x) <==> Got(r) < ios[a].length && ios[a].data + Got(r) <= x < ios[a].data + ios[a].length
  {
    var s' := Turn(true, true, ios, r, a, s0);
    if s'.holeIo == s0.holeIo && s'.holeOff == s0.holeOff { ZoneGrows(ios, a, s0, s', x); }
  }

  /** How the zone moves behind a later piece of the request. */
  lemma OwnZoneNext(ios: seq<Io>, r: IoResult, i: int, c: int, s: Scan, x: int)
    requires 0 < i < |ios| && 0 <= ios[i].ctx == c < |s.res| && HoleAt(i, s) && (s.inHole <==> s.holeIo.Some?)
    requires 0 <= s.res[c] && s.lastCtx == c && 0 <= Got(r) <= ios[i].length && !HardError(true, r)
    requires s.inHole ==> 0 <= s.holeSize
    ensures var s' := Turn(true, true, ios, r, i, s);
      InZone(ios, i + 1, s', x) <==>
        if Got(r) == 0 && s.inHole then InZone(ios, i, s, x) || InPiece(ios[i], x)
        else Got(r) < ios[i].length && ios[i].data + Got(r) <= x < ios[i].data + ios[i].length
  {
    hide FillHole;
    var s' := Turn(true, true, ios, r, i, s);
    if Got(r) == 0 && s.inHole && ios[i].length > 0 {
      assert s'.holeIo == s.holeIo && s'.holeOff == s.holeOff;
      ZoneGrows(ios, i, s, s', x);
    }
  }

  lemma OwnNext(ios: seq<Io>, results: seq<IoResult>, a: int, b: int, c: int, base: int, z: int, s0: Scan, s: Scan,
                x: int)
    requires 0 <= a < b - 1 && b <= |ios| && WellFormed(ios, results, |s.res|) && 0 <= x < |s.mem| == |s0.mem|
    requires Segment(ios, a, b, c, base) && Outcomes(ios, results, a, b) && 0 <= z && base <= x
    requires Progress(ios, results, a, b - 1, c, base, z, s0, s) && OwnOk(ios, results, a, b - 1, base, x, s0.mem[x], s)
    ensures OwnOk(ios, results, a, b, base, x, s0.mem[x], Turn(true, true, ios, results[b - 1], b - 1, s))
  {
    var i, r := b - 1, results[b - 1];
    SegmentLast(ios, a, b, c, base);
    ReachBounds(ios, results, a, i, c, base);
    NothingPastReach(ios, results, a, i, c, base, x);
    TurnAt(ios, r, i, s, x);
    OwnZoneNext(ios, r, i, c, s, x);
    NextTurn(ios, results, a, b, c, base, z, s0, s);
    hide Turn, InZone, Segment;
  }

  lemma {:induction false} OwnScanned(ios: seq<Io>, results: seq<IoResult>, a: int, b: int, c: int, base: int, s0: Scan,
                                      hole: int, x: int)
    requires 0 <= a < b <= |ios| && WellFormed(ios, results, |s0.res|) && 0 <= x < |s0.mem|
    requires Segment(ios, a, b, c, base) && Outcomes(ios, results, a, b) && Entry(c, s0, hole)
    requires HoleAt(a, s0) && base <= x && !InZone(ios, a, s0, x)
    ensures OwnOk(ios, results, a, b, base, x, s0.mem[x], Scanned(true, true, ios, results, a, b, s0))
    decreases b - a
  {
    hide Turn, Progress, OwnOk, InZone, HoleAt;
    LastTurn(true, true, ios, results, a, b, s0);
    NoTurn(true, true, ios, results, a, s0);
    if b == a + 1 {
      OwnFirst(ios, results, a, c, base, s0, hole, x);
    } else {
      SegmentLast(ios, a, b, c, base);
      OwnScanned(ios, results, a, b - 1, c, base, s0, hole, x);
      RequestScanned(ios, results, a, b - 1, c, base, s0, hole);
      InheritedIs(results[a], c, s0, hole);
      OwnNext(ios, results, a, b, c, base, Inherited(results[a], s0), s0,
              Scanned(true, true, ios, results, a, b - 1, s0), x);
    }
  }

  lemma InheritedIs(r: IoResult, c: int, s: Scan, hole: int)
    requires HoleIs(s, hole)
    ensures Inherited(r, s) == if r.Err? then hole else 0
  {
  }
}
