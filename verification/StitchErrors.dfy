/** What becomes of a failed piece in a read that may find holes (src/fuse/PioV.cc, concatIoRes). */
module StitchErrors {
  import opened Chunks
  import opened Stitch
  import opened StitchRead
  import opened StitchTally
  import opened StitchBatch

  /** The state right after the first failed piece, at `e`. */
  lemma ErrorTurn(ios: seq<Io>, results: seq<IoResult>, e: int, c: int, s: Scan)
    requires WellFormed(ios, results, |s.res|) && 0 <= e < |ios| && ios[e].ctx == c
    requires HardError(true, results[e]) && 0 < results[e].code && s.res[c] >= 0
    ensures Turn(true, true, ios, results[e], e, s) == s.(res := s.res[c := -results[e].code], lastCtx := c)
  {
  }

  /** The size of the hole that is open before piece `e` of a request, `hole` being open before the request. */
  function OpenHole(ios: seq<Io>, results: seq<IoResult>, a: int, e: int, base: int, hole: int): int
    requires 0 <= a <= e <= |ios| == |results|
  {
    var reach := Reach(ios, results, a, e, base);
    if e == a then hole
    else End(ios, a, e, base) - reach + if reach == base && results[a].Err? then hole else 0
  }

  /** Piece `e` is the first of the request's pieces to fail. */
  ghost predicate FirstFailure(ios: seq<Io>, results: seq<IoResult>, a: int, e: int, b: int, c: int, base: int,
                               s0: Scan, hole: int)
    requires 0 <= a <= e < b <= |ios| == |results|
  {
    && Segment(ios, a, b, c, base) && Outcomes(ios, results, a, e) && Entry(c, s0, hole)
    && HardError(true, results[e]) && 0 < results[e].code
  }

  /** The state before and right after the failure. */
  lemma AtFailure(ios: seq<Io>, results: seq<IoResult>, a: int, e: int, b: int, c: int, base: int, s0: Scan, hole: int)
    requires 0 <= a <= e < b <= |ios| && WellFormed(ios, results, |s0.res|)
    requires FirstFailure(ios, results, a, e, b, c, base, s0, hole)
    ensures var s := Scanned(true, true, ios, results, a, e, s0);
      && Scanned(true, true, ios, results, a, e + 1, s0) == s.(res := s.res[c := -results[e].code], lastCtx := c)
      && HoleIs(s, OpenHole(ios, results, a, e, base, hole))
  {
    hide Turn, Segment, Reach;
    SegmentParts(ios, a, e, b, c, base);
    NoTurn(true, true, ios, results, a, s0);
    if a < e {
      RequestScanned(ios, results, a, e, c, base, s0, hole);
      ReachBounds(ios, results, a, e, c, base);
      InheritedIs(results[a], c, s0, hole);
    }
    LastTurn(true, true, ios, results, a, e + 1, s0);
    ErrorTurn(ios, results, e, c, Scanned(true, true, ios, results, a, e, s0));
  }

  /** The count a request reports after its first `t - a` pieces. */
  function Reported(ios: seq<Io>, results: seq<IoResult>, a: int, t: int, c: int, s0: Scan): int
    requires WellFormed(ios, results, |s0.res|) && 0 <= a <= t <= |ios| && 0 <= c < |s0.res|
  {
    Scanned(true, true, ios, results, a, t, s0).res[c]
  }

  lemma ErrorStays(ios: seq<Io>, results: seq<IoResult>, a: int, e: int, b: int, c: int, base: int, s0: Scan, hole: int,
                   t: int)
    requires 0 <= a <= e < t <= b <= |ios| && WellFormed(ios, results, |s0.res|)
    requires FirstFailure(ios, results, a, e, b, c, base, s0, hole)
    requires OpenHole(ios, results, a, e, base, hole) == 0 || t <= FirstData(results, e + 1, b)
    ensures Reported(ios, results, a, t, c, s0) == -results[e].code
  {
    hide Turn, Segment;
    AtFailure(ios, results, a, e, b, c, base, s0, hole);
    SegmentParts(ios, a, t, b, c, base);
    ScanSplit(true, true, ios, results, a, e + 1, t, s0);
    FailedIsQuiet(ios, results, e + 1, t, c, Scanned(true, true, ios, results, a, e + 1, s0));
  }

  /** Data behind an open hole adds the size of the hole to the negative error code. */
  lemma ErrorShifts(ios: seq<Io>, results: seq<IoResult>, a: int, e: int, b: int, c: int, base: int, s0: Scan,
                    hole: int)
    requires 0 <= a <= e < b <= |ios| && WellFormed(ios, results, |s0.res|)
    requires FirstFailure(ios, results, a, e, b, c, base, s0, hole)
    requires 0 < OpenHole(ios, results, a, e, base, hole) && FirstData(results, e + 1, b) < b
    ensures var d := FirstData(results, e + 1, b);
      var shifted := OpenHole(ios, results, a, e, base, hole) - results[e].code;
      && Reported(ios, results, a, d + 1, c, s0) == (if shifted < 0 then shifted else shifted + Got(results[d]))
      && (shifted < 0 ==>
            var s := Scanned(true, true, ios, results, a, d + 1, s0); !s.inHole && s.lastCtx == c)
  {
    hide Segment, FillHole, Scanned;
    var d := FirstData(results, e + 1, b);
    SegmentParts(ios, a, d, b, c, base);
    AtFailure(ios, results, a, e, b, c, base, s0, hole);
    var s1 := Scanned(true, true, ios, results, a, e + 1, s0);
    ScanSplit(true, true, ios, results, a, e + 1, d, s0);
    FailedIsQuiet(ios, results, e + 1, d, c, s1);
    LastTurn(true, true, ios, results, a, d + 1, s0);
  }

  // ---------- main results ----------

  /** A failed piece is reported, and stays reported whatever pieces follow, exactly when no hole was open before
      it or no later piece of the request returned data. */
  lemma ErrorKeptIff(ios: seq<Io>, results: seq<IoResult>, a: int, e: int, b: int, c: int, base: int, s0: Scan,
                     hole: int)
    requires 0 <= a <= e < b <= |ios| && WellFormed(ios, results, |s0.res|)
    requires FirstFailure(ios, results, a, e, b, c, base, s0, hole)
    ensures (forall t :: e < t <= b ==> Reported(ios, results, a, t, c, s0) == -results[e].code)
       <==> OpenHole(ios, results, a, e, base, hole) == 0 || FirstData(results, e + 1, b) == b
  {
    hide Scanned, Segment;
    var d := FirstData(results, e + 1, b);
    AtFailure(ios, results, a, e, b, c, base, s0, hole);
    if 0 < OpenHole(ios, results, a, e, base, hole) && d < b {
      ErrorShifts(ios, results, a, e, b, c, base, s0, hole);
      assert Reported(ios, results, a, d + 1, c, s0) != -results[e].code;
    } else {
      forall t | e < t <= b ensures Reported(ios, results, a, t, c, s0) == -results[e].code {
        ErrorStays(ios, results, a, e, b, c, base, s0, hole, t);
      }
    }
  }

  /** The report stays negative exactly when, besides, the hole is smaller than the error code. */
  lemma NegativeKeptIff(ios: seq<Io>, results: seq<IoResult>, a: int, e: int, b: int, c: int, base: int, s0: Scan,
                        hole: int)
    requires 0 <= a <= e < b <= |ios| && WellFormed(ios, results, |s0.res|)
    requires FirstFailure(ios, results, a, e, b, c, base, s0, hole)
    requires forall k :: e < k < b ==> results[k].Len? ==> 0 <= results[k].n
    ensures (forall t :: e < t <= b ==> Reported(ios, results, a, t, c, s0) < 0)
       <==> || OpenHole(ios, results, a, e, base, hole) == 0 || FirstData(results, e + 1, b) == b
            || OpenHole(ios, results, a, e, base, hole) < results[e].code
  {
    hide Scanned, Segment;
    var d := FirstData(results, e + 1, b);
    AtFailure(ios, results, a, e, b, c, base, s0, hole);
    if 0 < OpenHole(ios, results, a, e, base, hole) && d < b {
      ErrorShifts(ios, results, a, e, b, c, base, s0, hole);
      var s1 := Scanned(true, true, ios, results, a, d + 1, s0);
      if OpenHole(ios, results, a, e, base, hole) < results[e].code {
        forall t | e < t <= b ensures Reported(ios, results, a, t, c, s0) < 0 {
          if t <= d {
            ErrorStays(ios, results, a, e, b, c, base, s0, hole, t);
          } else {
            SegmentParts(ios, a, t, b, c, base);
            ScanSplit(true, true, ios, results, a, d + 1, t, s0);
            FailedIsQuiet(ios, results, d + 1, t, c, s1);
          }
        }
      } else {
        assert Reported(ios, results, a, d + 1, c, s0) >= 0;
      }
    } else {
      ErrorKeptIff(ios, results, a, e, b, c, base, s0, hole);
    }
  }

  /** For a batch of one request: the report of its first failure stays negative exactly when the piece before it was
      complete, no later piece returned data, or the gap behind the last byte read is smaller than the error code. */
  lemma SingleNegativeIff(ios: seq<Io>, results: seq<IoResult>, e: int, base: int, mem: seq<Byte>)
    requires 0 <= e < |ios| && WellFormed(ios, results, 1)
    requires FirstFailure(ios, results, 0, e, |ios|, 0, base, Start([0], mem), 0)
    requires forall k :: e < k < |ios| ==> results[k].Len? ==> 0 <= results[k].n
    ensures (forall t :: e < t <= |ios| ==> Reported(ios, results, 0, t, 0, Start([0], mem)) < 0)
       <==> || e == 0 || !Short(ios[e - 1], results[e - 1]) || FirstData(results, e + 1, |ios|) == |ios|
            || End(ios, 0, e, base) - Reach(ios, results, 0, e, base) < results[e].code
  {
    hide Scanned, Segment, Reach;
    NegativeKeptIff(ios, results, 0, e, |ios|, 0, base, Start([0], mem), 0);
    if 0 < e {
      SegmentParts(ios, 0, e, |ios|, 0, base);
      ReachBounds(ios, results, 0, e, 0, base);
    }
  }

  // ---------- the final report ----------

  /** A count that is not negative stays so through pieces that do not fail. */
  lemma {:induction false} CountStays(ios: seq<Io>, results: seq<IoResult>, m: int, b: int, c: int, t: Tally, s: Scan)
    returns (t': Tally)
    requires 0 <= m <= b <= |ios| && WellFormed(ios, results, |s.res|) && Agrees(c, t, s) && 0 <= t.count
    requires Plausible(ios, results, m, b) && forall k :: m <= k < b ==> ios[k].ctx == c && 0 < ios[k].length
    requires forall k :: m <= k < b ==> !HardError(true, results[k])
    ensures Agrees(c, t', Scanned(true, true, ios, results, m, b, s)) && 0 <= t'.count && 0 <= t'.hole
    decreases b - m
  {
    hide Turn;
    t' := t;
    if m < b {
      var before := CountStays(ios, results, m, b - 1, c, t, s);
      var s' := Scanned(true, true, ios, results, m, b - 1, s);
      TurnTallies(ios, results[b - 1], b - 1, c, before, s');
      t' := Tick(ios[b - 1], results[b - 1], s'.lastCtx != c, before);
    }
  }

  /** Piece `e` is the only one of the request to fail. */
  ghost predicate OnlyFailure(ios: seq<Io>, results: seq<IoResult>, a: int, e: int, b: int)
    requires 0 <= a <= e < b <= |ios| == |results|
  {
    Plausible(ios, results, a, b) && forall k :: a <= k < b ==> (HardError(true, results[k]) <==> k == e)
  }

  lemma {:induction false} PiecesOwn(ios: seq<Io>, a: int, b: int, c: int, base: int)
    requires 0 <= a <= b <= |ios| && Segment(ios, a, b, c, base)
    ensures forall k :: a <= k < b ==> ios[k].ctx == c && 0 < ios[k].length
    decreases b - a
  {
    if a < b { PiecesOwn(ios, a, b - 1, c, base); }
  }

  /** What counts after `m - a` pieces of a request counts in the end, if none of the rest failed. */
  lemma CountsOn(ios: seq<Io>, results: seq<IoResult>, a: int, m: int, b: int, c: int, base: int, s0: Scan, hole: int)
    requires 0 <= a <= m <= b <= |ios| && WellFormed(ios, results, |s0.res|) && Entry(c, s0, hole)
    requires Segment(ios, a, b, c, base) && Plausible(ios, results, a, b)
    requires forall k :: m <= k < b ==> !HardError(true, results[k])
    requires 0 <= Reported(ios, results, a, m, c, s0)
    ensures 0 <= Reported(ios, results, a, b, c, s0)
  {
    hide Scanned, Segment, Tallied;
    SegmentParts(ios, a, m, b, c, base);
    ScanSplit(true, true, ios, results, a, m, b, s0);
    ScanTallies(ios, results, a, m, c, base, s0, Tally(0, hole));
    PiecesOwn(ios, a, b, c, base);
    var t := CountStays(ios, results, m, b, c, Tallied(ios, results, a, m, Tally(0, hole)),
                        Scanned(true, true, ios, results, a, m, s0));
  }

  /** An error without an open hole stays as it is. */
  lemma QuietOn(ios: seq<Io>, results: seq<IoResult>, a: int, m: int, b: int, c: int, base: int, s0: Scan)
    requires 0 <= a <= m <= b <= |ios| && WellFormed(ios, results, |s0.res|) && 0 <= c < |s0.res|
    requires Segment(ios, a, b, c, base) && Reported(ios, results, a, m, c, s0) < 0
    requires var s := Scanned(true, true, ios, results, a, m, s0); !s.inHole && s.lastCtx == c
    ensures Reported(ios, results, a, b, c, s0) == Reported(ios, results, a, m, c, s0)
  {
    hide Scanned, Segment;
    SegmentParts(ios, a, m, b, c, base);
    ScanSplit(true, true, ios, results, a, m, b, s0);
    FailedIsQuiet(ios, results, m, b, c, Scanned(true, true, ios, results, a, m, s0));
  }

  lemma OnlyIsFirst(ios: seq<Io>, results: seq<IoResult>, a: int, e: int, b: int, c: int, base: int, s0: Scan,
                    hole: int)
    requires 0 <= a <= e < b <= |ios| == |results|
    requires Segment(ios, a, b, c, base) && Entry(c, s0, hole) && OnlyFailure(ios, results, a, e, b)
    ensures FirstFailure(ios, results, a, e, b, c, base, s0, hole)
    ensures results[e].Err? && 0 < results[e].code && 0 <= c < |s0.res|
    ensures Plausible(ios, results, a, b) && forall k :: e < k < b ==> !HardError(true, results[k])
  {
    hide Segment, HoleIs;
  }

  /** Data behind the open hole of a failed request: the error is gone, and what remains is an error only if the hole
      is smaller than the error code. */
  lemma ShiftedReport(ios: seq<Io>, results: seq<IoResult>, a: int, e: int, b: int, c: int, base: int, s0: Scan,
                      hole: int)
    requires 0 <= a <= e < b <= |ios| && WellFormed(ios, results, |s0.res|)
    requires Segment(ios, a, b, c, base) && Entry(c, s0, hole) && OnlyFailure(ios, results, a, e, b)
    requires 0 < OpenHole(ios, results, a, e, base, hole) && FirstData(results, e + 1, b) < b
    ensures var reported, open := Reported(ios, results, a, b, c, s0), OpenHole(ios, results, a, e, base, hole);
      reported != -results[e].code && (reported < 0 <==> open < results[e].code)
  {
    hide Scanned, Segment, Reach, FirstData, OpenHole, FirstFailure, Plausible, Entry, OnlyFailure;
    var d := FirstData(results, e + 1, b);
    OnlyIsFirst(ios, results, a, e, b, c, base, s0, hole);
    ErrorShifts(ios, results, a, e, b, c, base, s0, hole);
    if OpenHole(ios, results, a, e, base, hole) < results[e].code {
      QuietOn(ios, results, a, d + 1, b, c, base, s0);
    } else {
      CountsOn(ios, results, a, d + 1, b, c, base, s0, hole);
    }
  }

  /** What a request with one failed piece reports in the end: its error exactly when no hole was open before the
      failure or no later piece returned data, and an error at all exactly when, failing that, the hole is smaller
      than the error code. */
  lemma FinalReportIff(ios: seq<Io>, results: seq<IoResult>, a: int, e: int, b: int, c: int, base: int, s0: Scan,
                       hole: int)
    requires 0 <= a <= e < b <= |ios| && WellFormed(ios, results, |s0.res|)
    requires Segment(ios, a, b, c, base) && Entry(c, s0, hole) && OnlyFailure(ios, results, a, e, b)
    ensures var reported, open := Reported(ios, results, a, b, c, s0), OpenHole(ios, results, a, e, base, hole);
      var kept := open == 0 || FirstData(results, e + 1, b) == b;
      && (reported == -results[e].code <==> kept)
      && (reported < 0 <==> kept || open < results[e].code)
  {
    hide Scanned, Segment, Reach, FirstData, OpenHole, FirstFailure, OnlyFailure, Entry;
    var d, open := FirstData(results, e + 1, b), OpenHole(ios, results, a, e, base, hole);
    OnlyIsFirst(ios, results, a, e, b, c, base, s0, hole);
    AtFailure(ios, results, a, e, b, c, base, s0, hole);
    if open == 0 || d == b {
      ErrorStays(ios, results, a, e, b, c, base, s0, hole, b);
    } else {
      ShiftedReport(ios, results, a, e, b, c, base, s0, hole);
    }
  }

  /** The same in any batch, whatever the other requests did: `Carried` is the hole open before the request. */
  lemma BatchFailureIff(ios: seq<Io>, results: seq<IoResult>, spans: seq<Span>, presets: seq<int>, mem: seq<Byte>,
                        j: int, e: int)
    requires ScanSetting(ios, results, spans, presets) && 0 <= j < |spans| && presets[j] == 0
    requires 0 <= spans[j].lo <= e < spans[j].hi <= |ios| && OnlyFailure(ios, results, spans[j].lo, e, spans[j].hi)
    ensures var reported, sp := ReadBatch(ios, results, presets, mem).res[j], spans[j];
      var open := OpenHole(ios, results, sp.lo, e, sp.base, Carried(ios, results, spans, presets, j));
      var kept := open == 0 || FirstData(results, e + 1, sp.hi) == sp.hi;
      && (reported == -results[e].code <==> kept)
      && (reported < 0 <==> kept || open < results[e].code)
  {
    hide Scanned, Segment, Tallied, OpenHole, FirstData;
    var sp, hole := spans[j], Carried(ios, results, spans, presets, j);
    BatchCut(ios, spans, j);
    BatchScanned(ios, results, spans, presets, j, mem);
    var s := Upto(ios, results, spans, presets, mem, j);
    BatchCounts(ios, results, spans, presets, mem, j);
    ScanTallies(ios, results, sp.lo, sp.hi, j, sp.base, s, Tally(0, hole));
    FinalReportIff(ios, results, sp.lo, e, sp.hi, j, sp.base, s, hole);
  }

  /** The same for a batch of one request. */
  lemma SingleReportIff(ios: seq<Io>, results: seq<IoResult>, e: int, base: int, mem: seq<Byte>)
    requires 0 <= e < |ios| && WellFormed(ios, results, 1) && Segment(ios, 0, |ios|, 0, base)
    requires OnlyFailure(ios, results, 0, e, |ios|)
    ensures var reported := ReadBatch(ios, results, [0], mem).res[0];
      var kept := e == 0 || !Short(ios[e - 1], results[e - 1]) || FirstData(results, e + 1, |ios|) == |ios|;
      && (reported == -results[e].code <==> kept)
      && (reported < 0 <==>
            kept || End(ios, 0, e, base) - Reach(ios, results, 0, e, base) < results[e].code)
  {
    hide Scanned, Segment, Reach, FirstData;
    FinalReportIff(ios, results, 0, e, |ios|, 0, base, Start([0], mem), 0);
    if 0 < e {
      SegmentParts(ios, 0, e, |ios|, 0, base);
      ReachBounds(ios, results, 0, e, 0, base);
    }
  }

  /** A missing chunk, a failed one and one that returned data: the failed read reports 999 bytes. */
  lemma ErrorTurnsIntoCount()
    ensures
      var ios := [Io(Key(1, 1, 0), 0, 8000, 8000, 0, 0), Io(Key(1, 1, 1), 0, 8000, 8000, 8000, 0),
                  Io(Key(1, 1, 2), 0, 8000, 8000, 16000, 0)];
      var results := [Err(CHUNK_NOT_FOUND), Err(INVALID_ARG), Len(1)];
      && Batch(ios, [Span(0, 3, 0)]) && WellFormed(ios, results, 1)
      && ReadBatch(ios, results, [0], Zeros(24000)).res == [999]
  {
    var ios := [Io(Key(1, 1, 0), 0, 8000, 8000, 0, 0), Io(Key(1, 1, 1), 0, 8000, 8000, 8000, 0),
                Io(Key(1, 1, 2), 0, 8000, 8000, 16000, 0)];
    var results := [Err(CHUNK_NOT_FOUND), Err(INVALID_ARG), Len(1)];
    hide FillHole, Zeros;
    ThreeTurns(ios, results, Start([0], Zeros(24000)));
    assert Segment(ios, 0, 0, 0, 0) && Segment(ios, 0, 1, 0, 0) && Segment(ios, 0, 2, 0, 0);
  }
}
