/** What `concatIoRes` (src/fuse/PioV.cc) reports for writes, and for reads that refuse holes. */
module StitchStrict {
  import opened Prelude
  import opened Chunks
  import opened Stitch
  import opened StitchRead
  import opened StitchTally
  import opened StitchBatch

  /** Some piece from `a` up to `b` came up short. */
  predicate Gap(ios: seq<Io>, results: seq<IoResult>, a: int, b: int)
    requires 0 <= a <= b <= |ios| == |results|
    decreases b - a
  {
    a < b && (Short(ios[b - 1], results[b - 1]) || Gap(ios, results, a, b - 1))
  }

  /** A piece failed, or data came after a gap. */
  predicate Failed(read: bool, ios: seq<Io>, results: seq<IoResult>, a: int, b: int)
    requires 0 <= a <= b <= |ios| == |results|
    decreases b - a
  {
    a < b &&
    (Failed(read, ios, results, a, b - 1) || HardError(read, results[b - 1]) ||
     (Got(results[b - 1]) > 0 && Gap(ios, results, a, b - 1)))
  }

  /** The code of the first piece that failed. */
  function FirstError(read: bool, results: seq<IoResult>, a: int, b: int): Option<int>
    requires 0 <= a <= b <= |results|
    decreases b - a
  {
    if a == b then None
    else if FirstError(read, results, a, b - 1).Some? then FirstError(read, results, a, b - 1)
    else if HardError(read, results[b - 1]) then Some(results[b - 1].code)
    else None
  }

  /** The verdict on the pieces from `a` up to `b`. */
  ghost predicate Verdict(read: bool, ios: seq<Io>, results: seq<IoResult>, a: int, b: int, base: int, count: int)
    requires 0 <= a <= b <= |ios| == |results|
  {
    && (count < 0 <==> Failed(read, ios, results, a, b))
    && (count < 0 ==> count == -HOLE_IN_IO_OUTCOME || Some(-count) == FirstError(read, results, a, b))
    && (count >= 0 ==> count == Reach(ios, results, a, b, base) - base)
  }

  ghost predicate StrictOk(read: bool, ios: seq<Io>, results: seq<IoResult>, a: int, b: int, c: int, base: int,
                           s0: Scan, s: Scan)
    requires 0 <= a < b <= |ios| == |results|
  {
    && s.lastCtx == c && s.mem == s0.mem
    && |s.res| == |s0.res| && 0 <= c < |s.res| && s.res == s0.res[c := s.res[c]]
    && Verdict(read, ios, results, a, b, base, s.res[c])
    && (s.res[c] >= 0 ==> (s.inHole <==> Gap(ios, results, a, b)))
  }

  lemma {:induction false} NoGap(read: bool, ios: seq<Io>, results: seq<IoResult>, a: int, b: int, c: int, base: int)
    requires 0 <= a <= b <= |ios| == |results| && Segment(ios, a, b, c, base) && Plausible(ios, results, a, b)
    requires !Gap(ios, results, a, b)
    ensures Reach(ios, results, a, b, base) == End(ios, a, b, base)
    decreases b - a
  {
    if a < b { NoGap(read, ios, results, a, b - 1, c, base); }
  }

  lemma FirstStrictTurn(read: bool, holes: bool, ios: seq<Io>, results: seq<IoResult>, a: int, c: int, base: int,
                        s0: Scan)
    requires 0 <= a < |ios| == |results| && !(read && holes)
    requires Segment(ios, a, a + 1, c, base) && Plausible(ios, results, a, a + 1)
    requires 0 <= c < |s0.res| && s0.res[c] == 0 && s0.lastCtx != c
    ensures StrictOk(read, ios, results, a, a + 1, c, base, s0, Turn(read, holes, ios, results[a], a, s0))
  {
    assert Reach(ios, results, a, a, base) == base == End(ios, a, a, base);
    assert FirstError(read, results, a, a) == None;
  }

  lemma NextStrictTurn(read: bool, holes: bool, ios: seq<Io>, results: seq<IoResult>, a: int, b: int, c: int, base: int,
                       s0: Scan, s: Scan)
    requires 0 <= a < b - 1 && b <= |ios| == |results| && !(read && holes)
    requires Segment(ios, a, b, c, base) && Plausible(ios, results, a, b)
    requires StrictOk(read, ios, results, a, b - 1, c, base, s0, s)
    ensures StrictOk(read, ios, results, a, b, c, base, s0, Turn(read, holes, ios, results[b - 1], b - 1, s))
  {
    if !Gap(ios, results, a, b - 1) { NoGap(read, ios, results, a, b - 1, c, base); }
    if !Failed(read, ios, results, a, b - 1) { NoErrorYet(read, ios, results, a, b - 1); }
  }

  lemma {:induction false} NoErrorYet(read: bool, ios: seq<Io>, results: seq<IoResult>, a: int, b: int)
    requires 0 <= a <= b <= |ios| == |results| && !Failed(read, ios, results, a, b)
    ensures FirstError(read, results, a, b) == None
    decreases b - a
  {
    if a < b { NoErrorYet(read, ios, results, a, b - 1); }
  }

  lemma {:induction false} StrictScanned(read: bool, holes: bool, ios: seq<Io>, results: seq<IoResult>, a: int, b: int,
                                         c: int, base: int, s0: Scan)
    requires 0 <= a < b <= |ios| && WellFormed(ios, results, |s0.res|) && !(read && holes)
    requires Segment(ios, a, b, c, base) && Plausible(ios, results, a, b)
    requires 0 <= c < |s0.res| && s0.res[c] == 0 && s0.lastCtx != c
    ensures StrictOk(read, ios, results, a, b, c, base, s0, Scanned(read, holes, ios, results, a, b, s0))
    decreases b - a
  {
    hide Turn, StrictOk;
    LastTurn(read, holes, ios, results, a, b, s0);
    NoTurn(read, holes, ios, results, a, s0);
    if b == a + 1 {
      FirstStrictTurn(read, holes, ios, results, a, c, base, s0);
    } else {
      StrictScanned(read, holes, ios, results, a, b - 1, c, base, s0);
      NextStrictTurn(read, holes, ios, results, a, b, c, base, s0, Scanned(read, holes, ios, results, a, b - 1, s0));
    }
  }

  /** One turn changes only the result of its own request, and never makes a negative one positive. */
  lemma StrictTurn(read: bool, holes: bool, ios: seq<Io>, r: IoResult, i: int, s: Scan)
    requires 0 <= i < |ios| && 0 <= ios[i].ctx < |s.res| && !(read && holes)
    ensures var s', c := Turn(read, holes, ios, r, i, s), ios[i].ctx;
      && s'.mem == s.mem && s'.lastCtx == c && s'.res == s.res[c := s'.res[c]]
      && (s.res[c] < 0 ==> s'.res[c] == s.res[c] || s'.res[c] == -HOLE_IN_IO_OUTCOME)
  {
  }

  /** A negative result stays negative: it is the one the scan started with, or says that data came after a hole. */
  lemma {:induction false} NegativeStays(read: bool, holes: bool, ios: seq<Io>, results: seq<IoResult>, a: int, b: int,
                                         c: int, s: Scan)
    requires WellFormed(ios, results, |s.res|) && 0 <= a <= b <= |ios| && !(read && holes)
    requires 0 <= c < |s.res| && s.res[c] < 0
    ensures var count := Scanned(read, holes, ios, results, a, b, s).res[c];
      count < 0 && (count == s.res[c] || count == -HOLE_IN_IO_OUTCOME)
    decreases b - a
  {
    hide Turn;
    if a < b {
      NegativeStays(read, holes, ios, results, a, b - 1, c, s);
      StrictTurn(read, holes, ios, results[b - 1], b - 1, Scanned(read, holes, ios, results, a, b - 1, s));
    }
  }

  /** The pieces of one request change only its result. */
  lemma {:induction false} OnlyOwnResult(read: bool, holes: bool, ios: seq<Io>, results: seq<IoResult>, a: int, b: int,
                                         c: int, s: Scan)
    requires WellFormed(ios, results, |s.res|) && 0 <= a <= b <= |ios| && !(read && holes)
    requires 0 <= c < |s.res| && AllOf(ios, a, b, c)
    ensures var s' := Scanned(read, holes, ios, results, a, b, s);
      s'.mem == s.mem && s'.res == s.res[c := s'.res[c]] && s'.lastCtx == if a < b then c else s.lastCtx
    decreases b - a
  {
    hide Turn;
    if a < b {
      OnlyOwnResult(read, holes, ios, results, a, b - 1, c, s);
      StrictTurn(read, holes, ios, results[b - 1], b - 1, Scanned(read, holes, ios, results, a, b - 1, s));
    }
  }

  // ---------- batches ----------

  /** What request `j` reports: its verdict, or an error when it had failed before the scan. */
  ghost predicate StrictlyRight(read: bool, ios: seq<Io>, results: seq<IoResult>, sp: Span, preset: int, count: int)
    requires InRange(ios, results, sp)
  {
    if preset < 0 then count < 0 && (count == preset || count == -HOLE_IN_IO_OUTCOME)
    else Verdict(read, ios, results, sp.lo, sp.hi, sp.base, count)
  }

  /** The setting: pieces in request order, and each request still without a result or already failed. */
  ghost predicate StrictSetting(read: bool, holes: bool, ios: seq<Io>, results: seq<IoResult>, spans: seq<Span>,
                                presets: seq<int>) {
    && Batch(ios, spans) && !(read && holes)
    && WellFormed(ios, results, |spans|) && Plausible(ios, results, 0, |ios|)
    && |presets| == |spans| && forall j :: 0 <= j < |presets| ==> presets[j] <= 0
  }

  ghost predicate StrictBatchOk(read: bool, ios: seq<Io>, results: seq<IoResult>, spans: seq<Span>, presets: seq<int>,
                                m: int,
                                mem: seq<Byte>, s: Scan)
    requires 0 <= m <= |spans| == |presets| && |ios| == |results| && Batch(ios, spans)
  {
    && s.lastCtx < m && s.mem == mem && |s.res| == |spans|
    && (forall j :: 0 <= j < m ==> StrictlyRight(read, ios, results, spans[j], presets[j], s.res[j]))
    && (forall j :: m <= j < |spans| ==> s.res[j] == presets[j])
  }

  lemma NextStrictRequest(read: bool, holes: bool, ios: seq<Io>, results: seq<IoResult>, spans: seq<Span>,
                          presets: seq<int>, m: int,
                          mem: seq<Byte>, s: Scan)
    requires 0 <= m < |spans| && StrictSetting(read, holes, ios, results, spans, presets)
    requires StrictBatchOk(read, ios, results, spans, presets, m, mem, s)
    ensures WellFormed(ios, results, |s.res|) && InRange(ios, results, spans[m])
    ensures StrictBatchOk(read, ios, results, spans, presets, m + 1, mem,
                          Scanned(read, holes, ios, results, spans[m].lo, spans[m].hi, s))
  {
    hide Segment, Scanned, Verdict;
    var sp := spans[m];
    SegmentParts(ios, sp.lo, sp.hi, sp.hi, m, sp.base);
    OnlyOwnResult(read, holes, ios, results, sp.lo, sp.hi, m, s);
    if presets[m] < 0 {
      NegativeStays(read, holes, ios, results, sp.lo, sp.hi, m, s);
    } else if sp.lo == sp.hi {
      NoTurn(read, holes, ios, results, sp.hi, s);
      EmptyVerdict(read, ios, results, sp);
    } else {
      StrictScanned(read, holes, ios, results, sp.lo, sp.hi, m, sp.base, s);
    }
  }

  lemma EmptyVerdict(read: bool, ios: seq<Io>, results: seq<IoResult>, sp: Span)
    requires InRange(ios, results, sp) && sp.lo == sp.hi
    ensures Verdict(read, ios, results, sp.lo, sp.hi, sp.base, 0)
  {
  }

  lemma {:induction false} StrictBatchScanned(read: bool, holes: bool, ios: seq<Io>, results: seq<IoResult>,
                                              spans: seq<Span>,
                                              presets: seq<int>, m: int, mem: seq<Byte>)
    requires 0 <= m <= |spans| && StrictSetting(read, holes, ios, results, spans, presets)
    ensures 0 <= Cut(spans, m) <= |ios|
    ensures StrictBatchOk(read, ios, results, spans, presets, m, mem,
                          Scanned(read, holes, ios, results, 0, Cut(spans, m), Start(presets, mem)))
    decreases m
  {
    hide Scanned, Segment, StrictlyRight, StrictBatchOk;
    if m == 0 {
      StrictStart(read, holes, ios, results, spans, presets, mem);
    } else {
      InOrderPrefix(spans, |spans|, m);
      var sp := spans[m - 1];
      StrictBatchScanned(read, holes, ios, results, spans, presets, m - 1, mem);
      ScanSplit(read, holes, ios, results, 0, sp.lo, sp.hi, Start(presets, mem));
      NextStrictRequest(read, holes, ios, results, spans, presets, m - 1, mem,
                        Scanned(read, holes, ios, results, 0, sp.lo, Start(presets, mem)));
    }
  }

  lemma StrictStart(read: bool, holes: bool, ios: seq<Io>, results: seq<IoResult>, spans: seq<Span>, presets: seq<int>,
                    mem: seq<Byte>)
    requires StrictSetting(read, holes, ios, results, spans, presets)
    ensures StrictBatchOk(read, ios, results, spans, presets, 0, mem,
                          Scanned(read, holes, ios, results, 0, 0, Start(presets, mem)))
  {
    hide Segment;
  }

  // ---------- main results ----------

  /** When holes are refused, and for writes: a request fails exactly when it had failed before, one of its pieces
      failed or data came after a gap, and otherwise reports the bytes up to the last one transferred. The memory is
      left alone. */
  lemma StrictResults(read: bool, holes: bool, ios: seq<Io>, results: seq<IoResult>, spans: seq<Span>,
                      presets: seq<int>, mem: seq<Byte>)
    requires StrictSetting(read, holes, ios, results, spans, presets)
    ensures var final := Scanned(read, holes, ios, results, 0, |ios|, Start(presets, mem));
      && final.mem == mem
      && forall j :: 0 <= j < |spans| ==> StrictlyRight(read, ios, results, spans[j], presets[j], final.res[j])
  {
    hide Scanned, Segment, Verdict;
    StrictBatchScanned(read, holes, ios, results, spans, presets, |spans|, mem);
  }

  /** A request that did not fail has no hole: every byte it reports was transferred. */
  lemma {:induction false} NoHoleInside(read: bool, ios: seq<Io>, results: seq<IoResult>, a: int, b: int, c: int,
                                        base: int, x: int)
    requires 0 <= a <= b <= |ios| == |results| && Segment(ios, a, b, c, base) && Plausible(ios, results, a, b)
    requires !Failed(read, ios, results, a, b)
    ensures base <= x < Reach(ios, results, a, b, base) <==> Covered(ios, results, a, b, x)
    decreases b - a
  {
    if a < b {
      NoHoleInside(read, ios, results, a, b - 1, c, base, x);
      if !Gap(ios, results, a, b - 1) { NoGap(read, ios, results, a, b - 1, c, base); }
      ReachAtLeast(ios, results, a, b - 1, c, base);
    }
  }

  lemma {:induction false} ReachAtLeast(ios: seq<Io>, results: seq<IoResult>, a: int, b: int, c: int, base: int)
    requires 0 <= a <= b <= |ios| == |results| && Segment(ios, a, b, c, base) && Plausible(ios, results, a, b)
    ensures base <= Reach(ios, results, a, b, base) && base <= End(ios, a, b, base)
    decreases b - a
  {
    if a < b { ReachAtLeast(ios, results, a, b - 1, c, base); }
  }

  /** Some address before `end` was not transferred. */
  ghost predicate HasHole(ios: seq<Io>, results: seq<IoResult>, a: int, b: int, base: int, end: int)
    requires 0 <= a <= b <= |ios| == |results|
  {
    exists x :: base <= x < end && !Covered(ios, results, a, b, x)
  }

  lemma {:induction false} GapIsHole(ios: seq<Io>, results: seq<IoResult>, a: int, b: int, c: int, base: int)
    requires 0 <= a <= b <= |ios| == |results| && Segment(ios, a, b, c, base) && Plausible(ios, results, a, b)
    requires Gap(ios, results, a, b)
    ensures HasHole(ios, results, a, b, base, End(ios, a, b, base))
    decreases b - a
  {
    var end := End(ios, a, b - 1, base);
    ReachAtLeast(ios, results, a, b - 1, c, base);
    if Short(ios[b - 1], results[b - 1]) {
      var x := ios[b - 1].data + Got(results[b - 1]);
      CoveredBefore(ios, results, a, b - 1, c, base, x);
      assert !Covered(ios, results, a, b, x);
    } else {
      GapIsHole(ios, results, a, b - 1, c, base);
      var x :| base <= x < end && !Covered(ios, results, a, b - 1, x);
      assert !Covered(ios, results, a, b, x);
    }
  }

  lemma {:induction false} CoveredBefore(ios: seq<Io>, results: seq<IoResult>, a: int, b: int, c: int, base: int,
                                         x: int)
    requires 0 <= a <= b <= |ios| == |results| && Segment(ios, a, b, c, base) && Plausible(ios, results, a, b)
    ensures Covered(ios, results, a, b, x) ==> x < End(ios, a, b, base)
    decreases b - a
  {
    if a < b { CoveredBefore(ios, results, a, b - 1, c, base, x); }
  }

  /** A read in which no piece failed is refused exactly when it has a hole before its last byte. */
  lemma {:induction false} RefusedIff(ios: seq<Io>, results: seq<IoResult>, a: int, b: int, c: int, base: int)
    requires 0 <= a <= b <= |ios| == |results| && Segment(ios, a, b, c, base) && Plausible(ios, results, a, b)
    requires forall k :: a <= k < b ==> !HardError(true, results[k])
    ensures Failed(true, ios, results, a, b) <==> HasHole(ios, results, a, b, base, Reach(ios, results, a, b, base))
    decreases b - a
  {
    if Failed(true, ios, results, a, b) {
      FailedIsHole(ios, results, a, b, c, base);
    } else {
      forall x | base <= x < Reach(ios, results, a, b, base) ensures Covered(ios, results, a, b, x) {
        NoHoleInside(true, ios, results, a, b, c, base, x);
      }
    }
  }

  lemma {:induction false} FailedIsHole(ios: seq<Io>, results: seq<IoResult>, a: int, b: int, c: int, base: int)
    requires 0 <= a <= b <= |ios| == |results| && Segment(ios, a, b, c, base) && Plausible(ios, results, a, b)
    requires Failed(true, ios, results, a, b) && forall k :: a <= k < b ==> !HardError(true, results[k])
    ensures HasHole(ios, results, a, b, base, Reach(ios, results, a, b, base))
    decreases b - a
  {
    var end, was := End(ios, a, b - 1, base), Reach(ios, results, a, b - 1, base);
    ReachAtMost(ios, results, a, b - 1, c, base);
    if Failed(true, ios, results, a, b - 1) {
      FailedIsHole(ios, results, a, b - 1, c, base);
      var x :| base <= x < was && !Covered(ios, results, a, b - 1, x);
      assert !Covered(ios, results, a, b, x);
    } else {
      GapIsHole(ios, results, a, b - 1, c, base);
      var x :| base <= x < end && !Covered(ios, results, a, b - 1, x);
      assert !Covered(ios, results, a, b, x);
    }
  }

  lemma {:induction false} ReachAtMost(ios: seq<Io>, results: seq<IoResult>, a: int, b: int, c: int, base: int)
    requires 0 <= a <= b <= |ios| == |results| && Segment(ios, a, b, c, base) && Plausible(ios, results, a, b)
    ensures Reach(ios, results, a, b, base) <= End(ios, a, b, base)
    decreases b - a
  {
    if a < b { ReachAtMost(ios, results, a, b - 1, c, base); }
  }
}
