/** What `concatIoRes` (src/fuse/PioV.cc) reports for a batch of reads that may find holes. */
module StitchBatch {
  import opened Chunks
  import opened Stitch
  import opened StitchRead
  import opened StitchTally

  /** A request of a batch: the pieces it owns, and the address of its buffer. */
  datatype Span = Span(lo: int, hi: int, base: int)

  /** Request `j` owns these pieces and they fill its buffer. A request of no bytes owns no piece. */
  ghost predicate Owns(ios: seq<Io>, sp: Span, j: int) {
    0 <= sp.lo <= sp.hi <= |ios| && Segment(ios, sp.lo, sp.hi, j, sp.base)
  }

  /** The number of pieces of the first `m` requests. */
  function Cut(spans: seq<Span>, m: int): int
    requires 0 <= m <= |spans|
  {
    if m == 0 then 0 else spans[m - 1].hi
  }

  /** The first `m` requests own the first pieces, in order. */
  ghost predicate InOrder(spans: seq<Span>, m: int)
    requires 0 <= m <= |spans|
    decreases m
  {
    m == 0 || (InOrder(spans, m - 1) && spans[m - 1].lo == Cut(spans, m - 1))
  }

  /** A whole batch: its pieces in request order, none left over. */
  ghost predicate Batch(ios: seq<Io>, spans: seq<Span>) {
    && (forall j :: 0 <= j < |spans| ==> Owns(ios, spans[j], j))
    && InOrder(spans, |spans|) && Cut(spans, |spans|) == |ios|
  }

  lemma {:induction false} InOrderPrefix(spans: seq<Span>, n: int, m: int)
    requires 0 <= m <= n <= |spans| && InOrder(spans, n)
    ensures InOrder(spans, m)
    decreases n
  {
    if m < n { InOrderPrefix(spans, n - 1, m); }
  }

  predicate InRange(ios: seq<Io>, results: seq<IoResult>, sp: Span) {
    0 <= sp.lo <= sp.hi <= |ios| == |results|
  }

  /** The bytes of a request up to the last one that was read. */
  function Count(ios: seq<Io>, results: seq<IoResult>, sp: Span): int
    requires InRange(ios, results, sp)
  {
    Reach(ios, results, sp.lo, sp.hi, sp.base) - sp.base
  }

  /** The hole a request takes over from those before: its first piece found no chunk. */
  function Taken(results: seq<IoResult>, sp: Span, hole: int): int
    requires 0 <= sp.lo <= sp.hi <= |results|
  {
    if sp.lo < sp.hi && results[sp.lo].Err? then hole else 0
  }

  /** The request takes over a hole, and a later piece of it returned data. */
  predicate Tainted(results: seq<IoResult>, sp: Span, hole: int)
    requires 0 <= sp.lo <= sp.hi <= |results|
  {
    0 < Taken(results, sp, hole) && FirstData(results, sp.lo, sp.hi) < sp.hi
  }

  /** The buffer address of the first piece that returned data. */
  function DataAt(ios: seq<Io>, results: seq<IoResult>, sp: Span): int
    requires InRange(ios, results, sp)
  {
    var d := FirstData(results, sp.lo, sp.hi);
    if d < sp.hi then ios[d].data else sp.base
  }

  /** What a request without failed pieces reports, given its result before the scan, zero or the error it already
      failed with, and the hole open before it. */
  function Reports(ios: seq<Io>, results: seq<IoResult>, sp: Span, preset: int, hole: int): int
    requires InRange(ios, results, sp)
  {
    var n := Count(ios, results, sp);
    if !Tainted(results, sp, hole) then if preset < 0 then preset else n
    else if preset >= 0 then n + hole
    else if preset + hole < 0 then preset + hole
    else preset + hole + (sp.base + n - DataAt(ios, results, sp))
  }

  /** The size of the hole that is then open behind the request. */
  function Behind(ios: seq<Io>, results: seq<IoResult>, sp: Span, preset: int, hole: int): int
    requires InRange(ios, results, sp)
  {
    var n, taken := Count(ios, results, sp), Taken(results, sp, hole);
    var rest := End(ios, sp.lo, sp.hi, sp.base) - sp.base - n;
    if sp.lo == sp.hi then hole
    else if preset >= 0 then if n == 0 then rest + taken else rest
    else if !Tainted(results, sp, hole) then taken
    else if preset + hole < 0 then 0
    else rest
  }

  /** The tally of request `j`. */
  function TallyOf(ios: seq<Io>, results: seq<IoResult>, spans: seq<Span>, presets: seq<int>, j: int): Tally
    requires 0 <= j < |spans| == |presets| && forall j :: 0 <= j < |spans| ==> InRange(ios, results, spans[j])
    decreases j, 1
  {
    Tallied(ios, results, spans[j].lo, spans[j].hi, Tally(presets[j], Carried(ios, results, spans, presets, j)))
  }

  /** The size of the hole that is open behind the first `m` requests, whatever their pieces returned. */
  function Carried(ios: seq<Io>, results: seq<IoResult>, spans: seq<Span>, presets: seq<int>, m: int): int
    requires 0 <= m <= |spans| == |presets| && forall j :: 0 <= j < |spans| ==> InRange(ios, results, spans[j])
    decreases m, 0
  {
    if m == 0 then 0 else TallyOf(ios, results, spans, presets, m - 1).hole
  }

  // ---------- one request ----------

  lemma {:induction false} NoData(ios: seq<Io>, results: seq<IoResult>, a: int, b: int, base: int)
    requires 0 <= a <= b <= |ios| == |results| && forall k :: a <= k < b ==> Got(results[k]) <= 0
    ensures Reach(ios, results, a, b, base) == base
    decreases b - a
  {
    if a < b { NoData(ios, results, a, b - 1, base); }
  }

  lemma {:induction false} DataBeforeReach(ios: seq<Io>, results: seq<IoResult>, a: int, b: int, c: int, base: int,
                                           d: int)
    requires 0 <= a <= d < b <= |ios| == |results| && Got(results[d]) > 0
    requires Segment(ios, a, b, c, base) && Outcomes(ios, results, a, b)
    ensures base <= ios[d].data < Reach(ios, results, a, b, base)
    decreases b - a
  {
    ReachBounds(ios, results, a, b - 1, c, base);
    if d < b - 1 { DataBeforeReach(ios, results, a, b - 1, c, base, d); }
  }

  lemma CountFacts(ios: seq<Io>, results: seq<IoResult>, sp: Span, c: int)
    requires Owns(ios, sp, c) && |ios| == |results| && Outcomes(ios, results, sp.lo, sp.hi)
    ensures var d := FirstData(results, sp.lo, sp.hi);
      && (0 < Count(ios, results, sp) <==> d < sp.hi)
      && sp.base <= DataAt(ios, results, sp) <= sp.base + Count(ios, results, sp) <= End(ios, sp.lo, sp.hi, sp.base)
  {
    hide Segment, Reach;
    var d := FirstData(results, sp.lo, sp.hi);
    ReachBounds(ios, results, sp.lo, sp.hi, c, sp.base);
    if d < sp.hi {
      DataBeforeReach(ios, results, sp.lo, sp.hi, c, sp.base, d);
    } else {
      NoData(ios, results, sp.lo, sp.hi, sp.base);
    }
  }

  /** Such a request reports what it should exactly when it does not take over a hole before data. */
  lemma ReportsRightIff(ios: seq<Io>, results: seq<IoResult>, sp: Span, c: int, preset: int, hole: int)
    requires Owns(ios, sp, c) && |ios| == |results| && Outcomes(ios, results, sp.lo, sp.hi) && preset <= 0
    ensures Reports(ios, results, sp, preset, hole) == (if preset < 0 then preset else Count(ios, results, sp))
       <==> !Tainted(results, sp, hole)
  {
    hide Count, DataAt, FirstData;
    CountFacts(ios, results, sp, c);
  }

  ghost predicate StepOk(ios: seq<Io>, results: seq<IoResult>, sp: Span, c: int, hole: int, s0: Scan, s: Scan)
    requires InRange(ios, results, sp) && 0 <= c < |s0.res|
  {
    && s.lastCtx <= c && s.res == s0.res[c := Reports(ios, results, sp, s0.res[c], hole)]
    && HoleIs(s, Behind(ios, results, sp, s0.res[c], hole))
  }

  lemma GoodStep(ios: seq<Io>, results: seq<IoResult>, sp: Span, c: int, hole: int, s0: Scan)
    requires Owns(ios, sp, c) && sp.lo < sp.hi && WellFormed(ios, results, |s0.res|)
    requires Outcomes(ios, results, sp.lo, sp.hi)
    requires Entry(c, s0, hole)
    ensures StepOk(ios, results, sp, c, hole, s0, Scanned(true, true, ios, results, sp.lo, sp.hi, s0))
  {
    hide Scanned, Segment, Reach, FirstData;
    RequestScanned(ios, results, sp.lo, sp.hi, c, sp.base, s0, hole);
    InheritedIs(results[sp.lo], c, s0, hole);
    CountFacts(ios, results, sp, c);
    ReachBounds(ios, results, sp.lo, sp.hi, c, sp.base);
  }

  lemma FailedStep(ios: seq<Io>, results: seq<IoResult>, sp: Span, c: int, hole: int, s0: Scan)
    requires Owns(ios, sp, c) && sp.lo < sp.hi && WellFormed(ios, results, |s0.res|)
    requires Outcomes(ios, results, sp.lo, sp.hi)
    requires 0 <= c < |s0.res| && s0.res[c] < 0 && s0.lastCtx != c && HoleIs(s0, hole)
    ensures StepOk(ios, results, sp, c, hole, s0, Scanned(true, true, ios, results, sp.lo, sp.hi, s0))
  {
    hide Scanned, Segment, Reach, FirstData;
    FailedScanned(ios, results, sp.lo, sp.hi, c, sp.base, s0, hole);
    CountFacts(ios, results, sp, c);
  }

  /** A request without pieces changes nothing. */
  lemma EmptyStep(ios: seq<Io>, results: seq<IoResult>, sp: Span, c: int, hole: int, s: Scan)
    requires InRange(ios, results, sp) && sp.lo == sp.hi && 0 <= c < |s.res| && s.res[c] <= 0 && s.lastCtx <= c
    requires HoleIs(s, hole)
    ensures StepOk(ios, results, sp, c, hole, s, s)
  {
  }

  /** The tally of a request without failed pieces, in terms of its pieces. */
  lemma TalliedIs(ios: seq<Io>, results: seq<IoResult>, sp: Span, c: int, n: int, preset: int, hole: int)
    requires Owns(ios, sp, c) && WellFormed(ios, results, n) && 0 <= c < n && preset <= 0 <= hole
    requires Outcomes(ios, results, sp.lo, sp.hi)
    ensures Tallied(ios, results, sp.lo, sp.hi, Tally(preset, hole))
         == Tally(Reports(ios, results, sp, preset, hole), Behind(ios, results, sp, preset, hole))
  {
    hide Scanned, Segment, Reports, Behind, Tallied;
    var s := Witness(n, c, Tally(preset, hole));
    ScanTallies(ios, results, sp.lo, sp.hi, c, sp.base, s, Tally(preset, hole));
    if sp.lo == sp.hi {
      NoTurn(true, true, ios, results, sp.lo, s);
      EmptyStep(ios, results, sp, c, hole, s);
    } else if preset < 0 {
      FailedStep(ios, results, sp, c, hole, s);
    } else {
      GoodStep(ios, results, sp, c, hole, s);
    }
  }

  // ---------- the batch ----------

  /** The setting: pieces in request order with any outcomes, and each request still without a result or already
      failed. */
  ghost predicate ScanSetting(ios: seq<Io>, results: seq<IoResult>, spans: seq<Span>, presets: seq<int>) {
    && Batch(ios, spans) && WellFormed(ios, results, |spans|) && Plausible(ios, results, 0, |ios|)
    && |presets| == |spans| && forall j :: 0 <= j < |presets| ==> presets[j] <= 0
  }

  ghost predicate BatchOk(ios: seq<Io>, results: seq<IoResult>, spans: seq<Span>, presets: seq<int>, m: int, s: Scan)
    requires 0 <= m <= |spans| && ScanSetting(ios, results, spans, presets)
  {
    && s.lastCtx < m && |s.res| == |spans|
    && (forall j :: 0 <= j < m ==> s.res[j] == TallyOf(ios, results, spans, presets, j).count)
    && (forall j :: m <= j < |spans| ==> s.res[j] == presets[j])
    && HoleIs(s, Carried(ios, results, spans, presets, m))
  }

  lemma NextRequest(ios: seq<Io>, results: seq<IoResult>, spans: seq<Span>, presets: seq<int>, m: int, s: Scan)
    requires 0 <= m < |spans| && ScanSetting(ios, results, spans, presets)
    requires BatchOk(ios, results, spans, presets, m, s)
    ensures WellFormed(ios, results, |s.res|) && InRange(ios, results, spans[m])
    ensures BatchOk(ios, results, spans, presets, m + 1, Scanned(true, true, ios, results, spans[m].lo, spans[m].hi, s))
  {
    hide Scanned, Segment, HoleIs, Tallied;
    var sp, hole := spans[m], Carried(ios, results, spans, presets, m);
    ScanTallies(ios, results, sp.lo, sp.hi, m, sp.base, s, Tally(presets[m], hole));
  }

  lemma {:induction false} BatchScanned(ios: seq<Io>, results: seq<IoResult>, spans: seq<Span>, presets: seq<int>,
                                        m: int, mem: seq<Byte>)
    requires 0 <= m <= |spans| && ScanSetting(ios, results, spans, presets)
    ensures 0 <= Cut(spans, m) <= |ios|
    ensures BatchOk(ios, results, spans, presets, m,
                    Scanned(true, true, ios, results, 0, Cut(spans, m), Start(presets, mem)))
    decreases m
  {
    hide Scanned, Segment, BatchOk;
    if m == 0 {
      BatchStart(ios, results, spans, presets, mem);
    } else {
      InOrderPrefix(spans, |spans|, m);
      var sp := spans[m - 1];
      BatchScanned(ios, results, spans, presets, m - 1, mem);
      ScanSplit(true, true, ios, results, 0, sp.lo, sp.hi, Start(presets, mem));
      NextRequest(ios, results, spans, presets, m - 1,
                  Scanned(true, true, ios, results, 0, sp.lo, Start(presets, mem)));
    }
  }

  lemma BatchStart(ios: seq<Io>, results: seq<IoResult>, spans: seq<Span>, presets: seq<int>, mem: seq<Byte>)
    requires ScanSetting(ios, results, spans, presets)
    ensures BatchOk(ios, results, spans, presets, 0, Scanned(true, true, ios, results, 0, 0, Start(presets, mem)))
  {
    hide Segment;
  }

  // ---------- main results ----------

  /** The scan of a whole batch of reads that may find holes. */
  function ReadBatch(ios: seq<Io>, results: seq<IoResult>, presets: seq<int>, mem: seq<Byte>): (s: Scan)
    requires WellFormed(ios, results, |presets|)
    ensures |s.res| == |presets| && |s.mem| == |mem|
  {
    Scanned(true, true, ios, results, 0, |ios|, Start(presets, mem))
  }

  /** In any batch of reads that may find holes every request reports its tally. If no piece of it failed, that is the
      bytes up to the last one read, or the error it had failed with before, exactly when the request does not take over
      a hole before data. */
  lemma BatchCounts(ios: seq<Io>, results: seq<IoResult>, spans: seq<Span>, presets: seq<int>, mem: seq<Byte>, j: int)
    requires ScanSetting(ios, results, spans, presets) && 0 <= j < |spans|
    ensures ReadBatch(ios, results, presets, mem).res[j] == TallyOf(ios, results, spans, presets, j).count
    ensures Outcomes(ios, results, spans[j].lo, spans[j].hi) ==>
      var sp, hole := spans[j], Carried(ios, results, spans, presets, j);
      var reported := ReadBatch(ios, results, presets, mem).res[j];
      && reported == Reports(ios, results, sp, presets[j], hole)
      && (reported == (if presets[j] < 0 then presets[j] else Count(ios, results, sp))
          <==> !Tainted(results, sp, hole))
  {
    hide Scanned, Tainted, Count, Segment, Reports, Tallied;
    BatchScanned(ios, results, spans, presets, |spans|, mem);
    if Outcomes(ios, results, spans[j].lo, spans[j].hi) {
      CarriedSign(ios, results, spans, presets, j);
      TalliedIs(ios, results, spans[j], j, |spans|, presets[j], Carried(ios, results, spans, presets, j));
      ReportsRightIff(ios, results, spans[j], j, presets[j], Carried(ios, results, spans, presets, j));
    }
  }

  lemma BehindIff(ios: seq<Io>, results: seq<IoResult>, sp: Span, c: int, hole: int)
    requires Owns(ios, sp, c) && |ios| == |results| && Outcomes(ios, results, sp.lo, sp.hi) && 0 <= hole
    ensures 0 < Behind(ios, results, sp, 0, hole)
       <==> if sp.lo == sp.hi then 0 < hole else Short(ios[sp.hi - 1], results[sp.hi - 1])
  {
    hide Segment, Reach;
    ReachBounds(ios, results, sp.lo, sp.hi, c, sp.base);
  }

  /** When none of the first `m` requests failed, before the scan or in it, a hole is open behind them exactly when
      their last piece came up short. */
  lemma {:induction false} CarriedIff(ios: seq<Io>, results: seq<IoResult>, spans: seq<Span>, presets: seq<int>, m: int)
    requires 0 <= m <= |spans| && ScanSetting(ios, results, spans, presets)
    requires forall j :: 0 <= j < m ==> presets[j] == 0 && Outcomes(ios, results, spans[j].lo, spans[j].hi)
    ensures 0 <= Cut(spans, m) <= |ios|
    ensures 0 < Carried(ios, results, spans, presets, m)
       <==> 0 < Cut(spans, m) && Short(ios[Cut(spans, m) - 1], results[Cut(spans, m) - 1])
    decreases m
  {
    hide Segment, Behind, Reports, Short, BatchOk, Tallied;
    if m > 0 {
      InOrderPrefix(spans, |spans|, m);
      CarriedIff(ios, results, spans, presets, m - 1);
      assert 0 <= Carried(ios, results, spans, presets, m - 1) by { CarriedSign(ios, results, spans, presets, m - 1); }
      TalliedIs(ios, results, spans[m - 1], m - 1, |spans|, 0, Carried(ios, results, spans, presets, m - 1));
      BehindIff(ios, results, spans[m - 1], m - 1, Carried(ios, results, spans, presets, m - 1));
    }
  }

  lemma CarriedSign(ios: seq<Io>, results: seq<IoResult>, spans: seq<Span>, presets: seq<int>, m: int)
    requires 0 <= m <= |spans| && ScanSetting(ios, results, spans, presets)
    ensures 0 <= Carried(ios, results, spans, presets, m)
  {
    hide Segment, Behind, Scanned;
    BatchScanned(ios, results, spans, presets, m, []);
  }

  /** The hole behind a request without failed pieces. */
  lemma CarriedNext(ios: seq<Io>, results: seq<IoResult>, spans: seq<Span>, presets: seq<int>, m: int)
    requires 0 < m <= |spans| && ScanSetting(ios, results, spans, presets)
    requires Outcomes(ios, results, spans[m - 1].lo, spans[m - 1].hi)
    ensures 0 <= Carried(ios, results, spans, presets, m)
         == Behind(ios, results, spans[m - 1], presets[m - 1], Carried(ios, results, spans, presets, m - 1))
  {
    hide Segment, Behind, Reports, Tallied, BatchOk;
    CarriedSign(ios, results, spans, presets, m - 1);
    CarriedSign(ios, results, spans, presets, m);
    TalliedIs(ios, results, spans[m - 1], m - 1, |spans|, presets[m - 1], Carried(ios, results, spans, presets, m - 1));
  }

  /** No two requests share a byte of their buffers. */
  ghost predicate Disjoint(ios: seq<Io>, spans: seq<Span>)
    requires Batch(ios, spans)
  {
    forall i, j :: 0 <= i < |spans| && 0 <= j < |spans| && i != j ==> Apart(ios, spans[i], spans[j])
  }

  ghost predicate Apart(ios: seq<Io>, p: Span, q: Span)
    requires 0 <= p.lo && p.hi <= |ios| && 0 <= q.lo && q.hi <= |ios|
  {
    End(ios, p.lo, p.hi, p.base) <= q.base || End(ios, q.lo, q.hi, q.base) <= p.base
  }

  lemma {:induction false} OwnerOf(spans: seq<Span>, m: int, k: int) returns (j: int)
    requires 0 <= m <= |spans| && InOrder(spans, m) && 0 <= k < Cut(spans, m)
    ensures 0 <= j < m && spans[j].lo <= k < spans[j].hi
    decreases m
  {
    if spans[m - 1].lo <= k { j := m - 1; } else { j := OwnerOf(spans, m - 1, k); }
  }

  lemma {:induction false} InsideBuffer(ios: seq<Io>, a: int, b: int, c: int, base: int, k: int)
    requires 0 <= a <= k < b <= |ios| && Segment(ios, a, b, c, base)
    ensures base <= ios[k].data && ios[k].data + ios[k].length <= End(ios, a, b, base)
    decreases b - a
  {
    if a < b - 1 { InsideBuffer(ios, a, b - 1, c, base, if k < b - 1 then k else b - 2); }
  }

  /** Request `j` failed neither before the scan nor in one of its pieces. */
  ghost predicate GoodRequest(ios: seq<Io>, results: seq<IoResult>, spans: seq<Span>, presets: seq<int>, j: int)
    requires ScanSetting(ios, results, spans, presets) && 0 <= j < |spans|
  {
    presets[j] == 0 && Outcomes(ios, results, spans[j].lo, spans[j].hi)
  }

  /** Address `x` lies in the buffer of request `j`. */
  ghost predicate InBuffer(ios: seq<Io>, spans: seq<Span>, j: int, x: int)
    requires Batch(ios, spans) && 0 <= j < |spans|
  {
    spans[j].base <= x < End(ios, spans[j].lo, spans[j].hi, spans[j].base)
  }

  lemma OthersElsewhere(ios: seq<Io>, spans: seq<Span>, j: int, x: int, k: int)
    requires Batch(ios, spans) && Disjoint(ios, spans) && 0 <= j < |spans| && InBuffer(ios, spans, j, x)
    requires 0 <= k < |ios| && !(spans[j].lo <= k < spans[j].hi)
    ensures !InPiece(ios[k], x)
  {
    hide Segment;
    var i := OwnerOf(spans, |spans|, k);
    InsideBuffer(ios, spans[i].lo, spans[i].hi, i, spans[i].base, k);
    assert Apart(ios, spans[i], spans[j]);
  }

  /** The state after the first `m` requests. */
  function Upto(ios: seq<Io>, results: seq<IoResult>, spans: seq<Span>, presets: seq<int>, mem: seq<Byte>,
                m: int): (s: Scan)
    requires 0 <= m <= |spans| && WellFormed(ios, results, |presets|) && 0 <= Cut(spans, m) <= |ios|
    ensures |s.mem| == |mem| && |s.res| == |presets|
  {
    Scanned(true, true, ios, results, 0, Cut(spans, m), Start(presets, mem))
  }

  lemma UptoNext(ios: seq<Io>, results: seq<IoResult>, spans: seq<Span>, presets: seq<int>, mem: seq<Byte>, m: int)
    requires 0 <= m < |spans| && ScanSetting(ios, results, spans, presets)
    ensures 0 <= Cut(spans, m) == spans[m].lo <= spans[m].hi <= |ios|
    ensures Upto(ios, results, spans, presets, mem, m + 1)
         == Scanned(true, true, ios, results, spans[m].lo, spans[m].hi, Upto(ios, results, spans, presets, mem, m))
  {
    hide Scanned, Segment;
    InOrderPrefix(spans, |spans|, m + 1);
    BatchCut(ios, spans, m);
    ScanSplit(true, true, ios, results, 0, spans[m].lo, spans[m].hi, Start(presets, mem));
  }

  lemma BatchCut(ios: seq<Io>, spans: seq<Span>, m: int)
    requires Batch(ios, spans) && 0 <= m <= |spans|
    ensures 0 <= Cut(spans, m) <= |ios|
  {
    hide Segment;
  }

  /** Up to and including its own request an address sees only that request. */
  lemma OwnBuffer(ios: seq<Io>, results: seq<IoResult>, spans: seq<Span>, presets: seq<int>, mem: seq<Byte>, j: int,
                  x: int)
    requires ScanSetting(ios, results, spans, presets) && Disjoint(ios, spans) && 0 <= j < |spans|
    requires GoodRequest(ios, results, spans, presets, j)
    requires InBuffer(ios, spans, j, x) && 0 <= x < |mem| && 0 <= Cut(spans, j + 1) <= |ios|
    ensures OwnOk(ios, results, spans[j].lo, spans[j].hi, spans[j].base, x, mem[x],
                  Upto(ios, results, spans, presets, mem, j + 1))
  {
    hide Scanned, Segment, InPiece, OwnOk, Apart;
    var sp := spans[j];
    UptoNext(ios, results, spans, presets, mem, j);
    forall k | 0 <= k < sp.lo ensures !InPiece(ios[k], x) { OthersElsewhere(ios, spans, j, x, k); }
    ForeignScanned(ios, results, 0, sp.lo, Start(presets, mem), x);
    BatchScanned(ios, results, spans, presets, j, mem);
    OwnScanned(ios, results, sp.lo, sp.hi, j, sp.base, Upto(ios, results, spans, presets, mem, j),
               Carried(ios, results, spans, presets, j), x);
  }

  /** A request that does not take over a hole before data leaves the buffers of others alone. */
  lemma LeavesOthers(ios: seq<Io>, results: seq<IoResult>, sp: Span, c: int, hole: int, s: Scan, x: int)
    requires Owns(ios, sp, c) && WellFormed(ios, results, |s.res|) && Plausible(ios, results, sp.lo, sp.hi)
    requires 0 <= c < |s.res| && s.lastCtx < c && HoleIs(s, hole) && !Tainted(results, sp, hole)
    requires HoleAt(sp.lo, s) && 0 <= x < |s.mem| && Elsewhere(ios, sp.lo, sp.hi, x)
    requires (InZone(ios, sp.lo, s, x) ==> s.inHole)
    ensures var s' := Scanned(true, true, ios, results, sp.lo, sp.hi, s);
      s'.mem[x] == s.mem[x] && HoleAt(sp.hi, s') && (InZone(ios, sp.hi, s', x) ==> s'.inHole)
  {
    hide Scanned, Segment, Reach, FirstData;
    var a, b := sp.lo, sp.hi;
    ForeignScanned(ios, results, a, b, s, x);
    if a < b && results[a].Len? {
      SegmentParts(ios, a, b, b, c, sp.base);
      NoTurn(true, true, ios, results, a, s);
      LastTurn(true, true, ios, results, a, a + 1, s);
      ScanSplit(true, true, ios, results, a, a + 1, b, s);
      ForeignTurn(ios, results[a], a, s, x);
      DropsZone(ios, results[a], a, s, x);
      ForeignScanned(ios, results, a + 1, b, Scanned(true, true, ios, results, a, a + 1, s), x);
    }
  }

  lemma DropsZone(ios: seq<Io>, r: IoResult, i: int, s: Scan, x: int)
    requires 0 <= i < |ios| && 0 <= ios[i].ctx < |s.res| && r.Len? && 0 <= r.n && s.lastCtx != ios[i].ctx
    requires !InPiece(ios[i], x)
    ensures !InZone(ios, i + 1, Turn(true, true, ios, r, i, s), x)
  {
  }

  lemma {:induction false} RestLeftAlone(ios: seq<Io>, results: seq<IoResult>, spans: seq<Span>, presets: seq<int>,
                                         mem: seq<Byte>, j: int, m: int, x: int)
    requires ScanSetting(ios, results, spans, presets) && Disjoint(ios, spans) && 0 <= j < m <= |spans|
    requires GoodRequest(ios, results, spans, presets, j)
    requires InBuffer(ios, spans, j, x) && 0 <= x < |mem| && 0 <= Cut(spans, m) <= |ios|
    requires 0 <= Cut(spans, j + 1) <= |ios|
    requires forall k :: j < k < m ==> !Tainted(results, spans[k], Carried(ios, results, spans, presets, k))
    ensures var s := Upto(ios, results, spans, presets, mem, m);
      && s.mem[x] == Upto(ios, results, spans, presets, mem, j + 1).mem[x]
      && HoleAt(Cut(spans, m), s) && (InZone(ios, Cut(spans, m), s, x) ==> s.inHole)
    decreases m
  {
    hide Upto, Segment, InPiece, Apart, Tainted, Carried, InZone, HoleAt;
    if m == j + 1 {
      OwnBuffer(ios, results, spans, presets, mem, j, x);
    } else {
      var sp := spans[m - 1];
      UptoNext(ios, results, spans, presets, mem, m - 1);
      RestLeftAlone(ios, results, spans, presets, mem, j, m - 1, x);
      SpansApart(spans, |spans|, j, m - 1);
      forall k | sp.lo <= k < sp.hi ensures !InPiece(ios[k], x) { OthersElsewhere(ios, spans, j, x, k); }
      UptoState(ios, results, spans, presets, mem, m - 1);
      LeavesOthers(ios, results, sp, m - 1, Carried(ios, results, spans, presets, m - 1),
                   Upto(ios, results, spans, presets, mem, m - 1), x);
    }
  }

  lemma {:induction false} SpansApart(spans: seq<Span>, n: int, i: int, j: int)
    requires 0 <= i < j < n <= |spans| && InOrder(spans, n) && forall k :: 0 <= k < n ==> spans[k].lo <= spans[k].hi
    ensures spans[i].hi <= spans[j].lo
    decreases n
  {
    if j < n - 1 { SpansApart(spans, n - 1, i, j); }
    else if i < j - 1 { SpansApart(spans, n - 1, i, j - 1); }
  }

  lemma UptoState(ios: seq<Io>, results: seq<IoResult>, spans: seq<Span>, presets: seq<int>, mem: seq<Byte>, m: int)
    requires 0 <= m < |spans| && ScanSetting(ios, results, spans, presets) && 0 <= Cut(spans, m) <= |ios|
    ensures var s := Upto(ios, results, spans, presets, mem, m);
      s.lastCtx < m && HoleIs(s, Carried(ios, results, spans, presets, m))
  {
    hide Scanned, Segment;
    BatchScanned(ios, results, spans, presets, m, mem);
  }

  /** The bytes of every request that did not fail, whatever the others did and took over: up to the
      last byte read, what was read stays and holes become zero. The rest of its buffer is left alone if no later
      request takes over a hole. */
  lemma BatchBytes(ios: seq<Io>, results: seq<IoResult>, spans: seq<Span>, presets: seq<int>, mem: seq<Byte>, j: int,
                   x: int)
    requires ScanSetting(ios, results, spans, presets) && Disjoint(ios, spans)
    requires 0 <= j < |spans| && GoodRequest(ios, results, spans, presets, j) && InBuffer(ios, spans, j, x)
    requires 0 <= x < |mem|
    ensures var final, sp := ReadBatch(ios, results, presets, mem).mem, spans[j];
      if x < sp.base + Count(ios, results, sp) then
        final[x] == if Covered(ios, results, sp.lo, sp.hi, x) then mem[x] else 0
      else
        (forall k :: j < k < |spans| ==>
           !Tainted(results, spans[k], Carried(ios, results, spans, presets, k))) ==> final[x] == mem[x]
  {
    hide Scanned, Segment, InPiece, Apart, Tainted, Carried, Reach, Covered;
    var sp, n := spans[j], |spans|;
    BatchCut(ios, spans, j + 1);
    OwnBuffer(ios, results, spans, presets, mem, j, x);
    if x < sp.base + Count(ios, results, sp) {
      forall k | sp.hi <= k < |ios| ensures !InPiece(ios[k], x) { OthersElsewhere(ios, spans, j, x, k); }
      ScanSplit(true, true, ios, results, 0, sp.hi, |ios|, Start(presets, mem));
      ForeignScanned(ios, results, sp.hi, |ios|, Upto(ios, results, spans, presets, mem, j + 1), x);
    } else if forall k :: j < k < n ==> !Tainted(results, spans[k], Carried(ios, results, spans, presets, k)) {
      RestLeftAlone(ios, results, spans, presets, mem, j, n, x);
    }
  }

  /** Two files are read in one batch. The first read ends in a hole; the first chunk of the second file is missing, its
      second one is not. The second request reports five bytes for four. */
  lemma TakesOverAHole()
    ensures
      var ios := [Io(Key(1, 1, 0), 0, 2, 2, 0, 0), Io(Key(1, 2, 0), 0, 2, 2, 2, 1), Io(Key(1, 2, 1), 0, 2, 2, 4, 1)];
      var results := [Len(1), Err(CHUNK_NOT_FOUND), Len(2)];
      var spans := [Span(0, 1, 0), Span(1, 3, 2)];
      && ScanSetting(ios, results, spans, [0, 0])
      && Count(ios, results, spans[1]) == 4 && ReadBatch(ios, results, [0, 0], Zeros(6)).res == [1, 5]
  {
    var ios := [Io(Key(1, 1, 0), 0, 2, 2, 0, 0), Io(Key(1, 2, 0), 0, 2, 2, 2, 1), Io(Key(1, 2, 1), 0, 2, 2, 4, 1)];
    var results := [Len(1), Err(CHUNK_NOT_FOUND), Len(2)];
    TwoRequests(ios, [Span(0, 1, 0), Span(1, 3, 2)]);
    hide Zeros, FillHole, Batch;
    ThreeTurns(ios, results, Start([0, 0], Zeros(6)));
    assert Reach(ios, results, 1, 3, 2) == 6;
  }

  /** A request of one piece and one of two pieces make a batch. */
  lemma TwoRequests(ios: seq<Io>, spans: seq<Span>)
    requires |ios| == 3 && |spans| == 2 && spans[0].lo == 0 && spans[0].hi == 1 == spans[1].lo && spans[1].hi == 3
    requires forall k :: 0 <= k < 3 ==> 0 < ios[k].length && ios[k].ctx == if k == 0 then 0 else 1
    requires ios[0].data == spans[0].base && ios[1].data == spans[1].base && ios[2].data == ios[1].data + ios[1].length
    ensures Batch(ios, spans)
  {
    assert Segment(ios, 0, 0, 0, spans[0].base) && Segment(ios, 1, 2, 1, spans[1].base);
  }

  lemma ThreeTurns(ios: seq<Io>, results: seq<IoResult>, s: Scan)
    requires |ios| == 3 && WellFormed(ios, results, |s.res|)
    ensures Scanned(true, true, ios, results, 0, 3, s)
         == var s1 := Turn(true, true, ios, results[0], 0, s);
            Turn(true, true, ios, results[2], 2, Turn(true, true, ios, results[1], 1, s1))
  {
    hide Turn;
    LastTurn(true, true, ios, results, 0, 3, s);
    LastTurn(true, true, ios, results, 0, 2, s);
    LastTurn(true, true, ios, results, 0, 1, s);
    NoTurn(true, true, ios, results, 0, s);
  }

  /** The second request failed before the scan, because a chunk behind its two pieces cannot be addressed. Its first
      chunk is missing, and so was the one before: the failed request reports 1997 bytes. */
  lemma FailedRequestReportsBytes()
    ensures
      var ios := [Io(Key(1, 1, 0), 0, 8000, 8000, 0, 0), Io(Key(1, 2, 0), 0, 8000, 8000, 8000, 1),
                  Io(Key(1, 2, 1), 0, 8000, 8000, 16000, 1)];
      var results := [Err(CHUNK_NOT_FOUND), Err(CHUNK_NOT_FOUND), Len(1)];
      && ScanSetting(ios, results, [Span(0, 1, 0), Span(1, 3, 8000)], [0, -6004])
      && ReadBatch(ios, results, [0, -6004], Zeros(24000)).res == [0, 1997]
  {
    var ios := [Io(Key(1, 1, 0), 0, 8000, 8000, 0, 0), Io(Key(1, 2, 0), 0, 8000, 8000, 8000, 1),
                Io(Key(1, 2, 1), 0, 8000, 8000, 16000, 1)];
    var results := [Err(CHUNK_NOT_FOUND), Err(CHUNK_NOT_FOUND), Len(1)];
    TwoRequests(ios, [Span(0, 1, 0), Span(1, 3, 8000)]);
    hide FillHole, Zeros, Batch;
    ThreeTurns(ios, results, Start([0, -6004], Zeros(24000)));
  }
}
