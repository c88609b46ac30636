/** What `concatIoRes` (src/fuse/PioV.cc) counts in reads that may find holes, whatever the pieces return: two numbers
    per request, without buffers, indices and the state carried between requests. */
module StitchTally {
  import opened Prelude
  import opened Chunks
  import opened Stitch
  import opened StitchRead

  /** The result so far, and the size of the open hole. */
  datatype Tally = Tally(count: int, hole: int)

  /** One piece. The first piece of a request drops the hole it finds open, if it found its chunk; data in a later one
      adds the hole to the result, even to an error. */
  function Tick(io: Io, r: IoResult, first: bool, t: Tally): Tally {
    var t1 :=
      if r.Err? then t
      else if first then t.(hole := 0)
      else if 0 < r.n then Tally(t.count + t.hole, 0)
      else t;
    var count := if HardError(true, r) && t1.count >= 0 then -r.code else t1.count;
    if count < 0 then Tally(count, t1.hole) else Tally(count + Got(r), t1.hole + io.length - Got(r))
  }

  /** The pieces of a request from `a` up to `b`. */
  function Tallied(ios: seq<Io>, results: seq<IoResult>, a: int, b: int, t: Tally): Tally
    requires 0 <= a <= b <= |ios| == |results|
    decreases b - a
  {
    if a == b then t else Tick(ios[b - 1], results[b - 1], b - 1 == a, Tallied(ios, results, a, b - 1, t))
  }

  /** No piece transfers more than it was asked for, and error codes are positive. */
  ghost predicate Plausible(ios: seq<Io>, results: seq<IoResult>, a: int, b: int)
    requires 0 <= a <= b <= |ios| == |results|
  {
    forall k :: a <= k < b ==> 0 <= Got(results[k]) <= ios[k].length && (results[k].Err? ==> 0 < results[k].code)
  }

  /** The scan agrees with the tally of request `c`. */
  ghost predicate Agrees(c: int, t: Tally, s: Scan) { 0 <= c < |s.res| && s.res[c] == t.count && HoleIs(s, t.hole) }

  lemma TurnTallies(ios: seq<Io>, r: IoResult, i: int, c: int, t: Tally, s: Scan)
    requires 0 <= i < |ios| && ios[i].ctx == c && 0 < ios[i].length && Agrees(c, t, s)
    requires 0 <= Got(r) <= ios[i].length && (r.Err? ==> 0 < r.code)
    ensures var s' := Turn(true, true, ios, r, i, s);
      Agrees(c, Tick(ios[i], r, s.lastCtx != c, t), s') && s'.res == s.res[c := s'.res[c]] && s'.lastCtx == c
  {
    hide FillHole;
  }

  /** For any outcomes of the pieces, the scan of a request is its tally. */
  lemma {:induction false} ScanTallies(ios: seq<Io>, results: seq<IoResult>, a: int, b: int, c: int, base: int, s: Scan,
                                       t: Tally)
    requires 0 <= a <= b <= |ios| && WellFormed(ios, results, |s.res|)
    requires Segment(ios, a, b, c, base) && Plausible(ios, results, a, b) && Agrees(c, t, s) && s.lastCtx != c
    ensures var s' := Scanned(true, true, ios, results, a, b, s);
      && Agrees(c, Tallied(ios, results, a, b, t), s') && s'.res == s.res[c := s'.res[c]]
      && s'.lastCtx == if a < b then c else s.lastCtx
    decreases b - a
  {
    hide Turn, Agrees, Tick;
    assert 0 <= c < |s.res| by { AgreesFacts(c, t, s); }
    if a < b {
      SegmentLast(ios, a, b, c, base);
      ScanTallies(ios, results, a, b - 1, c, base, s, t);
      TurnTallies(ios, results[b - 1], b - 1, c, Tallied(ios, results, a, b - 1, t),
                  Scanned(true, true, ios, results, a, b - 1, s));
    }
  }

  lemma AgreesFacts(c: int, t: Tally, s: Scan)
    requires Agrees(c, t, s)
    ensures 0 <= c < |s.res| && s.res[c] == t.count && HoleIs(s, t.hole)
  {
  }

  /** A scan that agrees with a given tally. */
  function Witness(n: int, c: int, t: Tally): (s: Scan)
    requires 0 <= c < n && 0 <= t.hole
    ensures Agrees(c, t, s) && |s.res| == n && s.lastCtx == -1
  {
    Scan(seq(n, _ => t.count), [], -1, 0 < t.hole, if 0 < t.hole then Some(0) else None, 0, t.hole)
  }
}
