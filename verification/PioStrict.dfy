/** A batch of reads that refuse holes, as the client sees it
    (src/fuse/PioV.cc over src/client/storage/StorageClientInMem.cc). */
module PioStrict {
  import opened Prelude
  import opened Chunks
  import opened Stitch
  import opened StitchRead
  import opened StitchTally
  import opened StitchBatch
  import opened StitchStrict
  import opened PioRead
  import opened PioBatch

  /** A byte before the last stored one of the request is not stored. */
  ghost predicate HasFileHole(st: Store, r: Request)
    requires ValidRequest(r)
  {
    exists p :: r.off <= p < r.off + Found(st, r) && Stored(st, r.file, p) == None
  }

  /** A batch of reads over a healthy store, with holes refused. */
  function StrictOutcome(st: Store, reqs: seq<Request>, lim: int, mem: seq<Byte>): (s: Scan)
    requires ValidRequests(reqs) && InBounds(reqs, |mem|)
    ensures |s.res| == |reqs| && |s.mem| == |mem|
  {
    PiecedValid(reqs, lim, |reqs|, |mem|);
    var ios := Pieced(reqs, lim, |reqs|);
    Scanned(true, false, ios, ReadResults(st, ios), 0, |ios|, Start(Presets(reqs), CopyIn(st, ios, 0, |ios|, mem)))
  }

  lemma HoleInFile(st: Store, r: Request, ios: seq<Io>, results: seq<IoResult>, a: int, b: int)
    requires ValidRequest(r) && 0 <= a <= b <= |ios| == |results|
    requires ReadsFile(st, r.file, Shift(r), ios, results, a, b, r.buf)
    requires End(ios, a, b, r.buf) == r.buf + Served(r) && Reach(ios, results, a, b, r.buf) == r.buf + Found(st, r)
    ensures HasHole(ios, results, a, b, r.buf, Reach(ios, results, a, b, r.buf)) <==> HasFileHole(st, r)
  {
    hide Stored, Covered, Reach, Served, StoredEnd, End;
    if x :| r.buf <= x < r.buf + Found(st, r) && !Covered(ios, results, a, b, x) {
      assert FileByte(st, r.file, Shift(r), x) == Stored(st, r.file, x + Shift(r));
    }
    if p :| r.off <= p < r.off + Found(st, r) && Stored(st, r.file, p) == None {
      assert FileByte(st, r.file, Shift(r), p - Shift(r)) == None;
      assert !Covered(ios, results, a, b, p - Shift(r));
    }
  }

  lemma HoleIsFileHole(st: Store, reqs: seq<Request>, lim: int, mem: seq<Byte>, j: int)
    requires ValidRequests(reqs) && InBounds(reqs, |mem|) && 0 <= j < |reqs|
    ensures var ios, sp, r := Pieced(reqs, lim, |reqs|), SpanOf(reqs, lim, j), reqs[j];
      && 0 <= sp.lo <= sp.hi <= |ios|
      && (HasHole(ios, ReadResults(st, ios), sp.lo, sp.hi, sp.base,
                  Reach(ios, ReadResults(st, ios), sp.lo, sp.hi, sp.base))
          <==> HasFileHole(st, r))
  {
    hide Pieced, Stored, Covered, Reach, Served, Segment, Copied, HasHole, HasFileHole, ReadsFile, ReadResults, Found;
    var ios, sp, r := Pieced(reqs, lim, |reqs|), SpanOf(reqs, lim, j), reqs[j];
    PiecedValid(reqs, lim, |reqs|, |mem|);
    RequestReads(st, reqs, lim, j, mem);
    SpanFacts(st, reqs, lim, |mem|, j);
    SpanBase(reqs, lim, j);
    HoleInFile(st, r, ios, ReadResults(st, ios), sp.lo, sp.hi);
  }

  /** Whatever the piece limit and the other requests: a request with a hole before its last stored byte is refused, and
      every other one reports the distance to that byte. A request that failed beforehand still reports an error. The
      buffers hold the bytes read. */
  lemma StrictReads(st: Store, reqs: seq<Request>, lim: int, mem: seq<Byte>, j: int)
    requires ValidRequests(reqs) && InBounds(reqs, |mem|) && 0 <= j < |reqs|
    ensures var outcome, r := StrictOutcome(st, reqs, lim, mem), reqs[j];
      && ValidIos(Pieced(reqs, lim, |reqs|), |mem|)
      && outcome.mem == CopyIn(st, Pieced(reqs, lim, |reqs|), 0, |Pieced(reqs, lim, |reqs|)|, mem)
      && if Failure(r).Some? then outcome.res[j] in {-Failure(r).value, -HOLE_IN_IO_OUTCOME}
         else outcome.res[j] == if HasFileHole(st, r) then -HOLE_IN_IO_OUTCOME else Found(st, r)
  {
    hide Pieced, Stored, CopyIn, Batch, SpanOf, Served, Segment, Reach, Failed, HasHole, HasFileHole, Scanned, Found;
    var ios, spans, sp := Pieced(reqs, lim, |reqs|), Spans(reqs, lim), SpanOf(reqs, lim, j);
    var results := ReadResults(st, ios);
    PiecedSetting(st, reqs, lim, mem);
    ReadsPlausible(ios, results);
    StrictResults(true, false, ios, results, spans, Presets(reqs), CopyIn(st, ios, 0, |ios|, mem));
    assert spans[j] == sp;
    SpanFacts(st, reqs, lim, |mem|, j);
    HoleIsFileHole(st, reqs, lim, mem, j);
    OwnsSpan(ios, spans, j);
    RefusedIff(ios, results, sp.lo, sp.hi, j, sp.base);
    NoFirstError(results, sp.lo, sp.hi);
  }

  /** With holes refused too, the buffer of a request holds the stored bytes of its range, and is left alone
      elsewhere. */
  lemma StrictBytes(st: Store, reqs: seq<Request>, lim: int, mem: seq<Byte>, j: int, i: int)
    requires ValidRequests(reqs) && InBounds(reqs, |mem|) && Separate(reqs)
    requires 0 <= j < |reqs| && Failure(reqs[j]).None? && 0 <= i < reqs[j].len
    ensures var r := reqs[j];
      var byte, stored := StrictOutcome(st, reqs, lim, mem).mem[r.buf + i], Stored(st, r.file, r.off + i);
      byte == if stored.Some? then stored.value else mem[r.buf + i]
  {
    hide Pieced, Stored, CopyIn, Scanned, Found, HasFileHole, Served, Failure;
    var r, x := reqs[j], reqs[j].buf + i;
    StrictReads(st, reqs, lim, mem, j);
    BufferCopied(st, reqs, lim, |reqs|, mem, j, x);
    assert FileByte(st, r.file, Shift(r), x) == Stored(st, r.file, r.off + i);
  }

  lemma OwnsSpan(ios: seq<Io>, spans: seq<Span>, j: int)
    requires Batch(ios, spans) && 0 <= j < |spans|
    ensures Owns(ios, spans[j], j)
  {
  }

  lemma ReadsPlausible(ios: seq<Io>, results: seq<IoResult>)
    requires |ios| == |results| && Outcomes(ios, results, 0, |ios|)
    ensures Plausible(ios, results, 0, |ios|)
  {
  }

  lemma {:induction false} NoFirstError(results: seq<IoResult>, a: int, b: int)
    requires 0 <= a <= b <= |results| && forall k :: a <= k < b ==> !HardError(true, results[k])
    ensures FirstError(true, results, a, b) == None
    decreases b - a
  {
    if a < b { NoFirstError(results, a, b - 1); }
  }
}
