/** Positions on a ring of `n` entries. An unbounded position `i` sits in slot
    `Slot(i, n)`; the source only ever holds slots, computed with `%`. */
module RingPositions {

  /** The source's `x % entries`, for a non-negative `x`. */
  function Wrap(x: int, n: int): (s: int)
    requires 0 < n
    ensures 0 <= s < n
  {
    x % n
  }

  function Slot(i: nat, n: nat): (s: nat)
    requires 0 < n
    ensures s < n
  {
    Wrap(i, n)
  }

  lemma SmallMod(v: int, n: int)
    requires 0 <= v < n + n
    ensures Wrap(v, n) == if v < n then v else v - n
  {
    if n <= v {
      assert v == n * 1 + (v - n);
    }
  }

  lemma MulAtLeast(n: int, d: int)
    requires 0 < n && 1 <= d
    ensures n <= n * d
  {
  }

  lemma ModUnique(n: int, q: int, r: int, q': int, r': int)
    requires 0 <= r < n && 0 <= r' < n && n * q + r == n * q' + r'
    ensures r == r'
  {
    assert n * (q' - q) == r - r';
    if q < q' { MulAtLeast(n, q' - q); }
    assert n * (q - q') == r' - r;
    if q' < q { MulAtLeast(n, q - q'); }
  }

  /** Advancing a slot is the source's `(slot + k) % entries`. */
  lemma SlotAdvance(i: nat, k: nat, n: nat)
    requires 0 < n
    ensures Slot(i + k, n) == Wrap(Slot(i, n) + k, n)
  {
    var v := i % n + k;
    assert n * (i / n + v / n) == n * (i / n) + n * (v / n);
    ModUnique(n, i / n + v / n, v % n, (i + k) / n, (i + k) % n);
  }

  lemma SlotStep(i: nat, k: nat, n: nat)
    requires 0 < n && k < n
    ensures Slot(i + k, n) == if Slot(i, n) + k < n then Slot(i, n) + k else Slot(i, n) + k - n
  {
    SlotAdvance(i, k, n);
    SmallMod(Slot(i, n) + k, n);
  }

  /** Two positions less than one turn apart never share a slot. */
  lemma SlotsDiffer(i: nat, j: nat, n: nat)
    requires 0 < n && i < j < i + n
    ensures Slot(i, n) != Slot(j, n)
  {
    SlotStep(i, j - i, n);
  }

  /** The source's `(head + entries - tail) % entries` is the distance of the positions. */
  lemma SlotDistance(tail: nat, head: nat, n: nat)
    requires 0 < n && tail <= head < tail + n
    ensures Wrap(Slot(head, n) + n - Slot(tail, n), n) == head - tail
  {
    SlotStep(tail, head - tail, n);
    SmallMod(Slot(head, n) + n - Slot(tail, n), n);
  }

  /** The source's fullness test `(head + 1) % entries == tail`. */
  lemma SlotFull(tail: nat, head: nat, n: nat)
    requires 0 < n && tail <= head < tail + n
    ensures Wrap(Slot(head, n) + 1, n) == Slot(tail, n) <==> head == tail + n - 1
  {
    SlotAdvance(head, 1, n);
    if head == tail + n - 1 {
      SlotAdvance(tail, n, n);
      SmallMod(Slot(tail, n) + n, n);
    } else {
      SlotsDiffer(tail, head + 1, n);
    }
  }
}

/** The ring object shared by the io generator, the io workers and the reaper
    (src/fuse/IoRing.h and src/fuse/IoRing.cc), first as a value with pure steps. */
module Ring {
  import opened Prelude
  import opened RingPositions

  datatype Sqe = Sqe(index: int, userdata: int)
  datatype Cqe = Cqe(index: int, result: int, userdata: int)

  /** A claimed range: first slot and number of entries. */
  datatype Job = Job(sqeProcTail: int, toProc: int)

  /** `Abort` stands for the source's FATAL log, which ends the process. */
  datatype Outcome<+T> = Ok(value: T) | Abort

  datatype Ring = Ring(
    entries: int, ioDepth: int, timeout: int,
    sqeHead: int, sqeTail: int, cqeHead: int, cqeTail: int,
    sqes: seq<Sqe>, cqes: seq<Cqe>,
    sqeProcTail: int, processing: int, procTails: seq<int>, doneTails: set<int>)

  /** The slots named by the head and tail markers exist. */
  predicate Shape(r: Ring) {
    && 0 < r.entries == |r.sqes| == |r.cqes|
    && 0 <= r.sqeHead < r.entries && 0 <= r.cqeHead < r.entries
    && 0 <= r.cqeTail < r.entries
  }

  function SqeCount(r: Ring): int
    requires 0 < r.entries
  {
    Wrap(r.sqeHead + r.entries - r.sqeProcTail, r.entries)
  }

  function CqeCount(r: Ring): int
    requires 0 < r.entries
  {
    Wrap(r.cqeHead + r.entries - r.cqeTail, r.entries)
  }

  /** The first half of `addSqe`: refuse, or fill the slot at the head. */
  function FillSqe(r: Ring, sqe: Sqe): Option<Ring>
    requires Shape(r)
  {
    if Wrap(r.sqeHead + 1, r.entries) == r.sqeTail then None
    else Some(r.(sqes := r.sqes[r.sqeHead := sqe]))
  }

  /** The second half of `addSqe`: publish the slot by storing the new head. */
  function PublishSqe(r: Ring): Ring
    requires Shape(r)
  {
    r.(sqeHead := Wrap(r.sqeHead + 1, r.entries))
  }

  function PostCqe(r: Ring, cqe: Cqe): Option<Ring>
    requires Shape(r)
  {
    if Wrap(r.cqeHead + 1, r.entries) == r.cqeTail then None
    else Some(r.(cqes := r.cqes[r.cqeHead := cqe], cqeHead := Wrap(r.cqeHead + 1, r.entries)))
  }

  /** How many entries the next job takes, or None to stop. With a negative depth a
      partial batch is held back whenever a positive timeout is set: `lastCheck_` is
      assigned `now` just before `lastCheck_ + timeout > now` is tested. */
  function JobSize(ioDepth: int, timeout: int, sqes: int, cqeAvail: int): Option<int> {
    if ioDepth > 0 then
      if ioDepth > sqes || ioDepth > cqeAvail then None else Some(ioDepth)
    else
      var toProc := Min(sqes, cqeAvail);
      if ioDepth == 0 then Some(toProc)
      else if toProc > -ioDepth then Some(-ioDepth)
      else if toProc < -ioDepth && timeout > 0 then None
      else Some(toProc)
  }

  /** The loop of `jobsToProc`. */
  function ClaimLoop(r: Ring, spt: int, sqes: int, cqeAvail: int, jobs: seq<Job>, maxJobs: int): (Ring, seq<Job>)
    requires 0 < r.entries
    decreases maxJobs - |jobs|
  {
    var size := JobSize(r.ioDepth, r.timeout, sqes, cqeAvail);
    if sqes == 0 || |jobs| >= maxJobs || size.None? then
      (r.(sqeProcTail := spt), jobs)
    else
      var toProc := size.value;
      var spt' := Wrap(spt + toProc, r.entries);
      ClaimLoop(r.(procTails := r.procTails + [spt'], processing := r.processing + toProc),
                spt', sqes - toProc, cqeAvail - toProc, jobs + [Job(spt, toProc)], maxJobs)
  }

  function Claim(r: Ring, maxJobs: int): (Ring, seq<Job>)
    requires 0 < r.entries
  {
    ClaimLoop(r, r.sqeProcTail, SqeCount(r), r.entries - 1 - r.processing - CqeCount(r), [], maxJobs)
  }

  /** The drain loop of `process`: pop claimed tails while they are marked done. */
  function Drain(r: Ring): Outcome<Ring>
    decreases |r.procTails|
  {
    if r.doneTails == {} then Ok(r)
    else if r.procTails == [] then Abort
    else if r.procTails[0] !in r.doneTails then Ok(r)
    else Drain(r.(sqeTail := r.procTails[0], procTails := r.procTails[1..],
                  doneTails := r.doneTails - {r.procTails[0]}))
  }

  /** Record that the job ending at slot `newSpt` is done. */
  function Retire(r: Ring, newSpt: int): Outcome<Ring>
  {
    if r.procTails == [] then Abort
    else if r.procTails[0] != newSpt then Ok(r.(doneTails := r.doneTails + {newSpt}))
    else Drain(r.(sqeTail := newSpt, procTails := r.procTails[1..]))
  }

  /** One completion entry per copied submission entry, in order. */
  function PostAll(r: Ring, sqes: seq<Sqe>, results: seq<int>): Outcome<Ring>
    requires Shape(r) && |sqes| == |results|
    decreases |sqes|
  {
    if sqes == [] then Ok(r)
    else
      var r' := PostCqe(r, Cqe(sqes[0].index, results[0], sqes[0].userdata));
      if r'.None? then Abort else PostAll(r'.value, sqes[1..], results[1..])
  }

  lemma {:induction false} DrainKeepsShape(r: Ring)
    requires Shape(r) && Drain(r).Ok?
    ensures Shape(Drain(r).value)
    decreases |r.procTails|
  {
    if r.doneTails != {} && r.procTails != [] && r.procTails[0] in r.doneTails {
      DrainKeepsShape(r.(sqeTail := r.procTails[0], procTails := r.procTails[1..],
                         doneTails := r.doneTails - {r.procTails[0]}));
    }
  }

  lemma RetireKeepsShape(r: Ring, newSpt: int)
    requires Shape(r) && Retire(r, newSpt).Ok?
    ensures Shape(Retire(r, newSpt).value)
  {
    if r.procTails[0] == newSpt {
      DrainKeepsShape(r.(sqeTail := newSpt, procTails := r.procTails[1..]));
    }
  }

  /** The locked section at the end of `process`. */
  function Complete(r: Ring, job: Job, sqes: seq<Sqe>, results: seq<int>): Outcome<Ring>
    requires Shape(r) && |sqes| == |results| == job.toProc
  {
    var retired := Retire(r, Wrap(job.sqeProcTail + job.toProc, r.entries));
    if retired.Abort? then Abort
    else
      RetireKeepsShape(r, Wrap(job.sqeProcTail + job.toProc, r.entries));
      var posted := PostAll(retired.value, sqes, results);
      if posted.Abort? then Abort
      else Ok(posted.value.(processing := posted.value.processing - job.toProc))
  }

  /** The object with its fields, updated in place. */
  class IoRing {
    const entries: int
    const ioDepth: int
    const timeout: int
    var sqeHead: int
    var sqeTail: int
    var cqeHead: int
    var cqeTail: int
    const sqeSection: array<Sqe>
    const cqeSection: array<Cqe>
    var sqeProcTail: int
    var processing: int
    var procTails: seq<int>
    var doneTails: set<int>

    constructor (n: nat, depth: int, to: int)
      requires 0 < n
      ensures Shape(State()) && fresh(sqeSection) && fresh(cqeSection)
      ensures State().(sqes := [], cqes := []) == Ring(n, depth, to, 0, 0, 0, 0, [], [], 0, 0, [], {})
    {
      entries, ioDepth, timeout := n, depth, to;
      sqeHead, sqeTail, cqeHead, cqeTail := 0, 0, 0, 0;
      sqeSection := new Sqe[n](_ => Sqe(0, 0));
      cqeSection := new Cqe[n](_ => Cqe(0, 0, 0));
      sqeProcTail, processing, procTails, doneTails := 0, 0, [], {};
    }

    ghost function State(): Ring
      reads this, sqeSection, cqeSection
    {
      Ring(entries, ioDepth, timeout, sqeHead, sqeTail, cqeHead, cqeTail, sqeSection[..], cqeSection[..],
           sqeProcTail, processing, procTails, doneTails)
    }

    method AddSqe(idx: int, userdata: int) returns (ok: bool)
      requires Shape(State())
      modifies this, sqeSection
      ensures var filled := FillSqe(old(State()), Sqe(idx, userdata));
        && ok == filled.Some?
        && State() == if ok then PublishSqe(filled.value) else old(State())
    {
      var h := sqeHead;
      if Wrap(h + 1, entries) == sqeTail { return false; }
      sqeSection[h] := Sqe(idx, userdata);
      sqeHead := Wrap(h + 1, entries);
      return true;
    }

    method AddCqe(idx: int, res: int, userdata: int) returns (ok: bool)
      requires Shape(State())
      modifies this`cqeHead, cqeSection
      ensures var posted := PostCqe(old(State()), Cqe(idx, res, userdata));
        && ok == posted.Some?
        && State() == (if ok then posted.value else old(State()))
        && Shape(State())
    {
      var h := cqeHead;
      if Wrap(h + 1, entries) == cqeTail { return false; }
      cqeSection[h] := Cqe(idx, res, userdata);
      cqeHead := Wrap(h + 1, entries);
      return true;
    }

    method JobsToProc(maxJobs: int) returns (jobs: seq<Job>)
      requires Shape(State())
      modifies this
      ensures (State(), jobs) == Claim(old(State()), maxJobs)
    {
      jobs := [];
      var spt := sqeProcTail;
      var sqes := Wrap(sqeHead + entries - sqeProcTail, entries);
      var cqeAvail := entries - 1 - processing - Wrap(cqeHead + entries - cqeTail, entries);
      while sqes != 0 && |jobs| < maxJobs
        invariant ClaimLoop(State(), spt, sqes, cqeAvail, jobs, maxJobs) == Claim(old(State()), maxJobs)
        decreases maxJobs - |jobs|
      {
        var toProc: int;
        if ioDepth > 0 {
          toProc := ioDepth;
          if toProc > sqes || toProc > cqeAvail { break; }
        } else {
          toProc := Min(sqes, cqeAvail);
          if ioDepth < 0 {
            var iod := -ioDepth;
            if toProc > iod {
              toProc := iod;
            } else if toProc < iod && timeout > 0 {
              break;
            }
          }
        }
        jobs := jobs + [Job(spt, toProc)];
        spt := Wrap(spt + toProc, entries);
        procTails := procTails + [spt];
        processing := processing + toProc;
        sqes := sqes - toProc;
        cqeAvail := cqeAvail - toProc;
      }
      sqeProcTail := spt;
    }

    /** The copy loop before the lock is taken. */
    method CopySqes(spt: int, toProc: int) returns (sqes: seq<Sqe>)
      requires Shape(State()) && 0 <= toProc && 0 <= spt
      ensures |sqes| == toProc
      ensures forall i :: 0 <= i < toProc ==> sqes[i] == sqeSection[Wrap(spt + i, entries)]
    {
      sqes := [];
      for i := 0 to toProc
        invariant |sqes| == i
        invariant forall j :: 0 <= j < i ==> sqes[j] == sqeSection[Wrap(spt + j, entries)]
      {
        sqes := sqes + [sqeSection[Wrap(spt + i, entries)]];
      }
    }

    /** Pop the claimed tails that are done; false is the source's FATAL exit. */
    method Finish(newSpt: int) returns (ok: bool)
      modifies this`sqeTail, this`procTails, this`doneTails
      ensures ok == Retire(old(State()), newSpt).Ok?
      ensures ok ==> State() == Retire(old(State()), newSpt).value
    {
      if procTails == [] { return false; }
      if procTails[0] != newSpt {
        doneTails := doneTails + {newSpt};
        return true;
      }
      sqeTail := newSpt;
      procTails := procTails[1..];
      while doneTails != {}
        invariant Drain(State()) == Retire(old(State()), newSpt)
        decreases |procTails|
      {
        if procTails == [] { return false; }
        var first := procTails[0];
        if first !in doneTails { return true; }
        sqeTail := first;
        procTails := procTails[1..];
        doneTails := doneTails - {first};
      }
      return true;
    }

    /** The locked section at the end of `process`. */
    method CompleteJob(job: Job, sqes: seq<Sqe>, res: seq<int>) returns (ok: bool)
      requires Shape(State()) && |sqes| == |res| == job.toProc
      modifies this, cqeSection
      ensures ok == Complete(old(State()), job, sqes, res).Ok?
      ensures ok ==> State() == Complete(old(State()), job, sqes, res).value
    {
      var newSpt := Wrap(job.sqeProcTail + job.toProc, entries);
      ok := Finish(newSpt);
      if !ok { return; }
      RetireKeepsShape(old(State()), newSpt);
      ghost var retired := State();
      var i := 0;
      while i < job.toProc
        invariant 0 <= i <= job.toProc
        invariant Shape(State())
        invariant PostAll(State(), sqes[i..], res[i..]) == PostAll(retired, sqes, res)
      {
        assert sqes[i..][1..] == sqes[i + 1..] && res[i..][1..] == res[i + 1..];
        ok := AddCqe(sqes[i].index, res[i], sqes[i].userdata);
        if !ok { return; }
        i := i + 1;
      }
      processing := processing - job.toProc;
    }
  }
}
