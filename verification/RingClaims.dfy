/** How much a worker claims, in every depth mode. */
module RingClaims {
  import opened Prelude
  import opened RingPositions
  import opened Ring
  import opened RingSystem
  import opened RingInvariant
  import opened RingCompletion

  function Total(jobs: seq<Job>): int {
    if jobs == [] then 0 else Total(jobs[..|jobs| - 1]) + jobs[|jobs| - 1].toProc
  }

  /** A batch of full size; with depth zero there is none. */
  predicate FullSize(ioDepth: int, toProc: int) {
    toProc == (if ioDepth > 0 then ioDepth else -ioDepth) && ioDepth != 0
  }

  /** What may stay unclaimed although more jobs were allowed: less than a batch, and nothing at all when partial
      batches are not held back. */
  predicate MayWait(ioDepth: int, timeout: int, left: int) {
    if ioDepth > 0 then left < ioDepth
    else left == 0 || (ioDepth < 0 && timeout > 0 && left < -ioDepth)
  }

  /** A job is a full batch, or takes all that is left of what may not wait. */
  predicate SizeOk(ioDepth: int, timeout: int, toProc: int, leftAfter: int) {
    && 1 <= toProc
    && (FullSize(ioDepth, toProc)
        || (leftAfter == 0 && (ioDepth == 0 || (ioDepth < 0 && timeout <= 0 && toProc < -ioDepth))))
  }

  lemma TotalAppend(jobs: seq<Job>, job: Job)
    ensures Total(jobs + [job]) == Total(jobs) + job.toProc
  {
    assert (jobs + [job])[..|jobs|] == jobs;
  }

  lemma SizeFacts(ioDepth: int, timeout: int, sqes: int, cqeAvail: int)
    requires 0 < sqes <= cqeAvail
    ensures match JobSize(ioDepth, timeout, sqes, cqeAvail)
      case None => MayWait(ioDepth, timeout, sqes)
      case Some(toProc) => 1 <= toProc <= sqes && SizeOk(ioDepth, timeout, toProc, sqes - toProc)
  {
  }

  /** The claim loop, when room for completions covers what is submitted. */
  lemma {:induction false} ClaimSizes(r: Ring, spt: int, sqes: int, cqeAvail: int, jobs: seq<Job>, maxJobs: int)
    requires 0 < r.entries && 0 <= sqes <= cqeAvail
    ensures var jobs' := ClaimLoop(r, spt, sqes, cqeAvail, jobs, maxJobs).1;
      var left := sqes + Total(jobs) - Total(jobs');
      && jobs <= jobs' && 0 <= left
      && (|jobs'| < maxJobs ==> MayWait(r.ioDepth, r.timeout, left))
      && (forall k :: |jobs| <= k < |jobs'| ==>
            SizeOk(r.ioDepth, r.timeout, jobs'[k].toProc, if k == |jobs'| - 1 then left else 1))
    decreases maxJobs - |jobs|
  {
    hide Wrap, JobSize, Total;
    if 0 < sqes && |jobs| < maxJobs {
      SizeFacts(r.ioDepth, r.timeout, sqes, cqeAvail);
      var size := JobSize(r.ioDepth, r.timeout, sqes, cqeAvail);
      if size.Some? {
        var toProc := size.value;
        var spt' := Wrap(spt + toProc, r.entries);
        var r1 := r.(procTails := r.procTails + [spt'], processing := r.processing + toProc);
        TotalAppend(jobs, Job(spt, toProc));
        ClaimSizes(r1, spt', sqes - toProc, cqeAvail - toProc, jobs + [Job(spt, toProc)], maxJobs);
        var jobs' := ClaimLoop(r, spt, sqes, cqeAvail, jobs, maxJobs).1;
        assert jobs'[|jobs|] == Job(spt, toProc);
      }
    }
  }

  /** In every reachable state in which a worker can claim, one that may take more jobs leaves nothing behind that may
      not wait: every job is a full batch, or the rest when partial batches are not held back. */
  lemma ClaimsWhatItMay(s: System, steps: seq<Step>, maxJobs: int)
    requires Init(s) && Legal(s, steps) && Unlocked(After(s, steps).work)
    ensures Shape(After(s, steps).ring)
    ensures var r := After(s, steps).ring;
      var jobs := Claim(r, maxJobs).1;
      var left := SqeCount(r) - Total(jobs);
      && 0 <= left && |jobs| <= Max(maxJobs, 0)
      && (|jobs| < maxJobs ==> MayWait(r.ioDepth, r.timeout, left))
      && (forall k :: 0 <= k < |jobs| ==>
            SizeOk(r.ioDepth, r.timeout, jobs[k].toProc, if k == |jobs| - 1 then left else 1))
  {
    hide Wrap, Inv, Legal, After, ClaimLoop, Unlocked, Pending;
    InitInv(s);
    RunKeeps(s, steps);
    var t := After(s, steps);
    RingIsSafe(s, steps);
    ReservationCovers(t);
    ClaimSizes(t.ring, t.ring.sqeProcTail, SqeCount(t.ring), t.ring.entries - 1 - t.ring.processing - CqeCount(t.ring),
               [], maxJobs);
    ClaimCount(t.ring, t.ring.sqeProcTail, SqeCount(t.ring), t.ring.entries - 1 - t.ring.processing - CqeCount(t.ring),
               [], maxJobs);
  }

  lemma {:induction false} ClaimCount(r: Ring, spt: int, sqes: int, cqeAvail: int, jobs: seq<Job>, maxJobs: int)
    requires 0 < r.entries
    ensures |ClaimLoop(r, spt, sqes, cqeAvail, jobs, maxJobs).1| <= Max(maxJobs, |jobs|)
    decreases maxJobs - |jobs|
  {
    hide Wrap;
    var size := JobSize(r.ioDepth, r.timeout, sqes, cqeAvail);
    if sqes != 0 && |jobs| < maxJobs && size.Some? {
      var spt' := Wrap(spt + size.value, r.entries);
      ClaimCount(r.(procTails := r.procTails + [spt'], processing := r.processing + size.value),
                 spt', sqes - size.value, cqeAvail - size.value, jobs + [Job(spt, size.value)], maxJobs);
    }
  }
}
