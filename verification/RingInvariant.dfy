/** Every step of the ring system keeps the invariant. */
module RingInvariant {
  import opened Prelude
  import opened RingPositions
  import opened Ring
  import opened AvailSlots
  import opened RingSystem

  /** At most `entries - 1` entries are accepted and not yet released. */
  lemma Outstanding(s: System)
    requires Inv(s)
    ensures |s.accepted| - s.released <= s.ring.entries - 1
    ensures s.producer != Idle ==> |s.accepted| - s.released + 1 <= s.ring.entries - 1
  {
    hide Wrap;
  }

  /** No job has posted more completions than it has entries. */
  ghost predicate AnswersOk(work: seq<Work>) {
    forall i :: 0 <= i < |work| ==> 0 <= Answers(work[i]) <= work[i].job.toProc
  }

  lemma AnswersBounded(work: seq<Work>, accepted: seq<Sqe>, n: nat)
    requires 0 < n && Tiled(work, n) && CopiesOk(work, accepted)
    ensures AnswersOk(work)
  {
    hide Wrap;
    forall i | 0 <= i < |work| ensures 0 <= Answers(work[i]) <= work[i].job.toProc {
      assert CopyOk(work[i], accepted);
    }
  }

  lemma {:induction false} PendingNonNegative(work: seq<Work>)
    requires AnswersOk(work)
    ensures 0 <= Pending(work) && forall i :: 0 <= i < |work| ==> work[i].job.toProc - Answers(work[i]) <= Pending(work)
  {
    hide Wrap, Answers;
    if work != [] {
      PendingNonNegative(work[1..]);
      forall i | 0 <= i < |work| ensures work[i].job.toProc - Answers(work[i]) <= Pending(work) {
        if i > 0 { assert work[i] == work[1..][i - 1]; }
      }
    }
  }

  lemma CountsOrdered(s: System)
    requires Inv(s)
    ensures s.released <= |s.reaped| <= |s.posted| <= ClaimEnd(s.work) <= |s.accepted|
  {
    hide Wrap, Tiled, CopiesOk, PostedOk;
    AnswersBounded(s.work, s.accepted, s.ring.entries);
    PendingNonNegative(s.work);
    assert |s.posted| + Pending(s.work) == ClaimEnd(s.work) by { PostedCount(s.posted, s.work); }
  }

  lemma PostedCount(posted: seq<int>, work: seq<Work>)
    requires PostedOk(posted, work)
    ensures |posted| + Pending(work) == ClaimEnd(work)
  {
  }

  // ---------- the io generator ----------

  lemma AllocIndexKeeps(s: System)
    requires Inv(s) && Enabled(s, AllocIndex)
    ensures Inv(Next(s, AllocIndex))
  {
    hide Wrap;
    AllocIsFresh(s.slots);
  }

  lemma FillKeepsContents(sqes: seq<Sqe>, accepted: seq<Sqe>, t: int, p: Producer, sqe: Sqe, arg: int)
    requires 0 < |sqes| && 0 <= t <= |accepted| < t + |sqes|
    requires Contents(sqes, accepted, t, p) && p.Holding?
    ensures Contents(sqes[Slot(|accepted|, |sqes|) := sqe], accepted, t, Filled(sqe, arg))
  {
    hide Wrap;
    forall i | t <= i < |accepted| ensures Slot(i, |sqes|) != Slot(|accepted|, |sqes|) {
      SlotsDiffer(i, |accepted|, |sqes|);
    }
  }

  lemma FillKeepsSubmit(s: System, userdata: int, arg: int)
    requires SubmitInv(s) && Enabled(s, Fill(userdata, arg))
    ensures SubmitInv(Next(s, Fill(userdata, arg)))
  {
    hide Wrap, Tiled, TailsOk, CopiesOk;
    SlotFull(DoneEnd(s.work), |s.accepted|, s.ring.entries);
    FillKeepsContents(s.ring.sqes, s.accepted, DoneEnd(s.work), s.producer, Sqe(s.producer.idx, userdata), arg);
  }

  /** The generator writes to the index it holds, which no unreleased entry has. */
  lemma FillKeepsArgs(args: seq<int>, slots: Slots, p: Producer, accepted: seq<Sqe>, given: seq<int>, posted: seq<int>,
                      released: nat, userdata: int, arg: int)
    requires p.Holding? && IndicesOk(slots, Some(p.idx), accepted, posted, released) && 0 <= p.idx < |args|
    requires ArgsOk(args, slots.cap, p, accepted, given, posted, released)
    ensures var args' := args[p.idx := arg];
      && ArgsOk(args', slots.cap, Filled(Sqe(p.idx, userdata), arg), accepted, given, posted, released)
      && ArgsOk(args', slots.cap, Idle, accepted, given, posted, released)
  {
    hide Unreleased;
  }

  lemma FillKeeps(s: System, userdata: int, arg: int)
    requires Inv(s) && Enabled(s, Fill(userdata, arg))
    ensures Inv(Next(s, Fill(userdata, arg)))
  {
    hide Wrap, Tiled, TailsOk, PostedOk, CqesOk, ReapedOk, ReaperOk, SqMarkers, CqMarkers, Contents, CopiesOk,
         SubmitInv, ArgsOk, OneInside;
    FillKeepsSubmit(s, userdata, arg);
    DeallocFreesOne(s.slots, s.producer.idx);
    FillKeepsArgs(s.args, s.slots, s.producer, s.accepted, s.given, s.posted, s.released, userdata, arg);
  }

  lemma PublishKeepsContents(sqes: seq<Sqe>, accepted: seq<Sqe>, t: int, sqe: Sqe, arg: int)
    requires 0 < |sqes| && 0 <= t <= |accepted|
    requires Contents(sqes, accepted, t, Filled(sqe, arg))
    ensures Contents(sqes, accepted + [sqe], t, Idle)
  {
    hide Wrap;
  }

  lemma PublishKeepsCopies(work: seq<Work>, accepted: seq<Sqe>, sqe: Sqe)
    requires CopiesOk(work, accepted)
    ensures CopiesOk(work, accepted + [sqe])
  {
    hide Wrap;
  }

  lemma PublishKeepsCqes(cqes: seq<Cqe>, reaped: seq<Cqe>, accepted: seq<Sqe>, posted: seq<int>, results: seq<int>,
                         from: nat, sqe: Sqe)
    requires CqesOk(cqes, accepted, posted, results, from) && ReapedOk(reaped, accepted, posted, results)
    ensures CqesOk(cqes, accepted + [sqe], posted, results, from) && ReapedOk(reaped, accepted + [sqe], posted, results)
  {
    hide Wrap;
  }

  lemma PublishKeepsSubmit(s: System)
    requires SubmitInv(s) && Enabled(s, Publish)
    ensures SubmitInv(Next(s, Publish))
  {
    hide Wrap;
    SlotAdvance(|s.accepted|, 1, s.ring.entries);
    PublishKeepsContents(s.ring.sqes, s.accepted, DoneEnd(s.work), s.producer.sqe, s.producer.arg);
    PublishKeepsCopies(s.work, s.accepted, s.producer.sqe);
  }

  lemma PublishKeepsIndices(slots: Slots, sqe: Sqe, accepted: seq<Sqe>, posted: seq<int>, released: nat)
    requires IndicesOk(slots, Some(sqe.index), accepted, posted, released)
    ensures IndicesOk(slots, None, accepted + [sqe], posted, released)
  {
    hide Wrap;
  }

  lemma PublishKeepsArgs(args: seq<int>, cap: int, sqe: Sqe, arg: int, accepted: seq<Sqe>, given: seq<int>,
                         posted: seq<int>, released: nat)
    requires ArgsOk(args, cap, Filled(sqe, arg), accepted, given, posted, released)
    ensures ArgsOk(args, cap, Idle, accepted + [sqe], given + [arg], posted, released)
  {
    hide Unreleased;
  }

  lemma PublishKeeps(s: System)
    requires Inv(s) && Enabled(s, Publish)
    ensures Inv(Next(s, Publish))
  {
    hide Wrap, ArgsOk, Contents, CopiesOk, CqesOk, ReapedOk, IndicesOk, Tiled, PostedOk;
    PublishKeepsSubmit(s);
    PublishKeepsCqes(s.ring.cqes, s.reaped, s.accepted, s.posted, s.results, s.released, s.producer.sqe);
    PublishKeepsIndices(s.slots, s.producer.sqe, s.accepted, s.posted, s.released);
    PublishKeepsArgs(s.args, s.slots.cap, s.producer.sqe, s.producer.arg, s.accepted, s.given, s.posted, s.released);
  }

  // ---------- the reaper ----------

  lemma TakeKeepsReaped(cqes: seq<Cqe>, accepted: seq<Sqe>, posted: seq<int>, results: seq<int>, reaped: seq<Cqe>,
                        from: nat)
    requires CqesOk(cqes, accepted, posted, results, from) && ReapedOk(reaped, accepted, posted, results)
    requires from <= |reaped| < |posted|
    ensures ReapedOk(reaped + [cqes[Slot(|reaped|, |cqes|)]], accepted, posted, results)
  {
    hide Wrap;
    assert cqes[Slot(|reaped|, |cqes|)] == CqeFor(accepted[posted[|reaped|]], results[|reaped|]);
  }

  lemma TakeKeepsComplete(s: System)
    requires CompleteInv(s) && Enabled(s, Take)
    ensures CompleteInv(Next(s, Take))
  {
    hide Wrap;
    SlotAdvance(|s.reaped|, 1, s.ring.entries);
    TakeKeepsReaped(s.ring.cqes, s.accepted, s.posted, s.results, s.reaped, s.released);
  }

  lemma TakeKeeps(s: System)
    requires Inv(s) && Enabled(s, Take)
    ensures Inv(Next(s, Take))
  {
    hide Wrap;
    TakeKeepsComplete(s);
  }

  lemma ReleaseKeepsIndices(slots: Slots, held: Option<int>, accepted: seq<Sqe>, posted: seq<int>, released: nat)
    requires IndicesOk(slots, held, accepted, posted, released)
    requires Bounded(posted, |accepted|) && released < |posted|
    requires forall q, q' :: 0 <= q < q' < |posted| ==> posted[q] != posted[q']
    ensures IndicesOk(AfterDealloc(slots, accepted[posted[released]].index), held, accepted, posted, released + 1)
  {
    hide Wrap;
    var p := posted[released];
    assert Unreleased(posted, released, p);
    DeallocFreesOne(slots, accepted[p].index);
    forall i | 0 <= i < |accepted|
      ensures Unreleased(posted, released + 1, i) <==> Unreleased(posted, released, i) && i != p
    { }
  }

  lemma ReleaseKeepsArgs(args: seq<int>, cap: int, p: Producer, accepted: seq<Sqe>, given: seq<int>, posted: seq<int>,
                         released: nat)
    requires ArgsOk(args, cap, p, accepted, given, posted, released)
    ensures ArgsOk(args, cap, p, accepted, given, posted, released + 1)
  {
    forall i | Unreleased(posted, released + 1, i) ensures Unreleased(posted, released, i) {
      forall q | 0 <= q < released && q < |posted| ensures posted[q] != i { assert q < released + 1; }
    }
    hide Unreleased;
  }

  lemma ReleaseKeeps(s: System)
    requires Inv(s) && Enabled(s, Release)
    ensures Inv(Next(s, Release))
  {
    hide Wrap, ArgsOk, Tiled, TailsOk, Contents, CopiesOk, OneInside;
    ReleaseKeepsArgs(s.args, s.slots.cap, s.producer, s.accepted, s.given, s.posted, s.released);
    ReleaseKeepsIndices(s.slots, Held(s.producer), s.accepted, s.posted, s.released);
    assert s.ring.cqes[s.consumer.slot] == CqeFor(s.accepted[s.posted[s.released]], s.results[s.released]);
  }

  // ---------- the io workers: copying ----------

  /** Same jobs, and the same progress in completing them. */
  ghost predicate SameProgress(work: seq<Work>, work': seq<Work>) {
    && |work| == |work'|
    && forall i :: 0 <= i < |work| ==>
         && work[i].job == work'[i].job && work[i].start == work'[i].start
         && Recorded(work[i].phase) == Recorded(work'[i].phase) && Answers(work[i]) == Answers(work'[i])
         && work[i].phase.Completed? == work'[i].phase.Completed?
  }

  lemma {:induction false} SamePending(work: seq<Work>, work': seq<Work>)
    requires SameProgress(work, work')
    ensures Pending(work) == Pending(work') && Processing(work) == Processing(work')
  {
    hide Wrap, Answers;
    if work != [] { SamePending(work[1..], work'[1..]); }
  }

  lemma {:induction false} SameTails(work: seq<Work>, work': seq<Work>, k: nat, n: nat)
    requires SameProgress(work, work') && k <= |work|
    ensures TailsFrom(work, k, n) == TailsFrom(work', k, n) && DoneTailsFrom(work, k, n) == DoneTailsFrom(work', k, n)
    decreases |work| - k
  {
    hide Wrap;
    if k < |work| { SameTails(work, work', k + 1, n); }
  }

  lemma SameTiled(work: seq<Work>, work': seq<Work>, n: nat)
    requires SameProgress(work, work') && 0 < n && Tiled(work, n)
    ensures Tiled(work', n)
  {
    hide Wrap;
  }

  lemma SamePosted(posted: seq<int>, work: seq<Work>, work': seq<Work>)
    requires SameProgress(work, work') && PostedOk(posted, work)
    ensures PostedOk(posted, work')
  {
    hide Wrap;
    hide Answers;
    SamePending(work, work');
    SameClaimEnd(work, work');
    forall p ensures InAnswered(work, p) <==> InAnswered(work', p) { }
  }

  lemma SameClaimEnd(work: seq<Work>, work': seq<Work>)
    requires SameProgress(work, work')
    ensures ClaimEnd(work) == ClaimEnd(work')
  {
  }

  lemma SameEnds(work: seq<Work>, work': seq<Work>)
    requires SameProgress(work, work')
    ensures DonePrefix(work) == DonePrefix(work') && DoneEnd(work) == DoneEnd(work')
    ensures ClaimEnd(work) == ClaimEnd(work')
  {
    hide Wrap;
    DonePrefixUnique(work', DonePrefix(work));
  }

  /** A job that is not recorded lies at or after the done tail. */
  lemma UnfinishedStartsLate(work: seq<Work>, j: nat, n: nat)
    requires 0 < n && Tiled(work, n) && j < |work| && !Recorded(work[j].phase)
    ensures DonePrefix(work) <= j && DoneEnd(work) <= work[j].start < End(work[j]) <= ClaimEnd(work)
  {
    hide Wrap;
  }

  lemma CopiedEntry(sqes: seq<Sqe>, accepted: seq<Sqe>, t: int, p: Producer, start: int, i: nat)
    requires 0 < |sqes| && 0 <= t <= start && start + i < |accepted| && Contents(sqes, accepted, t, p)
    ensures sqes[Wrap(Slot(start, |sqes|) + i, |sqes|)] == accepted[start + i]
  {
    hide Wrap;
    SlotAdvance(start, i, |sqes|);
  }

  lemma CopiedRange(r: Ring, accepted: seq<Sqe>, t: int, p: Producer, job: Job, start: int)
    requires Shape(r) && 0 <= t <= start && 0 <= job.toProc && start + job.toProc <= |accepted|
    requires Contents(r.sqes, accepted, t, p) && job.sqeProcTail == Slot(start, r.entries)
    ensures Copy(r, job) == accepted[start..start + job.toProc]
  {
    hide Wrap;
    var copy := Copy(r, job);
    forall i | 0 <= i < |copy| ensures copy[i] == accepted[start..start + job.toProc][i] {
      CopiedEntry(r.sqes, accepted, t, p, start, i);
    }
  }

  /** What a worker copies is what was accepted, even though other threads keep moving. */
  lemma CopyIsAccepted(s: System, j: nat)
    requires SubmitInv(s) && j < |s.work| && s.work[j].phase.Claimed?
    ensures 0 <= s.work[j].start <= End(s.work[j]) <= |s.accepted|
    ensures Copy(s.ring, s.work[j].job) == s.accepted[s.work[j].start..End(s.work[j])]
  {
    hide Wrap;
    UnfinishedStartsLate(s.work, j, s.ring.entries);
    CopiedRange(s.ring, s.accepted, DoneEnd(s.work), s.producer, s.work[j].job, s.work[j].start);
  }

  lemma RecolourKeepsCopies(work: seq<Work>, j: nat, w: Work, accepted: seq<Sqe>)
    requires CopiesOk(work, accepted) && j < |work| && CopyOk(w, accepted)
    ensures CopiesOk(work[j := w], accepted)
  {
    hide Wrap;
  }

  lemma CopyJobKeeps(s: System, j: int)
    requires Inv(s) && Enabled(s, CopyJob(j))
    ensures Inv(Next(s, CopyJob(j)))
  {
    hide Wrap, Tiled, PostedOk, Contents, CqesOk, ReapedOk, IndicesOk, ArgsOk;
    var work' := Next(s, CopyJob(j)).work;
    CopyIsAccepted(s, j);
    assert SameProgress(s.work, work');
    SameTiled(s.work, work', s.ring.entries);
    SameTails(s.work, work', DonePrefix(s.work), s.ring.entries);
    SamePosted(s.posted, s.work, work');
    SamePending(s.work, work');
    SameEnds(s.work, work');
    RecolourKeepsCopies(s.work, j, work'[j], s.accepted);
  }

  // ---------- the io workers: claiming ----------

  lemma {:induction false} PendingAppend(work: seq<Work>, w: Work)
    requires w.phase.Claimed?
    ensures Pending(work + [w]) == Pending(work) + w.job.toProc
    ensures Processing(work + [w]) == Processing(work) + w.job.toProc
  {
    hide Wrap;
    if work != [] {
      assert (work + [w])[1..] == work[1..] + [w];
      PendingAppend(work[1..], w);
    }
  }

  lemma ClaimOneTiled(work: seq<Work>, w: Work, n: nat)
    requires 0 < n && Tiled(work, n)
    requires w.start == ClaimEnd(work) && 1 <= w.job.toProc && w.job.sqeProcTail == Slot(w.start, n)
    ensures Tiled(work + [w], n)
  {
    hide Wrap;
    var work' := work + [w];
    forall i | 0 <= i < |work| ensures End(work'[i]) <= w.start {
      if i < |work| - 1 { assert End(work[i]) <= work[|work| - 1].start; }
    }
  }

  lemma {:induction false} ClaimOneTails(work: seq<Work>, w: Work, k: nat, n: nat)
    requires !Recorded(w.phase) && k <= |work|
    ensures TailsFrom(work + [w], k, n) == TailsFrom(work, k, n) + [TailSlot(w, n)]
    ensures DoneTailsFrom(work + [w], k, n) == DoneTailsFrom(work, k, n)
    decreases |work| - k
  {
    hide Wrap;
    if k < |work| {
      ClaimOneTails(work, w, k + 1, n);
    } else {
      assert TailsFrom(work + [w], k + 1, n) == [];
    }
  }

  lemma ClaimOnePosted(posted: seq<int>, work: seq<Work>, w: Work)
    requires PostedOk(posted, work) && w.phase.Claimed? && w.start == ClaimEnd(work)
    ensures PostedOk(posted, work + [w])
  {
    hide Wrap;
    PendingAppend(work, w);
    forall q | 0 <= q < |posted| ensures InAnswered(work + [w], posted[q]) {
      assert InAnswered(work, posted[q]);
      var j :| 0 <= j < |work| && work[j].start <= posted[q] < work[j].start + Answers(work[j]);
      assert (work + [w])[j] == work[j];
    }
  }

  lemma ClaimOneEnds(work: seq<Work>, w: Work)
    requires !Recorded(w.phase) && w.start == ClaimEnd(work)
    ensures DonePrefix(work + [w]) == DonePrefix(work) && DoneEnd(work + [w]) == DoneEnd(work)
    ensures ClaimEnd(work + [w]) == End(w)
  {
    hide Wrap;
    DonePrefixUnique(work + [w], DonePrefix(work));
  }

  /** The parts of the invariant that claiming touches. */
  ghost predicate ClaimInv(r: Ring, spt: int, work: seq<Work>, posted: seq<int>, accepted: seq<Sqe>) {
    && 0 < r.entries
    && Tiled(work, r.entries)
    && TailsOk(r.procTails, r.doneTails, work, DonePrefix(work), r.entries)
    && r.processing == Processing(work) && Unlocked(work)
    && 0 <= ClaimEnd(work) <= |accepted| && spt == Slot(ClaimEnd(work), r.entries)
    && PostedOk(posted, work)
    && CopiesOk(work, accepted)
  }

  lemma ClaimOneKeeps(r: Ring, work: seq<Work>, posted: seq<int>, accepted: seq<Sqe>, w: Work)
    requires ClaimInv(r, w.job.sqeProcTail, work, posted, accepted)
    requires w.phase.Claimed? && w.start == ClaimEnd(work) && 1 <= w.job.toProc && End(w) <= |accepted|
    ensures var spt' := Wrap(w.job.sqeProcTail + w.job.toProc, r.entries);
      && ClaimInv(r.(procTails := r.procTails + [spt'], processing := r.processing + w.job.toProc), spt',
                  work + [w], posted, accepted)
      && DoneEnd(work + [w]) == DoneEnd(work)
  {
    hide Wrap, Tiled, PostedOk, DonePrefix, TailsFrom, DoneTailsFrom, Pending, Processing;
    SlotAdvance(w.start, w.job.toProc, r.entries);
    ClaimOneTiled(work, w, r.entries);
    ClaimOneTails(work, w, DonePrefix(work), r.entries);
    ClaimOnePosted(posted, work, w);
    ClaimOneEnds(work, w);
    PendingAppend(work, w);
  }

  /** What a run of the claim loop from `(r, jobs)` to `(r', jobs')` leaves behind. */
  ghost predicate ClaimResult(r: Ring, jobs: seq<Job>, r': Ring, jobs': seq<Job>,
                              work: seq<Work>, posted: seq<int>, accepted: seq<Sqe>)
  {
    && jobs <= jobs'
    && ClaimEnd(work) <= ClaimEnd(work + Number(jobs'[|jobs|..], ClaimEnd(work)))
    && ClaimInv(r', r'.sqeProcTail, work + Number(jobs'[|jobs|..], ClaimEnd(work)), posted, accepted)
    && DoneEnd(work + Number(jobs'[|jobs|..], ClaimEnd(work))) == DoneEnd(work)
    && r' == r.(sqeProcTail := r'.sqeProcTail, procTails := r'.procTails, processing := r'.processing)
  }

  lemma NumberStep(jobs: seq<Job>, jobs': seq<Job>, work: seq<Work>, w: Work)
    requires jobs + [w.job] <= jobs' && w.start == ClaimEnd(work) && w.phase.Claimed?
    ensures work + Number(jobs'[|jobs|..], ClaimEnd(work))
         == work + [w] + Number(jobs'[|jobs + [w.job]|..], ClaimEnd(work + [w]))
  {
    hide Wrap;
    assert jobs'[|jobs|] == w.job && jobs'[|jobs|..][1..] == jobs'[|jobs| + 1..];
  }

  lemma ClaimResultStep(r: Ring, r1: Ring, r': Ring, jobs: seq<Job>, jobs': seq<Job>,
                        work: seq<Work>, w: Work, posted: seq<int>, accepted: seq<Sqe>)
    requires ClaimResult(r1, jobs + [w.job], r', jobs', work + [w], posted, accepted)
    requires w.start == ClaimEnd(work) && w.phase.Claimed? && DoneEnd(work + [w]) == DoneEnd(work) && 0 <= w.job.toProc
    requires r1 == r.(procTails := r1.procTails, processing := r1.processing)
    ensures ClaimResult(r, jobs, r', jobs', work, posted, accepted)
  {
    hide Wrap, ClaimInv, DoneEnd;
    NumberStep(jobs, jobs', work, w);
    assert jobs <= jobs + [w.job];
  }

  lemma ClaimResultStop(r: Ring, spt: int, jobs: seq<Job>, work: seq<Work>, posted: seq<int>, accepted: seq<Sqe>)
    requires ClaimInv(r, spt, work, posted, accepted)
    ensures ClaimResult(r, jobs, r.(sqeProcTail := spt), jobs, work, posted, accepted)
  {
    hide Wrap, Tiled, TailsOk, PostedOk, CopiesOk;
    assert jobs[|jobs|..] == [] && work + [] == work;
  }

  /** When room for completions covers what is submitted, every job of the loop is non-empty. */
  lemma {:induction false} ClaimLoopKeeps(r: Ring, spt: int, sqes: int, cqeAvail: int, jobs: seq<Job>, maxJobs: int,
                                          work: seq<Work>, posted: seq<int>, accepted: seq<Sqe>)
    requires ClaimInv(r, spt, work, posted, accepted)
    requires 0 <= sqes == |accepted| - ClaimEnd(work) <= cqeAvail
    ensures var (r', jobs') := ClaimLoop(r, spt, sqes, cqeAvail, jobs, maxJobs);
      ClaimResult(r, jobs, r', jobs', work, posted, accepted)
    decreases maxJobs - |jobs|
  {
    hide Wrap, ClaimResult, Tiled, TailsOk, PostedOk, CopiesOk;
    var size := JobSize(r.ioDepth, r.timeout, sqes, cqeAvail);
    if sqes == 0 || |jobs| >= maxJobs || size.None? {
      ClaimResultStop(r, spt, jobs, work, posted, accepted);
    } else {
      var w := Work(Job(spt, size.value), ClaimEnd(work), Claimed);
      var spt' := Wrap(spt + w.job.toProc, r.entries);
      var r1 := r.(procTails := r.procTails + [spt'], processing := r.processing + w.job.toProc);
      ClaimOneKeeps(r, work, posted, accepted, w);
      ClaimLoopKeeps(r1, spt', sqes - size.value, cqeAvail - size.value, jobs + [w.job], maxJobs, work + [w], posted,
                     accepted);
      var (r', jobs') := ClaimLoop(r, spt, sqes, cqeAvail, jobs, maxJobs);
      ClaimResultStep(r, r1, r', jobs, jobs', work, w, posted, accepted);
    }
  }

  lemma {:induction false} PendingIsProcessing(work: seq<Work>)
    requires Unlocked(work)
    ensures Pending(work) == Processing(work)
  {
    if work != [] { PendingIsProcessing(work[1..]); }
  }

  /** `cqeAvail >= sqes`: whenever a worker can claim, the reservation covers everything submitted. */
  lemma ReservationCovers(s: System)
    requires Inv(s)
    ensures SqeCount(s.ring) == |s.accepted| - ClaimEnd(s.work)
    ensures CqeCount(s.ring) == |s.posted| - |s.reaped|
    ensures 0 <= SqeCount(s.ring) <= s.ring.entries - 1 - Pending(s.work) - CqeCount(s.ring)
    ensures Unlocked(s.work) ==> s.ring.processing == Pending(s.work)
  {
    hide Wrap;
    Outstanding(s);
    CountsOrdered(s);
    SlotDistance(ClaimEnd(s.work), |s.accepted|, s.ring.entries);
    SlotDistance(|s.reaped|, |s.posted|, s.ring.entries);
    if Unlocked(s.work) { PendingIsProcessing(s.work); }
  }

  lemma ClaimResultInv(s: System, r': Ring, jobs: seq<Job>)
    requires Inv(s) && ClaimResult(s.ring, [], r', jobs, s.work, s.posted, s.accepted)
    ensures Inv(s.(ring := r', work := s.work + Number(jobs, ClaimEnd(s.work))))
  {
    hide Wrap, Tiled, TailsOk, PostedOk, CqesOk, ReapedOk, ReaperOk, CqMarkers, Contents, CopiesOk, IndicesOk, Number,
         ArgsOk;
    assert jobs[0..] == jobs;
    var work' := s.work + Number(jobs, ClaimEnd(s.work));
    assert SqMarkers(r'.entries, r'.sqeHead, r'.sqeProcTail, r'.sqeTail,
                     |s.accepted|, ClaimEnd(work'), DoneEnd(work'), s.producer.Filled?);
  }

  lemma InvClaim(s: System)
    requires Inv(s) && Unlocked(s.work)
    ensures ClaimInv(s.ring, s.ring.sqeProcTail, s.work, s.posted, s.accepted)
  {
    hide Wrap, Tiled, TailsOk, PostedOk, CopiesOk, CqesOk, ReapedOk, IndicesOk, ArgsOk, Contents, Unlocked;
  }

  lemma ClaimJobsKeeps(s: System, maxJobs: int)
    requires Inv(s) && Enabled(s, ClaimJobs(maxJobs))
    ensures Inv(Next(s, ClaimJobs(maxJobs)))
  {
    hide Wrap, Inv, ClaimInv, ClaimResult, ClaimLoop, Number, Unlocked;
    InvClaim(s);
    ReservationCovers(s);
    ClaimLoopKeeps(s.ring, s.ring.sqeProcTail, SqeCount(s.ring),
                   s.ring.entries - 1 - s.ring.processing - CqeCount(s.ring),
                   [], maxJobs, s.work, s.posted, s.accepted);
    var (r', jobs) := Claim(s.ring, maxJobs);
    ClaimResultInv(s, r', jobs);
  }
}
