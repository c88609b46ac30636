/** Every interleaving of one io generator, any number of io workers and one reaper
    on a ring. The generator takes an index, writes the arguments of the io, fills a slot and
    publishes it (src/lib/api/UsrbIo.cc, hf3fs_prep_io); workers claim ranges, copy them and
    complete them in any order (src/fuse/IoRing.cc), one at a time inside the section that
    records the tail, posts the completions one by one and ends the job; the reaper takes a
    completion entry and only then gives its index back (hf3fs_wait_for_ios). */
module RingSystem {
  import opened Prelude
  import opened RingPositions
  import opened Ring
  import opened AvailSlots

  /** A job in the completion section has posted its first `k` completions. */
  datatype Phase = Claimed | Copied(copy: seq<Sqe>) | Posting(copy: seq<Sqe>, k: int) | Completed

  /** A claimed job; `start` is the unbounded position of its first entry. */
  datatype Work = Work(job: Job, start: int, phase: Phase)

  datatype Producer = Idle | Holding(idx: int) | Filled(sqe: Sqe, arg: int)
  datatype Consumer = Ready | Took(slot: int)

  /** The ring, the index table, the io arguments by index and the threads' local state, plus
      the history: the accepted entries and their arguments, the claimed jobs in claim order,
      the entry behind every posted completion with its result, and the reaped completions. */
  datatype System = System(
    ring: Ring, slots: Slots, args: seq<int>, producer: Producer, consumer: Consumer, aborted: bool,
    accepted: seq<Sqe>, given: seq<int>, work: seq<Work>, posted: seq<int>, results: seq<int>,
    reaped: seq<Cqe>, released: nat)

  datatype Step =
    | AllocIndex
    | Fill(userdata: int, arg: int)
    | Publish
    | ClaimJobs(maxJobs: int)
    | CopyJob(j: int)
    | BeginComplete(j: int)           // takes the lock and records the tail
    | PostNext(j: int, result: int)
    | EndComplete(j: int)             // counts the job off and gives the lock back
    | Take
    | Release

  function End(w: Work): int { w.start + w.job.toProc }

  function ClaimEnd(work: seq<Work>): int {
    if work == [] then 0 else End(work[|work| - 1])
  }

  function Number(jobs: seq<Job>, start: int): seq<Work> {
    if jobs == [] then []
    else [Work(jobs[0], start, Claimed)] + Number(jobs[1..], start + jobs[0].toProc)
  }

  /** What `CopySqes` reads. */
  function Copy(r: Ring, job: Job): seq<Sqe>
    requires Shape(r) && 0 <= job.sqeProcTail
  {
    seq(if job.toProc < 0 then 0 else job.toProc, i requires 0 <= i => r.sqes[Wrap(job.sqeProcTail + i, r.entries)])
  }

  /** The tail of the job is recorded. */
  predicate Recorded(p: Phase) { p.Posting? || p.Completed? }

  /** How many completions of the job are posted. */
  function Answers(w: Work): int {
    match w.phase
    case Posting(_, k) => k
    case Completed => w.job.toProc
    case _ => 0
  }

  /** No worker is in the completion section. */
  predicate Unlocked(work: seq<Work>) { forall j :: 0 <= j < |work| ==> !work[j].phase.Posting? }

  /** Where each step may be taken. */
  predicate Enabled(s: System, step: Step) {
    && !s.aborted && Shape(s.ring) && (forall k :: 0 <= k < |s.slots.free| ==> 0 <= s.slots.free[k])
    && match step
       case AllocIndex => s.producer.Idle?
       case Fill(_, _) => s.producer.Holding? && 0 <= s.producer.idx < |s.args|
       case Publish => s.producer.Filled?
       case ClaimJobs(_) => Unlocked(s.work)
       case CopyJob(j) => 0 <= j < |s.work| && s.work[j].phase.Claimed? && 0 <= s.work[j].job.sqeProcTail
       case BeginComplete(j) => 0 <= j < |s.work| && s.work[j].phase.Copied? && Unlocked(s.work)
       case PostNext(j, _) =>
         && 0 <= j < |s.work| && s.work[j].phase.Posting?
         && 0 <= s.work[j].phase.k < |s.work[j].phase.copy| == s.work[j].job.toProc
       case EndComplete(j) =>
         0 <= j < |s.work| && s.work[j].phase.Posting? && s.work[j].phase.k == s.work[j].job.toProc
       case Take => s.consumer.Ready? && s.ring.cqeHead != s.ring.cqeTail
       case Release => s.consumer.Took? && 0 <= s.consumer.slot < s.ring.entries
  }

  function Next(s: System, step: Step): System
    requires Enabled(s, step)
  {
    match step
    case AllocIndex =>
      var (slots', idx) := AfterAlloc(s.slots);
      s.(slots := slots', producer := if idx.None? then Idle else Holding(idx.value))
    case Fill(userdata, arg) =>
      var sqe, args := Sqe(s.producer.idx, userdata), s.args[s.producer.idx := arg];
      var filled := FillSqe(s.ring, sqe);
      if filled.None? then
        s.(slots := AfterDealloc(s.slots, s.producer.idx), args := args, producer := Idle)
      else
        s.(ring := filled.value, args := args, producer := Filled(sqe, arg))
    case Publish =>
      s.(ring := PublishSqe(s.ring), accepted := s.accepted + [s.producer.sqe], given := s.given + [s.producer.arg],
         producer := Idle)
    case ClaimJobs(maxJobs) =>
      var (ring', jobs) := Claim(s.ring, maxJobs);
      s.(ring := ring', work := s.work + Number(jobs, ClaimEnd(s.work)))
    case CopyJob(j) =>
      s.(work := s.work[j := s.work[j].(phase := Copied(Copy(s.ring, s.work[j].job)))])
    case BeginComplete(j) =>
      var w := s.work[j];
      var retired := Retire(s.ring, Wrap(w.job.sqeProcTail + w.job.toProc, s.ring.entries));
      if retired.Abort? then s.(aborted := true)
      else s.(ring := retired.value, work := s.work[j := w.(phase := Posting(w.phase.copy, 0))])
    case PostNext(j, result) =>
      var w := s.work[j];
      var k := w.phase.k;
      var ring' := PostCqe(s.ring, CqeFor(w.phase.copy[k], result));
      if ring'.None? then s.(aborted := true)
      else
        s.(ring := ring'.value, work := s.work[j := w.(phase := Posting(w.phase.copy, k + 1))],
           posted := s.posted + [w.start + k], results := s.results + [result])
    case EndComplete(j) =>
      var w := s.work[j];
      s.(ring := s.ring.(processing := s.ring.processing - w.job.toProc), work := s.work[j := w.(phase := Completed)])
    case Take =>
      s.(consumer := Took(s.ring.cqeTail), reaped := s.reaped + [s.ring.cqes[s.ring.cqeTail]],
         ring := s.ring.(cqeTail := Wrap(s.ring.cqeTail + 1, s.ring.entries)))
    case Release =>
      s.(consumer := Ready, released := s.released + 1,
         slots := AfterDealloc(s.slots, s.ring.cqes[s.consumer.slot].index))
  }

  /** A freshly created ring: markers at zero, every index available. */
  predicate Init(s: System) {
    && Shape(s.ring)
    && s == System(
         Ring(s.ring.entries, s.ring.ioDepth, s.ring.timeout, 0, 0, 0, 0, s.ring.sqes, s.ring.cqes, 0, 0, [], {}),
         Slots(s.ring.entries - 1, 0, []), s.args, Idle, Ready, false, [], [], [], [], [], [], 0)
    && |s.args| == s.ring.entries
  }

  predicate Legal(s: System, steps: seq<Step>)
    decreases |steps|
  {
    steps == [] || (Enabled(s, steps[0]) && Legal(Next(s, steps[0]), steps[1..]))
  }

  function After(s: System, steps: seq<Step>): System
    requires Legal(s, steps)
    decreases |steps|
  {
    if steps == [] then s else After(Next(s, steps[0]), steps[1..])
  }

  // ---------- derived positions ----------

  /** How many jobs, in claim order, are recorded before the first that is not. */
  function DonePrefix(work: seq<Work>): (k: nat)
    ensures k <= |work|
    ensures forall i :: 0 <= i < k ==> Recorded(work[i].phase)
    ensures k < |work| ==> !Recorded(work[k].phase)
  {
    if work == [] || !Recorded(work[0].phase) then 0 else 1 + DonePrefix(work[1..])
  }

  lemma DonePrefixUnique(work: seq<Work>, k: nat)
    requires k <= |work|
    requires forall i :: 0 <= i < k ==> Recorded(work[i].phase)
    requires k < |work| ==> !Recorded(work[k].phase)
    ensures DonePrefix(work) == k
  {
  }

  function StartOf(work: seq<Work>, k: nat): int
    requires k <= |work|
  {
    if k < |work| then work[k].start else ClaimEnd(work)
  }

  /** The end of the longest recorded prefix of the jobs, in claim order. */
  function DoneEnd(work: seq<Work>): int {
    StartOf(work, DonePrefix(work))
  }

  /** Claimed entries whose completion is not yet posted. */
  function Pending(work: seq<Work>): int {
    if work == [] then 0 else work[0].job.toProc - Answers(work[0]) + Pending(work[1..])
  }

  /** Entries of jobs that have not ended. */
  function Processing(work: seq<Work>): int {
    if work == [] then 0
    else (if work[0].phase.Completed? then 0 else work[0].job.toProc) + Processing(work[1..])
  }

  // ---------- the invariant, part by part ----------

  /** The claimed jobs tile the positions from 0 on, and none is empty. */
  ghost predicate Tiled(work: seq<Work>, n: nat)
    requires 0 < n
  {
    && (forall i :: 0 <= i < |work| ==> 0 <= work[i].start && 1 <= work[i].job.toProc)
    && (forall i {:trigger work[i]} :: 0 <= i < |work| ==> work[i].job.sqeProcTail == Slot(work[i].start, n))
    && (work != [] ==> work[0].start == 0)
    && (forall i, j :: 0 <= i && j == i + 1 && j < |work| ==> work[j].start == End(work[i]))
    && (forall i, j :: 0 <= i < j < |work| ==> End(work[i]) <= work[j].start)
  }

  function TailSlot(w: Work, n: nat): int {
    if 0 < n && 0 <= End(w) then Slot(End(w), n) else 0
  }

  /** The end slots of the jobs from `k` on. */
  function TailsFrom(work: seq<Work>, k: nat, n: nat): (tails: seq<int>)
    requires k <= |work|
    ensures |tails| == |work| - k
    decreases |work| - k
  {
    if k == |work| then [] else [TailSlot(work[k], n)] + TailsFrom(work, k + 1, n)
  }

  /** The end slots of the recorded jobs from `k` on. */
  function DoneTailsFrom(work: seq<Work>, k: nat, n: nat): set<int>
    requires k <= |work|
    decreases |work| - k
  {
    if k == |work| then {}
    else (if Recorded(work[k].phase) then {TailSlot(work[k], n)} else {}) + DoneTailsFrom(work, k + 1, n)
  }

  /** Claimed and done tails, seen from the first unretired job `k`. */
  ghost predicate TailsOk(procTails: seq<int>, doneTails: set<int>, work: seq<Work>, k: nat, n: nat)
    requires k <= |work|
  {
    procTails == TailsFrom(work, k, n) && doneTails == DoneTailsFrom(work, k, n)
  }

  /** Submission markers: done tail, claim tail and head, less than one turn apart. */
  ghost predicate SqMarkers(n: nat, sqeHead: int, sqeProcTail: int, sqeTail: int, h: int, p: int, t: int, filled: bool)
  {
    && 0 <= t <= p <= h < t + n
    && sqeHead == Slot(h, n) && sqeProcTail == Slot(p, n) && sqeTail == Slot(t, n)
    && (filled ==> h + 1 < t + n)
  }

  ghost predicate CqMarkers(n: nat, cqeHead: int, cqeTail: int, posted: nat, reaped: nat)
    requires 0 < n
  {
    cqeHead == Slot(posted, n) && cqeTail == Slot(reaped, n)
  }

  /** No published entry between the tail `t` and the head has been overwritten. */
  ghost predicate Contents(sqes: seq<Sqe>, accepted: seq<Sqe>, t: int, producer: Producer)
    requires 0 < |sqes| && 0 <= t
  {
    && (forall i {:trigger accepted[i]} :: t <= i < |accepted| ==> sqes[Slot(i, |sqes|)] == accepted[i])
    && (producer.Filled? ==> sqes[Slot(|accepted|, |sqes|)] == producer.sqe)
  }

  ghost predicate CopyOk(w: Work, accepted: seq<Sqe>) {
    && (w.phase.Copied? || w.phase.Posting? ==>
          0 <= w.start && End(w) <= |accepted| && 0 <= w.job.toProc && w.phase.copy == accepted[w.start..End(w)])
    && (w.phase.Posting? ==> 0 <= w.phase.k <= w.job.toProc)
  }

  ghost predicate CopiesOk(work: seq<Work>, accepted: seq<Sqe>) {
    forall j :: 0 <= j < |work| ==> CopyOk(work[j], accepted)
  }

  /** The completion of the entry at `p` is posted. */
  ghost predicate InAnswered(work: seq<Work>, p: int) {
    exists j :: 0 <= j < |work| && work[j].start <= p < work[j].start + Answers(work[j])
  }

  /** The posted positions are those of the answered entries, each exactly once. */
  ghost predicate PostedOk(posted: seq<int>, work: seq<Work>) {
    && (forall q :: 0 <= q < |posted| ==> InAnswered(work, posted[q]))
    && (forall q, q' :: 0 <= q < q' < |posted| ==> posted[q] != posted[q'])
    && (forall j, p :: 0 <= j < |work| && work[j].start <= p < work[j].start + Answers(work[j]) ==> p in posted)
    && |posted| + Pending(work) == ClaimEnd(work)
  }

  /** At most one worker is in the completion section. */
  ghost predicate OneInside(work: seq<Work>) {
    forall i, j :: 0 <= i < j < |work| ==> !(work[i].phase.Posting? && work[j].phase.Posting?)
  }

  /** The completion entry owed to a submission entry. */
  function CqeFor(sqe: Sqe, result: int): Cqe {
    Cqe(sqe.index, result, sqe.userdata)
  }

  ghost predicate Bounded(posted: seq<int>, h: int) {
    forall q :: 0 <= q < |posted| ==> 0 <= posted[q] < h
  }

  /** The completion entries from `from` on sit in their slots. */
  ghost predicate CqesOk(cqes: seq<Cqe>, accepted: seq<Sqe>, posted: seq<int>, results: seq<int>, from: nat)
  {
    && 0 < |cqes| && |posted| == |results| && Bounded(posted, |accepted|)
    && forall q {:trigger posted[q]} :: from <= q < |posted| ==>
      cqes[Slot(q, |cqes|)] == CqeFor(accepted[posted[q]], results[q])
  }

  ghost predicate ReapedOk(reaped: seq<Cqe>, accepted: seq<Sqe>, posted: seq<int>, results: seq<int>)
  {
    && |reaped| <= |posted| == |results| && Bounded(posted, |accepted|)
    && forall q :: 0 <= q < |reaped| ==> reaped[q] == CqeFor(accepted[posted[q]], results[q])
  }

  ghost predicate ReaperOk(consumer: Consumer, reaped: nat, released: nat, n: nat)
    requires 0 < n
  {
    match consumer
    case Ready => reaped == released
    case Took(slot) => reaped == released + 1 && slot == Slot(released, n)
  }

  ghost predicate Unreleased(posted: seq<int>, released: nat, i: int) {
    forall q :: 0 <= q < released && q < |posted| ==> posted[q] != i
  }

  function Held(p: Producer): Option<int> {
    match p
    case Idle => None
    case Holding(idx) => Some(idx)
    case Filled(sqe, _) => Some(sqe.index)
  }

  /** The live indices are those of the unreleased entries and the one in the generator's hands. */
  ghost predicate IndicesOk(slots: Slots, held: Option<int>, accepted: seq<Sqe>, posted: seq<int>, released: nat) {
    && slots.Valid()
    && slots.LiveCount() == |accepted| - released + (if held.Some? then 1 else 0)
    && (forall i :: 0 <= i < |accepted| && Unreleased(posted, released, i) ==> slots.IsLive(accepted[i].index))
    && (forall i, j :: 0 <= i < j < |accepted| && Unreleased(posted, released, i) && Unreleased(posted, released, j)
          ==> accepted[i].index != accepted[j].index)
    && (held.Some? ==> slots.IsLive(held.value))
    && (held.Some? ==>
          forall i :: 0 <= i < |accepted| && Unreleased(posted, released, i) ==> accepted[i].index != held.value)
  }

  /** The arguments of every unreleased entry are where its index says. */
  ghost predicate ArgsOk(args: seq<int>, cap: int, producer: Producer, accepted: seq<Sqe>, given: seq<int>,
                         posted: seq<int>, released: nat)
  {
    && |given| == |accepted| && cap < |args|
    && (forall i :: 0 <= i < |accepted| && Unreleased(posted, released, i) ==>
          0 <= accepted[i].index < |args| && args[accepted[i].index] == given[i])
    && (producer.Filled? ==> 0 <= producer.sqe.index < |args| && args[producer.sqe.index] == producer.arg)
  }

  /** The submission side. */
  ghost predicate SubmitInv(s: System) {
    && Shape(s.ring)
    && Tiled(s.work, s.ring.entries)
    && SqMarkers(s.ring.entries, s.ring.sqeHead, s.ring.sqeProcTail, s.ring.sqeTail,
                 |s.accepted|, ClaimEnd(s.work), DoneEnd(s.work), s.producer.Filled?)
    && TailsOk(s.ring.procTails, s.ring.doneTails, s.work, DonePrefix(s.work), s.ring.entries)
    && Contents(s.ring.sqes, s.accepted, DoneEnd(s.work), s.producer)
    && CopiesOk(s.work, s.accepted)
  }

  /** The completion side. */
  ghost predicate CompleteInv(s: System) {
    && Shape(s.ring)
    && PostedOk(s.posted, s.work)
    && s.ring.processing == Processing(s.work) && OneInside(s.work)
    && CqMarkers(s.ring.entries, s.ring.cqeHead, s.ring.cqeTail, |s.posted|, |s.reaped|)
    && CqesOk(s.ring.cqes, s.accepted, s.posted, s.results, s.released)
    && ReapedOk(s.reaped, s.accepted, s.posted, s.results)
    && ReaperOk(s.consumer, |s.reaped|, s.released, s.ring.entries)
  }

  ghost predicate Inv(s: System) {
    && !s.aborted
    && s.slots.cap == s.ring.entries - 1
    && SubmitInv(s)
    && CompleteInv(s)
    && IndicesOk(s.slots, Held(s.producer), s.accepted, s.posted, s.released)
    && ArgsOk(s.args, s.slots.cap, s.producer, s.accepted, s.given, s.posted, s.released)
  }

  lemma InitInv(s: System)
    requires Init(s)
    ensures Inv(s)
  {
  }
}
