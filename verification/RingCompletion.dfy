/** Out-of-order completion keeps the invariant and never reaches a FATAL exit. */
module RingCompletion {
  import opened Prelude
  import opened RingPositions
  import opened Ring
  import opened AvailSlots
  import opened RingSystem
  import opened RingInvariant

  // ---------- retiring tails ----------

  /** Tails of different unretired jobs sit in different slots. */
  lemma TailsDistinct(work: seq<Work>, m: nat, n: nat, i: nat, j: nat)
    requires 0 < n && Tiled(work, n) && m <= i < |work| && m <= j < |work| && i != j
    requires ClaimEnd(work) < work[m].start + n
    ensures Slot(End(work[i]), n) != Slot(End(work[j]), n)
  {
    hide Wrap;
    if i < j {
      assert End(work[i]) <= work[j].start;
      SlotsDiffer(End(work[i]), End(work[j]), n);
    } else {
      assert End(work[j]) <= work[i].start;
      SlotsDiffer(End(work[j]), End(work[i]), n);
    }
  }

  lemma NextStart(work: seq<Work>, k: nat, n: nat)
    requires 0 < n && Tiled(work, n) && k < |work|
    ensures work[k].start < StartOf(work, k + 1) == End(work[k])
  {
    hide Wrap;
  }

  lemma {:induction false} NotLater(work: seq<Work>, m: nat, i: nat, n: nat)
    requires 0 < n && Tiled(work, n) && m < i <= |work| && ClaimEnd(work) < work[m].start + n
    ensures TailSlot(work[m], n) !in DoneTailsFrom(work, i, n)
    decreases |work| - i
  {
    hide Wrap;
    if i < |work| {
      TailsDistinct(work, m, n, m, i);
      NotLater(work, m, i + 1, n);
    }
  }

  /** The first claimed tail is marked done exactly when its job is recorded, and popping it
      removes that tail and no other. */
  lemma FirstTail(work: seq<Work>, m: nat, n: nat)
    requires 0 < n && Tiled(work, n) && m < |work| && ClaimEnd(work) < work[m].start + n
    ensures TailsFrom(work, m, n)[0] == TailSlot(work[m], n) == Slot(End(work[m]), n)
    ensures TailsFrom(work, m, n)[1..] == TailsFrom(work, m + 1, n)
    ensures TailSlot(work[m], n) in DoneTailsFrom(work, m, n) <==> Recorded(work[m].phase)
    ensures DoneTailsFrom(work, m, n) - {TailSlot(work[m], n)} == DoneTailsFrom(work, m + 1, n)
  {
    hide Wrap;
    NotLater(work, m, m + 1, n);
  }

  ghost predicate Retired(r: Ring, r': Ring, work: seq<Work>) {
    && 0 < r.entries && Tiled(work, r.entries) && 0 <= DoneEnd(work)
    && TailsOk(r'.procTails, r'.doneTails, work, DonePrefix(work), r.entries)
    && r'.sqeTail == Slot(DoneEnd(work), r.entries)
    && r' == r.(sqeTail := r'.sqeTail, procTails := r'.procTails, doneTails := r'.doneTails)
  }

  lemma RetiredFrom(r: Ring, r1: Ring, r': Ring, work: seq<Work>)
    requires Retired(r1, r', work)
    requires r1 == r.(sqeTail := r1.sqeTail, procTails := r1.procTails, doneTails := r1.doneTails)
    ensures Retired(r, r', work)
  {
    hide Wrap, Tiled, TailsOk;
  }

  /** The drain loop stops exactly behind the longest recorded prefix. */
  lemma {:induction false} DrainRetires(r: Ring, work: seq<Work>, m: nat)
    requires 0 < r.entries && Tiled(work, r.entries) && m <= |work|
    requires forall i :: 0 <= i < m ==> Recorded(work[i].phase)
    requires TailsOk(r.procTails, r.doneTails, work, m, r.entries)
    requires 0 <= StartOf(work, m) && r.sqeTail == Slot(StartOf(work, m), r.entries)
    requires ClaimEnd(work) < StartOf(work, m) + r.entries
    ensures Drain(r).Ok? && Retired(r, Drain(r).value, work)
    decreases |work| - m
  {
    hide Wrap;
    if m == |work| {
      DonePrefixUnique(work, m);
    } else {
      FirstTail(work, m, r.entries);
      if Recorded(work[m].phase) {
        NextStart(work, m, r.entries);
        DrainRetires(r.(sqeTail := r.procTails[0], procTails := r.procTails[1..],
                        doneTails := r.doneTails - {r.procTails[0]}), work, m + 1);
      } else {
        DonePrefixUnique(work, m);
      }
    }
  }

  /** The jobs after the tail of job `j` is recorded. */
  function Begun(work: seq<Work>, j: nat): seq<Work>
    requires j < |work|
  {
    work[j := work[j].(phase := Posting(if work[j].phase.Copied? then work[j].phase.copy else [], 0))]
  }

  /** Tiling does not depend on the phases. */
  lemma TiledAlike(work: seq<Work>, work': seq<Work>, n: nat)
    requires 0 < n && Tiled(work, n) && |work'| == |work|
    requires forall i :: 0 <= i < |work| ==> work'[i].job == work[i].job && work'[i].start == work[i].start
    ensures Tiled(work', n)
  {
    hide Wrap, Slot;
    assert forall i :: 0 <= i < |work| ==> End(work'[i]) == End(work[i]);
  }

  lemma BegunTiled(work: seq<Work>, j: nat, n: nat)
    requires 0 < n && Tiled(work, n) && j < |work|
    ensures Tiled(Begun(work, j), n) && ClaimEnd(Begun(work, j)) == ClaimEnd(work)
    ensures forall m :: 0 <= m <= |work| ==> StartOf(Begun(work, j), m) == StartOf(work, m)
  {
    hide Wrap, Tiled;
    TiledAlike(work, Begun(work, j), n);
  }

  lemma {:induction false} BegunLater(work: seq<Work>, j: nat, k: nat, n: nat)
    requires j < k <= |work|
    ensures TailsFrom(Begun(work, j), k, n) == TailsFrom(work, k, n)
    ensures DoneTailsFrom(Begun(work, j), k, n) == DoneTailsFrom(work, k, n)
    decreases |work| - k
  {
    hide Wrap;
    if k < |work| { BegunLater(work, j, k + 1, n); }
  }

  /** Recording job `j` adds its tail to the done tails counted from any job up to `j`. */
  lemma {:induction false} BegunTails(work: seq<Work>, j: nat, k: nat, n: nat)
    requires k <= j < |work|
    ensures TailsFrom(Begun(work, j), k, n) == TailsFrom(work, k, n)
    ensures DoneTailsFrom(Begun(work, j), k, n) == DoneTailsFrom(work, k, n) + {TailSlot(work[j], n)}
    decreases |work| - k
  {
    hide Wrap;
    if k < j { BegunTails(work, j, k + 1, n); } else { BegunLater(work, j, k + 1, n); }
  }

  /** The first unretired job is recorded: pop it and drain. */
  lemma RetireFirst(r: Ring, work: seq<Work>)
    requires 0 < r.entries && Tiled(work, r.entries) && DonePrefix(work) < |work|
    requires TailsOk(r.procTails, r.doneTails, work, DonePrefix(work), r.entries)
    requires 0 <= DoneEnd(work) && ClaimEnd(work) < DoneEnd(work) + r.entries
    ensures var drained := Drain(r.(sqeTail := r.procTails[0], procTails := r.procTails[1..]));
      drained.Ok? && Retired(r, drained.value, Begun(work, DonePrefix(work)))
  {
    hide Wrap, Tiled, TailsFrom, DoneTailsFrom, Drain, Retired;
    var k := DonePrefix(work);
    FirstTail(work, k, r.entries);
    BegunTiled(work, k, r.entries);
    BegunLater(work, k, k + 1, r.entries);
    NextStart(work, k, r.entries);
    var r1 := r.(sqeTail := r.procTails[0], procTails := r.procTails[1..]);
    DrainRetires(r1, Begun(work, k), k + 1);
    RetiredFrom(r, r1, Drain(r1).value, Begun(work, k));
  }

  /** Recording a tail never aborts, and moves the tail to the end of the longest recorded prefix. */
  lemma RetireKeeps(r: Ring, work: seq<Work>, j: nat)
    requires 0 < r.entries && Tiled(work, r.entries) && j < |work| && !Recorded(work[j].phase)
    requires TailsOk(r.procTails, r.doneTails, work, DonePrefix(work), r.entries)
    requires 0 <= DoneEnd(work) && r.sqeTail == Slot(DoneEnd(work), r.entries)
    requires ClaimEnd(work) < DoneEnd(work) + r.entries
    ensures var retired := Retire(r, Slot(End(work[j]), r.entries));
      retired.Ok? && Retired(r, retired.value, Begun(work, j))
  {
    hide Wrap;
    var n, k, work' := r.entries, DonePrefix(work), Begun(work, j);
    BegunTiled(work, j, n);
    FirstTail(work, k, n);
    if j == k {
      RetireFirst(r, work);
    } else {
      BegunTails(work, j, k, n);
      TailsDistinct(work, k, n, j, k);
      DonePrefixUnique(work', k);
    }
  }

  // ---------- the start of the section ----------

  lemma FinishKeepsContents(sqes: seq<Sqe>, accepted: seq<Sqe>, t: int, t': int, p: Producer)
    requires 0 < |sqes| && 0 <= t <= t' && Contents(sqes, accepted, t, p)
    ensures Contents(sqes, accepted, t', p)
  {
    hide Wrap;
  }

  lemma DoneEndGrows(work: seq<Work>, j: nat, n: nat)
    requires 0 < n && Tiled(work, n) && j < |work| && !Recorded(work[j].phase)
    ensures DoneEnd(work) <= DoneEnd(Begun(work, j)) <= ClaimEnd(work)
  {
    hide Wrap;
    var k, work' := DonePrefix(work), Begun(work, j);
    var k' := DonePrefix(work');
    BegunTiled(work, j, n);
    assert k <= k';
    StartOrdered(work, k, k', n);
    StartOrdered(work, k', |work|, n);
  }

  lemma StartOrdered(work: seq<Work>, k: nat, k': nat, n: nat)
    requires 0 < n && Tiled(work, n) && k <= k' <= |work|
    ensures StartOf(work, k) <= StartOf(work, k')
  {
    hide Wrap;
    if k < k' < |work| { assert End(work[k]) <= work[k'].start; }
    if k < k' == |work| && k < |work| - 1 { assert End(work[k]) <= work[|work| - 1].start; }
  }

  lemma {:induction false} BegunPending(work: seq<Work>, j: nat)
    requires j < |work| && !Recorded(work[j].phase)
    ensures Pending(Begun(work, j)) == Pending(work) && Processing(Begun(work, j)) == Processing(work)
  {
    hide Wrap;
    var work' := Begun(work, j);
    if j == 0 {
      assert work'[1..] == work[1..];
    } else {
      assert work'[1..] == Begun(work[1..], j - 1);
      BegunPending(work[1..], j - 1);
    }
  }

  lemma BegunPosted(posted: seq<int>, work: seq<Work>, j: nat)
    requires PostedOk(posted, work) && j < |work| && !Recorded(work[j].phase)
    ensures PostedOk(posted, Begun(work, j))
  {
    var work' := Begun(work, j);
    assert forall i :: 0 <= i < |work| ==> work'[i].start == work[i].start && Answers(work'[i]) == Answers(work[i]);
    assert ClaimEnd(work') == ClaimEnd(work);
    BegunPending(work, j);
    hide Answers, Begun;
    forall p ensures InAnswered(work, p) <==> InAnswered(work', p) { }
  }

  /** Recording the tail never aborts. */
  lemma BeginSucceeds(s: System, j: int)
    requires Inv(s) && Enabled(s, BeginComplete(j))
    ensures var w := s.work[j];
      var retired := Retire(s.ring, Wrap(w.job.sqeProcTail + w.job.toProc, s.ring.entries));
      retired.Ok? && Shape(retired.value) && Retired(s.ring, retired.value, Begun(s.work, j))
  {
    hide Wrap, TailsOk, Retired, PostedOk, Contents, CopiesOk, CqesOk, ReapedOk, IndicesOk, ArgsOk, Retire;
    var w := s.work[j];
    SlotAdvance(w.start, w.job.toProc, s.ring.entries);
    RetireKeeps(s.ring, s.work, j);
    RetireKeepsShape(s.ring, Slot(End(w), s.ring.entries));
  }

  lemma BeginKeepsSubmit(s: System, j: int, r': Ring)
    requires SubmitInv(s) && 0 <= j < |s.work| && s.work[j].phase.Copied?
    requires Shape(r') && Retired(s.ring, r', Begun(s.work, j))
    ensures SubmitInv(s.(ring := r', work := Begun(s.work, j)))
  {
    hide Wrap, Tiled, TailsOk, Contents, CopiesOk;
    DoneEndGrows(s.work, j, s.ring.entries);
    BegunTiled(s.work, j, s.ring.entries);
    FinishKeepsContents(s.ring.sqes, s.accepted, DoneEnd(s.work), DoneEnd(Begun(s.work, j)), s.producer);
    assert CopyOk(s.work[j], s.accepted) by { CopyAt(s.work, s.accepted, j); }
    RecolourKeepsCopies(s.work, j, Begun(s.work, j)[j], s.accepted);
  }

  lemma CopyAt(work: seq<Work>, accepted: seq<Sqe>, j: int)
    requires CopiesOk(work, accepted) && 0 <= j < |work|
    ensures CopyOk(work[j], accepted)
  {
  }

  lemma BeginCompleteKeeps(s: System, j: int)
    requires Inv(s) && Enabled(s, BeginComplete(j))
    ensures Inv(Next(s, BeginComplete(j)))
  {
    hide Wrap, Tiled, TailsOk, PostedOk, CqesOk, ReapedOk, IndicesOk, Contents, CopiesOk, ArgsOk, Retire;
    BeginSucceeds(s, j);
    BeginKeepsSubmit(s, j, Next(s, BeginComplete(j)).ring);
    BegunPosted(s.posted, s.work, j);
    BegunPending(s.work, j);
  }

  // ---------- posting one completion ----------

  /** What posting leaves behind. */
  ghost predicate PostResult(r: Ring, r': Ring, accepted: seq<Sqe>, posted: seq<int>, results: seq<int>, from: nat) {
    && Shape(r') && CqesOk(r'.cqes, accepted, posted, results, from)
    && r'.cqeHead == Slot(|posted|, r'.entries)
    && r' == r.(cqes := r'.cqes, cqeHead := r'.cqeHead)
  }

  lemma PostOne(r: Ring, accepted: seq<Sqe>, posted: seq<int>, results: seq<int>, from: nat, reaped: nat, p: int,
                result: int)
    requires PostResult(r, r, accepted, posted, results, from) && r.cqeTail == Slot(reaped, r.entries)
    requires from <= reaped <= |posted| && |posted| + 1 < from + r.entries && 0 <= p < |accepted|
    ensures var r' := PostCqe(r, CqeFor(accepted[p], result));
      r'.Some? && PostResult(r, r'.value, accepted, posted + [p], results + [result], from)
  {
    hide Wrap;
    var n, head := r.entries, Slot(|posted|, r.entries);
    SlotFull(reaped, |posted|, n);
    SlotAdvance(|posted|, 1, n);
    forall q | from <= q < |posted| ensures Slot(q, n) != head { SlotsDiffer(q, |posted|, n); }
  }

  /** Job `j` after one more completion. */
  function Advanced(work: seq<Work>, j: nat): seq<Work>
    requires j < |work| && work[j].phase.Posting?
  {
    work[j := work[j].(phase := Posting(work[j].phase.copy, work[j].phase.k + 1))]
  }

  lemma {:induction false} AdvancedPending(work: seq<Work>, j: nat)
    requires j < |work| && work[j].phase.Posting?
    ensures Pending(Advanced(work, j)) == Pending(work) - 1 && Processing(Advanced(work, j)) == Processing(work)
  {
    hide Wrap;
    var work' := Advanced(work, j);
    if j == 0 {
      assert work'[1..] == work[1..];
    } else {
      assert work'[1..] == Advanced(work[1..], j - 1);
      AdvancedPending(work[1..], j - 1);
    }
  }

  /** There is room for the completion: `addCqe` never refuses. */
  lemma RoomForOne(s: System, j: int, result: int)
    requires Inv(s) && Enabled(s, PostNext(j, result))
    ensures s.released <= |s.reaped| <= |s.posted| && |s.posted| + 1 < s.released + s.ring.entries
    ensures var w := s.work[j];
      0 <= w.start && w.start + w.phase.k < |s.accepted| && w.phase.copy[w.phase.k] == s.accepted[w.start + w.phase.k]
  {
    hide Wrap, Tiled, CopiesOk, PostedOk, TailsOk, Contents, ArgsOk;
    Outstanding(s);
    CountsOrdered(s);
    AnswersBounded(s.work, s.accepted, s.ring.entries);
    PendingNonNegative(s.work);
    PostedCount(s.posted, s.work);
    CopyAt(s.work, s.accepted, j);
  }

  lemma PostSucceeds(s: System, j: int, result: int)
    requires Inv(s) && Enabled(s, PostNext(j, result))
    ensures var w := s.work[j];
      var posted := PostCqe(s.ring, CqeFor(w.phase.copy[w.phase.k], result));
      && posted.Some?
      && PostResult(s.ring, posted.value, s.accepted, s.posted + [w.start + w.phase.k], s.results + [result],
                    s.released)
  {
    hide Wrap, Tiled, CopiesOk, PostedOk, TailsOk, Contents, ArgsOk, PostCqe, IndicesOk, ReapedOk;
    var w := s.work[j];
    RoomForOne(s, j, result);
    PostOne(s.ring, s.accepted, s.posted, s.results, s.released, |s.reaped|, w.start + w.phase.k, result);
  }

  /** The position is new to the posted sequence. */
  lemma FreshPosition(posted: seq<int>, work: seq<Work>, j: nat, n: nat)
    requires 0 < n && Tiled(work, n) && PostedOk(posted, work) && AnswersOk(work) && j < |work|
    requires Answers(work[j]) < work[j].job.toProc
    ensures forall q :: 0 <= q < |posted| ==> posted[q] != work[j].start + Answers(work[j])
  {
    hide Wrap, Answers;
    var p := work[j].start + Answers(work[j]);
    forall q | 0 <= q < |posted| ensures posted[q] != p {
      assert InAnswered(work, posted[q]);
      var i :| 0 <= i < |work| && work[i].start <= posted[q] < work[i].start + Answers(work[i]);
      if i < j { assert End(work[i]) <= work[j].start; } else if j < i { assert End(work[j]) <= work[i].start; }
    }
  }

  lemma AdvancedAnswers(posted: seq<int>, work: seq<Work>, j: nat)
    requires PostedOk(posted, work) && j < |work| && work[j].phase.Posting? && 0 <= work[j].phase.k
    ensures var work', posted' := Advanced(work, j), posted + [work[j].start + work[j].phase.k];
      && (forall q :: 0 <= q < |posted'| ==> InAnswered(work', posted'[q]))
      && (forall i, p :: 0 <= i < |work'| && work'[i].start <= p < work'[i].start + Answers(work'[i]) ==> p in posted')
  {
    hide Wrap, Pending;
    var work', posted' := Advanced(work, j), posted + [work[j].start + work[j].phase.k];
    forall q | 0 <= q < |posted'| ensures InAnswered(work', posted'[q]) {
      if q < |posted| {
        assert InAnswered(work, posted[q]);
        var i :| 0 <= i < |work| && work[i].start <= posted[q] < work[i].start + Answers(work[i]);
        assert work'[i].start == work[i].start && Answers(work[i]) <= Answers(work'[i]);
      } else {
        assert work'[j].start <= posted'[q] < work'[j].start + Answers(work'[j]);
      }
    }
    forall i, p | 0 <= i < |work'| && work'[i].start <= p < work'[i].start + Answers(work'[i]) ensures p in posted' {
      if i == j && p == work[j].start + work[j].phase.k {
        assert posted'[|posted|] == p;
      } else {
        assert work[i].start <= p < work[i].start + Answers(work[i]);
        assert p in posted;
      }
    }
  }

  lemma PostKeepsPosted(posted: seq<int>, work: seq<Work>, j: nat, n: nat)
    requires 0 < n && Tiled(work, n) && PostedOk(posted, work) && AnswersOk(work) && j < |work|
    requires work[j].phase.Posting? && 0 <= work[j].phase.k < work[j].job.toProc
    ensures PostedOk(posted + [work[j].start + work[j].phase.k], Advanced(work, j))
  {
    assert ClaimEnd(Advanced(work, j)) == ClaimEnd(work);
    assert Answers(work[j]) == work[j].phase.k;
    hide Wrap, Tiled, Pending, InAnswered, Advanced, Answers;
    FreshPosition(posted, work, j, n);
    AdvancedAnswers(posted, work, j);
    AdvancedPending(work, j);
  }

  lemma PostKeepsReaped(reaped: seq<Cqe>, accepted: seq<Sqe>, posted: seq<int>, results: seq<int>, p: int, result: int)
    requires ReapedOk(reaped, accepted, posted, results) && 0 <= p < |accepted|
    ensures ReapedOk(reaped, accepted, posted + [p], results + [result])
  {
    hide Wrap;
  }

  /** What is posted later does not matter for what is released. */
  lemma PostKeepsIndices(slots: Slots, producer: Producer, args: seq<int>, accepted: seq<Sqe>, given: seq<int>,
                         posted: seq<int>, released: nat, p: int)
    requires IndicesOk(slots, Held(producer), accepted, posted, released) && released <= |posted|
    requires ArgsOk(args, slots.cap, producer, accepted, given, posted, released)
    ensures IndicesOk(slots, Held(producer), accepted, posted + [p], released)
    ensures ArgsOk(args, slots.cap, producer, accepted, given, posted + [p], released)
  {
    hide Wrap, Held;
    forall i ensures Unreleased(posted, released, i) <==> Unreleased(posted + [p], released, i) {
      forall q | 0 <= q < |posted| ensures (posted + [p])[q] == posted[q] { }
    }
    hide Unreleased;
  }

  /** A job moves on inside the section: nothing changes on the submission side. */
  lemma AdvancedSubmit(s: System, j: int, phase: Phase, r': Ring)
    requires SubmitInv(s) && 0 <= j < |s.work| && s.work[j].phase.Posting? && Recorded(phase)
    requires CopyOk(s.work[j].(phase := phase), s.accepted)
    requires Shape(r') && r' == s.ring.(cqes := r'.cqes, cqeHead := r'.cqeHead, processing := r'.processing)
    ensures SubmitInv(s.(ring := r', work := s.work[j := s.work[j].(phase := phase)]))
  {
    hide Wrap, Tiled, Contents, CopiesOk;
    var work' := s.work[j := s.work[j].(phase := phase)];
    TiledAlike(s.work, work', s.ring.entries);
    DonePrefixUnique(work', DonePrefix(s.work));
    AlikeTails(s.work, work', DonePrefix(s.work), s.ring.entries);
    RecolourKeepsCopies(s.work, j, work'[j], s.accepted);
  }

  lemma {:induction false} AlikeTails(work: seq<Work>, work': seq<Work>, k: nat, n: nat)
    requires |work'| == |work| && k <= |work|
    requires forall i :: 0 <= i < |work| ==>
      && work'[i].job == work[i].job && work'[i].start == work[i].start
      && Recorded(work'[i].phase) == Recorded(work[i].phase)
    ensures TailsFrom(work', k, n) == TailsFrom(work, k, n) && DoneTailsFrom(work', k, n) == DoneTailsFrom(work, k, n)
    decreases |work| - k
  {
    hide Wrap;
    if k < |work| { AlikeTails(work, work', k + 1, n); }
  }

  lemma PostNextKeeps(s: System, j: int, result: int)
    requires Inv(s) && Enabled(s, PostNext(j, result))
    ensures Inv(Next(s, PostNext(j, result)))
  {
    hide Wrap, Tiled, TailsOk, PostedOk, CqesOk, ReapedOk, IndicesOk, Contents, CopiesOk, ArgsOk, PostCqe;
    var w, s' := s.work[j], Next(s, PostNext(j, result));
    PostSucceeds(s, j, result);
    RoomForOne(s, j, result);
    CopyAt(s.work, s.accepted, j);
    AdvancedSubmit(s, j, Posting(w.phase.copy, w.phase.k + 1), s'.ring);
    AnswersBounded(s.work, s.accepted, s.ring.entries);
    PostKeepsPosted(s.posted, s.work, j, s.ring.entries);
    AdvancedPending(s.work, j);
    PostKeepsReaped(s.reaped, s.accepted, s.posted, s.results, w.start + w.phase.k, result);
    PostKeepsIndices(s.slots, s.producer, s.args, s.accepted, s.given, s.posted, s.released, w.start + w.phase.k);
    assert CompleteInv(s');
  }

  // ---------- the end of the section ----------

  function Ended(work: seq<Work>, j: nat): seq<Work>
    requires j < |work|
  {
    work[j := work[j].(phase := Completed)]
  }

  lemma {:induction false} EndedPending(work: seq<Work>, j: nat)
    requires j < |work| && work[j].phase.Posting? && work[j].phase.k == work[j].job.toProc
    ensures Pending(Ended(work, j)) == Pending(work)
    ensures Processing(Ended(work, j)) == Processing(work) - work[j].job.toProc
  {
    hide Wrap;
    var work' := Ended(work, j);
    if j == 0 {
      assert work'[1..] == work[1..];
    } else {
      assert work'[1..] == Ended(work[1..], j - 1);
      EndedPending(work[1..], j - 1);
    }
  }

  lemma EndedPosted(posted: seq<int>, work: seq<Work>, j: nat)
    requires PostedOk(posted, work) && j < |work| && work[j].phase.Posting? && work[j].phase.k == work[j].job.toProc
    ensures PostedOk(posted, Ended(work, j))
  {
    var work' := Ended(work, j);
    assert forall i :: 0 <= i < |work| ==> work'[i].start == work[i].start && Answers(work'[i]) == Answers(work[i]);
    assert ClaimEnd(work') == ClaimEnd(work);
    EndedPending(work, j);
    hide Answers, Ended;
    forall p ensures InAnswered(work, p) <==> InAnswered(work', p) { }
  }

  lemma EndCompleteKeeps(s: System, j: int)
    requires Inv(s) && Enabled(s, EndComplete(j))
    ensures Inv(Next(s, EndComplete(j)))
  {
    hide Wrap, Tiled, TailsOk, PostedOk, CqesOk, ReapedOk, IndicesOk, Contents, CopiesOk, ArgsOk;
    AdvancedSubmit(s, j, Completed, Next(s, EndComplete(j)).ring);
    EndedPosted(s.posted, s.work, j);
    EndedPending(s.work, j);
  }

  // ---------- every run ----------

  lemma StepKeeps(s: System, step: Step)
    requires Inv(s) && Enabled(s, step)
    ensures Inv(Next(s, step))
  {
    hide Wrap;
    match step
    case AllocIndex => AllocIndexKeeps(s);
    case Fill(userdata, arg) => FillKeeps(s, userdata, arg);
    case Publish => PublishKeeps(s);
    case ClaimJobs(maxJobs) => ClaimJobsKeeps(s, maxJobs);
    case CopyJob(j) => CopyJobKeeps(s, j);
    case BeginComplete(j) => BeginCompleteKeeps(s, j);
    case PostNext(j, result) => PostNextKeeps(s, j, result);
    case EndComplete(j) => EndCompleteKeeps(s, j);
    case Take => TakeKeeps(s);
    case Release => ReleaseKeeps(s);
  }

  lemma {:induction false} RunKeeps(s: System, steps: seq<Step>)
    requires Inv(s) && Legal(s, steps)
    ensures Inv(After(s, steps))
    decreases |steps|
  {
    hide Wrap;
    if steps != [] {
      StepKeeps(s, steps[0]);
      RunKeeps(Next(s, steps[0]), steps[1..]);
    }
  }

  /** In every reachable state, also in the middle of a completion section: no FATAL exit was taken; completions still
      owed and those not yet reaped fit the ring, and outside the section the ring counts exactly those owed; the
      submission tail is the end of the longest recorded prefix of the jobs in claim order; at most one worker is in the
      section; and claimed jobs are never empty. */
  lemma RingIsSafe(s: System, steps: seq<Step>)
    requires Init(s) && Legal(s, steps)
    ensures var t := After(s, steps);
      && !t.aborted && Shape(t.ring)
      && 0 <= Pending(t.work) && Pending(t.work) + CqeCount(t.ring) <= t.ring.entries - 1
      && (Unlocked(t.work) ==> t.ring.processing == Pending(t.work))
      && (forall i, j :: 0 <= i < j < |t.work| ==> !(t.work[i].phase.Posting? && t.work[j].phase.Posting?))
      && 0 <= DoneEnd(t.work) && t.ring.sqeTail == Slot(DoneEnd(t.work), t.ring.entries)
      && |t.ring.procTails| == |t.work| - DonePrefix(t.work)
      && forall j :: 0 <= j < |t.work| ==> 1 <= t.work[j].job.toProc
  {
    hide Wrap;
    InitInv(s);
    RunKeeps(s, steps);
    var t := After(s, steps);
    ReservationCovers(t);
    AnswersBounded(t.work, t.accepted, t.ring.entries);
    PendingNonNegative(t.work);
  }

  /** How often `p` occurs in `s`. */
  function Occurrences(s: seq<int>, p: int): nat {
    if s == [] then 0 else (if s[0] == p then 1 else 0) + Occurrences(s[1..], p)
  }

  lemma {:induction false} OccursOnce(s: seq<int>, p: int)
    requires forall q, q' :: 0 <= q < q' < |s| ==> s[q] != s[q']
    ensures Occurrences(s, p) == if p in s then 1 else 0
  {
    hide Wrap;
    if s != [] {
      OccursOnce(s[1..], p);
      assert s == [s[0]] + s[1..];
    }
  }

  /** Position `p` is among the first entries of a job whose completions its worker has posted: all of them once the job
      has ended. */
  ghost predicate Answered(t: System, p: int) {
    InAnswered(t.work, p)
  }

  /** In every reachable state each accepted entry has been answered by exactly one completion entry if its worker has
      posted it and by none otherwise. The completion entries not yet reaped are in the ring, in the order they were
      posted, and every one of them, reaped or not, carries the index and userdata of the entry it answers, and its
      result. */
  lemma ExactlyOneCompletion(s: System, steps: seq<Step>)
    requires Init(s) && Legal(s, steps)
    ensures var t := After(s, steps);
      && |t.reaped| <= |t.posted| && Shape(t.ring) && CqeCount(t.ring) == |t.posted| - |t.reaped|
      && Bounded(t.posted, |t.accepted|) && |t.results| == |t.posted|
      && (forall p :: 0 <= p < |t.accepted| ==> Occurrences(t.posted, p) == if Answered(t, p) then 1 else 0)
      && (forall q :: 0 <= q < |t.reaped| ==> t.reaped[q] == CqeFor(t.accepted[t.posted[q]], t.results[q]))
      && (forall q :: |t.reaped| <= q < |t.posted| ==>
            0 <= Slot(q, |t.ring.cqes|) < |t.ring.cqes|
            && t.ring.cqes[Slot(q, |t.ring.cqes|)] == CqeFor(t.accepted[t.posted[q]], t.results[q]))
  {
    hide Wrap;
    InitInv(s);
    RunKeeps(s, steps);
    var t := After(s, steps);
    ReservationCovers(t);
    PostedAreAnswers(t);
  }

  lemma PostedAreAnswers(t: System)
    requires Inv(t)
    ensures forall p :: 0 <= p < |t.accepted| ==> Occurrences(t.posted, p) == if Answered(t, p) then 1 else 0
  {
    hide Wrap;
    forall p | 0 <= p < |t.accepted| ensures Occurrences(t.posted, p) == if Answered(t, p) then 1 else 0 {
      OccursOnce(t.posted, p);
      if Answered(t, p) {
        var j :| 0 <= j < |t.work| && t.work[j].start <= p < t.work[j].start + Answers(t.work[j]);
        assert p in t.posted;
      }
      if p in t.posted {
        var q :| 0 <= q < |t.posted| && t.posted[q] == p;
        assert InAnswered(t.work, t.posted[q]);
      }
    }
  }

  /** In every reachable state the ranges of different jobs are disjoint, in claim order. */
  lemma ClaimsDisjoint(s: System, steps: seq<Step>, i: nat, j: nat)
    requires Init(s) && Legal(s, steps) && i < j < |After(s, steps).work|
    ensures End(After(s, steps).work[i]) <= After(s, steps).work[j].start
  {
    hide Wrap;
    InitInv(s);
    RunKeeps(s, steps);
  }

  /** In every reachable state what a worker is about to copy is what was accepted. */
  lemma ClaimIntact(s: System, steps: seq<Step>, j: nat)
    requires Init(s) && Legal(s, steps) && j < |After(s, steps).work| && After(s, steps).work[j].phase.Claimed?
    ensures var t := After(s, steps);
      && Shape(t.ring) && 0 <= t.work[j].job.sqeProcTail && 0 <= t.work[j].start < End(t.work[j]) <= |t.accepted|
      && Copy(t.ring, t.work[j].job) == t.accepted[t.work[j].start..End(t.work[j])]
  {
    hide Wrap;
    InitInv(s);
    RunKeeps(s, steps);
    CopyIsAccepted(After(s, steps), j);
  }

  lemma {:induction false} TailsAt(work: seq<Work>, m: nat, n: nat, i: nat)
    requires m <= i < |work|
    ensures TailsFrom(work, m, n)[i - m] == TailSlot(work[i], n)
    decreases i - m
  {
    hide Wrap;
    if m < i { TailsAt(work, m + 1, n, i); }
  }

  lemma {:induction false} DoneTailOf(work: seq<Work>, m: nat, n: nat, x: int) returns (i: nat)
    requires m <= |work| && x in DoneTailsFrom(work, m, n)
    ensures m <= i < |work| && Recorded(work[i].phase) && TailSlot(work[i], n) == x
    decreases |work| - m
  {
    hide Wrap;
    if Recorded(work[m].phase) && x == TailSlot(work[m], n) {
      i := m;
    } else {
      i := DoneTailOf(work, m + 1, n, x);
    }
  }

  lemma TailsInState(work: seq<Work>, procTails: seq<int>, doneTails: set<int>, n: nat, a: nat, b: nat)
    requires 0 < n && Tiled(work, n) && TailsOk(procTails, doneTails, work, DonePrefix(work), n)
    requires a < b < |procTails| && ClaimEnd(work) < DoneEnd(work) + n
    ensures procTails[a] != procTails[b]
  {
    hide Wrap, Tiled, DonePrefix;
    var m := DonePrefix(work);
    TailsAt(work, m, n, m + a);
    TailsAt(work, m, n, m + b);
    TailsDistinct(work, m, n, m + a, m + b);
    EndsNonNegative(work, n, m + a);
    EndsNonNegative(work, n, m + b);
  }

  lemma EndsNonNegative(work: seq<Work>, n: nat, i: nat)
    requires 0 < n && Tiled(work, n) && i < |work|
    ensures 0 <= End(work[i])
  {
    hide Wrap;
  }

  lemma InvTails(s: System)
    requires Inv(s)
    ensures 0 < s.ring.entries && Tiled(s.work, s.ring.entries) && ClaimEnd(s.work) < DoneEnd(s.work) + s.ring.entries
    ensures TailsOk(s.ring.procTails, s.ring.doneTails, s.work, DonePrefix(s.work), s.ring.entries)
  {
    hide Wrap, Tiled, DonePrefix, CompleteInv, IndicesOk, Contents, CopiesOk;
  }

  /** In every reachable state the claimed tails that are not retired sit in different slots. */
  lemma TailsAreDistinct(s: System, steps: seq<Step>, a: nat, b: nat)
    requires Init(s) && Legal(s, steps) && a < b < |After(s, steps).ring.procTails|
    ensures After(s, steps).ring.procTails[a] != After(s, steps).ring.procTails[b]
  {
    hide Wrap, Inv, Legal, After, Tiled, DonePrefix, TailsOk;
    InitInv(s);
    RunKeeps(s, steps);
    var t := After(s, steps);
    InvTails(t);
    TailsInState(t.work, t.ring.procTails, t.ring.doneTails, t.ring.entries, a, b);
  }

  lemma FrontIsNotDone(work: seq<Work>, procTails: seq<int>, doneTails: set<int>, n: nat)
    requires 0 < n && Tiled(work, n) && TailsOk(procTails, doneTails, work, DonePrefix(work), n)
    requires procTails != [] && ClaimEnd(work) < DoneEnd(work) + n
    ensures procTails[0] !in doneTails
  {
    hide Wrap, Tiled;
    var m := DonePrefix(work);
    TailsAt(work, m, n, m);
    if procTails[0] in doneTails {
      var i := DoneTailOf(work, m, n, procTails[0]);
      TailsAt(work, m, n, i);
      TailsInState(work, procTails, doneTails, n, 0, i - m);
    }
  }

  /** In every reachable state every tail marked done is a claimed one that is not retired, and never the first. */
  lemma DoneTailsAreClaimed(s: System, steps: seq<Step>)
    requires Init(s) && Legal(s, steps)
    ensures var r := After(s, steps).ring;
      (forall x :: x in r.doneTails ==> x in r.procTails) && (r.procTails != [] ==> r.procTails[0] !in r.doneTails)
  {
    hide Wrap, Inv, Legal, After, Tiled, DonePrefix;
    InitInv(s);
    RunKeeps(s, steps);
    var t := After(s, steps);
    InvTails(t);
    if t.ring.procTails != [] { FrontIsNotDone(t.work, t.ring.procTails, t.ring.doneTails, t.ring.entries); }
    forall x | x in t.ring.doneTails ensures x in t.ring.procTails {
      var i := DoneTailOf(t.work, DonePrefix(t.work), t.ring.entries, x);
      TailsAt(t.work, DonePrefix(t.work), t.ring.entries, i);
    }
  }

  lemma UnansweredIsUnreleased(t: System, j: nat, p: int)
    requires Inv(t) && j < |t.work| && t.work[j].start + Answers(t.work[j]) <= p < End(t.work[j])
    ensures 0 <= p < |t.accepted| && Unreleased(t.posted, t.released, p)
  {
    hide Wrap, Answers, TailsOk, Contents, ArgsOk, IndicesOk, CqesOk, ReapedOk;
    AnswersBounded(t.work, t.accepted, t.ring.entries);
    CountsOrdered(t);
    assert End(t.work[j]) <= ClaimEnd(t.work);
    forall q | 0 <= q < |t.posted| ensures t.posted[q] != p {
      assert InAnswered(t.work, t.posted[q]);
      var i :| 0 <= i < |t.work| && t.work[i].start <= t.posted[q] < t.work[i].start + Answers(t.work[i]);
      if i < j { assert End(t.work[i]) <= t.work[j].start; } else if j < i { assert End(t.work[j]) <= t.work[i].start; }
    }
  }

  /** In every reachable state the io arguments of every claimed entry whose completion is not posted are still the ones
      its generator wrote: no later io has overwritten them. */
  lemma ArgsIntact(s: System, steps: seq<Step>, j: nat, p: int)
    requires Init(s) && Legal(s, steps) && j < |After(s, steps).work|
    requires var w := After(s, steps).work[j]; w.start + Answers(w) <= p < End(w)
    ensures var t := After(s, steps);
      && 0 <= p < |t.accepted| == |t.given| && 0 <= t.accepted[p].index < |t.args|
      && t.args[t.accepted[p].index] == t.given[p]
  {
    hide Wrap;
    InitInv(s);
    RunKeeps(s, steps);
    UnansweredIsUnreleased(After(s, steps), j, p);
  }

  // ---------- the section as a whole ----------

  function PostSteps(j: int, rs: seq<int>): seq<Step> {
    if rs == [] then [] else [PostNext(j, rs[0])] + PostSteps(j, rs[1..])
  }

  lemma {:induction false} AfterAppend(s: System, a: seq<Step>, b: seq<Step>)
    requires Legal(s, a) && Legal(After(s, a), b)
    ensures Legal(s, a + b) && After(s, a + b) == After(After(s, a), b)
    decreases |a|
  {
    hide Enabled, Next;
    if a == [] {
      assert a + b == b;
    } else {
      AfterAppend(Next(s, a[0]), a[1..], b);
      assert (a + b)[0] == a[0] && (a + b)[1..] == a[1..] + b;
    }
  }

  /** Posting the rest of a job without interruption is the posting loop. */
  lemma {:induction false} PostRun(s: System, j: int, rs: seq<int>)
    requires Inv(s) && 0 <= j < |s.work| && s.work[j].phase.Posting?
    requires |rs| == s.work[j].job.toProc - s.work[j].phase.k
    ensures 0 <= s.work[j].phase.k <= |s.work[j].phase.copy| == s.work[j].job.toProc && Shape(s.ring)
    ensures var w, steps := s.work[j], PostSteps(j, rs);
      && Legal(s, steps) && Inv(After(s, steps))
      && PostAll(s.ring, w.phase.copy[w.phase.k..], rs) == Ok(After(s, steps).ring)
      && After(s, steps).work == s.work[j := w.(phase := Posting(w.phase.copy, w.job.toProc))]
    decreases |rs|
  {
    hide Wrap, Tiled, TailsOk, PostedOk, CqesOk, ReapedOk, IndicesOk, Contents, ArgsOk, PostCqe, OneInside;
    var w := s.work[j];
    assert CopyOk(w, s.accepted) by { CopyAt(s.work, s.accepted, j); }
    if rs == [] {
      assert s.work[j := w.(phase := Posting(w.phase.copy, w.job.toProc))] == s.work;
    } else {
      assert FreeOk(s) by { InvFree(s); }
      PostSucceeds(s, j, rs[0]);
      var s' := Next(s, PostNext(j, rs[0]));
      PostNextKeeps(s, j, rs[0]);
      PostRun(s', j, rs[1..]);
      var rest := w.phase.copy[w.phase.k..];
      assert rest[0] == w.phase.copy[w.phase.k] && rest[1..] == w.phase.copy[w.phase.k + 1..];
    }
  }

  predicate FreeOk(s: System) { forall k :: 0 <= k < |s.slots.free| ==> 0 <= s.slots.free[k] }

  lemma InvFree(s: System)
    requires Inv(s)
    ensures FreeOk(s) && !s.aborted && Shape(s.ring)
  {
    hide Wrap, SubmitInv, CompleteInv, ArgsOk;
    assert SubmitInv(s);
    ShapeOf(s);
  }

  lemma ShapeOf(s: System)
    requires SubmitInv(s)
    ensures Shape(s.ring)
  {
  }

  lemma SectionBegins(s: System, j: int)
    requires Inv(s) && Enabled(s, BeginComplete(j))
    ensures var s1, w := Next(s, BeginComplete(j)), s.work[j];
      && Inv(s1) && Shape(s.ring)
      && Retire(s.ring, Wrap(w.job.sqeProcTail + w.job.toProc, s.ring.entries)) == Ok(s1.ring)
      && |s1.work| == |s.work| && s1.work[j] == w.(phase := Posting(w.phase.copy, 0))
  {
    hide Inv, Retire, Wrap, Retired;
    BeginSucceeds(s, j);
    BeginCompleteKeeps(s, j);
  }

  lemma SectionEnds(s: System, j: int)
    requires Inv(s) && 0 <= j < |s.work| && s.work[j].phase.Posting? && s.work[j].phase.k == s.work[j].job.toProc
    ensures Enabled(s, EndComplete(j))
    ensures Next(s, EndComplete(j)).ring == s.ring.(processing := s.ring.processing - s.work[j].job.toProc)
  {
    hide Inv;
    InvFree(s);
  }

  /** The section without interruption is the locked section of the source. */
  lemma SectionIsComplete(s: System, j: int, rs: seq<int>)
    requires Inv(s) && Enabled(s, BeginComplete(j)) && |rs| == s.work[j].job.toProc == |s.work[j].phase.copy|
    ensures var steps := [BeginComplete(j)] + PostSteps(j, rs) + [EndComplete(j)];
      Legal(s, steps) && Complete(s.ring, s.work[j].job, s.work[j].phase.copy, rs) == Ok(After(s, steps).ring)
  {
    var begin, posts, end := BeginComplete(j), PostSteps(j, rs), EndComplete(j);
    hide Inv, PostAll, Retire, PostSteps, Wrap, Legal, After, Next;
    SectionBegins(s, j);
    var s1 := Next(s, begin);
    hide Enabled;
    PostRun(s1, j, rs);
    var s2 := After(s1, posts);
    SectionEnds(s2, j);
    OneStep(s, begin);
    OneStep(s2, end);
    AfterAppend(s, [begin], posts);
    AfterAppend(s, [begin] + posts, [end]);
    assert s.work[j].phase.copy[0..] == s.work[j].phase.copy;
  }

  lemma OneStep(s: System, step: Step)
    requires Enabled(s, step)
    ensures Legal(s, [step]) && After(s, [step]) == Next(s, step)
  {
    hide Enabled, Next;
  }

  /** The guards of the steps never stop a thread that the source would let go on. */
  lemma NeverStuck(s: System, steps: seq<Step>, j: int)
    requires Init(s) && Legal(s, steps)
    ensures var t := After(s, steps);
      && (t.producer.Idle? ==> Enabled(t, AllocIndex))
      && (t.producer.Holding? ==> forall userdata, arg :: Enabled(t, Fill(userdata, arg)))
      && (t.producer.Filled? ==> Enabled(t, Publish))
      && (t.consumer.Took? ==> Enabled(t, Release))
      && (0 <= j < |t.work| ==>
            match t.work[j].phase
            case Claimed => Enabled(t, CopyJob(j))
            case Copied(_) => Unlocked(t.work) ==> Enabled(t, BeginComplete(j))
            case Posting(_, k) =>
              if k < t.work[j].job.toProc then forall result :: Enabled(t, PostNext(j, result))
              else Enabled(t, EndComplete(j))
            case Completed => true)
  {
    hide Wrap, Legal, After, TailsOk, PostedOk, CqesOk, ReapedOk, Contents;
    InitInv(s);
    RunKeeps(s, steps);
    var t := After(s, steps);
    InvFree(t);
    if 0 <= j < |t.work| { CopyAt(t.work, t.accepted, j); }
  }
}
