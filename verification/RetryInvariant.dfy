/** Every step of a retry run keeps its invariant. */
module RetryInvariant {
  import opened Prelude
  import opened Channels
  import opened RetryRun

  /** A batch only depends on its own operations. */
  lemma BatchFrame(bt: Batch, b: int, ops: seq<Op>, chans: seq<Channel>, ops': seq<Op>, chans': seq<Channel>)
    requires |ops| == |chans| == |ops'| == |chans'| && BatchOk(bt, b, ops, chans)
    requires forall i :: 0 <= i < |ops| && ops[i].batch == Some(b) ==> ops'[i] == ops[i] && chans'[i] == chans[i]
    ensures BatchOk(bt, b, ops', chans')
  {
  }

  /** When only operations of batch `b` change, and stay in it, the other batches are as they were. */
  lemma OtherBatches(s: State, b: int, phase: Phase, ops': seq<Op>, chans': seq<Channel>)
    requires |s.ops| == |s.chans| == |ops'| == |chans'| && BatchesOk(s.batches, s.ops, s.chans) && ValidBatch(s, b)
    requires forall i :: 0 <= i < |s.ops| && s.ops[i].batch != Some(b) ==>
      ops'[i] == s.ops[i] && chans'[i] == s.chans[i]
    requires forall i :: 0 <= i < |s.ops| && s.ops[i].batch == Some(b) ==>
      ops'[i].batch.None? || ops'[i].batch == Some(b)
    requires BatchOk(s.batches[b].(phase := phase), b, ops', chans')
    ensures BatchesOk(WithPhase(s, b, phase), ops', chans')
  {
    hide BatchOk;
    forall c | 0 <= c < |s.batches| && c != b ensures BatchOk(s.batches[c], c, ops', chans') {
      BatchFrame(s.batches[c], c, s.ops, s.chans, ops', chans');
    }
  }

  lemma BeginKeeps(s: State, n: int, ops: seq<int>)
    requires Inv(s, n) && Enabled(s, Begin(ops))
    ensures Inv(Next(s, Begin(ops)), n)
  {
    hide Conserved, BatchOk, Distinct;
    var s' := Next(s, Begin(ops));
    forall b | 0 <= b < |s.batches| ensures BatchOk(s.batches[b], b, s'.ops, s.chans) {
      BatchFrame(s.batches[b], b, s.ops, s.chans, s'.ops, s.chans);
    }
    BeginBatch(ops, |s.batches|, s'.ops, s.chans);
  }

  lemma BeginBatch(which: seq<int>, b: int, ops: seq<Op>, chans: seq<Channel>)
    requires |ops| == |chans| && Distinct(which)
    requires forall k :: 0 <= k < |which| ==>
      0 <= which[k] < |ops| && ops[which[k]].batch == Some(b) && Quiet(ops[which[k]])
    ensures BatchOk(Batch(which, Allocating(0, [])), b, ops, chans)
  {
  }

  lemma AllocateNextKeeps(s: State, n: int, b: int, slots: int)
    requires Inv(s, n) && Enabled(s, AllocateNext(b, slots))
    ensures Inv(Next(s, AllocateNext(b, slots)), n)
  {
    hide Conserved, BatchesOk, WireOk;
    var s' := Next(s, AllocateNext(b, slots));
    var phase := s.batches[b].phase;
    var o := s.batches[b].ops[phase.pos];
    if s.chans[o].id == 0 && s.pool.free != [] {
      TakeConserves(s.pool, s.chans, n, o, slots);
    }
    AllocateNextBatch(s, n, b, slots);
    OtherBatches(s, b, s'.batches[b].phase, s'.ops, s'.chans);
  }

  /** The next operation of an allocating batch takes a channel. */
  lemma BatchTakes(bt: Batch, b: int, ops: seq<Op>, chans: seq<Channel>, c: Channel)
    requires |ops| == |chans| && BatchOk(bt, b, ops, chans) && bt.phase.Allocating? && bt.phase.pos < |bt.ops|
    requires var o := bt.ops[bt.phase.pos]; ops[o].sent.None? && chans[o].id == 0 && c.id != 0
    ensures var o := bt.ops[bt.phase.pos];
      BatchOk(bt.(phase := Allocating(bt.phase.pos + 1, bt.phase.taken + [o])), b, ops, chans[o := c])
  {
  }

  lemma AllocateNextBatch(s: State, n: int, b: int, slots: int)
    requires |s.ops| == |s.chans| && BatchesOk(s.batches, s.ops, s.chans) && Enabled(s, AllocateNext(b, slots))
    requires OpsOk(s.ops, s.chans, s.pool.next) && Conserved(s.pool, s.chans, n)
    ensures var s' := Next(s, AllocateNext(b, slots));
      s.batches[b].(phase := s'.batches[b].phase) == s'.batches[b] && BatchOk(s'.batches[b], b, s'.ops, s'.chans)
  {
    var phase := s.batches[b].phase;
    var bt, o := s.batches[b], s.batches[b].ops[phase.pos];
    assert BatchOk(bt, b, s.ops, s.chans);
    if s.chans[o].id == 0 && s.pool.free != [] {
      hide BatchesOk, FreeCount, HeldCount;
      assert OpOk(s.ops[o], s.chans[o], s.pool.next);
      BatchTakes(bt, b, s.ops, s.chans, Taken(s.pool, s.chans[o], slots).value.1);
    }
  }

  lemma AllocateDoneKeeps(s: State, n: int, b: int)
    requires Inv(s, n) && Enabled(s, AllocateDone(b))
    ensures Inv(Next(s, AllocateDone(b)), n)
  {
    hide Conserved, WireOk, MarksDiffer, OpsOk;
    assert BatchOk(s.batches[b], b, s.ops, s.chans);
    OtherBatches(s, b, Sending(0), s.ops, s.chans);
  }

  /** Returning a channel of an operation that was never sent, or is now finished. */
  lemma ReleaseOps(s: State, n: int, o: int, op': Op)
    requires |s.ops| == |s.chans| && OpsOk(s.ops, s.chans, s.pool.next) && MarksDiffer(s.ops, s.chans)
    requires WireOk(s.wire, s.ops)
    requires Conserved(s.pool, s.chans, n) && ValidOp(s, o)
    requires op'.sent == s.ops[o].sent && !op'.awaiting && (op'.finished || op'.sent.None?)
    ensures var s' := Release(s, o);
      && OpsOk(s.ops[o := op'], s'.chans, s'.pool.next) && MarksDiffer(s.ops[o := op'], s'.chans)
      && WireOk(s.wire, s.ops[o := op']) && Conserved(s'.pool, s'.chans, n)
  {
    hide Conserved;
    if s.chans[o].id != 0 { ReturnConserves(s.pool, s.chans, n, o); }
    assert OpOk(s.ops[o], s.chans[o], s.pool.next);
  }

  lemma ReturnNextKeeps(s: State, n: int, b: int)
    requires Inv(s, n) && Enabled(s, ReturnNext(b))
    ensures Inv(Next(s, ReturnNext(b)), n)
  {
    hide Conserved, OpsOk, MarksDiffer, WireOk;
    var taken := s.batches[b].phase.taken;
    var o := taken[0];
    assert BatchOk(s.batches[b], b, s.ops, s.chans);
    assert s.ops[o].sent.None? && s.chans[o].id != 0 && s.ops[o].batch == Some(b);
    assert !s.ops[o].awaiting by { assert OpsOk(s.ops, s.chans, s.pool.next); OpAt(s, o); }
    ReleaseOps(s, n, o, s.ops[o]);
    assert s.ops[o := s.ops[o]] == s.ops;
    ReturnNextBatch(s.batches[b], b, s.ops, s.chans);
    OtherBatches(s, b, Failing(taken[1..]), s.ops, s.chans[o := NO_CHANNEL]);
  }

  lemma OpAt(s: State, o: int)
    requires OpsOk(s.ops, s.chans, s.pool.next) && 0 <= o < |s.ops|
    ensures OpOk(s.ops[o], s.chans[o], s.pool.next)
  {
  }

  lemma ReturnNextBatch(bt: Batch, b: int, ops: seq<Op>, chans: seq<Channel>)
    requires |ops| == |chans| && BatchOk(bt, b, ops, chans) && bt.phase.Failing? && bt.phase.taken != []
    ensures 0 <= bt.phase.taken[0] < |ops|
    ensures BatchOk(bt.(phase := Failing(bt.phase.taken[1..])), b, ops, chans[bt.phase.taken[0] := NO_CHANNEL])
  {
  }

  /** A batch that is over lets go of its operations. */
  lemma LeaveKeeps(s: State, n: int, b: int)
    requires Inv(s, n) && ValidBatch(s, b)
    requires forall k :: 0 <= k < |s.batches[b].ops| ==>
      ValidOp(s, s.batches[b].ops[k]) && !s.ops[s.batches[b].ops[k]].awaiting
    requires !s.batches[b].phase.Over?
    ensures Inv(s.(ops := SetBatch(s.ops, s.batches[b].ops, None), batches := WithPhase(s, b, Over)), n)
  {
    hide Conserved;
    var ops' := SetBatch(s.ops, s.batches[b].ops, None);
    assert BatchOk(s.batches[b], b, s.ops, s.chans);
    OtherBatches(s, b, Over, ops', s.chans);
  }

  lemma AbortKeeps(s: State, n: int, b: int)
    requires Inv(s, n) && Enabled(s, Abort(b))
    ensures Inv(Next(s, Abort(b)), n)
  {
    hide Conserved, OpsOk, MarksDiffer, WireOk, SetBatch;
    assert BatchOk(s.batches[b], b, s.ops, s.chans);
    LeaveKeeps(s, n, b);
  }

  lemma EndKeeps(s: State, n: int, b: int)
    requires Inv(s, n) && Enabled(s, End(b))
    ensures Inv(Next(s, End(b)), n)
  {
    hide Inv, SetBatch;
    LeaveKeeps(s, n, b);
  }

  lemma SendKeeps(s: State, n: int, b: int)
    requires Inv(s, n) && Enabled(s, Send(b))
    ensures Inv(Next(s, Send(b)), n)
  {
    hide Conserved, BatchesOk;
    var s' := Next(s, Send(b));
    var o := s.batches[b].ops[s.batches[b].phase.pos];
    SendBatch(s, b);
    OtherBatches(s, b, s'.batches[b].phase, s'.ops, s'.chans);
    OpAt(s, o);
    assert s'.ops[o].sent == Some(s.chans[o]);
    assert forall i :: 0 <= i < |s.ops| ==> Mark(s'.ops[i], s.chans[i]) == Mark(s.ops[i], s.chans[i]);
  }

  lemma SendBatch(s: State, b: int)
    requires |s.ops| == |s.chans| && BatchesOk(s.batches, s.ops, s.chans) && Enabled(s, Send(b))
    ensures var s', o := Next(s, Send(b)), s.batches[b].ops[s.batches[b].phase.pos];
      && BatchOk(s'.batches[b], b, s'.ops, s'.chans) && s.chans[o].id != 0 && Quiet(s.ops[o])
      && s.ops[o].batch == Some(b)
  {
    assert BatchOk(s.batches[b], b, s.ops, s.chans);
  }

  /** Batches when an operation gets a reply or finishes; only batches that are sending have operations with a reply
      outstanding. */
  lemma SettledBatches(s: State, o: int, op': Op, chans': seq<Channel>)
    requires |s.ops| == |s.chans| == |chans'| && BatchesOk(s.batches, s.ops, s.chans) && 0 <= o < |s.ops|
    requires (s.ops[o].awaiting && s.ops[o].sent.Some?) || s.ops[o].batch.None?
    requires op'.batch == s.ops[o].batch
    requires forall i :: 0 <= i < |s.ops| && i != o ==> chans'[i] == s.chans[i]
    ensures BatchesOk(s.batches, s.ops[o := op'], chans')
  {
    hide BatchOk;
    forall b | 0 <= b < |s.batches| ensures BatchOk(s.batches[b], b, s.ops[o := op'], chans') {
      if s.ops[o].batch == Some(b) {
        SettledBatch(s.batches[b], b, s.ops, s.chans, o, op', chans');
      } else {
        BatchFrame(s.batches[b], b, s.ops, s.chans, s.ops[o := op'], chans');
      }
    }
  }

  lemma SettledBatch(bt: Batch, b: int, ops: seq<Op>, chans: seq<Channel>, o: int, op': Op, chans': seq<Channel>)
    requires |ops| == |chans| == |chans'| && BatchOk(bt, b, ops, chans) && 0 <= o < |ops|
    requires ops[o].awaiting && ops[o].sent.Some? && op'.batch == ops[o].batch
    requires forall i :: 0 <= i < |ops| && i != o ==> chans'[i] == chans[i]
    ensures BatchOk(bt, b, ops[o := op'], chans')
  {
    assert !bt.phase.Over? ==>
      forall k :: 0 <= k < |bt.ops| && (bt.phase.Sending? ==> bt.phase.pos <= k) ==> bt.ops[k] != o;
  }

  lemma ReplyKeeps(s: State, n: int, o: int, ok: bool)
    requires Inv(s, n) && Enabled(s, Reply(o, ok))
    ensures Inv(Next(s, Reply(o, ok)), n)
  {
    hide Conserved, BatchesOk, MarksDiffer, WireOk, OpsOk;
    OpAt(s, o);
    if ok {
      var op' := s.ops[o].(awaiting := false, finished := true);
      ReleaseOps(s, n, o, op');
      SettledBatches(s, o, op', Release(s, o).chans);
    } else {
      var op' := s.ops[o].(awaiting := false);
      RefusedOps(s, o, op');
      SettledBatches(s, o, op', s.chans);
    }
  }

  lemma RefusedOps(s: State, o: int, op': Op)
    requires OpsOk(s.ops, s.chans, s.pool.next) && MarksDiffer(s.ops, s.chans) && WireOk(s.wire, s.ops) && ValidOp(s, o)
    requires op' == s.ops[o].(awaiting := false)
    ensures OpsOk(s.ops[o := op'], s.chans, s.pool.next) && MarksDiffer(s.ops[o := op'], s.chans)
    ensures WireOk(s.wire, s.ops[o := op'])
  {
  }

  lemma FinishKeeps(s: State, n: int, o: int)
    requires Inv(s, n) && Enabled(s, Finish(o))
    ensures Inv(Next(s, Finish(o)), n)
  {
    hide Conserved, BatchesOk, MarksDiffer, WireOk, OpsOk;
    OpAt(s, o);
    var op' := s.ops[o].(finished := true);
    ReleaseOps(s, n, o, op');
    SettledBatches(s, o, op', Release(s, o).chans);
  }

  lemma StepKeeps(s: State, n: int, step: Step)
    requires Inv(s, n) && Enabled(s, step)
    ensures Inv(Next(s, step), n)
  {
    hide Inv, Next, Enabled;
    match step
    case Begin(ops) => BeginKeeps(s, n, ops);
    case AllocateNext(b, slots) => AllocateNextKeeps(s, n, b, slots);
    case AllocateDone(b) => AllocateDoneKeeps(s, n, b);
    case ReturnNext(b) => ReturnNextKeeps(s, n, b);
    case Abort(b) => AbortKeeps(s, n, b);
    case Send(b) => SendKeeps(s, n, b);
    case Reply(o, ok) => ReplyKeeps(s, n, o, ok);
    case End(b) => EndKeeps(s, n, b);
    case Finish(o) => FinishKeeps(s, n, o);
  }

  lemma InitInv(numOps: nat, n: nat)
    ensures Inv(Init(numOps, n), n)
  {
    AllFree(Init(numOps, n).chans, n);
  }

  // ---------- whole runs ----------

  predicate Legal(s: State, steps: seq<Step>)
    decreases |steps|
  {
    steps == [] || (Enabled(s, steps[0]) && Legal(Next(s, steps[0]), steps[1..]))
  }

  function After(s: State, steps: seq<Step>): State
    requires Legal(s, steps)
    decreases |steps|
  {
    if steps == [] then s else After(Next(s, steps[0]), steps[1..])
  }

  lemma {:induction false} RunKeeps(s: State, n: int, steps: seq<Step>)
    requires Inv(s, n) && Legal(s, steps)
    ensures Inv(After(s, steps), n)
    decreases |steps|
  {
    hide Inv, Next, Enabled;
    if steps != [] {
      StepKeeps(s, n, steps[0]);
      RunKeeps(Next(s, steps[0]), n, steps[1..]);
    }
  }

  /** In every reachable state the channels are conserved: each is free or held by exactly one operation. */
  lemma ChannelsConserved(numOps: nat, n: nat, steps: seq<Step>)
    requires Legal(Init(numOps, n), steps)
    ensures var s := After(Init(numOps, n), steps);
      && Conserved(s.pool, s.chans, n)
      && forall i, j :: 0 <= i < |s.chans| && 0 <= j < |s.chans| && i != j && s.chans[i].id != 0 ==>
           s.chans[i].id != s.chans[j].id && s.chans[i].id !in s.pool.free
  {
    hide Conserved, Legal, After, BatchesOk, OpsOk, MarksDiffer, WireOk;
    InitInv(numOps, n);
    RunKeeps(Init(numOps, n), n, steps);
    var s := After(Init(numOps, n), steps);
    forall i, j | 0 <= i < |s.chans| && 0 <= j < |s.chans| && i != j && s.chans[i].id != 0
      ensures s.chans[i].id != s.chans[j].id && s.chans[i].id !in s.pool.free
    {
      NoSharing(s.pool, s.chans, n, i, j);
    }
  }

  /** When every operation is finished, every channel is free again. */
  lemma AllReturned(numOps: nat, n: nat, steps: seq<Step>)
    requires Legal(Init(numOps, n), steps)
    requires forall i :: 0 <= i < |After(Init(numOps, n), steps).ops| ==> After(Init(numOps, n), steps).ops[i].finished
    ensures forall x :: 1 <= x <= n ==> FreeCount(After(Init(numOps, n), steps).pool.free, x) == 1
  {
    hide Legal, After, BatchesOk, MarksDiffer, WireOk;
    InitInv(numOps, n);
    RunKeeps(Init(numOps, n), n, steps);
    var s := After(Init(numOps, n), steps);
    forall x | 1 <= x <= n ensures FreeCount(s.pool.free, x) == 1 {
      NoneHeld(s.chans, x);
    }
  }

  /** Every request of one operation carries the same channel and sequence number, and no two operations share a
      sequence number, however often they are retried. */
  lemma RetriesKeepTheTag(numOps: nat, n: nat, steps: seq<Step>, j: int, k: int)
    requires Legal(Init(numOps, n), steps)
    requires 0 <= j < |After(Init(numOps, n), steps).wire| && 0 <= k < |After(Init(numOps, n), steps).wire|
    ensures var wire := After(Init(numOps, n), steps).wire;
      && wire[j].channel.id != 0
      && (wire[j].op == wire[k].op <==> wire[j].channel.seqnum == wire[k].channel.seqnum)
      && (wire[j].op == wire[k].op ==> wire[j].channel == wire[k].channel)
  {
    hide Legal, After, BatchesOk, Conserved;
    InitInv(numOps, n);
    RunKeeps(Init(numOps, n), n, steps);
    var s := After(Init(numOps, n), steps);
    var p, q := s.wire[j].op, s.wire[k].op;
    OpAt(s, p);
    if p < q { assert Apart(Mark(s.ops[p], s.chans[p]), Mark(s.ops[q], s.chans[q])); }
    if q < p { assert Apart(Mark(s.ops[q], s.chans[q]), Mark(s.ops[p], s.chans[p])); }
  }

  lemma FinishedStep(s: State, n: int, step: Step, o: int)
    requires Inv(s, n) && Enabled(s, step) && 0 <= o < |s.ops| && s.ops[o].finished
    ensures var s' := Next(s, step);
      && |s'.ops| == |s.ops| && s'.ops[o].finished && s.wire <= s'.wire
      && forall k :: |s.wire| <= k < |s'.wire| ==> s'.wire[k].op != o
  {
    hide Conserved, MarksDiffer, WireOk;
    OpAt(s, o);
    if step.Send? { SendBatch(s, step.b); }
  }

  /** Nothing is sent for an operation once it is finished, by a successful reply or by giving up. */
  lemma {:induction false} FinishedIsSilent(s: State, n: int, steps: seq<Step>, o: int)
    requires Inv(s, n) && Legal(s, steps) && 0 <= o < |s.ops| && s.ops[o].finished
    ensures var t := After(s, steps);
      && |t.ops| == |s.ops| && t.ops[o].finished && s.wire <= t.wire
      && forall k :: |s.wire| <= k < |t.wire| ==> t.wire[k].op != o
    decreases |steps|
  {
    hide Inv, Next, Enabled;
    if steps != [] {
      FinishedStep(s, n, steps[0], o);
      StepKeeps(s, n, steps[0]);
      FinishedIsSilent(Next(s, steps[0]), n, steps[1..], o);
    }
  }

  /** In every run the request that was answered with success is the last one of its operation. */
  lemma SuccessIsLast(numOps: nat, n: nat, before: seq<Step>, o: int, after: seq<Step>)
    requires Legal(Init(numOps, n), before) && Enabled(After(Init(numOps, n), before), Reply(o, true))
    requires Legal(Next(After(Init(numOps, n), before), Reply(o, true)), after)
    ensures var s := After(Init(numOps, n), before);
      var t := After(Next(s, Reply(o, true)), after);
      |s.wire| <= |t.wire| && forall k :: |s.wire| <= k < |t.wire| ==> t.wire[k].op != o
  {
    hide Inv, Legal, After;
    InitInv(numOps, n);
    RunKeeps(Init(numOps, n), n, before);
    var s := After(Init(numOps, n), before);
    StepKeeps(s, n, Reply(o, true));
    FinishedIsSilent(Next(s, Reply(o, true)), n, after, o);
  }
}
