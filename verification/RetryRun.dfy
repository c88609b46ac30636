/** Retried writes and truncates sharing the update channels: every interleaving of batches, replies and give-ups
    (src/client/storage/StorageClientImpl.cc). */
module RetryRun {
  import opened Prelude
  import opened Channels

  /** An operation: the batch it is in, the channel it was first sent with, and whether a reply is outstanding.
      `sent` is history only. */
  datatype Op = Op(batch: Option<int>, awaiting: bool, finished: bool, sent: Option<Channel>)

  /** Where the coroutine of a batch is: allocating channels (those taken by this call so far), returning them after the
      pool ran dry, sending, or over. */
  datatype Phase = Allocating(pos: int, taken: seq<int>) | Failing(taken: seq<int>) | Sending(pos: int) | Over

  datatype Batch = Batch(ops: seq<int>, phase: Phase)

  /** A request on the wire. */
  datatype Tag = Tag(op: int, channel: Channel)

  datatype State = State(pool: Pool, chans: seq<Channel>, ops: seq<Op>, batches: seq<Batch>, wire: seq<Tag>)

  datatype Step =
    | Begin(ops: seq<int>)          // a batch is formed from operations that are pending
    | AllocateNext(b: int, slots: int)
    | AllocateDone(b: int)
    | ReturnNext(b: int)            // the pool ran dry: give back what this call took
    | Abort(b: int)
    | Send(b: int)
    | Reply(op: int, ok: bool)
    | End(b: int)                   // all sent, or stopped at a failure, or the node is unknown
    | Finish(op: int)               // a permanent error, or retrying is given up

  function Init(numOps: nat, numChannels: nat): State {
    State(Pool(Ids(numChannels), 1), seq(numOps, _ => NO_CHANNEL), seq(numOps, _ => Op(None, false, false, None)), [],
          [])
  }

  predicate ValidOp(s: State, o: int) { 0 <= o < |s.ops| && |s.ops| == |s.chans| }

  predicate ValidBatch(s: State, b: int) { 0 <= b < |s.batches| }

  predicate Idle(o: Op) { o.batch.None? && !o.finished }

  predicate Enabled(s: State, step: Step) {
    match step
    case Begin(ops) => Distinct(ops) && forall k :: 0 <= k < |ops| ==> ValidOp(s, ops[k]) && Idle(s.ops[ops[k]])
    case AllocateNext(b, slots) =>
      && 0 < slots && ValidBatch(s, b) && s.batches[b].phase.Allocating?
      && 0 <= s.batches[b].phase.pos < |s.batches[b].ops| && ValidOp(s, s.batches[b].ops[s.batches[b].phase.pos])
    case AllocateDone(b) =>
      ValidBatch(s, b) && s.batches[b].phase.Allocating? && s.batches[b].phase.pos == |s.batches[b].ops|
    case ReturnNext(b) =>
      && ValidBatch(s, b) && s.batches[b].phase.Failing? && s.batches[b].phase.taken != []
      && ValidOp(s, s.batches[b].phase.taken[0])
    case Abort(b) => ValidBatch(s, b) && s.batches[b].phase == Failing([])
    case Send(b) =>
      && ValidBatch(s, b) && s.batches[b].phase.Sending?
      && 0 <= s.batches[b].phase.pos < |s.batches[b].ops| && ValidOp(s, s.batches[b].ops[s.batches[b].phase.pos])
    case Reply(o, _) => ValidOp(s, o) && s.ops[o].awaiting
    case End(b) =>
      ValidBatch(s, b) && s.batches[b].phase.Sending? && forall k :: 0 <= k < |s.batches[b].ops| ==>
        ValidOp(s, s.batches[b].ops[k]) && !s.ops[s.batches[b].ops[k]].awaiting
    case Finish(o) => ValidOp(s, o) && Idle(s.ops[o])
  }

  function SetBatch(ops: seq<Op>, which: seq<int>, batch: Option<int>): (r: seq<Op>)
    ensures |r| == |ops|
    ensures forall i :: 0 <= i < |ops| ==> r[i] == if i in which then ops[i].(batch := batch) else ops[i]
  {
    seq(|ops|, i requires 0 <= i < |ops| => if i in which then ops[i].(batch := batch) else ops[i])
  }

  function WithPhase(s: State, b: int, phase: Phase): seq<Batch>
    requires ValidBatch(s, b)
  {
    s.batches[b := s.batches[b].(phase := phase)]
  }

  /** `releaseChannelsForOp`: nothing happens without a channel. */
  function Release(s: State, o: int): State
    requires ValidOp(s, o)
  {
    if s.chans[o].id == 0 then s
    else s.(pool := Returned(s.pool, s.chans[o].id), chans := s.chans[o := NO_CHANNEL])
  }

  function Next(s: State, step: Step): State
    requires Enabled(s, step)
  {
    match step
    case Begin(ops) =>
      s.(ops := SetBatch(s.ops, ops, Some(|s.batches|)), batches := s.batches + [Batch(ops, Allocating(0, []))])
    case AllocateNext(b, slots) =>
      var phase := s.batches[b].phase;
      var o := s.batches[b].ops[phase.pos];
      if s.chans[o].id != 0 then s.(batches := WithPhase(s, b, Allocating(phase.pos + 1, phase.taken)))
      else
        var got := Taken(s.pool, s.chans[o], slots);
        if got.None? then s.(batches := WithPhase(s, b, Failing(phase.taken)))
        else
          s.(pool := got.value.0, chans := s.chans[o := got.value.1],
             batches := WithPhase(s, b, Allocating(phase.pos + 1, phase.taken + [o])))
    case AllocateDone(b) => s.(batches := WithPhase(s, b, Sending(0)))
    case ReturnNext(b) =>
      var taken := s.batches[b].phase.taken;
      Release(s, taken[0]).(batches := WithPhase(s, b, Failing(taken[1..])))
    case Abort(b) => s.(ops := SetBatch(s.ops, s.batches[b].ops, None), batches := WithPhase(s, b, Over))
    case Send(b) =>
      var pos := s.batches[b].phase.pos;
      var o := s.batches[b].ops[pos];
      s.(ops := s.ops[o := s.ops[o].(awaiting := true,
                                      sent := if s.ops[o].sent.Some? then s.ops[o].sent else Some(s.chans[o]))],
         wire := s.wire + [Tag(o, s.chans[o])], batches := WithPhase(s, b, Sending(pos + 1)))
    case Reply(o, ok) =>
      if ok then Release(s, o).(ops := s.ops[o := s.ops[o].(awaiting := false, finished := true)])
      else s.(ops := s.ops[o := s.ops[o].(awaiting := false)])
    case End(b) => s.(ops := SetBatch(s.ops, s.batches[b].ops, None), batches := WithPhase(s, b, Over))
    case Finish(o) => Release(s, o).(ops := s.ops[o := s.ops[o].(finished := true)])
  }

  // ---------- the invariant ----------

  /** One operation: a finished one holds nothing; one that was sent and is not finished still holds the channel it was
      first sent with. */
  predicate OpOk(o: Op, c: Channel, next: int) {
    && (c.id == 0 ==> c == NO_CHANNEL)
    && (c.id != 0 ==> c.seqnum < next && !o.finished)
    && (o.sent.Some? ==> o.sent.value.id != 0 && o.sent.value.seqnum < next && (!o.finished ==> c == o.sent.value))
    && (o.awaiting ==> o.sent.Some? && !o.finished && o.batch.Some?)
  }

  ghost predicate OpsOk(ops: seq<Op>, chans: seq<Channel>, next: int) {
    |ops| == |chans| && forall i :: 0 <= i < |ops| ==> OpOk(ops[i], chans[i], next)
  }

  /** The sequence number an operation used or is about to use. */
  function Mark(o: Op, c: Channel): Option<int> {
    if o.sent.Some? then Some(o.sent.value.seqnum) else if c.id != 0 then Some(c.seqnum) else None
  }

  ghost predicate MarksDiffer(ops: seq<Op>, chans: seq<Channel>)
    requires |ops| == |chans|
  {
    forall i, j :: 0 <= i < j < |ops| ==> Apart(Mark(ops[i], chans[i]), Mark(ops[j], chans[j]))
  }

  predicate Apart(a: Option<int>, b: Option<int>) { a.None? || b.None? || a != b }

  ghost predicate WireOk(wire: seq<Tag>, ops: seq<Op>) {
    forall k :: 0 <= k < |wire| ==> 0 <= wire[k].op < |ops| && ops[wire[k].op].sent == Some(wire[k].channel)
  }

  /** One batch that is not over: its operations know it, and hold what its phase says. */
  ghost predicate BatchOk(bt: Batch, b: int, ops: seq<Op>, chans: seq<Channel>)
    requires |ops| == |chans|
  {
    bt.phase.Over? ||
    (&& Distinct(bt.ops)
     && (forall k :: 0 <= k < |bt.ops| ==> 0 <= bt.ops[k] < |ops| && ops[bt.ops[k]].batch == Some(b))
     && match bt.phase
        case Allocating(pos, taken) =>
          && 0 <= pos <= |bt.ops|
          && (forall k :: 0 <= k < |bt.ops| ==> Quiet(ops[bt.ops[k]]))
          && (forall k :: 0 <= k < pos ==> chans[bt.ops[k]].id != 0)
          && (forall k :: pos <= k < |bt.ops| ==> bt.ops[k] !in taken)
          && TakenOk(taken, b, ops, chans)
        case Failing(taken) =>
          && (forall k :: 0 <= k < |bt.ops| ==> Quiet(ops[bt.ops[k]]))
          && TakenOk(taken, b, ops, chans)
        case Sending(pos) =>
          && 0 <= pos <= |bt.ops|
          && (forall k :: pos <= k < |bt.ops| ==> Quiet(ops[bt.ops[k]]) && chans[bt.ops[k]].id != 0)
        case Over => true)
  }

  predicate Quiet(o: Op) { !o.awaiting && !o.finished }

  /** Channels taken by an allocation that may still fail belong to operations that were never sent. */
  ghost predicate TakenOk(taken: seq<int>, b: int, ops: seq<Op>, chans: seq<Channel>)
    requires |ops| == |chans|
  {
    && Distinct(taken)
    && forall k :: 0 <= k < |taken| ==>
         0 <= taken[k] < |ops| && chans[taken[k]].id != 0 && ops[taken[k]].sent.None? && ops[taken[k]].batch == Some(b)
  }

  ghost predicate BatchesOk(batches: seq<Batch>, ops: seq<Op>, chans: seq<Channel>)
    requires |ops| == |chans|
  {
    && (forall b :: 0 <= b < |batches| ==> BatchOk(batches[b], b, ops, chans))
    && (forall i :: 0 <= i < |ops| && ops[i].batch.Some? ==> 0 <= ops[i].batch.value < |batches|)
  }

  ghost predicate Inv(s: State, n: int) {
    && |s.ops| == |s.chans| && OpsOk(s.ops, s.chans, s.pool.next)
    && MarksDiffer(s.ops, s.chans)
    && WireOk(s.wire, s.ops)
    && BatchesOk(s.batches, s.ops, s.chans)
    && Conserved(s.pool, s.chans, n)
  }
}
