/** The retry loop over a set of writes, against any sequence of attempts and answers
    (src/client/storage/StorageClientImpl.cc, sendOpsWithRetry and batchWriteWithoutRetry). */
module RetryLoop {
  import opened Prelude
  import opened Channels

  const OK: int := 0
  const NOT_INITIALIZED: int := 7003
  const TIMEOUT: int := 7008
  const RESOURCE_BUSY: int := 7012
  const ROUTING_VERSION_MISMATCH: int := 7014

  /** Memory, argument, missing chunk, configuration, checksum, protocol, cancellation, read-only, space and bug. */
  predicate IsPermanentError(code: int) {
    code in {7001, 7002, 7007, 7009, 7015, 7017, 7018, 7019, 7021, 7999}
  }

  /** One batch of an attempt: its operations, whether the routing information is still current, the error when it does
      not name the node, and the answer to each request. */
  datatype BatchPlan = BatchPlan(ops: seq<int>, current: bool, unknownNode: Option<int>, replies: seq<int>)

  /** An operation for which no target can be selected, and why. */
  datatype OpError = OpError(op: int, code: int)

  /** One attempt: operations without a target, and the batches of the others. */
  datatype Attempt = Attempt(errors: seq<OpError>, plans: seq<BatchPlan>)

  /** The error of operation `i`, if it has one. */
  function ErrorOf(errors: seq<OpError>, i: int): Option<int> {
    if errors == [] then None
    else if errors[|errors| - 1].op == i then Some(errors[|errors| - 1].code)
    else ErrorOf(errors[..|errors| - 1], i)
  }

  /** How many requests of a batch are sent: up to the first that fails. */
  function SentCount(replies: seq<int>): (n: int)
    ensures 0 <= n <= |replies|
  {
    if replies == [] then 0 else if replies[0] != OK then 1 else 1 + SentCount(replies[1..])
  }

  /** A request on the wire, and its answer. */
  datatype Request = Request(op: int, channel: Channel, reply: int)

  /** The first `k` requests of a batch. */
  function Requests(plan: BatchPlan, chans: seq<Channel>, k: int): (r: seq<Request>)
    requires PlanOk(plan, |chans|) && 0 <= k <= |plan.ops|
    ensures |r| == k
  {
    seq(k, j requires 0 <= j < k => Request(plan.ops[j], chans[plan.ops[j]], plan.replies[j]))
  }

  /** Why nothing of a batch is sent, if so. */
  function Refused(plan: BatchPlan, enoughChannels: bool): int {
    if !plan.current then ROUTING_VERSION_MISMATCH
    else if !enoughChannels then RESOURCE_BUSY
    else if plan.unknownNode.Some? then plan.unknownNode.value
    else OK
  }

  predicate PlanOk(plan: BatchPlan, n: int) {
    && Distinct(plan.ops) && |plan.replies| == |plan.ops|
    && (plan.unknownNode.Some? ==> plan.unknownNode.value != OK)
    && forall k :: 0 <= k < |plan.ops| ==> 0 <= plan.ops[k] < n
  }

  class Run {
    const allocator: UpdateChannelAllocator
    const n: nat
    const chans: array<Channel>
    const status: array<int>
    /** The channels that other calls hold. */
    ghost const others: seq<Channel>
    var wire: seq<Request>

    constructor (allocator: UpdateChannelAllocator, n: nat, ghost others: seq<Channel>)
      requires Conserved(allocator.pool, seq(n, _ => NO_CHANNEL) + others, allocator.numChannels)
      ensures this.allocator == allocator && this.n == n && this.others == others && fresh(chans) && fresh(status)
      ensures chans.Length == status.Length == n
      ensures (forall i :: 0 <= i < n ==> chans[i] == NO_CHANNEL) && wire == []
      ensures Valid()
    {
      this.allocator, this.n, this.others, wire := allocator, n, others, [];
      chans := new Channel[n](_ => NO_CHANNEL);
      status := new int[n](_ => NOT_INITIALIZED);
      new;
      assert chans[..] == seq(n, _ => NO_CHANNEL);
    }

    /** Channels are conserved; an operation has succeeded exactly when a request of it was answered with success, and
        then holds no channel; all requests of an operation carried one channel, and none follows a success. */
    ghost predicate Valid()
      reads this, allocator, chans, status
    {
      && chans.Length == status.Length == n
      && Conserved(allocator.pool, chans[..] + others, allocator.numChannels)
      && (forall i :: 0 <= i < n && chans[i].id == 0 ==> chans[i] == NO_CHANNEL)
      && (forall i :: 0 <= i < n && status[i] == OK ==> chans[i] == NO_CHANNEL)
      && (forall i :: 0 <= i < n ==> (status[i] == OK <==> Succeeded(wire, i)))
      && (forall k :: 0 <= k < |wire| ==> 0 <= wire[k].op < n)
      && SameTags(wire) && SuccessLast(wire)
    }

    method Release(i: int)
      requires Valid() && 0 <= i < n
      modifies allocator`pool, chans
      ensures Valid() && chans[i] == NO_CHANNEL
      ensures forall j :: 0 <= j < n && j != i ==> chans[j] == old(chans[j])
    {
      hide SameTags, SuccessLast;
      ghost var was := chans[..];
      if chans[i].id != 0 { ReturnConserves(allocator.pool, was + others, allocator.numChannels, i); }
      var c := allocator.Release(chans[i]);
      chans[i] := c;
      assert chans[..] + others == (was + others)[i := NO_CHANNEL];
    }

    /** Operation `i` is pending: it has not succeeded, and holds the channel its requests carried, if any. */
    ghost predicate Pending(i: int)
      requires 0 <= i < n && chans.Length == status.Length == n
      reads this, chans, status
    {
      status[i] != OK && Kept(wire, i, chans[i])
    }

    method SetErrorCode(ops: seq<int>, code: int)
      requires Valid() && code != OK && forall k :: 0 <= k < |ops| ==> 0 <= ops[k] < n && status[ops[k]] != OK
      modifies status
      ensures Valid()
      ensures forall i :: 0 <= i < n ==> status[i] == if i in ops then code else old(status[i])
    {
      hide SameTags, SuccessLast, Conserved;
      var k := 0;
      while k < |ops|
        invariant 0 <= k <= |ops| && Valid()
        invariant forall i :: 0 <= i < n ==> status[i] == if i in ops[..k] then code else old(status[i])
      {
        status[ops[k]] := code;
        k := k + 1;
      }
      assert ops[..k] == ops;
    }

    /** Puts one request on the wire and takes its answer. */
    method Send(i: int, reply: int)
      requires Valid() && 0 <= i < n && Pending(i) && chans[i].id != 0
      modifies allocator`pool, chans, status, this`wire
      ensures wire == old(wire) + [Request(i, old(chans[i]), reply)] && Valid()
      ensures status[i] == reply && (reply != OK ==> Pending(i))
      ensures forall j :: 0 <= j < n && j != i ==> chans[j] == old(chans[j]) && status[j] == old(status[j])
      ensures forall j :: 0 <= j < n && j != i && old(Pending(j)) ==> Pending(j)
    {
      hide Conserved;
      ghost var request := Request(i, chans[i], reply);
      forall j | 0 <= j < n && j != i
        ensures Kept(wire + [request], j, chans[j]) <==> Kept(wire, j, chans[j])
        ensures Succeeded(wire + [request], j) <==> Succeeded(wire, j)
      {
        KeptByOthers(wire, request, j, chans[j]);
      }
      SucceedsNow(wire, request);
      var channel := chans[i];
      if reply == OK { Release(i); }
      wire := wire + [Request(i, channel, reply)];
      status[i] := reply;
    }

    /** One request after the other, up to the first failure. */
    method SendSequentially(plan: BatchPlan)
      requires Valid() && PlanOk(plan, n)
      requires forall k :: 0 <= k < |plan.ops| ==> Pending(plan.ops[k]) && chans[plan.ops[k]].id != 0
      modifies allocator`pool, chans, status, this`wire
      ensures Valid() && wire == old(wire) + Requests(plan, old(chans[..]), SentCount(plan.replies))
      ensures forall i :: 0 <= i < n && i !in plan.ops ==> chans[i] == old(chans[i]) && status[i] == old(status[i])
      ensures forall i :: 0 <= i < n && old(Pending(i)) ==> status[i] == OK || Pending(i)
    {
      hide Conserved, SameTags, SuccessLast, Valid, Kept;
      assert chans.Length == status.Length == n by { ValidLengths(); }
      var k := 0;
      assert plan.replies[0..] == plan.replies;
      while k < |plan.ops|
        invariant 0 <= k <= |plan.ops| && Valid() && SentCount(plan.replies) == k + SentCount(plan.replies[k..])
        invariant wire == old(wire) + Requests(plan, old(chans[..]), k)
        invariant forall i :: 0 <= i < n && i !in plan.ops[..k] ==>
          chans[i] == old(chans[i]) && status[i] == old(status[i])
        invariant forall i :: 0 <= i < n && i !in plan.ops[..k] && old(Pending(i)) ==> Pending(i)
        invariant forall j :: 0 <= j < k ==> status[plan.ops[j]] == OK
      {
        var i := plan.ops[k];
        assert i !in plan.ops[..k] && plan.ops[..k + 1] == plan.ops[..k] + [i];
        Send(i, plan.replies[k]);
        assert wire == old(wire) + Requests(plan, old(chans[..]), k + 1);
        if plan.replies[k] != OK {
          assert SentCount(plan.replies) == k + 1;
          return;
        }
        k := k + 1;
      }
    }

    lemma ValidLengths()
      requires Valid()
      ensures chans.Length == status.Length == n
    {
    }

    /** One batch: channels for all of its operations, then the requests. */
    method SendBatch(plan: BatchPlan)
      requires Valid() && PlanOk(plan, n) && forall k :: 0 <= k < |plan.ops| ==> Pending(plan.ops[k])
      modifies allocator`pool, chans, status, this`wire
      ensures Valid() && old(wire) <= wire
      ensures forall i :: 0 <= i < n && i !in plan.ops ==> chans[i] == old(chans[i]) && status[i] == old(status[i])
      ensures forall i :: 0 <= i < n && old(Pending(i)) ==> status[i] == OK || Pending(i)
      ensures var refused := Refused(plan, Missing(old(chans[..]), plan.ops) <= |old(allocator.pool).free|);
        if refused == OK then |wire| == |old(wire)| + SentCount(plan.replies)
        else wire == old(wire) && forall k :: 0 <= k < |plan.ops| ==> status[plan.ops[k]] == refused
    {
      hide Conserved, SameTags, SuccessLast;
      if !plan.current {
        SetErrorCode(plan.ops, ROUTING_VERSION_MISMATCH);
        return;
      }
      var ok := allocator.AllocateForOps(chans, plan.ops, seq(n, _ => 1), others);
      if !ok {
        SetErrorCode(plan.ops, RESOURCE_BUSY);
        return;
      }
      if plan.unknownNode.Some? {
        SetErrorCode(plan.ops, plan.unknownNode.value);
        return;
      }
      SendSequentially(plan);
    }

    /** The operations that are not finished, each once; all others have returned their channel. */
    ghost predicate Remaining(pending: seq<int>)
      reads this, chans, status
      requires chans.Length == status.Length == n
    {
      && Distinct(pending)
      && (forall k :: 0 <= k < |pending| ==> 0 <= pending[k] < n && Pending(pending[k]))
      && (forall i :: 0 <= i < n && i !in pending ==> chans[i] == NO_CHANNEL && status[i] != NOT_INITIALIZED)
    }

    /** Operations without a target are reported, and stay pending. */
    method SelectTargets(errors: seq<OpError>)
      requires Valid()
      requires forall k :: 0 <= k < |errors| ==>
        0 <= errors[k].op < n && errors[k].code != OK && status[errors[k].op] != OK
      modifies status
      ensures Valid()
      ensures forall i :: 0 <= i < n ==>
        status[i] == if ErrorOf(errors, i).Some? then ErrorOf(errors, i).value else old(status[i])
      ensures forall i :: 0 <= i < n && old(Pending(i)) ==> Pending(i)
    {
      hide Conserved, SameTags, SuccessLast, Kept;
      var k := 0;
      while k < |errors|
        invariant 0 <= k <= |errors| && Valid()
        invariant forall i :: 0 <= i < n ==>
          status[i] == if ErrorOf(errors[..k], i).Some? then ErrorOf(errors[..k], i).value else old(status[i])
        invariant forall i :: 0 <= i < n ==> (status[i] == OK <==> old(status[i]) == OK)
      {
        assert errors[..k + 1][..k] == errors[..k];
        SetErrorCode([errors[k].op], errors[k].code);
        k := k + 1;
      }
      assert errors[..k] == errors;
    }

    /** The errors name operations that are pending. */
    predicate ErrorsOk(errors: seq<OpError>, pending: seq<int>) {
      forall k :: 0 <= k < |errors| ==> errors[k].op in pending && errors[k].code != OK
    }

    /** One attempt: targets, then the batches. Errors or plans that name an operation which is no longer pending, and
        plans that name one without a target, are not what the client would form. */
    method SendOps(attempt: Attempt, pending: seq<int>)
      requires Valid() && Remaining(pending)
      modifies allocator`pool, chans, status, this`wire
      ensures Valid()
      ensures forall k :: 0 <= k < |pending| ==> status[pending[k]] == OK || Pending(pending[k])
      ensures forall i :: 0 <= i < n && i !in pending ==> chans[i] == NO_CHANNEL && status[i] != NOT_INITIALIZED
      ensures ErrorsOk(attempt.errors, pending) ==>
        forall i :: 0 <= i < n && ErrorOf(attempt.errors, i).Some? ==> status[i] == ErrorOf(attempt.errors, i).value
    {
      hide Conserved, SameTags, SuccessLast, Valid, ErrorOf;
      assert chans.Length == status.Length == n by { ValidLengths(); }
      var errors := if ErrorsOk(attempt.errors, pending) then attempt.errors else [];
      ErrorsArePending(errors, pending);
      SelectTargets(errors);
      var t := 0;
      while t < |attempt.plans|
        invariant 0 <= t <= |attempt.plans| && Valid()
        invariant forall k :: 0 <= k < |pending| ==> status[pending[k]] == OK || Pending(pending[k])
        invariant forall i :: 0 <= i < n && i !in pending ==> chans[i] == NO_CHANNEL && status[i] != NOT_INITIALIZED
        invariant forall i :: 0 <= i < n && ErrorOf(errors, i).Some? ==> status[i] == ErrorOf(errors, i).value
      {
        var plan := attempt.plans[t];
        if PlanOk(plan, n) && forall k :: 0 <= k < |plan.ops| ==>
             plan.ops[k] in pending && status[plan.ops[k]] != OK && ErrorOf(errors, plan.ops[k]).None? {
          SendBatch(plan);
        }
        t := t + 1;
      }
    }

    lemma ErrorsArePending(errors: seq<OpError>, pending: seq<int>)
      requires chans.Length == status.Length == n && Remaining(pending) && ErrorsOk(errors, pending)
      ensures forall k :: 0 <= k < |errors| ==>
        0 <= errors[k].op < n && errors[k].code != OK && status[errors[k].op] != OK
      ensures forall i :: i !in pending ==> ErrorOf(errors, i).None?
    {
      forall i | i !in pending ensures ErrorOf(errors, i).None? { NoErrorOf(errors, i); }
    }

    /** One operation after an attempt: a permanent error is final unless it is retried, everything else but success is
        retried. */
    method SettleOne(i: int, retryPermanent: bool) returns (again: bool)
      requires Valid() && 0 <= i < n && (status[i] == OK || Pending(i))
      modifies allocator`pool, chans
      ensures Valid() && Settled(i, retryPermanent) && again == Retriable(status[i], retryPermanent)
      ensures forall j :: 0 <= j < n && j != i ==> chans[j] == old(chans[j])
      ensures forall j :: 0 <= j < n && j != i && old(Pending(j)) ==> Pending(j)
      ensures forall j :: 0 <= j < n && j != i && old(Settled(j, retryPermanent)) ==> Settled(j, retryPermanent)
    {
      hide Conserved, SameTags, SuccessLast, IsPermanentError, Kept;
      again := false;
      if !retryPermanent && IsPermanentError(status[i]) {
        PermanentCode(status[i]);
        Release(i);
      } else if status[i] != OK {
        again := true;
      }
    }

    method SettleEach(pending: seq<int>, retryPermanent: bool) returns (remaining: seq<int>)
      requires Valid() && Distinct(pending) && (forall k :: 0 <= k < |pending| ==> 0 <= pending[k] < n)
      requires forall k :: 0 <= k < |pending| ==> status[pending[k]] == OK || Pending(pending[k])
      modifies allocator`pool, chans
      ensures Valid() && remaining == Retried(pending, status[..], retryPermanent)
      ensures forall k :: 0 <= k < |pending| ==> Settled(pending[k], retryPermanent)
      ensures forall i :: 0 <= i < n && i !in pending ==> chans[i] == old(chans[i])
    {
      assert chans.Length == status.Length == n;
      hide Conserved, SameTags, SuccessLast, Valid, Retriable, Kept, Pending, Settled;
      remaining := [];
      var k := 0;
      while k < |pending|
        invariant 0 <= k <= |pending| && Valid() && remaining == Retried(pending[..k], status[..], retryPermanent)
        invariant forall j :: 0 <= j < |pending| ==>
          if j < k then Settled(pending[j], retryPermanent) else status[pending[j]] == OK || Pending(pending[j])
        invariant forall i :: 0 <= i < n && i !in pending ==> chans[i] == old(chans[i])
      {
        assert pending[..k + 1][..k] == pending[..k];
        var again := SettleOne(pending[k], retryPermanent);
        if again { remaining := remaining + [pending[k]]; }
        k := k + 1;
      }
      assert pending[..k] == pending;
    }

    /** The operations to try again; all others have returned their channel. */
    method Settle(pending: seq<int>, retryPermanent: bool) returns (remaining: seq<int>)
      requires Valid() && Distinct(pending) && (forall k :: 0 <= k < |pending| ==> 0 <= pending[k] < n)
      requires forall k :: 0 <= k < |pending| ==> status[pending[k]] == OK || Pending(pending[k])
      requires forall i :: 0 <= i < n && i !in pending ==> chans[i] == NO_CHANNEL && status[i] != NOT_INITIALIZED
      modifies allocator`pool, chans
      ensures Valid() && Remaining(remaining)
      ensures remaining == Retried(pending, status[..], retryPermanent)
    {
      hide Conserved, SameTags, SuccessLast, Kept;
      remaining := SettleEach(pending, retryPermanent);
      SettledRemaining(pending, retryPermanent);
    }

    ghost predicate Settled(i: int, retryPermanent: bool)
      requires 0 <= i < n && chans.Length == status.Length == n
      reads this, chans, status
    {
      if Retriable(status[i], retryPermanent) then Pending(i)
      else chans[i] == NO_CHANNEL && status[i] != NOT_INITIALIZED
    }

    lemma SettledRemaining(pending: seq<int>, retryPermanent: bool)
      requires chans.Length == status.Length == n && Distinct(pending)
      requires forall k :: 0 <= k < |pending| ==> 0 <= pending[k] < n && Settled(pending[k], retryPermanent)
      requires forall i :: 0 <= i < n && i !in pending ==> chans[i] == NO_CHANNEL && status[i] != NOT_INITIALIZED
      ensures Remaining(Retried(pending, status[..], retryPermanent))
    {
      hide Retriable, Kept;
      RetriedFacts(pending, status[..], retryPermanent);
      forall i | 0 <= i < n && i in pending ensures Settled(i, retryPermanent) {
        var k :| 0 <= k < |pending| && pending[k] == i;
      }
      var r := Retried(pending, status[..], retryPermanent);
      forall k | 0 <= k < |r| ensures 0 <= r[k] < n && Pending(r[k]) {
        assert r[k] in r;
      }
    }

    method GiveUpOne(i: int)
      requires Valid() && 0 <= i < n
      modifies allocator`pool, chans, status
      ensures Valid() && chans[i] == NO_CHANNEL && status[i] == TimedOut(old(status[i]))
      ensures forall j :: 0 <= j < n && j != i ==> chans[j] == old(chans[j]) && status[j] == old(status[j])
    {
      hide Conserved, SameTags, SuccessLast;
      Release(i);
      if status[i] == NOT_INITIALIZED { status[i] := TIMEOUT; }
    }

    /** Retrying is given up: everything still pending returns its channel, and what was never tried has timed out. */
    method GiveUp(pending: seq<int>)
      requires Valid() && Remaining(pending)
      modifies allocator`pool, chans, status
      ensures Valid() && forall i :: 0 <= i < n ==> chans[i] == NO_CHANNEL && status[i] == TimedOut(old(status[i]))
    {
      assert chans.Length == status.Length == n;
      hide Conserved, SameTags, SuccessLast, Valid;
      var k := 0;
      while k < |pending|
        invariant 0 <= k <= |pending| && Valid()
        invariant forall j :: 0 <= j < k ==>
          chans[pending[j]] == NO_CHANNEL && status[pending[j]] == TimedOut(old(status[pending[j]]))
        invariant forall j :: k <= j < |pending| ==> status[pending[j]] == old(status[pending[j]])
        invariant forall i :: 0 <= i < n && i !in pending ==>
          chans[i] == NO_CHANNEL && status[i] == old(status[i]) != NOT_INITIALIZED
      {
        GiveUpOne(pending[k]);
        k := k + 1;
      }
      forall i | 0 <= i < n ensures chans[i] == NO_CHANNEL && status[i] == TimedOut(old(status[i])) {
        if i in pending { var j :| 0 <= j < |pending| && pending[j] == i; }
      }
    }

    /** The retry loop: on exit every operation has returned its channel and has an outcome, whatever happened to its
        requests; every request of an operation carried the same channel and sequence number (`Valid`). */
    method SendOpsWithRetry(attempts: seq<Attempt>, retryPermanent: bool)
      requires Valid() && wire == [] && forall i :: 0 <= i < n ==> chans[i] == NO_CHANNEL
      modifies allocator`pool, chans, status, this`wire
      ensures Valid() && forall i :: 0 <= i < n ==> chans[i] == NO_CHANNEL && status[i] != NOT_INITIALIZED
    {
      hide Conserved, SameTags, SuccessLast;
      var pending := seq(n, i => i);
      forall i | 0 <= i < n ensures pending[i] == i && i in pending { assert pending[i] in pending; }
      SetErrorCode(pending, NOT_INITIALIZED);
      var t := 0;
      while true
        invariant 0 <= t <= |attempts| && Valid() && Remaining(pending)
        decreases |attempts| - t
      {
        if t == |attempts| {
          GiveUp(pending);
          return;
        }
        SendOps(attempts[t], pending);
        pending := Settle(pending, retryPermanent);
        if pending == [] { return; }
        t := t + 1;
      }
    }
  }

  /** What is reported for an operation that was never tried. */
  function TimedOut(code: int): (r: int)
    ensures r != NOT_INITIALIZED
  {
    if code == NOT_INITIALIZED then TIMEOUT else code
  }

  /** An outcome after which an operation is tried again. */
  predicate Retriable(code: int, retryPermanent: bool) { code != OK && (retryPermanent || !IsPermanentError(code)) }

  /** The pending operations that are tried again. */
  function Retried(pending: seq<int>, status: seq<int>, retryPermanent: bool): seq<int>
    requires forall k :: 0 <= k < |pending| ==> 0 <= pending[k] < |status|
  {
    if pending == [] then []
    else
      var i := pending[|pending| - 1];
      Retried(pending[..|pending| - 1], status, retryPermanent)
      + if Retriable(status[i], retryPermanent) then [i] else []
  }

  lemma {:induction false} RetriedFacts(pending: seq<int>, status: seq<int>, retryPermanent: bool)
    requires Distinct(pending) && forall k :: 0 <= k < |pending| ==> 0 <= pending[k] < |status|
    ensures var r := Retried(pending, status, retryPermanent);
      && Distinct(r)
      && (forall i :: i in r <==> i in pending && Retriable(status[i], retryPermanent))
    decreases |pending|
  {
    hide Retriable;
    if pending != [] {
      var n := |pending| - 1;
      RetriedFacts(pending[..n], status, retryPermanent);
      assert pending == pending[..n] + [pending[n]];
      assert pending[n] !in pending[..n];
    }
  }

  lemma {:induction false} NoErrorOf(errors: seq<OpError>, i: int)
    requires forall k :: 0 <= k < |errors| ==> errors[k].op != i
    ensures ErrorOf(errors, i).None?
    decreases |errors|
  {
    if errors != [] { NoErrorOf(errors[..|errors| - 1], i); }
  }

  lemma PermanentCode(code: int)
    requires IsPermanentError(code)
    ensures code != OK && code != NOT_INITIALIZED
  {
  }

  /** The requests of operation `i` carried channel `c`. */
  ghost predicate Kept(wire: seq<Request>, i: int, c: Channel) {
    forall k :: 0 <= k < |wire| && wire[k].op == i ==> wire[k].channel == c && c.id != 0
  }

  /** A request of operation `i` was answered with success. */
  ghost predicate Succeeded(wire: seq<Request>, i: int) {
    exists k :: 0 <= k < |wire| && wire[k].op == i && wire[k].reply == OK
  }

  lemma KeptByOthers(wire: seq<Request>, r: Request, j: int, d: Channel)
    requires r.op != j
    ensures Kept(wire + [r], j, d) <==> Kept(wire, j, d)
    ensures Succeeded(wire + [r], j) <==> Succeeded(wire, j)
  {
    var more := wire + [r];
    assert forall k :: 0 <= k < |wire| ==> more[k] == wire[k];
  }

  lemma SucceedsNow(wire: seq<Request>, r: Request)
    ensures Succeeded(wire + [r], r.op) <==> Succeeded(wire, r.op) || r.reply == OK
  {
    var more := wire + [r];
    assert more[|wire|] == r && forall k :: 0 <= k < |wire| ==> more[k] == wire[k];
  }

  /** A request answered with success is the last one of its operation. */
  ghost predicate SuccessLast(wire: seq<Request>) {
    forall j, k :: 0 <= j < k < |wire| && wire[j].op == wire[k].op ==> wire[j].reply != OK
  }

  /** Requests of one operation carry one channel. */
  ghost predicate SameTags(wire: seq<Request>) {
    forall j, k :: 0 <= j < |wire| && 0 <= k < |wire| && wire[j].op == wire[k].op ==> wire[j].channel == wire[k].channel
  }
}
