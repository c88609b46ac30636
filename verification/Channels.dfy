/** Update channels (src/client/storage/UpdateChannelAllocator.cc) and their allocation to a batch of operations
    (src/client/storage/StorageClientImpl.cc). */
module Channels {
  import opened Prelude

  const MAX_CHANNELS: int := 0xFFFF

  datatype Channel = Channel(id: int, seqnum: int)

  const NO_CHANNEL: Channel := Channel(0, 0)

  /** Free channel ids, the top of the stack last, and the next sequence number. */
  datatype Pool = Pool(free: seq<int>, next: int)

  /** The ids from `n` down to 1. */
  function Ids(n: int): (r: seq<int>)
    ensures |r| == (if n < 0 then 0 else n) && forall i :: 0 <= i < |r| ==> r[i] == n - i
  {
    seq(if n < 0 then 0 else n, i => n - i)
  }

  /** A channel from the pool, or a new sequence number for a channel already held. */
  function Taken(pool: Pool, c: Channel, slots: int): Option<(Pool, Channel)> {
    if c.id != 0 then Some((pool.(next := pool.next + slots), Channel(c.id, pool.next)))
    else if pool.free == [] then None
    else
      var n := |pool.free| - 1;
      Some((Pool(pool.free[..n], pool.next + slots), Channel(pool.free[n], pool.next)))
  }

  function Returned(pool: Pool, id: int): Pool { pool.(free := pool.free + [id]) }

  // ---------- who holds what ----------

  function One(b: bool): int { if b then 1 else 0 }

  /** How often an id is on the free stack. */
  function FreeCount(free: seq<int>, x: int): (n: int)
    ensures 0 <= n
  {
    if free == [] then 0 else FreeCount(free[..|free| - 1], x) + One(free[|free| - 1] == x)
  }

  /** How many operations hold an id. */
  function HeldCount(chans: seq<Channel>, x: int): (n: int)
    ensures 0 <= n
  {
    if chans == [] then 0 else HeldCount(chans[..|chans| - 1], x) + One(chans[|chans| - 1].id == x)
  }

  /** Every channel is either free or held, exactly once. */
  ghost predicate Conserved(pool: Pool, chans: seq<Channel>, n: int) {
    && (forall i :: 0 <= i < |pool.free| ==> pool.free[i] != 0)
    && (forall x :: x != 0 ==> FreeCount(pool.free, x) + HeldCount(chans, x) == One(1 <= x <= n))
  }

  lemma {:induction false} HeldUpdate(chans: seq<Channel>, i: int, c: Channel, x: int)
    requires 0 <= i < |chans|
    ensures HeldCount(chans[i := c], x) == HeldCount(chans, x) - One(chans[i].id == x) + One(c.id == x)
    decreases |chans|
  {
    var n := |chans| - 1;
    if i < n {
      HeldUpdate(chans[..n], i, c, x);
      assert chans[i := c][..n] == chans[..n][i := c];
    } else {
      assert chans[i := c][..n] == chans[..n];
    }
  }

  lemma {:induction false} HeldHas(chans: seq<Channel>, i: int)
    requires 0 <= i < |chans|
    ensures HeldCount(chans, chans[i].id) >= 1
    decreases |chans|
  {
    var n := |chans| - 1;
    if i < n { HeldHas(chans[..n], i); }
  }

  lemma {:induction false} HeldTwice(chans: seq<Channel>, i: int, j: int)
    requires 0 <= i < j < |chans| && chans[i].id == chans[j].id
    ensures HeldCount(chans, chans[i].id) >= 2
    decreases |chans|
  {
    var n := |chans| - 1;
    if j < n { HeldTwice(chans[..n], i, j); } else { HeldHas(chans[..n], i); }
  }

  lemma {:induction false} FreeHas(free: seq<int>, i: int)
    requires 0 <= i < |free|
    ensures FreeCount(free, free[i]) >= 1
    decreases |free|
  {
    var n := |free| - 1;
    if i < n { FreeHas(free[..n], i); }
  }

  /** No channel is held by two operations, and no held channel is free. */
  lemma NoSharing(pool: Pool, chans: seq<Channel>, n: int, i: int, j: int)
    requires Conserved(pool, chans, n) && 0 <= i < |chans| && 0 <= j < |chans| && i != j && chans[i].id != 0
    ensures chans[i].id != chans[j].id && chans[i].id !in pool.free && 1 <= chans[i].id <= n
  {
    HeldHas(chans, i);
    if chans[i].id == chans[j].id { HeldTwice(chans, if i < j then i else j, if i < j then j else i); }
    if k :| 0 <= k < |pool.free| && pool.free[k] == chans[i].id { FreeHas(pool.free, k); }
  }

  /** Taking a channel for an operation that has none. */
  lemma TakeConserves(pool: Pool, chans: seq<Channel>, n: int, i: int, slots: int)
    requires Conserved(pool, chans, n) && 0 <= i < |chans| && chans[i].id == 0 && pool.free != []
    ensures var (pool', c) := Taken(pool, chans[i], slots).value;
      c.id != 0 && Conserved(pool', chans[i := c], n)
  {
    var (pool', c) := Taken(pool, chans[i], slots).value;
    forall x | x != 0 ensures FreeCount(pool'.free, x) + HeldCount(chans[i := c], x) == One(1 <= x <= n) {
      HeldUpdate(chans, i, c, x);
      assert FreeCount(pool.free, x) == FreeCount(pool'.free, x) + One(c.id == x);
    }
  }

  /** Returning the channel of an operation. */
  lemma ReturnConserves(pool: Pool, chans: seq<Channel>, n: int, i: int)
    requires Conserved(pool, chans, n) && 0 <= i < |chans| && chans[i].id != 0
    ensures Conserved(Returned(pool, chans[i].id), chans[i := NO_CHANNEL], n)
  {
    var pool' := Returned(pool, chans[i].id);
    assert pool'.free[..|pool'.free| - 1] == pool.free;
    forall x | x != 0 ensures FreeCount(pool'.free, x) + HeldCount(chans[i := NO_CHANNEL], x) == One(1 <= x <= n) {
      HeldUpdate(chans, i, NO_CHANNEL, x);
    }
  }

  lemma {:induction false} NoneHeld(chans: seq<Channel>, x: int)
    requires x != 0 && forall i :: 0 <= i < |chans| ==> chans[i].id == 0
    ensures HeldCount(chans, x) == 0
    decreases |chans|
  {
    if chans != [] { NoneHeld(chans[..|chans| - 1], x); }
  }

  lemma {:induction false} IdsCount(n: int, m: int, x: int)
    requires 0 <= m <= n
    ensures FreeCount(Ids(n)[..m], x) == One(n - m < x <= n)
    decreases m
  {
    if m > 0 {
      IdsCount(n, m - 1, x);
      assert Ids(n)[..m][..m - 1] == Ids(n)[..m - 1];
    }
  }

  /** At the start every channel is free. */
  lemma AllFree(chans: seq<Channel>, n: int)
    requires 0 <= n && forall i :: 0 <= i < |chans| ==> chans[i].id == 0
    ensures Conserved(Pool(Ids(n), 1), chans, n)
  {
    forall x | x != 0 ensures FreeCount(Ids(n), x) + HeldCount(chans, x) == One(1 <= x <= n) {
      NoneHeld(chans, x);
      IdsCount(n, n, x);
      assert Ids(n)[..n] == Ids(n);
    }
  }

  /** How many operations of a batch have no channel. */
  function Missing(chans: seq<Channel>, batch: seq<int>): (n: int)
    requires forall k :: 0 <= k < |batch| ==> 0 <= batch[k] < |chans|
    ensures 0 <= n
  {
    if batch == [] then 0
    else Missing(chans, batch[..|batch| - 1]) + One(chans[batch[|batch| - 1]].id == 0)
  }

  lemma {:induction false} MissingGrows(chans: seq<Channel>, batch: seq<int>, k: int)
    requires forall k :: 0 <= k < |batch| ==> 0 <= batch[k] < |chans|
    requires 0 <= k < |batch|
    ensures Missing(chans, batch[..k]) + One(chans[batch[k]].id == 0)
         == Missing(chans, batch[..k + 1]) <= Missing(chans, batch)
    decreases |batch|
  {
    assert batch[..k + 1][..k] == batch[..k];
    var n := |batch| - 1;
    if k < n {
      MissingGrows(chans, batch[..n], k);
      assert batch[..n][..k + 1] == batch[..k + 1] && batch[..n][..k] == batch[..k];
    } else {
      assert batch[..k + 1] == batch;
    }
  }

  lemma NoneMissing(chans: seq<Channel>, batch: seq<int>)
    requires forall k :: 0 <= k < |batch| ==> 0 <= batch[k] < |chans|
    ensures Missing(chans, batch[..0]) == 0
  {
  }

  // ---------- the allocator ----------

  class UpdateChannelAllocator {
    const numChannels: int
    var pool: Pool

    constructor (n: nat)
      ensures numChannels == Min(MAX_CHANNELS, n) && pool == Pool(Ids(numChannels), 1)
    {
      numChannels := Min(MAX_CHANNELS, n);
      pool := Pool([], 1);
      new;
      var id := numChannels;
      while id > 0
        invariant 0 <= id <= numChannels
        invariant pool == Pool(Ids(numChannels)[..numChannels - id], 1)
      {
        pool := pool.(free := pool.free + [id]);
        id := id - 1;
      }
    }

    method Allocate(c: Channel, slots: int) returns (ok: bool, c': Channel)
      modifies this`pool
      ensures ok <==> Taken(old(pool), c, slots).Some?
      ensures if ok then Taken(old(pool), c, slots).value == (pool, c') else pool == old(pool) && c' == c
    {
      if c.id != 0 {
        c' := Channel(c.id, pool.next);
        pool := pool.(next := pool.next + slots);
        return true, c';
      }
      if pool.free == [] { return false, c; }
      c' := Channel(pool.free[|pool.free| - 1], pool.next);
      pool := Pool(pool.free[..|pool.free| - 1], pool.next + slots);
      ok := true;
    }

    method Release(c: Channel) returns (c': Channel)
      modifies this`pool
      ensures pool == (if c.id == 0 then old(pool) else Returned(old(pool), c.id))
      ensures c' == if c.id == 0 then c else NO_CHANNEL
    {
      if c.id == 0 { return c; }
      pool := pool.(free := pool.free + [c.id]);
      c' := NO_CHANNEL;
    }

    /** Channels for a batch, while other calls hold `others`: operations that have one keep it; when the pool runs
        dry, only those allocated by this call are returned. */
    method AllocateForOps(chans: array<Channel>, batch: seq<int>, slots: seq<int>, ghost others: seq<Channel>)
      returns (ok: bool)
      requires |slots| == chans.Length && Distinct(batch)
      requires (forall k :: 0 <= k < |batch| ==> 0 <= batch[k] < chans.Length)
      requires forall k :: 0 <= k < chans.Length ==> chans[k].id == 0 ==> chans[k] == NO_CHANNEL
      requires Conserved(pool, chans[..] + others, numChannels)
      modifies this`pool, chans
      ensures Conserved(pool, chans[..] + others, numChannels)
      ensures ok <==> Missing(old(chans[..]), batch) <= |old(pool).free|
      ensures ok ==> forall k :: 0 <= k < |batch| ==> chans[batch[k]].id != 0
      ensures forall i :: 0 <= i < chans.Length && old(chans[i]).id != 0 ==> chans[i] == old(chans[i])
      ensures !ok ==> chans[..] == old(chans[..])
      ensures forall i :: 0 <= i < chans.Length && i !in batch ==> chans[i] == old(chans[i])
    {
      hide Conserved, Missing;
      NoneMissing(chans[..], batch);
      var fresh_ := [];
      var k := 0;
      while k < |batch|
        invariant 0 <= k <= |batch| && Conserved(pool, chans[..] + others, numChannels)
        invariant forall j :: 0 <= j < k ==> chans[batch[j]].id != 0
        invariant Distinct(fresh_) && forall j :: 0 <= j < |fresh_| ==>
          && 0 <= fresh_[j] < chans.Length && fresh_[j] in batch
          && old(chans[fresh_[j]]).id == 0 && chans[fresh_[j]].id != 0
        invariant forall i :: 0 <= i < chans.Length && i !in fresh_ ==> chans[i] == old(chans[i])
        invariant |fresh_| == Missing(old(chans[..]), batch[..k]) && |pool.free| == |old(pool).free| - |fresh_|
        invariant forall j :: k <= j < |batch| ==> batch[j] !in fresh_
      {
        var i := batch[k];
        MissingGrows(old(chans[..]), batch, k);
        if chans[i].id == 0 {
          ghost var was := chans[..];
          ghost var before := pool;
          var got, c := Allocate(chans[i], slots[i]);
          if !got {
            ReleaseForOps(chans, fresh_, others);
            assert forall j :: 0 <= j < chans.Length ==> chans[j] == old(chans[j]);
            return false;
          }
          TakeConserves(before, was + others, numChannels, i, slots[i]);
          chans[i] := c;
          assert chans[..] + others == (was + others)[i := c];
          fresh_ := fresh_ + [i];
        }
        k := k + 1;
      }
      assert batch[..k] == batch;
      ok := true;
    }

    method ReleaseForOps(chans: array<Channel>, ops: seq<int>, ghost others: seq<Channel>)
      requires Distinct(ops) && forall k :: 0 <= k < |ops| ==> 0 <= ops[k] < chans.Length
      requires Conserved(pool, chans[..] + others, numChannels)
      modifies this`pool, chans
      ensures Conserved(pool, chans[..] + others, numChannels)
      ensures forall i :: 0 <= i < chans.Length ==>
        chans[i] == if i in ops && old(chans[i]).id != 0 then NO_CHANNEL else old(chans[i])
    {
      var k := 0;
      while k < |ops|
        invariant 0 <= k <= |ops| && Conserved(pool, chans[..] + others, numChannels)
        invariant forall i :: 0 <= i < chans.Length ==>
          chans[i] == if i in ops[..k] && old(chans[i]).id != 0 then NO_CHANNEL else old(chans[i])
      {
        var i := ops[k];
        if chans[i].id != 0 {
          ghost var was := chans[..];
          ReturnConserves(pool, was + others, numChannels, i);
          var c := Release(chans[i]);
          chans[i] := c;
          assert chans[..] + others == (was + others)[i := NO_CHANNEL];
        }
        k := k + 1;
      }
      assert ops[..k] == ops;
    }
  }

  predicate Distinct(s: seq<int>) { forall i, j :: 0 <= i < j < |s| ==> s[i] != s[j] }
}
