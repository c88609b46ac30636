/** Paged queries and removals of the chunks of a chain (src/client/storage/StorageClientInMem.cc). */
module Paging {
  import opened Prelude

  const UINT32_MAX: int := 0xFFFF_FFFF
  const PAGE: int := 3

  datatype Chunk = Chunk(id: int, len: int)

  /** The chunks of a chain, by increasing id. */
  predicate Sorted(chunks: seq<Chunk>) { forall i, j :: 0 <= i < j < |chunks| ==> chunks[i].id < chunks[j].id }

  /** How many chunks have a smaller id. */
  function Below(chunks: seq<Chunk>, x: int): (n: int)
    requires Sorted(chunks)
    ensures 0 <= n <= |chunks|
    ensures forall i :: 0 <= i < n ==> chunks[i].id < x
    ensures forall i :: n <= i < |chunks| ==> x <= chunks[i].id
  {
    if chunks == [] then 0
    else if chunks[|chunks| - 1].id < x then |chunks|
    else Below(chunks[..|chunks| - 1], x)
  }

  /** The chunks with ids from `begin` up to `end` are those from index `Lo` up to `Hi`. */
  function Lo(chunks: seq<Chunk>, begin: int): (lo: int)
    requires Sorted(chunks)
    ensures 0 <= lo <= |chunks|
  {
    Below(chunks, begin)
  }

  function Hi(chunks: seq<Chunk>, begin: int, end: int): (hi: int)
    requires Sorted(chunks)
    ensures Lo(chunks, begin) <= hi <= |chunks|
  {
    Max(Below(chunks, begin), Below(chunks, end))
  }

  /** The last `n` chunks, the largest id first. */
  function Descending(chunks: seq<Chunk>, n: int): (r: seq<Chunk>)
    ensures |r| == Max(0, Min(n, |chunks|))
    ensures forall i :: 0 <= i < |r| ==> r[i] == chunks[|chunks| - 1 - i]
    decreases |chunks|
  {
    if n <= 0 || chunks == [] then []
    else [chunks[|chunks| - 1]] + Descending(chunks[..|chunks| - 1], n - 1)
  }

  lemma BelowUnique(chunks: seq<Chunk>, x: int, n: int)
    requires Sorted(chunks) && 0 <= n <= |chunks|
    requires n > 0 ==> chunks[n - 1].id < x
    requires n < |chunks| ==> x <= chunks[n].id
    ensures Below(chunks, x) == n
  {
  }

  /** How many chunks are processed at most: zero means all, and there is room for one more. */
  function Wanted(maxNum: int): (n: int)
    requires 0 <= maxNum <= UINT32_MAX
    ensures 0 < n < UINT32_MAX
  {
    if maxNum != 0 then Min(maxNum, UINT32_MAX - 1) else UINT32_MAX - 1
  }

  /** The chunks of the range after its `n` largest were removed. */
  function Without(chunks: seq<Chunk>, hi: int, n: int): seq<Chunk>
    requires 0 <= n <= hi <= |chunks|
  {
    chunks[..hi - n] + chunks[hi..]
  }

  /** The chunks once the `n` largest of the range were processed. */
  function After(was: seq<Chunk>, hi: int, n: int, remove: bool): (r: seq<Chunk>)
    requires 0 <= n <= hi <= |was|
    ensures n == 0 ==> r == was
  {
    if remove then Without(was, hi, n) else was
  }

  lemma AfterSorted(was: seq<Chunk>, hi: int, n: int, remove: bool)
    requires Sorted(was) && 0 <= n <= hi <= |was|
    ensures Sorted(After(was, hi, n, remove))
  {
  }

  lemma AfterNext(was: seq<Chunk>, hi: int, n: int, remove: bool)
    requires Sorted(was) && 0 <= n < hi <= |was|
    ensures Sorted(After(was, hi, n + 1, remove))
    ensures remove ==>
      var now := After(was, hi, n, remove); After(was, hi, n + 1, remove) == now[..hi - n - 1] + now[hi - n..]
  {
  }

  /** A page of what is left of the range. */
  lemma PageOf(was: seq<Chunk>, lo: int, hi: int, num: int, remove: bool, max: int)
    requires 0 <= lo && 0 <= num <= hi - lo && hi <= |was| && 0 <= max
    ensures hi - num <= |After(was, hi, num, remove)|
    ensures var page := Descending(After(was, hi, num, remove)[lo..hi - num], max);
      |page| == Min(max, hi - lo - num) && forall i :: 0 <= i < |page| ==> page[i] == was[hi - num - 1 - i]
  {
    var now := After(was, hi, num, remove);
    assert now[lo..hi - num] == was[lo..hi - num];
  }

  lemma DescendingAppend(was: seq<Chunk>, lo: int, hi: int, num: int, got: seq<Chunk>)
    requires 0 <= lo && 0 <= num && num + |got| <= hi - lo && hi <= |was|
    requires forall i :: 0 <= i < |got| ==> got[i] == was[hi - num - 1 - i]
    ensures Descending(was[lo..hi], num) + got == Descending(was[lo..hi], num + |got|)
  {
    hide Descending;
  }

  class Chain {
    var chunks: seq<Chunk>

    constructor (chunks: seq<Chunk>)
      ensures this.chunks == chunks
    {
      this.chunks := chunks;
    }

    /** At most `max` chunks of the range, from the largest id down. */
    method DoQuery(begin: int, end: int, max: int) returns (result: seq<Chunk>)
      requires Sorted(chunks) && 0 <= max
      ensures result == Descending(chunks[Lo(chunks, begin)..Hi(chunks, begin, end)], max)
    {
      hide Below;
      result := [];
      var lo, hi := Lo(chunks, begin), Hi(chunks, begin, end);
      var i := |chunks|;
      while i > 0 && |result| < max
        invariant 0 <= i <= |chunks| && |result| <= max
        invariant i > hi ==> result == []
        invariant lo <= i <= hi ==> |result| == hi - i
        invariant i < lo ==> hi == lo && result == []
        invariant forall k :: 0 <= k < |result| ==> result[k] == chunks[hi - 1 - k]
        decreases i
      {
        var chunk := chunks[i - 1];
        if chunk.id >= end {
          i := i - 1;
          continue;
        }
        if chunk.id < begin { break; }
        result := result + [chunk];
        i := i - 1;
      }
      assert result == Descending(chunks[lo..hi], max);
    }

    method Erase(id: int, ghost j: int)
      requires Sorted(chunks) && 0 <= j < |chunks| && chunks[j].id == id
      modifies this
      ensures chunks == old(chunks)[..j] + old(chunks)[j + 1..] && Sorted(chunks)
    {
      var k := 0;
      while chunks[k].id != id
        invariant 0 <= k <= j
        decreases j - k
      {
        k := k + 1;
      }
      chunks := chunks[..k] + chunks[k + 1..];
    }

    /** Pages through the range from the largest id down, processing at most the wanted number of chunks. The query is
        repeated for every page, on a map the processing may have changed. */
    method ProcessQueryResults(begin: int, end: int, maxNum: int, remove: bool)
      returns (processed: seq<Chunk>, more: bool)
      requires Sorted(chunks) && 0 <= maxNum <= UINT32_MAX
      modifies this
      ensures Sorted(chunks)
      ensures var was, lo, hi := old(chunks), Lo(old(chunks), begin), Hi(old(chunks), begin, end);
        var n := Min(Wanted(maxNum), hi - lo);
        && processed == Descending(was[lo..hi], n)
        && chunks == After(was, hi, n, remove)
        && (more <==> hi - lo > Wanted(maxNum))
    {
      hide Below, Descending, After, Lo, Hi, Sorted;
      ghost var was, lo, hi := chunks, Lo(chunks, begin), Hi(chunks, begin, end);
      var wanted := Wanted(maxNum);
      var currentEnd := end;
      var num := 0;
      processed := [];
      while true
        invariant 0 <= num <= wanted && num <= hi - lo && Sorted(chunks) && chunks == After(was, hi, num, remove)
        invariant Lo(chunks, begin) == lo && Hi(chunks, begin, currentEnd) == hi - num
        invariant processed == Descending(was[lo..hi], num)
        decreases hi - num
      {
        var pageSize := Min(wanted - num + 1, PAGE);
        var page := DoQuery(begin, currentEnd, pageSize);
        PageOf(was, lo, hi, num, remove, pageSize);
        ghost var start := num;
        var got;
        num, got := ProcessPage(page, num, wanted, remove, was, hi);
        DescendingAppend(was, lo, hi, start, got);
        processed := processed + got;
        if num >= wanted + 1 { return processed, true; }
        if |page| < pageSize { return processed, false; }
        currentEnd := page[|page| - 1].id;
        NextPage(was, begin, lo, hi, num, remove);
      }
    }

    /** Processes the chunk that is next. */
    method ProcessOne(chunk: Chunk, n: int, remove: bool, ghost was: seq<Chunk>, ghost hi: int)
      requires Sorted(was) && 0 <= n < hi <= |was| && chunk == was[hi - n - 1] && chunks == After(was, hi, n, remove)
      modifies this
      ensures chunks == After(was, hi, n + 1, remove)
    {
      AfterSorted(was, hi, n, remove);
      AfterNext(was, hi, n, remove);
      if remove { Erase(chunk.id, hi - n - 1); }
    }

    /** One page; the chunk behind the wanted number is only counted. */
    method ProcessPage(page: seq<Chunk>, start: int, wanted: int, remove: bool, ghost was: seq<Chunk>, ghost hi: int)
      returns (num: int, got: seq<Chunk>)
      requires Sorted(was) && 0 <= start <= wanted && start + |page| <= hi <= |was|
      requires chunks == After(was, hi, start, remove)
      requires forall i :: 0 <= i < |page| ==> page[i] == was[hi - start - 1 - i]
      modifies this
      ensures num == Min(start + |page|, wanted + 1) && got == page[..Min(|page|, wanted - start)]
      ensures Sorted(chunks) && chunks == After(was, hi, start + |got|, remove)
    {
      hide After, Sorted;
      num, got := start, [];
      AfterSorted(was, hi, num, remove);
      while num - start < |page|
        invariant start <= num <= start + |page| && num <= wanted && got == page[..num - start]
        invariant Sorted(chunks) && chunks == After(was, hi, num, remove)
        decreases start + |page| - num
      {
        var chunk := page[num - start];
        if num < wanted {
          ProcessOne(chunk, num, remove, was, hi);
          AfterSorted(was, hi, num + 1, remove);
          got := got + [chunk];
        }
        num := num + 1;
        if num >= wanted + 1 { return; }
      }
    }

    /** Removes the largest chunks of the range, as many as wanted. */
    method RemoveChunks(begin: int, end: int, maxNum: int) returns (removed: int, more: bool)
      requires Sorted(chunks) && 0 <= maxNum <= UINT32_MAX
      modifies this
      ensures Sorted(chunks)
      ensures var was, lo, hi := old(chunks), Lo(old(chunks), begin), Hi(old(chunks), begin, end);
        && removed == Min(Wanted(maxNum), hi - lo) && chunks == Without(was, hi, removed)
        && (more <==> hi - lo > Wanted(maxNum))
    {
      var processed;
      processed, more := ProcessQueryResults(begin, end, maxNum, true);
      removed := |processed|;
    }
  }

  /** The range that is left once the `num` largest chunks were looked at ends at the last of them. */
  lemma NextPage(was: seq<Chunk>, begin: int, lo: int, hi: int, num: int, remove: bool)
    requires Sorted(was) && lo == Lo(was, begin) && 0 < num <= hi - lo && hi <= |was|
    ensures var now := After(was, hi, num, remove);
      Sorted(now) && Lo(now, begin) == lo && Hi(now, begin, was[hi - num].id) == hi - num
  {
    hide Below;
    var now := After(was, hi, num, remove);
    BelowUnique(now, begin, lo);
    BelowUnique(now, was[hi - num].id, hi - num);
  }

  // ---------- what removal means ----------

  predicate InRange(c: Chunk, begin: int, end: int) { begin <= c.id < end }

  /** The slice is the range. */
  lemma RangeIsSlice(chunks: seq<Chunk>, begin: int, end: int, i: int)
    requires Sorted(chunks) && 0 <= i < |chunks|
    ensures InRange(chunks[i], begin, end) <==> Lo(chunks, begin) <= i < Hi(chunks, begin, end)
  {
    hide Below;
  }

  /** Removal keeps every chunk outside the range, and of the range exactly the chunks with the smallest ids. */
  lemma RemovesTheLargest(was: seq<Chunk>, begin: int, end: int, n: int, c: Chunk)
    requires Sorted(was) && 0 <= n <= Hi(was, begin, end) - Lo(was, begin)
    ensures var left := Without(was, Hi(was, begin, end), n);
      && |left| == |was| - n
      && (!InRange(c, begin, end) ==> (c in left <==> c in was))
      && (forall i, j :: (0 <= i < |was| && 0 <= j < |was| && InRange(was[i], begin, end) && InRange(was[j], begin, end)
                          && was[i] in left && was[j] !in left) ==> was[i].id < was[j].id)
  {
    hide Below;
    var lo, hi := Lo(was, begin), Hi(was, begin, end);
    var left := Without(was, hi, n);
    forall i | 0 <= i < |was| ensures was[i] in left <==> !(hi - n <= i < hi) {
      if i < hi - n { assert left[i] == was[i]; }
      if hi <= i { assert left[i - n] == was[i]; }
    }
    if !InRange(c, begin, end) && c in was {
      var i :| 0 <= i < |was| && was[i] == c;
      RangeIsSlice(was, begin, end, i);
    }
    forall i | 0 <= i < |was| ensures InRange(was[i], begin, end) <==>
      lo <= i < hi { RangeIsSlice(was, begin, end, i); }
  }
}
