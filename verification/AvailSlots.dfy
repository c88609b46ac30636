/** The index allocator behind every ring (src/common/utils/AtomicSharedPtrTable.h).
    An index is live when it lies below `nextAvail` and is not recycled in `free`.
    `free` is an ordered set, kept here as a strictly increasing sequence. */
module AvailSlots {

  import opened Prelude

  ghost predicate Increasing(s: seq<int>) {
    forall i, j :: 0 <= i < j < |s| ==> s[i] < s[j]
  }

  /** Insertion into an ordered set. */
  function Insert(s: seq<int>, x: int): seq<int>
  {
    if s == [] then [x]
    else if x < s[0] then [x] + s
    else if x == s[0] then s
    else [s[0]] + Insert(s[1..], x)
  }

  lemma {:induction false} InsertMembers(s: seq<int>, x: int)
    ensures forall y :: y in Insert(s, x) <==> y == x || y in s
    ensures x !in s ==> |Insert(s, x)| == |s| + 1
  {
    if s != [] && x > s[0] {
      InsertMembers(s[1..], x);
      assert s == [s[0]] + s[1..];
    }
  }

  lemma {:induction false} InsertIncreasing(s: seq<int>, x: int)
    requires Increasing(s)
    ensures Increasing(Insert(s, x))
  {
    if s != [] && x > s[0] {
      InsertIncreasing(s[1..], x);
      InsertMembers(s[1..], x);
      var t := Insert(s[1..], x);
      forall k | 0 <= k < |t| ensures s[0] < t[k] { assert t[k] in t; }
    }
  }

  lemma InsertAddsOne(s: seq<int>, x: int)
    requires Increasing(s)
    ensures Increasing(Insert(s, x))
    ensures forall y :: y in Insert(s, x) <==> y == x || y in s
    ensures x !in s ==> |Insert(s, x)| == |s| + 1
  {
    InsertMembers(s, x);
    InsertIncreasing(s, x);
  }

  /** The allocator's fields as a value. */
  datatype Slots = Slots(cap: int, nextAvail: int, free: seq<int>) {

    ghost predicate Valid() {
      && 0 <= nextAvail <= cap
      && Increasing(free)
      && forall k :: 0 <= k < |free| ==> 0 <= free[k] < nextAvail
    }

    ghost predicate IsLive(i: int) {
      0 <= i < nextAvail && i !in free
    }

    /** How many indices are live. */
    function LiveCount(): int {
      nextAvail - |free|
    }
  }

  /** `alloc`: the smallest recycled index, else the next fresh one. */
  function AfterAlloc(s: Slots): (Slots, Option<int>)
  {
    if s.free != [] then
      (s.(free := s.free[1..]), Some(s.free[0]))
    else if s.nextAvail < s.cap then
      (s.(nextAvail := s.nextAvail + 1), Some(s.nextAvail))
    else
      (s, None)
  }

  /** The scan that walks `nextAvail` back over recycled indices. */
  function WalkBack(free: seq<int>, k: int): int
    requires forall k :: 0 <= k < |free| ==> 0 <= free[k]
    decreases if k < 0 then 0 else k + 1
  {
    if k in free then WalkBack(free, k - 1) else k
  }

  function AfterDealloc(s: Slots, idx: int): Slots
    requires forall k :: 0 <= k < |s.free| ==> 0 <= s.free[k]
  {
    if idx < 0 || idx >= s.cap then s
    else if idx == s.nextAvail - 1 then s.(nextAvail := WalkBack(s.free, s.nextAvail - 1))
    else s.(free := Insert(s.free, idx))
  }

  /** `alloc` hands out an index that was not live and leaves every other index
      as it was; it refuses exactly when every index of the table is live. */
  lemma AllocIsFresh(s: Slots)
    requires s.Valid()
    ensures var (s', r) := AfterAlloc(s);
      && s'.Valid() && s'.cap == s.cap
      && (r.None? <==> forall i :: 0 <= i < s.cap ==> s.IsLive(i))
      && (r.None? ==> s' == s)
      && (r.Some? ==>
            && 0 <= r.value < s.cap && !s.IsLive(r.value)
            && (forall i :: s'.IsLive(i) <==> s.IsLive(i) || i == r.value)
            && s'.LiveCount() == s.LiveCount() + 1)
  {
    var (s', r) := AfterAlloc(s);
    if s.free != [] {
      assert s.free[0] in s.free && s.free == [s.free[0]] + s.free[1..];
      assert !s.IsLive(s.free[0]);
    } else if s.nextAvail < s.cap {
      assert !s.IsLive(s.nextAvail);
    }
  }

  /** `dealloc` of a live index makes exactly that index free again: the
      walk-back loop never moves past it. */
  lemma DeallocFreesOne(s: Slots, idx: int)
    requires s.Valid() && s.IsLive(idx)
    ensures var s' := AfterDealloc(s, idx);
      && s'.Valid() && s'.cap == s.cap
      && (forall i :: s'.IsLive(i) <==> s.IsLive(i) && i != idx)
      && s'.LiveCount() == s.LiveCount() - 1
  {
    InsertAddsOne(s.free, idx);
    var t := Insert(s.free, idx);
    forall k | 0 <= k < |t| ensures t[k] == idx || t[k] in s.free { assert t[k] in t; }
  }

  /** The mutable object, method by method. */
  class SlotTable {
    const cap: int
    var nextAvail: int
    var free: seq<int>

    constructor (c: nat)
      ensures State() == Slots(c, 0, []) && State().Valid()
    {
      cap := c;
      nextAvail := 0;
      free := [];
    }

    ghost function State(): Slots
      reads this
    {
      Slots(cap, nextAvail, free)
    }

    method Alloc() returns (r: Option<int>)
      modifies this
      ensures (State(), r) == AfterAlloc(old(State()))
    {
      if free != [] {
        var idx := free[0];
        free := free[1..];
        return Some(idx);
      }
      var idx := nextAvail;
      if idx < cap {
        nextAvail := nextAvail + 1;
        return Some(idx);
      }
      return None;
    }

    method Dealloc(idx: int)
      requires State().Valid()
      modifies this
      ensures State() == AfterDealloc(old(State()), idx)
    {
      if idx < 0 || idx >= cap { return; }
      if idx == nextAvail - 1 {
        nextAvail := nextAvail - 1;
        while nextAvail in free
          invariant free == old(free)
          invariant WalkBack(free, nextAvail) == WalkBack(free, old(nextAvail) - 1)
          decreases if nextAvail < 0 then 0 else nextAvail + 1
        {
          nextAvail := nextAvail - 1;
        }
      } else {
        free := Insert(free, idx);
      }
    }
  }
}
