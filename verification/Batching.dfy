/** Grouping operations into batches per storage node (src/client/storage/StorageClientImpl.cc, groupOpsByNodeId). */
module Batching {
  import opened Prelude

  datatype Op = Op(id: int, node: int, hasChannel: bool, len: int)

  function Bytes(ops: seq<Op>): int {
    if ops == [] then 0 else Bytes(ops[..|ops| - 1]) + ops[|ops| - 1].len
  }

  function Concat(batches: seq<seq<Op>>): seq<Op> {
    if batches == [] then [] else Concat(batches[..|batches| - 1]) + batches[|batches| - 1]
  }

  predicate NonNegative(ops: seq<Op>) { forall i :: 0 <= i < |ops| ==> 0 <= ops[i].len }

  lemma {:induction false} BytesNonNegative(ops: seq<Op>)
    requires NonNegative(ops)
    ensures 0 <= Bytes(ops)
    ensures forall i :: 0 <= i < |ops| ==> ops[i].len <= Bytes(ops)
    decreases |ops|
  {
    if ops != [] { BytesNonNegative(ops[..|ops| - 1]); }
  }

  lemma {:induction false} BytesSplit(ops: seq<Op>, i: int)
    requires 0 <= i <= |ops|
    ensures Bytes(ops) == Bytes(ops[..i]) + Bytes(ops[i..])
    decreases |ops|
  {
    if i == |ops| {
      assert ops[..i] == ops;
    } else {
      var n := |ops| - 1;
      BytesSplit(ops[..n], i);
      assert ops[..n][..i] == ops[..i] && ops[..n][i..] == ops[i..][..n - i];
    }
  }

  lemma BytesAppend(batch: seq<Op>, op: Op)
    ensures Bytes(batch + [op]) == Bytes(batch) + op.len
  {
    assert (batch + [op])[..|batch|] == batch;
  }

  lemma BytesNone()
    ensures Bytes([]) == 0
  {
  }

  lemma BytesOne(op: Op)
    ensures Bytes([op]) == op.len
  {
    assert [op][..0] == [];
  }

  function CeilDiv(total: int, max: int): (n: int)
    requires 0 <= total && 0 < max
    ensures max * n >= total && max * (n - 1) < total
  {
    var n := (total + max - 1) / max;
    assert max * n + (total + max - 1) % max == total + max - 1;
    n
  }

  /** The average size of the fewest batches of at most `max`. */
  function CalcAvgSize(total: int, max: int): (avg: int)
    requires 0 <= total && 0 < max
    ensures 0 < avg <= max
    ensures 0 < total ==> avg * CeilDiv(total, max) >= total
  {
    if total == 0 then max
    else
      var n := CeilDiv(total, max);
      AtLeastOne(n, max, total);
      Min(CeilDiv(total, n), max)
  }

  lemma AtLeastOne(n: int, max: int, total: int)
    requires 0 < total && 0 < max && max * n >= total
    ensures 0 < n
  {
    assert n <= 0 ==> max * n <= 0;
  }

  /** With the averages fixed, the fewest batches are enough: after `b` cuts made while more than `max` was left, and
      at most `max` left now, `b + 1` is the rounded-up quotient. */
  lemma FewestBatches(total: int, max: int, avg: int, b: int)
    requires 0 < total && 0 < max && avg == CalcAvgSize(total, max) && 0 <= b
    requires b > 0 ==> total - avg * (b - 1) > max
    requires total - avg * b <= max
    ensures b + 1 == CeilDiv(total, max)
  {
    hide CeilDiv, CalcAvgSize;
    var n := CeilDiv(total, max);
    if b >= n {
      AtLeastOne(n, max, total);
      NotMore(total, max, avg, n, b);
    } else if b + 1 < n {
      NotLess(total, max, avg, n, b);
    }
  }

  lemma NotMore(total: int, max: int, avg: int, n: int, b: int)
    requires 0 < avg <= max && avg * n >= total && n <= b
    ensures total - avg * (b - 1) <= max
  {
    MulMonotone(avg, n - 1, b - 1);
    assert avg * (n - 1) == avg * n - avg;
  }

  lemma NotLess(total: int, max: int, avg: int, n: int, b: int)
    requires 0 < avg <= max && max * (n - 1) < total && 0 <= b && b + 1 < n
    ensures total - avg * b > max
  {
    MulMonotone(max, b + 1, n - 1);
    MulMonotone2(avg, max, b);
    assert max * (b + 1) == max * b + max;
  }

  lemma MulMonotone(a: int, x: int, y: int)
    requires 0 <= a && x <= y
    ensures a * x <= a * y
  {
  }

  lemma MulMonotone2(a: int, a': int, x: int)
    requires a <= a' && 0 <= x
    ensures a * x <= a' * x
  {
  }

  lemma {:induction false} ConcatAtMost(batches: seq<seq<Op>>, max: int)
    requires 0 < max && forall b :: 0 <= b < |batches| ==> |batches[b]| <= max
    ensures |Concat(batches)| <= max * |batches|
    decreases |batches|
  {
    if batches != [] {
      var n := |batches| - 1;
      ConcatAtMost(batches[..n], max);
      assert max * |batches| == max * n + max;
    }
  }

  /** No way to cut the operations into batches of at most `max` uses fewer. */
  lemma NoFewer(batches: seq<seq<Op>>, max: int)
    requires 0 < max && forall b :: 0 <= b < |batches| ==> |batches[b]| <= max
    ensures CeilDiv(|Concat(batches)|, max) <= |batches|
  {
    hide Concat, CeilDiv;
    ConcatAtMost(batches, max);
    var n := CeilDiv(|Concat(batches)|, max);
    if n > |batches| { MulMonotone(max, |batches|, n - 1); }
  }

  /** What every batch keeps to. */
  ghost predicate WithinLimits(batch: seq<Op>, maxSize: int, maxBytes: int) {
    |batch| <= maxSize && (Bytes(batch) <= maxBytes || |batch| == 1)
  }

  lemma ConcatAppend(batches: seq<seq<Op>>, batch: seq<Op>)
    ensures Concat(batches + [batch]) == Concat(batches) + batch
  {
    assert (batches + [batch])[..|batches|] == batches;
  }

  /** The batches cut so far and the one being filled. */
  datatype Cutting = Cutting(done: seq<seq<Op>>, batch: seq<Op>)

  datatype Limits = Limits(maxSize: int, maxBytes: int, avgSize: int, avgBytes: int)

  /** The batch has its average share of operations, or would exceed its share of bytes, and the rest would not fit. */
  predicate CutsBefore(batch: seq<Op>, rest: seq<Op>, l: Limits)
    requires rest != []
  {
    || (|batch| >= l.avgSize && |batch| + |rest| > l.maxSize)
    || (Bytes(batch) + rest[0].len > l.avgBytes && Bytes(batch) + Bytes(rest) > l.maxBytes)
  }

  /** The first `i` operations, each put in the current batch or in a new one. */
  function CutUpTo(ops: seq<Op>, i: int, l: Limits): Cutting
    requires 0 <= i <= |ops|
    decreases i
  {
    if i == 0 then Cutting([], [])
    else
      var c := CutUpTo(ops, i - 1, l);
      if CutsBefore(c.batch, ops[i - 1..], l) then Cutting(c.done + [c.batch], [ops[i - 1]])
      else Cutting(c.done, c.batch + [ops[i - 1]])
  }

  function LimitsOf(ops: seq<Op>, maxSize: int, maxBytes: int): (l: Limits)
    requires 0 < maxSize && 0 < maxBytes && 0 <= Bytes(ops)
    ensures 0 < l.avgSize <= l.maxSize == maxSize && 0 < l.avgBytes <= l.maxBytes == maxBytes
  {
    Limits(maxSize, maxBytes, CalcAvgSize(|ops|, maxSize), CalcAvgSize(Bytes(ops), maxBytes))
  }

  /** The batches of one node. */
  function Batches(ops: seq<Op>, maxSize: int, maxBytes: int): seq<seq<Op>>
    requires 0 < maxSize && 0 < maxBytes && 0 <= Bytes(ops)
  {
    var c := CutUpTo(ops, |ops|, LimitsOf(ops, maxSize, maxBytes));
    if c.batch == [] then c.done else c.done + [c.batch]
  }

  // ---------- what the cuts keep ----------

  lemma {:induction false} CutKeepsAll(ops: seq<Op>, i: int, l: Limits)
    requires 0 <= i <= |ops|
    ensures Concat(CutUpTo(ops, i, l).done) + CutUpTo(ops, i, l).batch == ops[..i]
    ensures 0 < i ==> CutUpTo(ops, i, l).batch != []
    decreases i
  {
    if i > 0 {
      CutKeepsAll(ops, i - 1, l);
      var c := CutUpTo(ops, i - 1, l);
      ConcatAppend(c.done, c.batch);
      assert ops[..i] == ops[..i - 1] + [ops[i - 1]];
    }
  }

  lemma BytesFirst(ops: seq<Op>, i: int)
    requires 0 <= i < |ops| && NonNegative(ops)
    ensures ops[i].len <= Bytes(ops[i..])
  {
    BytesNonNegative(ops[i..]);
  }

  lemma {:induction false} CutWithinLimits(ops: seq<Op>, i: int, l: Limits)
    requires 0 <= i <= |ops| && NonNegative(ops) && 0 < l.avgSize <= l.maxSize && 0 < l.avgBytes <= l.maxBytes
    ensures WithinLimits(CutUpTo(ops, i, l).batch, l.maxSize, l.maxBytes)
    ensures forall b :: 0 <= b < |CutUpTo(ops, i, l).done| ==>
      WithinLimits(CutUpTo(ops, i, l).done[b], l.maxSize, l.maxBytes)
    decreases i
  {
    hide Bytes;
    BytesNone();
    if i > 0 {
      CutWithinLimits(ops, i - 1, l);
      BytesFirst(ops, i - 1);
      BytesAppend(CutUpTo(ops, i - 1, l).batch, ops[i - 1]);
      BytesOne(ops[i - 1]);
    }
  }

  /** The first operation alone exceeds its share of bytes, and all together exceed the limit. */
  predicate FirstTooLarge(ops: seq<Op>, l: Limits) {
    ops != [] && ops[0].len > l.avgBytes && Bytes(ops) > l.maxBytes
  }

  /** An empty batch is cut exactly before such an operation, and never later. */
  lemma {:induction false} CutEmpty(ops: seq<Op>, i: int, l: Limits)
    requires 0 < i <= |ops| && 0 < l.avgSize
    ensures var done := CutUpTo(ops, i, l).done;
      && (0 < |done| && done[0] == [] <==> FirstTooLarge(ops, l))
      && forall b :: 0 < b < |done| ==> done[b] != []
    decreases i
  {
    hide Bytes, Concat;
    BytesNone();
    assert ops[0..] == ops;
    assert CutUpTo(ops, 0, l) == Cutting([], []);
    if i > 1 {
      CutEmpty(ops, i - 1, l);
      CutKeepsAll(ops, i - 1, l);
    }
  }

  /** Without payload every batch but the last holds the average. */
  ghost predicate Even(b: int, total: int, i: int, size: int, avg: int, max: int) {
    i == avg * b + size && (b > 0 ==> total - avg * (b - 1) > max)
  }

  lemma EvenStep(b: int, total: int, i: int, size: int, avg: int, max: int)
    requires Even(b, total, i, size, avg, max) && 0 < avg <= max && (size > avg ==> total - avg * b <= max)
    ensures size + (total - i) == total - avg * b
    ensures size >= avg && size + (total - i) > max ==> Even(b + 1, total, i + 1, 1, avg, max)
    ensures !(size >= avg && size + (total - i) > max) ==>
      Even(b, total, i + 1, size + 1, avg, max) && (size + 1 > avg ==> total - avg * b <= max)
  {
    assert avg * (b + 1) == avg * b + avg;
  }

  ghost predicate EvenlyCut(c: Cutting, total: int, i: int, l: Limits) {
    && Even(|c.done|, total, i, |c.batch|, l.avgSize, l.maxSize)
    && (|c.batch| > l.avgSize ==> total - l.avgSize * |c.done| <= l.maxSize)
  }

  lemma {:induction false} CutEvenly(ops: seq<Op>, i: int, l: Limits)
    requires 0 <= i <= |ops| && NonNegative(ops) && Bytes(ops) == 0 && 0 < l.avgSize <= l.maxSize && 0 < l.avgBytes
    ensures EvenlyCut(CutUpTo(ops, i, l), |ops|, i, l)
    decreases i
  {
    hide Bytes, Concat, NonNegative, EvenlyCut, CutUpTo;
    if i > 0 {
      var c := CutUpTo(ops, i - 1, l);
      CutEvenly(ops, i - 1, l);
      NoPayload(ops, i - 1);
      CutKeepsAll(ops, i - 1, l);
      NoPayloadBatch(ops, c.done, c.batch, i - 1);
      EvenCut(ops, i, c, l);
    } else {
      EvenStart(ops, l);
    }
  }

  lemma EvenStart(ops: seq<Op>, l: Limits)
    requires 0 < l.avgSize
    ensures EvenlyCut(CutUpTo(ops, 0, l), |ops|, 0, l)
  {
    assert l.avgSize * 0 == 0;
  }

  lemma EvenCut(ops: seq<Op>, i: int, c: Cutting, l: Limits)
    requires 0 < i <= |ops| && c == CutUpTo(ops, i - 1, l) && 0 < l.avgSize <= l.maxSize && 0 < l.avgBytes
    requires Bytes(c.batch) == 0 && ops[i - 1].len == 0 && EvenlyCut(c, |ops|, i - 1, l)
    ensures EvenlyCut(CutUpTo(ops, i, l), |ops|, i, l)
  {
    hide Bytes, Even;
    EvenStep(|c.done|, |ops|, i - 1, |c.batch|, l.avgSize, l.maxSize);
    var cut := |c.batch| >= l.avgSize && |c.batch| + (|ops| - (i - 1)) > l.maxSize;
    assert CutsBefore(c.batch, ops[i - 1..], l) == cut;
    var c' := CutUpTo(ops, i, l);
    hide CutUpTo, CutsBefore;
    assert |c'.done| == |c.done| + if cut then 1 else 0;
  }

  lemma NoPayload(ops: seq<Op>, i: int)
    requires 0 <= i < |ops| && NonNegative(ops) && Bytes(ops) == 0
    ensures ops[i].len == 0 && Bytes(ops[i..]) == 0
  {
    BytesNonNegative(ops);
    BytesSplit(ops, i);
    BytesNonNegative(ops[..i]);
    BytesNonNegative(ops[i..]);
  }

  lemma NoPayloadBatch(ops: seq<Op>, done: seq<seq<Op>>, batch: seq<Op>, i: int)
    requires 0 <= i <= |ops| && NonNegative(ops) && Bytes(ops) == 0 && Concat(done) + batch == ops[..i]
    ensures Bytes(batch) == 0
  {
    BytesNonNegative(ops);
    var n := |Concat(done)|;
    assert batch == ops[..i][n..] == ops[n..i];
    ZeroBytes(batch);
  }

  lemma {:induction false} ZeroBytes(ops: seq<Op>)
    requires forall i :: 0 <= i < |ops| ==> ops[i].len == 0
    ensures Bytes(ops) == 0
    decreases |ops|
  {
    if ops != [] { ZeroBytes(ops[..|ops| - 1]); }
  }

  // ---------- main results ----------

  /** The batches of one node hold its operations in order; none exceeds the limits, except a single large operation. */
  lemma BatchesPartition(ops: seq<Op>, maxSize: int, maxBytes: int)
    requires 0 < maxSize && 0 < maxBytes && NonNegative(ops) && 0 <= Bytes(ops)
    ensures var batches := Batches(ops, maxSize, maxBytes);
      && Concat(batches) == ops
      && forall b :: 0 <= b < |batches| ==> WithinLimits(batches[b], maxSize, maxBytes)
  {
    hide LimitsOf, CutUpTo, WithinLimits, Bytes, Concat, CalcAvgSize, CeilDiv;
    var l := LimitsOf(ops, maxSize, maxBytes);
    CutKeepsAll(ops, |ops|, l);
    CutWithinLimits(ops, |ops|, l);
    var c := CutUpTo(ops, |ops|, l);
    ConcatAppend(c.done, c.batch);
    assert ops[..|ops|] == ops;
  }

  /** The first batch is empty exactly when the first operation is larger than the average and not all operations fit
      one batch; no other batch ever is. */
  lemma EmptyBatchIff(ops: seq<Op>, maxSize: int, maxBytes: int)
    requires 0 < maxSize && 0 < maxBytes && 0 <= Bytes(ops)
    ensures var batches := Batches(ops, maxSize, maxBytes);
      && (0 < |batches| && batches[0] == [] <==>
            ops != [] && ops[0].len > CalcAvgSize(Bytes(ops), maxBytes) && Bytes(ops) > maxBytes)
      && forall b :: 0 < b < |batches| ==> batches[b] != []
  {
    hide CutUpTo, Bytes, Concat, CalcAvgSize, CeilDiv;
    var l := LimitsOf(ops, maxSize, maxBytes);
    if ops == [] {
      NothingCut(l);
    } else {
      CutEmpty(ops, |ops|, l);
      CutKeepsAll(ops, |ops|, l);
    }
  }

  /** Nine and three bytes with a limit of ten: the average is six, and the first of three batches is empty. */
  lemma EmptyFirstBatch()
    ensures var ops := [Op(0, 0, false, 9), Op(1, 0, false, 3)];
      Bytes(ops) == 12 && Batches(ops, 10, 10) == [[], [ops[0]], [ops[1]]]
  {
    var ops := [Op(0, 0, false, 9), Op(1, 0, false, 3)];
    BytesOne(ops[0]);
    BytesOne(ops[1]);
    BytesAppend([ops[0]], ops[1]);
    assert ops == [ops[0]] + [ops[1]] && ops[0..] == ops && ops[1..] == [ops[1]];
    var l := LimitsOf(ops, 10, 10);
    assert l == Limits(10, 10, 2, 6);
    hide CalcAvgSize, CeilDiv, Bytes;
    BytesNone();
    assert CutUpTo(ops, 0, l) == Cutting([], []);
    assert CutUpTo(ops, 1, l) == Cutting([[]], [ops[0]]);
    assert CutUpTo(ops, 2, l) == Cutting([[], [ops[0]]], [ops[1]]);
  }

  /** Without payload, the number of batches is the smallest possible. */
  lemma BatchesFewest(ops: seq<Op>, maxSize: int, maxBytes: int)
    requires 0 < maxSize && 0 < maxBytes && NonNegative(ops) && Bytes(ops) == 0
    ensures |Batches(ops, maxSize, maxBytes)| == CeilDiv(|ops|, maxSize)
  {
    hide CutUpTo, CeilDiv, CalcAvgSize, Bytes, Concat;
    var l := LimitsOf(ops, maxSize, maxBytes);
    var c := CutUpTo(ops, |ops|, l);
    CutEvenly(ops, |ops|, l);
    CutKeepsAll(ops, |ops|, l);
    if ops != [] {
      CutWithinLimits(ops, |ops|, l);
      FewestBatches(|ops|, maxSize, l.avgSize, |c.done|);
    } else {
      NoOps(maxSize);
      NothingCut(l);
    }
  }

  lemma NoOps(max: int)
    requires 0 < max
    ensures CeilDiv(0, max) == 0
  {
    var n := CeilDiv(0, max);
    assert n >= 1 ==> max * (n - 1) >= 0;
    assert n <= -1 ==> max * n < 0;
  }

  lemma NothingCut(l: Limits)
    ensures CutUpTo([], 0, l) == Cutting([], [])
  {
  }

  /** The loop itself. */
  method CutBatches(ops: seq<Op>, maxSize: int, maxBytes: int) returns (batches: seq<seq<Op>>)
    requires 0 < maxSize && 0 < maxBytes && 0 <= Bytes(ops)
    ensures batches == Batches(ops, maxSize, maxBytes)
  {
    hide CeilDiv, CalcAvgSize, Bytes;
    BytesNone();
    batches := [];
    var batch: seq<Op> := [];
    var batchBytes := 0;
    var remainingOps, remainingBytes := |ops|, Bytes(ops);
    var avgSize, avgBytes := CalcAvgSize(remainingOps, maxSize), CalcAvgSize(remainingBytes, maxBytes);
    ghost var l := Limits(maxSize, maxBytes, avgSize, avgBytes);
    assert ops[0..] == ops;
    var i := 0;
    while i < |ops|
      invariant 0 <= i <= |ops| && remainingOps == |ops| - i && remainingBytes == Bytes(ops[i..])
      invariant batchBytes == Bytes(batch)
      invariant CutUpTo(ops, i, l) == Cutting(batches, batch)
    {
      var op := ops[i];
      BytesTail(ops, i);
      if (|batch| >= avgSize && |batch| + remainingOps > maxSize)
         || (batchBytes + op.len > avgBytes && batchBytes + remainingBytes > maxBytes) {
        batches := batches + [batch];
        batch := [];
        batchBytes := 0;
      }
      BytesAppend(batch, op);
      batch := batch + [op];
      batchBytes := batchBytes + op.len;
      remainingOps := remainingOps - 1;
      remainingBytes := remainingBytes - op.len;
      i := i + 1;
      assert ops[i - 1..][0] == op;
    }
    if batch != [] { batches := batches + [batch]; }
  }

  lemma BytesTail(ops: seq<Op>, i: int)
    requires 0 <= i < |ops|
    ensures Bytes(ops[i..]) == ops[i].len + Bytes(ops[i + 1..])
  {
    BytesSplit(ops[i..], 1);
    assert ops[i..][1..] == ops[i + 1..] && ops[i..][..1] == [] + [ops[i]];
    BytesAppend([], ops[i]);
  }
}
