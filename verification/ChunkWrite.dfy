/** Writing pieces of chunks in any order (src/client/storage/StorageClientInMem.cc, batchWrite and write). */
module ChunkWrite {
  import opened Chunks

  /** The bytes a piece writes. */
  function WriteBytes(mem: seq<Byte>, io: Io): (r: seq<Byte>)
    requires ValidWrite(io, |mem|)
    ensures |r| == io.length
  {
    mem[io.data..io.data + io.length]
  }

  predicate ValidWrite(io: Io, size: int) {
    0 <= io.offset && 0 <= io.data && 0 < io.length && io.data + io.length <= size
  }

  predicate ValidWrites(ios: seq<Io>, size: int) {
    forall k :: 0 <= k < |ios| ==> ValidWrite(ios[k], size)
  }

  /** Pieces of the same chunk agree on its size and do not overlap. */
  predicate Compatible(a: Io, b: Io) {
    a.key == b.key ==>
      && a.chunkSize == b.chunkSize
      && (a.offset + a.length <= b.offset || b.offset + b.length <= a.offset)
  }

  predicate AllCompatible(ios: seq<Io>) {
    forall i, j :: 0 <= i < j < |ios| ==> Compatible(ios[i], ios[j])
  }

  /** The store after the pieces were written in this order. */
  function WriteAll(st: Store, ios: seq<Io>, mem: seq<Byte>): Store
    requires ValidWrites(ios, |mem|)
    decreases |ios|
  {
    if ios == [] then st
    else
      var last := ios[|ios| - 1];
      AfterWrite(WriteAll(st, ios[..|ios| - 1], mem), last, WriteBytes(mem, last))
  }

  // ---------- two writes ----------

  lemma OverlaysCommute(base: seq<Byte>, at: int, x: seq<Byte>, at': int, y: seq<Byte>)
    requires 0 <= at && 0 <= at' && 0 < |x| && 0 < |y| && (at + |x| <= at' || at' + |y| <= at)
    ensures Overlay(Grow(Overlay(Grow(base, at + |x|), at, x), at' + |y|), at', y)
         == Overlay(Grow(Overlay(Grow(base, at' + |y|), at', y), at + |x|), at, x)
  {
    hide Overlay, Grow;
  }

  lemma SameChunkCommutes(st: Store, a: Io, x: seq<Byte>, b: Io, y: seq<Byte>)
    requires a.key == b.key && Compatible(a, b) && 0 <= a.offset && 0 <= b.offset && 0 < |x| == a.length
    requires 0 < |y| == b.length
    requires WriteAccepted(st, a) && WriteAccepted(st, b)
    ensures AfterWrite(AfterWrite(st, a, x), b, y) == AfterWrite(AfterWrite(st, b, y), a, x)
  {
    hide Overlay, Grow;
    var content := if a.key in st.chunks then st.chunks[a.key].content else [];
    OverlaysCommute(content, a.offset, x, b.offset, y);
    var ab, ba := AfterWrite(AfterWrite(st, a, x), b, y), AfterWrite(AfterWrite(st, b, y), a, x);
    assert ab.chunks[a.key] == ba.chunks[a.key];
    assert ab.chunks == ba.chunks;
  }

  /** A write neither makes another one acceptable nor spoils it. */
  lemma AcceptanceStable(st: Store, a: Io, x: seq<Byte>, b: Io)
    requires Compatible(a, b) && 0 <= a.offset
    ensures WriteAccepted(AfterWrite(st, a, x), b) <==> WriteAccepted(st, b)
    ensures WriteResult(AfterWrite(st, a, x), b) == WriteResult(st, b)
  {
    hide Overlay, Grow;
  }

  lemma WritesCommute(st: Store, a: Io, x: seq<Byte>, b: Io, y: seq<Byte>)
    requires Compatible(a, b) && 0 <= a.offset && 0 <= b.offset && 0 < |x| == a.length && 0 < |y| == b.length
    ensures AfterWrite(AfterWrite(st, a, x), b, y) == AfterWrite(AfterWrite(st, b, y), a, x)
  {
    hide Overlay, Grow;
    AcceptanceStable(st, a, x, b);
    AcceptanceStable(st, b, y, a);
    if WriteAccepted(st, a) && WriteAccepted(st, b) {
      if a.key == b.key {
        SameChunkCommutes(st, a, x, b, y);
      } else {
        var ab, ba := AfterWrite(AfterWrite(st, a, x), b, y), AfterWrite(AfterWrite(st, b, y), a, x);
        assert ab.chunks == ba.chunks;
      }
    }
  }

  // ---------- any order ----------

  predicate CompatibleWithAll(io: Io, ios: seq<Io>) {
    forall k :: 0 <= k < |ios| ==> Compatible(io, ios[k]) && Compatible(ios[k], io)
  }

  /** A piece may be written first or last. */
  lemma {:induction false} MoveToEnd(st: Store, ios: seq<Io>, io: Io, mem: seq<Byte>)
    requires ValidWrites(ios, |mem|) && ValidWrite(io, |mem|) && CompatibleWithAll(io, ios)
    ensures AfterWrite(WriteAll(st, ios, mem), io, WriteBytes(mem, io))
         == WriteAll(AfterWrite(st, io, WriteBytes(mem, io)), ios, mem)
    decreases |ios|
  {
    hide AfterWrite, WriteBytes;
    if ios != [] {
      var rest, last := ios[..|ios| - 1], ios[|ios| - 1];
      MoveToEnd(st, rest, io, mem);
      WritesCommute(WriteAll(st, rest, mem), last, WriteBytes(mem, last), io, WriteBytes(mem, io));
    }
  }

  lemma {:induction false} WriteAppend(st: Store, a: seq<Io>, b: seq<Io>, mem: seq<Byte>)
    requires ValidWrites(a, |mem|) && ValidWrites(b, |mem|)
    ensures ValidWrites(a + b, |mem|) && WriteAll(st, a + b, mem) == WriteAll(WriteAll(st, a, mem), b, mem)
    decreases |b|
  {
    hide AfterWrite, WriteBytes;
    if b == [] {
      assert a + b == a;
    } else {
      var rest := b[..|b| - 1];
      WriteAppend(st, a, rest, mem);
      assert (a + b)[..|a + b| - 1] == a + rest;
    }
  }

  /** Taking one piece out of the order and writing it last. */
  lemma ExtractLast(st: Store, ios: seq<Io>, k: int, mem: seq<Byte>)
    requires ValidWrites(ios, |mem|) && AllCompatible(ios) && 0 <= k < |ios|
    ensures var rest := ios[..k] + ios[k + 1..];
      && ValidWrites(rest, |mem|)
      && WriteAll(st, ios, mem) == AfterWrite(WriteAll(st, rest, mem), ios[k], WriteBytes(mem, ios[k]))
  {
    hide AfterWrite, WriteBytes, WriteAll;
    var io := ios[k];
    var st1 := WriteAll(st, ios[..k], mem);
    assert ios == ios[..k + 1] + ios[k + 1..] && ios[..k + 1] == ios[..k] + [io];
    WriteAppend(st, ios[..k + 1], ios[k + 1..], mem);
    LastWrite(st, ios[..k + 1], mem);
    assert ios[..k + 1][..k] == ios[..k];
    var tail := ios[k + 1..];
    forall j | 0 <= j < |tail| ensures Compatible(io, tail[j]) && Compatible(tail[j], io) {
      assert Compatible(ios[k], ios[k + 1 + j]);
    }
    MoveToEnd(st1, tail, io, mem);
    WriteAppend(st, ios[..k], ios[k + 1..], mem);
  }

  lemma LastWrite(st: Store, ios: seq<Io>, mem: seq<Byte>)
    requires ValidWrites(ios, |mem|) && ios != []
    ensures ValidWrites(ios[..|ios| - 1], |mem|)
    ensures WriteAll(st, ios, mem)
         == AfterWrite(WriteAll(st, ios[..|ios| - 1], mem), ios[|ios| - 1], WriteBytes(mem, ios[|ios| - 1]))
  {
  }

  lemma RestCompatible(ios: seq<Io>, k: int)
    requires AllCompatible(ios) && 0 <= k < |ios|
    ensures AllCompatible(ios[..k] + ios[k + 1..])
  {
    hide Compatible;
    var rest := ios[..k] + ios[k + 1..];
    forall i, j | 0 <= i < j < |rest| ensures Compatible(rest[i], rest[j]) {
      assert rest[i] == ios[if i < k then i else i + 1] && rest[j] == ios[if j < k then j else j + 1];
    }
  }

  lemma WithoutOne(xs: seq<Io>, ys: seq<Io>, k: int)
    requires xs != [] && multiset(xs) == multiset(ys) && 0 <= k < |ys| && ys[k] == xs[|xs| - 1]
    ensures multiset(xs[..|xs| - 1]) == multiset(ys[..k] + ys[k + 1..])
  {
    var one := [ys[k]];
    assert xs == xs[..|xs| - 1] + one;
    assert ys == ys[..k] + one + ys[k + 1..];
    assert multiset(xs[..|xs| - 1]) == multiset(xs) - multiset(one);
    assert multiset(ys[..k] + ys[k + 1..]) == multiset(ys) - multiset(one);
  }

  lemma FindPiece(xs: seq<Io>, ys: seq<Io>) returns (k: int)
    requires xs != [] && multiset(xs) == multiset(ys)
    ensures 0 <= k < |ys| && ys[k] == xs[|xs| - 1]
  {
    assert xs[|xs| - 1] in multiset(ys);
    k :| 0 <= k < |ys| && ys[k] == xs[|xs| - 1];
  }

  /** The store after a batch does not depend on the order in which its pieces are written. */
  lemma {:induction false} AnyOrder(st: Store, xs: seq<Io>, ys: seq<Io>, mem: seq<Byte>)
    requires ValidWrites(xs, |mem|) && AllCompatible(xs) && ValidWrites(ys, |mem|) && AllCompatible(ys)
    requires multiset(xs) == multiset(ys)
    ensures WriteAll(st, xs, mem) == WriteAll(st, ys, mem)
    decreases |xs|
  {
    hide AfterWrite, WriteBytes, WriteAll, AllCompatible, ValidWrites;
    if xs == [] {
      assert |multiset(ys)| == 0;
    } else {
      var n := |xs| - 1;
      var k := FindPiece(xs, ys);
      RestCompatible(xs, n);
      assert xs[..n] + xs[n + 1..] == xs[..n];
      RestCompatible(ys, k);
      WithoutOne(xs, ys, k);
      ExtractLast(st, ys, k, mem);
      LastWrite(st, xs, mem);
      AnyOrder(st, xs[..n], ys[..k] + ys[k + 1..], mem);
    }
  }

  // ---------- shuffling ----------

  function Range(n: int): (r: seq<int>)
    ensures |r| == (if n < 0 then 0 else n) && forall i :: 0 <= i < |r| ==> r[i] == i
  {
    seq(if n < 0 then 0 else n, i => i)
  }

  /** Every index below `n` exactly once. */
  ghost predicate IsOrder(order: seq<int>, n: int) { multiset(order) == multiset(Range(n)) }

  predicate Indices(order: seq<int>, n: int) { forall i :: 0 <= i < |order| ==> 0 <= order[i] < n }

  lemma OrderIndices(order: seq<int>, n: int)
    requires IsOrder(order, n)
    ensures Indices(order, n)
  {
    forall i | 0 <= i < |order| ensures 0 <= order[i] < n {
      assert order[i] in multiset(Range(n));
    }
  }

  lemma TwoOccurrences(s: seq<int>, i: int, j: int)
    requires 0 <= i < j < |s| && s[i] == s[j]
    ensures multiset(s)[s[i]] >= 2
  {
    assert s == s[..j] + [s[j]] + s[j + 1..];
    assert s[i] == s[..j][i];
  }

  lemma {:induction false} RangeOnce(n: int, x: int)
    ensures multiset(Range(n))[x] <= 1
    decreases n
  {
    if n > 0 {
      assert Range(n) == Range(n - 1) + [n - 1];
      RangeOnce(n - 1, x);
      assert n - 1 !in Range(n - 1);
    }
  }

  lemma OrderDistinct(order: seq<int>, n: int, i: int, j: int)
    requires IsOrder(order, n) && 0 <= i < j < |order|
    ensures order[i] != order[j]
  {
    if order[i] == order[j] {
      TwoOccurrences(order, i, j);
      RangeOnce(n, order[i]);
    }
  }

  /** The pieces in the given order. */
  function Shuffled(ios: seq<Io>, order: seq<int>): (r: seq<Io>)
    requires Indices(order, |ios|)
    ensures |r| == |order|
  {
    seq(|order|, i requires 0 <= i < |order| => ios[order[i]])
  }

  lemma WithoutIndex(ios: seq<Io>, p: seq<int>, k: int)
    requires Indices(p, |ios|) && 0 <= k < |p|
    ensures var rest := p[..k] + p[k + 1..];
      && Indices(rest, |ios|)
      && multiset(rest) == multiset(p) - multiset{p[k]}
      && multiset(Shuffled(ios, p)) == multiset(Shuffled(ios, rest)) + multiset{ios[p[k]]}
  {
    var rest, s := p[..k] + p[k + 1..], Shuffled(ios, p);
    assert p == p[..k] + [p[k]] + p[k + 1..];
    assert Shuffled(ios, rest) == s[..k] + s[k + 1..];
    assert s == s[..k] + [s[k]] + s[k + 1..];
  }

  lemma {:induction false} ShuffledMultiset(ios: seq<Io>, p: seq<int>, q: seq<int>)
    requires Indices(p, |ios|) && Indices(q, |ios|) && multiset(p) == multiset(q)
    ensures multiset(Shuffled(ios, p)) == multiset(Shuffled(ios, q))
    decreases |p|
  {
    hide Indices, Shuffled;
    if p == [] {
      assert |multiset(q)| == 0;
      assert p == q;
    } else {
      assert p[0] in multiset(q);
      var k :| 0 <= k < |q| && q[k] == p[0];
      WithoutIndex(ios, p, 0);
      WithoutIndex(ios, q, k);
      ShuffledMultiset(ios, p[..0] + p[1..], q[..k] + q[k + 1..]);
    }
  }

  /** A shuffled batch has the same pieces. */
  lemma ShuffleKeeps(ios: seq<Io>, order: seq<int>, size: int)
    requires IsOrder(order, |ios|) && Indices(order, |ios|) && AllCompatible(ios) && ValidWrites(ios, size)
    ensures AllCompatible(Shuffled(ios, order)) && ValidWrites(Shuffled(ios, order), size)
    ensures multiset(Shuffled(ios, order)) == multiset(ios)
  {
    var ys := Shuffled(ios, order);
    forall i, j | 0 <= i < j < |ys| ensures Compatible(ys[i], ys[j]) {
      OrderDistinct(order, |ios|, i, j);
      var a, b := order[i], order[j];
      if a < b { assert Compatible(ios[a], ios[b]); } else { assert Compatible(ios[b], ios[a]); }
    }
    ShuffledMultiset(ios, order, Range(|ios|));
    assert Shuffled(ios, Range(|ios|)) == ios;
  }
}
