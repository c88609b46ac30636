/** Splitting large reads and merging their results, and the overlap check on read and write buffers
    (src/client/storage/StorageClientImpl.cc). */
module SplitRead {
  import opened Prelude
  import opened Chunks

  // ---------- splitting ----------

  datatype ReadPiece = ReadPiece(offset: int, length: int, data: int)

  function AlignLower(x: int, a: int): (r: int)
    requires 0 <= x && 0 < a
    ensures r <= x < r + a && 0 <= r
  {
    x / a * a
  }

  /** A read cut at the multiples of `max`. */
  function Splits(offset: int, length: int, data: int, max: int): seq<ReadPiece>
    requires 0 <= offset && 0 <= length && 0 < max
    decreases length
  {
    if length == 0 then []
    else
      var n := Min(AlignLower(offset, max) + max - offset, length);
      [ReadPiece(offset, n, data)] + Splits(offset + n, length - n, data + n, max)
  }

  /** The pieces cover the range and its buffer in order and without gaps, and none crosses a multiple of `max`. */
  ghost predicate TilesRead(pieces: seq<ReadPiece>, offset: int, length: int, data: int, max: int)
    requires 0 < max
    decreases |pieces|
  {
    if pieces == [] then length == 0
    else
      var p := pieces[0];
      && p.offset == offset && p.data == data && 0 < p.length <= length && 0 <= p.offset
      && AlignLower(p.offset, max) == AlignLower(p.offset + p.length - 1, max)
      && TilesRead(pieces[1..], offset + p.length, length - p.length, data + p.length, max)
  }

  lemma SameBlock(x: int, y: int, a: int)
    requires 0 < a && 0 <= x <= y < AlignLower(x, a) + a
    ensures AlignLower(y, a) == AlignLower(x, a)
  {
    DivUnique(a, x / a, y - x / a * a, y / a, y % a);
  }

  lemma {:induction false} SplitsTile(offset: int, length: int, data: int, max: int)
    requires 0 <= offset && 0 <= length && 0 < max
    ensures TilesRead(Splits(offset, length, data, max), offset, length, data, max)
    decreases length
  {
    hide AlignLower;
    if length > 0 {
      var n := Min(AlignLower(offset, max) + max - offset, length);
      SameBlock(offset, offset + n - 1, max);
      SplitsTile(offset + n, length - n, data + n, max);
    }
  }

  /** The loop. */
  method SplitReadIO(offset: int, length: int, data: int, max: int) returns (pieces: seq<ReadPiece>)
    requires 0 <= offset && 0 <= length && 0 < max
    ensures pieces == Splits(offset, length, data, max)
  {
    hide AlignLower;
    pieces := [];
    var off, len := offset, length;
    while len > 0
      invariant offset <= off && 0 <= len && off + len == offset + length
      invariant pieces + Splits(off, len, data + (off - offset), max) == Splits(offset, length, data, max)
    {
      var ioEnd := AlignLower(off, max) + max;
      var ioLen := Min(ioEnd - off, len);
      pieces := pieces + [ReadPiece(off, ioLen, data + (off - offset))];
      off := off + ioLen;
      len := len - ioLen;
    }
  }

  // ---------- merging ----------

  /** The first error, or the sum of the lengths; without pieces the result stays unset. */
  function Merged(results: seq<IoResult>): IoResult {
    if results == [] then Err(NOT_INITIALIZED) else Summed(results)
  }

  function Summed(results: seq<IoResult>): IoResult {
    if results == [] then Len(0)
    else if results[0].Err? then results[0]
    else
      var rest := Summed(results[1..]);
      if rest.Err? then rest else Len(results[0].n + rest.n)
  }

  method MergeResults(results: seq<IoResult>) returns (r: IoResult)
    ensures r == Merged(results)
  {
    r := Err(NOT_INITIALIZED);
    var i := 0;
    while i < |results|
      invariant 0 <= i <= |results|
      invariant i == 0 ==> r == Err(NOT_INITIALIZED)
      invariant i > 0 ==> r.Len? && Summed(results) == Plus(r.n, Summed(results[i..]))
    {
      if results[i].Err? { return results[i]; }
      r := if i == 0 then results[i] else Len(r.n + results[i].n);
      i := i + 1;
    }
  }

  function Plus(n: int, r: IoResult): IoResult { if r.Err? then r else Len(n + r.n) }

  /** What one read of a chunk returns: an error, or what the chunk holds of the range. */
  datatype ChunkState = Unreadable(code: int) | Holds(content: seq<Byte>)

  function ReadOf(c: ChunkState, offset: int, length: int): IoResult {
    if c.Unreadable? then Err(c.code) else Len(ReadLength(c.content, offset, length))
  }

  function ReadPieces(c: ChunkState, pieces: seq<ReadPiece>): seq<IoResult> {
    if pieces == [] then [] else [ReadOf(c, pieces[0].offset, pieces[0].length)] + ReadPieces(c, pieces[1..])
  }

  lemma {:induction false} PiecesAddUp(c: ChunkState, pieces: seq<ReadPiece>, offset: int, length: int, data: int,
                                       max: int)
    requires 0 < max && 0 <= offset && TilesRead(pieces, offset, length, data, max)
    ensures Summed(ReadPieces(c, pieces)) == if pieces == [] then Len(0) else ReadOf(c, offset, length)
    decreases |pieces|
  {
    hide AlignLower;
    if pieces != [] {
      var p := pieces[0];
      assert ReadPieces(c, pieces)[1..] == ReadPieces(c, pieces[1..]);
      PiecesAddUp(c, pieces[1..], offset + p.length, length - p.length, data + p.length, max);
    }
  }

  /** Splitting a read does not change its result, whatever the chunk holds, exactly when the read is not empty. */
  lemma SplitIsInvisible(c: ChunkState, offset: int, length: int, data: int, max: int)
    requires 0 <= offset && 0 <= length && 0 < max && (c.Unreadable? ==> c.code != NOT_INITIALIZED)
    ensures Merged(ReadPieces(c, Splits(offset, length, data, max))) == ReadOf(c, offset, length) <==> length > 0
  {
    hide AlignLower;
    SplitsTile(offset, length, data, max);
    PiecesAddUp(c, Splits(offset, length, data, max), offset, length, data, max);
  }

  // ---------- the overlap check ----------

  /** The data of an IO, and whether it lies in its registered buffer. */
  datatype DataRange = DataRange(id: int, data: int, length: int, inBuffer: bool)

  function DataEnd(r: DataRange): int { r.data + r.length }

  predicate ByAddress(ios: seq<DataRange>) { forall i :: 0 < i < |ios| ==> Before(ios[i - 1], ios[i]) }

  predicate Before(a: DataRange, b: DataRange) { a.data <= b.data }

  /** No IO starts inside another one. */
  predicate Separate(ios: seq<DataRange>) { forall i, j :: 0 <= i < j < |ios| ==> DataEnd(ios[i]) <= ios[j].data }

  predicate Neighbours(ios: seq<DataRange>, n: int)
    requires n <= |ios|
  {
    forall i :: 0 < i < n ==> Clear(ios[i - 1], ios[i])
  }

  predicate Clear(a: DataRange, b: DataRange) { DataEnd(a) <= b.data }

  /** Comparing neighbours after sorting compares everything. */
  lemma {:induction false} NeighboursSuffice(ios: seq<DataRange>, i: int, j: int)
    requires 0 <= i < j < |ios| && Neighbours(ios, |ios|) && forall k :: 0 <= k < |ios| ==> 0 <= ios[k].length
    ensures DataEnd(ios[i]) <= ios[j].data
    decreases j
  {
    assert Clear(ios[j - 1], ios[j]);
    if i < j - 1 { NeighboursSuffice(ios, i, j - 1); }
  }

  /** Two ranges share no byte. */
  predicate Apart(a: DataRange, b: DataRange) { DataEnd(a) <= b.data || DataEnd(b) <= a.data }

  /** An empty range is sorted behind a non-empty one that starts at the same address. */
  predicate EmptyBehind(a: DataRange, b: DataRange) { a.data == b.data && 0 < a.length && b.length == 0 }

  /** In address order, ranges are separate exactly when no two share a byte and no empty range is sorted behind a
      non-empty one at the same address. */
  lemma SeparateIff(ios: seq<DataRange>)
    requires ByAddress(ios) && forall k :: 0 <= k < |ios| ==> 0 <= ios[k].length
    ensures Separate(ios) <==>
      forall i, j :: 0 <= i < j < |ios| ==> Apart(ios[i], ios[j]) && !EmptyBehind(ios[i], ios[j])
  {
    forall i, j | 0 <= i < j < |ios| ensures ios[i].data <= ios[j].data { InOrder(ios, i, j); }
    if forall i, j :: 0 <= i < j < |ios| ==> Apart(ios[i], ios[j]) && !EmptyBehind(ios[i], ios[j]) {
      forall i, j | 0 <= i < j < |ios| ensures DataEnd(ios[i]) <= ios[j].data {
        assert Apart(ios[i], ios[j]) && !EmptyBehind(ios[i], ios[j]);
      }
    }
  }

  lemma {:induction false} InOrder(ios: seq<DataRange>, i: int, j: int)
    requires 0 <= i < j < |ios| && ByAddress(ios)
    ensures ios[i].data <= ios[j].data
    decreases j
  {
    assert Before(ios[j - 1], ios[j]);
    if i < j - 1 { InOrder(ios, i, j - 1); }
  }

  /** Whether an empty range at the start of another one is accepted depends on the order the sort leaves ties in. */
  lemma TieOrderMatters()
    ensures var empty, full := DataRange(0, 8, 0, true), DataRange(1, 8, 4, true);
      && ByAddress([empty, full]) && ByAddress([full, empty]) && Apart(empty, full)
      && Separate([empty, full]) && !Separate([full, empty])
  {
    var empty, full := DataRange(0, 8, 0, true), DataRange(1, 8, 4, true);
    assert [full, empty][0] == full && [full, empty][1] == empty;
    assert Before(empty, full) && Before(full, empty);
  }

  method SetErrorCodeOfOps(status: array<int>, code: int)
    modifies status
    ensures forall k :: 0 <= k < status.Length ==> status[k] == code
  {
    var k := 0;
    while k < status.Length
      invariant 0 <= k <= status.Length && forall j :: 0 <= j < k ==> status[j] == code
    {
      status[k] := code;
      k := k + 1;
    }
  }

  /** `sorted` is what the library's sort returns, and `status` holds the codes of the IOs. Accepted ranges are
      returned in the order of the sort; if any is not, all get an error. */
  method ValidateDataRange(ios: seq<DataRange>, checkOverlap: bool, sorted: seq<DataRange>, status: array<int>)
    returns (valid: Option<seq<DataRange>>)
    requires multiset(sorted) == multiset(ios) && (if checkOverlap then ByAddress(sorted) else sorted == ios)
    requires forall k :: 0 <= k < |sorted| ==> 0 <= sorted[k].length
    modifies status
    ensures valid.Some? <==>
      && (forall k :: 0 <= k < |sorted| ==> sorted[k].inBuffer)
      && (checkOverlap ==>
            forall i, j :: 0 <= i < j < |sorted| ==> Apart(sorted[i], sorted[j]) && !EmptyBehind(sorted[i], sorted[j]))
    ensures valid.Some? ==> valid.value == sorted && status[..] == old(status[..])
    ensures valid.None? ==> forall k :: 0 <= k < status.Length ==> status[k] == INVALID_ARG
  {
    var i := 0;
    while i < |sorted|
      invariant 0 <= i <= |sorted| && status[..] == old(status[..])
      invariant forall k :: 0 <= k < i ==> sorted[k].inBuffer
      invariant checkOverlap ==> Neighbours(sorted, i)
    {
      if !sorted[i].inBuffer || (checkOverlap && i > 0 && sorted[i].data < DataEnd(sorted[i - 1])) {
        if checkOverlap { SeparateIff(sorted); }
        SetErrorCodeOfOps(status, INVALID_ARG);
        return None;
      }
      i := i + 1;
    }
    if checkOverlap {
      forall i, j | 0 <= i < j < |sorted| ensures DataEnd(sorted[i]) <= sorted[j].data {
        NeighboursSuffice(sorted, i, j);
      }
      SeparateIff(sorted);
    }
    valid := Some(sorted);
  }
}
