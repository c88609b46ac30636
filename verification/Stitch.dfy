/** Stitching the results of chunk pieces back into one result per request
    (src/fuse/PioV.cc, concatIoRes). */
module Stitch {
  import opened Prelude
  import opened Chunks

  const HOLE_IN_IO_OUTCOME: int := 8001

  /** The locals of the scan, the results per request and the memory the buffers live in. */
  datatype Scan = Scan(
    res: seq<int>, mem: seq<Byte>, lastCtx: int,
    inHole: bool, holeIo: Option<int>, holeOff: int, holeSize: int)

  function Start(res: seq<int>, mem: seq<Byte>): Scan {
    Scan(res, mem, -1, false, Some(0), 0, 0)
  }

  predicate WellFormed(ios: seq<Io>, results: seq<IoResult>, n: int) {
    && |ios| == |results|
    && forall k :: 0 <= k < |ios| ==> 0 <= ios[k].ctx < n
  }

  /** `memset` to zero of the addresses from `from` up to `to`. */
  function Fill(mem: seq<Byte>, from: int, to: int): (r: seq<Byte>)
    ensures |r| == |mem|
    ensures forall x :: 0 <= x < |mem| ==> r[x] == if from <= x < to then 0 else mem[x]
  {
    seq(|mem|, x requires 0 <= x < |mem| => if from <= x < to then 0 else mem[x])
  }

  /** Zero the buffers of the pieces from `j` up to `i`. */
  function FillPieces(mem: seq<Byte>, ios: seq<Io>, j: int, i: int): (r: seq<Byte>)
    requires 0 <= j && i <= |ios|
    ensures |r| == |mem|
    decreases i - j
  {
    if j >= i then mem
    else FillPieces(Fill(mem, ios[j].data, ios[j].data + ios[j].length), ios, j + 1, i)
  }

  function FillHole(mem: seq<Byte>, ios: seq<Io>, h: int, holeOff: int, i: int): (r: seq<Byte>)
    requires 0 <= h < |ios| && i <= |ios|
    ensures |r| == |mem|
  {
    FillPieces(Fill(mem, ios[h].data + holeOff, ios[h].data + ios[h].length), ios, h + 1, i)
  }

  /** How many bytes a piece transferred. */
  function Got(r: IoResult): int { if r.Len? then r.n else 0 }

  /** An outcome that fails the request: any error, except a missing chunk on a read. */
  predicate HardError(read: bool, r: IoResult) { r.Err? && !(read && r.code == CHUNK_NOT_FOUND) }

  /** The first half of a turn: close or keep the hole, or take over an error. */
  function Absorb(read: bool, allowHoles: bool, ios: seq<Io>, r: IoResult, i: int, s: Scan): (s': Scan)
    requires 0 <= i < |ios| && 0 <= ios[i].ctx < |s.res|
    ensures |s'.res| == |s.res| && |s'.mem| == |s.mem|
  {
    var ctx := ios[i].ctx;
    if r.Len? then
      if r.n > 0 && s.inHole && s.lastCtx == ctx then
        if read && allowHoles then
          s.(mem := if s.holeIo.Some? && 0 <= s.holeIo.value < |ios|
                    then FillHole(s.mem, ios, s.holeIo.value, s.holeOff, i) else s.mem,
             res := s.res[ctx := s.res[ctx] + s.holeSize], inHole := false, holeIo := None)
        else
          s.(res := s.res[ctx := -HOLE_IN_IO_OUTCOME])
      else if s.lastCtx != ctx then
        s.(inHole := false, holeIo := None)
      else s
    else if HardError(read, r) && s.res[ctx] >= 0 then
      s.(res := s.res[ctx := -r.code])
    else s
  }

  /** The second half: open or extend a hole when the piece came up short, and count its bytes. */
  function Account(io: Io, got: int, i: int, s: Scan): (s': Scan)
    requires 0 <= io.ctx < |s.res|
    ensures |s'.res| == |s.res| && |s'.mem| == |s.mem|
  {
    if s.res[io.ctx] < 0 then s.(lastCtx := io.ctx)
    else
      var s1 :=
        if got >= io.length then s
        else if s.holeIo.None? then s.(inHole := true, holeIo := Some(i), holeOff := got, holeSize := io.length - got)
        else s.(inHole := true, holeSize := s.holeSize + io.length - got);
      s1.(res := s1.res[io.ctx := s1.res[io.ctx] + got], lastCtx := io.ctx)
  }

  function Turn(read: bool, allowHoles: bool, ios: seq<Io>, r: IoResult, i: int, s: Scan): (s': Scan)
    requires 0 <= i < |ios| && 0 <= ios[i].ctx < |s.res|
    ensures |s'.res| == |s.res| && |s'.mem| == |s.mem|
  {
    Account(ios[i], Got(r), i, Absorb(read, allowHoles, ios, r, i, s))
  }

  /** The scan over the pieces from `a` up to `b`. */
  function Scanned(read: bool, allowHoles: bool, ios: seq<Io>, results: seq<IoResult>, a: int, b: int,
                   s: Scan): (s': Scan)
    requires WellFormed(ios, results, |s.res|) && 0 <= a <= b <= |ios|
    ensures |s'.res| == |s.res| && |s'.mem| == |s.mem|
    decreases b - a
  {
    if a == b then s
    else Turn(read, allowHoles, ios, results[b - 1], b - 1, Scanned(read, allowHoles, ios, results, a, b - 1, s))
  }

  lemma NoTurn(read: bool, allowHoles: bool, ios: seq<Io>, results: seq<IoResult>, a: int, s: Scan)
    requires WellFormed(ios, results, |s.res|) && 0 <= a <= |ios|
    ensures Scanned(read, allowHoles, ios, results, a, a, s) == s
  {
  }

  lemma LastTurn(read: bool, allowHoles: bool, ios: seq<Io>, results: seq<IoResult>, a: int, b: int, s: Scan)
    requires WellFormed(ios, results, |s.res|) && 0 <= a < b <= |ios|
    ensures Scanned(read, allowHoles, ios, results, a, b, s)
         == Turn(read, allowHoles, ios, results[b - 1], b - 1, Scanned(read, allowHoles, ios, results, a, b - 1, s))
  {
  }

  lemma AbsorbHole(read: bool, allowHoles: bool, ios: seq<Io>, r: IoResult, i: int, s: Scan)
    requires 0 <= i < |ios| && 0 <= ios[i].ctx < |s.res|
    ensures var s' := Absorb(read, allowHoles, ios, r, i, s);
      && ((s'.holeIo == s.holeIo && s'.inHole == s.inHole) || (s'.holeIo == None && !s'.inHole))
      && s'.holeOff == s.holeOff && s'.holeSize == s.holeSize && s'.lastCtx == s.lastCtx
  {
  }

  // ---------- the loop itself ----------

  method Memset(mem: array<Byte>, at: int, n: int)
    requires 0 <= at && 0 <= n && at + n <= mem.Length
    modifies mem
    ensures mem[..] == Fill(old(mem[..]), at, at + n)
  {
    var x := at;
    while x < at + n
      invariant at <= x <= at + n
      invariant forall y :: 0 <= y < mem.Length ==> mem[y] == if at <= y < x then 0 else old(mem[y])
    {
      mem[x] := 0;
      x := x + 1;
    }
  }

  /** Every buffer lies in the memory. */
  predicate InMemory(ios: seq<Io>, size: int) {
    forall k :: 0 <= k < |ios| ==> 0 <= ios[k].data && 0 <= ios[k].length && ios[k].data + ios[k].length <= size
  }

  method FillHoleInPlace(mem: array<Byte>, ios: seq<Io>, h: int, holeOff: int, i: int)
    requires InMemory(ios, mem.Length) && 0 <= h < |ios| && i <= |ios| && 0 <= holeOff <= ios[h].length
    modifies mem
    ensures mem[..] == FillHole(old(mem[..]), ios, h, holeOff, i)
  {
    Memset(mem, ios[h].data + holeOff, ios[h].length - holeOff);
    var j := h + 1;
    while j < i
      invariant h + 1 <= j
      invariant FillPieces(mem[..], ios, j, i) == FillHole(old(mem[..]), ios, h, holeOff, i)
    {
      Memset(mem, ios[j].data, ios[j].length);
      j := j + 1;
    }
  }

  /** The first half of the loop body. */
  method AbsorbResult(read: bool, res: array<int>, ios: seq<Io>, r: IoResult, allowHoles: bool, mem: array<Byte>,
                      i: int, lastCtx: int, inHole: bool, holeIo: Option<int>, holeOff: int, holeSize: int)
    returns (inHole': bool, holeIo': Option<int>)
    requires InMemory(ios, mem.Length) && 0 <= i < |ios| && 0 <= ios[i].ctx < res.Length
    requires inHole ==> holeIo.Some? && 0 <= holeIo.value < |ios| && 0 <= holeOff <= ios[holeIo.value].length
    modifies res, mem
    ensures Scan(res[..], mem[..], lastCtx, inHole', holeIo', holeOff, holeSize)
         == Absorb(read, allowHoles, ios, r, i,
                   Scan(old(res[..]), old(mem[..]), lastCtx, inHole, holeIo, holeOff, holeSize))
  {
    hide FillHole;
    var ctx := ios[i].ctx;
    inHole', holeIo' := inHole, holeIo;
    if r.Len? {
      if r.n > 0 && inHole && lastCtx == ctx {
        if read && allowHoles {
          FillHoleInPlace(mem, ios, holeIo.value, holeOff, i);
          res[ctx] := res[ctx] + holeSize;
          inHole', holeIo' := false, None;
        } else {
          res[ctx] := -HOLE_IN_IO_OUTCOME;
        }
      } else if lastCtx != ctx {
        inHole', holeIo' := false, None;
      }
    } else if !(read && r.code == CHUNK_NOT_FOUND) {
      if res[ctx] >= 0 { res[ctx] := -r.code; }
    }
  }

  /** The second half of the loop body. */
  method AccountResult(res: array<int>, io: Io, iolen: int, i: int, inHole: bool, holeIo: Option<int>, holeOff: int,
                       holeSize: int,
                       ghost mem: seq<Byte>, ghost lastCtx: int)
    returns (inHole': bool, holeIo': Option<int>, holeOff': int, holeSize': int)
    requires 0 <= io.ctx < res.Length
    modifies res
    ensures Scan(res[..], mem, io.ctx, inHole', holeIo', holeOff', holeSize')
         == Account(io, iolen, i, Scan(old(res[..]), mem, lastCtx, inHole, holeIo, holeOff, holeSize))
  {
    inHole', holeIo', holeOff', holeSize' := inHole, holeIo, holeOff, holeSize;
    if res[io.ctx] >= 0 {
      if iolen < io.length {
        inHole' := true;
        if holeIo.None? {
          holeIo', holeOff', holeSize' := Some(i), iolen, 0;
        }
        holeSize' := holeSize' + (io.length - iolen);
      }
      res[io.ctx] := res[io.ctx] + iolen;
    }
  }

  lemma AccountHole(io: Io, got: int, i: int, s: Scan)
    requires 0 <= io.ctx < |s.res|
    ensures var s' := Account(io, got, i, s);
      && (s'.inHole ==> s'.holeIo.Some? || s.inHole)
      && ((s'.holeIo == s.holeIo && s'.holeOff == s.holeOff) || (s'.holeIo == Some(i) && s'.holeOff == got < io.length))
  {
  }

  method ConcatIoRes(read: bool, res: array<int>, ios: seq<Io>, results: seq<IoResult>, allowHoles: bool,
                     mem: array<Byte>)
    requires WellFormed(ios, results, res.Length) && InMemory(ios, mem.Length)
    requires forall k :: 0 <= k < |results| ==> results[k].Len? ==> 0 <= results[k].n
    modifies res, mem
    ensures var final := Scanned(read, allowHoles, ios, results, 0, |ios|, Start(old(res[..]), old(mem[..])));
      res[..] == final.res && mem[..] == final.mem
  {
    hide Scanned, Absorb, Account;
    ghost var start := Start(res[..], mem[..]);
    var lastCtx, inHole, holeIo, holeOff, holeSize := -1, false, Some(0), 0, 0;
    var i := 0;
    NoTurn(read, allowHoles, ios, results, 0, start);
    while i < |ios|
      invariant 0 <= i <= |ios|
      invariant inHole ==> holeIo.Some?
      invariant holeIo.Some? && 0 < i ==> 0 <= holeIo.value < i && 0 <= holeOff <= ios[holeIo.value].length
      invariant holeIo.Some? && i == 0 ==> holeIo.value == 0 && holeOff == 0
      invariant Scan(res[..], mem[..], lastCtx, inHole, holeIo, holeOff, holeSize)
             == Scanned(read, allowHoles, ios, results, 0, i, start)
    {
      var io, r := ios[i], results[i];
      ghost var s := Scanned(read, allowHoles, ios, results, 0, i, start);
      inHole, holeIo := AbsorbResult(read, res, ios, r, allowHoles, mem, i, lastCtx, inHole, holeIo, holeOff, holeSize);
      ghost var s1 := Scan(res[..], mem[..], lastCtx, inHole, holeIo, holeOff, holeSize);
      AbsorbHole(read, allowHoles, ios, r, i, s);
      inHole, holeIo, holeOff, holeSize :=
        AccountResult(res, io, Got(r), i, inHole, holeIo, holeOff, holeSize, mem[..], lastCtx);
      AccountHole(io, Got(r), i, s1);
      lastCtx := io.ctx;
      i := i + 1;
      LastTurn(read, allowHoles, ios, results, 0, i, start);
    }
  }
}
