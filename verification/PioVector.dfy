/** The vectored I/O executor and the in-memory storage client it runs on
    (src/fuse/PioV.cc, src/client/storage/StorageClientInMem.cc). */
module PioVector {
  import opened Prelude
  import opened Chunks
  import opened ChunkSplit
  import opened ChunkWrite
  import opened Stitch
  import opened StitchBatch
  import opened PioRead
  import opened PioBatch
  import opened PioStrict
  import opened PioWrite
  import opened PioWriteBatch

  const INVALID_ARG_STATUS: int := 3
  const NOT_FILE: int := 3010

  /** A random order of the indices below `n`. */
  method Shuffle(n: nat) returns (order: seq<int>)
    ensures IsOrder(order, n)
  {
    order := Range(n);
    var i := 0;
    while i < n
      invariant 0 <= i <= n && |order| == n
      invariant IsOrder(order, n)
    {
      var j: int := *;
      if i <= j < n { order := order[i := order[j]][j := order[i]]; }
      i := i + 1;
    }
  }

  class MemStorage {
    var st: Store

    constructor (st: Store)
      ensures this.st == st
    {
      this.st := st;
    }

    method Write(io: Io, bytes: seq<Byte>) returns (r: IoResult)
      requires 0 <= io.offset && |bytes| == io.length
      modifies this
      ensures r == WriteResult(old(st), io) && st == AfterWrite(old(st), io, bytes)
    {
      if io.offset + io.length > io.chunkSize { return Err(INVALID_ARG); }
      if io.key.chain in st.faulty { return Err(NOT_INITIALIZED); }
      var chunk := ChunkData([], io.chunkSize, 0);
      if io.key in st.chunks {
        chunk := st.chunks[io.key];
        if chunk.capacity != io.chunkSize { return Err(INVALID_ARG); }
      }
      if io.offset + io.length > |chunk.content| {
        chunk := chunk.(content := chunk.content + Zeros(io.offset + io.length - |chunk.content|));
      }
      chunk := chunk.(content := Overlay(chunk.content, io.offset, bytes));
      chunk := chunk.(version := chunk.version + 1);
      assert chunk.content == WrittenChunk(st, io, bytes).content;
      st := st.(chunks := st.chunks[io.key := chunk]);
      return Len(io.length);
    }

    /** Writes the pieces in a random order. */
    method BatchWrite(ios: seq<Io>, mem: array<Byte>) returns (results: array<IoResult>)
      requires ValidWrites(ios, mem.Length) && AllCompatible(ios)
      modifies this
      ensures fresh(results) && results[..] == WriteResults(old(st), ios)
      ensures st == WriteAll(old(st), ios, mem[..])
    {
      hide WriteAll, AfterWrite, WriteResult, AllCompatible;
      results := new IoResult[|ios|];
      var order := Shuffle(|ios|);
      OrderIndices(order, |ios|);
      ghost var shuffled := Shuffled(ios, order);
      ShuffleKeeps(ios, order, mem.Length);
      var i := 0;
      NothingWritten(st, mem[..]);
      while i < |order|
        invariant 0 <= i <= |order|
        invariant ValidWrites(shuffled[..i], mem.Length) && st == WriteAll(old(st), shuffled[..i], mem[..])
        invariant forall k :: 0 <= k < i ==> results[order[k]] == WriteResult(old(st), ios[order[k]])
      {
        var io := ios[order[i]];
        assert io == shuffled[i];
        StableInOrder(old(st), shuffled, i, mem[..]);
        var r := Write(io, mem[io.data..io.data + io.length]);
        results[order[i]] := r;
        NextWrite(old(st), shuffled, i, mem[..]);
        forall k | 0 <= k < i ensures order[k] != order[i] { OrderDistinct(order, |ios|, k, i); }
        i := i + 1;
      }
      assert shuffled[..i] == shuffled;
      AnyOrder(old(st), ios, shuffled, mem[..]);
      forall j | 0 <= j < |ios| ensures results[j] == WriteResult(old(st), ios[j]) {
        var k := OrderCovers(order, |ios|, j);
      }
    }
  }

  lemma OrderCovers(order: seq<int>, n: int, j: int) returns (k: int)
    requires IsOrder(order, n) && 0 <= j < n
    ensures 0 <= k < |order| && order[k] == j
  {
    assert Range(n)[j] == j;
    assert j in multiset(order);
    k :| 0 <= k < |order| && order[k] == j;
  }

  lemma StableInOrder(st: Store, ios: seq<Io>, i: int, mem: seq<Byte>)
    requires ValidWrites(ios, |mem|) && AllCompatible(ios) && 0 <= i < |ios|
    ensures ValidWrites(ios[..i], |mem|) && WriteResult(WriteAll(st, ios[..i], mem), ios[i]) == WriteResult(st, ios[i])
  {
    hide WriteAll, WriteResult;
    assert CompatibleWithAll(ios[i], ios[..i]);
    ResultStable(st, ios[..i], ios[i], mem);
  }

  lemma NextWrite(st: Store, ios: seq<Io>, i: int, mem: seq<Byte>)
    requires ValidWrites(ios, |mem|) && 0 <= i < |ios|
    ensures ValidWrites(ios[..i], |mem|) && ValidWrites(ios[..i + 1], |mem|)
    ensures WriteAll(st, ios[..i + 1], mem) == AfterWrite(WriteAll(st, ios[..i], mem), ios[i], WriteBytes(mem, ios[i]))
  {
    hide AfterWrite;
    assert ios[..i + 1][..i] == ios[..i];
  }

  class PioV {
    const storage: MemStorage
    const lim: int
    const res: array<int>
    var rios: seq<Io>
    var wios: seq<Io>
    var outcomes: seq<IoResult>

    constructor (storage: MemStorage, lim: int, res: array<int>)
      ensures this.storage == storage && this.lim == lim && this.res == res && rios == [] && wios == []
    {
      this.storage, this.lim, this.res := storage, lim, res;
      rios, wios, outcomes := [], [], [];
    }

    /** Pieces added before a chunk that cannot be addressed stay added. */
    method AddRead(idx: int, r: Request, isFile: bool) returns (error: Option<int>)
      requires 0 <= idx < res.Length && ValidRequest(r) && r.lookup.None?
      modifies this`rios, res
      ensures wios != [] ==> error == Some(INVALID_ARG_STATUS) && rios == old(rios) && res[..] == old(res[..])
      ensures wios == [] && !isFile ==> error == None && rios == old(rios) && res[..] == old(res[..])[idx := -NOT_FILE]
      ensures wios == [] && isFile ==>
        && error == PiecesOf(r, lim, idx).error && rios == old(rios) + PiecesOf(r, lim, idx).ios
        && res[..] == old(res[..])
    {
      if wios != [] { return Some(INVALID_ARG_STATUS); }
      if !isFile {
        res[idx] := -NOT_FILE;
        return None;
      }
      var pieces := ChunkIo(r.file, r.off, r.len, lim, r.buf, idx);
      rios := rios + pieces.ios;
      return pieces.error;
    }

    method AddWrite(idx: int, r: Request, isFile: bool) returns (error: Option<int>)
      requires 0 <= idx < res.Length && ValidRequest(r) && r.lookup.None?
      modifies this`wios, res
      ensures rios != [] ==> error == Some(INVALID_ARG_STATUS) && wios == old(wios) && res[..] == old(res[..])
      ensures rios == [] && !isFile ==> error == None && wios == old(wios) && res[..] == old(res[..])[idx := -NOT_FILE]
      ensures rios == [] && isFile ==>
        && error == PiecesOf(r, lim, idx).error && wios == old(wios) + PiecesOf(r, lim, idx).ios
        && res[..] == old(res[..])
    {
      if rios != [] { return Some(INVALID_ARG_STATUS); }
      if !isFile {
        res[idx] := -NOT_FILE;
        return None;
      }
      var pieces := ChunkIo(r.file, r.off, r.len, lim, r.buf, idx);
      wios := wios + pieces.ios;
      return pieces.error;
    }

    method ExecuteRead(mem: array<Byte>) returns (ok: bool)
      requires wios == [] && ValidIos(rios, mem.Length)
      modifies this`outcomes, mem
      ensures ok <==> Healthy(storage.st, rios)
      ensures ok ==>
        outcomes == ReadResults(storage.st, rios) && mem[..] == CopyIn(storage.st, rios, 0, |rios|, old(mem[..]))
    {
      if rios == [] {
        outcomes := [];
        return true;
      }
      ok, outcomes := BatchRead(storage.st, rios, mem);
    }

    method ExecuteWrite(mem: array<Byte>)
      requires rios == [] && ValidWrites(wios, mem.Length) && AllCompatible(wios)
      modifies this`outcomes, storage
      ensures outcomes == WriteResults(old(storage.st), wios) && storage.st == WriteAll(old(storage.st), wios, mem[..])
    {
      if wios == [] {
        outcomes := [];
        NothingWritten(storage.st, mem[..]);
        return;
      }
      var results := storage.BatchWrite(wios, mem);
      outcomes := results[..];
    }

    method FinishIo(allowHoles: bool, mem: array<Byte>)
      requires wios == [] || rios == []
      requires var ios := if wios == [] then rios else wios;
        && WellFormed(ios, outcomes, res.Length) && InMemory(ios, mem.Length)
        && forall k :: 0 <= k < |outcomes| ==> outcomes[k].Len? ==> 0 <= outcomes[k].n
      modifies res, mem
      ensures var read := wios == [];
        var ios := if read then rios else wios;
        var final := Scanned(read, read && allowHoles, ios, outcomes, 0, |ios|, Start(old(res[..]), old(mem[..])));
        res[..] == final.res && mem[..] == final.mem
    {
      if wios == [] {
        ConcatIoRes(true, res, rios, outcomes, allowHoles, mem);
      } else {
        ConcatIoRes(false, res, wios, outcomes, false, mem);
      }
    }
  }

  // ---------- a batch, as the ring runs it ----------

  method AddReads(exec: PioV, reqs: seq<Request>)
    requires ValidRequests(reqs) && exec.res.Length == |reqs| && exec.rios == [] && exec.wios == []
    requires forall j :: 0 <= j < |reqs| ==> exec.res[j] == 0
    modifies exec`rios, exec.res
    ensures exec.rios == Pieced(reqs, exec.lim, |reqs|) && exec.res[..] == Presets(reqs)
  {
    hide Failure, Served, Split;
    var i := 0;
    while i < |reqs|
      invariant 0 <= i <= |reqs|
      invariant exec.rios == Pieced(reqs, exec.lim, i)
      invariant forall j :: 0 <= j < |reqs| ==> exec.res[j] == if j < i then Preset(reqs[j]) else 0
    {
      var error := reqs[i].lookup;
      RequestTiles(reqs[i], exec.lim, i);
      if error.None? { error := exec.AddRead(i, reqs[i], true); }
      if error.Some? { exec.res[i] := -error.value; }
      i := i + 1;
    }
  }

  method AddWrites(exec: PioV, reqs: seq<Request>)
    requires ValidRequests(reqs) && exec.res.Length == |reqs| && exec.rios == [] && exec.wios == []
    requires forall j :: 0 <= j < |reqs| ==> exec.res[j] == 0
    modifies exec`wios, exec.res
    ensures exec.wios == Pieced(reqs, exec.lim, |reqs|) && exec.res[..] == Presets(reqs)
  {
    hide Failure, Served, Split;
    var i := 0;
    while i < |reqs|
      invariant 0 <= i <= |reqs|
      invariant exec.wios == Pieced(reqs, exec.lim, i)
      invariant forall j :: 0 <= j < |reqs| ==> exec.res[j] == if j < i then Preset(reqs[j]) else 0
    {
      var error := reqs[i].lookup;
      RequestTiles(reqs[i], exec.lim, i);
      if error.None? { error := exec.AddWrite(i, reqs[i], true); }
      if error.Some? { exec.res[i] := -error.value; }
      i := i + 1;
    }
  }

  method FailAll(res: array<int>, failure: int)
    requires 0 < failure
    modifies res
    ensures forall j :: 0 <= j < res.Length ==> res[j] == if old(res[j]) >= 0 then -failure else old(res[j])
  {
    var i := 0;
    while i < res.Length
      invariant 0 <= i <= res.Length
      invariant forall j :: 0 <= j < res.Length ==>
        res[j] == if j < i && old(res[j]) >= 0 then -failure else old(res[j])
    {
      if res[i] >= 0 { res[i] := -failure; }
      i := i + 1;
    }
  }

  /** Adds, executes and finishes a batch of reads; an execution that fails as a whole fails every request that had not
      failed before. `ReadCounts` and `ReadBytesRight`, or `StrictReads`, say what the outcome means. */
  method ProcessReads(storage: MemStorage, reqs: seq<Request>, lim: int, allowHoles: bool, mem: array<Byte>,
                      failure: int)
    returns (res: array<int>)
    requires ValidRequests(reqs) && InBounds(reqs, mem.Length) && 0 < failure
    modifies mem
    ensures fresh(res) && res.Length == |reqs|
    ensures Healthy(storage.st, Pieced(reqs, lim, |reqs|)) ==>
      var final :=
        if allowHoles then ReadOutcome(storage.st, reqs, lim, old(mem[..]))
        else StrictOutcome(storage.st, reqs, lim, old(mem[..]));
      res[..] == final.res && mem[..] == final.mem
    ensures !Healthy(storage.st, Pieced(reqs, lim, |reqs|)) ==>
      forall j :: 0 <= j < |reqs| ==> res[j] == if Preset(reqs[j]) < 0 then Preset(reqs[j]) else -failure
  {
    hide Scanned, CopyIn, Pieced, Preset;
    PiecedValid(reqs, lim, |reqs|, mem.Length);
    res := new int[|reqs|](_ => 0);
    var exec := new PioV(storage, lim, res);
    AddReads(exec, reqs);
    var ok := exec.ExecuteRead(mem);
    if ok {
      ReadOutcomes(storage.st, exec.rios, mem.Length);
      exec.FinishIo(allowHoles, mem);
    } else {
      FailAll(res, failure);
    }
  }

  /** Adds, executes and finishes a batch of writes to separate ranges. `WriteCounts` and `BatchWritten` say what the
      outcome means. */
  method ProcessWrites(storage: MemStorage, reqs: seq<Request>, lim: int, mem: array<Byte>) returns (res: array<int>)
    requires ValidRequests(reqs) && InBounds(reqs, mem.Length) && AllIndependent(reqs)
    modifies storage, mem
    ensures fresh(res) && mem[..] == old(mem[..])
    ensures res[..] == WriteOutcome(old(storage.st), reqs, lim, mem[..]).res
    ensures ValidWrites(Pieced(reqs, lim, |reqs|), mem.Length)
    ensures storage.st == WriteAll(old(storage.st), Pieced(reqs, lim, |reqs|), mem[..])
  {
    hide Scanned, Pieced, Preset, WriteAll, AllCompatible, Batch;
    PiecedValid(reqs, lim, |reqs|, mem.Length);
    PiecedWrites(reqs, lim, mem.Length);
    PiecedCompatible(reqs, lim, |reqs|);
    res := new int[|reqs|](_ => 0);
    var exec := new PioV(storage, lim, res);
    AddWrites(exec, reqs);
    exec.ExecuteWrite(mem);
    WriteSetting(old(storage.st), reqs, lim, mem[..]);
    WriteLeavesMemory(old(storage.st), reqs, lim, mem[..]);
    if exec.wios == [] { NothingScanned(Presets(reqs), mem[..]); }
    exec.FinishIo(true, mem);
  }

  lemma NothingScanned(presets: seq<int>, mem: seq<Byte>)
    ensures Scanned(true, true, [], [], 0, 0, Start(presets, mem)) == Start(presets, mem)
         == Scanned(false, false, [], [], 0, 0, Start(presets, mem))
  {
  }
}
