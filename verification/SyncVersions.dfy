/** The write, sync and fsync versions of an open file, with metadata calls in flight
    (src/fuse/FuseClients.h, src/fuse/FuseOps.cc). */
module SyncVersions {
  import opened Prelude

  datatype VersionedLength = VersionedLength(length: int, truncateVer: int)

  /** Unknown absorbs; otherwise the longer one wins. */
  function MergeHint(h1: Option<VersionedLength>, h2: Option<VersionedLength>): Option<VersionedLength> {
    if h1.None? || h2.None? then None else if h1.value.length >= h2.value.length then h1 else h2
  }

  /** `written` counts finished writes; `synced` and `fsynced` are the counts known to the metadata service. */
  datatype Attr = Attr(
    written: int, synced: int, fsynced: int, truncateVer: int, hint: Option<VersionedLength>, dynStripe: int)

  /** What a metadata call returns about the file. */
  datatype Meta = Meta(truncateVer: int, dynStripe: int)

  function Updated(a: Attr, m: Meta, syncver: int, fsync: bool): Attr {
    var synced := Max(a.synced, syncver);
    Attr(a.written, synced, if fsync then Max(a.fsynced, syncver) else a.fsynced,
         Max(a.truncateVer, m.truncateVer),
         if a.written == synced then Some(VersionedLength(0, 0)) else a.hint,
         m.dynStripe)
  }

  /** The end of a write, unless it failed; `ret` is the number of bytes written or negative. */
  function EndOf(offset: int, ret: int): Option<int> {
    if ret < 0 then None else Some(if ret != 0 then offset + ret else 0)
  }

  function WriteFinished(a: Attr, truncateVer: int, offset: int, ret: int): Attr {
    var newHint := if ret >= 0 then Some(VersionedLength(if ret != 0 then offset + ret else 0, truncateVer)) else None;
    a.(written := a.written + 1, hint := MergeHint(a.hint, newHint))
  }

  class DynamicAttr {
    var written: int
    var synced: int
    var fsynced: int
    var truncateVer: int
    var hintLength: Option<VersionedLength>
    var dynStripe: int

    ghost function Value(): Attr
      reads this
    {
      Attr(written, synced, fsynced, truncateVer, hintLength, dynStripe)
    }

    constructor (m: Meta)
      ensures Value() == Opened(m)
    {
      written, synced, fsynced := 0, 0, 0;
      truncateVer, hintLength, dynStripe := m.truncateVer, Some(VersionedLength(0, m.truncateVer)), m.dynStripe;
    }

    method Update(m: Meta, syncver: int, fsync: bool)
      modifies this
      ensures Value() == Updated(old(Value()), m, syncver, fsync)
    {
      synced := Max(synced, syncver);
      if written == synced { hintLength := Some(VersionedLength(0, 0)); }
      if fsync { fsynced := Max(fsynced, syncver); }
      truncateVer := Max(truncateVer, m.truncateVer);
      dynStripe := m.dynStripe;
    }

    method FinishWrite(truncateVer: int, offset: int, ret: int)
      modifies this
      ensures Value() == WriteFinished(old(Value()), truncateVer, offset, ret)
    {
      var newHint := None;
      if ret >= 0 { newHint := Some(VersionedLength(if ret != 0 then offset + ret else 0, truncateVer)); }
      written := written + 1;
      hintLength := MergeHint(hintLength, newHint);
    }

    method ClearHintLength()
      modifies this
      ensures Value() == old(Value()).(hint := None)
    {
      hintLength := None;
    }
  }

  function Opened(m: Meta): Attr {
    Attr(0, 0, 0, m.truncateVer, Some(VersionedLength(0, m.truncateVer)), m.dynStripe)
  }

  // ---------- the protocol ----------

  datatype SyncType = Lookup | GetAttr | PeriodSync | Fsync | ForceFsync

  /** A call in flight, with what it read under the lock: the version to commit (0 commits none), whether it counts as
      an fsync, and the length it tells the service (None: the service works it out). */
  datatype Call = Call(writever: int, commit: int, fsync: bool, hint: Option<VersionedLength>)

  /** `ends` and `succeeded` are history: the ends of the finished writes, and the calls that succeeded. */
  datatype State = State(attr: Attr, calls: seq<Option<Call>>, ends: seq<Option<int>>, succeeded: seq<Call>)

  datatype Step =
    | FinishWrite(truncateVer: int, offset: int, ret: int)
    | StartSync(kind: SyncType, lengthHint: bool)
    | StartClose
    | StartTruncate
    | CallSucceeds(i: int, m: Meta)
    | CallFails(i: int)
    | StripeExtended(m: Meta)

  function Init(m: Meta): State { State(Opened(m), [], [], []) }

  predicate IsFsync(kind: SyncType) { kind == Fsync || kind == ForceFsync }

  /** The version `sync` compares with the number of writes. */
  function SyncVer(a: Attr, kind: SyncType): int { if IsFsync(kind) then a.fsynced else a.synced }

  /** The state in which `sync` aborts the process. */
  predicate Aborts(a: Attr, kind: SyncType) { kind != ForceFsync && SyncVer(a, kind) > a.written }

  predicate Enabled(s: State, step: Step) {
    match step
    case CallSucceeds(i, _) => 0 <= i < |s.calls| && s.calls[i].Some?
    case CallFails(i) => 0 <= i < |s.calls| && s.calls[i].Some?
    case _ => true
  }

  function Started(s: State, c: Call): State { s.(calls := s.calls + [Some(c)]) }

  function Next(s: State, step: Step): State
    requires Enabled(s, step)
  {
    var a := s.attr;
    match step
    case FinishWrite(truncateVer, offset, ret) =>
      s.(attr := WriteFinished(a, truncateVer, offset, ret), ends := s.ends + [EndOf(offset, ret)])
    case StartSync(kind, lengthHint) =>
      if kind != ForceFsync && SyncVer(a, kind) >= a.written then s
      else
        var hint := if IsFsync(kind) && (kind == ForceFsync || !lengthHint) then None else a.hint;
        Started(s, Call(a.written, a.written, IsFsync(kind), hint))
    case StartClose =>
      Started(s, Call(a.written, if a.written > a.fsynced then a.written else 0, a.written > a.fsynced, None))
    case StartTruncate => Started(s, Call(a.written, a.written, true, None))
    case CallSucceeds(i, m) =>
      var c := s.calls[i].value;
      s.(attr := Updated(a, m, c.commit, c.fsync), calls := s.calls[i := None], succeeded := s.succeeded + [c])
    case CallFails(i) => s.(attr := a.(hint := None), calls := s.calls[i := None])
    case StripeExtended(m) => s.(attr := Updated(a, m, 0, false))
  }

  // ---------- the invariant ----------

  /** A call told the service about a write that ends at `end`. */
  predicate Tells(hint: Option<VersionedLength>, end: Option<int>) {
    hint.None? || (end.Some? && end.value <= hint.value.length)
  }

  /** Some call that started after write `w` finished has succeeded and told the service about it. */
  ghost predicate Told(s: State, w: int)
    requires 0 <= w < |s.ends|
  {
    exists k :: 0 <= k < |s.succeeded| && w < s.succeeded[k].writever && Tells(s.succeeded[k].hint, s.ends[w])
  }

  ghost predicate AttrOk(s: State) {
    && 0 <= s.attr.fsynced <= s.attr.synced <= s.attr.written == |s.ends|
    && (forall w :: 0 <= w < s.attr.synced ==> Told(s, w))
    && (forall w :: s.attr.synced <= w < s.attr.written ==> Tells(s.attr.hint, s.ends[w]))
    && (s.attr.fsynced > 0 ==>
          exists k :: 0 <= k < |s.succeeded| && s.succeeded[k].fsync && s.succeeded[k].writever >= s.attr.fsynced)
  }

  /** What a call in flight will have told the service when it succeeds. */
  ghost predicate CallOk(s: State, c: Call) {
    && 0 <= c.writever <= s.attr.written == |s.ends| && (c.commit == c.writever || (c.commit == 0 && !c.fsync))
    && forall w :: 0 <= w < c.commit ==> Told(s, w) || Tells(c.hint, s.ends[w])
  }

  ghost predicate Inv(s: State) {
    AttrOk(s) && forall i :: 0 <= i < |s.calls| && s.calls[i].Some? ==> CallOk(s, s.calls[i].value)
  }

  /** What was told stays told. */
  lemma StillTold(s: State, s': State, w: int)
    requires 0 <= w < |s.ends| && Told(s, w) && s.ends <= s'.ends && s.succeeded <= s'.succeeded
    ensures Told(s', w)
  {
    var k :| 0 <= k < |s.succeeded| && w < s.succeeded[k].writever && Tells(s.succeeded[k].hint, s.ends[w]);
    assert s'.succeeded[k] == s.succeeded[k] && s'.ends[w] == s.ends[w];
  }

  lemma StillOk(s: State, s': State, c: Call)
    requires CallOk(s, c) && s.ends <= s'.ends && s.succeeded <= s'.succeeded
    requires s.attr.written <= s'.attr.written == |s'.ends|
    ensures CallOk(s', c)
  {
    hide Told, Tells;
    forall w | 0 <= w < c.commit ensures Told(s', w) || Tells(c.hint, s'.ends[w]) {
      if Told(s, w) { StillTold(s, s', w); }
    }
  }

  lemma CallsStillOk(s: State, s': State)
    requires Inv(s) && s.ends <= s'.ends && s.succeeded <= s'.succeeded
    requires s.attr.written <= s'.attr.written == |s'.ends|
    ensures forall i :: 0 <= i < |s.calls| && s.calls[i].Some? ==> CallOk(s', s.calls[i].value)
    ensures forall w :: 0 <= w < s.attr.synced ==> Told(s', w)
  {
    hide Told, CallOk;
    forall i | 0 <= i < |s.calls| && s.calls[i].Some? ensures CallOk(s', s.calls[i].value) {
      StillOk(s, s', s.calls[i].value);
    }
    forall w | 0 <= w < s.attr.synced ensures Told(s', w) {
      StillTold(s, s', w);
    }
  }

  lemma FinishWriteKeeps(s: State, truncateVer: int, offset: int, ret: int)
    requires Inv(s)
    ensures Inv(Next(s, FinishWrite(truncateVer, offset, ret)))
  {
    hide Told, CallOk;
    var s' := Next(s, FinishWrite(truncateVer, offset, ret));
    assert s.ends <= s'.ends;
    CallsStillOk(s, s');
  }

  /** A call that starts now tells the service about every write that is not yet synced. */
  lemma StartKeeps(s: State, c: Call)
    requires Inv(s) && c.writever == s.attr.written && (c.commit == c.writever || (c.commit == 0 && !c.fsync))
    requires c.hint.None? || c.hint == s.attr.hint
    ensures Inv(Started(s, c))
  {
    hide Told;
    var s' := Started(s, c);
    CallsStillOk(s, s');
    forall w | 0 <= w < c.commit ensures Told(s', w) || Tells(c.hint, s'.ends[w]) {
    }
  }

  lemma CallSucceedsKeeps(s: State, i: int, m: Meta)
    requires Inv(s) && Enabled(s, CallSucceeds(i, m))
    ensures Inv(Next(s, CallSucceeds(i, m)))
  {
    hide CallOk;
    var s', c := Next(s, CallSucceeds(i, m)), s.calls[i].value;
    assert s.succeeded <= s'.succeeded;
    CallsStillOk(s, s');
    hide Told;
    NowTold(s, s', c);
    LastSucceeded(s, s', c);
  }

  lemma NowTold(s: State, s': State, c: Call)
    requires CallOk(s, c) && s'.succeeded == s.succeeded + [c] && s'.ends == s.ends
    ensures forall w :: 0 <= w < c.commit ==> Told(s', w)
    ensures 0 <= c.commit <= s.attr.written && (c.fsync ==> c.commit == c.writever)
  {
    forall w | 0 <= w < c.commit ensures Told(s', w) {
      if Told(s, w) {
        StillTold(s, s', w);
      } else {
        assert s'.succeeded[|s.succeeded|] == c;
      }
    }
  }

  lemma LastSucceeded(s: State, s': State, c: Call)
    requires AttrOk(s) && s'.succeeded == s.succeeded + [c] && (c.fsync ==> c.commit == c.writever)
    requires s'.attr.fsynced == if c.fsync then Max(s.attr.fsynced, c.commit) else s.attr.fsynced
    ensures s'.attr.fsynced > 0 ==>
      exists k :: 0 <= k < |s'.succeeded| && s'.succeeded[k].fsync && s'.succeeded[k].writever >= s'.attr.fsynced
  {
    hide Told;
    if s'.attr.fsynced > 0 {
      if c.fsync && c.commit == s'.attr.fsynced {
        assert s'.succeeded[|s.succeeded|] == c;
      } else {
        var k :| 0 <= k < |s.succeeded| && s.succeeded[k].fsync && s.succeeded[k].writever >= s.attr.fsynced;
        assert s'.succeeded[k] == s.succeeded[k];
      }
    }
  }

  lemma QuietKeeps(s: State, s': State)
    requires Inv(s) && s'.ends == s.ends && s'.succeeded == s.succeeded && |s'.calls| == |s.calls|
    requires s'.attr.written == s.attr.written && s'.attr.synced == s.attr.synced && s'.attr.fsynced == s.attr.fsynced
    requires s'.attr.hint == s.attr.hint || s'.attr.hint.None? || s.attr.written == s.attr.synced
    requires forall i :: 0 <= i < |s.calls| ==> s'.calls[i] == s.calls[i] || s'.calls[i] == None
    ensures Inv(s')
  {
    hide Told, CallOk;
    CallsStillOk(s, s');
  }

  lemma StepKeeps(s: State, step: Step)
    requires Inv(s) && Enabled(s, step)
    ensures Inv(Next(s, step))
  {
    hide Told, CallOk, Tells;
    var a := s.attr;
    match step
    case FinishWrite(truncateVer, offset, ret) => FinishWriteKeeps(s, truncateVer, offset, ret);
    case StartSync(kind, lengthHint) =>
      var hint := if IsFsync(kind) && (kind == ForceFsync || !lengthHint) then None else a.hint;
      StartKeeps(s, Call(a.written, a.written, IsFsync(kind), hint));
    case StartClose =>
      StartKeeps(s, Call(a.written, if a.written > a.fsynced then a.written else 0, a.written > a.fsynced, None));
    case StartTruncate => StartKeeps(s, Call(a.written, a.written, true, None));
    case CallSucceeds(i, m) => CallSucceedsKeeps(s, i, m);
    case CallFails(i) => QuietKeeps(s, Next(s, step));
    case StripeExtended(m) => QuietKeeps(s, Next(s, step));
  }

  // ---------- whole runs ----------

  predicate Legal(s: State, steps: seq<Step>)
    decreases |steps|
  {
    steps == [] || (Enabled(s, steps[0]) && Legal(Next(s, steps[0]), steps[1..]))
  }

  function After(s: State, steps: seq<Step>): State
    requires Legal(s, steps)
    decreases |steps|
  {
    if steps == [] then s else After(Next(s, steps[0]), steps[1..])
  }

  lemma {:induction false} RunKeeps(s: State, steps: seq<Step>)
    requires Inv(s) && Legal(s, steps)
    ensures Inv(After(s, steps))
    decreases |steps|
  {
    hide Inv, Next, Enabled;
    if steps != [] {
      StepKeeps(s, steps[0]);
      RunKeeps(Next(s, steps[0]), steps[1..]);
    }
  }

  /** In every reachable state the versions are ordered, and no kind of sync aborts. */
  lemma VersionsOrdered(m: Meta, steps: seq<Step>, kind: SyncType)
    requires Legal(Init(m), steps)
    ensures var a := After(Init(m), steps).attr; 0 <= a.fsynced <= a.synced <= a.written && !Aborts(a, kind)
  {
    hide Legal, After, Told;
    RunKeeps(Init(m), steps);
  }

  /** Every write counted as synced was told to the metadata service, by a call that started after the write finished
      and succeeded: one that left the length to the service, or named at least the end of the write. */
  lemma SyncedWasTold(m: Meta, steps: seq<Step>, w: int)
    requires Legal(Init(m), steps) && 0 <= w < After(Init(m), steps).attr.synced
    ensures w < |After(Init(m), steps).ends| && Told(After(Init(m), steps), w)
  {
    hide Legal, After, Told;
    RunKeeps(Init(m), steps);
  }

  /** Every write counted as fsynced precedes an fsync, close or truncate that succeeded. */
  lemma FsyncedWasCalled(m: Meta, steps: seq<Step>, w: int)
    requires Legal(Init(m), steps) && 0 <= w < After(Init(m), steps).attr.fsynced
    ensures var s := After(Init(m), steps);
      exists k :: 0 <= k < |s.succeeded| && s.succeeded[k].fsync && w < s.succeeded[k].writever
  {
    hide Legal, After, Told;
    RunKeeps(Init(m), steps);
  }

  // ---------- a sync that succeeds catches up ----------

  predicate Finishes(step: Step, i: int) { (step.CallSucceeds? && step.i == i) || (step.CallFails? && step.i == i) }

  lemma {:induction false} CallStays(s: State, steps: seq<Step>, i: int)
    requires Legal(s, steps) && 0 <= i < |s.calls| && forall k :: 0 <= k < |steps| ==> !Finishes(steps[k], i)
    ensures i < |After(s, steps).calls| && After(s, steps).calls[i] == s.calls[i]
    decreases |steps|
  {
    if steps != [] { CallStays(Next(s, steps[0]), steps[1..], i); }
  }

  /** A sync either finds nothing to do, because every write is synced, or its success counts every write that finished
      before it started, whatever happens in between. */
  lemma SyncCatchesUp(m: Meta, before: seq<Step>, kind: SyncType, lengthHint: bool, between: seq<Step>, reply: Meta)
    requires Legal(Init(m), before)
    requires Legal(Next(After(Init(m), before), StartSync(kind, lengthHint)), between)
    requires forall k :: 0 <= k < |between| ==> !Finishes(between[k], |After(Init(m), before).calls|)
    ensures var s := After(Init(m), before);
      var i, t := |s.calls|, Next(s, StartSync(kind, lengthHint));
      var u := After(t, between);
      if t == s then SyncVer(s.attr, kind) == s.attr.written
      else
        && Enabled(u, CallSucceeds(i, reply))
        && var v := Next(u, CallSucceeds(i, reply)).attr;
           v.synced >= s.attr.written && (IsFsync(kind) ==> v.fsynced >= s.attr.written)
  {
    hide Legal, After, Told;
    RunKeeps(Init(m), before);
    var s := After(Init(m), before);
    var t := Next(s, StartSync(kind, lengthHint));
    if t.calls != s.calls { CallStays(t, between, |s.calls|); }
  }
}
