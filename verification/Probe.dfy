/** Looking for the primary management server (src/client/mgmtd/MgmtdClient.cc). */
module Probe {
  import opened Prelude

  const MAX_CHAIN: int := 3

  /** A server and the address in use. */
  datatype Conn = Conn(nodeId: int, addrs: seq<int>, idx: int)

  predicate ConnOk(c: Conn) { 0 <= c.idx < |c.addrs| }

  function Addr(c: Conn): int
    requires ConnOk(c)
  {
    c.addrs[c.idx]
  }

  function SwitchAddr(c: Conn): (r: Conn)
    requires ConnOk(c)
    ensures ConnOk(r) && r.addrs == c.addrs && r.nodeId == c.nodeId
  {
    c.(idx := if c.idx + 1 == |c.addrs| then 0 else c.idx + 1)
  }

  /** A server known by its id, or one under a bare address. */
  datatype ConnRef = Known(id: int) | Bare

  /** What a server may answer: a network error, that it is not the primary (maybe naming one), another error, or the
      primary it knows with its addresses, if any. */
  datatype Answer =
    | NetworkError | NotPrimary(hint: Option<int>) | OtherError(code: int) | Primary(primary: Option<Node>)

  datatype Node = Node(id: int, addrs: seq<int>)

  datatype Result = Found(id: int) | NoPrimary | Skip | Failed(code: int)

  /** A request that was sent: where to, which addresses had been probed by then, and the answer. */
  datatype Sent = Sent(addr: int, probed: set<int>, answer: Answer)

  /** How one turn of the probing loop ends. */
  datatype Turn = Answered(primary: Option<Node>) | Again | GoTo(id: int) | Stop(r: Result)

  // ---------- addresses not yet probed ----------

  function Unprobed(addrs: seq<int>, probed: set<int>): (n: int)
    ensures 0 <= n
  {
    if addrs == [] then 0 else Unprobed(addrs[..|addrs| - 1], probed) + if addrs[|addrs| - 1] in probed then 0 else 1
  }

  lemma {:induction false} FewerUnprobed(addrs: seq<int>, probed: set<int>, probed': set<int>, i: int)
    requires probed <= probed' && 0 <= i < |addrs| && addrs[i] in probed' && addrs[i] !in probed
    ensures Unprobed(addrs, probed') < Unprobed(addrs, probed)
    decreases |addrs|
  {
    var n := |addrs| - 1;
    if i < n {
      FewerUnprobed(addrs[..n], probed, probed', i);
    } else {
      NoMoreUnprobed(addrs[..n], probed, probed');
    }
  }

  lemma {:induction false} NoMoreUnprobed(addrs: seq<int>, probed: set<int>, probed': set<int>)
    requires probed <= probed'
    ensures Unprobed(addrs, probed') <= Unprobed(addrs, probed)
    decreases |addrs|
  {
    if addrs != [] { NoMoreUnprobed(addrs[..|addrs| - 1], probed, probed'); }
  }

  function All(addrs: seq<int>): set<int> { set i | 0 <= i < |addrs| :: addrs[i] }

  /** The addresses probed in one search. */
  class ProbeContext {
    var probed: set<int>

    constructor ()
      ensures probed == {}
    {
      probed := {};
    }
  }

  class Client {
    var mgmtds: map<int, Conn>
    var addrMap: map<int, int>
    var bare: Conn
    var log: seq<Sent>

    ghost predicate Valid()
      reads this
    {
      && (forall id :: id in mgmtds ==> ConnOk(mgmtds[id]) && mgmtds[id].nodeId == id)
      && ConnOk(bare)
    }

    predicate Has(ref: ConnRef)
      reads this
    {
      ref.Known? ==> ref.id in mgmtds
    }

    function Get(ref: ConnRef): (c: Conn)
      requires Has(ref)
      reads this
    {
      if ref.Known? then mgmtds[ref.id] else bare
    }

    /** Every request of this search went to an address that was not marked probed. */
    ghost predicate Careful(from: int)
      requires 0 <= from <= |log|
      reads this`log
    {
      forall k :: from <= k < |log| ==> log[k].addr !in log[k].probed
    }

    /** The server asked last, at an address mapped to `n`, named `n`. */
    ghost predicate Confirmed(n: int)
      reads this
    {
      log != [] && var last := log[|log| - 1]; Names(last.answer, n) && last.addr in addrMap && addrMap[last.addr] == n
    }

    /** What a search that asked at least one server comes to, from the last answer: the primary exactly when that
        answer confirms it; none, or an error, only when the answer says so. */
    ghost predicate Reflects(from: int, r: Result)
      requires 0 <= from <= |log|
      reads this
    {
      && (r.Found? ==> from < |log| && Confirmed(r.id))
      && (from < |log| && (exists n :: Confirmed(n) && n in mgmtds) ==> r.Found?)
      && (r.NoPrimary? ==> from < |log| && log[|log| - 1].answer.Primary?)
      && (r.Failed? ==> from < |log| && log[|log| - 1].answer == OtherError(r.code))
    }

    /** A search that skips says nothing about the last answer, unless that named a primary. */
    lemma SkipReflects(from: int)
      requires 0 <= from <= |log| && (from < |log| ==> !log[|log| - 1].answer.Primary?)
      ensures Reflects(from, Skip)
    {
    }

    lemma FailedReflects(from: int, code: int)
      requires 0 <= from < |log| && log[|log| - 1].answer == OtherError(code)
      ensures Reflects(from, Failed(code))
    {
    }

    /** The search as a whole reflects what its last part reflects. */
    lemma Widen(from: int, mid: int, r: Result)
      requires 0 <= from <= mid <= |log| && Reflects(mid, r)
      requires (from < mid == |log| ==> !log[|log| - 1].answer.Primary?)
      ensures Reflects(from, r)
    {
    }

    method Switch(ref: ConnRef)
      requires Valid() && Has(ref)
      modifies this`mgmtds, this`bare
      ensures Valid() && Has(ref) && Get(ref) == SwitchAddr(old(Get(ref))) && mgmtds.Keys == old(mgmtds.Keys)
    {
      var c := SwitchAddr(Get(ref));
      if ref.Known? { mgmtds := mgmtds[ref.id := c]; } else { bare := c; }
    }

    /** What to do after an error: stay with the server (`Found` of its own id), go to another one, skip it, or fail. */
    method TrySwitchProbeTarget(ctx: ProbeContext, ref: ConnRef, error: Answer) returns (r: Result)
      requires Valid() && Has(ref) && !error.Primary? && Addr(Get(ref)) !in ctx.probed
      modifies this`mgmtds, this`bare, ctx
      ensures Valid() && Has(ref) && mgmtds.Keys == old(mgmtds.Keys) && old(ctx.probed) <= ctx.probed
      ensures Get(ref).addrs == old(Get(ref)).addrs && Get(ref).nodeId == old(Get(ref)).nodeId
      ensures (error.OtherError? <==> r.Failed?) && (r.Failed? ==> error == OtherError(r.code))
      ensures !r.Failed? ==> old(Addr(Get(ref))) in ctx.probed
      ensures r.Found? ==> r.id == Get(ref).nodeId || r.id in mgmtds
      ensures !r.NoPrimary?
      ensures r.Found? && r.id != old(Get(ref)).nodeId ==> error == NotPrimary(Some(r.id))
      ensures r.Skip? ==> forall i :: 0 <= i < |Get(ref).addrs| ==> Get(ref).addrs[i] in ctx.probed
    {
      var conn := Get(ref);
      match error {
        case NotPrimary(hint) =>
          ctx.probed := ctx.probed + All(conn.addrs);
          if hint.Some? && hint.value in mgmtds { return Found(hint.value); }
          return Skip;
        case NetworkError =>
          ctx.probed := ctx.probed + {Addr(conn)};
          Switch(ref);
          if Addr(Get(ref)) !in ctx.probed { return Found(conn.nodeId); }
          ctx.probed := ctx.probed + All(conn.addrs);
          return Skip;
        case OtherError(code) => return Failed(code);
      }
    }

    method TryAddMgmtd(n: Node) returns (ok: bool)
      requires Valid()
      modifies this`mgmtds, this`addrMap
      ensures Valid() && old(mgmtds.Keys) <= mgmtds.Keys
      ensures forall id :: id in old(mgmtds) ==> id in mgmtds && mgmtds[id] == old(mgmtds)[id]
      ensures ok <==> n.id in old(mgmtds) || n.addrs != []
      ensures !ok ==> mgmtds == old(mgmtds)
      ensures ok ==> n.id in mgmtds && (n.id !in old(mgmtds) ==> mgmtds[n.id] == Conn(n.id, n.addrs, 0))
      ensures addrMap == if ok && n.id !in old(mgmtds) then Mapped(old(addrMap), n.addrs, n.id) else old(addrMap)
    {
      if n.id in mgmtds { return true; }
      if n.addrs == [] { return false; }
      var i := 0;
      while i < |n.addrs|
        invariant 0 <= i <= |n.addrs| && addrMap == Mapped(old(addrMap), n.addrs[..i], n.id) && mgmtds == old(mgmtds)
      {
        assert n.addrs[..i + 1][..i] == n.addrs[..i];
        addrMap := addrMap[n.addrs[i] := n.id];
        i := i + 1;
      }
      assert n.addrs[..i] == n.addrs;
      mgmtds := mgmtds[n.id := Conn(n.id, n.addrs, 0)];
      ok := true;
    }

    /** Sends one request; the server may answer anything. */
    method Ask(ctx: ProbeContext, ref: ConnRef, ghost from: int) returns (answer: Answer)
      requires Valid() && Has(ref) && Addr(Get(ref)) !in ctx.probed && 0 <= from <= |log| && Careful(from)
      modifies this`log
      ensures log == old(log) + [Sent(Addr(Get(ref)), ctx.probed, answer)] && Careful(from)
    {
      answer := *;
      log := log + [Sent(Addr(Get(ref)), ctx.probed, answer)];
    }

    /** Makes sure the address in use was not probed; false if the server is to be skipped. */
    method PickAddr(ctx: ProbeContext, ref: ConnRef) returns (ok: bool)
      requires Valid() && Has(ref)
      modifies this`mgmtds, this`bare, ctx
      ensures Valid() && Has(ref) && mgmtds.Keys == old(mgmtds.Keys)
      ensures Get(ref).addrs == old(Get(ref)).addrs && Get(ref).nodeId == old(Get(ref)).nodeId
      ensures ok <==> CanAsk(old(Get(ref)), old(ctx.probed))
      ensures if ok then ctx.probed == old(ctx.probed) && Addr(Get(ref)) !in ctx.probed
        else ctx.probed == old(ctx.probed) + All(Get(ref).addrs)
    {
      ok := true;
      if Addr(Get(ref)) in ctx.probed {
        Switch(ref);
        if Addr(Get(ref)) in ctx.probed {
          ctx.probed := ctx.probed + All(Get(ref).addrs);
          ok := false;
        }
      }
    }

    /** One turn of the loop: picks an address, asks, and decides what an error means. */
    method Attempt(ctx: ProbeContext, ref: ConnRef, ghost from: int) returns (next: Turn)
      requires Valid() && Has(ref) && 0 <= from <= |log| && Careful(from)
      requires from < |log| ==> !log[|log| - 1].answer.Primary?
      modifies this`mgmtds, this`bare, this`log, ctx
      ensures Valid() && Has(ref) && mgmtds.Keys == old(mgmtds.Keys) && old(ctx.probed) <= ctx.probed
      ensures Get(ref).addrs == old(Get(ref)).addrs && Get(ref).nodeId == old(Get(ref)).nodeId
      ensures old(log) <= log && Careful(from) && (CanAsk(old(Get(ref)), old(ctx.probed)) ==> |log| > |old(log)|)
      ensures match next
        case Answered(primary) =>
          |log| > |old(log)| && log[|log| - 1].answer == Primary(primary) && log[|log| - 1].addr == Addr(Get(ref))
        case Again =>
          && |log| > |old(log)| && !log[|log| - 1].answer.Primary?
          && Unprobed(Get(ref).addrs, ctx.probed) < Unprobed(Get(ref).addrs, old(ctx.probed))
        case GoTo(id) => |log| > |old(log)| && !log[|log| - 1].answer.Primary? && id in mgmtds
        case Stop(r) => Reflects(from, r)
    {
      hide Reflects, Careful;
      ghost var probed := ctx.probed;
      var ok := PickAddr(ctx, ref);
      if !ok {
        SkipReflects(from);
        return Stop(Skip);
      }
      var answer := Ask(ctx, ref, from);
      if answer.Primary? { return Answered(answer.primary); }
      ghost var used := Get(ref).idx;
      var r := TrySwitchProbeTarget(ctx, ref, answer);
      match r {
        case Skip => SkipReflects(from); return Stop(r);
        case Failed(code) => FailedReflects(from, code); return Stop(r);
        case Found(id) =>
          if id != Get(ref).nodeId { return GoTo(id); }
          FewerUnprobed(Get(ref).addrs, probed, ctx.probed, used);
          return Again;
      }
    }

    /** Probes one server, and from it whatever servers it names. Ends for every sequence of answers. */
    method ProbePrimary(ctx: ProbeContext, ref: ConnRef, chain: int) returns (r: Result)
      requires Valid() && Has(ref) && 0 <= chain <= MAX_CHAIN + 1
      modifies this, ctx
      ensures Valid() && old(mgmtds.Keys) <= mgmtds.Keys && old(ctx.probed) <= ctx.probed
      ensures old(log) <= log && Careful(|old(log)|)
      ensures Reflects(|old(log)|, r) && (log == old(log) ==> addrMap == old(addrMap))
      ensures chain <= MAX_CHAIN && CanAsk(old(Get(ref)), old(ctx.probed)) ==> |log| > |old(log)|
      decreases MAX_CHAIN + 1 - chain, 0
    {
      assert Careful(|log|);
      hide Reflects, Careful, CanAsk, Unprobed;
      if chain > MAX_CHAIN {
        SkipReflects(|log|);
        return Skip;
      }
      while true
        invariant Valid() && Has(ref) && mgmtds.Keys == old(mgmtds.Keys) && old(ctx.probed) <= ctx.probed
        invariant old(log) <= log && Careful(|old(log)|) && addrMap == old(addrMap)
        invariant |log| == |old(log)| ==> Get(ref) == old(Get(ref)) && ctx.probed == old(ctx.probed)
        invariant |log| > |old(log)| ==> !log[|log| - 1].answer.Primary?
        decreases Unprobed(Get(ref).addrs, ctx.probed)
      {
        var next := Attempt(ctx, ref, |old(log)|);
        match next {
          case Answered(primary) =>
            r := Conclude(ctx, ref, primary, chain, |old(log)|);
            return;
          case GoTo(id) =>
            r := Continue(ctx, id, chain, |old(log)|);
            return;
          case Stop(result) => return result;
          case Again =>
        }
      }
    }

    /** Goes on with another server; `from` is where the search started. */
    method Continue(ctx: ProbeContext, id: int, chain: int, ghost from: int) returns (r: Result)
      requires Valid() && id in mgmtds && 0 <= chain <= MAX_CHAIN && 0 <= from < |log| && Careful(from)
      requires !log[|log| - 1].answer.Primary?
      modifies this, ctx
      ensures Valid() && old(mgmtds.Keys) <= mgmtds.Keys && old(ctx.probed) <= ctx.probed
      ensures old(log) <= log && Careful(from) && Reflects(from, r)
      decreases MAX_CHAIN + 1 - chain, 0, 0
    {
      hide Reflects;
      r := ProbePrimary(ctx, Known(id), chain + 1);
      Widen(from, |old(log)|, r);
    }

    /** A server answered with the primary it knows. */
    method Conclude(ctx: ProbeContext, ref: ConnRef, primary: Option<Node>, chain: int, ghost from: int)
      returns (r: Result)
      requires Valid() && Has(ref) && 0 <= chain <= MAX_CHAIN && 0 <= from < |log| && Careful(from)
      requires log[|log| - 1].answer == Primary(primary) && log[|log| - 1].addr == Addr(Get(ref))
      modifies this, ctx
      ensures Valid() && old(mgmtds.Keys) <= mgmtds.Keys && old(ctx.probed) <= ctx.probed
      ensures old(log) <= log && Careful(from) && Reflects(from, r)
      decreases MAX_CHAIN + 1 - chain, 0, 0
    {
      if primary.None? { return NoPrimary; }
      var added := TryAddMgmtd(primary.value);
      if !added { return NoPrimary; }
      var addr := Addr(Get(ref));
      if addr !in addrMap { addrMap := addrMap[addr := 0]; }
      if addrMap[addr] == primary.value.id { return Found(primary.value.id); }
      r := ProbePrimary(ctx, Known(primary.value.id), chain + 1);
    }

    /** Searches from the server believed to be the primary, then from every known server, then from the addresses
        nothing is known about, each of these with a context of its own. `ids` and `unknown` list them when the search
        starts. */
    method FindPrimary(ctx: ProbeContext, primaryId: int, ids: seq<int>, unknown: seq<int>) returns (r: Result)
      requires Valid() && (primaryId != 0 ==> primaryId in mgmtds) && forall i :: 0 <= i < |ids| ==> ids[i] in mgmtds
      modifies this, ctx
      ensures Valid() && old(log) <= log && Careful(|old(log)|)
      ensures r.Found? ==> |log| > |old(log)| && Confirmed(r.id)
      ensures !r.Skip?
    {
      if primaryId != 0 {
        r := ProbePrimary(ctx, Known(primaryId), 0);
        if !r.Skip? { return; }
      }
      var i := 0;
      while i < |ids|
        invariant 0 <= i <= |ids| && Valid() && old(mgmtds.Keys) <= mgmtds.Keys
        invariant old(log) <= log && Careful(|old(log)|)
      {
        r := ProbePrimary(ctx, Known(ids[i]), 0);
        if !r.Skip? { return; }
        i := i + 1;
      }
      i := 0;
      while i < |unknown|
        invariant 0 <= i <= |unknown| && Valid()
        invariant old(log) <= log && Careful(|old(log)|)
      {
        var own := new ProbeContext();
        bare := Conn(0, [unknown[i]], 0);
        r := ProbePrimary(own, Bare, 0);
        if !r.Skip? { return; }
        i := i + 1;
      }
      r := NoPrimary;
    }
  }

  function Mapped(m: map<int, int>, addrs: seq<int>, id: int): map<int, int> {
    if addrs == [] then m else Mapped(m, addrs[..|addrs| - 1], id)[addrs[|addrs| - 1] := id]
  }

  /** One of the two addresses a server is tried at was not probed. */
  predicate CanAsk(c: Conn, probed: set<int>) { ConnOk(c) && (Addr(c) !in probed || Addr(SwitchAddr(c)) !in probed) }

  predicate Names(a: Answer, n: int) { a.Primary? && a.primary.Some? && a.primary.value.id == n }
}
