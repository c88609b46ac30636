/** Spreading reads over the nodes of a chain (src/client/storage/TargetSelection.cc). */
module LoadBalance {

  datatype Target = Target(id: int, node: int)

  /** The counter of a node; nodes without one count from zero. */
  function Count(m: map<int, int>, node: int): int { if node in m then m[node] else 0 }

  function Counted(m: map<int, int>, node: int): map<int, int> { m[node := Count(m, node) + 1] }

  /** The nodes of a chain have been selected equally often, give or take one. */
  predicate Balanced(targets: seq<Target>, m: map<int, int>) {
    forall i, j :: 0 <= i < |targets| && 0 <= j < |targets| ==>
      Count(m, targets[i].node) <= Count(m, targets[j].node) + 1
  }

  predicate Least(targets: seq<Target>, m: map<int, int>, t: Target) {
    forall i :: 0 <= i < |targets| ==> Count(m, t.node) <= Count(m, targets[i].node)
  }

  lemma CountingLeastBalances(targets: seq<Target>, m: map<int, int>, t: Target)
    requires Balanced(targets, m) && Least(targets, m, t)
    ensures Balanced(targets, Counted(m, t.node))
  {
    var m' := Counted(m, t.node);
    forall i, j | 0 <= i < |targets| && 0 <= j < |targets|
      ensures Count(m', targets[i].node) <= Count(m', targets[j].node) + 1
    {
      assert Count(m, targets[i].node) <= Count(m, targets[j].node) + 1;
    }
  }

  /** One batch: `numIOs` counts its selections; `numAccumIOs` is shared by all batches and breaks ties. */
  class LoadBalanceStrategy {
    var numIOs: map<int, int>
    var numAccumIOs: map<int, int>

    constructor (numAccumIOs: map<int, int>)
      ensures numIOs == map[] && this.numAccumIOs == numAccumIOs
    {
      numIOs, this.numAccumIOs := map[], numAccumIOs;
    }

    /** Selects a least used target, from a random start. The tie-break counter that is raised is the one found last
        when counters were compared, which need not be that of the selected node. */
    method SelectTarget(targets: seq<Target>, start: int) returns (preferred: Target)
      requires 0 <= start < |targets|
      modifies this
      ensures preferred in targets && Least(targets, old(numIOs), preferred)
      ensures numIOs == Counted(old(numIOs), preferred.node)
      ensures exists node :: numAccumIOs == Counted(old(numAccumIOs), node)
    {
      preferred := targets[start];
      var counter := preferred.node;
      var i := 0;
      while i < |targets|
        invariant 0 <= i <= |targets| && preferred in targets
        invariant Count(numIOs, preferred.node) <= Count(numIOs, targets[start].node)
        invariant forall k :: 0 <= k < i ==> Count(numIOs, preferred.node) <= Count(numIOs, targets[k].node)
      {
        var t := targets[i];
        if Count(numIOs, t.node) < Count(numIOs, preferred.node) {
          preferred := t;
        } else if t.node != preferred.node && Count(numIOs, t.node) == Count(numIOs, preferred.node) {
          if Count(numAccumIOs, t.node) < Count(numAccumIOs, counter) {
            preferred := t;
            counter := t.node;
          }
        }
        i := i + 1;
      }
      numIOs := Counted(numIOs, preferred.node);
      numAccumIOs := Counted(numAccumIOs, counter);
    }

    /** Any number of selections on one chain keeps its nodes balanced, whatever the starts and the tie-break
        counters. */
    method SelectMany(targets: seq<Target>, starts: seq<int>) returns (chosen: seq<Target>)
      requires targets != [] && forall k :: 0 <= k < |starts| ==> 0 <= starts[k] < |targets|
      requires Balanced(targets, numIOs)
      modifies this
      ensures |chosen| == |starts| && forall k :: 0 <= k < |chosen| ==> chosen[k] in targets
      ensures numIOs == Tallied(old(numIOs), chosen) && Balanced(targets, numIOs)
    {
      hide Balanced;
      chosen := [];
      while |chosen| < |starts|
        invariant |chosen| <= |starts| && forall k :: 0 <= k < |chosen| ==> chosen[k] in targets
        invariant numIOs == Tallied(old(numIOs), chosen) && Balanced(targets, numIOs)
      {
        ghost var was := numIOs;
        var t := SelectTarget(targets, starts[|chosen|]);
        CountingLeastBalances(targets, was, t);
        assert (chosen + [t])[..|chosen|] == chosen;
        chosen := chosen + [t];
      }
    }
  }

  /** The counters after a sequence of selections. */
  function Tallied(m: map<int, int>, chosen: seq<Target>): map<int, int> {
    if chosen == [] then m else Counted(Tallied(m, chosen[..|chosen| - 1]), chosen[|chosen| - 1].node)
  }
}
