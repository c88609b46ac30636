/** The batches of all nodes (src/client/storage/StorageClientImpl.cc, groupOpsByNodeId). */
module Grouping {
  import opened Batching

  datatype NodeBatch = NodeBatch(node: int, ops: seq<Op>)

  /** The operations routed to a node, with or without a channel, in order. */
  function Routed(ops: seq<Op>, node: int, hasChannel: bool): seq<Op> {
    if ops == [] then []
    else
      var op := ops[|ops| - 1];
      Routed(ops[..|ops| - 1], node, hasChannel) + if op.node == node && op.hasChannel == hasChannel then [op] else []
  }

  function Tagged(node: int, batches: seq<seq<Op>>): seq<NodeBatch> {
    if batches == [] then [] else Tagged(node, batches[..|batches| - 1]) + [NodeBatch(node, batches[|batches| - 1])]
  }

  lemma {:induction false} RoutedNonNegative(ops: seq<Op>, node: int, hasChannel: bool)
    requires NonNegative(ops)
    ensures NonNegative(Routed(ops, node, hasChannel)) && 0 <= Bytes(Routed(ops, node, hasChannel))
    decreases |ops|
  {
    if ops != [] { RoutedNonNegative(ops[..|ops| - 1], node, hasChannel); }
    BytesNonNegative(Routed(ops, node, hasChannel));
  }

  /** The batches of the nodes, in the given order of nodes. */
  function NodeBatches(ops: seq<Op>, nodes: seq<int>, maxSize: int, maxBytes: int): seq<NodeBatch>
    requires 0 < maxSize && 0 < maxBytes && NonNegative(ops)
    decreases |nodes|
  {
    if nodes == [] then []
    else
      var node := nodes[|nodes| - 1];
      RoutedNonNegative(ops, node, false);
      NodeBatches(ops, nodes[..|nodes| - 1], maxSize, maxBytes)
      + Tagged(node, Batches(Routed(ops, node, false), maxSize, maxBytes))
  }

  /** Operations that already have a channel: one batch per node, each put in front. */
  function ChannelBatches(ops: seq<Op>, nodes: seq<int>): seq<NodeBatch>
    decreases |nodes|
  {
    if nodes == [] then []
    else
      var node := nodes[|nodes| - 1];
      (if Routed(ops, node, true) == [] then [] else [NodeBatch(node, Routed(ops, node, true))])
      + ChannelBatches(ops, nodes[..|nodes| - 1])
  }

  // ---------- every operation in exactly one batch ----------

  /** How often an operation occurs. */
  function Occurs(ops: seq<Op>, x: Op): int {
    if ops == [] then 0 else Occurs(ops[..|ops| - 1], x) + if ops[|ops| - 1] == x then 1 else 0
  }

  function OccursIn(batches: seq<NodeBatch>, x: Op): int {
    if batches == [] then 0 else OccursIn(batches[..|batches| - 1], x) + Occurs(batches[|batches| - 1].ops, x)
  }

  lemma {:induction false} OccursAppend(a: seq<Op>, b: seq<Op>, x: Op)
    ensures Occurs(a + b, x) == Occurs(a, x) + Occurs(b, x)
    decreases |b|
  {
    if b == [] {
      assert a + b == a;
    } else {
      OccursAppend(a, b[..|b| - 1], x);
      assert (a + b)[..|a + b| - 1] == a + b[..|b| - 1];
    }
  }

  lemma {:induction false} OccursInAppend(a: seq<NodeBatch>, b: seq<NodeBatch>, x: Op)
    ensures OccursIn(a + b, x) == OccursIn(a, x) + OccursIn(b, x)
    decreases |b|
  {
    if b == [] {
      assert a + b == a;
    } else {
      OccursInAppend(a, b[..|b| - 1], x);
      assert (a + b)[..|a + b| - 1] == a + b[..|b| - 1];
    }
  }

  lemma {:induction false} OccursTagged(node: int, batches: seq<seq<Op>>, x: Op)
    ensures OccursIn(Tagged(node, batches), x) == Occurs(Concat(batches), x)
    decreases |batches|
  {
    if batches != [] {
      var n := |batches| - 1;
      OccursTagged(node, batches[..n], x);
      OccursAppend(Concat(batches[..n]), batches[n], x);
      OccursInAppend(Tagged(node, batches[..n]), [NodeBatch(node, batches[n])], x);
      OneBatch(node, batches[n], x);
    }
  }

  lemma OneBatch(node: int, ops: seq<Op>, x: Op)
    ensures OccursIn([NodeBatch(node, ops)], x) == Occurs(ops, x)
  {
    assert [NodeBatch(node, ops)][..0] == [];
  }

  lemma {:induction false} OccursRouted(ops: seq<Op>, node: int, hasChannel: bool, x: Op)
    ensures Occurs(Routed(ops, node, hasChannel), x)
         == if x.node == node && x.hasChannel == hasChannel then Occurs(ops, x) else 0
    decreases |ops|
  {
    if ops != [] {
      var n := |ops| - 1;
      OccursRouted(ops[..n], node, hasChannel, x);
      OccursAppend(Routed(ops[..n], node, hasChannel),
                   if ops[n].node == node && ops[n].hasChannel == hasChannel then [ops[n]] else [], x);
      OccursOne(ops[n], x);
    }
  }

  lemma OccursOne(op: Op, x: Op)
    ensures Occurs([op], x) == if op == x then 1 else 0
  {
    assert [op][..0] == [];
  }

  predicate DistinctNodes(nodes: seq<int>) { forall i, j :: 0 <= i < j < |nodes| ==> nodes[i] != nodes[j] }

  lemma {:induction false} OccursNodes(ops: seq<Op>, nodes: seq<int>, maxSize: int, maxBytes: int, x: Op)
    requires 0 < maxSize && 0 < maxBytes && NonNegative(ops) && DistinctNodes(nodes)
    ensures OccursIn(NodeBatches(ops, nodes, maxSize, maxBytes), x)
         == if x.node in nodes && !x.hasChannel then Occurs(ops, x) else 0
    decreases |nodes|
  {
    hide Batches, Concat, WithinLimits, Tagged, Routed, NonNegative, Occurs, OccursIn;
    if nodes == [] {
      NothingOccurs(x);
    } else {
      var n := |nodes| - 1;
      var node, group := nodes[n], Routed(ops, nodes[n], false);
      OccursNodes(ops, nodes[..n], maxSize, maxBytes, x);
      RoutedNonNegative(ops, node, false);
      BatchesPartition(group, maxSize, maxBytes);
      OccursTagged(node, Batches(group, maxSize, maxBytes), x);
      OccursRouted(ops, node, false, x);
      OccursInAppend(NodeBatches(ops, nodes[..n], maxSize, maxBytes), Tagged(node, Batches(group, maxSize, maxBytes)),
                     x);
      LastNode(nodes, x.node);
    }
  }

  /** The batch of one node in front of the others. */
  lemma OccursInFront(node: int, group: seq<Op>, others: seq<NodeBatch>, x: Op)
    ensures OccursIn((if group == [] then [] else [NodeBatch(node, group)]) + others, x)
         == Occurs(group, x) + OccursIn(others, x)
  {
    if group == [] {
      assert [] + others == others;
    } else {
      OneBatch(node, group, x);
      OccursInAppend([NodeBatch(node, group)], others, x);
    }
  }

  lemma {:induction false} OccursChannels(ops: seq<Op>, nodes: seq<int>, x: Op)
    requires DistinctNodes(nodes)
    ensures OccursIn(ChannelBatches(ops, nodes), x) == if x.node in nodes && x.hasChannel then Occurs(ops, x) else 0
    decreases |nodes|
  {
    hide Routed, Occurs, OccursIn;
    if nodes == [] {
      NothingOccurs(x);
    } else {
      var n := |nodes| - 1;
      OccursChannels(ops, nodes[..n], x);
      OccursRouted(ops, nodes[n], true, x);
      OccursInFront(nodes[n], Routed(ops, nodes[n], true), ChannelBatches(ops, nodes[..n]), x);
      LastNode(nodes, x.node);
    }
  }

  lemma NothingOccurs(x: Op)
    ensures OccursIn([], x) == 0
  {
  }

  lemma LastNode(nodes: seq<int>, node: int)
    requires nodes != [] && DistinctNodes(nodes)
    ensures var n := |nodes| - 1;
      node in nodes <==> if node == nodes[n] then node !in nodes[..n] else node in nodes[..n]
  {
    assert nodes == nodes[..|nodes| - 1] + [nodes[|nodes| - 1]];
  }

  // ---------- main results ----------

  /** A result of grouping: the batches of operations that have a channel in front, in the order in which one hash map
      lists the nodes, then the others, in the order of the other map or shuffled. */
  ghost predicate IsGrouping(batches: seq<NodeBatch>, ops: seq<Op>, channelNodes: seq<int>, nodes: seq<int>,
                             maxSize: int, maxBytes: int)
    requires 0 < maxSize && 0 < maxBytes && NonNegative(ops)
  {
    var front := ChannelBatches(ops, channelNodes);
    && |front| <= |batches| && batches[..|front|] == front
    && multiset(batches[|front|..]) == multiset(NodeBatches(ops, nodes, maxSize, maxBytes))
  }

  lemma WithoutOne(a: seq<NodeBatch>, b: seq<NodeBatch>, k: int)
    requires multiset(a) == multiset(b) && 0 <= k < |b| && a != [] && b[k] == a[|a| - 1]
    ensures multiset(a[..|a| - 1]) == multiset(b[..k] + b[k + 1..])
  {
    var e, some, rest := b[k], a[..|a| - 1], b[..k] + b[k + 1..];
    assert multiset(a) == multiset(some) + multiset{e} by { assert a == some + [e]; }
    assert multiset(b) == multiset(rest) + multiset{e} by { assert b == b[..k] + [e] + b[k + 1..]; }
    assert multiset(some) == multiset(a) - multiset{e} && multiset(rest) == multiset(b) - multiset{e};
  }

  lemma OccursSplit(b: seq<NodeBatch>, k: int, x: Op)
    requires 0 <= k < |b|
    ensures OccursIn(b, x) == OccursIn(b[..k] + b[k + 1..], x) + Occurs(b[k].ops, x)
  {
    hide OccursIn, Occurs;
    OneBatch(b[k].node, b[k].ops, x);
    OccursInAppend(b[..k], b[k + 1..], x);
    OccursInAppend(b[..k] + [b[k]], b[k + 1..], x);
    OccursInAppend(b[..k], [b[k]], x);
    assert b == b[..k] + [b[k]] + b[k + 1..];
  }

  lemma {:induction false} OccursPermuted(a: seq<NodeBatch>, b: seq<NodeBatch>, x: Op)
    requires multiset(a) == multiset(b)
    ensures OccursIn(a, x) == OccursIn(b, x)
    decreases |a|
  {
    hide Occurs;
    if a == [] {
      assert |multiset(b)| == 0;
    } else {
      assert a[|a| - 1] in multiset(b);
      var k :| 0 <= k < |b| && b[k] == a[|a| - 1];
      WithoutOne(a, b, k);
      OccursPermuted(a[..|a| - 1], b[..k] + b[k + 1..], x);
      OccursSplit(b, k, x);
    }
  }

  /** Every operation is in exactly as many batches as it was given: once. */
  lemma GroupedPartition(batches: seq<NodeBatch>, ops: seq<Op>, channelNodes: seq<int>, nodes: seq<int>, maxSize: int,
                         maxBytes: int, x: Op)
    requires 0 < maxSize && 0 < maxBytes && NonNegative(ops) && DistinctNodes(nodes) && DistinctNodes(channelNodes)
    requires forall i :: 0 <= i < |ops| ==> ops[i].node in if ops[i].hasChannel then channelNodes else nodes
    requires IsGrouping(batches, ops, channelNodes, nodes, maxSize, maxBytes)
    ensures OccursIn(batches, x) == Occurs(ops, x)
  {
    hide NodeBatches, ChannelBatches, OccursIn;
    var front := ChannelBatches(ops, channelNodes);
    OccursNodes(ops, nodes, maxSize, maxBytes, x);
    OccursChannels(ops, channelNodes, x);
    OccursPermuted(batches[|front|..], NodeBatches(ops, nodes, maxSize, maxBytes), x);
    OccursInAppend(front, batches[|front|..], x);
    assert batches == front + batches[|front|..];
    if x.node !in if x.hasChannel then channelNodes else nodes { NeverOccurs(ops, x); }
  }

  lemma {:induction false} NeverOccurs(ops: seq<Op>, x: Op)
    requires forall i :: 0 <= i < |ops| ==> ops[i] != x
    ensures Occurs(ops, x) == 0
    decreases |ops|
  {
    if ops != [] { NeverOccurs(ops[..|ops| - 1], x); }
  }

  /** A batch goes to the node of its operations; batches are of operations with a channel, or of operations without
      one, and only the latter are limited. */
  ghost predicate BatchOk(b: NodeBatch, maxSize: int, maxBytes: int) {
    && (forall i :: 0 <= i < |b.ops| ==> b.ops[i].node == b.node)
    && ((forall i :: 0 <= i < |b.ops| ==> b.ops[i].hasChannel)
        || ((forall i :: 0 <= i < |b.ops| ==> !b.ops[i].hasChannel) && WithinLimits(b.ops, maxSize, maxBytes)))
  }

  lemma {:induction false} RoutedOps(ops: seq<Op>, node: int, hasChannel: bool)
    ensures forall i :: 0 <= i < |Routed(ops, node, hasChannel)| ==>
      Routed(ops, node, hasChannel)[i].node == node && Routed(ops, node, hasChannel)[i].hasChannel == hasChannel
    decreases |ops|
  {
    if ops != [] { RoutedOps(ops[..|ops| - 1], node, hasChannel); }
  }

  ghost predicate AllOk(batches: seq<NodeBatch>, maxSize: int, maxBytes: int) {
    forall b :: 0 <= b < |batches| ==> BatchOk(batches[b], maxSize, maxBytes)
  }

  lemma AllOkAppend(a: seq<NodeBatch>, b: seq<NodeBatch>, maxSize: int, maxBytes: int)
    requires AllOk(a, maxSize, maxBytes) && AllOk(b, maxSize, maxBytes)
    ensures AllOk(a + b, maxSize, maxBytes)
  {
    hide BatchOk;
  }

  /** All operations are routed to this node and have no channel. */
  ghost predicate AllFor(ops: seq<Op>, node: int) {
    forall i :: 0 <= i < |ops| ==> ops[i].node == node && !ops[i].hasChannel
  }

  lemma AllForParts(a: seq<Op>, b: seq<Op>, node: int)
    requires AllFor(a + b, node)
    ensures AllFor(a, node) && AllFor(b, node)
  {
    forall i | 0 <= i < |a| ensures a[i].node == node && !a[i].hasChannel { assert (a + b)[i] == a[i]; }
    forall i | 0 <= i < |b| ensures b[i].node == node && !b[i].hasChannel { assert (a + b)[|a| + i] == b[i]; }
  }

  lemma {:induction false} TaggedOk(node: int, batches: seq<seq<Op>>, maxSize: int, maxBytes: int)
    requires AllFor(Concat(batches), node)
    requires forall b :: 0 <= b < |batches| ==> WithinLimits(batches[b], maxSize, maxBytes)
    ensures AllOk(Tagged(node, batches), maxSize, maxBytes)
    decreases |batches|
  {
    hide WithinLimits;
    if batches != [] {
      var n := |batches| - 1;
      AllForParts(Concat(batches[..n]), batches[n], node);
      TaggedOk(node, batches[..n], maxSize, maxBytes);
      AllOkAppend(Tagged(node, batches[..n]), [NodeBatch(node, batches[n])], maxSize, maxBytes);
    }
  }

  lemma {:induction false} NodeBatchesOk(ops: seq<Op>, nodes: seq<int>, maxSize: int, maxBytes: int)
    requires 0 < maxSize && 0 < maxBytes && NonNegative(ops)
    ensures AllOk(NodeBatches(ops, nodes, maxSize, maxBytes), maxSize, maxBytes)
    decreases |nodes|
  {
    hide BatchOk, Batches, Routed, Tagged, WithinLimits, Concat, Bytes, NonNegative;
    if nodes != [] {
      var front := nodes[..|nodes| - 1];
      var node, group := nodes[|nodes| - 1], Routed(ops, nodes[|nodes| - 1], false);
      NodeBatchesOk(ops, front, maxSize, maxBytes);
      RoutedNonNegative(ops, node, false);
      RoutedOps(ops, node, false);
      BatchesPartition(group, maxSize, maxBytes);
      TaggedOk(node, Batches(group, maxSize, maxBytes), maxSize, maxBytes);
      AllOkAppend(NodeBatches(ops, front, maxSize, maxBytes), Tagged(node, Batches(group, maxSize, maxBytes)), maxSize,
                  maxBytes);
    }
  }

  lemma {:induction false} ChannelBatchesOk(ops: seq<Op>, nodes: seq<int>, maxSize: int, maxBytes: int)
    ensures AllOk(ChannelBatches(ops, nodes), maxSize, maxBytes)
    decreases |nodes|
  {
    hide Routed, WithinLimits;
    if nodes != [] {
      var front := nodes[..|nodes| - 1];
      var node, group := nodes[|nodes| - 1], Routed(ops, nodes[|nodes| - 1], true);
      RoutedOps(ops, node, true);
      ChannelBatchesOk(ops, front, maxSize, maxBytes);
      AllOkAppend(if group == [] then [] else [NodeBatch(node, group)], ChannelBatches(ops, front), maxSize, maxBytes);
    }
  }

  lemma AllOkPermuted(a: seq<NodeBatch>, b: seq<NodeBatch>, maxSize: int, maxBytes: int)
    requires AllOk(a, maxSize, maxBytes) && multiset(a) == multiset(b)
    ensures AllOk(b, maxSize, maxBytes)
  {
    hide BatchOk;
    forall k | 0 <= k < |b| ensures BatchOk(b[k], maxSize, maxBytes) {
      assert b[k] in multiset(a);
      var i :| 0 <= i < |a| && a[i] == b[k];
    }
  }

  lemma GroupedOk(batches: seq<NodeBatch>, ops: seq<Op>, channelNodes: seq<int>, nodes: seq<int>, maxSize: int,
                  maxBytes: int)
    requires 0 < maxSize && 0 < maxBytes && NonNegative(ops)
    requires IsGrouping(batches, ops, channelNodes, nodes, maxSize, maxBytes)
    ensures AllOk(batches, maxSize, maxBytes)
  {
    hide AllOk, NodeBatches, ChannelBatches, NonNegative;
    var front := ChannelBatches(ops, channelNodes);
    NodeBatchesOk(ops, nodes, maxSize, maxBytes);
    ChannelBatchesOk(ops, channelNodes, maxSize, maxBytes);
    AllOkPermuted(NodeBatches(ops, nodes, maxSize, maxBytes), batches[|front|..], maxSize, maxBytes);
    AllOkAppend(front, batches[|front|..], maxSize, maxBytes);
    assert batches == front + batches[|front|..];
  }

  // ---------- the loops ----------

  /** The operations of each node, those with a channel or those without. */
  ghost predicate ByNode(groups: seq<seq<Op>>, ops: seq<Op>, nodes: seq<int>, hasChannel: bool) {
    |groups| == |nodes| && forall k :: 0 <= k < |nodes| ==> groups[k] == Routed(ops, nodes[k], hasChannel)
  }

  /** One more operation in the group of its node. */
  method AddTo(groups: seq<seq<Op>>, nodes: seq<int>, ghost ops: seq<Op>, op: Op) returns (groups': seq<seq<Op>>)
    requires DistinctNodes(nodes) && op.node in nodes && ByNode(groups, ops, nodes, op.hasChannel)
    ensures ByNode(groups', ops + [op], nodes, op.hasChannel)
  {
    var k := IndexOf(nodes, op.node);
    groups' := groups[k := groups[k] + [op]];
    assert (ops + [op])[..|ops|] == ops;
  }

  lemma OthersRouted(groups: seq<seq<Op>>, ops: seq<Op>, nodes: seq<int>, op: Op)
    requires ByNode(groups, ops, nodes, !op.hasChannel)
    ensures ByNode(groups, ops + [op], nodes, !op.hasChannel)
  {
    assert (ops + [op])[..|ops|] == ops;
  }

  /** Operations by node; those that already have a channel apart. The nodes are listed as the hash maps list them. */
  method Distribute(ops: seq<Op>, channelNodes: seq<int>, nodes: seq<int>)
    returns (withChannel: seq<seq<Op>>, grouped: seq<seq<Op>>)
    requires DistinctNodes(channelNodes) && DistinctNodes(nodes)
    requires forall i :: 0 <= i < |ops| ==> ops[i].node in if ops[i].hasChannel then channelNodes else nodes
    ensures ByNode(withChannel, ops, channelNodes, true) && ByNode(grouped, ops, nodes, false)
  {
    withChannel, grouped := seq(|channelNodes|, _ => []), seq(|nodes|, _ => []);
    assert ByNode(withChannel, [], channelNodes, true) && ByNode(grouped, [], nodes, false);
    hide ByNode;
    var i := 0;
    assert ops[..0] == [];
    while i < |ops|
      invariant 0 <= i <= |ops|
      invariant ByNode(withChannel, ops[..i], channelNodes, true) && ByNode(grouped, ops[..i], nodes, false)
    {
      assert ops[..i + 1] == ops[..i] + [ops[i]];
      if ops[i].hasChannel {
        withChannel := AddTo(withChannel, channelNodes, ops[..i], ops[i]);
        OthersRouted(grouped, ops[..i], nodes, ops[i]);
      } else {
        grouped := AddTo(grouped, nodes, ops[..i], ops[i]);
        OthersRouted(withChannel, ops[..i], channelNodes, ops[i]);
      }
      i := i + 1;
    }
    assert ops[..i] == ops;
  }

  /** Any order of the batches. */
  method Shuffle(batches: seq<NodeBatch>) returns (shuffled: seq<NodeBatch>)
    ensures multiset(shuffled) == multiset(batches)
  {
    shuffled := batches;
    var i := 0;
    while i < |shuffled|
      invariant 0 <= i <= |shuffled| && multiset(shuffled) == multiset(batches)
      decreases |shuffled| - i
    {
      var j: int := *;
      if i <= j < |shuffled| { shuffled := shuffled[i := shuffled[j]][j := shuffled[i]]; }
      i := i + 1;
    }
  }

  /** Grouping, cutting, shuffling and moving operations with a channel to the front. */
  method GroupOpsByNodeId(ops: seq<Op>, channelNodes: seq<int>, nodes: seq<int>, maxSize: int, maxBytes: int,
                          randomShuffle: bool)
    returns (batches: seq<NodeBatch>)
    requires 0 < maxSize && 0 < maxBytes && NonNegative(ops) && DistinctNodes(channelNodes) && DistinctNodes(nodes)
    requires forall i :: 0 <= i < |ops| ==> ops[i].node in if ops[i].hasChannel then channelNodes else nodes
    ensures IsGrouping(batches, ops, channelNodes, nodes, maxSize, maxBytes)
    ensures !randomShuffle ==> batches == ChannelBatches(ops, channelNodes) + NodeBatches(ops, nodes, maxSize, maxBytes)
  {
    hide Batches, NonNegative, Routed, Bytes, Tagged;
    var withChannel, grouped := Distribute(ops, channelNodes, nodes);
    batches := [];
    var k := 0;
    while k < |nodes|
      invariant 0 <= k <= |nodes| && batches == NodeBatches(ops, nodes[..k], maxSize, maxBytes)
    {
      RoutedNonNegative(ops, nodes[k], false);
      var cut := CutBatches(grouped[k], maxSize, maxBytes);
      assert nodes[..k + 1][..k] == nodes[..k];
      batches := batches + Tagged(nodes[k], cut);
      k := k + 1;
    }
    assert nodes[..k] == nodes;
    if randomShuffle { batches := Shuffle(batches); }
    ghost var others := batches;
    batches := PutInFront(ops, channelNodes, withChannel, batches);
    assert batches[|ChannelBatches(ops, channelNodes)|..] == others;
  }

  method PutInFront(ops: seq<Op>, nodes: seq<int>, withChannel: seq<seq<Op>>, others: seq<NodeBatch>)
    returns (batches: seq<NodeBatch>)
    requires |withChannel| == |nodes| && forall k :: 0 <= k < |nodes| ==> withChannel[k] == Routed(ops, nodes[k], true)
    ensures batches == ChannelBatches(ops, nodes) + others
  {
    hide Routed;
    batches := others;
    var k := 0;
    while k < |nodes|
      invariant 0 <= k <= |nodes| && batches == ChannelBatches(ops, nodes[..k]) + others
    {
      assert nodes[..k + 1][..k] == nodes[..k];
      if withChannel[k] != [] { batches := [NodeBatch(nodes[k], withChannel[k])] + batches; }
      k := k + 1;
    }
    assert nodes[..k] == nodes;
  }

  method IndexOf(nodes: seq<int>, node: int) returns (k: int)
    requires node in nodes
    ensures 0 <= k < |nodes| && nodes[k] == node
  {
    k := 0;
    while nodes[k] != node
      invariant 0 <= k < |nodes| && node !in nodes[..k]
      decreases |nodes| - k
    {
      assert nodes == nodes[..k] + [nodes[k]] + nodes[k + 1..];
      k := k + 1;
    }
  }
}
