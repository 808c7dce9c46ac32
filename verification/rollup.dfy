/** The accumulators every capacity command shares: what pods put into a
    bucket (`Usage`), what nodes put into a bucket (`Supply`), the per-pod and
    per-node steps the commands perform, and reference sums that say what a
    bucket must hold after the walk. */
module Rollup {
  import opened Inventory

  /** The synthetic bucket of pods that are not bound to a node. */
  const Unassigned := "*unassigned*"
  /** The synthetic row holding the sum of the other rows. */
  const Total := "*total*"

  /** The node-level bucket a pod is routed to: its node, or the unassigned
      bucket when it is not bound to one. */
  function Target(p: Pod): string {
    if p.nodeName == "" then Unassigned else p.nodeName
  }

  /** Pod-side totals of a bucket: all pods, non-terminal pods, and the
      requests and limits of the non-terminal pods' containers. */
  datatype Usage = Usage(pods: int, nonTerm: int, requests: Dims, limits: Dims)
  {
    function Plus(o: Usage): Usage {
      Usage(pods + o.pods, nonTerm + o.nonTerm, requests.Plus(o.requests), limits.Plus(o.limits))
    }
  }

  const NoUsage := Usage(0, 0, NoDims, NoDims)

  function SumRequests(cs: seq<Container>): Dims {
    if |cs| == 0 then NoDims else cs[0].requests.Plus(SumRequests(cs[1..]))
  }

  function SumLimits(cs: seq<Container>): Dims {
    if |cs| == 0 then NoDims else cs[0].limits.Plus(SumLimits(cs[1..]))
  }

  /** What one pod contributes to a bucket it is routed to: it is always
      counted, and only a non-terminal pod is counted as non-terminal and
      brings its containers' requests and limits. */
  function Demand(p: Pod): Usage {
    if NonTerminal(p) then Usage(1, 1, SumRequests(p.containers), SumLimits(p.containers))
    else Usage(1, 0, NoDims, NoDims)
  }

  /** Adds each container's requests and limits in turn, as the commands'
      inner container loops do. */
  function AddContainers(u: Usage, cs: seq<Container>): (r: Usage)
    ensures r.pods == u.pods && r.nonTerm == u.nonTerm
    ensures r.requests == u.requests.Plus(SumRequests(cs))
    ensures r.limits == u.limits.Plus(SumLimits(cs))
    decreases |cs|
  {
    if |cs| == 0 then u
    else AddContainers(u.(requests := u.requests.Plus(cs[0].requests), limits := u.limits.Plus(cs[0].limits)), cs[1..])
  }

  /** The per-pod step of every bucketed command: count the pod, and if it
      is non-terminal count it again and add its containers. */
  function AddPod(u: Usage, p: Pod): (r: Usage)
    ensures r == u.Plus(Demand(p))
  {
    var counted := u.(pods := u.pods + 1);
    if NonTerminal(p) then AddContainers(counted.(nonTerm := counted.nonTerm + 1), p.containers)
    else counted
  }

  /** Reference: the combined contribution of a sequence of pods. */
  function TotalDemand(pods: seq<Pod>): Usage {
    if |pods| == 0 then NoUsage else TotalDemand(pods[..|pods| - 1]).Plus(Demand(pods[|pods| - 1]))
  }

  function NonTerminalPods(pods: seq<Pod>): (r: seq<Pod>)
    ensures |r| <= |pods|
    ensures forall p :: p in r <==> p in pods && NonTerminal(p)
  {
    if |pods| == 0 then []
    else NonTerminalPods(pods[..|pods| - 1]) + (if NonTerminal(pods[|pods| - 1]) then [pods[|pods| - 1]] else [])
  }

  lemma {:induction false} TotalDemandAppend(a: seq<Pod>, b: seq<Pod>)
    ensures TotalDemand(a + b) == TotalDemand(a).Plus(TotalDemand(b))
    decreases |b|
  {
    if |b| > 0 {
      var b' := b[..|b| - 1];
      assert (a + b)[..|a + b| - 1] == a + b';
      TotalDemandAppend(a, b');
    } else {
      assert a + b == a;
    }
  }

  /** The combined contribution counts every pod once, counts exactly the
      non-terminal ones as non-terminal, and never exceeds the pod count. */
  lemma {:induction false} TotalDemandCounts(pods: seq<Pod>)
    ensures TotalDemand(pods).pods == |pods|
    ensures TotalDemand(pods).nonTerm == |NonTerminalPods(pods)|
    ensures 0 <= TotalDemand(pods).nonTerm <= TotalDemand(pods).pods
    decreases |pods|
  {
    if |pods| > 0 {
      TotalDemandCounts(pods[..|pods| - 1]);
    }
  }

  /** The pods whose key (node, namespace, ...) lies in `ks`, in input order. */
  function PodsWhere(pods: seq<Pod>, key: Pod -> string, ks: set<string>): (r: seq<Pod>)
    ensures |r| <= |pods|
    ensures forall p :: p in r <==> p in pods && key(p) in ks
  {
    if |pods| == 0 then []
    else PodsWhere(pods[..|pods| - 1], key, ks) + (if key(pods[|pods| - 1]) in ks then [pods[|pods| - 1]] else [])
  }

  lemma UsageRegroup(a: Usage, b: Usage, c: Usage, d: Usage)
    ensures a.Plus(b).Plus(c.Plus(d)) == a.Plus(c).Plus(b.Plus(d))
  {
  }

  lemma TotalDemandOfOne(p: Pod)
    ensures TotalDemand([p]) == Demand(p)
    ensures TotalDemand([]) == NoUsage
  {
    assert [p][..0] == [];
    assert TotalDemand([p]) == NoUsage.Plus(Demand(p));
    NoUsageIsNeutral(Demand(p));
  }

  lemma NoUsageIsNeutral(u: Usage)
    ensures NoUsage.Plus(u) == u
    ensures u.Plus(NoUsage) == u
  {
  }

  /** Splitting a key set into two disjoint parts splits the demand. */
  lemma {:induction false} DemandSplits(pods: seq<Pod>, key: Pod -> string, ks: set<string>, x: string)
    requires x !in ks
    ensures TotalDemand(PodsWhere(pods, key, ks + {x}))
         == TotalDemand(PodsWhere(pods, key, ks)).Plus(TotalDemand(PodsWhere(pods, key, {x})))
    decreases |pods|
  {
    if |pods| == 0 {
      assert TotalDemand([]) == NoUsage;
    } else {
      var init, p := pods[..|pods| - 1], pods[|pods| - 1];
      var all, inKs, inX := PodsWhere(init, key, ks + {x}), PodsWhere(init, key, ks), PodsWhere(init, key, {x});
      DemandSplits(init, key, ks, x);
      var a := if key(p) in ks + {x} then [p] else [];
      var b := if key(p) in ks then [p] else [];
      var c := if key(p) in {x} then [p] else [];
      assert PodsWhere(pods, key, ks + {x}) == all + a;
      assert PodsWhere(pods, key, ks) == inKs + b;
      assert PodsWhere(pods, key, {x}) == inX + c;
      TotalDemandAppend(all, a);
      TotalDemandAppend(inKs, b);
      TotalDemandAppend(inX, c);
      TotalDemandOfOne(p);
      assert TotalDemand(a) == TotalDemand(b).Plus(TotalDemand(c));
      UsageRegroup(TotalDemand(inKs), TotalDemand(inX), TotalDemand(b), TotalDemand(c));
    }
  }

  /** When every pod's key is in `ks`, no pod is filtered out. */
  lemma {:induction false} AllPodsWhere(pods: seq<Pod>, key: Pod -> string, ks: set<string>)
    requires forall p :: p in pods ==> key(p) in ks
    ensures PodsWhere(pods, key, ks) == pods
    decreases |pods|
  {
    if |pods| > 0 {
      AllPodsWhere(pods[..|pods| - 1], key, ks);
      assert pods == pods[..|pods| - 1] + [pods[|pods| - 1]];
    }
  }

  /** One more pod adds its demand to a filtered sum exactly when its key
      passes the filter. */
  lemma PodsWhereStep(pods: seq<Pod>, key: Pod -> string, ks: set<string>)
    requires |pods| > 0
    ensures key(pods[|pods| - 1]) in ks ==>
      TotalDemand(PodsWhere(pods, key, ks)) == TotalDemand(PodsWhere(pods[..|pods| - 1], key, ks)).Plus(Demand(pods[|pods| - 1]))
    ensures key(pods[|pods| - 1]) !in ks ==>
      TotalDemand(PodsWhere(pods, key, ks)) == TotalDemand(PodsWhere(pods[..|pods| - 1], key, ks))
  {
    var init, p := pods[..|pods| - 1], pods[|pods| - 1];
    var here := if key(p) in ks then [p] else [];
    assert PodsWhere(pods, key, ks) == PodsWhere(init, key, ks) + here;
    TotalDemandAppend(PodsWhere(init, key, ks), here);
    TotalDemandOfOne(p);
    NoUsageIsNeutral(TotalDemand(PodsWhere(init, key, ks)));
  }

  lemma UsageAssociates(a: Usage, b: Usage, c: Usage)
    ensures a.Plus(b).Plus(c) == a.Plus(b.Plus(c))
  {
  }

  /** Reference: the sum of the demands routed to each key of `names`. */
  function DemandPerKey(pods: seq<Pod>, key: Pod -> string, names: seq<string>): Usage {
    if |names| == 0 then NoUsage
    else DemandPerKey(pods, key, names[..|names| - 1]).Plus(TotalDemand(PodsWhere(pods, key, {names[|names| - 1]})))
  }

  function SetOf(names: seq<string>): (s: set<string>)
    ensures forall x :: x in s <==> x in names
  {
    set x | x in names
  }

  lemma SetOfSnoc(names: seq<string>, x: string)
    ensures SetOf(names + [x]) == SetOf(names) + {x}
  {
  }

  /** Conservation: routing each pod to the one bucket named by its key and
      then adding the buckets up over distinct names gives exactly the demand
      of the pods whose key is among those names. */
  lemma {:induction false} PartitionConservesDemand(pods: seq<Pod>, key: Pod -> string, names: seq<string>)
    requires forall i, j :: 0 <= i < j < |names| ==> names[i] != names[j]
    ensures DemandPerKey(pods, key, names) == TotalDemand(PodsWhere(pods, key, SetOf(names)))
    decreases |names|
  {
    if |names| == 0 {
      assert SetOf(names) == {};
      NoneWhereEmpty(pods, key);
    } else {
      var init, x := names[..|names| - 1], names[|names| - 1];
      PartitionConservesDemand(pods, key, init);
      var before := SetOf(init);
      LastIsNew(names);
      DemandSplits(pods, key, before, x);
    }
  }

  lemma LastIsNew(names: seq<string>)
    requires |names| > 0
    requires forall i, j :: 0 <= i < j < |names| ==> names[i] != names[j]
    ensures names[|names| - 1] !in SetOf(names[..|names| - 1])
    ensures SetOf(names) == SetOf(names[..|names| - 1]) + {names[|names| - 1]}
  {
    var init, x := names[..|names| - 1], names[|names| - 1];
    assert names == init + [x];
  }

  lemma {:induction false} NoneWhereEmpty(pods: seq<Pod>, key: Pod -> string)
    ensures TotalDemand(PodsWhere(pods, key, {})) == NoUsage
  {
    NothingWhereEmpty(pods, key);
    TotalDemandOfOne(Pod("", "", Pending, []));
  }

  lemma {:induction false} NothingWhereEmpty(pods: seq<Pod>, key: Pod -> string)
    ensures PodsWhere(pods, key, {}) == []
    decreases |pods|
  {
    if |pods| > 0 {
      NothingWhereEmpty(pods[..|pods| - 1], key);
    }
  }

  /** Node-side totals of a bucket. */
  datatype Supply = Supply(
    nodes: int,
    ready: int,
    unschedulable: int,
    capacityPods: int,
    capacity: Dims,
    allocatablePods: int,
    allocatable: Dims)
  {
    function Plus(o: Supply): Supply {
      Supply(nodes + o.nodes, ready + o.ready, unschedulable + o.unschedulable,
             capacityPods + o.capacityPods, capacity.Plus(o.capacity),
             allocatablePods + o.allocatablePods, allocatable.Plus(o.allocatable))
    }
  }

  const NoSupply := Supply(0, 0, 0, 0, NoDims, 0, NoDims)

  /** The positions of the Ready=True conditions in a node's status. */
  ghost function ReadyIndices(conds: seq<NodeCondition>): set<int> {
    set i | 0 <= i < |conds| && IsReadyCondition(conds[i])
  }

  /** Counts the Ready=True conditions one by one, without stopping at the
      first, as the cluster and per-role commands do: every matching
      condition adds one. */
  function ReadyConditions(conds: seq<NodeCondition>): (n: nat)
    ensures n == |ReadyIndices(conds)|
    ensures n <= |conds|
    ensures n > 0 <==> exists i :: 0 <= i < |conds| && IsReadyCondition(conds[i])
  {
    if |conds| == 0 then 0
    else
      var init, last := conds[..|conds| - 1], conds[|conds| - 1];
      ReadyIndicesSnoc(init, last);
      assert conds == init + [last];
      ReadyConditions(init) + (if IsReadyCondition(last) then 1 else 0)
  }

  /** Appending one condition adds its position to the ready positions
      exactly when it is Ready=True. */
  lemma ReadyIndicesSnoc(conds: seq<NodeCondition>, c: NodeCondition)
    ensures ReadyIndices(conds + [c]) == ReadyIndices(conds) + (if IsReadyCondition(c) then {|conds|} else {})
    ensures |conds| !in ReadyIndices(conds)
  {
    var xs := conds + [c];
    forall i | 0 <= i < |conds|
      ensures xs[i] == conds[i]
    {
    }
  }

  /** Each further Ready=True condition a node reports adds one to its
      count, however many it already has. */
  lemma {:induction false} ExtraReadyCondition(conds: seq<NodeCondition>, c: NodeCondition)
    requires IsReadyCondition(c)
    ensures ReadyConditions(conds + [c]) == ReadyConditions(conds) + 1
  {
    ReadyIndicesSnoc(conds, c);
  }

  /** The per-node step of the cluster and per-role commands: one more node,
      its Ready=True conditions, its unschedulable flag, its capacity and its
      allocatable amounts. */
  function AddNode(s: Supply, n: Node): Supply {
    Supply(s.nodes + 1,
           s.ready + ReadyConditions(n.conditions),
           s.unschedulable + (if n.unschedulable then 1 else 0),
           s.capacityPods + n.capacityPods,
           s.capacity.Plus(n.capacity),
           s.allocatablePods + n.allocatablePods,
           s.allocatable.Plus(n.allocatable))
  }

  function CountUnschedulable(nodes: seq<Node>): (n: nat)
    ensures n <= |nodes|
  {
    if |nodes| == 0 then 0
    else CountUnschedulable(nodes[..|nodes| - 1]) + (if nodes[|nodes| - 1].unschedulable then 1 else 0)
  }

  function SumCapacityPods(nodes: seq<Node>): int {
    if |nodes| == 0 then 0 else SumCapacityPods(nodes[..|nodes| - 1]) + nodes[|nodes| - 1].capacityPods
  }

  function SumAllocatablePods(nodes: seq<Node>): int {
    if |nodes| == 0 then 0 else SumAllocatablePods(nodes[..|nodes| - 1]) + nodes[|nodes| - 1].allocatablePods
  }

  function SumCapacity(nodes: seq<Node>): Dims {
    if |nodes| == 0 then NoDims else SumCapacity(nodes[..|nodes| - 1]).Plus(nodes[|nodes| - 1].capacity)
  }

  function SumAllocatable(nodes: seq<Node>): Dims {
    if |nodes| == 0 then NoDims else SumAllocatable(nodes[..|nodes| - 1]).Plus(nodes[|nodes| - 1].allocatable)
  }

  /** The reference count of the ready figure: over all nodes, the number
      of positions holding a Ready=True condition. */
  ghost function SumReady(nodes: seq<Node>): int {
    if |nodes| == 0 then 0 else SumReady(nodes[..|nodes| - 1]) + |ReadyIndices(nodes[|nodes| - 1].conditions)|
  }

  /** A node whose status carries at most one Ready=True condition, as the
      kubelet reports it. */
  predicate SingleReadyCondition(n: Node) {
    ReadyConditions(n.conditions) <= 1
  }

  /** The node walk of the cluster and per-role commands, in input order:
      one node per node, capacity and allocatable summed exactly. */
  function SupplyOf(nodes: seq<Node>): (s: Supply)
    ensures s.nodes == |nodes|
    ensures s.unschedulable == CountUnschedulable(nodes)
    ensures s.capacityPods == SumCapacityPods(nodes) && s.capacity == SumCapacity(nodes)
    ensures s.allocatablePods == SumAllocatablePods(nodes) && s.allocatable == SumAllocatable(nodes)
    ensures s.ready == SumReady(nodes)
    ensures 0 <= s.ready
    ensures (forall i :: 0 <= i < |nodes| ==> SingleReadyCondition(nodes[i])) ==> s.ready <= s.nodes
  {
    if |nodes| == 0 then NoSupply
    else
      var init := nodes[..|nodes| - 1];
      assert forall i :: 0 <= i < |init| ==> init[i] == nodes[i];
      AddNode(SupplyOf(init), nodes[|nodes| - 1])
  }

  lemma SupplyOfSnoc(nodes: seq<Node>, n: Node)
    ensures SupplyOf(nodes + [n]) == AddNode(SupplyOf(nodes), n)
  {
    assert (nodes + [n])[..|nodes|] == nodes;
  }

  /** The record the cluster and per-role commands fill. */
  datatype ClusterCapacityData = ClusterCapacityData(
    supply: Supply,
    usage: Usage,
    unready: int,
    availablePods: int,
    available: Dims)

  const EmptyClusterData := ClusterCapacityData(NoSupply, NoUsage, 0, 0, NoDims)

  /** The derived fields, recomputed from the accumulated ones: unready nodes,
      pods still schedulable, and resources not yet requested. None of them is
      clamped at zero. */
  function Finalize(c: ClusterCapacityData): ClusterCapacityData {
    c.(unready := c.supply.nodes - c.supply.ready,
       availablePods := c.supply.allocatablePods - c.usage.nonTerm,
       available := c.supply.allocatable.Minus(c.usage.requests))
  }

  predicate Finalized(c: ClusterCapacityData) {
    && c.supply.nodes == c.supply.ready + c.unready
    && c.availablePods == c.supply.allocatablePods - c.usage.nonTerm
    && c.available == c.supply.allocatable.Minus(c.usage.requests)
  }
}
