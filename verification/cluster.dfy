/** The whole-cluster command (cmd/capacity/cluster.go): one record folded
    from every node and every pod. */
module ClusterCapacity {
  import opened Inventory
  import opened Rollup

  /** The request/limit loop over the non-terminal pod list: every container
      of every listed pod, in order. Pod counts are left alone. */
  function AddListedContainers(u: Usage, listed: seq<Pod>): (r: Usage)
    ensures r.pods == u.pods && r.nonTerm == u.nonTerm
    ensures (forall p :: p in listed ==> NonTerminal(p)) ==>
              r.requests == u.requests.Plus(TotalDemand(listed).requests) &&
              r.limits == u.limits.Plus(TotalDemand(listed).limits)
  {
    if |listed| == 0 then u
    else
      var init := listed[..|listed| - 1];
      assert forall p :: p in init ==> p in listed;
      AddContainers(AddListedContainers(u, init), listed[|listed| - 1].containers)
  }

  /** Terminal pods bring no requests or limits, so dropping them does not
      change the demanded resources. */
  lemma {:induction false} TerminalPodsDemandNothing(pods: seq<Pod>)
    ensures TotalDemand(NonTerminalPods(pods)).requests == TotalDemand(pods).requests
    ensures TotalDemand(NonTerminalPods(pods)).limits == TotalDemand(pods).limits
    decreases |pods|
  {
    if |pods| > 0 {
      var init, p := pods[..|pods| - 1], pods[|pods| - 1];
      TerminalPodsDemandNothing(init);
      var tail := if NonTerminal(p) then [p] else [];
      TotalDemandAppend(NonTerminalPods(init), tail);
      TotalDemandOfOne(p);
    }
  }

  /** The pod side of the cluster command: the length of the full pod list,
      the length of the non-terminal list, and the requests and limits of
      the non-terminal list's containers. The second, field-selected pod list
      of the source (phase neither Succeeded nor Failed) is the non-terminal
      part of the same snapshot. */
  function ClusterUsage(pods: seq<Pod>): (u: Usage)
    ensures u.pods == |pods| && u.nonTerm == |NonTerminalPods(pods)|
    ensures u == TotalDemand(pods)
  {
    var nonTermPods := NonTerminalPods(pods);
    var u := AddListedContainers(Usage(|pods|, |nonTermPods|, NoDims, NoDims), nonTermPods);
    TerminalPodsDemandNothing(pods);
    TotalDemandCounts(pods);
    var d := TotalDemand(pods);
    assert u.requests == d.requests && u.limits == d.limits;
    assert u.pods == d.pods && u.nonTerm == d.nonTerm;
    u
  }

  /** The cluster command: node totals over every node, pod totals over every
      pod, then the derived fields. */
  function AggregateCluster(nodes: seq<Node>, pods: seq<Pod>): (c: ClusterCapacityData)
    ensures c.supply.nodes == |nodes|
    ensures c.supply.unschedulable == CountUnschedulable(nodes)
    ensures c.supply.capacityPods == SumCapacityPods(nodes) && c.supply.capacity == SumCapacity(nodes)
    ensures c.supply.allocatablePods == SumAllocatablePods(nodes) && c.supply.allocatable == SumAllocatable(nodes)
    ensures c.supply.ready == SumReady(nodes)
    ensures c.usage.pods == |pods| && c.usage.nonTerm == |NonTerminalPods(pods)|
    ensures c.usage == TotalDemand(pods)
    ensures Finalized(c)
  {
    Finalize(ClusterCapacityData(SupplyOf(nodes), ClusterUsage(pods), 0, 0, NoDims))
  }

  /** With at most one Ready=True condition per node the ready and unready
      counts both lie between zero and the node count; without that, each
      duplicate condition is counted and unready can go negative. */
  lemma ReadinessBounded(nodes: seq<Node>, pods: seq<Pod>)
    requires forall i :: 0 <= i < |nodes| ==> SingleReadyCondition(nodes[i])
    ensures 0 <= AggregateCluster(nodes, pods).supply.ready <= |nodes|
    ensures 0 <= AggregateCluster(nodes, pods).unready <= |nodes|
  {
    assert AggregateCluster(nodes, pods).supply == SupplyOf(nodes);
  }

  /** The ready count is not a node count: a single node that reports
      Ready=True twice makes the cluster one node short of unready, so the
      unready figure goes negative. */
  lemma DuplicateReadyMakesUnreadyNegative(pods: seq<Pod>)
    ensures var ready := NodeCondition("Ready", ConditionTrue);
      var n := Node("n", [], [ready, ready], false, 0, NoDims, 0, NoDims);
      AggregateCluster([n], pods).unready == -1
  {
    var ready := NodeCondition("Ready", ConditionTrue);
    var n := Node("n", [], [ready, ready], false, 0, NoDims, 0, NoDims);
    assert ReadyIndices(n.conditions) == {0, 1};
    assert SumReady([n]) == 2 by {
      assert [n][..0] == [];
    }
    assert Finalized(AggregateCluster([n], pods));
  }
}
