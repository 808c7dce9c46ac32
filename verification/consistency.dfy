/** How the figures of the different capacity commands relate when they are
    computed from the same snapshot. */
module CrossCommand {
  import opened Inventory
  import opened Rollup
  import opened ClusterCapacity
  import opened NodeCapacity
  import opened NamespaceCapacity

  /** With `*unassigned*` shown, the per-node `*total*` row reports the same
      capacity, allocatable and pod demand as the cluster command. */
  lemma NodeTotalMatchesCluster(nodes: seq<Node>, pods: seq<Pod>, showTotal: bool)
    requires ValidSnapshot(nodes, pods)
    ensures var t, c := AggregateNodes(nodes, pods, true, showTotal).data[Total], AggregateCluster(nodes, pods);
      && t.usage == c.usage
      && t.capacityPods == c.supply.capacityPods && t.capacity == c.supply.capacity
      && t.allocatablePods == c.supply.allocatablePods && t.allocatable == c.supply.allocatable
  {
    TotalRowUsage(nodes, pods, true, showTotal);
    TotalRowSupply(nodes, pods, true, showTotal);
  }

  /** The per-node `*total*` row subtracts only the pods bound to a node
      from allocatable, while the cluster command subtracts every
      non-terminal pod: the two available-pods figures differ by exactly the
      non-terminal pods that are not bound to a node. */
  lemma AvailablePodsGap(nodes: seq<Node>, pods: seq<Pod>, showUnassigned: bool, showTotal: bool)
    requires ValidSnapshot(nodes, pods)
    ensures AggregateNodes(nodes, pods, showUnassigned, showTotal).data[Total].availablePods
         == AggregateCluster(nodes, pods).availablePods + TotalDemand(PodsWhere(pods, Target, {Unassigned})).nonTerm
  {
    TotalRowAvailable(nodes, pods, showUnassigned, showTotal);
    TotalRowSupply(nodes, pods, showUnassigned, showTotal);
    BoundAndUnboundDemand(nodes, pods);
  }

  /** The pods bound to a node and the unbound ones together make up the
      whole snapshot. */
  lemma BoundAndUnboundDemand(nodes: seq<Node>, pods: seq<Pod>)
    requires ValidSnapshot(nodes, pods)
    ensures TotalDemand(PodsWhere(pods, Target, SetOf(NamesOf(nodes)))).Plus(TotalDemand(PodsWhere(pods, Target, {Unassigned})))
         == TotalDemand(pods)
  {
    var bound := SetOf(NamesOf(nodes));
    assert Unassigned !in bound;
    DemandSplits(pods, Target, bound, Unassigned);
    EveryPodRouted(nodes, pods);
    AllPodsWhere(pods, Target, bound + {Unassigned});
  }

  /** The per-namespace `*total*` row reports the same pod counts, requests
      and limits as the cluster command. */
  lemma NamespaceTotalMatchesCluster(nodes: seq<Node>, listed: seq<string>, pods: seq<Pod>, showTotal: bool)
    requires ValidNamespaces(listed, pods)
    ensures AggregateNamespaces(listed, pods, showTotal).data[Total].usage == AggregateCluster(nodes, pods).usage
  {
    NamespaceTotal(listed, pods, showTotal);
  }

  /** The per-node command's Ready flag, which stops at the first match, and
      the counter of the cluster and per-role commands, which does not, agree
      on which nodes are ready: the flag is set exactly when the counter is
      non-zero. */
  lemma ReadyFlagMatchesReadyCount(n: Node)
    ensures NodeReady(n.conditions) <==> ReadyConditions(n.conditions) > 0
  {
  }
}
