/** The per-node command (cmd/capacity/node.go): one record per node, a
    record for pods not bound to a node (`*unassigned*`) and a `*total*`
    record summing the printed rows, plus an index of node names by role
    signature for the sort-by-role display. */
module NodeCapacity {
  import opened Strings
  import opened Inventory
  import opened Rollup
  import opened Roles

  /** The record of one row of the per-node command. */
  datatype NodeCapacityData = NodeCapacityData(
    ready: bool,
    schedulable: bool,
    roles: set<string>,
    capacityPods: int,
    capacity: Dims,
    allocatablePods: int,
    allocatable: Dims,
    usage: Usage,
    availablePods: int,
    available: Dims)

  /** A freshly allocated record: every field zero, false or empty. */
  const EmptyNodeData := NodeCapacityData(false, false, {}, 0, NoDims, 0, NoDims, NoUsage, 0, NoDims)

  /** The group key under which the synthetic rows are listed when rows are
      grouped by role. */
  const SyntheticGroup := "~"

  /** The per-node readiness scan: stops at the first Ready=True condition. */
  function NodeReady(conds: seq<NodeCondition>): (ready: bool)
    ensures ready <==> exists i :: 0 <= i < |conds| && IsReadyCondition(conds[i])
  {
    if |conds| == 0 then false
    else if IsReadyCondition(conds[0]) then true
    else
      var rest := NodeReady(conds[1..]);
      assert rest <==> exists i :: 1 <= i < |conds| && IsReadyCondition(conds[i]) by {
        if exists i :: 1 <= i < |conds| && IsReadyCondition(conds[i]) {
          var i :| 1 <= i < |conds| && IsReadyCondition(conds[i]);
          assert IsReadyCondition(conds[1..][i - 1]);
        }
      }
      rest
  }

  /** A node's row as the node walk fills it. */
  function NodeRecord(n: Node): NodeCapacityData {
    EmptyNodeData.(
      ready := NodeReady(n.conditions),
      schedulable := !n.unschedulable,
      roles := RoleSet(n.labels),
      capacityPods := n.capacityPods,
      capacity := n.capacity,
      allocatablePods := n.allocatablePods,
      allocatable := n.allocatable)
  }

  /** The list filed under `key`, empty when there is none yet. */
  function Group(m: map<string, seq<string>>, key: string): seq<string> {
    if key in m then m[key] else []
  }

  /** The state of the node walk: rows by name, node names in input order, and
      node names grouped by role signature. */
  datatype NodeWalk = NodeWalk(data: map<string, NodeCapacityData>, names: seq<string>, byRole: map<string, seq<string>>)

  /** The node walk: a row per node, its name appended to the name list and
      to the group of its role signature. */
  function WalkNodes(nodes: seq<Node>): (w: NodeWalk)
    ensures w.names == NamesOf(nodes)
    ensures w.data.Keys == SetOf(NamesOf(nodes))
    ensures forall k :: k in w.data ==> w.data[k].usage == NoUsage
  {
    if |nodes| == 0 then NodeWalk(map[], [], map[])
    else
      var init, n := nodes[..|nodes| - 1], nodes[|nodes| - 1];
      var w := WalkNodes(init);
      var sig := RoleSignature(n.labels);
      SetOfSnoc(NamesOf(init), n.name);
      NodeWalk(w.data[n.name := NodeRecord(n)], w.names + [n.name], w.byRole[sig := Group(w.byRole, sig) + [n.name]])
  }

  /** With distinct names every node's row is the one its own walk step wrote. */
  lemma {:induction false} WalkNodesRecord(nodes: seq<Node>, i: int)
    requires Distinct(NamesOf(nodes))
    requires 0 <= i < |nodes|
    ensures WalkNodes(nodes).data[nodes[i].name] == NodeRecord(nodes[i])
    decreases |nodes|
  {
    var init := nodes[..|nodes| - 1];
    if i < |init| {
      var names := NamesOf(nodes);
      DistinctInit(names);
      assert NamesOf(init) == names[..|names| - 1];
      WalkNodesRecord(init, i);
      assert names[i] != names[|names| - 1];
    }
  }

  /** Reference: the names of the nodes with role signature `sig`, in input
      order. */
  function NamesWithSignature(nodes: seq<Node>, sig: string): (names: seq<string>)
    ensures |names| <= |nodes|
  {
    if |nodes| == 0 then []
    else
      var n := nodes[|nodes| - 1];
      NamesWithSignature(nodes[..|nodes| - 1], sig) + (if RoleSignature(n.labels) == sig then [n.name] else [])
  }

  /** The role index lists, under each signature, exactly the nodes with that
      signature, each once and in input order, and has a group for a
      signature exactly when some node has it. */
  lemma {:induction false} WalkNodesGroups(nodes: seq<Node>, sig: string)
    ensures Group(WalkNodes(nodes).byRole, sig) == NamesWithSignature(nodes, sig)
    ensures sig in WalkNodes(nodes).byRole <==> NamesWithSignature(nodes, sig) != []
    decreases |nodes|
  {
    if |nodes| > 0 {
      WalkNodesGroups(nodes[..|nodes| - 1], sig);
    }
  }

  /** The pod walk: each pod is added to the row of its target. */
  function AddPodsToNodes(data: map<string, NodeCapacityData>, pods: seq<Pod>): (r: map<string, NodeCapacityData>)
    requires forall p :: p in pods ==> Target(p) in data
    ensures r.Keys == data.Keys
  {
    if |pods| == 0 then data
    else
      var init, p := pods[..|pods| - 1], pods[|pods| - 1];
      assert forall q :: q in init ==> q in pods;
      var d1 := AddPodsToNodes(data, init);
      var t := Target(p);
      d1[t := d1[t].(usage := AddPod(d1[t].usage, p))]
  }

  /** After the pod walk a row's usage is the demand of exactly the pods
      routed to it, and no other field of the row changes. */
  lemma {:induction false} AddPodsToNodesRow(data: map<string, NodeCapacityData>, pods: seq<Pod>, k: string)
    requires forall p :: p in pods ==> Target(p) in data
    requires k in data
    ensures AddPodsToNodes(data, pods)[k].usage == data[k].usage.Plus(TotalDemand(PodsWhere(pods, Target, {k})))
    ensures AddPodsToNodes(data, pods)[k] == data[k].(usage := AddPodsToNodes(data, pods)[k].usage)
    decreases |pods|
  {
    if |pods| == 0 {
      NoneWhereEmpty(pods, Target);
      NoUsageIsNeutral(data[k].usage);
    } else {
      var init, p := pods[..|pods| - 1], pods[|pods| - 1];
      assert forall q :: q in init ==> q in pods;
      AddPodsToNodesRow(data, init, k);
      var before := TotalDemand(PodsWhere(init, Target, {k}));
      PodsWhereStep(pods, Target, {k});
      if Target(p) == k {
        assert Target(p) in {k};
        UsageAssociates(data[k].usage, before, Demand(p));
      } else {
        assert Target(p) !in {k};
      }
    }
  }

  /** The derived fields of one row, with no clamping at zero. */
  function FinalizeNode(d: NodeCapacityData): NodeCapacityData {
    d.(availablePods := d.allocatablePods - d.usage.nonTerm,
       available := d.allocatable.Minus(d.usage.requests))
  }

  /** The derived fields, computed for each listed row. */
  function FinalizeNodes(m: map<string, NodeCapacityData>, names: seq<string>): (r: map<string, NodeCapacityData>)
    requires forall k :: k in names ==> k in m
    ensures r.Keys == m.Keys
    ensures forall k :: k in m ==> r[k] == if k in names then FinalizeNode(m[k]) else m[k]
  {
    if |names| == 0 then m
    else
      var r := FinalizeNodes(m, names[..|names| - 1]);
      r[names[|names| - 1] := FinalizeNode(r[names[|names| - 1]])]
  }

  /** The numeric fields of `row` added to the running total `t`; the
      readiness, schedulability and roles of `t` are left alone. */
  function Accumulate(t: NodeCapacityData, row: NodeCapacityData): NodeCapacityData {
    t.(capacityPods := t.capacityPods + row.capacityPods,
       capacity := t.capacity.Plus(row.capacity),
       allocatablePods := t.allocatablePods + row.allocatablePods,
       allocatable := t.allocatable.Plus(row.allocatable),
       usage := t.usage.Plus(row.usage),
       availablePods := t.availablePods + row.availablePods,
       available := t.available.Plus(row.available))
  }

  /** The total loop: every listed row added, in list order, into `t`. */
  function SumInto(t: NodeCapacityData, data: map<string, NodeCapacityData>, names: seq<string>): NodeCapacityData
    requires forall k :: k in names ==> k in data
  {
    if |names| == 0 then t
    else Accumulate(SumInto(t, data, names[..|names| - 1]), data[names[|names| - 1]])
  }

  lemma AccumulateCommutes(t: NodeCapacityData, a: NodeCapacityData, b: NodeCapacityData)
    ensures Accumulate(Accumulate(t, a), b) == Accumulate(Accumulate(t, b), a)
  {
  }

  /** Moving one row to the end of the list does not change the total. */
  lemma {:induction false} SumIntoMoveLast(t: NodeCapacityData, data: map<string, NodeCapacityData>, a: seq<string>, x: string, b: seq<string>)
    requires forall k :: k in a + [x] + b ==> k in data
    ensures SumInto(t, data, a + [x] + b) == SumInto(t, data, a + b + [x])
    decreases |b|
  {
    if |b| == 0 {
      assert a + [x] + b == a + b + [x];
    } else {
      var b', y := b[..|b| - 1], b[|b| - 1];
      assert a + [x] + b == (a + [x] + b') + [y];
      assert (a + [x] + b')[..|a + [x] + b'|] == a + [x] + b';
      assert (a + [x] + b)[..|a + [x] + b| - 1] == a + [x] + b';
      assert (a + b + [x])[..|a + b + [x]| - 1] == a + b;
      assert (a + b)[..|a + b| - 1] == a + b';
      assert (a + b' + [x])[..|a + b' + [x]| - 1] == a + b';
      SumIntoMoveLast(t, data, a, x, b');
      AccumulateCommutes(SumInto(t, data, a + b'), data[x], data[y]);
    }
  }

  lemma RemoveFromBoth(xs: seq<string>, x: string, a: seq<string>, b: seq<string>)
    requires multiset(xs + [x]) == multiset(a + [x] + b)
    ensures multiset(xs) == multiset(a + b)
  {
    assert multiset(xs) == multiset(xs + [x]) - multiset{x};
    assert multiset(a + b) == multiset(a + [x] + b) - multiset{x};
  }

  /** The total does not depend on the order of the rows. */
  lemma {:induction false} SumIntoPermutation(t: NodeCapacityData, data: map<string, NodeCapacityData>, xs: seq<string>, ys: seq<string>)
    requires forall k :: k in xs ==> k in data
    requires multiset(xs) == multiset(ys)
    ensures forall k :: k in ys ==> k in data
    ensures SumInto(t, data, xs) == SumInto(t, data, ys)
    decreases |xs|
  {
    SameMembers(xs, ys, data);
    if |xs| > 0 {
      var xs', x := xs[..|xs| - 1], xs[|xs| - 1];
      assert xs == xs' + [x];
      assert x in multiset(ys);
      var j :| 0 <= j < |ys| && ys[j] == x;
      var a, b := ys[..j], ys[j + 1..];
      assert ys == a + [x] + b;
      var ab := a + b;
      RemoveFromBoth(xs', x, a, b);
      SameMembers(xs, xs' + [x], data);
      SameMembers(ys, ab + [x], data);
      SumIntoMoveLast(t, data, a, x, b);
      SumIntoPermutation(t, data, xs', ab);
      calc {
        SumInto(t, data, xs);
        Accumulate(SumInto(t, data, xs'), data[x]);
        Accumulate(SumInto(t, data, ab), data[x]);
        { assert (ab + [x])[..|ab + [x]| - 1] == ab; }
        SumInto(t, data, ab + [x]);
      }
    }
  }

  /** Sequences with the same elements (counted) are both inside the map or both not. */
  lemma SameMembers(xs: seq<string>, ys: seq<string>, data: map<string, NodeCapacityData>)
    requires forall k :: k in xs ==> k in data
    requires multiset(xs) == multiset(ys)
    ensures forall k :: k in ys ==> k in data
  {
    forall k | k in ys ensures k in data {
      assert k in multiset(ys);
    }
  }

  /** The row holds the node's capacity and allocatable amounts. */
  predicate CarriesNode(d: NodeCapacityData, n: Node) {
    && d.capacityPods == n.capacityPods && d.capacity == n.capacity
    && d.allocatablePods == n.allocatablePods && d.allocatable == n.allocatable
  }

  /** Over the node rows as the walk wrote them, the total of the node-side
      fields is the sum over the nodes. */
  lemma {:induction false} SumIntoNodes(t: NodeCapacityData, data: map<string, NodeCapacityData>, nodes: seq<Node>)
    requires forall k :: k in NamesOf(nodes) ==> k in data
    requires forall i :: 0 <= i < |nodes| ==> nodes[i].name in data
    requires forall i :: 0 <= i < |nodes| ==> CarriesNode(data[nodes[i].name], nodes[i])
    ensures SumInto(t, data, NamesOf(nodes)).capacityPods == t.capacityPods + SumCapacityPods(nodes)
    ensures SumInto(t, data, NamesOf(nodes)).capacity == t.capacity.Plus(SumCapacity(nodes))
    ensures SumInto(t, data, NamesOf(nodes)).allocatablePods == t.allocatablePods + SumAllocatablePods(nodes)
    ensures SumInto(t, data, NamesOf(nodes)).allocatable == t.allocatable.Plus(SumAllocatable(nodes))
    decreases |nodes|
  {
    if |nodes| > 0 {
      var init := nodes[..|nodes| - 1];
      assert NamesOf(nodes)[..|nodes| - 1] == NamesOf(init);
      SumIntoNodes(t, data, init);
    }
  }

  /** Over rows whose usage is what the pod walk routed to them, the total
      usage is the demand routed to the listed names. */
  lemma {:induction false} SumIntoUsage(t: NodeCapacityData, data: map<string, NodeCapacityData>, names: seq<string>, pods: seq<Pod>)
    requires forall k :: k in names ==> k in data && data[k].usage == TotalDemand(PodsWhere(pods, Target, {k}))
    ensures SumInto(t, data, names).usage == t.usage.Plus(DemandPerKey(pods, Target, names))
    decreases |names|
  {
    if |names| > 0 {
      SumIntoUsage(t, data, names[..|names| - 1], pods);
      var prev := DemandPerKey(pods, Target, names[..|names| - 1]);
      UsageAssociates(t.usage, prev, data[names[|names| - 1]].usage);
    } else {
      NoUsageIsNeutral(t.usage);
    }
  }

  /** Available is allocatable less what is requested, as the derived
      fields make it. */
  predicate Balanced(d: NodeCapacityData) {
    && d.availablePods == d.allocatablePods - d.usage.nonTerm
    && d.available == d.allocatable.Minus(d.usage.requests)
  }

  /** Adding up balanced rows gives a balanced total. */
  lemma {:induction false} SumIntoAvailable(t: NodeCapacityData, data: map<string, NodeCapacityData>, names: seq<string>)
    requires Balanced(t)
    requires forall k :: k in names ==> k in data && Balanced(data[k])
    ensures Balanced(SumInto(t, data, names))
    decreases |names|
  {
    if |names| > 0 {
      SumIntoAvailable(t, data, names[..|names| - 1]);
    }
  }

  /** Every pod is bound to a listed node or to none, node names are
      distinct, and no node carries a synthetic row's name. The source
      dereferences a missing row for a pod on an unlisted node. */
  predicate ValidSnapshot(nodes: seq<Node>, pods: seq<Pod>) {
    && Distinct(NamesOf(nodes))
    && Unassigned !in NamesOf(nodes) && Total !in NamesOf(nodes)
    && forall p :: p in pods ==> p.nodeName == "" || p.nodeName in NamesOf(nodes)
  }

  /** The output of the per-node command: rows, the printed row order, and
      the row names grouped by role signature. */
  datatype NodeReport = NodeReport(data: map<string, NodeCapacityData>, names: seq<string>, byRole: map<string, seq<string>>)

  /** The rows after the node walk and the seeding of the two synthetic
      rows, before any pod is counted. */
  function SeededRows(nodes: seq<Node>): (m: map<string, NodeCapacityData>)
    ensures m.Keys == SetOf(NamesOf(nodes)) + {Unassigned, Total}
    ensures forall k :: k in m ==> m[k].usage == NoUsage
  {
    WalkNodes(nodes).data[Unassigned := EmptyNodeData][Total := EmptyNodeData]
  }

  /** The rows after the pod walk and the derived fields of the node rows. */
  function NodeRows(nodes: seq<Node>, pods: seq<Pod>): (m: map<string, NodeCapacityData>)
    requires ValidSnapshot(nodes, pods)
    ensures m.Keys == SetOf(NamesOf(nodes)) + {Unassigned, Total}
  {
    var seeded := SeededRows(nodes);
    assert forall p :: p in pods ==> Target(p) in seeded;
    FinalizeNodes(AddPodsToNodes(seeded, pods), NamesOf(nodes))
  }

  /** Each row is its seeded self with the routed demand as its usage, and
      the derived fields for a node row. */
  lemma NodeRowsUnfold(nodes: seq<Node>, pods: seq<Pod>, k: string)
    requires ValidSnapshot(nodes, pods)
    requires k in SetOf(NamesOf(nodes)) + {Unassigned, Total}
    ensures var row := SeededRows(nodes)[k].(usage := TotalDemand(PodsWhere(pods, Target, {k})));
      NodeRows(nodes, pods)[k] == if k in NamesOf(nodes) then FinalizeNode(row) else row
  {
    var seeded := SeededRows(nodes);
    assert forall p :: p in pods ==> Target(p) in seeded;
    AddPodsToNodesRow(seeded, pods, k);
    NoUsageIsNeutral(TotalDemand(PodsWhere(pods, Target, {k})));
  }

  /** The rows summed into `*total*`: node names sorted, then `*unassigned*`
      when asked for. */
  function SummedNames(nodes: seq<Node>, showUnassigned: bool): (names: seq<string>)
    ensures forall k :: k in names ==> k in SetOf(NamesOf(nodes)) || k == Unassigned
  {
    var sorted := Sort(NamesOf(nodes));
    assert forall k :: k in sorted ==> k in multiset(NamesOf(nodes));
    sorted + (if showUnassigned then [Unassigned] else [])
  }

  /** The per-node command: the rows, `*total*` summed over the rows printed
      before it, the printed order, and the role index with the synthetic
      rows filed under `~`. */
  function AggregateNodes(nodes: seq<Node>, pods: seq<Pod>, showUnassigned: bool, showTotal: bool): (r: NodeReport)
    requires ValidSnapshot(nodes, pods)
    ensures r.data.Keys == SetOf(NamesOf(nodes)) + {Unassigned, Total}
    ensures forall k :: k in r.data && k != Total ==> r.data[k] == NodeRows(nodes, pods)[k]
  {
    var rows := NodeRows(nodes, pods);
    var summed := SummedNames(nodes, showUnassigned);
    NodeReport(
      rows[Total := SumInto(rows[Total], rows, summed)],
      summed + (if showTotal then [Total] else []),
      RoleGroups(WalkNodes(nodes).byRole, showUnassigned, showTotal))
  }

  lemma AggregateNodesRoleGroups(nodes: seq<Node>, pods: seq<Pod>, showUnassigned: bool, showTotal: bool)
    requires ValidSnapshot(nodes, pods)
    ensures AggregateNodes(nodes, pods, showUnassigned, showTotal).byRole == RoleGroups(WalkNodes(nodes).byRole, showUnassigned, showTotal)
  {
  }

  /** The role index with the synthetic rows that are shown appended, in
      that order, to the group `~`. */
  function RoleGroups(byRole: map<string, seq<string>>, showUnassigned: bool, showTotal: bool): (m: map<string, seq<string>>)
    ensures forall sig :: sig != SyntheticGroup ==> Group(m, sig) == Group(byRole, sig) && (sig in m <==> sig in byRole)
    ensures Group(m, SyntheticGroup) == Group(byRole, SyntheticGroup)
                                        + (if showUnassigned then [Unassigned] else [])
                                        + (if showTotal then [Total] else [])
  {
    var withUnassigned := if showUnassigned then byRole[SyntheticGroup := Group(byRole, SyntheticGroup) + [Unassigned]] else byRole;
    if showTotal then withUnassigned[SyntheticGroup := Group(withUnassigned, SyntheticGroup) + [Total]] else withUnassigned
  }

  /** Rows print as the node names in increasing byte order, then
      `*unassigned*` and `*total*` when asked for. */
  lemma NodeRowOrder(nodes: seq<Node>, pods: seq<Pod>, showUnassigned: bool, showTotal: bool)
    requires ValidSnapshot(nodes, pods)
    ensures AggregateNodes(nodes, pods, showUnassigned, showTotal).names
         == SortedElements(SetOf(NamesOf(nodes)))
            + (if showUnassigned then [Unassigned] else [])
            + (if showTotal then [Total] else [])
  {
    SortOfDistinct(NamesOf(nodes), SetOf(NamesOf(nodes)));
  }

  /** A node's row: readiness from its conditions, schedulability, roles,
      capacity and allocatable from the node, the pods bound to it, and the
      derived fields. */
  lemma NodeRow(nodes: seq<Node>, pods: seq<Pod>, i: int)
    requires ValidSnapshot(nodes, pods)
    requires 0 <= i < |nodes|
    ensures var d, n := NodeRows(nodes, pods)[nodes[i].name], nodes[i];
      && (d.ready <==> exists j :: 0 <= j < |n.conditions| && IsReadyCondition(n.conditions[j]))
      && d.schedulable == !n.unschedulable
      && d.roles == RoleSet(n.labels)
      && d.capacityPods == n.capacityPods && d.capacity == n.capacity
      && d.allocatablePods == n.allocatablePods && d.allocatable == n.allocatable
      && d.usage == TotalDemand(PodsWhere(pods, Target, {n.name}))
      && d.availablePods == n.allocatablePods - d.usage.nonTerm
      && d.available == n.allocatable.Minus(d.usage.requests)
  {
    var n := nodes[i];
    WalkNodesRecord(nodes, i);
    assert NamesOf(nodes)[i] == n.name;
    NodeRowsUnfold(nodes, pods, n.name);
  }

  /** The `*unassigned*` row holds exactly the pods that are not bound to a
      node, and its derived fields stay zero. */
  lemma UnassignedRow(nodes: seq<Node>, pods: seq<Pod>)
    requires ValidSnapshot(nodes, pods)
    ensures NodeRows(nodes, pods)[Unassigned] == EmptyNodeData.(usage := TotalDemand(PodsWhere(pods, Target, {Unassigned})))
  {
    NodeRowsUnfold(nodes, pods, Unassigned);
  }

  /** Every row's usage is the demand of the pods routed to it; no pod is
      routed to `*total*`, whose row stays empty until it is summed. */
  lemma RowsHoldRoutedDemand(nodes: seq<Node>, pods: seq<Pod>, k: string)
    requires ValidSnapshot(nodes, pods)
    requires k in SetOf(NamesOf(nodes)) + {Unassigned, Total}
    ensures NodeRows(nodes, pods)[k].usage == TotalDemand(PodsWhere(pods, Target, {k}))
    ensures k == Total ==> NodeRows(nodes, pods)[k] == EmptyNodeData
  {
    NodeRowsUnfold(nodes, pods, k);
    if k == Total {
      NoTotalPods(nodes, pods);
      TotalDemandOfOne(Pod("", "", Pending, []));
    }
  }

  /** No pod is routed to the `*total*` row. */
  lemma NoTotalPods(nodes: seq<Node>, pods: seq<Pod>)
    requires ValidSnapshot(nodes, pods)
    ensures PodsWhere(pods, Target, {Total}) == []
  {
    assert forall p :: p in pods ==> Target(p) != Total;
  }

  /** The node rows, summed in printed order, before `*unassigned*`. */
  function NodePart(nodes: seq<Node>, pods: seq<Pod>): NodeCapacityData
    requires ValidSnapshot(nodes, pods)
  {
    var sorted := Sort(NamesOf(nodes));
    assert forall k :: k in sorted ==> k in multiset(NamesOf(nodes));
    SumInto(EmptyNodeData, NodeRows(nodes, pods), sorted)
  }

  /** The node rows carry the node-side fields of their nodes. */
  lemma NodeRowsCarryNodes(nodes: seq<Node>, pods: seq<Pod>)
    requires ValidSnapshot(nodes, pods)
    ensures var rows := NodeRows(nodes, pods);
      forall i :: 0 <= i < |nodes| ==> nodes[i].name in rows && CarriesNode(rows[nodes[i].name], nodes[i])
  {
    var rows := NodeRows(nodes, pods);
    forall i | 0 <= i < |nodes|
      ensures nodes[i].name in rows && CarriesNode(rows[nodes[i].name], nodes[i])
    {
      NodeRowCarries(nodes, pods, i);
    }
  }

  lemma NodeRowCarries(nodes: seq<Node>, pods: seq<Pod>, i: int)
    requires ValidSnapshot(nodes, pods)
    requires 0 <= i < |nodes|
    ensures nodes[i].name in NodeRows(nodes, pods)
    ensures CarriesNode(NodeRows(nodes, pods)[nodes[i].name], nodes[i])
  {
    assert NamesOf(nodes)[i] == nodes[i].name;
    WalkNodesRecord(nodes, i);
    NodeRowsUnfold(nodes, pods, nodes[i].name);
  }

  /** Summed over the node rows, capacity and allocatable are the sums over
      the nodes, whatever the row order. */
  lemma NodePartSupply(nodes: seq<Node>, pods: seq<Pod>)
    requires ValidSnapshot(nodes, pods)
    ensures NodePart(nodes, pods).capacityPods == SumCapacityPods(nodes)
    ensures NodePart(nodes, pods).capacity == SumCapacity(nodes)
    ensures NodePart(nodes, pods).allocatablePods == SumAllocatablePods(nodes)
    ensures NodePart(nodes, pods).allocatable == SumAllocatable(nodes)
  {
    NodeRowsCarryNodes(nodes, pods);
    SumSortedNodes(NodeRows(nodes, pods), nodes);
  }

  /** Summing rows that carry their nodes in sorted name order gives the
      node-side sums. */
  lemma SumSortedNodes(data: map<string, NodeCapacityData>, nodes: seq<Node>)
    requires forall i :: 0 <= i < |nodes| ==> nodes[i].name in data && CarriesNode(data[nodes[i].name], nodes[i])
    ensures forall k :: k in Sort(NamesOf(nodes)) ==> k in data
    ensures SumInto(EmptyNodeData, data, Sort(NamesOf(nodes))).capacityPods == SumCapacityPods(nodes)
    ensures SumInto(EmptyNodeData, data, Sort(NamesOf(nodes))).capacity == SumCapacity(nodes)
    ensures SumInto(EmptyNodeData, data, Sort(NamesOf(nodes))).allocatablePods == SumAllocatablePods(nodes)
    ensures SumInto(EmptyNodeData, data, Sort(NamesOf(nodes))).allocatable == SumAllocatable(nodes)
  {
    var names := NamesOf(nodes);
    NamesInRows(data, nodes);
    SumIntoPermutation(EmptyNodeData, data, names, Sort(names));
    SumIntoNodes(EmptyNodeData, data, nodes);
    NoDimsIsNeutral(SumCapacity(nodes));
    NoDimsIsNeutral(SumAllocatable(nodes));
  }

  lemma NamesInRows(data: map<string, NodeCapacityData>, nodes: seq<Node>)
    requires forall i :: 0 <= i < |nodes| ==> nodes[i].name in data
    ensures forall k :: k in NamesOf(nodes) ==> k in data
  {
    forall k | k in NamesOf(nodes) ensures k in data {
      var i :| 0 <= i < |NamesOf(nodes)| && NamesOf(nodes)[i] == k;
      assert nodes[i].name == k;
    }
  }

  /** A node row holds what the pod walk routed to it and its derived
      fields. */
  lemma NodeRowFinal(nodes: seq<Node>, pods: seq<Pod>, k: string)
    requires ValidSnapshot(nodes, pods)
    requires k in NamesOf(nodes)
    ensures k in NodeRows(nodes, pods)
    ensures NodeRows(nodes, pods)[k].usage == TotalDemand(PodsWhere(pods, Target, {k}))
    ensures Balanced(NodeRows(nodes, pods)[k])
  {
    NodeRowsUnfold(nodes, pods, k);
  }

  /** The node rows, in printed order. */
  lemma SortedNodeRows(nodes: seq<Node>, pods: seq<Pod>)
    requires ValidSnapshot(nodes, pods)
    ensures forall k :: k in Sort(NamesOf(nodes)) ==>
      && k in NodeRows(nodes, pods)
      && NodeRows(nodes, pods)[k].usage == TotalDemand(PodsWhere(pods, Target, {k}))
      && Balanced(NodeRows(nodes, pods)[k])
  {
    forall k | k in Sort(NamesOf(nodes))
      ensures k in NodeRows(nodes, pods)
      ensures NodeRows(nodes, pods)[k].usage == TotalDemand(PodsWhere(pods, Target, {k}))
      ensures Balanced(NodeRows(nodes, pods)[k])
    {
      assert k in multiset(NamesOf(nodes));
      NodeRowFinal(nodes, pods, k);
    }
  }

  lemma SortKeepsNames(xs: seq<string>)
    ensures SetOf(Sort(xs)) == SetOf(xs)
  {
    forall k ensures k in Sort(xs) <==> k in xs {
      assert k in Sort(xs) <==> k in multiset(Sort(xs));
      assert k in xs <==> k in multiset(xs);
    }
  }

  /** Summed over the node rows, the usage is the demand of the pods bound to
      a listed node: each such pod is counted once. */
  lemma NodePartUsage(nodes: seq<Node>, pods: seq<Pod>)
    requires ValidSnapshot(nodes, pods)
    ensures NodePart(nodes, pods).usage == TotalDemand(PodsWhere(pods, Target, SetOf(NamesOf(nodes))))
  {
    var sorted := Sort(NamesOf(nodes));
    SortedNodeRows(nodes, pods);
    SumIntoUsage(EmptyNodeData, NodeRows(nodes, pods), sorted, pods);
    SortedDistinct(NamesOf(nodes));
    PartitionConservesDemand(pods, Target, sorted);
    SortKeepsNames(NamesOf(nodes));
    NoUsageIsNeutral(DemandPerKey(pods, Target, sorted));
  }

  /** Summed over the node rows, available is allocatable less what the
      bound pods request. */
  lemma NodePartAvailable(nodes: seq<Node>, pods: seq<Pod>)
    requires ValidSnapshot(nodes, pods)
    ensures Balanced(NodePart(nodes, pods))
  {
    var rows, sorted := NodeRows(nodes, pods), Sort(NamesOf(nodes));
    SortedNodeRows(nodes, pods);
    SumIntoAvailable(EmptyNodeData, rows, sorted);
    assert NodePart(nodes, pods) == SumInto(EmptyNodeData, rows, sorted);
  }

  /** The `*total*` row is the node part, plus the `*unassigned*` row when
      that row is shown. */
  lemma TotalRowParts(nodes: seq<Node>, pods: seq<Pod>, showUnassigned: bool, showTotal: bool)
    requires ValidSnapshot(nodes, pods)
    ensures AggregateNodes(nodes, pods, showUnassigned, showTotal).data[Total]
         == if showUnassigned then Accumulate(NodePart(nodes, pods), NodeRows(nodes, pods)[Unassigned]) else NodePart(nodes, pods)
  {
    var rows, sorted := NodeRows(nodes, pods), Sort(NamesOf(nodes));
    RowsHoldRoutedDemand(nodes, pods, Total);
    var summed := SummedNames(nodes, showUnassigned);
    if showUnassigned {
      assert summed[..|summed| - 1] == sorted;
    } else {
      assert summed == sorted;
    }
  }

  /** The pods routed to some row: those bound to a listed node, and the
      unbound ones when `*unassigned*` is shown. */
  function SummedKeys(nodes: seq<Node>, showUnassigned: bool): set<string> {
    SetOf(NamesOf(nodes)) + (if showUnassigned then {Unassigned} else {})
  }

  /** The `*total*` row's capacity and allocatable are the sums over all
      nodes, the same figures the cluster command reports. */
  lemma TotalRowSupply(nodes: seq<Node>, pods: seq<Pod>, showUnassigned: bool, showTotal: bool)
    requires ValidSnapshot(nodes, pods)
    ensures var t := AggregateNodes(nodes, pods, showUnassigned, showTotal).data[Total];
      && t.capacityPods == SumCapacityPods(nodes) && t.capacity == SumCapacity(nodes)
      && t.allocatablePods == SumAllocatablePods(nodes) && t.allocatable == SumAllocatable(nodes)
  {
    TotalRowParts(nodes, pods, showUnassigned, showTotal);
    NodePartSupply(nodes, pods);
    UnassignedRow(nodes, pods);
    NoDimsIsNeutral(SumCapacity(nodes));
    NoDimsIsNeutral(SumAllocatable(nodes));
  }

  /** The `*total*` row's usage is the demand of the pods counted in the rows
      above it: every pod when `*unassigned*` is shown, and otherwise only
      the pods bound to a node. */
  lemma TotalRowUsage(nodes: seq<Node>, pods: seq<Pod>, showUnassigned: bool, showTotal: bool)
    requires ValidSnapshot(nodes, pods)
    ensures AggregateNodes(nodes, pods, showUnassigned, showTotal).data[Total].usage
         == TotalDemand(PodsWhere(pods, Target, SummedKeys(nodes, showUnassigned)))
    ensures showUnassigned ==> AggregateNodes(nodes, pods, showUnassigned, showTotal).data[Total].usage == TotalDemand(pods)
  {
    TotalRowParts(nodes, pods, showUnassigned, showTotal);
    NodePartUsage(nodes, pods);
    var bound := SetOf(NamesOf(nodes));
    if showUnassigned {
      UnassignedRow(nodes, pods);
      assert Unassigned !in bound;
      DemandSplits(pods, Target, bound, Unassigned);
      assert SummedKeys(nodes, showUnassigned) == bound + {Unassigned};
      EveryPodRouted(nodes, pods);
      AllPodsWhere(pods, Target, bound + {Unassigned});
    } else {
      assert SummedKeys(nodes, showUnassigned) == bound;
    }
  }

  /** The `*total*` row's available pods and resources are the total
      allocatable less what the pods bound to nodes demand: unbound pods are
      counted in the total's usage when shown, but never reduce its
      availability. */
  lemma TotalRowAvailable(nodes: seq<Node>, pods: seq<Pod>, showUnassigned: bool, showTotal: bool)
    requires ValidSnapshot(nodes, pods)
    ensures var t, bound := AggregateNodes(nodes, pods, showUnassigned, showTotal).data[Total],
                           TotalDemand(PodsWhere(pods, Target, SetOf(NamesOf(nodes))));
      && t.availablePods == t.allocatablePods - bound.nonTerm
      && t.available == t.allocatable.Minus(bound.requests)
  {
    TotalRowParts(nodes, pods, showUnassigned, showTotal);
    NodePartUsage(nodes, pods);
    NodePartAvailable(nodes, pods);
    if showUnassigned {
      UnassignedRow(nodes, pods);
      NoDimsIsNeutral(NodePart(nodes, pods).allocatable);
      NoDimsIsNeutral(NodePart(nodes, pods).available);
    }
  }

  /** Under a valid snapshot every pod is routed to a node row or to
      `*unassigned*`. */
  lemma EveryPodRouted(nodes: seq<Node>, pods: seq<Pod>)
    requires ValidSnapshot(nodes, pods)
    ensures forall p :: p in pods ==> Target(p) in SetOf(NamesOf(nodes)) + {Unassigned}
  {
    forall p | p in pods ensures Target(p) in SetOf(NamesOf(nodes)) + {Unassigned} {
      if p.nodeName != "" {
        assert p.nodeName in NamesOf(nodes);
      }
    }
  }

  /** The index used by the sort-by-role display: under each signature the
      nodes with that signature in input order, with `*unassigned*` and
      `*total*` appended under `~` when they are shown. */
  lemma RoleIndexContents(nodes: seq<Node>, pods: seq<Pod>, showUnassigned: bool, showTotal: bool, sig: string)
    requires ValidSnapshot(nodes, pods)
    ensures Group(AggregateNodes(nodes, pods, showUnassigned, showTotal).byRole, sig)
         == NamesWithSignature(nodes, sig)
            + (if sig == SyntheticGroup && showUnassigned then [Unassigned] else [])
            + (if sig == SyntheticGroup && showTotal then [Total] else [])
  {
    AggregateNodesRoleGroups(nodes, pods, showUnassigned, showTotal);
    WalkNodesGroups(nodes, sig);
  }
}
