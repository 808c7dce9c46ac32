/** The per-role command (cmd/capacity/noderole.go): one record per node
    role. A node with several roles adds its full amounts to every one of
    them, so the role buckets overlap and do not add up to the cluster. */
module NodeRoleCapacity {
  import opened Strings
  import opened Inventory
  import opened Rollup
  import opened Roles
  import Capacity

  /** The state of the node walk: role buckets and role names in order of
      first appearance. */
  datatype RoleWalk = RoleWalk(buckets: map<string, ClusterCapacityData>, roleNames: seq<string>)

  predicate Consistent(w: RoleWalk) {
    w.buckets.Keys == SetOf(w.roleNames) && Distinct(w.roleNames)
  }

  /** The nodes that carry role `r`, in input order. */
  function NodesWithRole(nodes: seq<Node>, r: string): (s: seq<Node>)
    ensures forall n :: n in s ==> n in nodes
  {
    if |nodes| == 0 then []
    else
      var n := nodes[|nodes| - 1];
      NodesWithRole(nodes[..|nodes| - 1], r) + (if r in RoleSet(n.labels) then [n] else [])
  }

  /** A node is in the bucket of every one of its roles and of no other. */
  lemma {:induction false} NodesWithRoleMembers(nodes: seq<Node>, r: string, n: Node)
    ensures n in NodesWithRole(nodes, r) <==> n in nodes && r in RoleSet(n.labels)
    decreases |nodes|
  {
    if |nodes| > 0 {
      var init := nodes[..|nodes| - 1];
      NodesWithRoleMembers(init, r, n);
      assert nodes == init + [nodes[|nodes| - 1]];
    }
  }

  /** Every role some node carries. */
  function RolesOfNodes(nodes: seq<Node>): set<string> {
    if |nodes| == 0 then {} else RolesOfNodes(nodes[..|nodes| - 1]) + RoleSet(nodes[|nodes| - 1].labels)
  }

  /** A role is in play exactly when some node carries it. */
  lemma {:induction false} RolesOfNodesMembers(nodes: seq<Node>, r: string)
    ensures r in RolesOfNodes(nodes) <==> exists n :: n in nodes && r in RoleSet(n.labels)
    decreases |nodes|
  {
    if |nodes| > 0 {
      var init, last := nodes[..|nodes| - 1], nodes[|nodes| - 1];
      RolesOfNodesMembers(init, r);
      assert nodes == init + [last];
      if exists n :: n in nodes && r in RoleSet(n.labels) {
        var n :| n in nodes && r in RoleSet(n.labels);
        assert n in init || n == last;
      }
    }
  }

  /** The bucket a role has before node `n` is added: its current one, or a
      fresh zero record the first time the role is met. */
  function BucketOrEmpty(w: RoleWalk, role: string): ClusterCapacityData {
    if role in w.buckets then w.buckets[role] else EmptyClusterData
  }

  /** One role of one node: create the bucket on first sight (found by a
      scan of the role names so far), then add the node's count, readiness,
      schedulability, capacity and allocatable to it. */
  function AddNodeToRole(w: RoleWalk, n: Node, role: string): (r: RoleWalk)
    requires Consistent(w)
    ensures Consistent(r)
    ensures r.buckets.Keys == w.buckets.Keys + {role}
    ensures role in w.buckets ==> r.roleNames == w.roleNames
    ensures role !in w.buckets ==> r.roleNames == w.roleNames + [role]
    ensures forall k :: k in r.buckets ==>
      r.buckets[k] == if k == role then BucketOrEmpty(w, k).(supply := AddNode(BucketOrEmpty(w, k).supply, n))
                      else w.buckets[k]
  {
    var seen := Capacity.StringInSlice(role, w.roleNames);
    assert seen <==> role in w.buckets;
    var w' := if seen then w else w.(buckets := w.buckets[role := EmptyClusterData], roleNames := w.roleNames + [role]);
    var b := w'.buckets[role];
    w'.(buckets := w'.buckets[role := b.(supply := AddNode(b.supply, n))])
  }

  /** Every role of one node, in the order of its role list. */
  function AddNodeToRoles(w: RoleWalk, n: Node, roles: seq<string>): (r: RoleWalk)
    requires Consistent(w)
    requires Distinct(roles)
    ensures Consistent(r)
    ensures r.buckets.Keys == w.buckets.Keys + SetOf(roles)
    ensures forall k :: k in r.buckets ==>
      r.buckets[k] == if k in roles then BucketOrEmpty(w, k).(supply := AddNode(BucketOrEmpty(w, k).supply, n))
                      else w.buckets[k]
    decreases |roles|
  {
    if |roles| == 0 then w
    else
      var init, role := roles[..|roles| - 1], roles[|roles| - 1];
      assert roles == init + [role];
      var w1 := AddNodeToRoles(w, n, init);
      assert role !in init;
      AddNodeToRole(w1, n, role)
  }

  /** The node walk: every node adds itself to every role in its role list. */
  function WalkNodes(nodes: seq<Node>): (w: RoleWalk)
    ensures Consistent(w)
    ensures w.buckets.Keys == RolesOfNodes(nodes)
  {
    if |nodes| == 0 then RoleWalk(map[], [])
    else
      var n := nodes[|nodes| - 1];
      var roles := RoleList(n.labels);
      assert SetOf(roles) == RoleSet(n.labels);
      AddNodeToRoles(WalkNodes(nodes[..|nodes| - 1]), n, roles)
  }

  /** The role list each node is filed under, by node name; a later node
      with the same name replaces an earlier one. The source fills this map
      in the same loop as the buckets; neither depends on the other. */
  function NodeRoleLists(nodes: seq<Node>): (m: map<string, seq<string>>)
    ensures m.Keys == SetOf(NamesOf(nodes))
    ensures forall k :: k in m ==> Distinct(m[k]) && forall r :: r in m[k] ==> r in RolesOfNodes(nodes)
  {
    if |nodes| == 0 then map[]
    else
      var init, n := nodes[..|nodes| - 1], nodes[|nodes| - 1];
      assert NamesOf(nodes) == NamesOf(init) + [n.name];
      SetOfSnoc(NamesOf(init), n.name);
      NodeRoleLists(init)[n.name := RoleList(n.labels)]
  }

  /** After the node walk each role's bucket holds exactly the nodes that
      carry the role, summed in input order, and nothing from pods yet. */
  lemma {:induction false} WalkNodesBuckets(nodes: seq<Node>, k: string)
    requires k in WalkNodes(nodes).buckets
    ensures WalkNodes(nodes).buckets[k] == EmptyClusterData.(supply := SupplyOf(NodesWithRole(nodes, k)))
    decreases |nodes|
  {
    var init, n := nodes[..|nodes| - 1], nodes[|nodes| - 1];
    var w0 := WalkNodes(init);
    WalkNodesUnfold(nodes);
    AddNodeToItsRoles(w0, n, k);
    var before := NodesWithRole(init, k);
    if k in w0.buckets {
      WalkNodesBuckets(init, k);
    } else {
      NoNodesWithRole(init, k);
    }
    assert BucketOrEmpty(w0, k) == EmptyClusterData.(supply := SupplyOf(before));
    if k in RoleSet(n.labels) {
      assert NodesWithRole(nodes, k) == before + [n];
      SupplyOfSnoc(before, n);
    } else {
      assert NodesWithRole(nodes, k) == before;
    }
  }

  /** A node touches exactly the buckets of its roles. */
  lemma AddNodeToItsRoles(w0: RoleWalk, n: Node, k: string)
    requires Consistent(w0)
    requires k in AddNodeToRoles(w0, n, RoleList(n.labels)).buckets
    ensures AddNodeToRoles(w0, n, RoleList(n.labels)).buckets[k]
        == if k in RoleSet(n.labels) then BucketOrEmpty(w0, k).(supply := AddNode(BucketOrEmpty(w0, k).supply, n))
           else w0.buckets[k]
  {
  }

  lemma WalkNodesUnfold(nodes: seq<Node>)
    requires |nodes| > 0
    ensures var n := nodes[|nodes| - 1];
      WalkNodes(nodes) == AddNodeToRoles(WalkNodes(nodes[..|nodes| - 1]), n, RoleList(n.labels))
  {
  }

  /** With distinct names every node finds its own role list under its name. */
  lemma {:induction false} NodeRoleListOf(nodes: seq<Node>, i: int)
    requires Distinct(NamesOf(nodes))
    requires 0 <= i < |nodes|
    ensures nodes[i].name in NodeRoleLists(nodes)
    ensures NodeRoleLists(nodes)[nodes[i].name] == RoleList(nodes[i].labels)
    decreases |nodes|
  {
    var init := nodes[..|nodes| - 1];
    if i < |init| {
      var names := NamesOf(nodes);
      DistinctInit(names);
      assert NamesOf(init) == names[..|names| - 1];
      NodeRoleListOf(init, i);
      assert names[i] != names[|names| - 1];
    }
  }

  lemma {:induction false} NoNodesWithRole(nodes: seq<Node>, r: string)
    requires r !in RolesOfNodes(nodes)
    ensures NodesWithRole(nodes, r) == []
    decreases |nodes|
  {
    if |nodes| > 0 {
      NoNodesWithRole(nodes[..|nodes| - 1], r);
    }
  }

  /** The role list pods are routed by: each node's list, and the unassigned
      bucket as the one "role" of unbound pods. */
  function RoleIndex(nodes: seq<Node>): map<string, seq<string>> {
    NodeRoleLists(nodes)[Unassigned := [Unassigned]]
  }

  /** The node-level buckets whose role list contains `r`. */
  function NodesCarrying(index: map<string, seq<string>>, r: string): set<string> {
    set k | k in index && r in index[k]
  }

  /** One pod added to each role in `roles`. */
  function AddPodToRoles(b: map<string, ClusterCapacityData>, p: Pod, roles: seq<string>): (r: map<string, ClusterCapacityData>)
    requires Distinct(roles)
    requires forall k :: k in roles ==> k in b
    ensures r.Keys == b.Keys
    ensures forall k :: k in b ==> r[k] == if k in roles then b[k].(usage := b[k].usage.Plus(Demand(p))) else b[k]
    decreases |roles|
  {
    if |roles| == 0 then b
    else
      var init, role := roles[..|roles| - 1], roles[|roles| - 1];
      assert roles == init + [role];
      var b1 := AddPodToRoles(b, p, init);
      assert role !in init;
      b1[role := b1[role].(usage := AddPod(b1[role].usage, p))]
  }

  /** The pod walk: each pod goes to every role of its node, unbound pods to
      the unassigned bucket, and a pod naming a node without an entry to no
      bucket at all. */
  function WalkPods(b: map<string, ClusterCapacityData>, index: map<string, seq<string>>, pods: seq<Pod>): (r: map<string, ClusterCapacityData>)
    requires forall k :: k in index ==> Distinct(index[k]) && forall x :: x in index[k] ==> x in b
    ensures r.Keys == b.Keys
    ensures forall k :: k in b ==> r[k] == b[k].(usage := b[k].usage.Plus(TotalDemand(PodsWhere(pods, Target, NodesCarrying(index, k)))))
  {
    if |pods| == 0 then
      forall k | k in b ensures TotalDemand(PodsWhere(pods, Target, NodesCarrying(index, k))) == NoUsage {
        NoneWhereEmpty(pods, Target);
        assert PodsWhere(pods, Target, NodesCarrying(index, k)) == PodsWhere(pods, Target, {});
      }
      b
    else
      var init, p := pods[..|pods| - 1], pods[|pods| - 1];
      var b1 := WalkPods(b, index, init);
      var t := Target(p);
      var roles := if t in index then index[t] else [];
      var r := AddPodToRoles(b1, p, roles);
      forall k | k in b
        ensures r[k] == b[k].(usage := b[k].usage.Plus(TotalDemand(PodsWhere(pods, Target, NodesCarrying(index, k)))))
      {
        var ks := NodesCarrying(index, k);
        var before := TotalDemand(PodsWhere(init, Target, ks));
        PodsWhereStep(pods, Target, ks);
        assert b1[k].usage == b[k].usage.Plus(before);
        if t in ks {
          assert k in roles;
          UsageAssociates(b[k].usage, before, Demand(p));
        } else {
          assert k !in roles;
        }
      }
      r
  }

  /** The derived fields, computed for each listed role. */
  function FinalizeRoles(m: map<string, ClusterCapacityData>, names: seq<string>): (r: map<string, ClusterCapacityData>)
    requires forall k :: k in names ==> k in m
    ensures r.Keys == m.Keys
    ensures forall k :: k in m ==> r[k] == if k in names then Finalize(m[k]) else m[k]
  {
    if |names| == 0 then m
    else
      var init := names[..|names| - 1];
      var r := FinalizeRoles(m, init);
      r[names[|names| - 1] := Finalize(r[names[|names| - 1]])]
  }

  /** The role buckets after both walks and before the derived fields: the
      node walk's buckets, a fresh unassigned bucket that replaces any bucket
      of that name, then every pod. */
  function FilledBuckets(nodes: seq<Node>, pods: seq<Pod>): (m: map<string, ClusterCapacityData>)
    ensures m.Keys == RolesOfNodes(nodes) + {Unassigned}
  {
    var w := WalkNodes(nodes);
    WalkPods(w.buckets[Unassigned := EmptyClusterData], RoleIndex(nodes), pods)
  }

  /** Each bucket after both walks: a real role holds the nodes carrying it,
      the unassigned bucket no node at all, and each holds the pods routed to
      it through the role index. The derived fields are still zero. */
  lemma FilledBucketContents(nodes: seq<Node>, pods: seq<Pod>, k: string)
    requires k in RolesOfNodes(nodes) || k == Unassigned
    ensures FilledBuckets(nodes, pods)[k] == ClusterCapacityData(
      if k == Unassigned then NoSupply else SupplyOf(NodesWithRole(nodes, k)),
      TotalDemand(PodsWhere(pods, Target, NodesCarrying(RoleIndex(nodes), k))),
      0, 0, NoDims)
  {
    var routed := TotalDemand(PodsWhere(pods, Target, NodesCarrying(RoleIndex(nodes), k)));
    NoUsageIsNeutral(routed);
    if k != Unassigned {
      WalkNodesBuckets(nodes, k);
    }
  }

  /** The rows of the per-role command: a record per role and the order the
      rows are printed in. */
  datatype RoleReport = RoleReport(data: map<string, ClusterCapacityData>, names: seq<string>)

  /** The per-role command. Roles come out in increasing byte order, with
      the unassigned row last when it is asked for; each role is listed once.
      Every role some node carries gets its derived fields, and the
      unassigned bucket keeps them at zero. */
  function AggregateRoles(nodes: seq<Node>, pods: seq<Pod>, showUnassigned: bool): (r: RoleReport)
    ensures r.data.Keys == RolesOfNodes(nodes) + {Unassigned}
    ensures r.names == SortedElements(RolesOfNodes(nodes)) + (if showUnassigned then [Unassigned] else [])
    ensures forall k :: k in RolesOfNodes(nodes) ==> r.data[k] == Finalize(FilledBuckets(nodes, pods)[k])
    ensures Unassigned !in RolesOfNodes(nodes) ==> r.data[Unassigned] == FilledBuckets(nodes, pods)[Unassigned]
  {
    var w := WalkNodes(nodes);
    SortOfDistinct(w.roleNames, RolesOfNodes(nodes));
    RoleReport(FinalizeRoles(FilledBuckets(nodes, pods), w.roleNames),
               Sort(w.roleNames) + (if showUnassigned then [Unassigned] else []))
  }

  /** A role some node carries: its record sums the full node count,
      readiness, capacity and allocatable of every node carrying it (a node
      with several roles is counted in each, not split), holds the pods
      routed to it, and has its derived fields computed. */
  lemma RoleRecord(nodes: seq<Node>, pods: seq<Pod>, showUnassigned: bool, k: string)
    requires k in RolesOfNodes(nodes) && k != Unassigned
    ensures var c := AggregateRoles(nodes, pods, showUnassigned).data[k];
      && c.supply == SupplyOf(NodesWithRole(nodes, k))
      && c.usage == TotalDemand(PodsWhere(pods, Target, NodesCarrying(RoleIndex(nodes), k)))
      && Finalized(c)
  {
    FilledBucketContents(nodes, pods, k);
  }

  /** No node is named `*unassigned*` or "" and no two nodes share a name,
      as Kubernetes object names guarantee. */
  predicate WellNamed(nodes: seq<Node>) {
    Distinct(NamesOf(nodes)) && Unassigned !in NamesOf(nodes) && "" !in NamesOf(nodes)
  }

  /** An unbound pod is routed to the unassigned bucket and to no role. */
  lemma UnboundPodRouting(nodes: seq<Node>, p: Pod, r: string)
    requires p.nodeName == ""
    ensures Target(p) in NodesCarrying(RoleIndex(nodes), r) <==> r == Unassigned
  {
    assert RoleIndex(nodes)[Unassigned] == [Unassigned];
  }

  /** A pod naming a node that is not listed is routed to no bucket at all. */
  lemma UnknownNodePodRouting(nodes: seq<Node>, p: Pod, r: string)
    requires p.nodeName != "" && p.nodeName != Unassigned && p.nodeName !in NamesOf(nodes)
    ensures Target(p) !in NodesCarrying(RoleIndex(nodes), r)
  {
    assert p.nodeName !in RoleIndex(nodes);
  }

  /** A pod on a listed node is routed to every role of that node and to no
      other bucket. */
  lemma ListedNodePodRouting(nodes: seq<Node>, p: Pod, r: string, i: int)
    requires WellNamed(nodes)
    requires 0 <= i < |nodes| && nodes[i].name == p.nodeName
    ensures Target(p) in NodesCarrying(RoleIndex(nodes), r) <==> r in RoleSet(nodes[i].labels)
  {
    NodeRoleListOf(nodes, i);
    assert NamesOf(nodes)[i] == p.nodeName;
    assert RoleIndex(nodes)[p.nodeName] == RoleList(nodes[i].labels);
  }

  /** When no node carries a role named `*unassigned*`, that bucket holds
      exactly the pods that are not bound to a node (and any pod naming a node
      called `*unassigned*`, which no listed node is). */
  lemma UnassignedRecord(nodes: seq<Node>, pods: seq<Pod>, showUnassigned: bool)
    requires Unassigned !in RolesOfNodes(nodes)
    ensures AggregateRoles(nodes, pods, showUnassigned).data[Unassigned]
         == EmptyClusterData.(usage := TotalDemand(PodsWhere(pods, Target, {Unassigned})))
  {
    FilledBucketContents(nodes, pods, Unassigned);
    var index := RoleIndex(nodes);
    assert NodesCarrying(index, Unassigned) == {Unassigned} by {
      forall k | k in index && k != Unassigned ensures Unassigned !in index[k] {
        assert index[k] == NodeRoleLists(nodes)[k];
      }
    }
  }
}
