/** The per-namespace command (cmd/capacity/namespace.go): one bucket per
    listed namespace, buckets created on demand for namespaces only pods
    name, a count of the pods not bound to a node, and a `*total*` row. */
module NamespaceCapacity {
  import opened Strings
  import opened Inventory
  import opened Rollup
  import Capacity

  /** A namespace bucket: what its pods demand, and how many of them are
      not bound to a node. */
  datatype NamespaceCapacityData = NamespaceCapacityData(usage: Usage, unassigned: int)
  {
    function Plus(o: NamespaceCapacityData): NamespaceCapacityData {
      NamespaceCapacityData(usage.Plus(o.usage), unassigned + o.unassigned)
    }
  }

  const EmptyNamespaceData := NamespaceCapacityData(NoUsage, 0)

  /** The bucket key of a pod in this command. */
  function Namespace(p: Pod): string {
    p.namespace
  }

  predicate Unbound(p: Pod) {
    p.nodeName == ""
  }

  /** Reference: how many of `pods` are not bound to a node. */
  function CountUnbound(pods: seq<Pod>): (n: nat)
    ensures n <= |pods|
  {
    if |pods| == 0 then 0 else CountUnbound(pods[..|pods| - 1]) + (if Unbound(pods[|pods| - 1]) then 1 else 0)
  }

  function NamespacesOf(pods: seq<Pod>): (names: seq<string>)
    ensures |names| == |pods|
    ensures forall i :: 0 <= i < |pods| ==> names[i] == pods[i].namespace
  {
    if |pods| == 0 then [] else NamespacesOf(pods[..|pods| - 1]) + [pods[|pods| - 1].namespace]
  }

  /** The command's state during the walk: the namespace names in the order
      their buckets were made, and the buckets. */
  datatype NamespaceWalk = NamespaceWalk(names: seq<string>, data: map<string, NamespaceCapacityData>)

  /** Every name is listed once and owns exactly one bucket. */
  predicate Coherent(w: NamespaceWalk) {
    Distinct(w.names) && w.data.Keys == SetOf(w.names)
  }

  /** The first loop: every listed namespace gets a zero bucket. */
  function ListNamespaces(listed: seq<string>): (w: NamespaceWalk)
    ensures w.names == listed
    ensures w.data.Keys == SetOf(listed)
    ensures forall k :: k in w.data ==> w.data[k] == EmptyNamespaceData
  {
    if |listed| == 0 then NamespaceWalk([], map[])
    else
      var w, x := ListNamespaces(listed[..|listed| - 1]), listed[|listed| - 1];
      assert listed == listed[..|listed| - 1] + [x];
      NamespaceWalk(w.names + [x], w.data[x := EmptyNamespaceData])
  }

  /** Makes a bucket for `ns` unless the name list already holds it. */
  function FileNamespace(w: NamespaceWalk, ns: string): (r: NamespaceWalk)
    requires Coherent(w)
    ensures Coherent(r)
    ensures r.data.Keys == w.data.Keys + {ns}
    ensures forall k :: k in w.data ==> r.data[k] == w.data[k]
    ensures ns !in w.data ==> r.data[ns] == EmptyNamespaceData
  {
    if Capacity.StringInSlice(ns, w.names) then w
    else
      SetOfSnoc(w.names, ns);
      NamespaceWalk(w.names + [ns], w.data[ns := EmptyNamespaceData])
  }

  /** What one pod adds to the bucket of its namespace. */
  function PodTally(p: Pod): NamespaceCapacityData {
    NamespaceCapacityData(Demand(p), if Unbound(p) then 1 else 0)
  }

  /** Reference: what a sequence of pods adds to a bucket. */
  function Tally(pods: seq<Pod>): NamespaceCapacityData {
    NamespaceCapacityData(TotalDemand(pods), CountUnbound(pods))
  }

  /** The pod step of one bucket: an unbound pod is counted as unassigned
      whatever its phase, and the pod's demand is added. */
  function CountPod(d: NamespaceCapacityData, p: Pod): (r: NamespaceCapacityData)
    ensures r == d.Plus(PodTally(p))
  {
    var counted := if p.nodeName == "" then d.(unassigned := d.unassigned + 1) else d;
    counted.(usage := AddPod(counted.usage, p))
  }

  /** One pass of the pod loop: the pod's namespace gets a bucket if it has
      none, then the pod is counted in it. */
  function WalkPod(w: NamespaceWalk, p: Pod): (r: NamespaceWalk)
    requires Coherent(w)
    ensures Coherent(r)
    ensures r.data.Keys == w.data.Keys + {p.namespace}
  {
    var filed := FileNamespace(w, p.namespace);
    var counted := CountPod(filed.data[p.namespace], p);
    UpdateKeepsKeys(filed.data, p.namespace, counted);
    filed.(data := filed.data[p.namespace := counted])
  }

  lemma UpdateKeepsKeys(m: map<string, NamespaceCapacityData>, k: string, v: NamespaceCapacityData)
    requires k in m
    ensures m[k := v].Keys == m.Keys
  {
  }

  /** The pod loop. */
  function WalkPods(w: NamespaceWalk, pods: seq<Pod>): (r: NamespaceWalk)
    requires Coherent(w)
    ensures Coherent(r)
    ensures r.data.Keys == w.data.Keys + SetOf(NamespacesOf(pods))
    decreases |pods|
  {
    if |pods| == 0 then w
    else
      var init, p := pods[..|pods| - 1], pods[|pods| - 1];
      assert NamespacesOf(pods) == NamespacesOf(init) + [p.namespace];
      SetOfSnoc(NamespacesOf(init), p.namespace);
      WalkPod(WalkPods(w, init), p)
  }

  lemma NamespaceDataAssociates(a: NamespaceCapacityData, b: NamespaceCapacityData, c: NamespaceCapacityData)
    ensures a.Plus(b).Plus(c) == a.Plus(b.Plus(c))
  {
    UsageAssociates(a.usage, b.usage, c.usage);
  }

  lemma EmptyIsNeutral(d: NamespaceCapacityData)
    ensures d.Plus(EmptyNamespaceData) == d && EmptyNamespaceData.Plus(d) == d
  {
    NoUsageIsNeutral(d.usage);
  }

  /** A namespace no pod names gets no pods. */
  lemma {:induction false} NoPodsOutside(pods: seq<Pod>, k: string)
    requires k !in SetOf(NamespacesOf(pods))
    ensures PodsWhere(pods, Namespace, {k}) == []
    decreases |pods|
  {
    if |pods| > 0 {
      var init := pods[..|pods| - 1];
      assert NamespacesOf(pods) == NamespacesOf(init) + [pods[|pods| - 1].namespace];
      NoPodsOutside(init, k);
    }
  }

  lemma {:induction false} CountUnboundStep(pods: seq<Pod>, p: Pod)
    ensures CountUnbound(pods + [p]) == CountUnbound(pods) + (if Unbound(p) then 1 else 0)
  {
    assert (pods + [p])[..|pods|] == pods;
  }

  lemma TallySnoc(pods: seq<Pod>, p: Pod)
    ensures Tally(pods + [p]) == Tally(pods).Plus(PodTally(p))
    ensures Tally([]) == EmptyNamespaceData
  {
    assert (pods + [p])[..|pods|] == pods;
    CountUnboundStep(pods, p);
  }

  /** The bucket of one namespace after the pod loop: what it held before,
      plus the demand and the unbound count of exactly the pods in that
      namespace. */
  lemma {:induction false} WalkPodsRow(w: NamespaceWalk, pods: seq<Pod>, k: string)
    requires Coherent(w)
    requires k in w.data.Keys + SetOf(NamespacesOf(pods))
    ensures WalkPods(w, pods).data[k]
         == (if k in w.data then w.data[k] else EmptyNamespaceData).Plus(Tally(PodsWhere(pods, Namespace, {k})))
    decreases |pods|
  {
    var base := if k in w.data then w.data[k] else EmptyNamespaceData;
    if |pods| == 0 {
      TallySnoc([], Pod("", "", Pending, []));
      EmptyIsNeutral(base);
    } else {
      var init, p := pods[..|pods| - 1], pods[|pods| - 1];
      var walked := WalkPods(w, init);
      var before := PodsWhere(init, Namespace, {k});
      assert NamespacesOf(pods) == NamespacesOf(init) + [p.namespace];
      SetOfSnoc(NamespacesOf(init), p.namespace);
      if k == p.namespace {
        assert Namespace(p) in {k};
        assert PodsWhere(pods, Namespace, {k}) == before + [p];
        TallySnoc(before, p);
        if k in walked.data {
          WalkPodsRow(w, init, k);
          NamespaceDataAssociates(base, Tally(before), PodTally(p));
        } else {
          NoPodsOutside(init, k);
          EmptyIsNeutral(PodTally(p));
        }
      } else {
        assert Namespace(p) !in {k};
        assert PodsWhere(pods, Namespace, {k}) == before;
        WalkPodsRow(w, init, k);
      }
    }
  }

  /** The buckets after both loops, before `*total*` is made. */
  function NamespaceRows(listed: seq<string>, pods: seq<Pod>): (w: NamespaceWalk)
    requires Distinct(listed)
    ensures Coherent(w)
    ensures w.data.Keys == SetOf(listed) + SetOf(NamespacesOf(pods))
  {
    WalkPods(ListNamespaces(listed), pods)
  }

  /** The `*total*` loop: adds up the buckets of `names` in order. */
  function SumNamespaces(data: map<string, NamespaceCapacityData>, names: seq<string>): NamespaceCapacityData
    requires forall k :: k in names ==> k in data
  {
    if |names| == 0 then EmptyNamespaceData
    else SumNamespaces(data, names[..|names| - 1]).Plus(data[names[|names| - 1]])
  }

  /** Namespace names are unique, and none is the synthetic `*total*` (a
      Kubernetes name cannot contain '*'). */
  predicate ValidNamespaces(listed: seq<string>, pods: seq<Pod>) {
    Distinct(listed) && Total !in listed && Total !in NamespacesOf(pods)
  }

  /** The output of the per-namespace command: the buckets including
      `*total*`, and the printed row order. */
  datatype NamespaceReport = NamespaceReport(data: map<string, NamespaceCapacityData>, names: seq<string>)

  /** The command body: bucket the pods, add `*total*` over every namespace
      bucket (not over itself), sort the names, and append `*total*` when it
      is to be shown. */
  function AggregateNamespaces(listed: seq<string>, pods: seq<Pod>, showTotal: bool): (r: NamespaceReport)
    requires ValidNamespaces(listed, pods)
    ensures r.data.Keys == SetOf(listed) + SetOf(NamespacesOf(pods)) + {Total}
  {
    var w := NamespaceRows(listed, pods);
    NamespaceReport(w.data[Total := SumNamespaces(w.data, w.names)], Sort(w.names) + (if showTotal then [Total] else []))
  }

  /** The bucket of one namespace: the demand of exactly the pods in it, and
      how many of those are unbound; so its unassigned and non-terminal
      counts never exceed its pod count. */
  lemma NamespaceRow(listed: seq<string>, pods: seq<Pod>, showTotal: bool, k: string)
    requires ValidNamespaces(listed, pods)
    requires k in SetOf(listed) + SetOf(NamespacesOf(pods))
    ensures var d, here := AggregateNamespaces(listed, pods, showTotal).data[k], PodsWhere(pods, Namespace, {k});
      && d.usage == TotalDemand(here)
      && d.unassigned == CountUnbound(here)
      && d.usage.pods == |here|
      && 0 <= d.unassigned <= d.usage.pods
      && 0 <= d.usage.nonTerm <= d.usage.pods
  {
    var here := PodsWhere(pods, Namespace, {k});
    WalkedRow(listed, pods, k);
    assert k != Total;
    TotalDemandCounts(here);
  }

  lemma WalkedRow(listed: seq<string>, pods: seq<Pod>, k: string)
    requires Distinct(listed)
    requires k in SetOf(listed) + SetOf(NamespacesOf(pods))
    ensures NamespaceRows(listed, pods).data[k] == Tally(PodsWhere(pods, Namespace, {k}))
  {
    WalkPodsRow(ListNamespaces(listed), pods, k);
    EmptyIsNeutral(Tally(PodsWhere(pods, Namespace, {k})));
  }

  /** Every listed namespace has a row, and one whose pods all live elsewhere
      holds zeros. */
  lemma ListedNamespaceKept(listed: seq<string>, pods: seq<Pod>, showTotal: bool, k: string)
    requires ValidNamespaces(listed, pods)
    requires k in listed
    requires forall p :: p in pods ==> p.namespace != k
    ensures k in AggregateNamespaces(listed, pods, showTotal).data
    ensures AggregateNamespaces(listed, pods, showTotal).data[k] == EmptyNamespaceData
  {
    forall i | 0 <= i < |pods|
      ensures NamespacesOf(pods)[i] != k
    {
      assert pods[i] in pods;
    }
    NoPodsOutside(pods, k);
    WalkedRow(listed, pods, k);
    TallySnoc([], Pod("", "", Pending, []));
  }

  /** Reference: the unbound pods counted namespace by namespace over `names`. */
  function UnboundPerKey(pods: seq<Pod>, names: seq<string>): int {
    if |names| == 0 then 0
    else UnboundPerKey(pods, names[..|names| - 1]) + CountUnbound(PodsWhere(pods, Namespace, {names[|names| - 1]}))
  }

  lemma {:induction false} CountUnboundAppend(a: seq<Pod>, b: seq<Pod>)
    ensures CountUnbound(a + b) == CountUnbound(a) + CountUnbound(b)
    decreases |b|
  {
    if |b| > 0 {
      var b' := b[..|b| - 1];
      assert (a + b)[..|a + b| - 1] == a + b';
      CountUnboundAppend(a, b');
    } else {
      assert a + b == a;
    }
  }

  /** Splitting a namespace set into two disjoint parts splits the count. */
  lemma {:induction false} UnboundSplits(pods: seq<Pod>, ks: set<string>, x: string)
    requires x !in ks
    ensures CountUnbound(PodsWhere(pods, Namespace, ks + {x}))
         == CountUnbound(PodsWhere(pods, Namespace, ks)) + CountUnbound(PodsWhere(pods, Namespace, {x}))
    decreases |pods|
  {
    if |pods| > 0 {
      var init, p := pods[..|pods| - 1], pods[|pods| - 1];
      UnboundSplits(init, ks, x);
      var a := if Namespace(p) in ks + {x} then [p] else [];
      var b := if Namespace(p) in ks then [p] else [];
      var c := if Namespace(p) in {x} then [p] else [];
      assert PodsWhere(pods, Namespace, ks + {x}) == PodsWhere(init, Namespace, ks + {x}) + a;
      assert PodsWhere(pods, Namespace, ks) == PodsWhere(init, Namespace, ks) + b;
      assert PodsWhere(pods, Namespace, {x}) == PodsWhere(init, Namespace, {x}) + c;
      CountUnboundAppend(PodsWhere(init, Namespace, ks + {x}), a);
      CountUnboundAppend(PodsWhere(init, Namespace, ks), b);
      CountUnboundAppend(PodsWhere(init, Namespace, {x}), c);
      CountUnboundStep([], p);
    }
  }

  /** Conservation of the unbound count over distinct namespaces. */
  lemma {:induction false} UnboundPartition(pods: seq<Pod>, names: seq<string>)
    requires Distinct(names)
    ensures UnboundPerKey(pods, names) == CountUnbound(PodsWhere(pods, Namespace, SetOf(names)))
    decreases |names|
  {
    if |names| == 0 {
      assert SetOf(names) == {};
      NothingWhereEmpty(pods, Namespace);
    } else {
      var init := names[..|names| - 1];
      UnboundPartition(pods, init);
      LastIsNew(names);
      UnboundSplits(pods, SetOf(init), names[|names| - 1]);
    }
  }

  /** Adding up buckets that each hold their namespace's pods gives the
      per-namespace reference sums. */
  lemma {:induction false} SumOfRows(data: map<string, NamespaceCapacityData>, names: seq<string>, pods: seq<Pod>)
    requires forall k :: k in names ==> k in data
    requires forall k :: k in names ==>
      data[k] == NamespaceCapacityData(TotalDemand(PodsWhere(pods, Namespace, {k})), CountUnbound(PodsWhere(pods, Namespace, {k})))
    ensures SumNamespaces(data, names).usage == DemandPerKey(pods, Namespace, names)
    ensures SumNamespaces(data, names).unassigned == UnboundPerKey(pods, names)
    decreases |names|
  {
    if |names| > 0 {
      SumOfRows(data, names[..|names| - 1], pods);
    }
  }

  /** `*total*` holds the demand of every pod and counts every unbound pod:
      each pod lands in exactly one namespace bucket and the total adds each
      bucket once. */
  lemma NamespaceTotal(listed: seq<string>, pods: seq<Pod>, showTotal: bool)
    requires ValidNamespaces(listed, pods)
    ensures var t := AggregateNamespaces(listed, pods, showTotal).data[Total];
      && t.usage == TotalDemand(pods)
      && t.unassigned == CountUnbound(pods)
      && t.usage.pods == |pods|
  {
    var w := NamespaceRows(listed, pods);
    assert AggregateNamespaces(listed, pods, showTotal).data[Total] == SumNamespaces(w.data, w.names);
    forall k | k in w.names
      ensures w.data[k] == NamespaceCapacityData(TotalDemand(PodsWhere(pods, Namespace, {k})), CountUnbound(PodsWhere(pods, Namespace, {k})))
    {
      assert k in SetOf(w.names);
      WalkedRow(listed, pods, k);
    }
    SumOfRows(w.data, w.names, pods);
    PartitionConservesDemand(pods, Namespace, w.names);
    UnboundPartition(pods, w.names);
    PodsInWalkedNamespaces(pods, w.names);
    AllPodsWhere(pods, Namespace, SetOf(w.names));
    TotalDemandCounts(pods);
  }

  lemma PodsInWalkedNamespaces(pods: seq<Pod>, names: seq<string>)
    requires SetOf(NamespacesOf(pods)) <= SetOf(names)
    ensures forall p :: p in pods ==> Namespace(p) in SetOf(names)
  {
    forall p | p in pods ensures Namespace(p) in SetOf(names) {
      var i :| 0 <= i < |pods| && pods[i] == p;
      assert NamespacesOf(pods)[i] == p.namespace;
    }
  }

  /** Rows print with the namespace names in increasing order, each once,
      then `*total*` when it is shown. */
  lemma NamespaceRowOrder(listed: seq<string>, pods: seq<Pod>, showTotal: bool)
    requires ValidNamespaces(listed, pods)
    ensures AggregateNamespaces(listed, pods, showTotal).names
         == SortedElements(SetOf(listed) + SetOf(NamespacesOf(pods))) + (if showTotal then [Total] else [])
  {
    var w := NamespaceRows(listed, pods);
    SortOfDistinct(w.names, SetOf(listed) + SetOf(NamespacesOf(pods)));
  }
}
