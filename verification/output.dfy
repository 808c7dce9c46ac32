/** The pure decisions of the table display (internal/output/output.go):
    which output formats are accepted, which namespace rows are shown, in
    which order node rows print when grouped by role, and the status, roles
    and pods cells of a node row. */
module Output {
  import opened Strings
  import opened Inventory
  import opened Rollup
  import opened Roles
  import opened NodeCapacity
  import opened NamespaceCapacity

  datatype Option<T> = None | Some(value: T)

  /** The outcome of a validation: no error, or an error with its message. */
  datatype Verdict = Accepted | Rejected(message: string)

  const TableDisplay := "table"
  const JsonDisplay := "json"
  const YamlDisplay := "yaml"
  const ValidOutputs := [TableDisplay, JsonDisplay, YamlDisplay]

  /** Go's `%v` of a string slice: the elements separated by single spaces,
      in brackets. */
  function FormatList(xs: seq<string>): string {
    "[" + Join(xs, " ") + "]"
  }

  /** The scan over the valid formats. */
  function MatchesAny(format: string, valid: seq<string>): (found: bool)
    ensures found <==> format in valid
  {
    if |valid| == 0 then false
    else format == valid[0] || MatchesAny(format, valid[1..])
  }

  /** The valid formats as the error message lists them. */
  lemma ValidOutputsListed()
    ensures FormatList(ValidOutputs) == "[table json yaml]"
  {
    assert ValidOutputs[1..][1..] == [YamlDisplay];
    assert Join(ValidOutputs[1..], " ") == "json yaml";
    assert Join(ValidOutputs, " ") == "table json yaml";
  }

  /** `ValidateOutput`: the format flag (absent when it cannot be read) is
      accepted exactly when it is one of the three display formats; every
      other value is rejected with a message naming it and the valid list. */
  function ValidateOutput(format: Option<string>): (v: Verdict)
    ensures format.None? ==> v == Rejected("unable to get output display format")
    ensures format.Some? ==> (v == Accepted <==> format.value == "table" || format.value == "json" || format.value == "yaml")
    ensures format.Some? && v != Accepted
        ==> v == Rejected("Display Format \"" + format.value + "\" is invalid. Valid values are [table json yaml]")
  {
    match format
    case None => Rejected("unable to get output display format")
    case Some(f) =>
      if MatchesAny(f, ValidOutputs) then Accepted
      else
        ValidOutputsListed();
        var message := "Display Format \"" + f + "\" is invalid. Valid values are " + FormatList(ValidOutputs);
        assert message == "Display Format \"" + f + "\" is invalid. Valid values are [table json yaml]";
        Rejected(message)
  }

  /** The status cell of a node row: empty for the synthetic rows, otherwise
      readiness, followed by ",Unschedulable" when the node is cordoned. */
  function StatusCell(name: string, d: NodeCapacityData): (cell: string)
    ensures cell == "" <==> name == Unassigned || name == Total
  {
    if name == Unassigned || name == Total then ""
    else (if d.ready then "Ready" else "NotReady") + (if d.schedulable then "" else ",Unschedulable")
  }

  /** Reads a status cell back into readiness and schedulability. */
  function ReadStatus(cell: string): Option<(bool, bool)> {
    ReadStatusParts(Split(cell, ','))
  }

  function ReadStatusParts(parts: seq<string>): Option<(bool, bool)> {
    if parts == ["Ready"] then Some((true, true))
    else if parts == ["NotReady"] then Some((false, true))
    else if parts == ["Ready", "Unschedulable"] then Some((true, false))
    else if parts == ["NotReady", "Unschedulable"] then Some((false, false))
    else None
  }

  /** The status cell of a real node loses nothing: both flags can be read
      back from it. */
  lemma StatusCellRoundTrip(name: string, d: NodeCapacityData)
    requires name != Unassigned && name != Total
    ensures ReadStatus(StatusCell(name, d)) == Some((d.ready, d.schedulable))
  {
    var state := if d.ready then "Ready" else "NotReady";
    StatusSplit(state, d.schedulable);
    StatusPartsRead(d.ready, d.schedulable);
  }

  lemma StatusSplit(state: string, schedulable: bool)
    requires state == "Ready" || state == "NotReady"
    ensures Split(state + (if schedulable then "" else ",Unschedulable"), ',')
      == if schedulable then [state] else [state, "Unschedulable"]
  {
    NoComma(state);
    if schedulable {
      assert state + "" == state;
    } else {
      assert state + ",Unschedulable" == state + [','] + "Unschedulable";
      SplitUnschedulable(state);
    }
  }

  lemma StatusPartsRead(ready: bool, schedulable: bool)
    ensures var state := if ready then "Ready" else "NotReady";
      ReadStatusParts(if schedulable then [state] else [state, "Unschedulable"]) == Some((ready, schedulable))
  {
    assert "Ready" != "NotReady" by { assert |"Ready"| != |"NotReady"|; }
  }

  lemma SplitUnschedulable(state: string)
    requires ',' !in state
    ensures Split(state + [','] + "Unschedulable", ',') == [state, "Unschedulable"]
  {
    SplitAppend(state, ',', "Unschedulable");
    NoComma("Unschedulable");
  }

  lemma NoComma(word: string)
    requires word == "Ready" || word == "NotReady" || word == "Unschedulable"
    ensures ',' !in word
    ensures Split(word, ',') == [word]
  {
    assert forall i :: 0 <= i < |word| ==> word[i] != ',';
    SplitNoSeparator(word, ',');
  }

  /** The roles cell: the row's roles in increasing order, joined with ",". */
  function RolesCell(d: NodeCapacityData): (cell: string)
    ensures d.roles == {} ==> cell == ""
  {
    Join(SortedElements(d.roles), ",")
  }

  /** Role names without ',' can be read back from the roles cell, in
      increasing order. */
  lemma RolesCellRoundTrip(d: NodeCapacityData)
    requires d.roles != {}
    requires forall r :: r in d.roles ==> ',' !in r
    ensures Split(RolesCell(d), ',') == SortedElements(d.roles)
  {
    var xs := SortedElements(d.roles);
    forall i | 0 <= i < |xs|
      ensures ',' !in xs[i]
    {
      assert xs[i] in d.roles;
    }
    SplitJoin(xs, ',');
  }

  /** A node's roles cell is exactly the signature its row is grouped under
      in the sort-by-role display. */
  lemma RolesCellIsSignature(nodes: seq<Node>, pods: seq<Pod>, i: int)
    requires ValidSnapshot(nodes, pods)
    requires 0 <= i < |nodes|
    ensures RolesCell(NodeRows(nodes, pods)[nodes[i].name]) == RoleSignature(nodes[i].labels)
  {
    NodeRow(nodes, pods, i);
  }

  /** The synthetic rows carry no roles, so their roles cell is empty. */
  lemma SyntheticRolesCellEmpty(nodes: seq<Node>, pods: seq<Pod>)
    requires ValidSnapshot(nodes, pods)
    ensures RolesCell(NodeRows(nodes, pods)[Unassigned]) == ""
    ensures RolesCell(NodeRows(nodes, pods)[Total]) == ""
  {
    UnassignedRow(nodes, pods);
    RowsHoldRoutedDemand(nodes, pods, Total);
  }

  /** The two pods cells (capacity, allocatable) as `printNodeData` fills
      them: both are taken from the capacity field. */
  function PodsCellsAsWritten(d: NodeCapacityData): (int, int) {
    (d.capacityPods, d.capacityPods)
  }

  /** A node whose allocatable pod count differs from its capacity shows the
      capacity in the allocatable column. */
  lemma AllocatablePodsCellShowsCapacity()
    ensures var d := EmptyNodeData.(capacityPods := 110, allocatablePods := 100);
      PodsCellsAsWritten(d).1 != d.allocatablePods
  {
  }

  /** The pods cells as the column headers announce them: capacity, then
      allocatable. */
  function PodsCells(d: NodeCapacityData): (int, int) {
    (d.capacityPods, d.allocatablePods)
  }

  /** For every node row the corrected cells show the node's own capacity
      and allocatable pod counts. */
  lemma NodePodsCells(nodes: seq<Node>, pods: seq<Pod>, i: int)
    requires ValidSnapshot(nodes, pods)
    requires 0 <= i < |nodes|
    ensures PodsCells(NodeRows(nodes, pods)[nodes[i].name]) == (nodes[i].capacityPods, nodes[i].allocatablePods)
  {
    NodeRow(nodes, pods, i);
  }

  /** The printed cells agree with the announced ones exactly on the nodes
      whose allocatable pod count equals their capacity; on every other row
      the allocatable column is wrong. */
  lemma PodsCellsAgreeExactly(d: NodeCapacityData)
    ensures PodsCellsAsWritten(d) == PodsCells(d) <==> d.capacityPods == d.allocatablePods
  {
  }

  /** As written, every listed node prints its pod capacity in both pods
      columns, whatever its allocatable pod count. */
  lemma NodePodsCellsAsWritten(nodes: seq<Node>, pods: seq<Pod>, i: int)
    requires ValidSnapshot(nodes, pods)
    requires 0 <= i < |nodes|
    ensures PodsCellsAsWritten(NodeRows(nodes, pods)[nodes[i].name]) == (nodes[i].capacityPods, nodes[i].capacityPods)
  {
    NodeRow(nodes, pods, i);
  }

  // ---------------------------------------------------------------------
  // Namespace rows

  /** The namespace table keeps, in order, the rows with at least one pod,
      or every row when all namespaces are to be shown. */
  function ShownNamespaces(data: map<string, NamespaceCapacityData>, names: seq<string>, showAll: bool): (shown: seq<string>)
    requires forall k :: k in names ==> k in data
    ensures forall k :: k in shown <==> k in names && (data[k].usage.pods != 0 || showAll)
    ensures |shown| <= |names|
  {
    if |names| == 0 then []
    else
      var k := names[|names| - 1];
      ShownNamespaces(data, names[..|names| - 1], showAll) + (if data[k].usage.pods != 0 || showAll then [k] else [])
  }

  lemma {:induction false} ShownAppend(data: map<string, NamespaceCapacityData>, a: seq<string>, b: seq<string>, showAll: bool)
    requires forall k :: k in a + b ==> k in data
    ensures ShownNamespaces(data, a + b, showAll) == ShownNamespaces(data, a, showAll) + ShownNamespaces(data, b, showAll)
    decreases |b|
  {
    if |b| == 0 {
      assert a + b == a;
    } else {
      var b' := b[..|b| - 1];
      assert (a + b)[..|a + b| - 1] == a + b';
      ShownAppend(data, a, b', showAll);
    }
  }

  /** Filtering keeps a sorted, duplicate-free name list sorted and
      duplicate-free. */
  lemma {:induction false} ShownKeepsOrder(data: map<string, NamespaceCapacityData>, names: seq<string>, showAll: bool)
    requires forall k :: k in names ==> k in data
    requires Sorted(names) && Distinct(names)
    ensures Sorted(ShownNamespaces(data, names, showAll)) && Distinct(ShownNamespaces(data, names, showAll))
    decreases |names|
  {
    if |names| > 0 {
      var init, k := names[..|names| - 1], names[|names| - 1];
      ShownKeepsOrder(data, init, showAll);
      forall m | 0 <= m < |init|
        ensures Below(init[m], k) && init[m] != k
      {
        assert init[m] == names[m];
      }
      var before := ShownNamespaces(data, init, showAll);
      forall j | 0 <= j < |before|
        ensures Below(before[j], k) && before[j] != k
      {
        assert before[j] in init;
      }
      var here := if data[k].usage.pods != 0 || showAll then [k] else [];
      AppendLargest(before, here, k);
    }
  }

  lemma AppendLargest(before: seq<string>, here: seq<string>, k: string)
    requires Sorted(before) && Distinct(before)
    requires here == [] || here == [k]
    requires forall j :: 0 <= j < |before| ==> Below(before[j], k) && before[j] != k
    ensures Sorted(before + here) && Distinct(before + here)
  {
  }

  /** A sorted duplicate-free sequence is the sorted listing of its elements. */
  lemma SortedListing(xs: seq<string>, s: set<string>)
    requires Sorted(xs) && Distinct(xs)
    requires forall x :: x in xs <==> x in s
    ensures xs == SortedElements(s)
  {
    DistinctSameElements(xs, SortedElements(s));
    SortIsUnique(xs, SortedElements(s));
  }

  /** A namespace holds pods exactly when some pod names it. */
  lemma HasPodsIffNamed(pods: seq<Pod>, k: string)
    ensures |PodsWhere(pods, Namespace, {k})| != 0 <==> k in SetOf(NamespacesOf(pods))
  {
    if k in SetOf(NamespacesOf(pods)) {
      var i :| 0 <= i < |pods| && NamespacesOf(pods)[i] == k;
      assert pods[i] in PodsWhere(pods, Namespace, {k});
    } else {
      NoPodsOutside(pods, k);
    }
  }

  /** The namespace table lists, in increasing order, the namespaces some
      pod lives in (every known namespace when all are to be shown), then
      `*total*` when it is requested and not empty or all are shown. */
  lemma NamespaceTableRows(listed: seq<string>, pods: seq<Pod>, showTotal: bool, showAll: bool)
    requires ValidNamespaces(listed, pods)
    ensures var r := AggregateNamespaces(listed, pods, showTotal);
      forall k :: k in r.names ==> k in r.data
    ensures var r := AggregateNamespaces(listed, pods, showTotal);
      ShownNamespaces(r.data, r.names, showAll)
        == SortedElements(if showAll then SetOf(listed) + SetOf(NamespacesOf(pods)) else SetOf(NamespacesOf(pods)))
           + (if showTotal && (showAll || |pods| != 0) then [Total] else [])
  {
    var r := AggregateNamespaces(listed, pods, showTotal);
    var sorted := SortedElements(SetOf(listed) + SetOf(NamespacesOf(pods)));
    var tail := if showTotal then [Total] else [];
    NamespaceRowOrder(listed, pods, showTotal);
    ShownAppend(r.data, sorted, tail, showAll);
    ShownSortedNamespaces(listed, pods, showTotal, showAll);
    NamespaceTotal(listed, pods, showTotal);
    if showTotal {
      assert ShownNamespaces(r.data, tail, showAll) == ShownNamespaces(r.data, [], showAll) + (if |pods| != 0 || showAll then [Total] else []);
    }
  }

  /** The namespace rows kept by the filter, in increasing order. */
  lemma ShownSortedNamespaces(listed: seq<string>, pods: seq<Pod>, showTotal: bool, showAll: bool)
    requires ValidNamespaces(listed, pods)
    ensures var r := AggregateNamespaces(listed, pods, showTotal);
      var known := SetOf(listed) + SetOf(NamespacesOf(pods));
      ShownNamespaces(r.data, SortedElements(known), showAll)
        == SortedElements(if showAll then known else SetOf(NamespacesOf(pods)))
  {
    var r := AggregateNamespaces(listed, pods, showTotal);
    var known := SetOf(listed) + SetOf(NamespacesOf(pods));
    var sorted := SortedElements(known);
    var shown := ShownNamespaces(r.data, sorted, showAll);
    ShownKeepsOrder(r.data, sorted, showAll);
    var kept := if showAll then known else SetOf(NamespacesOf(pods));
    forall k
      ensures k in shown <==> k in kept
    {
      if k in known {
        NamespaceRow(listed, pods, showTotal, k);
        HasPodsIffNamed(pods, k);
      }
    }
    SortedListing(shown, kept);
  }

  // ---------------------------------------------------------------------
  // Node rows grouped by role

  /** The rows filed under `roles`, one group after another. */
  function Concat(byRole: map<string, seq<string>>, roles: seq<string>): seq<string>
    requires forall r :: r in roles ==> r in byRole
  {
    if |roles| == 0 then [] else Concat(byRole, roles[..|roles| - 1]) + byRole[roles[|roles| - 1]]
  }

  /** Node rows in sort-by-role mode: the groups in increasing order of their
      signature, each group in the order it was filled. */
  function RoleOrderedRows(byRole: map<string, seq<string>>): seq<string> {
    Concat(byRole, SortedElements(byRole.Keys))
  }

  /** The node rows the table prints, grouped by role or in name order. */
  function DisplayedNodeRows(r: NodeReport, sortByRole: bool): seq<string> {
    if sortByRole then RoleOrderedRows(r.byRole) else r.names
  }

  lemma {:induction false} ConcatAppend(byRole: map<string, seq<string>>, a: seq<string>, b: seq<string>)
    requires forall r :: r in a + b ==> r in byRole
    ensures Concat(byRole, a + b) == Concat(byRole, a) + Concat(byRole, b)
    decreases |b|
  {
    if |b| == 0 {
      assert a + b == a;
    } else {
      var b' := b[..|b| - 1];
      assert (a + b)[..|a + b| - 1] == a + b';
      ConcatAppend(byRole, a, b');
    }
  }

  /** A row is printed exactly when one of the listed groups holds it. */
  lemma {:induction false} ConcatMembership(byRole: map<string, seq<string>>, roles: seq<string>, x: string)
    requires forall r :: r in roles ==> r in byRole
    ensures x in Concat(byRole, roles) <==> exists i :: 0 <= i < |roles| && x in byRole[roles[i]]
    decreases |roles|
  {
    if |roles| > 0 {
      var init := roles[..|roles| - 1];
      ConcatMembership(byRole, init, x);
      if exists i :: 0 <= i < |roles| && x in byRole[roles[i]] {
        var i :| 0 <= i < |roles| && x in byRole[roles[i]];
        if i < |init| {
          assert init[i] == roles[i];
        }
      }
      if exists i :: 0 <= i < |init| && x in byRole[init[i]] {
        var i :| 0 <= i < |init| && x in byRole[init[i]];
        assert roles[i] == init[i];
      }
    }
  }

  /** Groups that are duplicate-free and pairwise disjoint print every row
      once. */
  lemma {:induction false} ConcatDistinct(byRole: map<string, seq<string>>, roles: seq<string>)
    requires forall r :: r in roles ==> r in byRole
    requires Distinct(roles)
    requires forall r :: r in byRole ==> Distinct(byRole[r])
    requires forall r1, r2, x :: r1 in byRole && r2 in byRole && x in byRole[r1] && x in byRole[r2] ==> r1 == r2
    ensures Distinct(Concat(byRole, roles))
    decreases |roles|
  {
    if |roles| > 0 {
      var init, last := roles[..|roles| - 1], roles[|roles| - 1];
      DistinctInit(roles);
      ConcatDistinct(byRole, init);
      var before, group := Concat(byRole, init), byRole[last];
      forall x | x in before
        ensures x !in group
      {
        ConcatMembership(byRole, init, x);
        var i :| 0 <= i < |init| && x in byRole[init[i]];
        assert init[i] != last;
      }
      DistinctJoin(before, group);
    }
  }

  lemma DistinctJoin(a: seq<string>, b: seq<string>)
    requires Distinct(a) && Distinct(b)
    requires forall x :: x in a ==> x !in b
    ensures Distinct(a + b)
  {
    forall i, j | 0 <= i < j < |a + b|
      ensures (a + b)[i] != (a + b)[j]
    {
      if i < |a| && j >= |a| {
        assert (a + b)[i] in a;
        assert (a + b)[j] == b[j - |a|];
      }
    }
  }

  /** `a`, then `r`, then `b` is sorted and duplicate-free when `a` lies
      strictly below `r` and `b` strictly above it. */
  lemma AroundPivot(a: seq<string>, r: string, b: seq<string>)
    requires Sorted(a) && Distinct(a) && Sorted(b) && Distinct(b)
    requires forall x :: x in a ==> Below(x, r) && x != r
    requires forall y :: y in b ==> Below(r, y) && y != r
    ensures Sorted(a + [r] + b) && Distinct(a + [r] + b)
  {
    BelowIsTotalOrder();
    var xs := a + [r] + b;
    forall i, j | 0 <= i < j < |xs|
      ensures Below(xs[i], xs[j]) && xs[i] != xs[j]
    {
      if i < |a| {
        assert xs[i] in a;
        if j > |a| {
          assert xs[j] == b[j - |a| - 1];
          assert xs[j] in b;
        }
      } else if i == |a| {
        assert xs[j] == b[j - |a| - 1];
        assert xs[j] in b;
      } else {
        assert xs[i] == b[i - |a| - 1] && xs[j] == b[j - |a| - 1];
      }
    }
  }

  /** The group signatures that sort strictly before `r`. */
  function SignaturesBelow(byRole: map<string, seq<string>>, r: string): set<string> {
    set k | k in byRole && Below(k, r) && k != r
  }

  /** The group signatures that sort strictly after `r`. */
  function SignaturesAbove(byRole: map<string, seq<string>>, r: string): set<string> {
    set k | k in byRole && Below(r, k) && k != r
  }

  /** The groups print in increasing order of their signature: every group
      whose signature sorts before `r`, then `r`'s group, then every group
      whose signature sorts after it. */
  lemma GroupsInOrder(byRole: map<string, seq<string>>, r: string)
    requires r in byRole
    ensures RoleOrderedRows(byRole)
         == Concat(byRole, SortedElements(SignaturesBelow(byRole, r))) + byRole[r]
            + Concat(byRole, SortedElements(SignaturesAbove(byRole, r)))
  {
    var a, b := SortedElements(SignaturesBelow(byRole, r)), SortedElements(SignaturesAbove(byRole, r));
    AroundPivot(a, r, b);
    var xs := a + [r] + b;
    forall k
      ensures k in xs <==> k in byRole.Keys
    {
      BelowTotal(k, r);
    }
    SortedListing(xs, byRole.Keys);
    ConcatAppend(byRole, a + [r], b);
    ConcatAppend(byRole, a, [r]);
    assert [r][..0] == [];
    assert Concat(byRole, [r]) == byRole[r];
  }

  /** The synthetic group `~` sorts after every signature that starts with
      a character below '~', which covers letters, digits and "<none>". */
  lemma SyntheticGroupLast(sig: string)
    requires |sig| > 0 && sig[0] < '~'
    ensures Below(sig, SyntheticGroup) && sig != SyntheticGroup
  {
  }

  /** The role signature of the node called `x` (the last such node). */
  function SignatureOf(nodes: seq<Node>, x: string): string {
    if |nodes| == 0 then ""
    else if nodes[|nodes| - 1].name == x then RoleSignature(nodes[|nodes| - 1].labels)
    else SignatureOf(nodes[..|nodes| - 1], x)
  }

  /** With distinct names, the nodes filed under a signature are exactly the
      nodes with that signature, each once. */
  lemma {:induction false} SignatureMembers(nodes: seq<Node>, sig: string, x: string)
    requires Distinct(NamesOf(nodes))
    ensures x in NamesWithSignature(nodes, sig) <==> x in NamesOf(nodes) && SignatureOf(nodes, x) == sig
    ensures Distinct(NamesWithSignature(nodes, sig))
    decreases |nodes|
  {
    if |nodes| > 0 {
      var init, n := nodes[..|nodes| - 1], nodes[|nodes| - 1];
      var names := NamesOf(nodes);
      assert NamesOf(init) == names[..|names| - 1];
      assert names == NamesOf(init) + [n.name];
      DistinctInit(names);
      SignatureMembers(init, sig, x);
      SignatureMembers(init, sig, n.name);
      var here := if RoleSignature(n.labels) == sig then [n.name] else [];
      DistinctJoin(NamesWithSignature(init, sig), here);
    }
  }

  /** The synthetic rows filed under `sig` when they are shown. */
  function SyntheticMembers(sig: string, showUnassigned: bool, showTotal: bool): seq<string> {
    (if sig == SyntheticGroup && showUnassigned then [Unassigned] else [])
    + (if sig == SyntheticGroup && showTotal then [Total] else [])
  }

  lemma FiledMembers(nodes: seq<Node>, showUnassigned: bool, showTotal: bool, sig: string, x: string)
    requires Distinct(NamesOf(nodes))
    requires Unassigned !in NamesOf(nodes) && Total !in NamesOf(nodes)
    ensures var g := NamesWithSignature(nodes, sig) + SyntheticMembers(sig, showUnassigned, showTotal);
      && (x in g <==> (x in NamesOf(nodes) && SignatureOf(nodes, x) == sig)
                      || (sig == SyntheticGroup && ((showUnassigned && x == Unassigned) || (showTotal && x == Total))))
      && Distinct(g)
  {
    SignatureMembers(nodes, sig, x);
    SyntheticMembership(sig, showUnassigned, showTotal, x);
    FiledDistinct(nodes, showUnassigned, showTotal, sig);
  }

  lemma SyntheticMembership(sig: string, showUnassigned: bool, showTotal: bool, x: string)
    ensures x in SyntheticMembers(sig, showUnassigned, showTotal)
        <==> sig == SyntheticGroup && ((showUnassigned && x == Unassigned) || (showTotal && x == Total))
    ensures Distinct(SyntheticMembers(sig, showUnassigned, showTotal))
  {
  }

  lemma FiledDistinct(nodes: seq<Node>, showUnassigned: bool, showTotal: bool, sig: string)
    requires Distinct(NamesOf(nodes))
    requires Unassigned !in NamesOf(nodes) && Total !in NamesOf(nodes)
    ensures Distinct(NamesWithSignature(nodes, sig) + SyntheticMembers(sig, showUnassigned, showTotal))
  {
    var fromNodes, extras := NamesWithSignature(nodes, sig), SyntheticMembers(sig, showUnassigned, showTotal);
    SignatureMembers(nodes, sig, Unassigned);
    SignatureMembers(nodes, sig, Total);
    forall y | y in fromNodes ensures y !in extras {
      SyntheticMembership(sig, showUnassigned, showTotal, y);
    }
    SyntheticMembership(sig, showUnassigned, showTotal, Total);
    DistinctJoin(fromNodes, extras);
  }

  /** What the role index of the per-node command files under `sig`: the
      nodes with that signature, and under `~` the synthetic rows shown. */
  lemma GroupMembers(nodes: seq<Node>, showUnassigned: bool, showTotal: bool, sig: string, x: string)
    requires Distinct(NamesOf(nodes))
    requires Unassigned !in NamesOf(nodes) && Total !in NamesOf(nodes)
    ensures var g := Group(RoleGroups(WalkNodes(nodes).byRole, showUnassigned, showTotal), sig);
      x in g <==> (x in NamesOf(nodes) && SignatureOf(nodes, x) == sig)
                  || (sig == SyntheticGroup && ((showUnassigned && x == Unassigned) || (showTotal && x == Total)))
    ensures Distinct(Group(RoleGroups(WalkNodes(nodes).byRole, showUnassigned, showTotal), sig))
  {
    FiledGroup(nodes, showUnassigned, showTotal, sig);
    FiledMembers(nodes, showUnassigned, showTotal, sig, x);
  }

  lemma FiledGroup(nodes: seq<Node>, showUnassigned: bool, showTotal: bool, sig: string)
    ensures Group(RoleGroups(WalkNodes(nodes).byRole, showUnassigned, showTotal), sig)
         == NamesWithSignature(nodes, sig) + SyntheticMembers(sig, showUnassigned, showTotal)
  {
    WalkNodesGroups(nodes, sig);
    SyntheticRowsAppended(WalkNodes(nodes).byRole, showUnassigned, showTotal, sig);
  }

  /** Adding the synthetic rows leaves every group but `~` as it was. */
  lemma SyntheticRowsAppended(byRole: map<string, seq<string>>, showUnassigned: bool, showTotal: bool, sig: string)
    ensures Group(RoleGroups(byRole, showUnassigned, showTotal), sig)
         == Group(byRole, sig) + SyntheticMembers(sig, showUnassigned, showTotal)
  {
    var m := RoleGroups(byRole, showUnassigned, showTotal);
    var before := Group(byRole, sig);
    if sig == SyntheticGroup {
      var u := if showUnassigned then [Unassigned] else [];
      var t := if showTotal then [Total] else [];
      assert Group(m, sig) == before + u + t;
      assert SyntheticMembers(sig, showUnassigned, showTotal) == u + t;
      assert before + u + t == before + (u + t);
    } else {
      assert Group(m, sig) == before;
      assert SyntheticMembers(sig, showUnassigned, showTotal) == [];
      assert before + [] == before;
    }
  }

  /** A row lies in at most one group. */
  lemma GroupsDisjoint(nodes: seq<Node>, showUnassigned: bool, showTotal: bool, s1: string, s2: string, x: string)
    requires Distinct(NamesOf(nodes))
    requires Unassigned !in NamesOf(nodes) && Total !in NamesOf(nodes)
    requires x in Group(RoleGroups(WalkNodes(nodes).byRole, showUnassigned, showTotal), s1)
    requires x in Group(RoleGroups(WalkNodes(nodes).byRole, showUnassigned, showTotal), s2)
    ensures s1 == s2
  {
    GroupMembers(nodes, showUnassigned, showTotal, s1, x);
    GroupMembers(nodes, showUnassigned, showTotal, s2, x);
  }

  /** In sort-by-role mode the table prints each row of the name order
      exactly once: every node, and the synthetic rows that are shown. */
  lemma NodeRowsByRole(nodes: seq<Node>, pods: seq<Pod>, showUnassigned: bool, showTotal: bool)
    requires ValidSnapshot(nodes, pods)
    ensures var r := AggregateNodes(nodes, pods, showUnassigned, showTotal);
      Distinct(DisplayedNodeRows(r, true)) && multiset(DisplayedNodeRows(r, true)) == multiset(r.names)
  {
    var r := AggregateNodes(nodes, pods, showUnassigned, showTotal);
    AggregateNodesRoleGroups(nodes, pods, showUnassigned, showTotal);
    NodeRowOrder(nodes, pods, showUnassigned, showTotal);
    RoleIndexRows(nodes, showUnassigned, showTotal);
  }

  /** The name order of the per-node command: sorted node names, then the
      synthetic rows shown. */
  function NameOrder(nodes: seq<Node>, showUnassigned: bool, showTotal: bool): (names: seq<string>)
    ensures forall x :: x in names <==> x in NamesOf(nodes) || (showUnassigned && x == Unassigned) || (showTotal && x == Total)
  {
    SortedElements(SetOf(NamesOf(nodes))) + (if showUnassigned then [Unassigned] else []) + (if showTotal then [Total] else [])
  }

  /** Without grouping, the table prints the rows in the command's name
      order: sorted node names, then the synthetic rows shown. */
  lemma NameOrderDisplayed(nodes: seq<Node>, pods: seq<Pod>, showUnassigned: bool, showTotal: bool)
    requires ValidSnapshot(nodes, pods)
    ensures DisplayedNodeRows(AggregateNodes(nodes, pods, showUnassigned, showTotal), false)
         == NameOrder(nodes, showUnassigned, showTotal)
  {
    NodeRowOrder(nodes, pods, showUnassigned, showTotal);
  }

  lemma RoleIndexRows(nodes: seq<Node>, showUnassigned: bool, showTotal: bool)
    requires Distinct(NamesOf(nodes))
    requires Unassigned !in NamesOf(nodes) && Total !in NamesOf(nodes)
    ensures var m := RoleGroups(WalkNodes(nodes).byRole, showUnassigned, showTotal);
      Distinct(RoleOrderedRows(m)) && multiset(RoleOrderedRows(m)) == multiset(NameOrder(nodes, showUnassigned, showTotal))
  {
    var m := RoleGroups(WalkNodes(nodes).byRole, showUnassigned, showTotal);
    var names := NameOrder(nodes, showUnassigned, showTotal);
    var roles := SortedElements(m.Keys);
    forall sig | sig in m
      ensures Distinct(m[sig])
    {
      GroupMembers(nodes, showUnassigned, showTotal, sig, "");
    }
    forall s1, s2, x | s1 in m && s2 in m && x in m[s1] && x in m[s2]
      ensures s1 == s2
    {
      GroupsDisjoint(nodes, showUnassigned, showTotal, s1, s2, x);
    }
    ConcatDistinct(m, roles);
    forall x
      ensures x in RoleOrderedRows(m) <==> x in names
    {
      RowPrintedOnce(nodes, showUnassigned, showTotal, x);
    }
    NodeNamesDistinct(nodes, showUnassigned, showTotal);
    DistinctSameElements(RoleOrderedRows(m), names);
  }

  /** The rows listed in name order are duplicate-free. */
  lemma NodeNamesDistinct(nodes: seq<Node>, showUnassigned: bool, showTotal: bool)
    requires Unassigned !in NamesOf(nodes) && Total !in NamesOf(nodes)
    ensures Distinct(NameOrder(nodes, showUnassigned, showTotal))
  {
    var sorted := SortedElements(SetOf(NamesOf(nodes)));
    var u := if showUnassigned then [Unassigned] else [];
    var t := if showTotal then [Total] else [];
    DistinctJoin(sorted, u);
    DistinctJoin(sorted + u, t);
  }

  /** A row is printed by the grouped display exactly when some group holds
      it. */
  lemma RoleOrderedMembership(byRole: map<string, seq<string>>, x: string)
    ensures x in RoleOrderedRows(byRole) <==> exists sig :: sig in byRole && x in byRole[sig]
  {
    var roles := SortedElements(byRole.Keys);
    ConcatMembership(byRole, roles, x);
    if exists sig :: sig in byRole && x in byRole[sig] {
      var sig :| sig in byRole && x in byRole[sig];
      var i :| 0 <= i < |roles| && roles[i] == sig;
    }
  }

  /** A row is printed in sort-by-role mode exactly when it is in the name
      order. */
  lemma RowPrintedOnce(nodes: seq<Node>, showUnassigned: bool, showTotal: bool, x: string)
    requires Distinct(NamesOf(nodes))
    requires Unassigned !in NamesOf(nodes) && Total !in NamesOf(nodes)
    ensures x in RoleOrderedRows(RoleGroups(WalkNodes(nodes).byRole, showUnassigned, showTotal))
        <==> x in NameOrder(nodes, showUnassigned, showTotal)
  {
    var m := RoleGroups(WalkNodes(nodes).byRole, showUnassigned, showTotal);
    RoleOrderedMembership(m, x);
    if exists sig :: sig in m && x in m[sig] {
      var sig :| sig in m && x in m[sig];
      GroupMembers(nodes, showUnassigned, showTotal, sig, x);
    }
    if x in NameOrder(nodes, showUnassigned, showTotal) {
      NamedRowFiled(nodes, showUnassigned, showTotal, x);
    }
  }

  /** Every row of the name order is filed under some signature. */
  lemma NamedRowFiled(nodes: seq<Node>, showUnassigned: bool, showTotal: bool, x: string)
    requires Distinct(NamesOf(nodes))
    requires Unassigned !in NamesOf(nodes) && Total !in NamesOf(nodes)
    requires x in NamesOf(nodes) || (showUnassigned && x == Unassigned) || (showTotal && x == Total)
    ensures var m := RoleGroups(WalkNodes(nodes).byRole, showUnassigned, showTotal);
      exists sig :: sig in m && x in m[sig]
  {
    var m := RoleGroups(WalkNodes(nodes).byRole, showUnassigned, showTotal);
    var sig := if x in NamesOf(nodes) then SignatureOf(nodes, x) else SyntheticGroup;
    GroupMembers(nodes, showUnassigned, showTotal, sig, x);
    assert x in Group(m, sig);
    assert sig in m;
  }
}
