# kubeSize capacity aggregation, modelled in Dafny

kubeSize is a kubectl plugin that reports the capacity of a Kubernetes
cluster: what the nodes offer (capacity, allocatable) against what the pods
ask for (requests, limits). It reports this per cluster, per node role, per
node and per namespace. Every report is one pass over a snapshot of the node
list and the pod list. The pass folds the snapshot into string-keyed buckets,
then derives a few fields and chooses the row order. This project models
that core as pure functions over immutable records and proves what the
buckets hold.

Modules, one file each:

- `strings.dfy` (`Strings`): byte-wise string order (`Below`), Go's
  `sort.Strings` (`Sort`), `sets.String.List()` (`SortedElements`),
  `strings.Join` and `strings.Split`.
- `inventory.dfy` (`Inventory`): the snapshot. Nodes carry labels,
  conditions, the unschedulable flag, capacity and allocatable. Pods carry a
  namespace, a node name, a phase and containers. Quantities are exact
  integers in millicores, bytes and pod counts.
- `capacity.dfy` (`Capacity`): `StringInSlice` and the readable-unit divisors.
- `roles.dfy` (`Roles`): the node role classifier shared by the per-node
  and per-role commands.
- `rollup.dfy` (`Rollup`): what one pod or one node adds to a bucket, and
  reference sums (`TotalDemand`, `SupplyOf`, `PodsWhere`) that state what a
  bucket must hold after the walk.
- `cluster.dfy` (`ClusterCapacity`): the `cluster` command.
- `noderole.dfy` (`NodeRoleCapacity`): the `node-role` command.
- `node.dfy` (`NodeCapacity`): the `node` command, with its `*unassigned*`
  and `*total*` rows and its index of nodes by role signature.
- `namespace.dfy` (`NamespaceCapacity`): the `namespace` command.
- `output.dfy` (`Output`): the pure decisions of the table printer. These
  are format validation, which namespace rows are shown, the node row order
  when grouped by role, and the status, roles and pods cells of a node row.
- `consistency.dfy` (`CrossCommand`): how the commands' totals relate on
  one snapshot.

Throughout, "the demand of pods P" means `TotalDemand(P)`. That is: every
pod counted, the non-terminal ones (phase neither Succeeded nor Failed)
counted again as non-terminal, and the requests and limits of those
non-terminal pods' containers summed.

## Model

| member | source | states |
|---|---|---|
| Strings.Sort | cmd/capacity/node.go:148 | the result is sorted byte-wise and is a permutation of the input |
| Strings.SortIsUnique | cmd/capacity/node.go:148 | two sorted permutations of the same multiset are equal, so the printed order does not depend on the sort algorithm or on the input order |
| Strings.SortOfDistinct | cmd/capacity/namespace.go:136 | sorting a duplicate-free name list gives the sorted elements of its set |
| Strings.SortedElements | cmd/capacity/node.go:104 | `roles.List()`: strictly increasing, holds exactly the set's elements |
| Strings.SplitJoin | cmd/capacity/node.go:104 | a role list joined with "," can be split back into the same list when no role contains "," |
| Strings.JoinInjective | cmd/capacity/node.go:104 | two role lists without "," that join to the same signature are the same list |
| Capacity.StringInSlice | internal/capacity/capacity.go:20-27 | true exactly when some element equals the string; false on the empty list |
| Capacity.ReadableCPU | internal/capacity/capacity.go:29-32 | cores times 1000 is the millicore value |
| Capacity.ReadableMem | internal/capacity/capacity.go:34-37 | GiB times 2^30 is the byte value |
| Capacity.ReadableStorage | internal/capacity/capacity.go:39-42 | GB times 10^9 is the byte value |
| Roles.LabelRoleMeaning | cmd/capacity/node.go:73-80 | one label declares role r exactly when its key is `node-role.kubernetes.io/r` with r non-empty (whatever the value), or its key is `kubernetes.io/role` with the non-empty value r |
| Roles.DeclaredRolesMeaning | cmd/capacity/node.go:71-81 | the roles collected over all labels are exactly the roles some label declares |
| Roles.RoleSetIsDeclaredRoles | cmd/capacity/node.go:71-84 | the role set is exactly the declared roles when there is one, and exactly `{"<none>"}` when there is none |
| Roles.RoleList | cmd/capacity/node.go:104 | the role list is non-empty, strictly increasing and holds exactly the role set |
| Roles.SignatureIdentifiesRoles | cmd/capacity/node.go:104 | two nodes share a role signature exactly when they have the same role set (role names without ",") |
| Roles.MultipleRolesAllKept | cmd/capacity/noderole.go:66-80 | a node labelled with two roles has both; `<none>` is in its set only if a label names it |
| Rollup.AddContainers | cmd/capacity/node.go:119-126 | the container loop adds the containers' summed requests and limits and leaves the pod counts alone |
| Rollup.AddPod | cmd/capacity/node.go:115-127 | the per-pod step adds exactly the pod's demand: always one pod, and non-terminal count, requests and limits only for a non-terminal pod |
| Rollup.TotalDemandCounts | cmd/capacity/node.go:115-118 | the demand of pods P counts each pod once and exactly the non-terminal ones as non-terminal, so 0 <= non-terminal <= pods |
| Rollup.TotalDemandAppend | cmd/capacity/node.go:110-128 | the demand of two pod lists walked one after the other is the sum of their demands |
| Rollup.PodsWhere | cmd/capacity/node.go:110-115 | the pods routed to a set of buckets are exactly the pods whose key lies in it |
| Rollup.DemandSplits | cmd/capacity/node.go:110-128 | routing to two disjoint key sets splits the demand between them |
| Rollup.PartitionConservesDemand | cmd/capacity/node.go:110-128 | adding the buckets of distinct keys gives the demand of the pods routed to any of them: no pod is lost or counted twice |
| Rollup.ReadyConditions | cmd/capacity/cluster.go:75-79 | the count is the number of positions holding a Ready=True condition (no break, so duplicates count), hence at most the number of conditions and non-zero exactly when one exists |
| Rollup.ExtraReadyCondition | cmd/capacity/noderole.go:87-91 | every further Ready=True condition adds one to the count, however many came before |
| Rollup.SupplyOf | cmd/capacity/cluster.go:73-91 | node count = number of nodes, unschedulable = nodes with the flag, capacity and allocatable = exact sums, ready = the Ready=True conditions over all nodes (`SumReady`); ready <= nodes when no node repeats its Ready condition |
| Rollup.NonTerminalPods | cmd/capacity/cluster.go:61-66 | the phase-filtered list holds exactly the pods that are neither Succeeded nor Failed |
| ClusterCapacity.AddListedContainers | cmd/capacity/cluster.go:97-106 | over non-terminal pods the loop adds exactly their demanded requests and limits |
| ClusterCapacity.TerminalPodsDemandNothing | cmd/capacity/cluster.go:97-106 | summing over the non-terminal list gives the same requests and limits as the demand of all pods |
| ClusterCapacity.ClusterUsage | cmd/capacity/cluster.go:94-106 | pod count = all pods, non-terminal = non-terminal pods, and the whole is the demand of all pods |
| ClusterCapacity.AggregateCluster | cmd/capacity/cluster.go:73-115 | node counts and node sums as above, ready = the Ready=True conditions over all nodes, usage = demand of all pods, unready = nodes - ready, available = allocatable - non-terminal / requests, unclamped |
| ClusterCapacity.ReadinessBounded | cmd/capacity/cluster.go:73-92 | with one Ready condition per node, ready and unready both lie in 0..nodes |
| ClusterCapacity.DuplicateReadyMakesUnreadyNegative | cmd/capacity/cluster.go:75-92 | one node reporting Ready=True twice gives an unready count of -1 |
| NodeRoleCapacity.NodesWithRoleMembers | cmd/capacity/noderole.go:81-102 | a node is in the bucket of each of its roles and of no other |
| NodeRoleCapacity.RolesOfNodesMembers | cmd/capacity/noderole.go:66-85 | a role has a bucket exactly when some node carries it |
| NodeRoleCapacity.AddNodeToRole | cmd/capacity/noderole.go:81-102 | the bucket is created once, on first sight, and only its name is appended; the node's count, readiness, schedulability, capacity and allocatable go to that role only |
| NodeRoleCapacity.AddNodeToRoles | cmd/capacity/noderole.go:81-103 | every role of the node gets the node's full amounts; other buckets are unchanged; role names stay distinct |
| NodeRoleCapacity.AddNodeToItsRoles | cmd/capacity/noderole.go:81-103 | walking a node's own role list adds its full supply to exactly the roles in its role set |
| NodeRoleCapacity.WalkNodes | cmd/capacity/noderole.go:66-105 | role names are distinct and name exactly the buckets, which are the roles some node carries |
| NodeRoleCapacity.WalkNodesBuckets | cmd/capacity/noderole.go:81-102 | after the node walk a role's bucket is the supply of exactly the nodes carrying it, not split between roles |
| NodeRoleCapacity.NodeRoleLists | cmd/capacity/noderole.go:104 | every node name is indexed, with a duplicate-free list of roles that have buckets |
| NodeRoleCapacity.NodeRoleListOf | cmd/capacity/noderole.go:104 | with distinct names each node is indexed under its own role list |
| NodeRoleCapacity.AddPodToRoles | cmd/capacity/noderole.go:115-128 | one pod adds its demand to each listed role and nowhere else |
| NodeRoleCapacity.WalkPods | cmd/capacity/noderole.go:110-129 | each bucket gains the demand of exactly the pods whose target's role list names it |
| NodeRoleCapacity.FinalizeRoles | cmd/capacity/noderole.go:131-140 | the derived fields are computed for the listed roles and nothing else changes |
| NodeRoleCapacity.FilledBuckets | cmd/capacity/noderole.go:107-108 | the buckets are the node roles plus `*unassigned*` |
| NodeRoleCapacity.FilledBucketContents | cmd/capacity/noderole.go:66-129 | after both walks a role holds its nodes' supply and its routed pods; `*unassigned*` holds no node |
| NodeRoleCapacity.AggregateRoles | cmd/capacity/noderole.go:131-153 | rows are the roles in increasing order, each once, then `*unassigned*` when asked; real roles are finalised, `*unassigned*` is not |
| NodeRoleCapacity.RoleRecord | cmd/capacity/noderole.go:81-140 | a role's record: its nodes' full supply, its routed pods' demand, and consistent derived fields |
| NodeRoleCapacity.UnboundPodRouting | cmd/capacity/noderole.go:107-115 | an unbound pod reaches the `*unassigned*` bucket and no role |
| NodeRoleCapacity.UnknownNodePodRouting | cmd/capacity/noderole.go:115 | a pod naming an unlisted node reaches no bucket |
| NodeRoleCapacity.ListedNodePodRouting | cmd/capacity/noderole.go:115-128 | a pod on a listed node reaches exactly that node's roles |
| NodeRoleCapacity.UnassignedRecord | cmd/capacity/noderole.go:107-129 | `*unassigned*` holds exactly the demand of the unbound pods, and zero supply and derived fields |
| NodeCapacity.NodeReady | cmd/capacity/node.go:86-92 | a node is Ready exactly when some condition is Ready=True |
| NodeCapacity.WalkNodes | cmd/capacity/node.go:67-106 | names in input order, a row per node name, no pod counted yet |
| NodeCapacity.WalkNodesRecord | cmd/capacity/node.go:86-103 | with distinct names a node's row holds its own readiness, schedulability, roles, capacity and allocatable |
| NodeCapacity.WalkNodesGroups | cmd/capacity/node.go:104-105 | the group of a signature lists exactly the nodes with that signature, each once, in input order; a group exists exactly when it is non-empty |
| NodeCapacity.AddPodsToNodesRow | cmd/capacity/node.go:110-128 | a row gains the demand of exactly the pods routed to it, and no other field changes |
| NodeCapacity.FinalizeNodes | cmd/capacity/node.go:130-138 | derived fields are computed for the listed rows only |
| NodeCapacity.SumIntoPermutation | cmd/capacity/node.go:155-206 | the `*total*` sum does not depend on the row order |
| NodeCapacity.SumIntoAvailable | cmd/capacity/node.go:187-205 | a sum of rows with available = allocatable - requested keeps that relation |
| NodeCapacity.SeededRows | cmd/capacity/node.go:107-108 | rows for every node plus `*unassigned*` and `*total*`, all with no usage |
| NodeCapacity.NoTotalPods | cmd/capacity/node.go:108-115 | no pod is routed to the `*total*` row |
| NodeCapacity.NodeRowsUnfold | cmd/capacity/node.go:107-138 | each row is its seeded record with the routed demand as usage, and derived fields for node rows only |
| NodeCapacity.NodeRowOrder | cmd/capacity/node.go:148-152 | rows print as node names in increasing order, then `*unassigned*`, then `*total*` (node.go:212-215), each when asked |
| NodeCapacity.RoleGroups | cmd/capacity/node.go:151 | the synthetic rows shown are appended to group `~` (the `*total*` one at node.go:214); other groups are unchanged |
| NodeCapacity.AggregateNodesRoleGroups | cmd/capacity/node.go:104-152 | the report's role index is the walked index with the synthetic rows shown added under `~` (node.go:212-215) |
| NodeCapacity.AggregateNodes | cmd/capacity/node.go:155-215 | rows exist for every node plus `*unassigned*` and `*total*`; every row but `*total*` is the walked and finalised row |
| NodeCapacity.NodeRow | cmd/capacity/node.go:86-138 | a node's row: readiness, schedulability, roles, capacity, allocatable, the demand of its pods, available = allocatable - non-terminal / requests |
| NodeCapacity.UnassignedRow | cmd/capacity/node.go:107-128 | `*unassigned*` holds the demand of the unbound pods, and its derived fields stay zero |
| NodeCapacity.RowsHoldRoutedDemand | cmd/capacity/node.go:110-115 | every row holds the demand of the pods routed to it; nothing is routed to `*total*` |
| NodeCapacity.NodePartSupply | cmd/capacity/node.go:173-186 | the node rows sum to the nodes' total capacity and allocatable |
| NodeCapacity.NodePartUsage | cmd/capacity/node.go:171-172 | the node rows sum to the demand of the pods bound to a node |
| NodeCapacity.NodePartAvailable | cmd/capacity/node.go:187-205 | the node rows' sum keeps available = allocatable - requested |
| NodeCapacity.TotalRowParts | cmd/capacity/node.go:155-206 | `*total*` is the sum of the node rows, plus the `*unassigned*` row when it is shown |
| NodeCapacity.TotalRowSupply | cmd/capacity/node.go:173-186 | `*total*` capacity and allocatable are the sums over all nodes |
| NodeCapacity.TotalRowUsage | cmd/capacity/node.go:171-172 | `*total*` usage is the demand of the pods in the rows above it; all pods when `*unassigned*` is shown |
| NodeCapacity.TotalRowAvailable | cmd/capacity/node.go:187-205 | `*total*` available = total allocatable - the demand of the bound pods only |
| NodeCapacity.EveryPodRouted | cmd/capacity/node.go:110-115 | every pod goes to a node row or to `*unassigned*` |
| NodeCapacity.RoleIndexContents | cmd/capacity/node.go:104-105 | the role index of the report: per signature its nodes in input order, with the synthetic rows shown under `~` |
| NamespaceCapacity.ListNamespaces | cmd/capacity/namespace.go:82-85 | every listed namespace gets a zero bucket, names in list order |
| NamespaceCapacity.FileNamespace | cmd/capacity/namespace.go:87-91 | a bucket is created only for a new name, with zeros; existing buckets are unchanged and names stay distinct |
| NamespaceCapacity.WalkPod | cmd/capacity/namespace.go:87-106 | one pod files its namespace, keeping names distinct, and adds no other bucket |
| NamespaceCapacity.CountPod | cmd/capacity/namespace.go:92-106 | one pod adds its demand, and counts as unassigned exactly when unbound, whatever its phase |
| NamespaceCapacity.WalkPods | cmd/capacity/namespace.go:87-107 | names stay distinct; buckets are the listed namespaces plus every pod's namespace |
| NamespaceCapacity.WalkPodsRow | cmd/capacity/namespace.go:87-107 | a bucket gains the demand and unbound count of exactly the pods in its namespace |
| NamespaceCapacity.NamespaceRows | cmd/capacity/namespace.go:82-107 | with distinct listed namespaces the walk keeps names distinct and has a bucket for every listed or used namespace |
| NamespaceCapacity.NamespaceRow | cmd/capacity/namespace.go:92-106 | a namespace row holds its pods' demand and unbound count, so 0 <= unassigned <= pods and 0 <= non-terminal <= pods |
| NamespaceCapacity.ListedNamespaceKept | cmd/capacity/namespace.go:82-85 | a listed namespace without pods keeps an all-zero row |
| NamespaceCapacity.UnboundPartition | cmd/capacity/namespace.go:121 | the unbound counts of distinct namespaces add up to the unbound pods among them |
| NamespaceCapacity.SumOfRows | cmd/capacity/namespace.go:112-134 | the `*total*` loop over rows that hold their pods gives the per-namespace reference sums |
| NamespaceCapacity.NamespaceTotal | cmd/capacity/namespace.go:109-134 | `*total*` is the demand of every pod and counts every unbound pod, adding each bucket once and never itself |
| NamespaceCapacity.NamespaceRowOrder | cmd/capacity/namespace.go:136-152 | rows are the namespace names in increasing order, each once, then `*total*` when asked |
| NamespaceCapacity.AggregateNamespaces | cmd/capacity/namespace.go:109 | the report has a row for every listed or used namespace plus `*total*` |
| Output.MatchesAny | internal/output/output.go:564-568 | the scan finds the format exactly when it is in the valid list |
| Output.ValidateOutput | internal/output/output.go:558-570 | an unreadable flag gives the fixed error; the format is accepted exactly when it is table, json or yaml; otherwise the error names it and lists `[table json yaml]` |
| Output.ValidOutputsListed | internal/output/output.go:569 | the valid list prints as `[table json yaml]` under `%v` |
| Output.StatusCell | internal/output/output.go:449-460 | the status cell is empty exactly for `*unassigned*` and `*total*` |
| Output.StatusCellRoundTrip | internal/output/output.go:449-460 | readiness and schedulability can be read back from a real node's status cell |
| Output.RolesCellRoundTrip | internal/output/output.go:461 | the roles cell splits back into the sorted role list |
| Output.RolesCellIsSignature | internal/output/output.go:461 | a node's roles cell equals the signature it is grouped under |
| Output.SyntheticRolesCellEmpty | internal/output/output.go:461 | the synthetic rows print an empty roles cell |
| Output.NodePodsCellsAsWritten | internal/output/output.go:462 | as written, every listed node prints its pod capacity in both pods columns |
| Output.PodsCellsAgreeExactly | internal/output/output.go:462 | the printed pods cells equal the announced (capacity, allocatable) pair exactly when a row's allocatable pod count equals its capacity |
| Output.AllocatablePodsCellShowsCapacity | internal/output/output.go:462 | a node with 110 pod capacity and 100 allocatable prints 110 as allocatable |
| Output.NodePodsCells | internal/output/output.go:462 | corrected cells (capacity, then allocatable, as the header at output.go:417 announces) show each node's own capacity and allocatable pod counts |
| Output.ShownNamespaces | internal/output/output.go:533-534 | a row is shown exactly when it has a pod or all namespaces are asked for |
| Output.ShownKeepsOrder | internal/output/output.go:533-534 | the filter keeps a sorted duplicate-free list sorted and duplicate-free |
| Output.ShownSortedNamespaces | internal/output/output.go:533-534 | filtering the sorted known namespaces keeps the sorted used ones, or all when asked |
| Output.NamespaceTableRows | internal/output/output.go:533-534 | the table shows the namespaces holding pods (or all known ones) in increasing order, then `*total*` when asked and there are pods or all are shown |
| Output.GroupsInOrder | internal/output/output.go:430-436 | grouped rows are the groups below a signature, that group in fill order, then the groups above |
| Output.SyntheticGroupLast | internal/output/output.go:430 | the group `~` sorts after any signature that starts below '~' |
| Output.SignatureMembers | cmd/capacity/node.go:104-105 | with distinct names a node is filed under its own signature only, and each group is duplicate-free |
| Output.GroupMembers | cmd/capacity/node.go:104-105 | the role index with the synthetic rows: a group holds exactly its nodes, and under `~` the synthetic rows shown |
| Output.GroupsDisjoint | cmd/capacity/node.go:104-105 | a row lies in at most one group |
| Output.ConcatDistinct | internal/output/output.go:432-436 | printing distinct groups of duplicate-free, disjoint member lists prints no row twice |
| Output.RoleOrderedMembership | internal/output/output.go:430-436 | a row is printed by the grouped loop exactly when some group holds it |
| Output.NamedRowFiled | cmd/capacity/node.go:104-152 | every node name, and each synthetic row shown, is filed under some group |
| Output.NameOrder | cmd/capacity/node.go:148-215 | the name order holds exactly the node names and the synthetic rows shown |
| Output.NameOrderDisplayed | internal/output/output.go:437-442 | without grouping the rows print in the command's name order |
| Output.RowPrintedOnce | internal/output/output.go:424-436 | a row is printed by the grouped display exactly when it is in the name order |
| Output.RoleIndexRows | internal/output/output.go:424-436 | the grouped display prints each name-order row exactly once |
| Output.NodeRowsByRole | internal/output/output.go:424-436 | in sort-by-role mode the printed rows are a duplicate-free permutation of the report's row order |
| CrossCommand.NodeTotalMatchesCluster | cmd/capacity/node.go:171-186 | with `*unassigned*` shown, the node `*total*` has the cluster's capacity, allocatable and pod demand |
| CrossCommand.AvailablePodsGap | cmd/capacity/cluster.go:109 | the node `*total*` available pods exceed the cluster's by the non-terminal unbound pods |
| CrossCommand.BoundAndUnboundDemand | cmd/capacity/node.go:110-115 | the demand of the bound pods and of the unbound pods add up to the demand of all pods |
| CrossCommand.NamespaceTotalMatchesCluster | cmd/capacity/namespace.go:119-133 | the namespace `*total*` has the cluster's pod counts, requests and limits |
| CrossCommand.ReadyFlagMatchesReadyCount | cmd/capacity/node.go:86-92 | the per-node Ready flag (loop with a break) is set exactly when the no-break counter of cluster.go:75-79 and noderole.go:87-91 is non-zero |

## Left out

- Listing nodes, pods and namespaces from the API, the client set and the
  field selectors. The snapshot is a parameter. The cluster command's
  second, phase-selected pod list is the non-terminal part of the same pod
  list (`NonTerminalPods`). The namespace command's `--namespace` selector
  only narrows the inputs.
- Flag parsing and command wiring (cobra, `PreRun`, `os.Exit`). Flag values
  are parameters such as `showUnassigned`, `showTotal`, `showAll` and
  `sortByRole`.
- The tabwriter, JSON and YAML rendering and the column headers. Only the
  row selection, row order and the status, roles and pods cells are
  modelled.
- `resource.Quantity` parsing and printing. Quantities are exact integers in
  fixed units, so int64 overflow is not modelled.
- The float64 readable fields and their accumulation into `*total*`. The
  three divisors are modelled as exact real division; rounding is not.
- The legacy commands under `cmd/` outside `cmd/capacity/`, and the size
  command: they are not part of this model.
- Label map iteration order. Labels are a sequence, and the role set does
  not depend on their order. In the per-role command, the order in which a
  node's roles are visited only changes the order of role names before they
  are sorted: `NodeRoleCapacity.AggregateRoles` states the printed names are
  the sorted elements of the role set.
- NodeCapacity.AggregateNodes: requires `ValidSnapshot`. Node names must be
  distinct and must not be `*unassigned*` or `*total*`, and every pod must
  be unbound or name a listed node. The source dereferences a missing row
  for a pod on an unlisted node, and Kubernetes names cannot contain '*'.
- NamespaceCapacity.AggregateNamespaces: requires `ValidNamespaces`. Listed
  namespaces must be distinct, and no namespace may be called `*total*`.
- ClusterCapacity.ReadinessBounded: assumes each node reports at most one
  Ready=True condition. Without that, the loop without a break counts
  duplicates, and unready can go negative. The unrestricted count is what
  `Rollup.ReadyConditions` and `Rollup.SupplyOf` state, and
  `ClusterCapacity.DuplicateReadyMakesUnreadyNegative` exhibits the negative
  case.
- Output.RolesCellRoundTrip and Roles.SignatureIdentifiesRoles: assume role
  names contain no ",". Label keys and values cannot contain it.
- Output.SyntheticGroupLast: covers signatures whose first character sorts
  below '~'. A role name starting with '~' or a higher character would sort
  after the synthetic group.
- The namespace row filter applies only to the table output. JSON and YAML
  print every bucket.

## Findings

| source | as written | input that shows it | evidently intended | confidence | as-written member | corrected member |
|---|---|---|---|---|---|---|
| internal/output/output.go:462 | both pods cells print `TotalCapacityPods`, under the headers Capacity and Allocatable | a node with pod capacity 110 and allocatable 100 prints 110 twice | the second cell prints `TotalAllocatablePods` | high; not executed | Output.NodePodsCellsAsWritten, Output.PodsCellsAgreeExactly, Output.AllocatablePodsCellShowsCapacity | Output.NodePodsCells |
