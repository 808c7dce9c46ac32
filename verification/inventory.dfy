/** The snapshot the capacity commands read: nodes and pods as the cluster
    API reports them, reduced to the fields the aggregation looks at.

    Every resource quantity is an exact integer in a fixed unit: CPU in
    millicores, memory and ephemeral storage in bytes, pods as a plain count.
    A quantity the API omits reads as zero, which is what the source's
    `Pods()`, `Cpu()`, `Memory()` and `StorageEphemeral()` accessors return
    for a missing entry. */
module Inventory {

  /** One amount per resource dimension: millicores, bytes, bytes. */
  datatype Dims = Dims(cpu: int, memory: int, storage: int)
  {
    function Plus(o: Dims): Dims {
      Dims(cpu + o.cpu, memory + o.memory, storage + o.storage)
    }

    function Minus(o: Dims): Dims {
      Dims(cpu - o.cpu, memory - o.memory, storage - o.storage)
    }
  }

  const NoDims := Dims(0, 0, 0)

  lemma NoDimsIsNeutral(d: Dims)
    ensures NoDims.Plus(d) == d && d.Plus(NoDims) == d
  {
  }

  datatype ConditionStatus = ConditionTrue | ConditionFalse | ConditionUnknown

  datatype NodeCondition = NodeCondition(kind: string, status: ConditionStatus)

  /** One key/value pair of a node's label map. */
  datatype Label = Label(key: string, value: string)

  /** A node: name, labels (the label map's entries, in the order a range over
      the map visits them), status conditions, the `Unschedulable` flag, and
      the capacity and allocatable amounts from its status. */
  datatype Node = Node(
    name: string,
    labels: seq<Label>,
    conditions: seq<NodeCondition>,
    unschedulable: bool,
    capacityPods: int,
    capacity: Dims,
    allocatablePods: int,
    allocatable: Dims)

  datatype PodPhase = Pending | Running | Succeeded | Failed | Unknown

  /** Per-container resource requests and limits. */
  datatype Container = Container(requests: Dims, limits: Dims)

  /** A pod: its namespace, the node it is bound to ("" when it has not been
      scheduled), its phase and its containers. */
  datatype Pod = Pod(namespace: string, nodeName: string, phase: PodPhase, containers: seq<Container>)

  /** Only pods that have neither succeeded nor failed hold resources. */
  predicate NonTerminal(p: Pod) {
    p.phase != Succeeded && p.phase != Failed
  }

  predicate IsReadyCondition(c: NodeCondition) {
    c.kind == "Ready" && c.status == ConditionTrue
  }

  function NamesOf(nodes: seq<Node>): (names: seq<string>)
    ensures |names| == |nodes|
    ensures forall i :: 0 <= i < |nodes| ==> names[i] == nodes[i].name
  {
    if |nodes| == 0 then [] else NamesOf(nodes[..|nodes| - 1]) + [nodes[|nodes| - 1].name]
  }
}
