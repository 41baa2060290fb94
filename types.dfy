/**
 * Shared shapes of the flow editor: node properties, nodes, edges and the
 * graph snapshot the canvas hands out (logicflow-lowcode/src/types/index.ts),
 * plus the first-match search that every `Array.prototype.find` in the
 * editor performs.
 */
module Types {

  datatype Option<+T> = None | Some(value: T)

  datatype Result<+T, +E> = Ok(value: T) | Err(error: E)

  /** The optional properties a node may carry. `condition` holds the
      comparison symbols of the filter catalogue ('>', '<', ...). */
  datatype NodeProperties = NodeProperties(
    input: Option<string>,
    transformType: Option<string>,
    scale: Option<real>,
    condition: Option<string>,
    threshold: Option<real>,
    statType: Option<string>)

  /** The object literal `{}`. */
  const EmptyProperties := NodeProperties(None, None, None, None, None, None)

  /** `properties || {}` */
  function PropertiesOrEmpty(properties: Option<NodeProperties>): NodeProperties
  {
    match properties
    case None => EmptyProperties
    case Some(p) => p
  }

  /** A canvas node; `properties` is None when the node has none at all. */
  datatype FlowNode = FlowNode(id: string, nodeType: string, properties: Option<NodeProperties>)

  datatype FlowEdge = FlowEdge(sourceNodeId: string, targetNodeId: string)

  datatype GraphData = GraphData(nodes: seq<FlowNode>, edges: seq<FlowEdge>)

  /** A JavaScript number: finite, NaN or one of the infinities. */
  datatype JsNumber = Finite(x: real) | NaN | PosInfinity | NegInfinity

  /**
   * A JavaScript value, as far as the editor inspects one. `Array.isArray`
   * holds exactly for `Array`, whatever its elements are.
   */
  datatype Value = Number(n: JsNumber) | Text(s: string) | Array(elems: seq<Value>) | OtherValue

  /** Index of the first element satisfying `p`, as `find` scans an array. */
  function FindIndex<T>(s: seq<T>, p: T -> bool): (r: Option<nat>)
    ensures r.Some? ==> r.value < |s| && p(s[r.value])
    ensures r.Some? ==> forall j :: 0 <= j < r.value ==> !p(s[j])
    ensures r.None? <==> forall j :: 0 <= j < |s| ==> !p(s[j])
  {
    if s == [] then None
    else if p(s[0]) then Some(0)
    else match FindIndex(s[1..], p)
      case None => None
      case Some(k) => Some(k + 1)
  }

  /** `nodes.find(n => n.type === t)` */
  function FindNodeByType(nodes: seq<FlowNode>, t: string): (r: Option<FlowNode>)
    ensures r.None? <==> forall n :: n in nodes ==> n.nodeType != t
    ensures r.Some? ==> exists i :: 0 <= i < |nodes| && nodes[i] == r.value && IsFirstOfType(nodes, i, t)
  {
    match FindIndex(nodes, (n: FlowNode) => n.nodeType == t)
    case None => None
    case Some(i) => Some(nodes[i])
  }

  /** `nodes.find(n => n.id === id)` */
  function FindNodeById(nodes: seq<FlowNode>, id: string): (r: Option<FlowNode>)
    ensures r.None? <==> forall n :: n in nodes ==> n.id != id
    ensures r.Some? ==> exists i :: 0 <= i < |nodes| && nodes[i] == r.value && IsFirstWithId(nodes, i, id)
  {
    match FindIndex(nodes, (n: FlowNode) => n.id == id)
    case None => None
    case Some(i) => Some(nodes[i])
  }

  /** `edges.find(e => e.sourceNodeId === id)`, as an index into `edges`. */
  function FirstEdgeFrom(edges: seq<FlowEdge>, id: string): (r: Option<nat>)
    ensures r.None? <==> forall e :: e in edges ==> e.sourceNodeId != id
    ensures r.Some? ==> r.value < |edges| && edges[r.value].sourceNodeId == id
    ensures r.Some? ==> forall j :: 0 <= j < r.value ==> edges[j].sourceNodeId != id
  {
    FindIndex(edges, (e: FlowEdge) => e.sourceNodeId == id)
  }

  ghost predicate IsFirstOfType(nodes: seq<FlowNode>, i: int, t: string)
    requires 0 <= i < |nodes|
  {
    nodes[i].nodeType == t && forall j :: 0 <= j < i ==> nodes[j].nodeType != t
  }

  ghost predicate IsFirstWithId(nodes: seq<FlowNode>, i: int, id: string)
    requires 0 <= i < |nodes|
  {
    nodes[i].id == id && forall j :: 0 <= j < i ==> nodes[j].id != id
  }
}
