/**
 * The part of the LogicFlow diagram object (`@logicflow/core`) that the editor
 * code calls: `addNode`, `getGraphData` and `setProperties`. The canvas holds
 * the node and edge lists; the ids LogicFlow generates for new nodes are
 * parameters, and edges are added by the user drawing on the canvas.
 */
module Diagram {
  import opened Types

  /** The node with its `input` property set to `value`, all other properties kept. */
  function WithInput(n: FlowNode, value: string): FlowNode
  {
    n.(properties := Some(PropertiesOrEmpty(n.properties).(input := Some(value))))
  }

  /** `setProperties(id, { input: value })` applied to a node list. */
  function SetInputIn(nodes: seq<FlowNode>, id: string, value: string): (r: seq<FlowNode>)
    ensures |r| == |nodes|
  {
    if nodes == [] then []
    else [if nodes[0].id == id then WithInput(nodes[0], value) else nodes[0]] + SetInputIn(nodes[1..], id, value)
  }

  /**
   * The node with that id gets exactly `input == value` and keeps its other
   * properties, its id and its type; every other node is left as it was.
   */
  lemma {:induction false} SetInputInSpec(nodes: seq<FlowNode>, id: string, value: string)
    ensures |SetInputIn(nodes, id, value)| == |nodes|
    ensures forall i :: 0 <= i < |nodes| && nodes[i].id != id ==> SetInputIn(nodes, id, value)[i] == nodes[i]
    ensures forall i :: 0 <= i < |nodes| && nodes[i].id == id ==>
      var m := SetInputIn(nodes, id, value)[i];
      m.id == id && m.nodeType == nodes[i].nodeType && m.properties.Some? &&
      m.properties.value.input == Some(value) &&
      m.properties.value.(input := None) == PropertiesOrEmpty(nodes[i].properties).(input := None)
  {
    if nodes != [] {
      SetInputInSpec(nodes[1..], id, value);
      var r := SetInputIn(nodes, id, value);
      assert forall i :: 1 <= i < |nodes| ==> r[i] == SetInputIn(nodes[1..], id, value)[i - 1] && nodes[i] == nodes[1..][i - 1];
    }
  }

  class Canvas {
    var nodes: seq<FlowNode>
    var edges: seq<FlowEdge>

    constructor ()
      ensures nodes == [] && edges == []
    {
      nodes := [];
      edges := [];
    }

    /** `lf.addNode(...)`: the new node goes after the existing ones. */
    method AddNode(node: FlowNode)
      modifies this
      ensures nodes == old(nodes) + [node] && edges == old(edges)
    {
      nodes := nodes + [node];
    }

    /** An edge drawn by the user. */
    method AddEdge(edge: FlowEdge)
      modifies this
      ensures edges == old(edges) + [edge] && nodes == old(nodes)
    {
      edges := edges + [edge];
    }

    /** `lf.getGraphData()`: a snapshot of both lists. */
    method GetGraphData() returns (g: GraphData)
      ensures g.nodes == nodes && g.edges == edges
    {
      g := GraphData(nodes, edges);
    }

    /** `lf.setProperties(id, { input: value })` */
    method SetInput(id: string, value: string)
      modifies this
      ensures nodes == SetInputIn(old(nodes), id, value) && edges == old(edges)
    {
      nodes := SetInputIn(nodes, id, value);
    }
  }
}
