/**
 * The older editor component (logicflow-lowcode/src/components/FlowEditor.tsx):
 * a fixed sin program generated from the three node kinds it registers, the
 * normalisation of the program's result before plotting, and the click handler
 * that stores the entered input list on an input node.
 */
module LegacyEditor {
  import opened Types
  import CodeGen
  import opened Diagram

  const InputDataType := "inputData"
  const SinFunctionType := "sinFunction"
  const CurveOutputType := "curveOutput"

  /** What `code` becomes when one of the three kinds is missing. */
  const MissingNodesComment: string := "// 请确保流程图包含数据输入、sin函数和曲线输出节点"

  /** The text after the input literal: the closing quote, the sin map and the log. */
  const SinTail: string :=
    "\"" + ".split(',').map(Number);\nconst output = input.map(x => Math.sin(x));\nconsole.log('sin曲线输出:', output);"

  /** The program for one input literal, embedded between double quotes without escaping. */
  function SinProgram(input: string): (r: string)
    ensures |r| == |CodeGen.Header| + |input| + |SinTail| && CodeGen.Header <= r
    ensures r[|CodeGen.Header|..|CodeGen.Header| + |input|] == input
  {
    CodeGen.Header + input + SinTail
  }

  /** `generateCode` on a snapshot: the edges are never looked at. */
  function LegacyCode(g: GraphData): (r: string)
    ensures r == MissingNodesComment || CodeGen.Header <= r
  {
    var inputNode := FindNodeByType(g.nodes, InputDataType);
    var sinNode := FindNodeByType(g.nodes, SinFunctionType);
    var outputNode := FindNodeByType(g.nodes, CurveOutputType);
    if inputNode.None? || sinNode.None? || outputNode.None? then MissingNodesComment
    else SinProgram(CodeGen.InputLiteral(inputNode.value.properties))
  }

  /** Some node has the type. */
  ghost predicate HasType(nodes: seq<FlowNode>, t: string)
  {
    exists n :: n in nodes && n.nodeType == t
  }

  /**
   * The fixed comment comes out exactly when a kind is missing; otherwise the
   * program carries the first input node's literal, whatever the edges are.
   */
  lemma LegacyCodeSpec(g: GraphData)
    ensures LegacyCode(g) == MissingNodesComment <==>
      !HasType(g.nodes, InputDataType) || !HasType(g.nodes, SinFunctionType) || !HasType(g.nodes, CurveOutputType)
    ensures LegacyCode(g) != MissingNodesComment ==>
      LegacyCode(g) == SinProgram(CodeGen.InputLiteral(FindNodeByType(g.nodes, InputDataType).value.properties))
    ensures forall edges :: LegacyCode(GraphData(g.nodes, edges)) == LegacyCode(g)
  {
    var inputNode := FindNodeByType(g.nodes, InputDataType);
    if inputNode.Some? {
      var p := SinProgram(CodeGen.InputLiteral(inputNode.value.properties));
      assert p[3] != MissingNodesComment[3];
    }
  }

  /** The literal can be read back from the program exactly when it holds no double quote. */
  lemma SinProgramRoundTrip(input: string)
    ensures '"' !in input ==> CodeGen.ExtractInput(SinProgram(input)) == Some(input)
    ensures '"' in input ==> CodeGen.ExtractInput(SinProgram(input)) != Some(input)
  {
    var p := SinProgram(input);
    assert p == CodeGen.Header + (input + SinTail);
    assert p[|CodeGen.Header|..] == input + SinTail;
    if '"' !in input {
      assert SinTail[0] == '"';
      assert (input + SinTail)[|input|] == '"';
      CodeGen.UntilQuoteOfQuoted(input, SinTail);
    }
  }

  /** What the evaluator gives for the program text: a returned value, or a thrown exception. */
  datatype RunResult = Returned(value: Value) | Raised

  /** A returned array is plotted as it is, whatever its elements; any other value and any exception give `[]`. */
  function NormaliseResult(r: RunResult): (output: seq<Value>)
    ensures r.Returned? && r.value.Array? ==> output == r.value.elems
    ensures !(r.Returned? && r.value.Array?) ==> output == []
  {
    match r
    case Returned(Array(elems)) => elems
    case Returned(_) => []
    case Raised => []
  }

  /** The chart's x-axis categories `1..n` for `n` points. */
  function XAxisLabels(n: nat): (labels: seq<int>)
    ensures |labels| == n
    ensures forall i :: 0 <= i < n ==> labels[i] == i + 1
  {
    if n == 0 then [] else XAxisLabels(n - 1) + [n]
  }

  /** The labels start at 1, end at `n` and strictly increase, so each point gets its own category. */
  lemma XAxisLabelsIncrease(n: nat)
    ensures forall i, j :: 0 <= i < j < n ==> XAxisLabels(n)[i] < XAxisLabels(n)[j]
    ensures n > 0 ==> XAxisLabels(n)[0] == 1 && XAxisLabels(n)[n - 1] == n
  {
  }

  class Editor {
    /** `lfRef.current` */
    var lf: Canvas?
    var code: string
    var output: seq<Value>

    constructor ()
      ensures lf == null && code == "" && output == []
    {
      lf := null;
      code := "";
      output := [];
    }

    /**
     * The mount effect: when the container element exists, a new empty
     * diagram is created, rendered and stored; otherwise nothing happens.
     */
    method Mount(hasContainer: bool)
      modifies this
      ensures code == old(code) && output == old(output)
      ensures hasContainer ==> fresh(lf) && lf.nodes == [] && lf.edges == []
      ensures !hasContainer ==> lf == old(lf)
    {
      if hasContainer {
        lf := new Canvas();
      }
    }

    /** `generateCode`: nothing without a diagram; otherwise `code` is set from the snapshot. */
    method GenerateCode()
      modifies this
      ensures lf == old(lf) && output == old(output)
      ensures lf == null ==> code == old(code)
      ensures lf != null ==> code == LegacyCode(GraphData(lf.nodes, lf.edges))
    {
      var canvas := lf;
      if canvas == null {
        return;
      }
      var data := canvas.GetGraphData();
      code := LegacyCode(data);
    }

    /**
     * `runAndDraw`: nothing without code and no chart; otherwise the normalised
     * result becomes `output` and a chart is drawn whose categories are
     * `1..|output|`.
     */
    method RunAndDraw(run: string -> RunResult) returns (chart: Option<seq<int>>)
      modifies this
      ensures lf == old(lf) && code == old(code)
      ensures old(code) == "" ==> output == old(output) && chart == None
      ensures old(code) != "" ==> output == NormaliseResult(run(old(code))) && chart == Some(XAxisLabels(|output|))
    {
      if code == "" {
        return None;
      }
      output := NormaliseResult(run(code));
      chart := Some(XAxisLabels(|output|));
    }

    /**
     * The node-click handler: on an `inputData` node a non-cancelled entry
     * becomes that node's `input` property; other nodes and a cancelled entry
     * change nothing.
     */
    method ClickNode(node: FlowNode, entered: Option<string>)
      requires lf != null
      modifies lf
      ensures lf.edges == old(lf.edges)
      ensures node.nodeType == InputDataType && entered.Some? ==> lf.nodes == SetInputIn(old(lf.nodes), node.id, entered.value)
      ensures node.nodeType != InputDataType || entered.None? ==> lf.nodes == old(lf.nodes)
    {
      if node.nodeType == InputDataType && entered.Some? {
        lf.SetInput(node.id, entered.value);
      }
    }
  }
}
