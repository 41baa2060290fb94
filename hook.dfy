/**
 * The flow-editor hook (logicflow-lowcode/src/hooks/useFlowEditor.ts): the
 * diagram reference, the generated `code` and the plotted `output`, with the
 * operations that add a catalogue node, generate program text from the
 * processing chain and run that text in a sandbox.
 */
module FlowEditorHook {
  import opened Types
  import Nodes
  import Logging
  import ProcessChain
  import opened CodeGen
  import opened Diagram

  // ----- generateCode as a function of the graph snapshot -----

  /** How `generateCode` ends on an initialised diagram. */
  datatype GenerateOutcome =
    | NotInitialised
    | NoEdges
    | NoInputNode
    | Threw(kind: string)
    | Generated(code: string)

  /**
   * `generateCode` on a snapshot: the edge check first, then the input-node
   * check, then the program for the chain walked from the input node. The
   * chain is the walk cut off after `|nodes|` entries (see Findings).
   */
  function Generate(g: GraphData, json: NodeProperties -> string): (r: GenerateOutcome)
    ensures r != NotInitialised
    ensures r.Generated? || r.Threw? ==> |g.edges| > 0 && ProcessChain.FirstInput(g.nodes).Some?
  {
    if |g.edges| == 0 then NoEdges
    else match ProcessChain.FirstInput(g.nodes)
      case None => NoInputNode
      case Some(inputNode) =>
        match CodeFor(InputLiteral(inputNode.properties), ProcessChain.BoundedChain(g.nodes, g.edges), json)
        case Err(kind) => Threw(kind)
        case Ok(c) => Generated(c)
  }

  /** The log entries `generateCode` writes for each outcome; the thrown lookup writes none. */
  function GenerateLog(o: GenerateOutcome, now: string): (r: seq<Logging.LogEntry>)
    ensures |r| <= 1 && (r == [] <==> o.Threw?)
    ensures forall e :: e in r ==> e.timestamp == now && (e.level == Logging.LogLevel.Info <==> o.Generated?)
  {
    match o
    case NotInitialised => [Logging.LogEntry(now, Logging.LogLevel.Error, "LogicFlow 实例未初始化", Logging.NoData)]
    case NoEdges => [Logging.LogEntry(now, Logging.LogLevel.Warn, "节点连接验证失败", Logging.NoData)]
    case NoInputNode => [Logging.LogEntry(now, Logging.LogLevel.Warn, "未找到输入节点", Logging.NoData)]
    case Threw(_) => []
    case Generated(c) => [Logging.LogEntry(now, Logging.LogLevel.Info, "代码生成成功", Logging.Fields(map["code" := c]))]
  }

  /** The edge check comes first; the input-node check applies only to a graph with edges. */
  lemma GenerateGuards(g: GraphData, json: NodeProperties -> string)
    ensures Generate(g, json) == NoEdges <==> |g.edges| == 0
    ensures Generate(g, json) == NoInputNode <==>
      |g.edges| > 0 && forall n :: n in g.nodes ==> n.nodeType != ProcessChain.InputNodeType
    ensures Generate(g, json) != NotInitialised
  {
  }

  /**
   * A generated program is the prologue with the first input node's literal,
   * one statement per chain node in chain order, and the final log; the first
   * statement is the input node's own.
   */
  lemma GeneratedLayout(g: GraphData, json: NodeProperties -> string)
    requires Generate(g, json).Generated?
    ensures ProcessChain.FirstInput(g.nodes).Some?
    ensures var inputNode := ProcessChain.FirstInput(g.nodes).value;
      var chain := ProcessChain.BoundedChain(g.nodes, g.edges);
      Plan(chain).Ok? && |Plan(chain).value| == |chain| && chain != [] && chain[0] == inputNode &&
      Generate(g, json).code == Program(InputLiteral(inputNode.properties), Plan(chain).value, json) &&
      Plan(chain).value[0] == Statement("input", Nodes.Label(Nodes.Input), PropertiesOrEmpty(inputNode.properties))
  {
    var inputNode := ProcessChain.FirstInput(g.nodes).value;
    var chain := ProcessChain.BoundedChain(g.nodes, g.edges);
    var input := InputLiteral(inputNode.properties);
    CodeForLayout(input, chain, json);
    assert |g.nodes| > 0;
    assert chain[0] == inputNode;
    CatalogueNodeStatement(Nodes.Input, inputNode.id, inputNode.properties);
  }

  /** The input literal can be read back out of a generated program unless it holds a double quote. */
  lemma GeneratedInputRoundTrip(g: GraphData, json: NodeProperties -> string)
    requires Generate(g, json).Generated?
    requires '"' !in InputLiteral(ProcessChain.FirstInput(g.nodes).value.properties)
    ensures ExtractInput(Generate(g, json).code) == Some(InputLiteral(ProcessChain.FirstInput(g.nodes).value.properties))
  {
    GeneratedLayout(g, json);
    var inputNode := ProcessChain.FirstInput(g.nodes).value;
    InputRoundTrip(InputLiteral(inputNode.properties), Plan(ProcessChain.BoundedChain(g.nodes, g.edges)).value, json);
  }

  /** Every node has a type `${tag}-1` of a catalogue kind, as `addNode` creates them. */
  ghost predicate CatalogueNodes(nodes: seq<FlowNode>)
  {
    forall i :: 0 <= i < |nodes| ==> exists k: Nodes.NodeKind :: nodes[i].nodeType == Nodes.Tag(k) + "-1"
  }

  /** On a graph of catalogue nodes the `.text` lookup never throws. */
  lemma CatalogueGraphNeverThrows(g: GraphData, json: NodeProperties -> string)
    requires CatalogueNodes(g.nodes)
    ensures !Generate(g, json).Threw?
  {
    var chain := ProcessChain.BoundedChain(g.nodes, g.edges);
    forall i | 0 <= i < |chain|
      ensures KindPrefix(chain[i].nodeType) in Nodes.NodeTypes
    {
      ProcessChain.VisitIsNode(g.nodes, g.edges, i);
      var j :| 0 <= j < |g.nodes| && g.nodes[j] == chain[i];
      var k: Nodes.NodeKind :| g.nodes[j].nodeType == Nodes.Tag(k) + "-1";
      TypePrefixIsTag(k);
      Nodes.TagRoundTrip(k);
    }
    if ProcessChain.FirstInput(g.nodes).Some? {
      CodeForOutcome(InputLiteral(ProcessChain.FirstInput(g.nodes).value.properties), chain, json);
    }
  }

  // ----- the sandbox of runCode -----

  /** What running the code through the evaluator gives: the `console.log` calls made, and the error if it threw. */
  datatype Evaluation = Evaluation(logCalls: seq<seq<Value>>, thrown: Option<string>)

  /** The sandbox's `console.log` as written: it keeps its first argument when that is an array. */
  function CaptureAsWritten(args: seq<Value>, output: seq<Value>): (r: seq<Value>)
    ensures |args| > 0 && args[0].Array? ==> r == args[0].elems
    ensures (|args| == 0 || !args[0].Array?) ==> r == output
  {
    if |args| > 0 && args[0].Array? then args[0].elems else output
  }

  /** The call the generated program ends with: a label first, the data second. */
  function ResultLog(data: seq<Value>): seq<Value>
  {
    [Text("处理结果:"), Array(data)]
  }

  /** As written, the generated program's closing log never reaches `output`. */
  lemma ResultLogIgnored(data: seq<Value>, output: seq<Value>)
    ensures CaptureAsWritten(ResultLog(data), output) == output
    ensures data != output ==> CaptureAsWritten(ResultLog(data), output) != data
  {
  }

  /** The sandbox's `console.log` as evidently intended: it keeps the first array argument. */
  function Capture(args: seq<Value>, output: seq<Value>): (r: seq<Value>)
    ensures r == output || exists i :: 0 <= i < |args| && args[i] == Array(r)
  {
    if args == [] then output
    else if args[0].Array? then args[0].elems
    else Capture(args[1..], output)
  }

  /** The first array argument wins, wherever it sits, and a call without one keeps `output`. */
  lemma {:induction false} CaptureSpec(args: seq<Value>, output: seq<Value>)
    ensures forall i :: 0 <= i < |args| && args[i].Array? && (forall j :: 0 <= j < i ==> !args[j].Array?) ==>
      Capture(args, output) == args[i].elems
    ensures (forall i :: 0 <= i < |args| ==> !args[i].Array?) ==> Capture(args, output) == output
  {
    if args != [] {
      CaptureSpec(args[1..], output);
      assert forall i :: 1 <= i < |args| ==> args[i] == args[1..][i - 1];
    }
  }

  /** With the intended capture, the closing log delivers exactly the data. */
  lemma ResultLogCaptured(data: seq<Value>, output: seq<Value>)
    ensures Capture(ResultLog(data), output) == data
  {
    CaptureSpec(ResultLog(data), output);
  }

  /** `output` after the given `console.log` calls, in order. */
  function CaptureAll(calls: seq<seq<Value>>, output: seq<Value>): seq<Value>
  {
    if calls == [] then output else CaptureAll(calls[1..], Capture(calls[0], output))
  }

  lemma {:induction false} CaptureAllSnoc(calls: seq<seq<Value>>, args: seq<Value>, output: seq<Value>)
    ensures CaptureAll(calls + [args], output) == Capture(args, CaptureAll(calls, output))
  {
    if calls == [] {
      assert calls + [args] == [args];
    } else {
      assert (calls + [args])[1..] == calls[1..] + [args];
      CaptureAllSnoc(calls[1..], args, Capture(calls[0], output));
    }
  }

  /** A run whose calls carry no array leaves `output` alone; otherwise the last call has the final say. */
  lemma {:induction false} CaptureAllLast(calls: seq<seq<Value>>, output: seq<Value>)
    ensures (forall i, j :: 0 <= i < |calls| && 0 <= j < |calls[i]| ==> !calls[i][j].Array?) ==>
      CaptureAll(calls, output) == output
    ensures |calls| > 0 ==>
      CaptureAll(calls, output) == Capture(calls[|calls| - 1], CaptureAll(calls[..|calls| - 1], output))
  {
    if |calls| > 0 {
      assert calls == calls[..|calls| - 1] + [calls[|calls| - 1]];
      CaptureAllSnoc(calls[..|calls| - 1], calls[|calls| - 1], output);
      CaptureSpec(calls[0], output);
      CaptureAllLast(calls[1..], Capture(calls[0], output));
      assert forall i :: 1 <= i < |calls| ==> calls[i] == calls[1..][i - 1];
    }
  }

  // ----- the hook -----

  class Editor {
    /** `lfRef.current` */
    var lf: Canvas?
    var code: string
    var output: seq<Value>
    const logger: Logging.Logger

    ghost predicate Valid()
      reads this, logger
    {
      logger.Valid()
    }

    constructor (logger: Logging.Logger)
      requires logger.Valid()
      ensures Valid() && lf == null && code == "" && output == [] && this.logger == logger
    {
      lf := null;
      code := "";
      output := [];
      this.logger := logger;
    }

    /** Creates the diagram on the first call only. */
    method InitLogicFlow()
      modifies this
      ensures lf != null && code == old(code) && output == old(output)
      ensures old(lf) != null ==> lf == old(lf)
      ensures old(lf) == null ==> fresh(lf) && lf.nodes == [] && lf.edges == []
    {
      if lf == null {
        lf := new Canvas();
      }
    }

    /**
     * `addNode`: on an initialised diagram and a catalogue tag, one node typed
     * `${nodeType}-1` with the catalogue's default properties is added and the
     * addition is logged; otherwise an error is logged and nothing is added.
     */
    method AddNode(nodeType: string, id: string, now: string)
      requires Valid()
      modifies logger, lf
      ensures Valid() && unchanged(this)
      ensures lf == null ==>
        logger.history == old(logger.history) + [Logging.LogEntry(now, Logging.LogLevel.Error, "LogicFlow 实例未初始化", Logging.NoData)]
      ensures lf != null && Nodes.KindOfTag(nodeType).None? ==>
        lf.nodes == old(lf.nodes) && lf.edges == old(lf.edges) &&
        logger.history == old(logger.history) + [Logging.LogEntry(now, Logging.LogLevel.Error, "未知的节点类型", Logging.Fields(map["nodeType" := nodeType]))]
      ensures lf != null && Nodes.KindOfTag(nodeType).Some? ==>
        lf.nodes == old(lf.nodes) + [FlowNode(id, nodeType + "-1", Some(Nodes.Config(Nodes.KindOfTag(nodeType).value).properties))] &&
        lf.edges == old(lf.edges) &&
        logger.history == old(logger.history) + [Logging.LogEntry(now, Logging.LogLevel.Info, "添加节点", Logging.Fields(map["nodeType" := nodeType]))]
      ensures lf != null && CatalogueNodes(old(lf.nodes)) ==> CatalogueNodes(lf.nodes)
    {
      var canvas := lf;
      if canvas == null {
        logger.Error("LogicFlow 实例未初始化", Logging.NoData, now);
        return;
      }
      var config := Nodes.KindOfTag(nodeType);
      if config.None? {
        logger.Error("未知的节点类型", Logging.Fields(map["nodeType" := nodeType]), now);
        return;
      }
      canvas.AddNode(FlowNode(id, nodeType + "-1", Some(Nodes.Config(config.value).properties)));
      logger.Info("添加节点", Logging.Fields(map["nodeType" := nodeType]), now);
      assert canvas.nodes[|canvas.nodes| - 1].nodeType == Nodes.Tag(config.value) + "-1";
    }

    /**
     * `generateCode`: reports a missing diagram, missing edges or a missing
     * input node and leaves `code` as it was; a chain node outside the
     * catalogue makes the label lookup throw, again leaving `code`; otherwise
     * `code` becomes the generated program.
     */
    method GenerateCode(json: NodeProperties -> string, now: string) returns (outcome: GenerateOutcome)
      requires Valid()
      modifies this, logger
      ensures Valid() && lf == old(lf) && output == old(output)
      ensures lf == null ==> outcome == NotInitialised
      ensures lf != null ==> outcome == Generate(GraphData(lf.nodes, lf.edges), json)
      ensures code == if outcome.Generated? then outcome.code else old(code)
      ensures logger.history == old(logger.history) + GenerateLog(outcome, now)
    {
      var canvas := lf;
      if canvas == null {
        logger.Error("LogicFlow 实例未初始化", Logging.NoData, now);
        return NotInitialised;
      }
      var g := canvas.GetGraphData();
      if |g.edges| == 0 {
        logger.Warn("节点连接验证失败", Logging.NoData, now);
        return NoEdges;
      }
      var inputNode := FindNodeByType(g.nodes, ProcessChain.InputNodeType);
      if inputNode.None? {
        logger.Warn("未找到输入节点", Logging.NoData, now);
        return NoInputNode;
      }
      var input := InputLiteral(inputNode.value.properties);
      var chain := ProcessChain.BuildProcessChainBounded(g.nodes, g.edges);
      var emitted := EmitCode(input, chain, json);
      if emitted.Err? {
        return Threw(emitted.error);
      }
      code := emitted.value;
      logger.Info("代码生成成功", Logging.Fields(map["code" := code]), now);
      outcome := Generated(code);
    }

    /**
     * `runCode`: with no code a warning is logged and nothing runs. Otherwise
     * each `console.log` call of the run updates `output` through the
     * sandbox, and the run is logged as a success or with the thrown message.
     */
    method RunCode(run: string -> Evaluation, now: string)
      requires Valid()
      modifies this, logger
      ensures Valid() && lf == old(lf) && code == old(code)
      ensures code == "" ==> (output == old(output) &&
        logger.history == old(logger.history) + [Logging.LogEntry(now, Logging.LogLevel.Warn, "尝试运行未生成的代码", Logging.NoData)])
      ensures code != "" ==> output == CaptureAll(run(code).logCalls, old(output))
      ensures code != "" && run(code).thrown.None? ==>
        logger.history == old(logger.history) + [Logging.LogEntry(now, Logging.LogLevel.Info, "代码运行成功", Logging.NoData)]
      ensures code != "" && run(code).thrown.Some? ==>
        logger.history == old(logger.history) +
          [Logging.LogEntry(now, Logging.LogLevel.Error, "代码运行失败", Logging.Fields(map["error" := run(code).thrown.value]))]
    {
      if code == "" {
        logger.Warn("尝试运行未生成的代码", Logging.NoData, now);
        return;
      }
      var evaluation := run(code);
      var i := 0;
      while i < |evaluation.logCalls|
        invariant 0 <= i <= |evaluation.logCalls|
        invariant output == CaptureAll(evaluation.logCalls[..i], old(output))
        invariant Valid() && lf == old(lf) && code == old(code) && logger.history == old(logger.history)
      {
        CaptureAllSnoc(evaluation.logCalls[..i], evaluation.logCalls[i], old(output));
        assert evaluation.logCalls[..i + 1] == evaluation.logCalls[..i] + [evaluation.logCalls[i]];
        output := Capture(evaluation.logCalls[i], output);
        i := i + 1;
      }
      assert evaluation.logCalls[..i] == evaluation.logCalls;
      if evaluation.thrown.Some? {
        logger.Error("代码运行失败", Logging.Fields(map["error" := evaluation.thrown.value]), now);
      } else {
        logger.Info("代码运行成功", Logging.NoData, now);
      }
    }
  }
}
