/**
 * The processing-chain builder of the flow-editor hook
 * (logicflow-lowcode/src/hooks/useFlowEditor.ts, `buildProcessChain`).
 *
 * The walk starts at the first node typed `input-1` and repeatedly follows the
 * first edge leaving the current node. `Visit(nodes, edges, i)` is the node
 * `buildProcessChain`'s loop holds after `i` steps, None once it has stopped. The loop keeps
 * no visited set, so whether the loop ends at all is a property of the graph:
 * `Terminates` says it does, and `TerminatesIffNoRepeat` shows that this is
 * exactly "the walk reaches no node twice".
 */
module ProcessChain {
  import opened Types
  import Nodes

  /** `${NODE_TYPES.INPUT}-1` */
  const InputNodeType: string := Nodes.Tag(Nodes.Input) + "-1"

  /** One step of the loop: the target of the first edge leaving `cur`, if that id names a node. */
  function Step(nodes: seq<FlowNode>, edges: seq<FlowEdge>, cur: FlowNode): (r: Option<FlowNode>)
    ensures r.Some? ==> r.value in nodes
  {
    match FirstEdgeFrom(edges, cur.id)
    case None => None
    case Some(k) => FindNodeById(nodes, edges[k].targetNodeId)
  }

  /** Where the walk starts: the first node typed `input-1`. */
  function FirstInput(nodes: seq<FlowNode>): Option<FlowNode>
  {
    FindNodeByType(nodes, InputNodeType)
  }

  /** The step as a function value, so the walk's general facts can be stated once for any step. */
  function StepOf(nodes: seq<FlowNode>, edges: seq<FlowEdge>): FlowNode -> Option<FlowNode>
  {
    (cur: FlowNode) => Step(nodes, edges, cur)
  }

  /** The loop's `currentNode` after `i` iterations. */
  function Visit(nodes: seq<FlowNode>, edges: seq<FlowEdge>, i: nat): Option<FlowNode>
  {
    Iterate(FirstInput(nodes), StepOf(nodes, edges), i)
  }

  /** What a loop `while (cur) { ...; cur = step(cur) }` holds after `i` iterations. */
  function Iterate<T>(start: Option<T>, step: T -> Option<T>, i: nat): Option<T>
  {
    if i == 0 then start
    else match Iterate(start, step, i - 1)
      case None => None
      case Some(cur) => step(cur)
  }

  /** `chain` is what the loop returns: every node visited, in order, up to the first step that found nothing. */
  ghost predicate IsChain(nodes: seq<FlowNode>, edges: seq<FlowEdge>, chain: seq<FlowNode>)
  {
    Visit(nodes, edges, |chain|).None? &&
    forall i :: 0 <= i < |chain| ==> Visit(nodes, edges, i) == Some(chain[i])
  }

  /** The loop ends within `|nodes|` iterations. */
  ghost predicate Terminates(nodes: seq<FlowNode>, edges: seq<FlowEdge>)
  {
    Visit(nodes, edges, |nodes|).None?
  }

  /** The followed edges reach no node twice. */
  ghost predicate NoRepeat(nodes: seq<FlowNode>, edges: seq<FlowEdge>)
  {
    forall i, j :: 0 <= i < j && Visit(nodes, edges, i).Some? ==> Visit(nodes, edges, i) != Visit(nodes, edges, j)
  }

  // ----- the walk as `buildProcessChain` writes it -----

  /** `buildProcessChain`, for graphs on which its loop ends. */
  method BuildProcessChain(nodes: seq<FlowNode>, edges: seq<FlowEdge>) returns (chain: seq<FlowNode>)
    requires Terminates(nodes, edges)
    ensures IsChain(nodes, edges, chain)
  {
    chain := [];
    var current := FindNodeByType(nodes, InputNodeType);
    while current.Some?
      invariant current == Visit(nodes, edges, |chain|)
      invariant forall i :: 0 <= i < |chain| ==> Visit(nodes, edges, i) == Some(chain[i])
      decreases |nodes| - |chain|
    {
      VisitedOnlyBeforeBound(nodes, edges, |chain|);
      chain := chain + [current.value];
      var nextEdge := FirstEdgeFrom(edges, current.value.id);
      if nextEdge.None? {
        break;
      }
      current := FindNodeById(nodes, edges[nextEdge.value].targetNodeId);
    }
  }

  // ----- facts about the walk -----

  /** Once the loop has stopped it stays stopped. */
  lemma {:induction false} StoppedStaysStopped<T>(start: Option<T>, step: T -> Option<T>, i: nat, j: nat)
    requires i <= j && Iterate(start, step, i).None?
    ensures Iterate(start, step, j).None?
    decreases j
  {
    if i < j {
      StoppedStaysStopped(start, step, i, j - 1);
    }
  }

  /** On a graph where the loop ends, it holds a node only before iteration `|nodes|`. */
  lemma VisitedOnlyBeforeBound(nodes: seq<FlowNode>, edges: seq<FlowEdge>, k: nat)
    requires Terminates(nodes, edges) && Visit(nodes, edges, k).Some?
    ensures k < |nodes|
  {
    if k >= |nodes| {
      StoppedStaysStopped(FirstInput(nodes), StepOf(nodes, edges), |nodes|, k);
    }
  }

  /** A value reached twice makes the walk repeat itself from there on. */
  lemma {:induction false} RepeatRecurs<T>(start: Option<T>, step: T -> Option<T>, i: nat, j: nat, k: nat)
    requires Iterate(start, step, i) == Iterate(start, step, j)
    ensures Iterate(start, step, i + k) == Iterate(start, step, j + k)
    decreases k
  {
    if k > 0 {
      RepeatRecurs(start, step, i, j, k - 1);
    }
  }

  /** A value reached twice means the loop never stops: it holds a value at every iteration. */
  lemma {:induction false} RepeatNeverStops<T>(start: Option<T>, step: T -> Option<T>, i: nat, j: nat, m: nat)
    requires i < j && Iterate(start, step, i) == Iterate(start, step, j) && Iterate(start, step, j).Some?
    ensures Iterate(start, step, m).Some?
    decreases m
  {
    if m <= j {
      if Iterate(start, step, m).None? {
        StoppedStaysStopped(start, step, m, j);
      }
    } else {
      RepeatRecurs(start, step, i, j, m - j);
      RepeatNeverStops(start, step, i, j, i + (m - j));
    }
  }

  /** A sequence of distinct members of `s` is no longer than `s` has members. */
  lemma {:induction false} DistinctWithinSet<T>(t: seq<T>, s: set<T>)
    requires forall i :: 0 <= i < |t| ==> t[i] in s
    requires forall i, j :: 0 <= i < j < |t| ==> t[i] != t[j]
    ensures |t| <= |s|
  {
    if t != [] {
      DistinctWithinSet(t[1..], s - {t[0]});
    }
  }

  lemma {:induction false} SetOfSeqSize<T>(t: seq<T>)
    ensures |set x | x in t| <= |t|
  {
    if t != [] {
      SetOfSeqSize(t[1..]);
      assert (set x | x in t) == {t[0]} + (set x | x in t[1..]);
    }
  }

  /** Distinct members of `nodes` number at most `|nodes|`. */
  lemma DistinctNodesBounded(t: seq<FlowNode>, nodes: seq<FlowNode>)
    requires forall i :: 0 <= i < |t| ==> t[i] in nodes
    requires forall i, j :: 0 <= i < j < |t| ==> t[i] != t[j]
    ensures |t| <= |nodes|
  {
    DistinctWithinSet(t, set x | x in nodes);
    SetOfSeqSize(nodes);
  }

  lemma {:induction false} VisitIsNode(nodes: seq<FlowNode>, edges: seq<FlowEdge>, i: nat)
    requires Visit(nodes, edges, i).Some?
    ensures Visit(nodes, edges, i).value in nodes
  {
    if i > 0 {
      VisitIsNode(nodes, edges, i - 1);
    }
  }

  /** If the loop is still running at iteration `|nodes|`, some node has already been visited twice. */
  lemma RunningPastBoundRepeats(nodes: seq<FlowNode>, edges: seq<FlowEdge>)
    requires Visit(nodes, edges, |nodes|).Some?
    ensures exists i, j :: 0 <= i < j <= |nodes| && Visit(nodes, edges, i).Some? && Visit(nodes, edges, i) == Visit(nodes, edges, j)
  {
    var n := |nodes|;
    forall i | 0 <= i <= n
      ensures Visit(nodes, edges, i).Some? && Visit(nodes, edges, i).value in nodes
    {
      if Visit(nodes, edges, i).None? {
        StoppedStaysStopped(FirstInput(nodes), StepOf(nodes, edges), i, n);
      }
      VisitIsNode(nodes, edges, i);
    }
    var t := seq(n + 1, i requires 0 <= i <= n => Visit(nodes, edges, i).value);
    if forall i, j :: 0 <= i < j < |t| ==> t[i] != t[j] {
      DistinctNodesBounded(t, nodes);
      assert false;
    }
    var i, j :| 0 <= i < j < |t| && t[i] == t[j];
    assert Visit(nodes, edges, i) == Visit(nodes, edges, j);
  }

  /** The loop ends exactly when the followed edges reach no node twice. */
  lemma TerminatesIffNoRepeat(nodes: seq<FlowNode>, edges: seq<FlowEdge>)
    ensures Terminates(nodes, edges) <==> NoRepeat(nodes, edges)
  {
    if Terminates(nodes, edges) && !NoRepeat(nodes, edges) {
      var i, j :| 0 <= i < j && Visit(nodes, edges, i).Some? && Visit(nodes, edges, i) == Visit(nodes, edges, j);
      RepeatNeverStops(FirstInput(nodes), StepOf(nodes, edges), i, j, |nodes|);
    }
    if !Terminates(nodes, edges) {
      RunningPastBoundRepeats(nodes, edges);
    }
  }

  /** If the loop stops at all, it stops within `|nodes|` iterations. */
  lemma StopsWithinNodeCount(nodes: seq<FlowNode>, edges: seq<FlowEdge>, k: nat)
    requires Visit(nodes, edges, k).None?
    ensures Terminates(nodes, edges)
  {
    if !Terminates(nodes, edges) {
      RunningPastBoundRepeats(nodes, edges);
      var i, j :| 0 <= i < j <= |nodes| && Visit(nodes, edges, i).Some? && Visit(nodes, edges, i) == Visit(nodes, edges, j);
      RepeatNeverStops(FirstInput(nodes), StepOf(nodes, edges), i, j, k);
    }
  }

  /** On a graph where the walk comes back to a node, no finite chain exists: `buildProcessChain`'s loop never returns. */
  lemma NoChainWithoutTermination(nodes: seq<FlowNode>, edges: seq<FlowEdge>, chain: seq<FlowNode>)
    requires !Terminates(nodes, edges)
    ensures !IsChain(nodes, edges, chain)
  {
    if IsChain(nodes, edges, chain) {
      StopsWithinNodeCount(nodes, edges, |chain|);
    }
  }

  // ----- facts about the chain returned -----

  /** The loop's result is determined by the graph. */
  lemma ChainIsUnique(nodes: seq<FlowNode>, edges: seq<FlowEdge>, c1: seq<FlowNode>, c2: seq<FlowNode>)
    requires IsChain(nodes, edges, c1) && IsChain(nodes, edges, c2)
    ensures c1 == c2
  {
  }

  /** The chain is empty exactly when no node is typed `input-1`. */
  lemma ChainEmptyIffNoInput(nodes: seq<FlowNode>, edges: seq<FlowEdge>, chain: seq<FlowNode>)
    requires IsChain(nodes, edges, chain)
    ensures chain == [] <==> forall n :: n in nodes ==> n.nodeType != InputNodeType
  {
    if chain != [] {
      assert Visit(nodes, edges, 0) == Some(chain[0]);
    }
  }

  /** The chain starts at the first `input-1` node in array order. */
  lemma ChainStartsAtFirstInput(nodes: seq<FlowNode>, edges: seq<FlowEdge>, chain: seq<FlowNode>)
    requires IsChain(nodes, edges, chain) && chain != []
    ensures exists i :: 0 <= i < |nodes| && nodes[i] == chain[0] && IsFirstOfType(nodes, i, InputNodeType)
  {
    assert Visit(nodes, edges, 0) == Some(chain[0]);
  }

  /** Each later element is the first node whose id is the target of the first edge leaving its predecessor. */
  lemma ChainFollowsFirstEdge(nodes: seq<FlowNode>, edges: seq<FlowEdge>, chain: seq<FlowNode>, i: nat)
    requires IsChain(nodes, edges, chain) && i + 1 < |chain|
    ensures exists k :: (0 <= k < |edges| && edges[k].sourceNodeId == chain[i].id &&
      (forall j :: 0 <= j < k ==> edges[j].sourceNodeId != chain[i].id) &&
      exists m :: 0 <= m < |nodes| && nodes[m] == chain[i + 1] && IsFirstWithId(nodes, m, edges[k].targetNodeId))
  {
    assert Visit(nodes, edges, i) == Some(chain[i]);
    assert Visit(nodes, edges, i + 1) == Some(chain[i + 1]);
    var k := FirstEdgeFrom(edges, chain[i].id).value;
    assert FindNodeById(nodes, edges[k].targetNodeId) == Some(chain[i + 1]);
  }

  /** The walk stops at the last element because no edge leaves it, or the first edge leaving it points at no node. */
  lemma ChainEndsAtDeadEnd(nodes: seq<FlowNode>, edges: seq<FlowEdge>, chain: seq<FlowNode>)
    requires IsChain(nodes, edges, chain) && chain != []
    ensures var last := chain[|chain| - 1];
      (forall e :: e in edges ==> e.sourceNodeId != last.id) ||
      exists k :: 0 <= k < |edges| && edges[k].sourceNodeId == last.id &&
        (forall j :: 0 <= j < k ==> edges[j].sourceNodeId != last.id) &&
        forall n :: n in nodes ==> n.id != edges[k].targetNodeId
  {
    var last := chain[|chain| - 1];
    assert Visit(nodes, edges, |chain| - 1) == Some(last);
    assert Step(nodes, edges, last).None?;
    match FirstEdgeFrom(edges, last.id)
    case None =>
    case Some(k) =>
      assert FindNodeById(nodes, edges[k].targetNodeId).None?;
  }

  /** Every element is one of `nodes`, no node appears twice, and so the chain is no longer than `nodes`. */
  lemma ChainWithinNodes(nodes: seq<FlowNode>, edges: seq<FlowEdge>, chain: seq<FlowNode>)
    requires IsChain(nodes, edges, chain)
    ensures forall i :: 0 <= i < |chain| ==> chain[i] in nodes
    ensures forall i, j :: 0 <= i < j < |chain| ==> chain[i] != chain[j]
    ensures |chain| <= |nodes|
  {
    forall i | 0 <= i < |chain|
      ensures chain[i] in nodes
    {
      VisitIsNode(nodes, edges, i);
    }
    forall i, j | 0 <= i < j < |chain|
      ensures chain[i] != chain[j]
    {
      if chain[i] == chain[j] {
        RepeatNeverStops(FirstInput(nodes), StepOf(nodes, edges), i, j, |chain|);
      }
    }
    DistinctNodesBounded(chain, nodes);
  }

  // ----- the walk bounded by the node count -----

  /** The values `Iterate` passes through, up to the first None and at most `n` of them. */
  function Trace<T>(start: Option<T>, step: T -> Option<T>, n: nat): (w: seq<T>)
    ensures |w| <= n
    ensures forall i :: 0 <= i < |w| ==> Iterate(start, step, i) == Some(w[i])
    ensures |w| < n ==> Iterate(start, step, |w|).None?
  {
    if n == 0 then []
    else
      var w := Trace(start, step, n - 1);
      if |w| == n - 1 && Iterate(start, step, n - 1).Some? then w + [Iterate(start, step, n - 1).value] else w
  }

  /** The three properties of `Trace` pin it down: any sequence that has them is the trace. */
  lemma {:induction false} TraceUnique<T>(start: Option<T>, step: T -> Option<T>, n: nat, w: seq<T>)
    requires |w| <= n
    requires forall i :: 0 <= i < |w| ==> Iterate(start, step, i) == Some(w[i])
    requires |w| < n ==> Iterate(start, step, |w|).None?
    ensures w == Trace(start, step, n)
  {
    var t := Trace(start, step, n);
    assert |w| == |t|;
    forall i | 0 <= i < |w|
      ensures w[i] == t[i]
    {
      assert Iterate(start, step, i) == Some(t[i]);
    }
  }

  /** The chain cut off after `|nodes|` entries. */
  function BoundedChain(nodes: seq<FlowNode>, edges: seq<FlowEdge>): seq<FlowNode>
  {
    Trace(FirstInput(nodes), StepOf(nodes, edges), |nodes|)
  }

  /** The bounded chain is `buildProcessChain`'s result wherever its loop ends, and has `|nodes|` entries otherwise. */
  lemma BoundedChainSpec(nodes: seq<FlowNode>, edges: seq<FlowEdge>)
    ensures |BoundedChain(nodes, edges)| <= |nodes|
    ensures Terminates(nodes, edges) <==> IsChain(nodes, edges, BoundedChain(nodes, edges))
    ensures !Terminates(nodes, edges) ==> |BoundedChain(nodes, edges)| == |nodes|
  {
    var chain := BoundedChain(nodes, edges);
    if IsChain(nodes, edges, chain) {
      StopsWithinNodeCount(nodes, edges, |chain|);
    }
  }


  /**
   * `buildProcessChain` with its loop cut off after `|nodes|` entries. It returns
   * `buildProcessChain`'s result wherever its loop ends, and on a graph where the
   * walk comes back to a node it returns the first `|nodes|` nodes visited.
   */
  method BuildProcessChainBounded(nodes: seq<FlowNode>, edges: seq<FlowEdge>) returns (chain: seq<FlowNode>)
    ensures chain == BoundedChain(nodes, edges)
  {
    chain := [];
    var current := FindNodeByType(nodes, InputNodeType);
    while current.Some? && |chain| < |nodes|
      invariant |chain| <= |nodes|
      invariant current == Visit(nodes, edges, |chain|)
      invariant forall i :: 0 <= i < |chain| ==> Visit(nodes, edges, i) == Some(chain[i])
      decreases |nodes| - |chain|
    {
      chain := chain + [current.value];
      var nextEdge := FirstEdgeFrom(edges, current.value.id);
      if nextEdge.None? {
        assert Visit(nodes, edges, |chain|) == Step(nodes, edges, current.value);
        current := None;
        break;
      }
      current := FindNodeById(nodes, edges[nextEdge.value].targetNodeId);
    }
    TraceUnique(FirstInput(nodes), StepOf(nodes, edges), |nodes|, chain);
  }

  /** A single node typed `input-1` with an edge to itself: `buildProcessChain`'s loop never ends. */
  lemma SelfLoopNeverStops()
    ensures var nodes := [FlowNode("a", InputNodeType, None)];
      var edges := [FlowEdge("a", "a")];
      !Terminates(nodes, edges) && forall m: nat :: Visit(nodes, edges, m).Some?
  {
    var nodes := [FlowNode("a", InputNodeType, None)];
    var edges := [FlowEdge("a", "a")];
    assert Visit(nodes, edges, 0) == Some(nodes[0]);
    assert FirstEdgeFrom(edges, "a") == Some(0);
    assert Visit(nodes, edges, 1) == Some(nodes[0]);
    forall m: nat
      ensures Visit(nodes, edges, m).Some?
    {
      RepeatNeverStops(FirstInput(nodes), StepOf(nodes, edges), 0, 1, m);
    }
  }
}
