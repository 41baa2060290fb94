# LogicFlow low-code editor: a Dafny model of its core

LogicFlow low-code is a browser editor in which a user places nodes on a
LogicFlow diagram (data input, sin function, transform, filter, statistics,
curve output), connects them, generates JavaScript text from the diagram and
runs that text to plot a curve. This project models the logic behind that
editor and proves properties of it:

- `types.dfy` (module `Types`): node properties, nodes, edges, graph
  snapshots, and the first-match search every `find` call performs.
- `nodes.dfy` (module `Nodes`): the node catalogue: six kinds, their tags,
  labels, default properties and option sets.
- `logger.dfy` (module `Logging`): the application log. It is a buffer of at
  most 1000 entries. It appends, drops its oldest entry on overflow, copies
  out, clears, and is reached through one shared instance.
- `chain.dfy` (module `ProcessChain`): the processing-chain walk. It starts at
  the first `input-1` node and follows the first edge leaving each node. It
  comes as written (which may not end) and bounded by the node count.
- `codegen.dfy` (module `CodeGen`): the program text the hook emits for a
  chain.
- `canvas.dfy` (module `Diagram`): the calls the editor makes on the LogicFlow
  diagram (`addNode`, `getGraphData`, `setProperties`).
- `hook.dfy` (module `FlowEditorHook`): the `useFlowEditor` hook as a class
  holding the diagram, `code` and `output`, with `initLogicFlow`, `addNode`,
  `generateCode` and `runCode`.
- `legacy.dfy` (module `LegacyEditor`): the older `FlowEditor` component. It
  has a fixed sin program generator, the normalisation of the run result
  before plotting, and the input-node click handler.

Running code is abstract. The evaluator behind `new Function` is a parameter
(`run`), and so are `JSON.stringify` of node properties (`json`), the log
timestamp (`now`), the ids LogicFlow assigns to new nodes, and the value
typed into the prompt.

Four behaviours of the code that a reader might expect to be otherwise:

- The emitted program has a `processNode` statement for the input node too,
  not only for the nodes after it (`GeneratedLayout` proves the first
  statement is the input node's).
- The chain builder does not bound its walk by the node count and never stops
  on a cycle (first row of Findings).
- `generateCode` does not check that the input is a well-formed number list.
  Any text is embedded, even one holding a double quote
  (`SinProgramRoundTrip`).
- The hook's `runCode` does not clear `output` when a run fails. It leaves
  `output` as the sandbox last set it (`FlowEditorHook.Editor.RunCode`). The
  older component sets it to `[]` when a run throws
  (`LegacyEditor.NormaliseResult`).

## Model

| member | source | states |
|---|---|---|
| Types.FindIndex | logicflow-lowcode/src/hooks/useFlowEditor.ts:136-142 | the index found satisfies the predicate and no earlier element does; None exactly when no element satisfies it |
| Types.FindNodeByType | logicflow-lowcode/src/hooks/useFlowEditor.ts:64 | None exactly when no node has the type; otherwise the first node of that type |
| Types.FindNodeById | logicflow-lowcode/src/hooks/useFlowEditor.ts:142 | None exactly when no node has the id; otherwise the first node with that id |
| Types.FirstEdgeFrom | logicflow-lowcode/src/hooks/useFlowEditor.ts:140 | None exactly when no edge leaves the node; otherwise the first edge whose source is the node |
| Types.PropertiesOrEmpty | logicflow-lowcode/src/hooks/useFlowEditor.ts:80 | no contract; `CodeGen.StatementFor` and `CodeGen.CatalogueNodeStatement` state that missing properties become `{}` |
| Nodes.KindOfTag | logicflow-lowcode/src/constants/nodes.ts:2-9 | only the six tags are catalogue keys, and a found kind has that tag |
| Nodes.Tag | logicflow-lowcode/src/constants/nodes.ts:2-9 | each kind's tag is one of the six `NODE_TYPES` values and holds no `-` |
| Nodes.Config | logicflow-lowcode/src/constants/nodes.ts:12-53 | every catalogue entry has shape `rect` and a non-empty label |
| Nodes.Label | logicflow-lowcode/src/constants/nodes.ts:12-53 | `NODE_CONFIGS[k].text` is never empty |
| Nodes.TagsAreDistinct | logicflow-lowcode/src/constants/nodes.ts:2-9 | exactly six pairwise-distinct tags, one per kind in declaration order; distinct kinds have distinct tags |
| Nodes.TagRoundTrip | logicflow-lowcode/src/constants/nodes.ts:2-53 | each kind's tag looks up that same kind |
| Nodes.CatalogueDefaults | logicflow-lowcode/src/constants/nodes.ts:16-52 | each kind's default properties exactly: input `{input: '1,2,3,4,5,6'}`, transform `{transformType: 'cos', scale: 1}`, filter `{condition: '>', threshold: 0}`, stats `{statType: 'mean'}`, function and output `{}` |
| Nodes.DefaultsAreOptions | logicflow-lowcode/src/constants/nodes.ts:29-78 | each default option value belongs to its option set |
| Nodes.OptionSetsAreDistinct | logicflow-lowcode/src/constants/nodes.ts:56-78 | the option sets have 4, 5 and 4 pairwise-distinct members |
| Logging.LastNAppend | logicflow-lowcode/src/utils/logger.ts:33-37 | trimming to the last n after every append equals taking the last n of the whole history |
| Logging.LastNBounds | logicflow-lowcode/src/utils/logger.ts:13-37 | the window holds at most n entries and ends with the newest one |
| Logging.Logger.constructor | logicflow-lowcode/src/utils/logger.ts:12-15 | a new log is empty with `maxLogs` 1000 |
| Logging.Logger.AddLog | logicflow-lowcode/src/utils/logger.ts:33-37 | the entry goes last; on overflow exactly the oldest is dropped; the buffer is the last 1000 entries of the history |
| Logging.Logger.Info | logicflow-lowcode/src/utils/logger.ts:41-43 | records one `info` entry with the given message and data; buffer stays within 1000 |
| Logging.Logger.Warn | logicflow-lowcode/src/utils/logger.ts:45-47 | records one `warn` entry with the given message and data; buffer stays within 1000 |
| Logging.Logger.Error | logicflow-lowcode/src/utils/logger.ts:49-51 | records one `error` entry with the given message and data; buffer stays within 1000 |
| Logging.Logger.GetLogs | logicflow-lowcode/src/utils/logger.ts:53-55 | returns a sequence equal to the buffer and changes nothing |
| Logging.Logger.ClearLogs | logicflow-lowcode/src/utils/logger.ts:57-59 | leaves the buffer empty |
| Logging.LoggerRegistry.constructor | logicflow-lowcode/src/utils/logger.ts:11 | the static slot starts empty |
| Logging.LoggerRegistry.GetInstance | logicflow-lowcode/src/utils/logger.ts:17-22 | creates a fresh empty logger on the first call, returns the stored one afterwards |
| Logging.GetInstanceTwice | logicflow-lowcode/src/utils/logger.ts:17-22 | two successive lookups give the same logger |
| ProcessChain.Step | logicflow-lowcode/src/hooks/useFlowEditor.ts:140-142 | a step lands only on a member of `nodes` |
| ProcessChain.FirstInput | logicflow-lowcode/src/hooks/useFlowEditor.ts:136 | no contract; `ChainStartsAtFirstInput` and `ChainEmptyIffNoInput` state where the walk starts |
| ProcessChain.Visit | logicflow-lowcode/src/hooks/useFlowEditor.ts:136-143 | no contract; the loop's current node after i iterations; `BuildProcessChain`, `TerminatesIffNoRepeat` and `ChainFollowsFirstEdge` state its properties |
| ProcessChain.BuildProcessChain | logicflow-lowcode/src/hooks/useFlowEditor.ts:134-146 | on a graph where the loop ends, returns exactly the nodes visited up to the stop |
| ProcessChain.StoppedStaysStopped | logicflow-lowcode/src/hooks/useFlowEditor.ts:138-143 | once the loop has no current node it never has one again |
| ProcessChain.VisitedOnlyBeforeBound | logicflow-lowcode/src/hooks/useFlowEditor.ts:138-143 | on a terminating graph, every step that still has a node lies below the node count |
| ProcessChain.RepeatRecurs | logicflow-lowcode/src/hooks/useFlowEditor.ts:138-143 | a node met twice is met again one period later |
| ProcessChain.RepeatNeverStops | logicflow-lowcode/src/hooks/useFlowEditor.ts:138-143 | without a visited set, a walk that revisits a node never stops |
| ProcessChain.DistinctNodesBounded | logicflow-lowcode/src/hooks/useFlowEditor.ts:138-143 | pairwise-distinct members of `nodes` number at most the node count |
| ProcessChain.VisitIsNode | logicflow-lowcode/src/hooks/useFlowEditor.ts:136-142 | every visited node is a member of `nodes` |
| ProcessChain.RunningPastBoundRepeats | logicflow-lowcode/src/hooks/useFlowEditor.ts:138-143 | a walk still going after the node count has revisited a node |
| ProcessChain.TerminatesIffNoRepeat | logicflow-lowcode/src/hooks/useFlowEditor.ts:138-143 | the loop ends exactly when the followed edges reach no node twice |
| ProcessChain.StopsWithinNodeCount | logicflow-lowcode/src/hooks/useFlowEditor.ts:138-143 | a walk that stops at all stops within the node count |
| ProcessChain.NoChainWithoutTermination | logicflow-lowcode/src/hooks/useFlowEditor.ts:138-143 | a returned chain exists only on graphs where the loop ends |
| ProcessChain.ChainIsUnique | logicflow-lowcode/src/hooks/useFlowEditor.ts:134-146 | the walk determines the chain |
| ProcessChain.ChainEmptyIffNoInput | logicflow-lowcode/src/hooks/useFlowEditor.ts:136-138 | the chain is empty exactly when no node is typed `input-1` |
| ProcessChain.ChainStartsAtFirstInput | logicflow-lowcode/src/hooks/useFlowEditor.ts:136-139 | the chain's head is the first `input-1` node |
| ProcessChain.ChainFollowsFirstEdge | logicflow-lowcode/src/hooks/useFlowEditor.ts:140-142 | each later element is the first node with the target id of the first edge leaving its predecessor |
| ProcessChain.ChainEndsAtDeadEnd | logicflow-lowcode/src/hooks/useFlowEditor.ts:140-142 | the last element has no outgoing edge, or its first edge targets no node |
| ProcessChain.ChainWithinNodes | logicflow-lowcode/src/hooks/useFlowEditor.ts:138-143 | chain elements are members of `nodes`, pairwise distinct, and at most the node count |
| ProcessChain.Trace | logicflow-lowcode/src/hooks/useFlowEditor.ts:138-143 | at most n visited nodes in walk order, and stopping early only when the walk stops |
| ProcessChain.TraceUnique | logicflow-lowcode/src/hooks/useFlowEditor.ts:138-143 | any sequence with those three properties is the trace |
| ProcessChain.BoundedChainSpec | logicflow-lowcode/src/hooks/useFlowEditor.ts:134-146 | the bounded chain has at most the node count; it is the source's chain exactly when the loop ends; otherwise it has the full node count |
| ProcessChain.BuildProcessChainBounded | logicflow-lowcode/src/hooks/useFlowEditor.ts:134-146 | the loop cut at the node count returns the bounded chain |
| ProcessChain.SelfLoopNeverStops | logicflow-lowcode/src/hooks/useFlowEditor.ts:138-143 | one `input-1` node with an edge to itself: the loop never ends |
| CodeGen.InputLiteralChoice | logicflow-lowcode/src/hooks/useFlowEditor.ts:71 | the literal is never empty; it is the node's own `input` exactly when that is present and non-empty, else `1,2,3,4,5,6` |
| CodeGen.InputLiteral | logicflow-lowcode/src/hooks/useFlowEditor.ts:71 | never empty; either the default list or the node's own `input` |
| CodeGen.KindPrefix | logicflow-lowcode/src/hooks/useFlowEditor.ts:79 | the result is a prefix of the type, holds no `-`, and is followed by `-` when shorter |
| CodeGen.KindPrefixUnique | logicflow-lowcode/src/hooks/useFlowEditor.ts:79 | those properties determine the part before the first `-` |
| CodeGen.TypePrefixIsTag | logicflow-lowcode/src/hooks/useFlowEditor.ts:79 | the prefix of `${tag}-1` is the tag |
| CodeGen.StatementFor | logicflow-lowcode/src/hooks/useFlowEditor.ts:79-82 | succeeds exactly when the kind prefix is a catalogue tag; the statement has that kind, the kind's label and the properties or `{}`; fails with the prefix otherwise |
| CodeGen.MapUntilErrorSpec | logicflow-lowcode/src/hooks/useFlowEditor.ts:78-83 | the per-node loop succeeds exactly when every node succeeds, one result per node in order; failure is the first failing node's error |
| CodeGen.StatementAt | logicflow-lowcode/src/hooks/useFlowEditor.ts:78-83 | statement i's text lies between the texts of the statements before and after it |
| CodeGen.StatementText | logicflow-lowcode/src/hooks/useFlowEditor.ts:81-82 | no contract; `StatementAt` and `CodeForLayout` place each statement's text in the program |
| CodeGen.Program | logicflow-lowcode/src/hooks/useFlowEditor.ts:72-85 | the program begins with the prologue carrying the input literal; `CodeForLayout` and `InputRoundTrip` state the rest |
| CodeGen.CodeFor | logicflow-lowcode/src/hooks/useFlowEditor.ts:72-85 | no contract; `EmitCode` is proved equal to it, and `CodeForOutcome` and `CodeForLayout` state its properties |
| CodeGen.EmitCode | logicflow-lowcode/src/hooks/useFlowEditor.ts:72-85 | the accumulated text is the program for the chain, or the first unknown kind |
| CodeGen.CodeForOutcome | logicflow-lowcode/src/hooks/useFlowEditor.ts:78-83 | generation fails exactly when some chain node's kind is not a catalogue key, with the first such kind |
| CodeGen.CodeForLayout | logicflow-lowcode/src/hooks/useFlowEditor.ts:71-85 | the text is prologue, one statement per chain node in chain order, then the final log |
| CodeGen.CatalogueNodeStatement | logicflow-lowcode/src/hooks/useFlowEditor.ts:79-82 | a node typed `${tag}-1` gets the statement with that tag and label |
| CodeGen.InputRoundTrip | logicflow-lowcode/src/hooks/useFlowEditor.ts:72-74 | a literal without a double quote is embedded verbatim and can be read back out |
| Diagram.SetInputIn | logicflow-lowcode/src/components/FlowEditor.tsx:183 | the node list keeps its length |
| Diagram.SetInputInSpec | logicflow-lowcode/src/components/FlowEditor.tsx:183 | the clicked node gets exactly `input == value` and keeps its id, type and other properties; other nodes are unchanged |
| Diagram.Canvas.constructor | logicflow-lowcode/src/hooks/useFlowEditor.ts:16-22 | a new diagram has no nodes and no edges |
| Diagram.Canvas.AddNode | logicflow-lowcode/src/hooks/useFlowEditor.ts:40-45 | the new node goes after the existing ones; edges are unchanged |
| Diagram.Canvas.GetGraphData | logicflow-lowcode/src/hooks/useFlowEditor.ts:57 | the snapshot is the current node and edge lists |
| Diagram.Canvas.SetInput | logicflow-lowcode/src/components/FlowEditor.tsx:183 | the node list after the update is `SetInputIn` of the old one; edges are unchanged |
| FlowEditorHook.GenerateGuards | logicflow-lowcode/src/hooks/useFlowEditor.ts:58-69 | the no-edges report happens exactly when there are no edges; the no-input report happens exactly when there are edges but no `input-1` node |
| FlowEditorHook.Generate | logicflow-lowcode/src/hooks/useFlowEditor.ts:57-85 | never reports a missing diagram; code is generated or the lookup throws only with edges and an input node; `GenerateGuards` and `GeneratedLayout` state the rest |
| FlowEditorHook.GenerateLog | logicflow-lowcode/src/hooks/useFlowEditor.ts:53-87 | at most one entry, none exactly when the lookup throws, stamped `now`, at level info exactly on success |
| FlowEditorHook.GeneratedLayout | logicflow-lowcode/src/hooks/useFlowEditor.ts:64-85 | generated code carries the first input node's literal and one statement per chain node, starting with the input node itself |
| FlowEditorHook.GeneratedInputRoundTrip | logicflow-lowcode/src/hooks/useFlowEditor.ts:71-74 | the input literal can be read back from the generated code |
| FlowEditorHook.CatalogueGraphNeverThrows | logicflow-lowcode/src/hooks/useFlowEditor.ts:79-81 | on a graph of nodes created by `addNode`, the label lookup never throws |
| FlowEditorHook.ResultLogIgnored | logicflow-lowcode/src/hooks/useFlowEditor.ts:100-108 | as written, the closing `console.log('处理结果:', data)` never sets `output` |
| FlowEditorHook.CaptureAsWritten | logicflow-lowcode/src/hooks/useFlowEditor.ts:102-107 | as written: a first argument that passes `Array.isArray` becomes `output`; any other call keeps `output` |
| FlowEditorHook.Capture | logicflow-lowcode/src/hooks/useFlowEditor.ts:102-107 | corrected capture (second row of Findings): the captured value is the old output or one of the call's array arguments |
| FlowEditorHook.CaptureSpec | logicflow-lowcode/src/hooks/useFlowEditor.ts:102-107 | corrected capture (second row of Findings): the first array argument is captured; a call without one keeps `output` |
| FlowEditorHook.ResultLogCaptured | logicflow-lowcode/src/hooks/useFlowEditor.ts:100-108 | with the corrected capture, the closing log delivers exactly the data |
| FlowEditorHook.CaptureAllLast | logicflow-lowcode/src/hooks/useFlowEditor.ts:102-113 | with the corrected capture (second row of Findings): a run with no array arguments keeps `output`; otherwise the last call has the final say |
| FlowEditorHook.CaptureAll | logicflow-lowcode/src/hooks/useFlowEditor.ts:100-113 | no contract; corrected capture (second row of Findings) over the run's calls in order; `CaptureAllLast` and `Editor.RunCode` state its properties |
| FlowEditorHook.Editor.constructor | logicflow-lowcode/src/hooks/useFlowEditor.ts:9-11 | no diagram, empty code, empty output |
| FlowEditorHook.Editor.InitLogicFlow | logicflow-lowcode/src/hooks/useFlowEditor.ts:14-24 | creates an empty diagram only on the first call; a second call keeps the same diagram |
| FlowEditorHook.Editor.AddNode | logicflow-lowcode/src/hooks/useFlowEditor.ts:27-47 | no diagram or an unknown type logs an error and adds nothing; a known type adds one `${nodeType}-1` node with the catalogue defaults and logs it; graphs of catalogue nodes stay so |
| FlowEditorHook.Editor.GenerateCode | logicflow-lowcode/src/hooks/useFlowEditor.ts:50-88 | the outcome is `Generate` of the snapshot; `code` changes only on success; the log gets the entry for that outcome |
| FlowEditorHook.Editor.RunCode | logicflow-lowcode/src/hooks/useFlowEditor.ts:91-120 | empty code logs a warning and changes nothing; otherwise `output` follows the run's log calls through the corrected capture (second row of Findings) and success or failure is logged |
| LegacyEditor.LegacyCodeSpec | logicflow-lowcode/src/components/FlowEditor.tsx:236-256 | the fixed comment appears exactly when a kind is missing; otherwise the sin program with the first input node's literal; edges never matter |
| LegacyEditor.SinProgram | logicflow-lowcode/src/components/FlowEditor.tsx:254 | the program begins with the header and holds the input literal verbatim right after it |
| LegacyEditor.LegacyCode | logicflow-lowcode/src/components/FlowEditor.tsx:239-254 | the result is the fixed comment or begins with the program header; `LegacyCodeSpec` states the rest |
| LegacyEditor.SinProgramRoundTrip | logicflow-lowcode/src/components/FlowEditor.tsx:252-254 | the literal is read back exactly when it holds no double quote; it is embedded without escaping |
| LegacyEditor.NormaliseResult | logicflow-lowcode/src/components/FlowEditor.tsx:262-273 | a returned value that passes `Array.isArray` is kept whatever its elements (NaN, infinities, non-numbers); any other value or a thrown exception gives `[]` |
| LegacyEditor.XAxisLabels | logicflow-lowcode/src/components/FlowEditor.tsx:283 | n labels, label i is i + 1 |
| LegacyEditor.XAxisLabelsIncrease | logicflow-lowcode/src/components/FlowEditor.tsx:283 | the labels start at 1, end at n and strictly increase |
| LegacyEditor.Editor.constructor | logicflow-lowcode/src/components/FlowEditor.tsx:149-151 | no diagram, empty code, empty output |
| LegacyEditor.Editor.Mount | logicflow-lowcode/src/components/FlowEditor.tsx:154-176 | with a container element, a fresh empty diagram is stored; without one nothing changes |
| LegacyEditor.Editor.GenerateCode | logicflow-lowcode/src/components/FlowEditor.tsx:236-256 | nothing without a diagram; otherwise `code` is `LegacyCode` of the snapshot |
| LegacyEditor.Editor.RunAndDraw | logicflow-lowcode/src/components/FlowEditor.tsx:259-283 | empty code changes nothing and draws no chart; otherwise `output` is the normalised result and a chart is drawn with categories `1..|output|` |
| LegacyEditor.Editor.ClickNode | logicflow-lowcode/src/components/FlowEditor.tsx:179-190 | an entry on an `inputData` node becomes its `input`; a cancelled entry or another node type changes nothing |

## Left out

- Dynamic evaluation (`new Function`) is the parameter `run`. JavaScript semantics, `processNode` and the numeric transforms (sin, cos, tan, exp, log, filters, statistics) are not modelled. `processNode` is only a name in the emitted text.
- `JSON.stringify` of node properties is the parameter `json`. The model proves nothing about its output.
- Log timestamps (`new Date().toISOString()`) are the parameter `now`. The `console.log` echo of each entry is not modelled.
- UI and rendering are not modelled. This covers antd `message` toasts, `window.prompt` and `window.alert` (the prompt's answer is a parameter), node view and model classes, node-type registration, `setTimeout`, ECharts drawing, `HelpModal.tsx` and `App.tsx`.
- The diagram's own behaviour is reduced to the node and edge lists. Node coordinates, id generation and the user drawing edges (`Diagram.Canvas.AddEdge`) stand in for it.
- The older component's buttons that add `inputData`, `sinFunction` and `curveOutput` nodes are UI wiring.
- The catalogue lookup `NODE_CONFIGS[nodeType]` is modelled over the six tags only. Inherited object keys such as `toString` are not modelled.
- Node properties are a record of the fields the catalogue uses. The unused string fields `function`, `transform`, `filter` and `stats` are left out. `condition` holds the catalogue's comparison symbols, not the names in the type declaration. `input` is always text.
- JavaScript numbers are a finite real, NaN or an infinity (`Types.JsNumber`). Floating-point rounding is not modelled; the model never computes with them.
- Log `data` is a map of named string fields, which covers every call the editor makes.
- The logger's shared instance is modelled as an explicit registry object, not a static field.
- `src/hooks/useFlowEditor.ts` at the repository root is a stub and is not part of this model.
- An input-list validator and a transform engine are not in the code, so they are not modelled.
- ProcessChain.BuildProcessChain: modelled only on graphs where the loop ends (`Terminates`). On other graphs the source loops forever; `SelfLoopNeverStops` and `TerminatesIffNoRepeat` cover that case.
- FlowEditorHook.Editor.RunCode: uses the corrected `console.log` capture (second row of Findings), not the one as written; `CaptureAsWritten` models the one as written.
- FlowEditorHook.Capture: the corrected capture (second row of Findings); it keeps the first array argument anywhere in the call, where the program keeps only a first argument that is an array.
- FlowEditorHook.CaptureSpec: states the corrected capture, not the program's (second row of Findings).
- FlowEditorHook.CaptureAllLast: folds the corrected capture, not the program's (second row of Findings).
- FlowEditorHook.CaptureAll: folds the corrected capture, not the program's (second row of Findings).
- FlowEditorHook.Editor.GenerateCode: walks the bounded chain (first row of Findings), where the source's unbounded loop would never return.

## Findings

| source | as written | input that shows it | evidently intended | confidence | as-written member | corrected member |
|---|---|---|---|---|---|---|
| logicflow-lowcode/src/hooks/useFlowEditor.ts:138-143 | `buildProcessChain` follows edges with no visited set and no bound, so the loop never ends once the walk returns to a node | nodes `[{id: "a", type: "input-1"}]`, edges `[{sourceNodeId: "a", targetNodeId: "a"}]` | stop after at most `nodes.length` entries, so that a cycle cannot hang the editor | not executed | ProcessChain.SelfLoopNeverStops | ProcessChain.BuildProcessChainBounded |
| logicflow-lowcode/src/hooks/useFlowEditor.ts:100-108 | the sandbox's `console.log` keeps only its first argument when that is an array, but the emitted program logs `('处理结果:', data)`, whose first argument is a string, so `output` is never set | any generated program, run with a globally available `processNode` (no file defines one, and `new Function('console', code)` supplies only `console`, so without it the run throws earlier); its closing call has the arguments `['处理结果:', [0.84]]` | the logged data reaches `output` | not executed | FlowEditorHook.ResultLogIgnored | FlowEditorHook.ResultLogCaptured |
