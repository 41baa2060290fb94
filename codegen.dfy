/**
 * The program text the flow-editor hook emits for a processing chain
 * (logicflow-lowcode/src/hooks/useFlowEditor.ts, `generateCode`): a header,
 * the input literal, one `processNode` statement per chain node and a final
 * `console.log`. `processNode` is only a name in that text; serialising node
 * properties (`JSON.stringify`) is the parameter `json`.
 */
module CodeGen {
  import opened Types
  import Nodes

  /** `properties?.input || '1,2,3,4,5,6'`: a missing or empty `input` falls back to the default list. */
  function InputLiteral(properties: Option<NodeProperties>): (r: string)
    ensures r != ""
    ensures r == Nodes.DefaultInput || (properties.Some? && properties.value.input == Some(r))
  {
    if properties.Some? && properties.value.input.Some? && properties.value.input.value != "" then
      properties.value.input.value
    else
      "1,2,3,4,5,6"
  }

  /** The literal is never empty, and it is the node's own `input` exactly when that is non-empty. */
  lemma InputLiteralChoice(properties: Option<NodeProperties>)
    ensures InputLiteral(properties) != ""
    ensures InputLiteral(properties) == Nodes.DefaultInput ||
            (properties.Some? && properties.value.input == Some(InputLiteral(properties)))
    ensures (properties.Some? && properties.value.input.Some? && properties.value.input.value != "")
            <==> (properties.Some? && properties.value.input == Some(InputLiteral(properties)) &&
                  InputLiteral(properties) != "")
  {
  }

  /** `type.split('-')[0]`: the part of a node type before its first `-`. */
  function KindPrefix(t: string): (r: string)
    ensures r <= t && '-' !in r
    ensures |r| < |t| ==> t[|r|] == '-'
  {
    if t == [] || t[0] == '-' then [] else [t[0]] + KindPrefix(t[1..])
  }

  /** The three properties above determine `KindPrefix(t)`. */
  lemma {:induction false} KindPrefixUnique(t: string, p: string)
    requires p <= t && '-' !in p
    requires |p| < |t| ==> t[|p|] == '-'
    ensures p == KindPrefix(t)
  {
    if t != [] && t[0] != '-' {
      assert p != [];
      assert p[0] == t[0];
      KindPrefixUnique(t[1..], p[1..]);
      assert p == [p[0]] + p[1..];
    }
  }

  /** The hook creates nodes typed `${tag}-1`; their prefix is the tag again. */
  lemma TypePrefixIsTag(k: Nodes.NodeKind)
    ensures KindPrefix(Nodes.Tag(k) + "-1") == Nodes.Tag(k)
  {
    var t := Nodes.Tag(k) + "-1";
    assert '-' !in Nodes.Tag(k) by {
      match k
      case Input =>
      case Function =>
      case Transform =>
      case Filter =>
      case Stats =>
      case Output =>
    }
    assert t[|Nodes.Tag(k)|] == '-';
    KindPrefixUnique(t, Nodes.Tag(k));
  }

  /** One emitted `processNode` statement: the node's kind, the catalogue label in its comment, its properties. */
  datatype Statement = Statement(kind: string, text: string, properties: NodeProperties)

  /** The statement for one chain node, or the kind whose `NODE_CONFIGS[kind].text` lookup throws. */
  function StatementFor(node: FlowNode): (r: Result<Statement, string>)
    ensures r.Ok? <==> KindPrefix(node.nodeType) in Nodes.NodeTypes
    ensures r.Err? ==> r.error == KindPrefix(node.nodeType)
    ensures r.Ok? ==> r.value.kind == KindPrefix(node.nodeType) && r.value.properties == PropertiesOrEmpty(node.properties) &&
                      exists k :: Nodes.Tag(k) == r.value.kind && r.value.text == Nodes.Label(k)
  {
    var kind := KindPrefix(node.nodeType);
    match Nodes.KindOfTag(kind)
    case None => Err(kind)
    case Some(k) => Ok(Statement(kind, Nodes.Label(k), PropertiesOrEmpty(node.properties)))
  }

  /** `f` applied to each element in order, stopping at the first error, as a `forEach` whose body may throw. */
  function MapUntilError<A, B, E>(xs: seq<A>, f: A -> Result<B, E>): Result<seq<B>, E>
  {
    if xs == [] then Ok([])
    else match f(xs[0])
      case Err(e) => Err(e)
      case Ok(y) =>
        match MapUntilError(xs[1..], f)
        case Err(e) => Err(e)
        case Ok(rest) => Ok([y] + rest)
  }

  /** Success means every element mapped, one result per element in order; failure is the first element's error. */
  lemma {:induction false} MapUntilErrorSpec<A, B, E>(xs: seq<A>, f: A -> Result<B, E>)
    ensures var r := MapUntilError(xs, f);
      (r.Ok? <==> forall i :: 0 <= i < |xs| ==> f(xs[i]).Ok?) &&
      (r.Ok? ==> |r.value| == |xs| && forall i :: 0 <= i < |xs| ==> f(xs[i]) == Ok(r.value[i])) &&
      (r.Err? ==> exists i :: (0 <= i < |xs| && f(xs[i]) == Err(r.error) &&
        forall j :: 0 <= j < i ==> f(xs[j]).Ok?))
  {
    if xs != [] {
      MapUntilErrorSpec(xs[1..], f);
      assert forall j :: 1 <= j < |xs| ==> xs[j] == xs[1..][j - 1];
      var r := MapUntilError(xs, f);
      if r.Err? && f(xs[0]).Ok? {
        var k :| 0 <= k < |xs[1..]| && f(xs[1..][k]) == Err(r.error) && forall j :: 0 <= j < k ==> f(xs[1..][j]).Ok?;
        assert f(xs[k + 1]) == Err(r.error) && forall j :: 0 <= j < k + 1 ==> f(xs[j]).Ok?;
      }
    }
  }

  /** Mapping two parts in turn gives the results of both parts, or the first part's error first. */
  lemma {:induction false} MapUntilErrorAppend<A, B, E>(p: seq<A>, q: seq<A>, f: A -> Result<B, E>)
    ensures MapUntilError(p + q, f) ==
      match MapUntilError(p, f)
      case Err(e) => Err(e)
      case Ok(a) =>
        match MapUntilError(q, f)
        case Err(e) => Err(e)
        case Ok(b) => Ok(a + b)
  {
    if p == [] {
      assert p + q == q;
      match MapUntilError(q, f)
      case Err(_) =>
      case Ok(b) => assert [] + b == b;
    } else {
      assert (p + q)[0] == p[0];
      assert (p + q)[1..] == p[1..] + q;
      MapUntilErrorAppend(p[1..], q, f);
      match f(p[0])
      case Err(_) =>
      case Ok(y) =>
        match MapUntilError(p[1..], f)
        case Err(_) =>
        case Ok(a) =>
          match MapUntilError(q, f)
          case Err(_) =>
          case Ok(b) => assert [y] + (a + b) == ([y] + a) + b;
    }
  }

  /** The statements for a whole chain, in chain order; the first node whose kind is not in the catalogue aborts. */
  function Plan(chain: seq<FlowNode>): Result<seq<Statement>, string>
  {
    MapUntilError(chain, StatementFor)
  }

  /** The concatenation of `f` over `xs`, in order. */
  function Concat<T>(xs: seq<T>, f: T -> string): string
  {
    if xs == [] then "" else f(xs[0]) + Concat(xs[1..], f)
  }

  lemma {:induction false} ConcatAppend<T>(a: seq<T>, b: seq<T>, f: T -> string)
    ensures Concat(a + b, f) == Concat(a, f) + Concat(b, f)
  {
    if a == [] {
      assert a + b == b;
    } else {
      assert (a + b)[1..] == a[1..] + b;
      ConcatAppend(a[1..], b, f);
    }
  }

  /** The program text up to the opening quote of the input literal. */
  const Header: string := "// 自动生成的JS代码\nconst input = \""

  function Prologue(input: string): string
  {
    Header + input + InputTail
  }

  /** The rest of the first two lines, from the closing quote of the input literal on. */
  const InputTail: string := "\"" + ".split(',').map(Number);\nlet data = input;\n"

  function StatementText(s: Statement, json: NodeProperties -> string): string
  {
    "// 处理 " + s.text + "\ndata = processNode('" + s.kind + "', data, " + json(s.properties) + ");\n"
  }

  function Body(stmts: seq<Statement>, json: NodeProperties -> string): string
  {
    Concat(stmts, (s: Statement) => StatementText(s, json))
  }

  const Epilogue: string := "console.log('处理结果:', data);"

  /** The whole emitted program for the given statements. */
  function Program(input: string, stmts: seq<Statement>, json: NodeProperties -> string): (r: string)
    ensures Prologue(input) <= r
  {
    Prologue(input) + Body(stmts, json) + Epilogue
  }

  /** The text emitted for a chain, or the kind whose catalogue lookup throws. */
  function CodeFor(input: string, chain: seq<FlowNode>, json: NodeProperties -> string): Result<string, string>
  {
    match Plan(chain)
    case Err(e) => Err(e)
    case Ok(stmts) => Ok(Program(input, stmts, json))
  }

  /** Statement `i`'s text sits between the texts of the statements before it and those after it. */
  lemma StatementAt(stmts: seq<Statement>, json: NodeProperties -> string, i: nat)
    requires i < |stmts|
    ensures Body(stmts, json) == Body(stmts[..i], json) + StatementText(stmts[i], json) + Body(stmts[i + 1..], json)
  {
    var f := (s: Statement) => StatementText(s, json);
    assert stmts == stmts[..i] + ([stmts[i]] + stmts[i + 1..]);
    ConcatAppend(stmts[..i], [stmts[i]] + stmts[i + 1..], f);
    assert ([stmts[i]] + stmts[i + 1..])[1..] == stmts[i + 1..];
  }

  /** Mapping one more element either extends the results by that element's result or fails with its error. */
  lemma MapUntilErrorStep<A, B, E>(xs: seq<A>, i: nat, f: A -> Result<B, E>)
    requires i < |xs| && MapUntilError(xs[..i], f).Ok?
    ensures f(xs[i]).Err? ==> MapUntilError(xs, f) == Err(f(xs[i]).error)
    ensures f(xs[i]).Ok? ==> MapUntilError(xs[..i + 1], f) == Ok(MapUntilError(xs[..i], f).value + [f(xs[i]).value])
  {
    MapUntilErrorAppend(xs[..i], xs[i..], f);
    assert xs[..i] + xs[i..] == xs;
    MapUntilErrorAppend(xs[..i], [xs[i]], f);
    assert xs[..i] + [xs[i]] == xs[..i + 1];
    if f(xs[i]).Ok? {
      var y := f(xs[i]).value;
      assert [xs[i]][0] == xs[i] && [xs[i]][1..] == [];
      assert [y] + [] == [y];
      assert MapUntilError([xs[i]], f) == Ok([y]);
    }
    MapUntilErrorAppend([xs[i]], xs[i + 1..], f);
    assert [xs[i]] + xs[i + 1..] == xs[i..];
  }

  lemma BodySnoc(stmts: seq<Statement>, s: Statement, json: NodeProperties -> string)
    ensures Body(stmts + [s], json) == Body(stmts, json) + StatementText(s, json)
  {
    ConcatAppend(stmts, [s], (t: Statement) => StatementText(t, json));
  }

  lemma AppendAssoc<T>(a: seq<T>, b: seq<T>, c: seq<T>)
    ensures (a + b) + c == a + (b + c)
  {
  }

  /**
   * The loop of `generateCode` that appends one statement per chain node to the
   * program text, then the closing `console.log`.
   */
  method EmitCode(input: string, chain: seq<FlowNode>, json: NodeProperties -> string) returns (r: Result<string, string>)
    ensures r == CodeFor(input, chain, json)
  {
    var code := Prologue(input);
    var i := 0;
    while i < |chain|
      invariant 0 <= i <= |chain|
      invariant Plan(chain[..i]).Ok?
      invariant code == Prologue(input) + Body(Plan(chain[..i]).value, json)
    {
      ghost var done := Plan(chain[..i]).value;
      var s := StatementFor(chain[i]);
      MapUntilErrorStep(chain, i, StatementFor);
      if s.Err? {
        return Err(s.error);
      }
      BodySnoc(done, s.value, json);
      assert Plan(chain[..i + 1]) == Ok(done + [s.value]);
      AppendAssoc(Prologue(input), Body(done, json), StatementText(s.value, json));
      code := code + StatementText(s.value, json);
      i := i + 1;
    }
    assert chain[..i] == chain;
    r := Ok(code + Epilogue);
  }

  /** Generation fails exactly when some chain node's kind is not a catalogue key, and then with the first such kind. */
  lemma CodeForOutcome(input: string, chain: seq<FlowNode>, json: NodeProperties -> string)
    ensures CodeFor(input, chain, json).Ok? <==>
      forall i :: 0 <= i < |chain| ==> KindPrefix(chain[i].nodeType) in Nodes.NodeTypes
    ensures CodeFor(input, chain, json).Err? ==> exists i :: (0 <= i < |chain| &&
      CodeFor(input, chain, json).error == KindPrefix(chain[i].nodeType) &&
      KindPrefix(chain[i].nodeType) !in Nodes.NodeTypes &&
      forall j :: 0 <= j < i ==> KindPrefix(chain[j].nodeType) in Nodes.NodeTypes)
  {
    MapUntilErrorSpec(chain, StatementFor);
  }

  /** A successful program has one statement per chain node, in chain order, between the prologue and the final log. */
  lemma CodeForLayout(input: string, chain: seq<FlowNode>, json: NodeProperties -> string)
    requires CodeFor(input, chain, json).Ok?
    ensures Plan(chain).Ok? && |Plan(chain).value| == |chain|
    ensures CodeFor(input, chain, json).value == Prologue(input) + Body(Plan(chain).value, json) + Epilogue
    ensures forall i :: 0 <= i < |chain| ==> StatementFor(chain[i]) == Ok(Plan(chain).value[i])
  {
    MapUntilErrorSpec(chain, StatementFor);
  }

  /** A node typed `${tag}-1`, as the hook creates them, yields the statement for that catalogue entry. */
  lemma CatalogueNodeStatement(k: Nodes.NodeKind, id: string, properties: Option<NodeProperties>)
    ensures StatementFor(FlowNode(id, Nodes.Tag(k) + "-1", properties)) ==
      Ok(Statement(Nodes.Tag(k), Nodes.Label(k), PropertiesOrEmpty(properties)))
  {
    TypePrefixIsTag(k);
    Nodes.TagRoundTrip(k);
  }

  /** The characters before the first double quote. */
  function UntilQuote(s: string): (r: string)
    ensures r <= s && '"' !in r
  {
    if s == [] || s[0] == '"' then [] else [s[0]] + UntilQuote(s[1..])
  }

  /** Reads the input literal back out of an emitted program. */
  function ExtractInput(code: string): Option<string>
  {
    if Header <= code then Some(UntilQuote(code[|Header|..])) else None
  }

  lemma {:induction false} UntilQuoteOfQuoted(input: string, rest: string)
    requires '"' !in input && rest != [] && rest[0] == '"'
    ensures UntilQuote(input + rest) == input
  {
    if input != [] {
      assert (input + rest)[1..] == input[1..] + rest;
      UntilQuoteOfQuoted(input[1..], rest);
      assert input == [input[0]] + input[1..];
    } else {
      assert input + rest == rest;
    }
  }

  /** The input literal is embedded verbatim and can be read back, as long as it holds no double quote. */
  lemma InputRoundTrip(input: string, stmts: seq<Statement>, json: NodeProperties -> string)
    requires '"' !in input
    ensures ExtractInput(Program(input, stmts, json)) == Some(input)
  {
    var body := Body(stmts, json);
    var rest := InputTail + body + Epilogue;
    AppendAssoc(Header + input, InputTail, body);
    AppendAssoc(Header + input, InputTail + body, Epilogue);
    AppendAssoc(Header, input, rest);
    assert Program(input, stmts, json)[|Header|..] == input + rest;
    assert rest[0] == InputTail[0] == '"';
    UntilQuoteOfQuoted(input, rest);
  }
}
