/**
 * The node catalogue (logicflow-lowcode/src/constants/nodes.ts): the closed
 * set of node kinds, the type tag each is registered under, its display label
 * and default properties, and the option values the configurable kinds accept.
 */
module Nodes {
  import opened Types

  datatype NodeKind = Input | Function | Transform | Filter | Stats | Output

  /** The catalogue in declaration order. */
  const AllKinds: seq<NodeKind> := [Input, Function, Transform, Filter, Stats, Output]

  /** The `NODE_TYPES` value of a kind. */
  function Tag(k: NodeKind): (t: string)
    ensures t in NodeTypes && '-' !in t
  {
    match k
    case Input => "input"
    case Function => "function"
    case Transform => "transform"
    case Filter => "filter"
    case Stats => "stats"
    case Output => "output"
  }

  /** The `NODE_TYPES` values, in declaration order. */
  const NodeTypes: seq<string> := ["input", "function", "transform", "filter", "stats", "output"]

  /** Looking a string up as a key of `NODE_CONFIGS`: only the six tags are keys. */
  function KindOfTag(s: string): (r: Option<NodeKind>)
    ensures r.Some? ==> Tag(r.value) == s
    ensures r.None? <==> s !in NodeTypes
  {
    if s == "input" then Some(Input)
    else if s == "function" then Some(Function)
    else if s == "transform" then Some(Transform)
    else if s == "filter" then Some(Filter)
    else if s == "stats" then Some(Stats)
    else if s == "output" then Some(Output)
    else None
  }

  /** One `NODE_CONFIGS` entry: the shape drawn, the label and the default properties. */
  datatype NodeConfig = NodeConfig(shape: string, text: string, properties: NodeProperties)

  const DefaultInput := "1,2,3,4,5,6"

  function Config(k: NodeKind): (c: NodeConfig)
    ensures c.shape == "rect" && c.text != []
  {
    match k
    case Input => NodeConfig("rect", "数据输入", EmptyProperties.(input := Some(DefaultInput)))
    case Function => NodeConfig("rect", "sin函数", EmptyProperties)
    case Transform => NodeConfig("rect", "数据转换", EmptyProperties.(transformType := Some("cos"), scale := Some(1.0)))
    case Filter => NodeConfig("rect", "数据过滤", EmptyProperties.(condition := Some(">"), threshold := Some(0.0)))
    case Stats => NodeConfig("rect", "数据统计", EmptyProperties.(statType := Some("mean")))
    case Output => NodeConfig("rect", "曲线输出", EmptyProperties)
  }

  /** `NODE_CONFIGS[k].text` */
  function Label(k: NodeKind): (text: string)
    ensures text != []
  {
    Config(k).text
  }

  /** The values of `TRANSFORM_TYPES`, `FILTER_CONDITIONS` and `STAT_TYPES`. */
  const TransformTypes: seq<string> := ["cos", "tan", "exp", "log"]
  const FilterConditions: seq<string> := [">", "<", ">=", "<=", "=="]
  const StatTypes: seq<string> := ["mean", "sum", "max", "min"]

  ghost predicate Distinct<T>(s: seq<T>)
  {
    forall i, j :: 0 <= i < j < |s| ==> s[i] != s[j]
  }

  /** Six pairwise-distinct tags, one per kind, so tag and kind determine each other. */
  lemma TagsAreDistinct()
    ensures |NodeTypes| == 6 && Distinct(NodeTypes)
    ensures forall i :: 0 <= i < 6 ==> NodeTypes[i] == Tag(AllKinds[i])
    ensures forall k1: NodeKind, k2: NodeKind :: Tag(k1) == Tag(k2) ==> k1 == k2
  {
  }

  /** Every kind's tag is a catalogue key and looks up that kind again. */
  lemma {:induction false} TagRoundTrip(k: NodeKind)
    ensures KindOfTag(Tag(k)) == Some(k)
  {
    match k
    case Input =>
    case Function =>
    case Transform =>
    case Filter =>
    case Stats =>
    case Output =>
  }

  /** Default properties of each kind, and that the two plain kinds have none. */
  lemma CatalogueDefaults()
    ensures Config(Input).properties == EmptyProperties.(input := Some("1,2,3,4,5,6"))
    ensures Config(Transform).properties == EmptyProperties.(transformType := Some("cos"), scale := Some(1.0))
    ensures Config(Filter).properties == EmptyProperties.(condition := Some(">"), threshold := Some(0.0))
    ensures Config(Stats).properties == EmptyProperties.(statType := Some("mean"))
    ensures Config(Function).properties == EmptyProperties && Config(Output).properties == EmptyProperties
  {
  }

  /** Each default option value is one of its kind's options. */
  lemma DefaultsAreOptions()
    ensures Config(Transform).properties.transformType.value in TransformTypes
    ensures Config(Filter).properties.condition.value in FilterConditions
    ensures Config(Stats).properties.statType.value in StatTypes
  {
    assert TransformTypes[0] == "cos";
    assert FilterConditions[0] == ">";
    assert StatTypes[0] == "mean";
  }

  /** The option sets have 4, 5 and 4 pairwise-distinct members. */
  lemma OptionSetsAreDistinct()
    ensures |TransformTypes| == 4 && Distinct(TransformTypes)
    ensures |FilterConditions| == 5 && Distinct(FilterConditions)
    ensures |StatTypes| == 4 && Distinct(StatTypes)
  {
  }
}
