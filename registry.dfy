/**
 * The nine node kinds and the two lookup tables built from them
 * (src/nodes/index.js), with the well-formedness the renderer relies on.
 */
module Registry {
  import opened Wrappers
  import opened NodeConfig
  import opened BaseNode
  import TemplateVars

  // ---------------------------------------------------------------------------
  // The nine configs
  // ---------------------------------------------------------------------------

  const InputNodeConfig: Config := MakeNodeConfig(ConfigArgs(
    nodeType := Some("inputNode"),
    title := Some("Input"),
    icon := Some("material-symbols:input-rounded"),
    description := Some("Pipeline input node"),
    theme := Some(map["borderColor" := "#3b82f6"]),
    inputs := Some([]),
    outputs := Some([Port("out", POS["right"])]),
    fields := Some([Field("value", "Value", Some("text"), None, Some("Enter input..."))]),
    defaults := Some(map["value" := Str("")])))

  const OutputNodeConfig: Config := MakeNodeConfig(ConfigArgs(
    nodeType := Some("outputNode"),
    title := Some("Output"),
    icon := Some("material-symbols:output-rounded"),
    description := Some("Pipeline output node"),
    theme := Some(map["borderColor" := "#f43f5e"]),
    inputs := Some([Port("in", POS["left"])]),
    outputs := Some([]),
    fields := Some([]),
    defaults := Some(map[])))

  const LLMNodeConfig: Config := MakeNodeConfig(ConfigArgs(
    nodeType := Some("llmNode"),
    title := Some("LLM"),
    icon := Some("ph:open-ai-logo"),
    description := Some("Language model node"),
    theme := Some(map["borderColor" := "#22c55e"]),
    inputs := Some([Port("prompt", POS["left"])]),
    outputs := Some([Port("response", POS["right"])]),
    fields := Some([Field("model", "Model", Some("select"),
      Some([Labelled("gpt-3.5", "GPT-3.5"), Labelled("gpt-4", "GPT-4")]), None)]),
    defaults := Some(map[])))

  const TextNodeConfig: Config := MakeNodeConfig(ConfigArgs(
    nodeType := Some("textNode"),
    title := Some("Text"),
    icon := Some("icon-park-outline:text"),
    description := Some("Provide static text / Valid variable Name"),
    theme := Some(map["borderColor" := "#eab308"]),
    inputs := Some([]),
    outputs := Some([Port("text", POS["right"])]),
    fields := Some([Field("text", "Text", Some("textarea"), None, Some("Enter valid variables using {{}}"))]),
    defaults := Some(map["text" := Str("")])))

  const CsvInputConfig: Config := MakeNodeConfig(ConfigArgs(
    nodeType := Some("csvInput"),
    title := Some("CSV Input"),
    icon := Some("line-md:file"),
    description := Some("Provide CSV text or URL to feed data."),
    theme := Some(map["borderColor" := "#0ea5e9"]),
    inputs := Some([]),
    outputs := Some([Port("data", POS["right"])]),
    fields := Some([
      Field("mode", "Mode", Some("select"), Some([Literal("Paste"), Literal("URL")]), None),
      Field("payload", "CSV / URL", Some("textarea"), None, Some("Paste CSV or enter https://..."))]),
    defaults := Some(map["mode" := Str("Paste"), "payload" := Str("")])))

  const PromptTemplateConfig: Config := MakeNodeConfig(ConfigArgs(
    nodeType := Some("promptTemplate"),
    title := Some("Prompt Template"),
    icon := Some("icon-park-outline:page-template"),
    description := Some("Templatize prompts with {{variables}}."),
    theme := Some(map["borderColor" := "#22c55e"]),
    inputs := Some([Port("vars", POS["left"])]),
    outputs := Some([Port("prompt", POS["right"])]),
    fields := Some([Field("template", "Template", Some("textarea"), None, Some("e.g. Summarize: {{text}}"))]),
    defaults := Some(map["template" := Str("")])))

  const RegexCleanConfig: Config := MakeNodeConfig(ConfigArgs(
    nodeType := Some("regexClean"),
    title := Some("Regex Clean"),
    icon := Some("lucide:regex"),
    description := Some("Remove matches or extract groups with RegExp."),
    theme := Some(map["borderColor" := "#f59e0b"]),
    inputs := Some([Port("text", POS["left"])]),
    outputs := Some([Port("cleaned", POS["right"])]),
    fields := Some([
      Field("pattern", "Pattern", Some("text"), None, Some("\\d+")),
      Field("mode", "Mode", Some("select"), Some([Literal("Remove"), Literal("Extract")]), None)]),
    defaults := Some(map["pattern" := Str(""), "mode" := Str("Remove")])))

  const RandomNumberConfig: Config := MakeNodeConfig(ConfigArgs(
    nodeType := Some("randomNumber"),
    title := Some("Random Number"),
    icon := Some("mingcute:random-line"),
    description := Some("Generates a random number between min and max."),
    theme := Some(map["borderColor" := "#10b981"]),
    inputs := Some([Port("min", POS["left"]), Port("max", POS["left"])]),
    outputs := Some([Port("value", POS["right"])]),
    fields := Some([Field("integer", "Integer Only", Some("checkbox"), None, Some(""))]),
    defaults := Some(map["integer" := Bool(false)])))

  const MathAggregateConfig: Config := MakeNodeConfig(ConfigArgs(
    nodeType := Some("mathAggregate"),
    title := Some("Math Aggregate"),
    icon := Some("ph:math-operations-fill"),
    description := Some("Aggregate numbers (sum/avg/min/max)."),
    theme := Some(map["borderColor" := "#8b5cf6"]),
    inputs := Some([Port("numbers", POS["left"])]),
    outputs := Some([Port("result", POS["right"])]),
    fields := Some([Field("op", "Operation", Some("select"),
      Some([Literal("sum"), Literal("avg"), Literal("min"), Literal("max")]), None)]),
    defaults := Some(map["op" := Str("sum")])))

  /**
   * The nine exported config constants, by name. A table entry refers to a
   * constant, never to a copy of it, so the tables below hold these names
   * and `ConfigOf` resolves them.
   */
  datatype ConfigName =
    | InputNode | OutputNode | LLMNode | TextNode | CsvInput
    | PromptTemplate | RegexClean | RandomNumber | MathAggregate

  function ConfigOf(n: ConfigName): Config {
    match n
    case InputNode => InputNodeConfig
    case OutputNode => OutputNodeConfig
    case LLMNode => LLMNodeConfig
    case TextNode => TextNodeConfig
    case CsvInput => CsvInputConfig
    case PromptTemplate => PromptTemplateConfig
    case RegexClean => RegexCleanConfig
    case RandomNumber => RandomNumberConfig
    case MathAggregate => MathAggregateConfig
  }

  /** The identifier the constant is exported under. */
  function ConstName(n: ConfigName): string {
    match n
    case InputNode => "InputNodeConfig"
    case OutputNode => "OutputNodeConfig"
    case LLMNode => "LLMNodeConfig"
    case TextNode => "TextNodeConfig"
    case CsvInput => "CsvInputConfig"
    case PromptTemplate => "PromptTemplateConfig"
    case RegexClean => "RegexCleanConfig"
    case RandomNumber => "RandomNumberConfig"
    case MathAggregate => "MathAggregateConfig"
  }

  /** The key `nodeTypes` registers the constant's component under. */
  function KindOf(n: ConfigName): string {
    match n
    case InputNode => "inputNode"
    case OutputNode => "outputNode"
    case LLMNode => "llmNode"
    case TextNode => "textNode"
    case CsvInput => "csvInput"
    case PromptTemplate => "promptTemplate"
    case RegexClean => "regexClean"
    case RandomNumber => "randomNumber"
    case MathAggregate => "mathAggregate"
  }

  /** The nine constants, in the order of the two tables. */
  const AllNames: seq<ConfigName> := [
    InputNode, OutputNode, LLMNode, TextNode, CsvInput,
    PromptTemplate, RegexClean, RandomNumber, MathAggregate]

  /** `nodeTypes`: each kind's component, identified here with the config constant it injects. */
  const NodeTypes: map<string, ConfigName> := map[
    "inputNode" := InputNode,
    "outputNode" := OutputNode,
    "llmNode" := LLMNode,
    "textNode" := TextNode,
    "csvInput" := CsvInput,
    "promptTemplate" := PromptTemplate,
    "regexClean" := RegexClean,
    "randomNumber" := RandomNumber,
    "mathAggregate" := MathAggregate]

  /** `demoNodeConfigs`: the configs in object shorthand, keyed by their constants' names. */
  const DemoNodeConfigs: map<string, ConfigName> := map[
    "InputNodeConfig" := InputNode,
    "OutputNodeConfig" := OutputNode,
    "LLMNodeConfig" := LLMNode,
    "TextNodeConfig" := TextNode,
    "CsvInputConfig" := CsvInput,
    "PromptTemplateConfig" := PromptTemplate,
    "RegexCleanConfig" := RegexClean,
    "RandomNumberConfig" := RandomNumber,
    "MathAggregateConfig" := MathAggregate]

  // ---------------------------------------------------------------------------
  // Well-formedness
  // ---------------------------------------------------------------------------

  /** The ids of the static ports, inputs first. */
  function PortIds(c: Config): (ids: seq<string>)
    ensures |ids| == |c.inputs| + |c.outputs|
    ensures forall k :: 0 <= k < |c.inputs| ==> ids[k] == c.inputs[k].id
    ensures forall k :: 0 <= k < |c.outputs| ==> ids[|c.inputs| + k] == c.outputs[k].id
  {
    var ports := c.inputs + c.outputs;
    seq(|ports|, k requires 0 <= k < |ports| => ports[k].id)
  }

  /** The keys of the fields, in order. */
  function FieldKeys(c: Config): (keys: seq<string>)
    ensures |keys| == |c.fields|
    ensures forall k :: 0 <= k < |c.fields| ==> keys[k] == c.fields[k].key
  {
    seq(|c.fields|, k requires 0 <= k < |c.fields| => c.fields[k].key)
  }

  /** No two fields edit the same key of `values`. */
  predicate FieldKeysDistinct(c: Config) {
    Distinct(FieldKeys(c))
  }

  /** No two static ports share a handle id. */
  predicate PortIdsDistinct(c: Config) {
    Distinct(PortIds(c))
  }

  /** Every default belongs to a field. */
  predicate DefaultsNameFields(c: Config) {
    forall key :: key in c.defaults ==> key in FieldKeys(c)
  }

  /** A select field's default, where it has one, is one of its option values. */
  predicate SelectDefaultsOffered(c: Config) {
    forall i :: 0 <= i < |c.fields| && c.fields[i].input == Some("select") && c.fields[i].key in c.defaults ==>
      c.defaults[c.fields[i].key].Str? && c.defaults[c.fields[i].key].s in OptionValues(c.fields[i])
  }

  /** The options of every select stand for distinct values, so the select shows the option picked. */
  predicate SelectOptionsDistinct(c: Config) {
    forall i :: 0 <= i < |c.fields| && c.fields[i].input == Some("select") ==> Distinct(OptionValues(c.fields[i]))
  }

  /** No static port id could be mistaken for a variable handle. */
  predicate NoVarsPrefixedPort(c: Config) {
    forall id :: id in PortIds(c) ==> !TemplateVars.StartsWith(id, TemplateVars.VarsPrefix)
  }

  predicate WellFormed(c: Config) {
    && FieldKeysDistinct(c)
    && PortIdsDistinct(c)
    && DefaultsNameFields(c)
    && SelectDefaultsOffered(c)
    && SelectOptionsDistinct(c)
    && NoVarsPrefixedPort(c)
  }

  // ---------------------------------------------------------------------------
  // Properties of the registry
  // ---------------------------------------------------------------------------

  /** `AllNames` lists every constant exactly once. */
  lemma AllNamesListsEachOnce()
    ensures forall n :: n in AllNames
    ensures forall i, j :: 0 <= i < j < |AllNames| ==> AllNames[i] != AllNames[j]
  {
    forall n ensures n in AllNames {
      match n
      case InputNode => assert AllNames[0] == n;
      case OutputNode => assert AllNames[1] == n;
      case LLMNode => assert AllNames[2] == n;
      case TextNode => assert AllNames[3] == n;
      case CsvInput => assert AllNames[4] == n;
      case PromptTemplate => assert AllNames[5] == n;
      case RegexClean => assert AllNames[6] == n;
      case RandomNumber => assert AllNames[7] == n;
      case MathAggregate => assert AllNames[8] == n;
    }
  }

  /** `c`, the config of constant `n`, declares the kind `n` is registered under. */
  predicate DeclaresKind(n: ConfigName, c: Config) {
    c.nodeType == Some(KindOf(n))
  }

  lemma DeclaresKind1()
    ensures DeclaresKind(InputNode, InputNodeConfig)
    ensures DeclaresKind(OutputNode, OutputNodeConfig)
    ensures DeclaresKind(LLMNode, LLMNodeConfig)
  {
  }

  lemma DeclaresKind2()
    ensures DeclaresKind(TextNode, TextNodeConfig)
    ensures DeclaresKind(CsvInput, CsvInputConfig)
    ensures DeclaresKind(PromptTemplate, PromptTemplateConfig)
  {
  }

  lemma DeclaresKind3()
    ensures DeclaresKind(RegexClean, RegexCleanConfig)
    ensures DeclaresKind(RandomNumber, RandomNumberConfig)
    ensures DeclaresKind(MathAggregate, MathAggregateConfig)
  {
  }

  /** Every config's `type` is the key its component is registered under. */
  lemma ConfigDeclaresKind(n: ConfigName)
    ensures ConfigOf(n).nodeType == Some(KindOf(n))
  {
    DeclaresKind1();
    DeclaresKind2();
    DeclaresKind3();
    assert DeclaresKind(n, ConfigOf(n));
  }

  /** `nodeTypes` files each constant under its kind ... */
  lemma NodeTypesHasEveryKind(n: ConfigName)
    ensures KindOf(n) in NodeTypes && NodeTypes[KindOf(n)] == n
  {
  }

  /** ... and holds nothing else. */
  lemma NodeTypesOnlyKinds(key: string)
    requires key in NodeTypes
    ensures KindOf(NodeTypes[key]) == key
  {
  }

  /** Each `nodeTypes` key is the kind of the config it wraps, and every config is filed under its kind. */
  lemma NodeTypesKeyedByKind()
    ensures forall key :: key in NodeTypes ==> ConfigOf(NodeTypes[key]).nodeType == Some(key)
    ensures forall n :: ConfigOf(n).nodeType.Some? && ConfigOf(n).nodeType.value in NodeTypes
                     && NodeTypes[ConfigOf(n).nodeType.value] == n
  {
    forall key | key in NodeTypes ensures ConfigOf(NodeTypes[key]).nodeType == Some(key) {
      NodeTypesOnlyKinds(key);
      ConfigDeclaresKind(NodeTypes[key]);
    }
    forall n ensures ConfigOf(n).nodeType.Some? && ConfigOf(n).nodeType.value in NodeTypes
                  && NodeTypes[ConfigOf(n).nodeType.value] == n {
      ConfigDeclaresKind(n);
      NodeTypesHasEveryKind(n);
    }
  }

  /** No two configs share a kind. */
  lemma KindsDistinct()
    ensures forall n, m :: ConfigOf(n).nodeType == ConfigOf(m).nodeType ==> n == m
  {
    forall n, m | ConfigOf(n).nodeType == ConfigOf(m).nodeType ensures n == m {
      ConfigDeclaresKind(n);
      ConfigDeclaresKind(m);
      NodeTypesHasEveryKind(n);
      NodeTypesHasEveryKind(m);
    }
  }

  /** `demoNodeConfigs` is written in shorthand: each key is the name of the constant it holds. */
  lemma DemoConfigsByConstName()
    ensures forall key :: key in DemoNodeConfigs ==> ConstName(DemoNodeConfigs[key]) == key
    ensures forall n :: ConstName(n) in DemoNodeConfigs && DemoNodeConfigs[ConstName(n)] == n
  {
  }

  /** `nodeTypes` holds a component for each of the nine configs and nothing else. */
  lemma NodeTypesHoldAll()
    ensures NodeTypes.Values == set n | n in AllNames
  {
    AllNamesListsEachOnce();
    forall n | n in AllNames ensures n in NodeTypes.Values {
      NodeTypesHasEveryKind(n);
    }
  }

  /** `demoNodeConfigs` holds the same nine configs. */
  lemma DemoConfigsHoldAll()
    ensures DemoNodeConfigs.Values == set n | n in AllNames
  {
    DemoConfigsByConstName();
    AllNamesListsEachOnce();
    forall n | n in AllNames ensures n in DemoNodeConfigs.Values {
      assert DemoNodeConfigs[ConstName(n)] == n;
    }
  }

  /** An id shorter than `vars-` or not starting with `v` is not a variable handle id. */
  lemma NoPortLooksLikeVariable(ids: seq<string>)
    requires forall id :: id in ids ==> |id| < |TemplateVars.VarsPrefix| || id[0] != 'v'
    ensures forall id :: id in ids ==> !TemplateVars.StartsWith(id, TemplateVars.VarsPrefix)
  {
    forall id | id in ids ensures !TemplateVars.StartsWith(id, TemplateVars.VarsPrefix) {
      if |id| >= |TemplateVars.VarsPrefix| {
        assert id[..|TemplateVars.VarsPrefix|][0] == id[0] != TemplateVars.VarsPrefix[0];
      }
    }
  }

  lemma InputNodeWellFormed()
    ensures WellFormed(InputNodeConfig)
  {
    var c := InputNodeConfig;
    assert FieldKeys(c) == ["value"];
    assert PortIds(c) == ["out"];
    assert FieldKeysDistinct(c);
    assert PortIdsDistinct(c);
    assert DefaultsNameFields(c);
    assert SelectDefaultsOffered(c);
    assert SelectOptionsDistinct(c);
    NoPortLooksLikeVariable(PortIds(c));
  }

  lemma OutputNodeWellFormed()
    ensures WellFormed(OutputNodeConfig)
  {
    var c := OutputNodeConfig;
    assert FieldKeys(c) == [];
    assert PortIds(c) == ["in"];
    assert FieldKeysDistinct(c);
    assert PortIdsDistinct(c);
    assert DefaultsNameFields(c);
    assert SelectDefaultsOffered(c);
    assert SelectOptionsDistinct(c);
    NoPortLooksLikeVariable(PortIds(c));
  }

  lemma LLMNodeWellFormed()
    ensures WellFormed(LLMNodeConfig)
  {
    var c := LLMNodeConfig;
    assert FieldKeys(c) == ["model"];
    assert PortIds(c) == ["prompt", "response"];
    assert FieldKeysDistinct(c);
    assert PortIdsDistinct(c);
    assert DefaultsNameFields(c);
    assert SelectDefaultsOffered(c);
    assert SelectOptionsDistinct(c);
    NoPortLooksLikeVariable(PortIds(c));
  }

  lemma TextNodeWellFormed()
    ensures WellFormed(TextNodeConfig)
  {
    var c := TextNodeConfig;
    assert FieldKeys(c) == ["text"];
    assert PortIds(c) == ["text"];
    assert FieldKeysDistinct(c);
    assert PortIdsDistinct(c);
    assert DefaultsNameFields(c);
    assert SelectDefaultsOffered(c);
    assert SelectOptionsDistinct(c);
    NoPortLooksLikeVariable(PortIds(c));
  }

  lemma CsvInputWellFormed()
    ensures WellFormed(CsvInputConfig)
  {
    var c := CsvInputConfig;
    assert FieldKeys(c) == ["mode", "payload"];
    assert PortIds(c) == ["data"];
    assert OptionValues(c.fields[0]) == ["Paste", "URL"];
    assert FieldKeysDistinct(c);
    assert PortIdsDistinct(c);
    assert DefaultsNameFields(c);
    assert SelectDefaultsOffered(c);
    assert SelectOptionsDistinct(c);
    NoPortLooksLikeVariable(PortIds(c));
  }

  lemma PromptTemplateWellFormed()
    ensures WellFormed(PromptTemplateConfig)
  {
    var c := PromptTemplateConfig;
    assert FieldKeys(c) == ["template"];
    assert PortIds(c) == ["vars", "prompt"];
    assert FieldKeysDistinct(c);
    assert PortIdsDistinct(c);
    assert DefaultsNameFields(c);
    assert SelectDefaultsOffered(c);
    assert SelectOptionsDistinct(c);
    NoPortLooksLikeVariable(PortIds(c));
  }

  lemma RegexCleanWellFormed()
    ensures WellFormed(RegexCleanConfig)
  {
    var c := RegexCleanConfig;
    assert FieldKeys(c) == ["pattern", "mode"];
    assert PortIds(c) == ["text", "cleaned"];
    assert OptionValues(c.fields[1]) == ["Remove", "Extract"];
    assert FieldKeysDistinct(c);
    assert PortIdsDistinct(c);
    assert DefaultsNameFields(c);
    assert SelectDefaultsOffered(c);
    assert SelectOptionsDistinct(c);
    NoPortLooksLikeVariable(PortIds(c));
  }

  lemma RandomNumberPortIds()
    ensures PortIds(RandomNumberConfig) == ["min", "max", "value"]
  {
  }

  lemma RandomNumberPortsWellFormed()
    ensures PortIdsDistinct(RandomNumberConfig) && NoVarsPrefixedPort(RandomNumberConfig)
  {
    RandomNumberPortIds();
    NoPortLooksLikeVariable(["min", "max"]);
    ValueIsNotVariable();
  }

  /** `value` starts with `v` but is still not a variable handle id. */
  lemma ValueIsNotVariable()
    ensures !TemplateVars.StartsWith("value", TemplateVars.VarsPrefix)
  {
    assert "value"[..|TemplateVars.VarsPrefix|][2] == 'l' != TemplateVars.VarsPrefix[2];
  }

  lemma RandomNumberWellFormed()
    ensures WellFormed(RandomNumberConfig)
  {
    var c := RandomNumberConfig;
    assert FieldKeys(c) == ["integer"];
    assert FieldKeysDistinct(c);
    assert DefaultsNameFields(c);
    assert SelectDefaultsOffered(c);
    assert SelectOptionsDistinct(c);
    RandomNumberPortsWellFormed();
  }

  lemma MathAggregateWellFormed()
    ensures WellFormed(MathAggregateConfig)
  {
    var c := MathAggregateConfig;
    assert FieldKeys(c) == ["op"];
    assert PortIds(c) == ["numbers", "result"];
    assert OptionValues(c.fields[0]) == ["sum", "avg", "min", "max"];
    assert FieldKeysDistinct(c);
    assert PortIdsDistinct(c);
    assert DefaultsNameFields(c);
    assert SelectDefaultsOffered(c);
    assert SelectOptionsDistinct(c);
    NoPortLooksLikeVariable(PortIds(c));
  }

  /** Every config is well formed. */
  lemma AllWellFormed(n: ConfigName)
    ensures WellFormed(ConfigOf(n))
  {
    if n.InputNode? || n.OutputNode? || n.LLMNode? {
      InputNodeWellFormed();
      OutputNodeWellFormed();
      LLMNodeWellFormed();
    } else if n.TextNode? || n.CsvInput? || n.PromptTemplate? {
      TextNodeWellFormed();
      CsvInputWellFormed();
      PromptTemplateWellFormed();
    } else {
      RegexCleanWellFormed();
      RandomNumberWellFormed();
      MathAggregateWellFormed();
    }
  }

  /** The static handles carry the port ids, in order. */
  lemma StaticHandleIds(c: Config)
    ensures var st := StaticHandles(c.inputs, c.outputs);
      |st| == |PortIds(c)| && forall k :: 0 <= k < |st| ==> st[k].id == PortIds(c)[k]
  {
    var st := StaticHandles(c.inputs, c.outputs);
    forall k | 0 <= k < |st| ensures st[k].id == PortIds(c)[k] {
      if k >= |c.inputs| {
        assert st[|c.inputs| + (k - |c.inputs|)].id == c.outputs[k - |c.inputs|].id;
      }
    }
  }

  /**
   * In a node whose static port ids are distinct and unprefixed, two
   * handles share an id only when both are variable handles and the
   * template text captures their name at least twice: the static handles
   * never collide with each other or with a variable.
   */
  lemma HandleIdCollisionsAreVariables(c: Config, vals: map<string, Value>, hs: seq<Handle>)
    requires PortIdsDistinct(c) && NoVarsPrefixedPort(c)
    requires NodeHandles(c, vals) == Some(hs)
    ensures forall i, j :: 0 <= i < j < |hs| && hs[i].id == hs[j].id ==>
      && j < |FieldHandleNames(c.fields, vals)|
      && var name := FieldHandleNames(c.fields, vals)[i];
         && hs[i].id == TemplateVars.VarsPrefix + name
         && TemplateVars.IsHandleName(name)
         && multiset(FieldCaptures(c.fields, vals))[name] >= 2
  {
    var ids := PortIds(c);
    var names := FieldHandleNames(c.fields, vals);
    var d := |names|;
    assert hs[d..] == StaticHandles(c.inputs, c.outputs);
    StaticHandleIds(c);
    forall k | 0 <= k < |ids| ensures hs[d + k].id == ids[k] {
      assert hs[d + k] == hs[d..][k];
    }
    forall k | 0 <= k < d ensures TemplateVars.StartsWith(hs[k].id, TemplateVars.VarsPrefix) {
      assert hs[k].id[..|TemplateVars.VarsPrefix|] == TemplateVars.VarsPrefix;
    }
    TailCollisions(hs, ids);
    RepeatedIdIsRepeatedName(c, vals, hs);
  }

  /**
   * A handle list that ends with distinct unprefixed ids and otherwise holds
   * only `vars-` ids can repeat an id only before that tail.
   */
  lemma TailCollisions(hs: seq<Handle>, ids: seq<string>)
    requires |ids| <= |hs| && Distinct(ids)
    requires forall k :: 0 <= k < |ids| ==> hs[|hs| - |ids| + k].id == ids[k]
    requires forall k :: 0 <= k < |hs| - |ids| ==> TemplateVars.StartsWith(hs[k].id, TemplateVars.VarsPrefix)
    requires forall id :: id in ids ==> !TemplateVars.StartsWith(id, TemplateVars.VarsPrefix)
    ensures forall i, j :: 0 <= i < j < |hs| && hs[i].id == hs[j].id ==>
      && j < |hs| - |ids|
      && TemplateVars.StartsWith(hs[i].id, TemplateVars.VarsPrefix)
      && TemplateVars.StartsWith(hs[j].id, TemplateVars.VarsPrefix)
  {
    var d := |hs| - |ids|;
    forall i, j | 0 <= i < j < |hs| && d <= j ensures hs[i].id != hs[j].id {
      assert hs[d + (j - d)].id == ids[j - d];
      assert ids[j - d] in ids;
      if d <= i {
        assert hs[d + (i - d)].id == ids[i - d];
      }
    }
  }

  /**
   * For every registered node kind, two handles share an id exactly when a
   * template captures a handle name at least twice.
   */
  lemma RegisteredHandleCollisions(n: ConfigName, vals: map<string, Value>, hs: seq<Handle>)
    requires NodeHandles(ConfigOf(n), vals) == Some(hs)
    ensures forall i, j :: 0 <= i < j < |hs| && hs[i].id == hs[j].id ==>
      && j < |FieldHandleNames(ConfigOf(n).fields, vals)|
      && var name := FieldHandleNames(ConfigOf(n).fields, vals)[i];
         && TemplateVars.IsHandleName(name)
         && multiset(FieldCaptures(ConfigOf(n).fields, vals))[name] >= 2
    ensures forall name :: TemplateVars.IsHandleName(name) && multiset(FieldCaptures(ConfigOf(n).fields, vals))[name] >= 2 ==>
      exists i, j :: 0 <= i < j < |hs| && hs[i].id == TemplateVars.VarsPrefix + name && hs[j].id == TemplateVars.VarsPrefix + name
  {
    AllWellFormed(n);
    HandleIdCollisionsAreVariables(ConfigOf(n), vals, hs);
    RepeatedNameRepeatsId(ConfigOf(n), vals, hs);
  }

  /** In every registered select, storing the value of an option makes the select show that option. */
  lemma RegisteredSelectShowsPicked(n: ConfigName, i: nat, k: nat)
    requires i < |ConfigOf(n).fields| && ConfigOf(n).fields[i].input == Some("select")
    requires k < |OptionValues(ConfigOf(n).fields[i])|
    ensures SelectedIndex(ConfigOf(n).fields[i].options.GetOr([]), OptionValues(ConfigOf(n).fields[i])[k]) == Some(k)
  {
    AllWellFormed(n);
    SelectShowsPicked(ConfigOf(n).fields[i], k);
  }

  /** `inputNode` only emits on `out`; `outputNode` only receives on `in`. */
  lemma InputAndOutputPorts()
    ensures PortIds(InputNodeConfig) == ["out"] && InputNodeConfig.inputs == []
    ensures PortIds(OutputNodeConfig) == ["in"] && OutputNodeConfig.outputs == []
  {
  }

  /** The three select defaults, `Paste`, `Remove` and `sum`, are each among their field's options. */
  lemma SelectDefaultsNamed()
    ensures CsvInputConfig.fields[0].key == "mode" && CsvInputConfig.defaults["mode"] == Str("Paste")
    ensures OptionValues(CsvInputConfig.fields[0]) == ["Paste", "URL"]
    ensures RegexCleanConfig.fields[1].key == "mode" && RegexCleanConfig.defaults["mode"] == Str("Remove")
    ensures OptionValues(RegexCleanConfig.fields[1]) == ["Remove", "Extract"]
    ensures MathAggregateConfig.fields[0].key == "op" && MathAggregateConfig.defaults["op"] == Str("sum")
    ensures OptionValues(MathAggregateConfig.fields[0]) == ["sum", "avg", "min", "max"]
  {
  }

  /**
   * Not every field has a default: the model selector of `llmNode` is given
   * `""`, which no option stands for, so it displays its first option
   * (`GPT-3.5`) while `values` holds no `model` at all.
   */
  lemma LlmModelHasNoDefault()
    ensures LLMNodeConfig.fields[0].key == "model" && "model" !in LLMNodeConfig.defaults
    ensures "model" !in InitialValues(LLMNodeConfig.defaults, None)
    ensures DisplayValue(InitialValues(LLMNodeConfig.defaults, None), "model") == Str("")
    ensures var opts := LLMNodeConfig.fields[0].options.GetOr([]);
      && SelectedIndex(opts, "") == None
      && DisplayedOption(opts, "") == Some(0)
      && OptionLabel(opts[0]) == "GPT-3.5" && OptionValue(opts[0]) == "gpt-3.5"
  {
  }
}
