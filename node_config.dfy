/**
 * The declarative description of one node kind and its constructor
 * `makeNodeConfig` (src/utils/nodeConfig.js).
 *
 * An omitted property of the argument object is JavaScript's `undefined`,
 * modelled as `None`; the constructor's default parameters replace it for
 * the five collection-valued properties and pass the four others through.
 */
module NodeConfig {
  import opened Wrappers

  /** A value held in a node's `values` map: the editors store strings and checkbox booleans. */
  datatype Value = Str(s: string) | Bool(b: bool)

  /** A select option: a bare literal, or an object with a `value` and a `label` (`caption` here, `label` being a keyword). */
  datatype SelectOption = Literal(literal: string) | Labelled(value: string, caption: string)

  /** A static port `{ id, side }`. */
  datatype Port = Port(id: string, side: string)

  /** A field descriptor `{ key, label, input, options?, placeholder? }` (`label` is spelt `caption`). */
  datatype Field = Field(
    key: string,
    caption: string,
    input: Option<string>,
    options: Option<seq<SelectOption>>,
    placeholder: Option<string>)

  /** The argument object of `makeNodeConfig`, every property optional. */
  datatype ConfigArgs = ConfigArgs(
    nodeType: Option<string> := None,
    title: Option<string> := None,
    icon: Option<string> := None,
    description: Option<string> := None,
    theme: Option<map<string, string>> := None,
    inputs: Option<seq<Port>> := None,
    outputs: Option<seq<Port>> := None,
    fields: Option<seq<Field>> := None,
    defaults: Option<map<string, Value>> := None)

  /**
   * The object `makeNodeConfig` returns: exactly the nine properties
   * `type, title, icon, description, theme, inputs, outputs, fields,
   * defaults` (`type` is spelt `nodeType`, `type` being a keyword here).
   */
  datatype Config = Config(
    nodeType: Option<string>,
    title: Option<string>,
    icon: Option<string>,
    description: Option<string>,
    theme: map<string, string>,
    inputs: seq<Port>,
    outputs: seq<Port>,
    fields: seq<Field>,
    defaults: map<string, Value>)

  /** `POS`: the four port sides. */
  const POS: map<string, string> := map["left" := "Left", "right" := "Right", "top" := "Top", "bottom" := "Bottom"]

  /** `POS` has the keys `left, right, top, bottom`, and no two of them name the same side. */
  lemma PosSidesDistinct()
    ensures POS.Keys == {"left", "right", "top", "bottom"}
    ensures forall a, b :: a in POS && b in POS && a != b ==> POS[a] != POS[b]
  {
  }

  /** `makeNodeConfig`: fills the omitted collections with empty ones and validates nothing. */
  function MakeNodeConfig(args: ConfigArgs): (c: Config)
    ensures c.nodeType == args.nodeType && c.title == args.title
    ensures c.icon == args.icon && c.description == args.description
    ensures args.theme.Some? ==> c.theme == args.theme.value
    ensures args.theme.None? ==> c.theme == map[]
    ensures args.inputs.Some? ==> c.inputs == args.inputs.value
    ensures args.inputs.None? ==> c.inputs == []
    ensures args.outputs.Some? ==> c.outputs == args.outputs.value
    ensures args.outputs.None? ==> c.outputs == []
    ensures args.fields.Some? ==> c.fields == args.fields.value
    ensures args.fields.None? ==> c.fields == []
    ensures args.defaults.Some? ==> c.defaults == args.defaults.value
    ensures args.defaults.None? ==> c.defaults == map[]
  {
    Config(
      args.nodeType, args.title, args.icon, args.description,
      args.theme.GetOr(map[]),
      args.inputs.GetOr([]),
      args.outputs.GetOr([]),
      args.fields.GetOr([]),
      args.defaults.GetOr(map[]))
  }

  /** A config passed back as an argument object: all nine properties present. */
  function AsArgs(c: Config): ConfigArgs {
    ConfigArgs(
      c.nodeType, c.title, c.icon, c.description,
      Some(c.theme), Some(c.inputs), Some(c.outputs), Some(c.fields), Some(c.defaults))
  }

  /** A config goes through `makeNodeConfig` unchanged. */
  lemma MakeNodeConfigOfConfig(c: Config)
    ensures MakeNodeConfig(AsArgs(c)) == c
  {
  }

  /** `makeNodeConfig` is idempotent. */
  lemma MakeNodeConfigIdempotent(args: ConfigArgs)
    ensures MakeNodeConfig(AsArgs(MakeNodeConfig(args))) == MakeNodeConfig(args)
  {
    MakeNodeConfigOfConfig(MakeNodeConfig(args));
  }

  /** The empty argument object gives the all-empty config. */
  lemma MakeNodeConfigOfNothing()
    ensures MakeNodeConfig(ConfigArgs())
         == Config(None, None, None, None, map[], [], [], [], map[])
  {
  }

  /** Nothing is rejected: duplicate field keys and duplicate port ids pass through. */
  lemma MakeNodeConfigKeepsDuplicates(f: Field, p: Port)
    ensures var c := MakeNodeConfig(ConfigArgs(inputs := Some([p]), outputs := Some([p]), fields := Some([f, f])));
      c.fields == [f, f] && c.inputs + c.outputs == [p, p]
  {
  }
}
