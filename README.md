# Node schemas and template variables of a pipeline editor, in Dafny

This project models the declarative node layer of a React Flow pipeline
editor and proves properties of it. The layer has three parts:

- **`makeNodeConfig` and `POS`** (`src/utils/nodeConfig.js`), in
  `node_config.dfy`. A config is a record of nine properties. The constructor
  fills omitted collections with empty ones and passes everything else through
  without checking it.
- **The generic node renderer** (`src/nodes/base/BaseNode.jsx`), without its
  presentation:
  - `template_vars.dfy` holds what a `textarea` field does with its text. It
    scans for `{{name}}` references with the lazy, global pattern
    `\{\{(.*?)\}\}`, under ECMAScript RegExp rules (ECMA-262 section 22.2):
    `.` stops at line terminators, and a failed attempt moves on by one
    character. It checks each name against the strict rule
    `^[a-zA-Z_][a-zA-Z0-9_]{2,49}$` to build the advisory error text. It turns
    each name that passes the loose rule `^[a-zA-Z_$][a-zA-Z0-9_$]*$` into a
    dynamic target handle with id `vars-<name>`.
  - `base_node.dfy` holds the rest. The initial values are the defaults
    overridden by the supplied values. The `NodeView` class holds the `values`
    map and its `update`, which sends the whole new map to `onChange`. It also
    has the four editors (text, checkbox, select, delete), select-option
    normalisation, and the static and dynamic handles a node exposes.
- **The registry** (`src/nodes/index.js`), in `registry.dfy`. It holds the nine
  config constants, built with `makeNodeConfig` exactly as written, plus the
  `nodeTypes` and `demoNodeConfigs` tables. A table entry refers to a constant,
  so the tables hold `ConfigName`s, and `ConfigOf` resolves them to the
  configs.

The scanner is a recursive function, `ScanFrom`. It is proved equal to the
declarative meaning of a global leftmost scan (`IsLeftmostScan`): the spans
are matches, they are in order, they do not overlap, and no match is skipped.
That meaning has exactly one solution (`LeftmostScanUnique`). The rest of the
text logic is stated about the captured names: which names are reported,
which get handles, and how the error text reads. Worked examples pin the
behaviour on concrete inputs, such as `Hello {{name}} and {{2bad}}`,
`{{{a}}`, `{{}}`, a line break inside the braces, and a repeated name.

Omitted JavaScript values (`undefined`) are `None` of `Option`. A value in a
node's `values` map is a string or a checkbox boolean (`Value`). `type` and
`label` are Dafny keywords, so they are spelt `nodeType` and `caption`.

The editor's intended design differs from its code in three places: a
schema registry that validates what it registers, static ports placed by
their declared side, and dynamic ports that form a set of names. The model
follows the code:

- The intended registry validates schemas on registration and rejects
  duplicate kinds, field keys and port ids. In the code, `makeNodeConfig`
  checks nothing (`NodeConfig.MakeNodeConfigKeepsDuplicates`), and the tables
  are object literals. Uniqueness is proved here as a property of the nine
  configs that ship (`Registry.AllWellFormed`, `Registry.KindsDistinct`).
  Nothing enforces it.
- In the intended design a static port is placed by its declared `side`. The renderer
  ignores `side`: every input is a target on the left and every output a
  source on the right (`BaseNode.StaticHandles`).
- The intended design treats dynamic port names as a set. The renderer keeps one
  handle per match, so a name used twice gives two handles with the same id
  (`TemplateVars.ExampleRepeated`). These are the only handle ids that can
  repeat (`Registry.RegisteredHandleCollisions`).

## Model

| member | source | states |
|---|---|---|
| TemplateVars.FindClose | src/nodes/base/BaseNode.jsx:113 | the lazy `.*?}}` from a position: finds the nearest `}}` with no line terminator and no earlier `}}` before it; when it finds nothing, every later `}}` is preceded by a line terminator |
| TemplateVars.MatchAt | src/nodes/base/BaseNode.jsx:113 | one attempt of the pattern at `p`: it fails unless `{{` stands at `p`, and a success ends at a `}}` at least two characters further on; the declarative match it finds is `IsMatch` (next row) |
| TemplateVars.MatchAtIsMatch | src/nodes/base/BaseNode.jsx:113 | one attempt of the pattern at `p` ends at `j` iff `p..j` is a match: `{{` at `p`, the nearest `}}` at `j`, no line terminator between them |
| TemplateVars.ScanFrom | src/nodes/base/BaseNode.jsx:113 | `matchAll` with the global flag: every span it returns is a match that starts at or after the scan's start, and the spans are in order without overlapping |
| TemplateVars.ScanCovers | src/nodes/base/BaseNode.jsx:113 | no match that starts at or after the scan's start is skipped: it lies inside a returned span |
| TemplateVars.ScanIsLeftmost | src/nodes/base/BaseNode.jsx:113 | the scan is a leftmost scan: its spans are matches, in order, non-overlapping, and none is skipped |
| TemplateVars.LeftmostScanUnique | src/nodes/base/BaseNode.jsx:113 | two leftmost scans of the same text from the same place are equal, so the declarative meaning determines the scan |
| TemplateVars.Captures | src/nodes/base/BaseNode.jsx:113-119 | `[...v.matchAll(re)].map(m => m[1])`: exactly one captured name per match |
| TemplateVars.CaptureIsDelimited | src/nodes/base/BaseNode.jsx:113 | each captured name sits between a `{{` and a `}}` of the text, holds no line terminator and no `}}` |
| TemplateVars.StrictNameIsHandleName | src/nodes/base/BaseNode.jsx:115-148 | every strictly valid name passes the loose rule; the converse fails (`$ab`, `ab`); the empty name passes neither |
| TemplateVars.Filter | src/nodes/base/BaseNode.jsx:118-120 | `Array.prototype.filter`: the result is no longer than the input and every element passes |
| TemplateVars.FilterKeeps | src/nodes/base/BaseNode.jsx:118-120 | an element of the list that passes is in the filtered list |
| TemplateVars.FilterKept | src/nodes/base/BaseNode.jsx:118-120 | an element of the filtered list is in the list and passes |
| TemplateVars.FilterCount | src/nodes/base/BaseNode.jsx:118-120 | each value occurs in the result as often as in the input if it passes, and not at all otherwise |
| TemplateVars.FilterAppend | src/nodes/base/BaseNode.jsx:118-120 | filtering keeps the order: it distributes over concatenation |
| TemplateVars.IsStrictName | src/nodes/base/BaseNode.jsx:115 | the definition of `^[a-zA-Z_][a-zA-Z0-9_]{2,49}$`: 3 to 50 characters, a letter or `_` first, then letters, digits or `_`; compared with the loose rule in `StrictNameIsHandleName` |
| TemplateVars.IsHandleName | src/nodes/base/BaseNode.jsx:148 | the definition of `^[a-zA-Z_$][a-zA-Z0-9_$]*$`: at least one character, a letter, `_` or `$` first, then letters, digits, `_` or `$` |
| TemplateVars.Join | src/nodes/base/BaseNode.jsx:126 | the definition of `join(sep)`: nothing for no element, the element alone for one, else the first, the separator and the join of the rest; its properties are `JoinSnoc` and `JoinOffset` |
| TemplateVars.JoinSnoc | src/nodes/base/BaseNode.jsx:126 | `join(sep)` of a list plus one element is the join of the list, the separator and the element |
| TemplateVars.JoinOffset | src/nodes/base/BaseNode.jsx:126 | every element of a list occurs in its join, at the returned offset |
| TemplateVars.InvalidNames | src/nodes/base/BaseNode.jsx:118-120 | `invalidVars`: at most one name per capture, and each fails the strict rule; the exact multiplicities are in `InvalidNamesExact` |
| TemplateVars.HasError | src/nodes/base/BaseNode.jsx:122 | the definition of `hasError` as "`invalidVars` is not empty"; what that means for the text is `HasErrorIff` |
| TemplateVars.ErrorText | src/nodes/base/BaseNode.jsx:123-127 | the definition of `errorText`; its shape is `ErrorTextShape` and its contents `ErrorTextNamesAll` |
| TemplateVars.HandleNames | src/nodes/base/BaseNode.jsx:147-148 | the captured names kept for handles: at most one per capture, and each passes the loose rule |
| TemplateVars.HandleIds | src/nodes/base/BaseNode.jsx:147-152 | one id per kept name; that each id is `vars-` + its name, in match order, is `HandleIdsExact` |
| TemplateVars.InvalidNamesExact | src/nodes/base/BaseNode.jsx:118-120 | `invalidVars` holds only names that fail the strict rule, each as often as it was captured, and no name that passes |
| TemplateVars.HasErrorIff | src/nodes/base/BaseNode.jsx:122 | `hasError` holds iff some captured name fails the strict rule |
| TemplateVars.ErrorTextShape | src/nodes/base/BaseNode.jsx:123-127 | the error text is empty iff nothing is invalid; otherwise it starts with `Invalid variable name`, has an `s` next iff more than one name is invalid, and ends with a space; with one invalid name it reads exactly `Invalid variable name: <name> ` |
| TemplateVars.ErrorTextNamesAll | src/nodes/base/BaseNode.jsx:123-127 | the error text contains every invalid name |
| TemplateVars.HandleIdsExact | src/nodes/base/BaseNode.jsx:147-152 | one handle id per captured name that passes the loose rule, `vars-` + name, in match order; each name is kept as often as it was captured |
| TemplateVars.HandleIdsArePrefixed | src/nodes/base/BaseNode.jsx:152 | every dynamic handle id starts with `vars-` |
| TemplateVars.EveryCaptureAccounted | src/nodes/base/BaseNode.jsx:118-148 | every captured name is reported invalid or gets a handle, and every strictly valid name gets a handle |
| TemplateVars.ExampleOneValidOneInvalid | src/nodes/base/BaseNode.jsx:113-158 | `Hello {{name}} and {{2bad}}` captures `name` and `2bad`, reports `Invalid variable name: 2bad ` and has the single handle `vars-name` |
| TemplateVars.ExampleExtraBrace | src/nodes/base/BaseNode.jsx:113 | `{{{a}}` captures `{a`: a third brace stays in the name |
| TemplateVars.ExampleEmpty | src/nodes/base/BaseNode.jsx:113-148 | `{{}}` captures the empty name, which is reported invalid and gets no handle |
| TemplateVars.ExampleLineBreak | src/nodes/base/BaseNode.jsx:113 | `{{a` + line feed + `b}}` holds no match |
| TemplateVars.ExampleRepeated | src/nodes/base/BaseNode.jsx:147-158 | `{{$x}}{{$x}}` gives two handles with the same id `vars-$x` and the plural error `Invalid variable names: $x, $x ` |
| NodeConfig.PosSidesDistinct | src/utils/nodeConfig.js:2 | `POS` has the keys `left, right, top, bottom`, mapped to four different sides |
| NodeConfig.MakeNodeConfig | src/utils/nodeConfig.js:4-16 | `type, title, icon, description` pass through; an omitted `theme` or `defaults` becomes empty, and so does an omitted `inputs`, `outputs` or `fields`; anything supplied passes through unchanged |
| NodeConfig.MakeNodeConfigOfConfig | src/utils/nodeConfig.js:4-16 | a config passed back as arguments comes out unchanged |
| NodeConfig.MakeNodeConfigIdempotent | src/utils/nodeConfig.js:4-16 | applying `makeNodeConfig` to its own output gives the same config |
| NodeConfig.MakeNodeConfigOfNothing | src/utils/nodeConfig.js:9-13 | the empty argument object gives undefined scalars and empty collections |
| NodeConfig.MakeNodeConfigKeepsDuplicates | src/utils/nodeConfig.js:4-16 | nothing is validated: duplicate fields and duplicate port ids pass through |
| BaseNode.EffectiveConfig | src/nodes/base/BaseNode.jsx:14-25 | a given config is used as is; a missing one reads as `{}` with the destructuring defaults: no fields, ports or defaults |
| BaseNode.InitialValues | src/nodes/base/BaseNode.jsx:27-30 | the initial values hold the keys of the defaults and of the supplied values; a supplied value wins, and a default fills every other key |
| BaseNode.DisplayValue | src/nodes/base/BaseNode.jsx:85 | the definition of `values[f.key] ?? ""`: the stored value, or `""` for a key with none |
| BaseNode.DisplayedInitialValue | src/nodes/base/BaseNode.jsx:85 | a field editor is first given its supplied value, else its default, else `""` |
| BaseNode.OptionValue | src/nodes/base/BaseNode.jsx:102 | the definition of `opt.value ?? opt`: a bare option stands for itself, an object option for its `value` |
| BaseNode.OptionLabel | src/nodes/base/BaseNode.jsx:103 | the definition of `opt.label ?? opt`: a bare option shows itself, an object option its `label` |
| BaseNode.OptionValues | src/nodes/base/BaseNode.jsx:101-102 | a select offers one value per option, in order (none when `options` is missing) |
| BaseNode.SelectedIndex | src/nodes/base/BaseNode.jsx:92-106 | the option a controlled `<select value={v}>` selects by value: one whose value is `v` with no earlier option of that value; none iff no option stands for `v` |
| BaseNode.DisplayedOption | src/nodes/base/BaseNode.jsx:92-106 | the option a controlled select displays: the one whose value is `v` when there is one, else the first option; none only for a select without options |
| BaseNode.SelectShowsPicked | src/nodes/base/BaseNode.jsx:92-106 | when the option values are distinct, the value stored by picking option `i` makes the select show option `i`, with its label |
| BaseNode.SelectDuplicateShowsFirst | src/nodes/base/BaseNode.jsx:92-106 | with two options of the same value, picking the second stores that value and the select shows the first option's label |
| BaseNode.VariableHandles | src/nodes/base/BaseNode.jsx:147-158 | one target handle on the left per dynamic handle id, carrying that id, in order |
| BaseNode.OwnHandles | src/nodes/base/BaseNode.jsx:112-158 | a field that is not a textarea has no handles; rendering fails iff a textarea holds a boolean; otherwise a textarea's handles are the `VariableHandles` of its text: one `vars-<name>` target on the left per captured name that passes the loose rule, in match order |
| BaseNode.FieldCapturesMembers | src/nodes/base/BaseNode.jsx:84-113 | a name is captured over the node's fields iff the text of one of them captures it |
| BaseNode.FieldHandles | src/nodes/base/BaseNode.jsx:84-161 | rendering the fields fails iff some textarea holds a boolean; otherwise the variable handles are exactly one `vars-<name>` target on the left per captured name that passes the loose rule, field by field and in match order, repeats kept |
| BaseNode.FieldHandleIdsFromTextareas | src/nodes/base/BaseNode.jsx:84-161 | a variable handle carries an id iff that id is among the `HandleIds` of some textarea's text |
| BaseNode.StaticHandles | src/nodes/base/BaseNode.jsx:203-230 | every input is a target on the left and every output a source on the right, in order, whatever their `side` |
| BaseNode.NodeHandles | src/nodes/base/BaseNode.jsx:147-230 | rendering fails iff some textarea holds a boolean; otherwise the node's handles are the variable handles of its textareas' names, as in `FieldHandles`, followed by the static handles |
| BaseNode.NameCount | src/nodes/base/BaseNode.jsx:147-148 | a name that passes the loose rule is among the node's handle names exactly as often as its textareas capture it |
| BaseNode.RepeatedIdIsRepeatedName | src/nodes/base/BaseNode.jsx:147-152 | two variable handles share an id only when their common name passes the loose rule and is captured at least twice over the node's textareas |
| BaseNode.RepeatedNameRepeatsId | src/nodes/base/BaseNode.jsx:147-152 | a name that passes the loose rule and is captured at least twice gives two handles with the id `vars-<name>` |
| BaseNode.NodeView.constructor | src/nodes/base/BaseNode.jsx:14-31 | a new node holds the initial values of its effective config and has sent nothing to its callbacks |
| BaseNode.NodeView.Update | src/nodes/base/BaseNode.jsx:33-38 | `update(key, v)` sets only `key`, and every other field's editor is given what it was given before; with an `onChange`, the node id and the complete new map are sent to it |
| BaseNode.NodeView.EditText | src/nodes/base/BaseNode.jsx:135 | a keystroke in a textarea (or in a text or number field, :188) stores the new text under the field's key; a textarea's variable handles become those of the new text, and every field with another key keeps its handles |
| BaseNode.NodeView.EditCheckbox | src/nodes/base/BaseNode.jsx:173 | ticking a checkbox stores its boolean under the field's key |
| BaseNode.NodeView.EditSelect | src/nodes/base/BaseNode.jsx:92-106 | picking an option stores that option's value under the field's key; when the option values are distinct, the select then shows the picked option |
| BaseNode.NodeView.RequestDelete | src/nodes/base/BaseNode.jsx:60 | the delete button sends the node id to `onDelete` when there is one, and changes nothing else |
| Registry.ConfigDeclaresKind | src/nodes/index.js:5-151 | every config's `type` is the key its component is registered under in `nodeTypes` |
| Registry.NodeTypesHasEveryKind | src/nodes/index.js:141-151 | `nodeTypes` registers each of the nine constants under its kind |
| Registry.NodeTypesOnlyKinds | src/nodes/index.js:141-151 | every `nodeTypes` key is the kind of the constant registered under it |
| Registry.NodeTypesKeyedByKind | src/nodes/index.js:5-151 | each `nodeTypes` key equals the `type` of the config it wraps, and every config is registered under its own `type` |
| Registry.KindsDistinct | src/nodes/index.js:5-139 | no two of the nine configs share a `type` |
| Registry.NodeTypesHoldAll | src/nodes/index.js:141-151 | `nodeTypes` holds a component for each of the nine configs and nothing else |
| Registry.DemoConfigsByConstName | src/nodes/index.js:153-163 | `demoNodeConfigs` is written in shorthand: each key is the name of the constant it holds, and every constant is listed |
| Registry.DemoConfigsHoldAll | src/nodes/index.js:153-163 | `demoNodeConfigs` holds the same nine configs as `nodeTypes` |
| Registry.InputNodeWellFormed | src/nodes/index.js:5-17 | `inputNode`: field keys and port ids are distinct, every default names a field, select defaults are offered, select option values are distinct, and no port id starts with `vars-` |
| Registry.OutputNodeWellFormed | src/nodes/index.js:19-29 | the same well-formedness for `outputNode` |
| Registry.LLMNodeWellFormed | src/nodes/index.js:31-48 | the same well-formedness for `llmNode` |
| Registry.TextNodeWellFormed | src/nodes/index.js:50-62 | the same well-formedness for `textNode` |
| Registry.CsvInputWellFormed | src/nodes/index.js:65-78 | the same well-formedness for `csvInput` |
| Registry.PromptTemplateWellFormed | src/nodes/index.js:80-92 | the same well-formedness for `promptTemplate`, whose port `vars` does not start with `vars-` |
| Registry.RegexCleanWellFormed | src/nodes/index.js:94-107 | the same well-formedness for `regexClean` |
| Registry.RandomNumberWellFormed | src/nodes/index.js:110-125 | the same well-formedness for `randomNumber`, whose port `value` does not start with `vars-` |
| Registry.MathAggregateWellFormed | src/nodes/index.js:127-139 | the same well-formedness for `mathAggregate` |
| Registry.AllWellFormed | src/nodes/index.js:5-139 | every registered config is well formed |
| Registry.SelectDefaultsNamed | src/nodes/index.js:74-77 | the select defaults `Paste`, `Remove` (:104-106) and `sum` (:136-138) are among their fields' option values |
| Registry.InputAndOutputPorts | src/nodes/index.js:11-26 | `inputNode` has no inputs and the single port `out`; `outputNode` has the single port `in` and no outputs |
| Registry.LlmModelHasNoDefault | src/nodes/index.js:39-47 | `llmNode`'s `model` select has no default: `values` holds no `model`, the select's `value` prop starts as `""`, which no option stands for, and so it displays its first option `GPT-3.5` |
| Registry.HandleIdCollisionsAreVariables | src/nodes/base/BaseNode.jsx:147-230 | when a config's port ids are distinct and none starts with `vars-`, two handles of a node share an id only if both are variable handles `vars-<name>` whose name passes the loose rule and is captured at least twice over the node's textareas |
| Registry.RegisteredHandleCollisions | src/nodes/base/BaseNode.jsx:147-230 | for every registered kind, including `promptTemplate` with its port `vars`, two handles share an id iff a template captures a name that passes the loose rule at least twice; static ids never collide |
| Registry.RegisteredSelectShowsPicked | src/nodes/base/BaseNode.jsx:92-106 | every registered select has distinct option values, so picking any option makes it show that option |

## Left out

- The graph store (node and edge collections, id generation, connect and delete) is imported by `src/ui.js` from `./store`, which is not part of this model.
- `src/submit.js` is left out. It posts the graph over HTTP and shows alerts (network and UI).
- `src/ui.js` is left out: React Flow wiring, drag and drop, screen coordinates, and the stacked placement of new nodes, which depends on the store.
- `src/nodes/base/createNode.js` only injects the config into the node's `data`. A component is identified here with the config constant it wraps (`Registry.ConfigName`).
- `src/App.js` is page layout only.
- Styling, colours, icons and `theme` tokens are kept as data in the configs, but how they are drawn is not modelled.
- React machinery is not modelled. `useMemo` recomputation and re-rendering are left out. The `values` state is set once, when the `NodeView` is constructed, so later changes to `data.values` are ignored, as `useState` does.
- `onChange` and `onDelete` are external callbacks. `NodeView` records the calls made to them (`changes`, `deleteRequests`) rather than running them.
- JavaScript `null`, numbers, and option objects that lack a `value` or a `label` are not modelled. Only omitted (`undefined`) properties are.
- Extra properties in the argument of `makeNodeConfig` are not modelled. The argument has exactly the nine properties the function reads, so dropping the others is not shown.
- BaseNode.OwnHandles: a textarea holding a checkbox boolean makes `v.matchAll` throw. The model returns `None` for it instead of modelling the exception.
- BaseNode.DisplayValue: `values[f.key]` reads a plain JavaScript object, so a field key naming an `Object.prototype` member (`constructor`, `toString`) with no stored value yields that member, and a textarea then throws in `v.matchAll`. Such keys are not modelled: the model shows `""` for them. No registered field has such a key.
- BaseNode.DisplayedOption: when no option stands for the value, React selects the first enabled option. Options carry no `disabled` flag here, so that is the first option.
- Registry.LlmModelHasNoDefault: the `model` select displays `GPT-3.5` while `values` holds no `model`. Re-picking the displayed option fires no `change` event in the browser, so `gpt-3.5` can be stored only after picking `gpt-4` first. DOM events are not modelled: `BaseNode.NodeView.EditSelect` stores whichever option is picked.
- BaseNode.NodeView.EditText: React passes the editor's text through as is. The number editor's conversion of input in the browser is not modelled.
- A lookup of an unknown kind in `nodeTypes` is a plain JavaScript property read. The model states which keys exist and does not model the `undefined` result.
