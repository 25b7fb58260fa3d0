/**
 * The generic node renderer (src/nodes/base/BaseNode.jsx) without its
 * presentation: the initial values, the value store and its `update`,
 * the normalisation of select options, and the handles a node exposes.
 */
module BaseNode {
  import opened Wrappers
  import opened NodeConfig
  import TemplateVars

  // ---------------------------------------------------------------------------
  // Configuration and values
  // ---------------------------------------------------------------------------

  /** `config || {}` with the destructuring defaults: a node without a config reads as the empty one. */
  function EffectiveConfig(config: Option<Config>): (c: Config)
    ensures config.Some? ==> c == config.value
    ensures config.None? ==> c.fields == [] && c.inputs == [] && c.outputs == [] && c.defaults == map[]
  {
    match config
    case Some(given) => given
    case None => MakeNodeConfig(ConfigArgs())
  }

  /** `{ ...defaults, ...(data.values || {}) }`: the supplied values override the defaults key by key. */
  function InitialValues(defaults: map<string, Value>, supplied: Option<map<string, Value>>): (vals: map<string, Value>)
    ensures supplied.None? ==> vals == defaults
    ensures supplied.Some? ==> vals.Keys == defaults.Keys + supplied.value.Keys
    ensures supplied.Some? ==> forall k :: k in supplied.value ==> vals[k] == supplied.value[k]
    ensures supplied.Some? ==> forall k :: k in defaults && k !in supplied.value ==> vals[k] == defaults[k]
  {
    match supplied
    case Some(given) => defaults + given
    case None => defaults
  }

  /** `values[f.key] ?? ""`: the value a field editor is given. */
  function DisplayValue(vals: map<string, Value>, key: string): Value {
    if key in vals then vals[key] else Str("")
  }

  /** A field shows its supplied value, else its default, else the empty string. */
  lemma DisplayedInitialValue(defaults: map<string, Value>, supplied: Option<map<string, Value>>, key: string)
    ensures DisplayValue(InitialValues(defaults, supplied), key) ==
      if supplied.Some? && key in supplied.value then supplied.value[key]
      else if key in defaults then defaults[key]
      else Str("")
  {
  }

  // ---------------------------------------------------------------------------
  // Select options
  // ---------------------------------------------------------------------------

  /** `opt.value ?? opt`: the value a select option stands for. */
  function OptionValue(o: SelectOption): string {
    match o
    case Literal(x) => x
    case Labelled(v, _) => v
  }

  /** `opt.label ?? opt`: the text a select option shows. */
  function OptionLabel(o: SelectOption): string {
    match o
    case Literal(x) => x
    case Labelled(_, t) => t
  }

  /** `(f.options || []).map(opt => opt.value ?? opt)`: the values a select field offers. */
  function OptionValues(f: Field): (vs: seq<string>)
    ensures |vs| == |f.options.GetOr([])|
    ensures forall k :: 0 <= k < |vs| ==> vs[k] == OptionValue(f.options.GetOr([])[k])
  {
    var opts := f.options.GetOr([]);
    seq(|opts|, k requires 0 <= k < |opts| => OptionValue(opts[k]))
  }

  /** No value occurs twice. */
  predicate Distinct(xs: seq<string>) {
    forall i, j :: 0 <= i < j < |xs| ==> xs[i] != xs[j]
  }

  /**
   * The option a `<select value={v}>` shows: the first one whose value is
   * `v`, which is how a controlled select picks its option; `None` when no
   * option stands for `v`.
   */
  function SelectedIndex(opts: seq<SelectOption>, v: string): (r: Option<nat>)
    ensures r.Some? ==> r.value < |opts| && OptionValue(opts[r.value]) == v
    ensures r.Some? ==> forall k :: 0 <= k < r.value ==> OptionValue(opts[k]) != v
    ensures r.None? <==> forall k :: 0 <= k < |opts| ==> OptionValue(opts[k]) != v
    decreases |opts|
  {
    if opts == [] then None
    else if OptionValue(opts[0]) == v then Some(0)
    else
      match SelectedIndex(opts[1..], v)
      case Some(k) => Some(k + 1)
      case None => None
  }

  /**
   * The option a controlled select displays: the one `SelectedIndex` finds,
   * or, when no option stands for `v`, the first option, which React
   * selects in that case.
   */
  function DisplayedOption(opts: seq<SelectOption>, v: string): (r: Option<nat>)
    ensures r.None? <==> opts == []
    ensures SelectedIndex(opts, v).Some? ==> r == SelectedIndex(opts, v)
    ensures SelectedIndex(opts, v).None? && opts != [] ==> r == Some(0)
  {
    if opts == [] then None
    else
      match SelectedIndex(opts, v)
      case Some(k) => Some(k)
      case None => Some(0)
  }

  /**
   * When a select's option values are distinct, storing the value of option
   * `i` makes the select show option `i` again, with that option's label.
   */
  lemma SelectShowsPicked(f: Field, i: nat)
    requires Distinct(OptionValues(f)) && i < |OptionValues(f)|
    ensures var opts := f.options.GetOr([]);
      && SelectedIndex(opts, OptionValues(f)[i]) == Some(i)
      && OptionLabel(opts[SelectedIndex(opts, OptionValues(f)[i]).value]) == OptionLabel(opts[i])
  {
  }

  /**
   * Two options with the same value: picking the second stores their common
   * value, and the select then shows the first option's label.
   */
  lemma SelectDuplicateShowsFirst()
    ensures var f := Field("op", "Operation", Some("select"), Some([Labelled("a", "First"), Labelled("a", "Second")]), None);
      && OptionValues(f)[1] == "a"
      && SelectedIndex(f.options.value, OptionValues(f)[1]) == Some(0)
      && OptionLabel(f.options.value[0]) == "First"
  {
  }

  // ---------------------------------------------------------------------------
  // Handles
  // ---------------------------------------------------------------------------

  datatype HandleType = Target | Source

  /** A React Flow `Handle`: its id, its type and the side it is drawn on. */
  datatype Handle = Handle(id: string, handleType: HandleType, position: string)

  /** The handles of a textarea's variables: targets on the left with ids `vars-<name>`. */
  function VariableHandles(text: string): (hs: seq<Handle>)
    ensures |hs| == |TemplateVars.HandleIds(text)|
    ensures forall k :: 0 <= k < |hs| ==>
      hs[k].id == TemplateVars.HandleIds(text)[k] && hs[k].handleType == Target && hs[k].position == "left"
  {
    var ids := TemplateVars.HandleIds(text);
    seq(|ids|, k requires 0 <= k < |ids| => Handle(ids[k], Target, "left"))
  }

  predicate IsTextarea(f: Field) {
    f.input == Some("textarea")
  }

  /** The names the scan captures in one field: a textarea's text is scanned, no other field is. */
  function OwnCaptures(f: Field, vals: map<string, Value>): seq<string> {
    if IsTextarea(f) && DisplayValue(vals, f.key).Str? then TemplateVars.Captures(DisplayValue(vals, f.key).s) else []
  }

  /** The names captured in the fields' textareas: field by field, each in match order. */
  function FieldCaptures(fields: seq<Field>, vals: map<string, Value>): seq<string>
    decreases |fields|
  {
    if fields == [] then [] else OwnCaptures(fields[0], vals) + FieldCaptures(fields[1..], vals)
  }

  /** A name is captured over the fields iff some field's own text captures it. */
  lemma {:induction false} FieldCapturesMembers(fields: seq<Field>, vals: map<string, Value>, x: string)
    ensures x in FieldCaptures(fields, vals) <==> exists k :: 0 <= k < |fields| && x in OwnCaptures(fields[k], vals)
    decreases |fields|
  {
    if fields != [] {
      FieldCapturesMembers(fields[1..], vals, x);
      if x in FieldCaptures(fields[1..], vals) {
        var k :| 0 <= k < |fields[1..]| && x in OwnCaptures(fields[1..][k], vals);
        assert x in OwnCaptures(fields[k + 1], vals);
      }
      if exists k :: 0 <= k < |fields| && x in OwnCaptures(fields[k], vals) {
        var k :| 0 <= k < |fields| && x in OwnCaptures(fields[k], vals);
        if k > 0 {
          assert fields[k] == fields[1..][k - 1];
        }
      }
    }
  }

  /** The captured names that get a handle, over all textareas of the node. */
  function FieldHandleNames(fields: seq<Field>, vals: map<string, Value>): seq<string> {
    TemplateVars.Filter(TemplateVars.IsHandleName, FieldCaptures(fields, vals))
  }

  /** `hs` are the variable handles of `names`: one `vars-<name>` target on the left each, in order. */
  predicate NamedHandles(hs: seq<Handle>, names: seq<string>) {
    |hs| == |names| && forall k :: 0 <= k < |names| ==> hs[k] == Handle(TemplateVars.VarsPrefix + names[k], Target, "left")
  }

  lemma NamedHandlesAppend(a: seq<Handle>, na: seq<string>, b: seq<Handle>, nb: seq<string>)
    requires NamedHandles(a, na) && NamedHandles(b, nb)
    ensures NamedHandles(a + b, na + nb)
  {
    forall k | 0 <= k < |na + nb| ensures (a + b)[k] == Handle(TemplateVars.VarsPrefix + (na + nb)[k], Target, "left") {
      if k >= |na| {
        assert (a + b)[k] == b[k - |na|] && (na + nb)[k] == nb[k - |na|];
      }
    }
  }

  /**
   * The variable handles of one field: none unless it is a textarea, and
   * `None` when a textarea holds a checkbox boolean (`v.matchAll` would throw).
   */
  function OwnHandles(f: Field, vals: map<string, Value>): (r: Option<seq<Handle>>)
    ensures r.None? <==> IsTextarea(f) && DisplayValue(vals, f.key).Bool?
    ensures !IsTextarea(f) ==> r == Some([])
    ensures r.Some? && IsTextarea(f) ==> r.value == VariableHandles(DisplayValue(vals, f.key).s)
    ensures r.Some? ==> NamedHandles(r.value, TemplateVars.Filter(TemplateVars.IsHandleName, OwnCaptures(f, vals)))
  {
    if !IsTextarea(f) then Some([])
    else
      match DisplayValue(vals, f.key)
      case Str(text) =>
        TemplateVars.HandleIdsExact(text);
        Some(VariableHandles(text))
      case Bool(_) => None
  }

  /**
   * The variable handles of all fields, in field order; `None` when some
   * field's would throw. Otherwise there is one handle per captured name
   * that passes the loose rule, over all textareas, carrying `vars-<name>`.
   */
  function FieldHandles(fields: seq<Field>, vals: map<string, Value>): (r: Option<seq<Handle>>)
    ensures r.None? <==> exists k :: 0 <= k < |fields| && IsTextarea(fields[k]) && DisplayValue(vals, fields[k].key).Bool?
    ensures r.Some? ==> NamedHandles(r.value, FieldHandleNames(fields, vals))
    decreases |fields|
  {
    if fields == [] then Some([])
    else
      match (OwnHandles(fields[0], vals), FieldHandles(fields[1..], vals))
      case (Some(a), Some(b)) =>
        TemplateVars.FilterAppend(TemplateVars.IsHandleName, OwnCaptures(fields[0], vals), FieldCaptures(fields[1..], vals));
        NamedHandlesAppend(a, TemplateVars.Filter(TemplateVars.IsHandleName, OwnCaptures(fields[0], vals)),
                           b, FieldHandleNames(fields[1..], vals));
        Some(a + b)
      case _ => None
  }

  /** Some handle of `hs` carries `id`. */
  predicate CarriesId(hs: seq<Handle>, id: string) {
    exists k :: 0 <= k < |hs| && hs[k].id == id
  }

  /** `id` is among the dynamic handle ids of some textarea's text. */
  predicate TextareaYieldsId(fields: seq<Field>, vals: map<string, Value>, id: string) {
    exists i :: 0 <= i < |fields| && IsTextarea(fields[i]) && DisplayValue(vals, fields[i].key).Str?
      && id in TemplateVars.HandleIds(DisplayValue(vals, fields[i].key).s)
  }

  /** An id is carried by one of the fields' variable handles iff some textarea's text yields it. */
  lemma FieldHandleIdsFromTextareas(fields: seq<Field>, vals: map<string, Value>, hs: seq<Handle>, id: string)
    requires FieldHandles(fields, vals) == Some(hs)
    ensures CarriesId(hs, id) <==> TextareaYieldsId(fields, vals, id)
  {
    if CarriesId(hs, id) {
      HandleIdHasTextarea(fields, vals, hs, id);
    }
    if TextareaYieldsId(fields, vals, id) {
      TextareaIdHasHandle(fields, vals, hs, id);
    }
  }

  lemma HandleIdHasTextarea(fields: seq<Field>, vals: map<string, Value>, hs: seq<Handle>, id: string)
    requires FieldHandles(fields, vals) == Some(hs) && CarriesId(hs, id)
    ensures TextareaYieldsId(fields, vals, id)
  {
    var names := FieldHandleNames(fields, vals);
    var k :| 0 <= k < |hs| && hs[k].id == id;
    var name := names[k];
    TemplateVars.FilterKept(TemplateVars.IsHandleName, FieldCaptures(fields, vals), name);
    assert id == TemplateVars.VarsPrefix + name;
    FieldCapturesMembers(fields, vals, name);
    var i :| 0 <= i < |fields| && name in OwnCaptures(fields[i], vals);
    assert IsTextarea(fields[i]) && DisplayValue(vals, fields[i].key).Str?;
    var text := DisplayValue(vals, fields[i].key).s;
    assert name in TemplateVars.Captures(text);
    TextNameYieldsId(text, name);
    assert id in TemplateVars.HandleIds(text);
  }

  /** A captured name that passes the loose rule gives the handle id `vars-<name>`. */
  lemma TextNameYieldsId(text: string, name: string)
    requires name in TemplateVars.Captures(text) && TemplateVars.IsHandleName(name)
    ensures TemplateVars.VarsPrefix + name in TemplateVars.HandleIds(text)
  {
    TemplateVars.FilterKeeps(TemplateVars.IsHandleName, TemplateVars.Captures(text), name);
    var m :| 0 <= m < |TemplateVars.HandleNames(text)| && TemplateVars.HandleNames(text)[m] == name;
    assert TemplateVars.HandleIds(text)[m] == TemplateVars.VarsPrefix + name;
  }

  lemma TextareaIdHasHandle(fields: seq<Field>, vals: map<string, Value>, hs: seq<Handle>, id: string)
    requires FieldHandles(fields, vals) == Some(hs) && TextareaYieldsId(fields, vals, id)
    ensures CarriesId(hs, id)
  {
    var i :| 0 <= i < |fields| && IsTextarea(fields[i]) && DisplayValue(vals, fields[i].key).Str?
      && id in TemplateVars.HandleIds(DisplayValue(vals, fields[i].key).s);
    var text := DisplayValue(vals, fields[i].key).s;
    var m :| 0 <= m < |TemplateVars.HandleIds(text)| && TemplateVars.HandleIds(text)[m] == id;
    var name := TemplateVars.HandleNames(text)[m];
    TemplateVars.FilterKept(TemplateVars.IsHandleName, TemplateVars.Captures(text), name);
    assert name in OwnCaptures(fields[i], vals);
    FieldCapturesMembers(fields, vals, name);
    CapturedNameHasHandle(fields, vals, hs, name);
  }

  lemma CapturedNameHasHandle(fields: seq<Field>, vals: map<string, Value>, hs: seq<Handle>, name: string)
    requires FieldHandles(fields, vals) == Some(hs)
    requires name in FieldCaptures(fields, vals) && TemplateVars.IsHandleName(name)
    ensures CarriesId(hs, TemplateVars.VarsPrefix + name)
  {
    var names := FieldHandleNames(fields, vals);
    TemplateVars.FilterKeeps(TemplateVars.IsHandleName, FieldCaptures(fields, vals), name);
    var k :| 0 <= k < |names| && names[k] == name;
    assert hs[k].id == TemplateVars.VarsPrefix + name;
  }

  /** The static handles: every input a target on the left, every output a source on the right. */
  function StaticHandles(inputs: seq<Port>, outputs: seq<Port>): (hs: seq<Handle>)
    ensures |hs| == |inputs| + |outputs|
    ensures forall k :: 0 <= k < |inputs| ==> hs[k] == Handle(inputs[k].id, Target, "left")
    ensures forall k :: 0 <= k < |outputs| ==> hs[|inputs| + k] == Handle(outputs[k].id, Source, "right")
  {
    seq(|inputs|, k requires 0 <= k < |inputs| => Handle(inputs[k].id, Target, "left")) +
    seq(|outputs|, k requires 0 <= k < |outputs| => Handle(outputs[k].id, Source, "right"))
  }

  /**
   * Every handle a node exposes: the fields' variable handles, one
   * `vars-<name>` target on the left per captured name that passes the
   * loose rule, then its inputs, then its outputs.
   */
  function NodeHandles(c: Config, vals: map<string, Value>): (r: Option<seq<Handle>>)
    ensures r.None? <==> exists k :: 0 <= k < |c.fields| && IsTextarea(c.fields[k]) && DisplayValue(vals, c.fields[k].key).Bool?
    ensures r.Some? ==>
      var names := FieldHandleNames(c.fields, vals);
      && |r.value| == |names| + |c.inputs| + |c.outputs|
      && NamedHandles(r.value[..|names|], names)
      && r.value[|names|..] == StaticHandles(c.inputs, c.outputs)
  {
    match FieldHandles(c.fields, vals)
    case Some(dynamic) => Some(dynamic + StaticHandles(c.inputs, c.outputs))
    case None => None
  }

  /** A value that sits at two positions of a list occurs in it at least twice. */
  lemma TwiceCounted(xs: seq<string>, i: nat, j: nat)
    requires i < j < |xs| && xs[i] == xs[j]
    ensures multiset(xs)[xs[i]] >= 2
  {
    assert xs == xs[..j] + xs[j..];
    assert xs[i] == xs[..j][i];
    assert xs[j] == xs[j..][0];
  }

  /** A value counted at least twice in a list sits at two positions of it. */
  lemma {:induction false} TwoPositions(xs: seq<string>, x: string)
    requires multiset(xs)[x] >= 2
    ensures exists i, j :: 0 <= i < j < |xs| && xs[i] == x && xs[j] == x
  {
    assert xs != [];
    assert xs == [xs[0]] + xs[1..];
    if xs[0] == x {
      assert x in multiset(xs[1..]);
      var j :| 0 <= j < |xs[1..]| && xs[1..][j] == x;
      assert xs[j + 1] == x;
    } else {
      TwoPositions(xs[1..], x);
      var i, j :| 0 <= i < j < |xs[1..]| && xs[1..][i] == x && xs[1..][j] == x;
      assert xs[i + 1] == x && xs[j + 1] == x;
    }
  }

  /** The node's first handles carry `vars-<name>` for its handle names, in order. */
  lemma DynamicIds(c: Config, vals: map<string, Value>, hs: seq<Handle>)
    requires NodeHandles(c, vals) == Some(hs)
    ensures |FieldHandleNames(c.fields, vals)| <= |hs|
    ensures forall k :: 0 <= k < |FieldHandleNames(c.fields, vals)| ==>
      hs[k].id == TemplateVars.VarsPrefix + FieldHandleNames(c.fields, vals)[k]
  {
    var names := FieldHandleNames(c.fields, vals);
    forall k | 0 <= k < |names| ensures hs[k].id == TemplateVars.VarsPrefix + names[k] {
      assert hs[k] == hs[..|names|][k];
    }
  }

  /**
   * Two variable handles of a node share an id only when a name that passes
   * the loose rule is captured at least twice over its textareas.
   */
  lemma RepeatedIdIsRepeatedName(c: Config, vals: map<string, Value>, hs: seq<Handle>)
    requires NodeHandles(c, vals) == Some(hs)
    ensures forall i, j :: 0 <= i < j < |FieldHandleNames(c.fields, vals)| && hs[i].id == hs[j].id ==>
      var name := FieldHandleNames(c.fields, vals)[i];
      && hs[i].id == TemplateVars.VarsPrefix + name
      && TemplateVars.IsHandleName(name)
      && multiset(FieldCaptures(c.fields, vals))[name] >= 2
  {
    var names := FieldHandleNames(c.fields, vals);
    DynamicIds(c, vals, hs);
    forall i, j | 0 <= i < j < |names| && hs[i].id == hs[j].id
      ensures multiset(FieldCaptures(c.fields, vals))[names[i]] >= 2
    {
      SameIdSameName(names, hs, i, j);
      NameCount(c.fields, vals, names[i]);
    }
  }

  /** Conversely, a handle name captured twice over the textareas gives two handles with the same id. */
  lemma RepeatedNameRepeatsId(c: Config, vals: map<string, Value>, hs: seq<Handle>)
    requires NodeHandles(c, vals) == Some(hs)
    ensures forall name :: TemplateVars.IsHandleName(name) && multiset(FieldCaptures(c.fields, vals))[name] >= 2 ==>
      exists i, j :: 0 <= i < j < |hs| && hs[i].id == TemplateVars.VarsPrefix + name && hs[j].id == TemplateVars.VarsPrefix + name
  {
    var names := FieldHandleNames(c.fields, vals);
    DynamicIds(c, vals, hs);
    forall name | TemplateVars.IsHandleName(name) && multiset(FieldCaptures(c.fields, vals))[name] >= 2
      ensures exists i, j :: 0 <= i < j < |hs| && hs[i].id == TemplateVars.VarsPrefix + name && hs[j].id == TemplateVars.VarsPrefix + name
    {
      NameCount(c.fields, vals, name);
      TwoPositions(names, name);
      var i, j :| 0 <= i < j < |names| && names[i] == name && names[j] == name;
      assert hs[i].id == TemplateVars.VarsPrefix + name && hs[j].id == TemplateVars.VarsPrefix + name;
    }
  }

  /** Handles `vars-<name>` with equal ids carry equal names, so the name is counted twice. */
  lemma SameIdSameName(names: seq<string>, hs: seq<Handle>, i: nat, j: nat)
    requires i < j < |names| <= |hs|
    requires forall k :: 0 <= k < |names| ==> hs[k].id == TemplateVars.VarsPrefix + names[k]
    requires hs[i].id == hs[j].id
    ensures names[i] == names[j] && multiset(names)[names[i]] >= 2
  {
    var p := TemplateVars.VarsPrefix;
    assert (p + names[i])[|p|..] == names[i];
    assert (p + names[j])[|p|..] == names[j];
    TwiceCounted(names, i, j);
  }

  /** A handle name is counted among the node's handle names as often as it is captured. */
  lemma NameCount(fields: seq<Field>, vals: map<string, Value>, name: string)
    requires TemplateVars.IsHandleName(name)
    ensures multiset(FieldHandleNames(fields, vals))[name] == multiset(FieldCaptures(fields, vals))[name]
  {
    TemplateVars.FilterCount(TemplateVars.IsHandleName, FieldCaptures(fields, vals));
  }

  // ---------------------------------------------------------------------------
  // The node's local state
  // ---------------------------------------------------------------------------

  /** One call of `data.onChange(id, next)`. */
  datatype Change = Change(nodeId: string, values: map<string, Value>)

  /**
   * One rendered node: the `values` it keeps with `useState`, set once from
   * the defaults and the supplied values, and the calls it has made to the
   * optional `onChange` and `onDelete` callbacks.
   */
  class NodeView {
    const id: string
    const config: Config
    const hasOnChange: bool
    const hasOnDelete: bool
    var values: map<string, Value>
    var changes: seq<Change>
    var deleteRequests: seq<string>

    /** The parent has been sent the complete current map after the last edit. */
    ghost predicate Valid()
      reads this
    {
      && (!hasOnChange ==> changes == [])
      && (changes != [] ==> changes[|changes| - 1] == Change(id, values))
      && (!hasOnDelete ==> deleteRequests == [])
    }

    constructor (id: string, config: Option<Config>, supplied: Option<map<string, Value>>,
                 hasOnChange: bool, hasOnDelete: bool)
      ensures Valid()
      ensures this.id == id && this.config == EffectiveConfig(config)
      ensures this.hasOnChange == hasOnChange && this.hasOnDelete == hasOnDelete
      ensures values == InitialValues(this.config.defaults, supplied)
      ensures changes == [] && deleteRequests == []
    {
      this.id := id;
      this.config := EffectiveConfig(config);
      this.hasOnChange := hasOnChange;
      this.hasOnDelete := hasOnDelete;
      values := InitialValues(EffectiveConfig(config).defaults, supplied);
      changes := [];
      deleteRequests := [];
    }

    /** The value the editor of field `key` is given. */
    function Shown(key: string): Value
      reads this
    {
      DisplayValue(values, key)
    }

    /** `update(key, value)`: replace one key and send the whole new map to `onChange`. */
    method Update(key: string, v: Value)
      requires Valid()
      modifies this`values, this`changes
      ensures Valid()
      ensures values == old(values)[key := v]
      ensures Shown(key) == v
      ensures forall k :: k != key ==> Shown(k) == old(Shown(k))
      ensures changes == old(changes) + (if hasOnChange then [Change(id, values)] else [])
    {
      var next := values[key := v];
      values := next;
      if hasOnChange {
        changes := changes + [Change(id, next)];
      }
    }

    /** A keystroke in a text, number or textarea field stores the new text. */
    method EditText(f: Field, text: string)
      requires Valid() && f in config.fields
      requires f.input != Some("select") && f.input != Some("checkbox")
      modifies this`values, this`changes
      ensures Valid()
      ensures values == old(values)[f.key := Str(text)]
      ensures changes == old(changes) + (if hasOnChange then [Change(id, values)] else [])
      ensures IsTextarea(f) ==> OwnHandles(f, values) == Some(VariableHandles(text))
      ensures forall g: Field :: g.key != f.key ==> OwnHandles(g, values) == old(OwnHandles(g, values))
    {
      Update(f.key, Str(text));
    }

    /** Ticking a checkbox stores its boolean. */
    method EditCheckbox(f: Field, checked: bool)
      requires Valid() && f in config.fields && f.input == Some("checkbox")
      modifies this`values, this`changes
      ensures Valid()
      ensures values == old(values)[f.key := Bool(checked)]
      ensures changes == old(changes) + (if hasOnChange then [Change(id, values)] else [])
    {
      Update(f.key, Bool(checked));
    }

    /** Picking an entry of a select stores that option's value. */
    method EditSelect(f: Field, index: nat)
      requires Valid() && f in config.fields && f.input == Some("select")
      requires index < |OptionValues(f)|
      modifies this`values, this`changes
      ensures Valid()
      ensures values == old(values)[f.key := Str(OptionValues(f)[index])]
      ensures changes == old(changes) + (if hasOnChange then [Change(id, values)] else [])
      ensures Distinct(OptionValues(f)) ==> SelectedIndex(f.options.GetOr([]), Shown(f.key).s) == Some(index)
    {
      Update(f.key, Str(OptionValues(f)[index]));
      if Distinct(OptionValues(f)) {
        SelectShowsPicked(f, index);
      }
    }

    /** The delete button: `data.onDelete?.(id)`. */
    method RequestDelete()
      requires Valid()
      modifies this`deleteRequests
      ensures Valid()
      ensures deleteRequests == old(deleteRequests) + (if hasOnDelete then [id] else [])
    {
      if hasOnDelete {
        deleteRequests := deleteRequests + [id];
      }
    }
  }
}
