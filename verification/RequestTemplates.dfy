/** The second thing built from an endpoint: the template that requests are composed from. */
module RequestTemplates {
  import opened Wrappers
  import opened Curation
  import opened RequestSchema

  datatype Binding = Binding(name: Text, inPath: bool, isArray: bool, argument: Option<Text>, fill: Option<Fill>)

  datatype Template = Template(
    parameters: seq<Binding>, hasBody: bool, bodyProperties: set<Text>, bodyAllowsAdditional: bool,
    bodyRoot: Option<Text>,
    bodyAliases: map<Text, Text>, bodyFills: map<Text, Fill>, rootFill: Option<Fill>, requiredFills: set<Text>)

  function ResolvedFor(curated: ByWireName, wire: Text): Resolved {
    if wire in curated then curated[wire] else Resolved(None, None)
  }

  function BindingOf(curated: ByWireName, p: Parameter): Binding {
    Binding(p.name, p.inPath, p.isArray, ResolvedFor(curated, p.name).argument, ResolvedFor(curated, p.name).fill)
  }

  function Bindings(curated: ByWireName, parameters: seq<Parameter>): (r: seq<Binding>)
    ensures |r| == |parameters|
  {
    if parameters == [] then []
    else Bindings(curated, parameters[..|parameters| - 1]) + [BindingOf(curated, parameters[|parameters| - 1])]
  }

  function Aliases(curated: ByWireName, fields: seq<Text>): map<Text, Text> {
    if fields == [] then map[]
    else
      var f := fields[|fields| - 1];
      var earlier := Aliases(curated, fields[..|fields| - 1]);
      if Renamed(curated, f) then earlier[AgentName(curated, f) := f] else earlier
  }

  function Fills(curated: ByWireName, fields: seq<Text>): map<Text, Fill> {
    if fields == [] then map[]
    else
      var f := fields[|fields| - 1];
      var earlier := Fills(curated, fields[..|fields| - 1]);
      if Hidden(curated, f) then earlier[f := curated[f].fill.value] else earlier
  }

  function RequiredFills(e: Endpoint, curated: ByWireName): set<Text> {
    (set p | p in e.parameters && p.required && Hidden(curated, p.name) :: p.name)
    + if RootOf(e).Some? then
        if Hidden(curated, RootOf(e).value) && BodyRequired(e) then {RootOf(e).value} else {}
      else set f | f in FieldsOf(e) && Hidden(curated, f) && f in RequiredFieldsOf(e)
  }

  /** The template of an endpoint under a curation, before the checks on its names. */
  function TemplateOf(e: Endpoint, curated: ByWireName): Template {
    var parameters := Bindings(curated, e.parameters);
    var root := RootOf(e);
    if root.Some? then
      Template(parameters, true, {}, false, root, map[], map[], ResolvedFor(curated, root.value).fill,
        RequiredFills(e, curated))
    else
      var additional := e.body.Some? && e.body.value.allowsAdditional;
      var flattened := e.body.Some? && e.body.value.properties.Some?;
      Template(parameters, flattened || additional, (set f | f in FieldsOf(e)), additional, None,
               Aliases(curated, FieldsOf(e)), Fills(curated, FieldsOf(e)), None, RequiredFills(e, curated))
  }

  /** The agent names of the parameters that are not filled. */
  function ParameterAgentNames(parameters: seq<Binding>): seq<Text> {
    if parameters == [] then []
    else
      var p := parameters[|parameters| - 1];
      ParameterAgentNames(parameters[..|parameters| - 1]) + if p.fill.Some? then [] else [p.argument.GetOr(p.name)]
  }

  /** The checks of `createRequestTemplate` that concern names. */
  function NameCheck(e: Endpoint, t: Template): Option<TemplateError> {
    var clash := NamesApart(ParameterNames(e.parameters), if t.bodyRoot.Some? then [t.bodyRoot.value] else FieldsOf(e));
    if clash.Some? then clash
    else if !Unique(ParameterAgentNames(t.parameters)) then Some(ArgumentCollision)
    else if exists k :: k in t.bodyAliases && k in ParameterAgentNames(t.parameters) then Some(ArgumentCollision)
    else None
  }

  /** `createRequestTemplateFromEndpoint`, as far as names go. */
  function TemplateFor(e: Endpoint, variant: seq<ArgumentRecord>, folded: set<Text>): Result<Template, TemplateError> {
    var curated := Curated(e, variant, folded);
    if curated.Err? then Err(curated.error)
    else
      var t := TemplateOf(e, curated.value);
      var clash := NameCheck(e, t);
      if clash.Some? then Err(clash.value) else Ok(t)
  }

  /** `allowedArgumentNames`: the parameters' part. */
  function AllowedParameters(parameters: seq<Binding>): set<Text> {
    set n | n in ParameterAgentNames(parameters)
  }

  function Allowed(t: Template): set<Text> {
    AllowedParameters(t.parameters) + t.bodyAliases.Keys
    + (set f | f in t.bodyProperties && f !in t.bodyFills && f !in t.bodyAliases.Values)
    + if t.bodyRoot.Some? && t.rootFill.None? then {t.bodyRoot.value} else {}
  }

  /** `deniedArgumentNames`. */
  function Denied(t: Template): set<Text> {
    (set p | p in t.parameters && (p.fill.Some? || p.argument.Some?) :: p.name)
    + t.bodyAliases.Values + t.bodyFills.Keys
    + if t.bodyRoot.Some? && t.rootFill.Some? then {t.bodyRoot.value} else {}
  }

  /** `rejectUnknown`, for one key. */
  predicate Accepts(t: Template, key: Text) {
    key !in Denied(t) && (key in Allowed(t) || (t.hasBody && t.bodyAllowsAdditional))
  }

  /** The agent-to-wire table of `translate`: parameters first, then the body's aliases over them. */
  function ParameterTable(parameters: seq<Binding>): map<Text, Text> {
    if parameters == [] then map[]
    else
      var p := parameters[|parameters| - 1];
      var earlier := ParameterTable(parameters[..|parameters| - 1]);
      if p.argument.Some? then earlier[p.argument.value := p.name] else earlier
  }

  function Table(t: Template): map<Text, Text> {
    ParameterTable(t.parameters) + t.bodyAliases
  }

  function WireOf(t: Template, key: Text): Text {
    if key in Table(t) then Table(t)[key] else key
  }

  lemma {:induction false} AgentNamesAre(curated: ByWireName, parameters: seq<Parameter>)
    ensures ParameterAgentNames(Bindings(curated, parameters)) == VisibleNames(curated, ParameterNames(parameters))
  {
    if parameters != [] {
      var rest := parameters[..|parameters| - 1];
      AgentNamesAre(curated, rest);
      assert Bindings(curated, parameters)[..|rest|] == Bindings(curated, rest);
      assert ParameterNames(parameters)[..|rest|] == ParameterNames(rest);
    }
  }

  lemma {:induction false} AliasesHold(curated: ByWireName, fields: seq<Text>, key: Text)
    ensures key in Aliases(curated, fields) <==>
      exists f :: f in fields && Renamed(curated, f) && AgentName(curated, f) == key
    ensures key in Aliases(curated, fields) ==>
      var f := Aliases(curated, fields)[key]; f in fields && Renamed(curated, f) && AgentName(curated, f) == key
  {
    if fields != [] {
      var last := |fields| - 1;
      assert fields == fields[..last] + [fields[last]];
      AliasesHold(curated, fields[..last], key);
    }
  }

  lemma {:induction false} FillsHold(curated: ByWireName, fields: seq<Text>, f: Text)
    ensures f in Fills(curated, fields) <==> f in fields && Hidden(curated, f)
    ensures f in Fills(curated, fields) ==> Fills(curated, fields)[f] == curated[f].fill.value
  {
    if fields != [] {
      var last := |fields| - 1;
      assert fields == fields[..last] + [fields[last]];
      FillsHold(curated, fields[..last], f);
    }
  }

  lemma {:induction false} TableHolds(curated: ByWireName, parameters: seq<Parameter>, key: Text)
    ensures var names := ParameterNames(parameters);
      var table := ParameterTable(Bindings(curated, parameters));
      && (key in table <==> exists w :: w in names && Renamed(curated, w) && AgentName(curated, w) == key)
      && (key in table ==> var w := table[key]; w in names && Renamed(curated, w) && AgentName(curated, w) == key)
  {
    if parameters != [] {
      var rest := parameters[..|parameters| - 1];
      var last := parameters[|parameters| - 1].name;
      TableHolds(curated, rest, key);
      var bindings := Bindings(curated, parameters);
      assert bindings[..|rest|] == Bindings(curated, rest);
      assert bindings[|bindings| - 1] == BindingOf(curated, parameters[|rest|]);
      assert ParameterNames(parameters) == ParameterNames(rest) + [last];
      assert last in ParameterNames(parameters);
      assert forall w :: w in ParameterNames(rest) ==> w in ParameterNames(parameters);
    }
  }

  lemma {:induction false} BindingsHold(curated: ByWireName, parameters: seq<Parameter>)
    ensures forall b :: b in Bindings(curated, parameters) ==> exists p :: p in parameters && b == BindingOf(curated, p)
    ensures forall p :: p in parameters ==> BindingOf(curated, p) in Bindings(curated, parameters)
  {
    if parameters != [] {
      var last := |parameters| - 1;
      assert parameters == parameters[..last] + [parameters[last]];
      BindingsHold(curated, parameters[..last]);
      assert Bindings(curated, parameters)
        == Bindings(curated, parameters[..last]) + [BindingOf(curated, parameters[last])];
      forall b | b in Bindings(curated, parameters) ensures exists p :: p in parameters && b == BindingOf(curated, p) {
        if b != BindingOf(curated, parameters[last]) {
          var p :| p in parameters[..last] && b == BindingOf(curated, p);
          assert p in parameters;
        } else {
          assert parameters[last] in parameters;
        }
      }
    }
  }

  method CollectAliases(curated: ByWireName, fields: seq<Text>)
    returns (aliases: map<Text, Text>, fills: map<Text, Fill>)
    ensures aliases == Aliases(curated, fields) && fills == Fills(curated, fields)
  {
    aliases, fills := map[], map[];
    for i := 0 to |fields|
      invariant aliases == Aliases(curated, fields[..i]) && fills == Fills(curated, fields[..i])
    {
      assert fields[..i + 1][..i] == fields[..i];
      if Renamed(curated, fields[i]) {
        aliases := aliases[AgentName(curated, fields[i]) := fields[i]];
      }
      if Hidden(curated, fields[i]) {
        fills := fills[fields[i] := curated[fields[i]].fill.value];
      }
    }
    assert fields[..|fields|] == fields;
  }

  method BindParameters(curated: ByWireName, parameters: seq<Parameter>) returns (bindings: seq<Binding>)
    ensures bindings == Bindings(curated, parameters)
  {
    bindings := [];
    for i := 0 to |parameters|
      invariant bindings == Bindings(curated, parameters[..i])
    {
      assert parameters[..i + 1][..i] == parameters[..i];
      bindings := bindings + [BindingOf(curated, parameters[i])];
    }
    assert parameters[..|parameters|] == parameters;
  }

  /** `createRequestTemplateFromEndpoint`, with the name checks of `createRequestTemplate`. */
  method CreateRequestTemplate(e: Endpoint, variant: seq<ArgumentRecord>, folded: set<Text>)
    returns (r: Result<Template, TemplateError>)
    ensures r == TemplateFor(e, variant, folded)
  {
    var records := Declarations(e.arguments, variant);
    if records.Err? { return Err(records.error); }
    var curated := ResolveCuration(records.value, ShapeOf(e), folded);
    if curated.Err? { return Err(curated.error); }
    var bindings := BindParameters(curated.value, e.parameters);
    var root := RootOf(e);
    var t: Template;
    if root.Some? {
      t := Template(bindings, true, {}, false, root, map[], map[], ResolvedFor(curated.value, root.value).fill,
        RequiredFills(e, curated.value));
    } else {
      var aliases, fills := CollectAliases(curated.value, FieldsOf(e));
      var additional := e.body.Some? && e.body.value.allowsAdditional;
      var flattened := e.body.Some? && e.body.value.properties.Some?;
      t := Template(bindings, flattened
        || additional, (set f | f in FieldsOf(e)), additional, None, aliases, fills, None,
                    RequiredFills(e, curated.value));
    }
    var clash := NameCheck(e, t);
    r := if clash.Some? then Err(clash.value) else Ok(t);
  }

  /** `allowedArgumentNames`. */
  method AllowedArgumentNames(t: Template) returns (allowed: set<Text>)
    ensures allowed == Allowed(t)
  {
    allowed := {};
    for i := 0 to |t.parameters|
      invariant allowed == AllowedParameters(t.parameters[..i])
    {
      assert t.parameters[..i + 1][..i] == t.parameters[..i];
      if t.parameters[i].fill.None? {
        allowed := allowed + {t.parameters[i].argument.GetOr(t.parameters[i].name)};
      }
    }
    assert t.parameters[..|t.parameters|] == t.parameters;
    allowed := allowed + t.bodyAliases.Keys;
    allowed := allowed + set f | f in t.bodyProperties && f !in t.bodyFills && f !in t.bodyAliases.Values;
    if t.bodyRoot.Some? && t.rootFill.None? {
      allowed := allowed + {t.bodyRoot.value};
    }
  }

  /** `deniedArgumentNames`. */
  method DeniedArgumentNames(t: Template) returns (denied: set<Text>)
    ensures denied == Denied(t)
  {
    denied := {};
    for i := 0 to |t.parameters|
      invariant denied == set p | p in t.parameters[..i] && (p.fill.Some? || p.argument.Some?) :: p.name
    {
      assert t.parameters[..i + 1] == t.parameters[..i] + [t.parameters[i]];
      if t.parameters[i].fill.Some? || t.parameters[i].argument.Some? {
        denied := denied + {t.parameters[i].name};
      }
    }
    assert t.parameters[..|t.parameters|] == t.parameters;
    denied := denied + t.bodyAliases.Values + t.bodyFills.Keys;
    if t.bodyRoot.Some? && t.rootFill.Some? {
      denied := denied + {t.bodyRoot.value};
    }
  }

  method BuildTable(t: Template) returns (agentToWire: map<Text, Text>)
    ensures agentToWire == Table(t)
  {
    agentToWire := map[];
    for i := 0 to |t.parameters|
      invariant agentToWire == ParameterTable(t.parameters[..i])
    {
      assert t.parameters[..i + 1][..i] == t.parameters[..i];
      if t.parameters[i].argument.Some? {
        agentToWire := agentToWire[t.parameters[i].argument.value := t.parameters[i].name];
      }
    }
    assert t.parameters[..|t.parameters|] == t.parameters;
    agentToWire := agentToWire + t.bodyAliases;
  }
}
