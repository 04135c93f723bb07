/** One endpoint descriptor, and the first thing built from it: the input schema that the agent reads. */
module RequestSchema {
  import opened Wrappers
  import opened Curation

  datatype Parameter = Parameter(name: Text, required: bool, inPath: bool, isArray: bool)

  datatype BodyType = Untyped | Type(name: Text) | Types(names: seq<Text>)

  /** A body schema: its root's type, its keys that flattening cannot keep, and its fields in order. */
  datatype BodySchema = BodySchema(
    required: Option<bool>, rootType: BodyType, otherKeys: bool, properties: Option<seq<Text>>,
    requiredFields: seq<Text>,
    allowsAdditional: bool)

  datatype Endpoint = Endpoint(parameters: seq<Parameter>, body: Option<BodySchema>, arguments: seq<ArgumentRecord>)

  const NULL_TYPE := Text("null")
  const OBJECT_TYPE := Text("object")
  const BODY_ROOT_ARGUMENT := Text("body")

  datatype BodyRootReason = Optional | NonObject | UnflattenableRoot | Collision

  /** `typeOf`: the first type that is not null. */
  function FirstType(names: seq<Text>): Option<Text> {
    if names == [] then None else if names[0] != NULL_TYPE then Some(names[0]) else FirstType(names[1..])
  }

  function TypeOf(t: BodyType): Option<Text> {
    match t
    case Untyped => None
    case Type(name) => Some(name)
    case Types(names) => FirstType(names)
  }

  predicate Collides(properties: Option<seq<Text>>, parameterNames: seq<Text>) {
    properties.Some? && exists name :: name in properties.value && name in parameterNames
  }

  /** `bodyRootReasonOf`: why a body travels as one argument instead of as its fields. */
  function BodyRootReasonOf(body: Option<BodySchema>, parameterNames: seq<Text>): Option<BodyRootReason> {
    if body.None? then None
    else
      var b := body.value;
      if b.required == Some(false) then Some(Optional)
      else if TypeOf(b.rootType).Some? && TypeOf(b.rootType) != Some(OBJECT_TYPE) then Some(NonObject)
      else if b.rootType.Types? || b.otherKeys then Some(UnflattenableRoot)
      else if b.properties.None? && !b.allowsAdditional then Some(UnflattenableRoot)
      else if Collides(b.properties, parameterNames) then Some(Collision)
      else None
  }

  function ParameterNames(parameters: seq<Parameter>): (r: seq<Text>)
    ensures |r| == |parameters|
  {
    if parameters == [] then []
      else ParameterNames(parameters[..|parameters| - 1]) + [parameters[|parameters| - 1].name]
  }

  function RequiredNames(parameters: seq<Parameter>): set<Text> {
    set p | p in parameters && p.required :: p.name
  }

  function RootOf(e: Endpoint): Option<Text> {
    if BodyRootReasonOf(e.body, ParameterNames(e.parameters)).None? then None else Some(BODY_ROOT_ARGUMENT)
  }

  /** The fields of a body that is flattened, and which of them are required. */
  function FieldsOf(e: Endpoint): seq<Text> {
    if RootOf(e).None? && e.body.Some? && e.body.value.properties.Some? then e.body.value.properties.value else []
  }

  function RequiredFieldsOf(e: Endpoint): seq<Text> {
    if RootOf(e).None? && e.body.Some? && e.body.value.properties.Some? then e.body.value.requiredFields else []
  }

  function BodyRequired(e: Endpoint): bool {
    e.body.None? || e.body.value.required != Some(false)
  }

  /** `curationShapeOf`. */
  function ShapeOf(e: Endpoint): CurationShape {
    CurationShape(
      ParameterNames(e.parameters), FieldsOf(e), RootOf(e),
      RequiredNames(e.parameters)
      + (if RootOf(e).None? then set f | f in RequiredFieldsOf(e) else if BodyRequired(e) then {RootOf(e).value}
        else {}))
  }

  function Wires(e: Endpoint): seq<Text> {
    WireNames(ShapeOf(e))
  }

  /** The declarations in force, resolved. */
  function Curated(e: Endpoint, variant: seq<ArgumentRecord>, folded: set<Text>): Result<ByWireName, TemplateError> {
    var records := Declarations(e.arguments, variant);
    if records.Err? then Err(records.error) else Resolution(records.value, ShapeOf(e), folded)
  }

  /** `properties` maps each published key to the wire name whose schema it carries. */
  datatype InputSchema = InputSchema(properties: map<Text, Text>, required: seq<Text>, additional: bool)

  /** The properties that publishing the wire names in order gives. */
  function Published(curated: ByWireName, wires: seq<Text>): map<Text, Text> {
    if wires == [] then map[]
    else
      var last := wires[|wires| - 1];
      var earlier := Published(curated, wires[..|wires| - 1]);
      if Hidden(curated, last) then earlier else earlier[AgentName(curated, last) := last]
  }

  lemma {:induction false} PublishedKeys(curated: ByWireName, wires: seq<Text>, key: Text)
    ensures key in Published(curated, wires) <==> key in VisibleNames(curated, wires)
    ensures key in Published(curated, wires) ==>
      var w := Published(curated, wires)[key]; w in wires && !Hidden(curated, w) && AgentName(curated, w) == key
  {
    if wires != [] {
      var last := wires[|wires| - 1];
      var rest := wires[..|wires| - 1];
      assert wires == rest + [last];
      PublishedKeys(curated, rest, key);
    }
  }

  /** `assertUniqueArgumentNames`. */
  function NamesApart(parameterNames: seq<Text>, others: seq<Text>): Option<TemplateError> {
    if !Unique(parameterNames) then Some(DuplicateArgument)
    else if !Unique(parameterNames + others) then Some(ArgumentCollision)
    else None
  }

  /** The schema's required list, without repeats. */
  function Claim(required: seq<Text>, key: Text): seq<Text> {
    if key in required then required else required + [key]
  }

  function RequiredParameters(curated: ByWireName, parameters: seq<Parameter>): seq<Text> {
    if parameters == [] then []
    else
      var p := parameters[|parameters| - 1];
      var earlier := RequiredParameters(curated, parameters[..|parameters| - 1]);
      if p.required && !Hidden(curated, p.name) then Claim(earlier, AgentName(curated, p.name)) else earlier
  }

  function RequiredFields(curated: ByWireName, properties: map<Text, Text>, required: seq<Text>,
        fields: seq<Text>): seq<Text> {
    if fields == [] then required
    else
      var f := fields[|fields| - 1];
      var earlier := RequiredFields(curated, properties, required, fields[..|fields| - 1]);
      if !Hidden(curated, f) && AgentName(curated, f) in properties then Claim(earlier, AgentName(curated, f))
        else earlier
  }

  /** The schema of an endpoint under a curation. */
  function SchemaOf(e: Endpoint, curated: ByWireName): InputSchema {
    var properties := Published(curated, Wires(e));
    var required := RequiredParameters(curated, e.parameters);
    var root := RootOf(e);
    var claimed :=
      if root.Some? then
        if !Hidden(curated, root.value) && BodyRequired(e) then Claim(required, AgentName(curated, root.value))
          else required
      else RequiredFields(curated, properties, required, RequiredFieldsOf(e));
    InputSchema(properties, claimed, root.None? && e.body.Some? && e.body.value.allowsAdditional)
  }

  /** `buildInputSchema`: the schema, or the first error. */
  function Schema(e: Endpoint, variant: seq<ArgumentRecord>, folded: set<Text>): Result<InputSchema, TemplateError> {
    var clash := NamesApart(ParameterNames(e.parameters), if RootOf(e).Some? then [RootOf(e).value] else FieldsOf(e));
    if clash.Some? then Err(clash.value)
    else
      var curated := Curated(e, variant, folded);
      if curated.Err? then Err(curated.error) else Ok(SchemaOf(e, curated.value))
  }

  lemma {:induction false} RequiredParametersPublished(curated: ByWireName, parameters: seq<Parameter>,
        wires: seq<Text>)
    requires forall p :: p in parameters ==> p.name in wires
    ensures forall k :: k in RequiredParameters(curated, parameters) ==> k in Published(curated, wires)
  {
    if parameters != [] {
      var p := parameters[|parameters| - 1];
      RequiredParametersPublished(curated, parameters[..|parameters| - 1], wires);
      PublishedKeys(curated, wires, AgentName(curated, p.name));
      VisibleMembers(curated, wires, AgentName(curated, p.name));
    }
  }

  lemma {:induction false} RequiredFieldsPublished(curated: ByWireName, properties: map<Text, Text>,
        required: seq<Text>, fields: seq<Text>)
    requires forall k :: k in required ==> k in properties
    ensures forall k :: k in RequiredFields(curated, properties, required, fields) ==> k in properties
  {
    if fields != [] { RequiredFieldsPublished(curated, properties, required, fields[..|fields| - 1]); }
  }

  lemma {:induction false} ParameterNamesHold(parameters: seq<Parameter>)
    ensures forall p :: p in parameters ==> p.name in ParameterNames(parameters)
    ensures forall n :: n in ParameterNames(parameters) ==> exists p :: p in parameters && p.name == n
  {
    if parameters != [] {
      var last := |parameters| - 1;
      assert parameters == parameters[..last] + [parameters[last]];
      ParameterNamesHold(parameters[..last]);
    }
  }

  /** What is required is published. */
  lemma RequiredIsPublished(e: Endpoint, curated: ByWireName)
    ensures forall k :: k in SchemaOf(e, curated).required ==> k in SchemaOf(e, curated).properties
  {
    var properties := Published(curated, Wires(e));
    ParameterNamesHold(e.parameters);
    RequiredParametersPublished(curated, e.parameters, Wires(e));
    RequiredFieldsPublished(curated, properties, RequiredParameters(curated, e.parameters), RequiredFieldsOf(e));
    if RootOf(e).Some? {
      PublishedKeys(curated, Wires(e), AgentName(curated, RootOf(e).value));
      VisibleMembers(curated, Wires(e), AgentName(curated, RootOf(e).value));
    }
  }

  /** Some argument that the agent sees has this name. */
  ghost predicate Seen(e: Endpoint, c: ByWireName, key: Text) {
    exists w :: w in Wires(e) && !Hidden(c, w) && AgentName(c, w) == key
  }

  ghost predicate SomeParameterNeeds(c: ByWireName, parameters: seq<Parameter>, key: Text) {
    exists p :: p in parameters && p.required && !Hidden(c, p.name) && AgentName(c, p.name) == key
  }

  ghost predicate SomeFieldNeeds(c: ByWireName, fields: seq<Text>, key: Text) {
    exists f :: f in fields && !Hidden(c, f) && AgentName(c, f) == key
  }

  /** An agent must send the required parameters, a body that is not optional, or its required fields. */
  ghost predicate MustSend(e: Endpoint, c: ByWireName, key: Text) {
    || SomeParameterNeeds(c, e.parameters, key)
    || (RootOf(e) == Some(BODY_ROOT_ARGUMENT) && e.body.value.required != Some(false)
        && !Hidden(c, BODY_ROOT_ARGUMENT) && AgentName(c, BODY_ROOT_ARGUMENT) == key)
    || (SomeFieldNeeds(c, RequiredFieldsOf(e), key) && Seen(e, c, key))
  }

  lemma {:induction false} RequiredParametersAre(c: ByWireName, parameters: seq<Parameter>, key: Text)
    ensures key in RequiredParameters(c, parameters) <==> SomeParameterNeeds(c, parameters, key)
    ensures Unique(RequiredParameters(c, parameters))
  {
    if parameters != [] {
      var rest, last := parameters[..|parameters| - 1], parameters[|parameters| - 1];
      assert parameters == rest + [last];
      RequiredParametersAre(c, rest, key);
      ClaimUnique(RequiredParameters(c, rest), AgentName(c, last.name));
      ClaimHolds(RequiredParameters(c, rest), AgentName(c, last.name), key);
    }
  }

  lemma ClaimUnique(required: seq<Text>, key: Text)
    requires Unique(required)
    ensures Unique(Claim(required, key))
  {
    assert (required + [key])[..|required|] == required;
  }

  lemma FieldNeedsSnoc(c: ByWireName, rest: seq<Text>, last: Text, key: Text)
    ensures SomeFieldNeeds(c, rest + [last], key) <==>
      SomeFieldNeeds(c, rest, key) || (!Hidden(c, last) && AgentName(c, last) == key)
  {
    assert forall f :: f in rest + [last] <==> f in rest || f == last;
  }

  lemma ClaimHolds(required: seq<Text>, added: Text, key: Text)
    ensures key in Claim(required, added) <==> key in required || key == added
  {
  }

  lemma {:induction false} RequiredFieldsAre(c: ByWireName, properties: map<Text, Text>, before: seq<Text>,
        fields: seq<Text>, key: Text)
    ensures key in RequiredFields(c, properties, before, fields) <==>
      key in before || (SomeFieldNeeds(c, fields, key) && key in properties)
  {
    if fields != [] {
      var rest, last := fields[..|fields| - 1], fields[|fields| - 1];
      RequiredFieldsAre(c, properties, before, rest, key);
      FieldNeedsSnoc(c, rest, last, key);
      assert fields == rest + [last];
      ClaimHolds(RequiredFields(c, properties, before, rest), AgentName(c, last), key);
    }
  }

  lemma {:induction false} RequiredFieldsUnique(c: ByWireName, properties: map<Text, Text>, before: seq<Text>,
        fields: seq<Text>)
    requires Unique(before)
    ensures Unique(RequiredFields(c, properties, before, fields))
  {
    if fields != [] {
      RequiredFieldsUnique(c, properties, before, fields[..|fields| - 1]);
      ClaimUnique(RequiredFields(c, properties, before, fields[..|fields| - 1]),
        AgentName(c, fields[|fields| - 1]));
    }
  }

  /** A key is required exactly when the agent must send it, and no key is required twice. */
  lemma RequiredExactly(e: Endpoint, c: ByWireName, key: Text)
    ensures key in SchemaOf(e, c).required <==> MustSend(e, c, key)
    ensures Unique(SchemaOf(e, c).required)
  {
    var properties := Published(c, Wires(e));
    var required := RequiredParameters(c, e.parameters);
    RequiredParametersAre(c, e.parameters, key);
    if RootOf(e).Some? {
      ClaimUnique(required, AgentName(c, RootOf(e).value));
      ClaimHolds(required, AgentName(c, RootOf(e).value), key);
    } else {
      RequiredFieldsAre(c, properties, required, RequiredFieldsOf(e), key);
      RequiredFieldsUnique(c, properties, required, RequiredFieldsOf(e));
      PublishedKeys(c, Wires(e), key);
      VisibleMembers(c, Wires(e), key);
    }
  }

  /** What is said of a schema for every endpoint: what it requires is published, once, and what must be sent. */
  ghost predicate RequiresRightly(e: Endpoint, c: ByWireName, s: InputSchema) {
    && Unique(s.required) && (forall k :: k in s.required ==> k in s.properties)
    && forall k :: k in s.required <==> MustSend(e, c, k)
  }

  lemma SchemaRequiresRightly(e: Endpoint, c: ByWireName)
    ensures RequiresRightly(e, c, SchemaOf(e, c))
  {
    RequiredIsPublished(e, c);
    RequiredExactly(e, c, Text(""));
    forall k ensures k in SchemaOf(e, c).required <==> MustSend(e, c, k) { RequiredExactly(e, c, k); }
  }

  /** A body that cannot be taken apart, or whose fields clash with the parameters. */
  ghost predicate TravelsWhole(b: BodySchema, parameters: seq<Parameter>) {
    || b.required == Some(false)
    || b.otherKeys || b.rootType.Types? || (b.rootType.Type? && b.rootType.name != Text("object"))
    || (b.properties.None? && !b.allowsAdditional)
    || (b.properties.Some? && exists p :: p in parameters && p.name in b.properties.value)
  }

  /** Exactly such a body travels as one argument. */
  lemma RootExactly(e: Endpoint)
    ensures RootOf(e).Some? <==> e.body.Some? && TravelsWhole(e.body.value, e.parameters)
  {
    ParameterNamesHold(e.parameters);
  }

  method PublishAll(curated: ByWireName, wires: seq<Text>) returns (properties: map<Text, Text>)
    ensures properties == Published(curated, wires)
  {
    properties := map[];
    for i := 0 to |wires|
      invariant properties == Published(curated, wires[..i])
    {
      assert wires[..i + 1][..i] == wires[..i];
      if !Hidden(curated, wires[i]) {
        properties := properties[AgentName(curated, wires[i]) := wires[i]];
      }
    }
    assert wires[..|wires|] == wires;
  }

  method RequireParameters(curated: ByWireName, parameters: seq<Parameter>) returns (required: seq<Text>)
    ensures required == RequiredParameters(curated, parameters)
  {
    required := [];
    for i := 0 to |parameters|
      invariant required == RequiredParameters(curated, parameters[..i])
    {
      assert parameters[..i + 1][..i] == parameters[..i];
      var key := AgentName(curated, parameters[i].name);
      if parameters[i].required && !Hidden(curated, parameters[i].name) && key !in required {
        required := required + [key];
      }
    }
    assert parameters[..|parameters|] == parameters;
  }

  method RequireFields(curated: ByWireName, properties: map<Text, Text>, before: seq<Text>, fields: seq<Text>)
    returns (required: seq<Text>)
    ensures required == RequiredFields(curated, properties, before, fields)
  {
    required := before;
    for i := 0 to |fields|
      invariant required == RequiredFields(curated, properties, before, fields[..i])
    {
      assert fields[..i + 1][..i] == fields[..i];
      var key := AgentName(curated, fields[i]);
      if !Hidden(curated, fields[i]) && key in properties && key !in required {
        required := required + [key];
      }
    }
    assert fields[..|fields|] == fields;
  }

  /** `buildInputSchema`. */
  method BuildInputSchema(e: Endpoint, variant: seq<ArgumentRecord>, folded: set<Text>)
    returns (r: Result<InputSchema, TemplateError>)
    ensures r == Schema(e, variant, folded)
    ensures r.Ok? ==> RequiresRightly(e, Curated(e, variant, folded).value, r.value)
  {
    var root := RootOf(e);
    var clash := NamesApart(ParameterNames(e.parameters), if root.Some? then [root.value] else FieldsOf(e));
    if clash.Some? { return Err(clash.value); }
    var records := Declarations(e.arguments, variant);
    if records.Err? { return Err(records.error); }
    var curated := ResolveCuration(records.value, ShapeOf(e), folded);
    if curated.Err? { return Err(curated.error); }
    SchemaRequiresRightly(e, curated.value);
    var properties := PublishAll(curated.value, Wires(e));
    var required := RequireParameters(curated.value, e.parameters);
    if root.Some? {
      var key := AgentName(curated.value, root.value);
      if !Hidden(curated.value, root.value) && BodyRequired(e) && key !in required {
        required := required + [key];
      }
    } else {
      required := RequireFields(curated.value, properties, required, RequiredFieldsOf(e));
    }
    r := Ok(InputSchema(properties, required, root.None? && e.body.Some? && e.body.value.allowsAdditional));
  }
}
