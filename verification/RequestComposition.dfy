/** Composing a request: every accepted argument reaches one slot, and every hidden slot carries its fill or nothing. */
module RequestComposition {
  import opened Wrappers
  import opened Curation
  import opened RequestTemplates

  datatype ComposeError = UnknownArgument | DeferredValueMissing | MissingPathParameter | NullNotAllowed

  datatype Entry = Entry(key: Text, value: Value)

  datatype Body = Root(value: Value) | Fields(values: map<Text, Value>)

  /** What is sent: the parameters that are written, and the body. */
  datatype Request = Request(parameters: map<Text, Value>, body: Option<Body>)

  type Wire = map<Text, Value>

  function Keys(entries: seq<Entry>): (r: seq<Text>)
    ensures |r| == |entries|
  {
    if entries == [] then [] else Keys(entries[..|entries| - 1]) + [entries[|entries| - 1].key]
  }

  predicate AcceptsAll(t: Template, entries: seq<Entry>) {
    forall e :: e in entries ==> Accepts(t, e.key)
  }

  /** `translate`. */
  function Translated(t: Template, entries: seq<Entry>): Wire {
    if entries == [] then map[]
    else
      var last := entries[|entries| - 1];
      Translated(t, entries[..|entries| - 1])[WireOf(t, last.key) := last.value]
  }

  /** `resolveFill`: nothing, a value, or a missing value that was needed. */
  function ResolveFill(fill: Fill, required: bool, deferred: map<Text, Value>,
        isBodySlot: bool): Result<Option<Value>, ComposeError> {
    match fill
    case Omit => Ok(None)
    case Constant(value) => Ok(Some(value))
    case Deferred(source) =>
      if source !in deferred || (deferred[source] == Null && !isBodySlot) then
        if required then Err(DeferredValueMissing) else Ok(None)
      else Ok(Some(deferred[source]))
  }

  function ParameterFill(t: Template, p: Binding, deferred: map<Text, Value>): Result<Option<Value>, ComposeError> {
    if p.fill.None? then Ok(None) else ResolveFill(p.fill.value, p.inPath || p.name in t.requiredFills, deferred, false)
  }

  function FieldFill(t: Template, f: Text, deferred: map<Text, Value>): Result<Option<Value>, ComposeError>
    requires f in t.bodyFills
  {
    ResolveFill(t.bodyFills[f], f in t.requiredFills, deferred, true)
  }

  function FillParameters(t: Template, parameters: seq<Binding>, wire: Wire, deferred: map<Text,
        Value>): Result<Wire, ComposeError> {
    if parameters == [] then Ok(wire)
    else
      var earlier := FillParameters(t, parameters[..|parameters| - 1], wire, deferred);
      if earlier.Err? then earlier
      else
        var p := parameters[|parameters| - 1];
        var value := ParameterFill(t, p, deferred);
        if value.Err? then Err(value.error)
        else if value.value.None? then earlier
        else Ok(earlier.value[p.name := value.value.value])
  }

  /** The body's fills over the wire values; their order is immaterial. */
  function FillFields(t: Template, wire: Wire, deferred: map<Text, Value>): Result<Wire, ComposeError> {
    if exists f :: f in t.bodyFills && FieldFill(t, f, deferred).Err? then Err(DeferredValueMissing)
    else
      Ok(wire + map f | f in t.bodyFills && FieldFill(t, f, deferred).Ok? && FieldFill(t, f, deferred).value.Some?
                :: FieldFill(t, f, deferred).value.value)
  }

  function Filled(t: Template, wire: Wire, deferred: map<Text, Value>): Result<Wire, ComposeError> {
    var parameters := FillParameters(t, t.parameters, wire, deferred);
    if parameters.Err? then parameters else FillFields(t, parameters.value, deferred)
  }

  /** Whether a parameter's value stops the request. */
  function ParameterError(p: Binding, wire: Wire): Option<ComposeError> {
    if p.inPath then
      if p.name !in wire || wire[p.name] == Null
        || (p.isArray && wire[p.name] == List([])) then Some(MissingPathParameter) else None
    else if p.name in wire && wire[p.name] == Null then Some(NullNotAllowed)
    else None
  }

  /** Whether a parameter is written: an empty array outside the path is not. */
  predicate Writes(p: Binding, wire: Wire) {
    p.name in wire && !(p.isArray && wire[p.name] == List([]))
  }

  /** The path loop, then the loops over the other locations: the parameters that one of them writes. */
  function Written(parameters: seq<Binding>, inPath: bool, wire: Wire): Result<Wire, ComposeError> {
    if parameters == [] then Ok(map[])
    else
      var earlier := Written(parameters[..|parameters| - 1], inPath, wire);
      var p := parameters[|parameters| - 1];
      if earlier.Err? || p.inPath != inPath then earlier
      else if ParameterError(p, wire).Some? then Err(ParameterError(p, wire).value)
      else if Writes(p, wire) then Ok(earlier.value[p.name := wire[p.name]])
      else earlier
  }

  function BindingNames(parameters: seq<Binding>): (r: seq<Text>)
    ensures |r| == |parameters|
  {
    if parameters == [] then [] else BindingNames(parameters[..|parameters| - 1]) + [parameters[|parameters| - 1].name]
  }

  function BodyFields(t: Template, wire: Wire): Wire {
    map n | n in wire && n !in BindingNames(t.parameters)
      && (n in t.bodyProperties || t.bodyAllowsAdditional) :: wire[n]
  }

  function RootFill(t: Template, deferred: map<Text, Value>): Result<Option<Value>, ComposeError>
    requires t.bodyRoot.Some?
  {
    if t.rootFill.None? then Ok(None)
      else ResolveFill(t.rootFill.value, t.bodyRoot.value in t.requiredFills, deferred, true)
  }

  function BodyValue(t: Template, wire: Wire, deferred: map<Text, Value>): Result<Option<Body>, ComposeError> {
    if t.bodyRoot.Some? then
      var filled := RootFill(t, deferred);
      if filled.Err? then Err(filled.error)
      else if filled.value.Some? then Ok(Some(Root(filled.value.value)))
      else if t.rootFill.None? && t.bodyRoot.value in wire then Ok(Some(Root(wire[t.bodyRoot.value])))
      else Ok(None)
    else if t.hasBody then Ok(Some(Fields(BodyFields(t, wire))))
    else Ok(None)
  }

  /** What `compose` sends once the wire values are known. */
  function Sent(t: Template, wire: Wire, deferred: map<Text, Value>): Result<Request, ComposeError> {
    var path := Written(t.parameters, true, wire);
    if path.Err? then Err(path.error)
    else
      var others := Written(t.parameters, false, wire);
      if others.Err? then Err(others.error)
      else
        var body := BodyValue(t, wire, deferred);
        if body.Err? then Err(body.error) else Ok(Request(path.value + others.value, body.value))
  }

  /** `compose`, as far as slots go. */
  function Composed(t: Template, entries: seq<Entry>, deferred: map<Text, Value>): Result<Request, ComposeError> {
    if !AcceptsAll(t, entries) then Err(UnknownArgument)
    else
      var wire := Filled(t, Translated(t, entries), deferred);
      if wire.Err? then Err(wire.error) else Sent(t, wire.value, deferred)
  }

  /** What one slot of a request carries. */
  function Carried(t: Template, r: Request, wire: Text): Option<Value> {
    if wire in BindingNames(t.parameters) then if wire in r.parameters then Some(r.parameters[wire]) else None
    else
      match r.body
      case None => None
      case Some(Root(value)) => if t.bodyRoot == Some(wire) then Some(value) else None
      case Some(Fields(values)) => if wire in values then Some(values[wire]) else None
  }

  /** A value that is written: an empty array in an array parameter is not. */
  function Kept(t: Template, wire: Text, value: Option<Value>): Option<Value> {
    if value == Some(List([])) && (exists p :: p in t.parameters && p.name == wire && p.isArray) then None else value
  }

  /** `rejectUnknown`. */
  method RejectUnknown(t: Template, entries: seq<Entry>) returns (rejected: bool)
    ensures rejected <==> !AcceptsAll(t, entries)
  {
    var allowedNames := AllowedArgumentNames(t);
    var deniedNames := DeniedArgumentNames(t);
    var unknown := [];
    for i := 0 to |entries|
      invariant unknown == [] <==> AcceptsAll(t, entries[..i])
    {
      assert entries[..i + 1] == entries[..i] + [entries[i]];
      var known := entries[i].key !in deniedNames
        && (entries[i].key in allowedNames || (t.hasBody && t.bodyAllowsAdditional));
      if !known {
        unknown := unknown + [entries[i].key];
      }
    }
    assert entries[..|entries|] == entries;
    rejected := |unknown| > 0;
  }

  /** `translate`. */
  method Translate(t: Template, entries: seq<Entry>) returns (wire: Wire)
    ensures wire == Translated(t, entries)
  {
    var agentToWire := BuildTable(t);
    wire := map[];
    for i := 0 to |entries|
      invariant wire == Translated(t, entries[..i])
    {
      assert entries[..i + 1][..i] == entries[..i];
      var key := if entries[i].key in agentToWire then agentToWire[entries[i].key] else entries[i].key;
      wire := wire[key := entries[i].value];
    }
    assert entries[..|entries|] == entries;
  }

  lemma {:induction false} FillParametersFails(t: Template, parameters: seq<Binding>, wire: Wire, deferred: map<Text,
        Value>, n: nat)
    requires n <= |parameters| && FillParameters(t, parameters[..n], wire, deferred).Err?
    ensures FillParameters(t, parameters, wire, deferred) == FillParameters(t, parameters[..n], wire, deferred)
    decreases |parameters|
  {
    if n == |parameters| {
      assert parameters[..n] == parameters;
    } else {
      assert parameters[..|parameters| - 1][..n] == parameters[..n];
      FillParametersFails(t, parameters[..|parameters| - 1], wire, deferred, n);
    }
  }

  /** The body fills for the fields of `done`. */
  function FieldValues(t: Template, done: set<Text>, deferred: map<Text, Value>): Wire
    requires done <= t.bodyFills.Keys
  {
    map f | f in done && FieldFill(t, f, deferred).Ok?
      && FieldFill(t, f, deferred).value.Some? :: FieldFill(t, f, deferred).value.value
  }

  /** `applyFills`. */
  method ApplyFills(t: Template, sent: Wire, deferred: map<Text, Value>) returns (r: Result<Wire, ComposeError>)
    ensures r == Filled(t, sent, deferred)
  {
    var wire := sent;
    for i := 0 to |t.parameters|
      invariant FillParameters(t, t.parameters[..i], sent, deferred) == Ok(wire)
    {
      assert t.parameters[..i + 1][..i] == t.parameters[..i];
      var value := ParameterFill(t, t.parameters[i], deferred);
      if value.Err? {
        FillParametersFails(t, t.parameters, sent, deferred, i + 1);
        return Err(value.error);
      }
      if value.value.Some? {
        wire := wire[t.parameters[i].name := value.value.value];
      }
    }
    assert t.parameters[..|t.parameters|] == t.parameters;
    r := ApplyFieldFills(t, wire, deferred);
  }

  method ApplyFieldFills(t: Template, sent: Wire, deferred: map<Text, Value>) returns (r: Result<Wire, ComposeError>)
    ensures r == FillFields(t, sent, deferred)
  {
    var wire := sent;
    var rest := t.bodyFills.Keys;
    assert sent + FieldValues(t, {}, deferred) == sent;
    while rest != {}
      invariant rest <= t.bodyFills.Keys
      invariant forall f :: f in t.bodyFills && f !in rest ==> FieldFill(t, f, deferred).Ok?
      invariant wire == sent + FieldValues(t, t.bodyFills.Keys - rest, deferred)
    {
      var field :| field in rest;
      var value := FieldFill(t, field, deferred);
      if value.Err? { return Err(DeferredValueMissing); }
      FieldNext(t, sent, t.bodyFills.Keys - rest, field, deferred);
      assert t.bodyFills.Keys - (rest - {field}) == t.bodyFills.Keys - rest + {field};
      if value.value.Some? {
        wire := wire[field := value.value.value];
      }
      rest := rest - {field};
    }
    assert t.bodyFills.Keys - {} == t.bodyFills.Keys;
    r := Ok(wire);
  }

  lemma FieldNext(t: Template, sent: Wire, done: set<Text>, field: Text, deferred: map<Text, Value>)
    requires done <= t.bodyFills.Keys && field in t.bodyFills && field !in done && FieldFill(t, field, deferred).Ok?
    ensures sent + FieldValues(t, done + {field}, deferred)
         == var value := FieldFill(t, field, deferred).value;
            if value.Some? then (sent + FieldValues(t, done, deferred))[field := value.value]
              else sent + FieldValues(t, done, deferred)
  {
    var value := FieldFill(t, field, deferred).value;
    if value.Some? {
      assert FieldValues(t, done + {field}, deferred) == FieldValues(t, done, deferred)[field := value.value];
    } else {
      assert FieldValues(t, done + {field}, deferred) == FieldValues(t, done, deferred);
    }
  }

  lemma {:induction false} WrittenFails(parameters: seq<Binding>, inPath: bool, wire: Wire, n: nat)
    requires n <= |parameters| && Written(parameters[..n], inPath, wire).Err?
    ensures Written(parameters, inPath, wire) == Written(parameters[..n], inPath, wire)
    decreases |parameters|
  {
    if n == |parameters| {
      assert parameters[..n] == parameters;
    } else {
      assert parameters[..|parameters| - 1][..n] == parameters[..n];
      WrittenFails(parameters[..|parameters| - 1], inPath, wire, n);
    }
  }

  /** One of the location loops. */
  method WriteParameters(parameters: seq<Binding>, inPath: bool, wire: Wire) returns (r: Result<Wire, ComposeError>)
    ensures r == Written(parameters, inPath, wire)
  {
    var written: Wire := map[];
    for i := 0 to |parameters|
      invariant Written(parameters[..i], inPath, wire) == Ok(written)
    {
      assert parameters[..i + 1][..i] == parameters[..i];
      var p := parameters[i];
      if p.inPath != inPath { continue; }
      if ParameterError(p, wire).Some? {
        WrittenFails(parameters, inPath, wire, i + 1);
        return Err(ParameterError(p, wire).value);
      }
      if Writes(p, wire) {
        written := written[p.name := wire[p.name]];
      }
    }
    assert parameters[..|parameters|] == parameters;
    r := Ok(written);
  }

  /** `compose`, as far as slots go. */
  method Compose(t: Template, entries: seq<Entry>, deferred: map<Text, Value>)
    returns (r: Result<Request, ComposeError>)
    ensures r == Composed(t, entries, deferred)
  {
    var rejected := RejectUnknown(t, entries);
    if rejected { return Err(UnknownArgument); }
    var sent := Translate(t, entries);
    var wire := ApplyFills(t, sent, deferred);
    if wire.Err? { return Err(wire.error); }
    var path := WriteParameters(t.parameters, true, wire.value);
    if path.Err? { return Err(path.error); }
    var others := WriteParameters(t.parameters, false, wire.value);
    if others.Err? { return Err(others.error); }
    var body := BodyValue(t, wire.value, deferred);
    if body.Err? { return Err(body.error); }
    r := Ok(Request(path.value + others.value, body.value));
  }
}
