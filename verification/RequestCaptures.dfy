/** Arguments both hidden and renamed: exactly when the new name lets the agent into the hidden slot. */
module RequestCaptures {
  import opened Wrappers
  import opened Curation
  import opened RequestSchema
  import opened RequestTemplates
  import opened RequestAgreement
  import opened RequestComposition
  import opened RequestConservation

  // Which slots the agent reaches.

  /** A name that is allowed, or that an open body takes. */
  ghost predicate Admitted(e: Endpoint, c: ByWireName, k: Text) {
    || Called(c, ParameterNames(e.parameters), k)
    || LastRenamed(c, FieldsOf(e), k).Some?
    || (k in FieldsOf(e) && !Hidden(c, k) && !Aliased(e, c, k))
    || (RootOf(e) == Some(k) && !Hidden(c, k))
    || SchemaOf(e, c).additional
  }

  /** The argument's name is not refused, is admitted, and is nobody else's in the template's table. */
  ghost predicate Reached(e: Endpoint, c: ByWireName, w: Text) {
    var k := AgentName(c, w);
    !Refused(e, c, k) && Admitted(e, c, k) && Holder(e, c, k) == if Renamed(c, w) then Some(w) else None
  }

  lemma ReachedAccepts(e: Endpoint, c: ByWireName, w: Text)
    requires Reached(e, c, w)
    ensures Accepts(TemplateOf(e, c), AgentName(c, w)) && WireOf(TemplateOf(e, c), AgentName(c, w)) == w
  {
    AcceptsIs(e, c, AgentName(c, w));
    AllowedIs(e, c, AgentName(c, w));
    TableIs(e, c, AgentName(c, w));
  }

  /** A parameter's slot, or a hidden field's, is reached by its own name or by none. */
  lemma ReachedExactly(e: Endpoint, c: ByWireName, w: Text)
    requires Sound(e, c) && (w in ParameterNames(e.parameters) || (w in FieldsOf(e) && Hidden(c, w)))
    ensures Reached(e, c, w) <==> exists k :: Accepts(TemplateOf(e, c), k) && WireOf(TemplateOf(e, c), k) == w
  {
    if Reached(e, c, w) { ReachedAccepts(e, c, w); }
    forall k | Accepts(TemplateOf(e, c), k) && WireOf(TemplateOf(e, c), k) == w ensures Reached(e, c, w) {
      WiresAre(e, w);
      WiresSplit(e, c);
      AcceptedLeads(e, c, k);
      TableIs(e, c, k);
      HolderIs(e, c, k);
      AcceptsIs(e, c, k);
      AllowedIs(e, c, k);
    }
  }

  // Which requests can be composed at all.

  /** A value that stands in a parameter's place without an error. */
  predicate Fits(p: Parameter, v: Value) {
    v != Null && !(p.inPath && p.isArray && v == List([]))
  }

  /** A parameter in the path that no fill supplies. */
  predicate Wanting(c: ByWireName, p: Parameter) {
    p.inPath && (Hidden(c, p.name) ==> c[p.name].fill == Some(Omit))
  }

  predicate ConstantFits(c: ByWireName, p: Parameter) {
    Hidden(c, p.name) && c[p.name].fill.value.Constant? ==> Fits(p, c[p.name].fill.value.value)
  }

  /** The agent reaches each path parameter that no fill supplies, and every constant can be written. */
  ghost predicate Composable(e: Endpoint, c: ByWireName) {
    forall p :: p in e.parameters ==> ConstantFits(c, p) && (Wanting(c, p) ==> Reached(e, c, p.name))
  }

  /** Every hidden argument that needs a value has one. */
  ghost predicate Provided(e: Endpoint, c: ByWireName, deferred: map<Text, Value>) {
    forall w :: Hidden(c, w) ==> HiddenFill(e, c, deferred, w).Ok?
  }

  predicate Plain(deferred: map<Text, Value>) {
    forall s :: s in deferred ==> deferred[s] == Null || deferred[s].Atom?
  }

  /** One value for each of some arguments, under the arguments' names. */
  function Supply(c: ByWireName, wires: seq<Text>, v: Value): (r: seq<Entry>)
    ensures |r| == |wires|
  {
    if wires == [] then []
    else Supply(c, wires[..|wires| - 1], v) + [Entry(AgentName(c, wires[|wires| - 1]), v)]
  }

  function Places(wires: seq<Text>, v: Value): Wire {
    map w | w in wires :: v
  }

  lemma {:induction false} SupplyKeys(c: ByWireName, wires: seq<Text>, v: Value, k: Text)
    ensures k in Keys(Supply(c, wires, v)) <==> exists w :: w in wires && AgentName(c, w) == k
    ensures forall x :: x in Supply(c, wires, v) ==> x.value == v && x.key in Keys(Supply(c, wires, v))
  {
    if wires != [] {
      var rest, last := wires[..|wires| - 1], wires[|wires| - 1];
      assert wires == rest + [last];
      SupplyKeys(c, rest, v, k);
      KeysSnoc(Supply(c, rest, v), Entry(AgentName(c, last), v));
      assert AgentName(c, last) in Keys(Supply(c, wires, v));
    }
  }

  lemma KeysSnoc(entries: seq<Entry>, x: Entry)
    ensures Keys(entries + [x]) == Keys(entries) + [x.key]
  {
    assert (entries + [x])[..|entries|] == entries;
  }

  lemma TranslatedSnoc(t: Template, entries: seq<Entry>, x: Entry)
    ensures Translated(t, entries + [x]) == Translated(t, entries)[WireOf(t, x.key) := x.value]
  {
    assert (entries + [x])[..|entries|] == entries;
  }

  /** Each of the arguments is accepted and lands in its own slot. */
  predicate Lands(t: Template, c: ByWireName, w: Text) {
    Accepts(t, AgentName(c, w)) && WireOf(t, AgentName(c, w)) == w
  }

  ghost predicate NamedApart(c: ByWireName, wires: seq<Text>) {
    forall a, b :: a in wires && b in wires && AgentName(c, a) == AgentName(c, b) ==> a == b
  }

  lemma {:induction false} SupplyUnique(c: ByWireName, wires: seq<Text>, v: Value)
    requires Unique(wires) && NamedApart(c, wires)
    ensures Unique(Keys(Supply(c, wires, v)))
  {
    if wires != [] {
      var rest, last := wires[..|wires| - 1], wires[|wires| - 1];
      assert wires == rest + [last];
      SupplyUnique(c, rest, v);
      KeysSnoc(Supply(c, rest, v), Entry(AgentName(c, last), v));
      SupplyKeys(c, rest, v, AgentName(c, last));
      UniqueSnoc(Keys(Supply(c, rest, v)), AgentName(c, last));
    }
  }

  lemma LandApart(t: Template, c: ByWireName, wires: seq<Text>)
    requires forall w :: w in wires ==> Lands(t, c, w)
    ensures NamedApart(c, wires)
  {
    forall a, b | a in wires && b in wires && AgentName(c, a) == AgentName(c, b) ensures a == b {
      assert Lands(t, c, a) && Lands(t, c, b);
    }
  }

  lemma PlacesSnoc(rest: seq<Text>, last: Text, v: Value)
    ensures Places(rest + [last], v) == Places(rest, v)[last := v]
  {
  }

  /** Arguments supplied for slots that their names lead to are accepted, stand there, and nowhere else. */
  lemma {:induction false} SupplyLands(t: Template, c: ByWireName, wires: seq<Text>, v: Value)
    requires forall w :: w in wires ==> Lands(t, c, w)
    ensures AcceptsAll(t, Supply(c, wires, v)) && Translated(t, Supply(c, wires, v)) == Places(wires, v)
  {
    if wires == [] {
      assert Places(wires, v) == map[];
    } else {
      var rest, last := wires[..|wires| - 1], wires[|wires| - 1];
      assert wires == rest + [last];
      SupplyLands(t, c, rest, v);
      TranslatedSnoc(t, Supply(c, rest, v), Entry(AgentName(c, last), v));
      PlacesSnoc(rest, last, v);
      assert Lands(t, c, last);
    }
  }

  lemma UniqueSnoc(s: seq<Text>, x: Text)
    requires Unique(s) && x !in s
    ensures Unique(s + [x])
  {
    assert (s + [x])[..|s|] == s;
  }

  lemma {:induction false} AllFill(t: Template, parameters: seq<Binding>, wire: Wire, deferred: map<Text, Value>)
    requires forall p :: p in parameters ==> ParameterFill(t, p, deferred).Ok?
    ensures FillParameters(t, parameters, wire, deferred).Ok?
  {
    if parameters != [] {
      assert parameters == parameters[..|parameters| - 1] + [parameters[|parameters| - 1]];
      AllFill(t, parameters[..|parameters| - 1], wire, deferred);
    }
  }

  lemma {:induction false} AllWrite(parameters: seq<Binding>, inPath: bool, wire: Wire)
    requires forall p :: p in parameters ==> ParameterError(p, wire).None?
    ensures Written(parameters, inPath, wire).Ok?
  {
    if parameters != [] {
      assert parameters == parameters[..|parameters| - 1] + [parameters[|parameters| - 1]];
      AllWrite(parameters[..|parameters| - 1], inPath, wire);
    }
  }

  lemma ProvidedFills(e: Endpoint, c: ByWireName, wire: Wire, deferred: map<Text, Value>)
    requires Sound(e, c) && Provided(e, c, deferred)
    ensures Filled(TemplateOf(e, c), wire, deferred).Ok?
  {
    var t := TemplateOf(e, c);
    forall b | b in t.parameters ensures ParameterFill(t, b, deferred).Ok? {
      ParameterFillIs(e, c, t, deferred, b);
    }
    AllFill(t, t.parameters, wire, deferred);
    forall f | f in t.bodyFills ensures FieldFill(t, f, deferred).Ok? {
      BodyFillsAre(e, c, f);
      FieldFillIs(e, c, deferred, f);
    }
  }

  lemma ProvidedRoot(e: Endpoint, c: ByWireName, wire: Wire, deferred: map<Text, Value>)
    requires Sound(e, c) && Provided(e, c, deferred)
    ensures BodyValue(TemplateOf(e, c), wire, deferred).Ok?
  {
    if RootOf(e).Some? && Hidden(c, RootOf(e).value) { RootFillIs(e, c, deferred); }
  }

  lemma FittingIsNoError(c: ByWireName, p: Parameter, wire: Wire)
    requires Get(wire, p.name).None? ==> !p.inPath
    requires Get(wire, p.name).Some? ==> Fits(p, Get(wire, p.name).value)
    ensures ParameterError(BindingOf(c, p), wire).None?
  {
  }

  lemma HiddenFits(e: Endpoint, c: ByWireName, deferred: map<Text, Value>, p: Parameter)
    requires Hidden(c, p.name) && p in e.parameters && ConstantFits(c, p) && Plain(deferred)
    requires HiddenFill(e, c, deferred, p.name).Ok?
    ensures var fill := HiddenFill(e, c, deferred, p.name).value;
      if fill.Some? then Fits(p, fill.value) else p.inPath ==> Wanting(c, p)
  {
    ParameterNamesHold(e.parameters);
    assert p.inPath ==> InPath(e.parameters, p.name);
  }

  /** No parameter's value stops the request. */
  lemma NoParameterError(e: Endpoint, c: ByWireName, wires: seq<Text>, v: Value, deferred: map<Text, Value>,
        p: Parameter)
    requires Sound(e, c) && Provided(e, c, deferred) && Plain(deferred) && ConstantFits(c, p) && p in e.parameters
    requires v.Atom? && (Wanting(c, p) ==> p.name in wires)
    requires Filled(TemplateOf(e, c), Places(wires, v), deferred).Ok?
    ensures ParameterError(BindingOf(c, p), Filled(TemplateOf(e, c), Places(wires, v), deferred).value).None?
  {
    FilledHolds(e, c, TemplateOf(e, c), Places(wires, v), deferred, p.name);
    ParameterNamesHold(e.parameters);
    WiresSplit(e, c);
    if Hidden(c, p.name) { HiddenFits(e, c, deferred, p); }
    FittingIsNoError(c, p, Filled(TemplateOf(e, c), Places(wires, v), deferred).value);
  }

  lemma Composes(e: Endpoint, c: ByWireName, wires: seq<Text>, v: Value, deferred: map<Text, Value>)
    requires Sound(e, c) && Provided(e, c, deferred) && Plain(deferred) && Composable(e, c) && v.Atom?
    requires Unique(wires) && forall w :: w in wires ==> Reached(e, c, w)
    requires forall p :: p in e.parameters && Wanting(c, p) ==> p.name in wires
    ensures Unique(Keys(Supply(c, wires, v))) && Composed(TemplateOf(e, c), Supply(c, wires, v), deferred).Ok?
    ensures Translated(TemplateOf(e, c), Supply(c, wires, v)) == Places(wires, v)
  {
    var t := TemplateOf(e, c);
    forall w | w in wires ensures Lands(t, c, w) { ReachedAccepts(e, c, w); }
    LandApart(t, c, wires);
    SupplyUnique(c, wires, v);
    SupplyLands(t, c, wires, v);
    ProvidedFills(e, c, Places(wires, v), deferred);
    var wire := Filled(t, Places(wires, v), deferred).value;
    forall b | b in t.parameters ensures ParameterError(b, wire).None? {
      BindingsHold(c, e.parameters);
      var p :| p in e.parameters && b == BindingOf(c, p);
      NoParameterError(e, c, wires, v, deferred, p);
    }
    AllWrite(t.parameters, true, wire);
    AllWrite(t.parameters, false, wire);
    ProvidedRoot(e, c, wire, deferred);
  }

  /** The names of the path parameters that no fill supplies. */
  function WantingNames(c: ByWireName, parameters: seq<Parameter>): seq<Text> {
    if parameters == [] then []
    else
      var p := parameters[|parameters| - 1];
      WantingNames(c, parameters[..|parameters| - 1]) + if Wanting(c, p) then [p.name] else []
  }

  lemma WantingSnoc(c: ByWireName, rest: seq<Parameter>, last: Parameter)
    ensures WantingNames(c, rest + [last]) == WantingNames(c, rest) + if Wanting(c, last) then [last.name] else []
  {
    assert (rest + [last])[..|rest|] == rest;
  }

  lemma {:induction false} WantingNamesAre(c: ByWireName, parameters: seq<Parameter>, w: Text)
    ensures w in WantingNames(c, parameters) <==> exists p :: p in parameters && Wanting(c, p) && p.name == w
  {
    if parameters != [] {
      var rest, last := parameters[..|parameters| - 1], parameters[|parameters| - 1];
      assert parameters == rest + [last];
      WantingSnoc(c, rest, last);
      WantingNamesAre(c, rest, w);
    }
  }

  lemma {:induction false} WantingNamesUnique(c: ByWireName, parameters: seq<Parameter>)
    requires Unique(ParameterNames(parameters))
    ensures Unique(WantingNames(c, parameters))
  {
    if parameters != [] {
      var rest, last := parameters[..|parameters| - 1], parameters[|parameters| - 1];
      assert parameters == rest + [last];
      assert ParameterNames(parameters)[..|rest|] == ParameterNames(rest);
      WantingNamesUnique(c, rest);
      WantingSnoc(c, rest, last);
      WantingNamesAre(c, rest, last.name);
      ParameterNamesHold(rest);
      if Wanting(c, last) {
        UniqueSnoc(WantingNames(c, rest), last.name);
      } else {
        assert WantingNames(c, parameters) == WantingNames(c, rest);
      }
    }
  }

  lemma WantingHold(e: Endpoint, c: ByWireName)
    requires Sound(e, c) && Composable(e, c)
    ensures Unique(WantingNames(c, e.parameters))
    ensures forall x :: x in WantingNames(c, e.parameters) ==> Reached(e, c, x)
    ensures forall p :: p in e.parameters && Wanting(c, p) ==> p.name in WantingNames(c, e.parameters)
  {
    UniqueAppend(ParameterNames(e.parameters), if RootOf(e).Some? then [RootOf(e).value] else FieldsOf(e));
    WantingNamesUnique(c, e.parameters);
    forall x | x in WantingNames(c, e.parameters) ensures Reached(e, c, x) {
      WantingNamesAre(c, e.parameters, x);
      var p :| p in e.parameters && Wanting(c, p) && p.name == x;
    }
    forall p | p in e.parameters && Wanting(c, p) ensures p.name in WantingNames(c, e.parameters) {
      WantingNamesAre(c, e.parameters, p.name);
    }
  }

  /** The slots to supply so that a request composes, `w` among them. */
  function Supplied(e: Endpoint, c: ByWireName, w: Text): seq<Text> {
    var names := WantingNames(c, e.parameters);
    if w in names then names else names + [w]
  }

  lemma SuppliedHolds(e: Endpoint, c: ByWireName, w: Text)
    requires Sound(e, c) && Composable(e, c) && Reached(e, c, w)
    ensures w in Supplied(e, c, w) && Unique(Supplied(e, c, w))
    ensures forall x :: x in Supplied(e, c, w) ==> Reached(e, c, x)
    ensures forall p :: p in e.parameters && Wanting(c, p) ==> p.name in Supplied(e, c, w)
  {
    WantingHold(e, c);
    if w !in WantingNames(c, e.parameters) { UniqueSnoc(WantingNames(c, e.parameters), w); }
  }

  // When nothing can be composed.

  lemma NoErrorFits(c: ByWireName, p: Parameter, wire: Wire)
    requires ParameterError(BindingOf(c, p), wire).None?
    ensures Get(wire, p.name).Some? ==> Fits(p, Get(wire, p.name).value)
    ensures p.inPath ==> Get(wire, p.name).Some?
  {
  }

  lemma SentIsReached(e: Endpoint, c: ByWireName, entries: seq<Entry>, w: Text)
    requires Sound(e, c) && AcceptsAll(TemplateOf(e, c), entries) && w in Translated(TemplateOf(e, c), entries)
    requires w in ParameterNames(e.parameters) || (w in FieldsOf(e) && Hidden(c, w))
    ensures Reached(e, c, w)
  {
    TranslatedBack(TemplateOf(e, c), entries, w);
    ReachedExactly(e, c, w);
  }

  /** A parameter of a request that was composed: its constant fits, and it was reached when it needed to be. */
  lemma ComposedParameter(e: Endpoint, c: ByWireName, entries: seq<Entry>, deferred: map<Text, Value>, p: Parameter)
    requires Sound(e, c) && AcceptsAll(TemplateOf(e, c), entries) && p in e.parameters
    requires Filled(TemplateOf(e, c), Translated(TemplateOf(e, c), entries), deferred).Ok?
    requires var t := TemplateOf(e, c);
      ParameterError(BindingOf(c, p), Filled(t, Translated(t, entries), deferred).value).None?
    ensures ConstantFits(c, p) && (Wanting(c, p) ==> Reached(e, c, p.name))
  {
    var t := TemplateOf(e, c);
    ParameterNamesHold(e.parameters);
    WiresSplit(e, c);
    FilledHolds(e, c, t, Translated(t, entries), deferred, p.name);
    NoErrorFits(c, p, Filled(t, Translated(t, entries), deferred).value);
    if Wanting(c, p) { SentIsReached(e, c, entries, p.name); }
  }

  /** A request that was composed had every needed value, and every path parameter. */
  lemma ComposedIsComposable(e: Endpoint, c: ByWireName, entries: seq<Entry>, deferred: map<Text, Value>)
    requires Sound(e, c) && Composed(TemplateOf(e, c), entries, deferred).Ok?
    ensures Composable(e, c)
  {
    var t := TemplateOf(e, c);
    ComposedSteps(t, entries, deferred);
    var wire := Filled(t, Translated(t, entries), deferred).value;
    forall p | p in e.parameters ensures ConstantFits(c, p) && (Wanting(c, p) ==> Reached(e, c, p.name)) {
      BindingsHold(c, e.parameters);
      WrittenIsRight(t.parameters, p.inPath, wire, BindingOf(c, p));
      ComposedParameter(e, c, entries, deferred, p);
    }
  }

  lemma {:induction false} WrittenIsRight(parameters: seq<Binding>, inPath: bool, wire: Wire, p: Binding)
    requires Written(parameters, inPath, wire).Ok? && p in parameters && p.inPath == inPath
    ensures ParameterError(p, wire).None?
  {
    assert parameters == parameters[..|parameters| - 1] + [parameters[|parameters| - 1]];
    if p in parameters[..|parameters| - 1] { WrittenIsRight(parameters[..|parameters| - 1], inPath, wire, p); }
  }

  // When a hidden slot can be without a value of its own.

  /**
   * A hidden argument that may have no fill: it is left out, or its value may be missing. A value may not be missing
   * that another hidden argument needs; a null is missing for a parameter, but not for the body.
   */
  ghost predicate Absentable(e: Endpoint, c: ByWireName, w: Text)
    requires Hidden(c, w)
  {
    match c[w].fill.value
    case Omit => true
    case Constant(_) => false
    case Deferred(source) =>
      && !Demanded(e, w)
      && forall v :: Hidden(c, v) && c[v].fill == Some(Deferred(source)) && Demanded(e, v) ==>
           w in ParameterNames(e.parameters) && v !in ParameterNames(e.parameters)
  }

  /** A value for every source. */
  function Everything(c: ByWireName): map<Text, Value> {
    map w | w in c && Hidden(c, w) && c[w].fill.value.Deferred? :: c[w].fill.value.source := Atom(0)
  }

  /** A value for every source but that of `w`, which is missing for `w`. */
  function AllBut(e: Endpoint, c: ByWireName, w: Text): map<Text, Value>
    requires Hidden(c, w)
  {
    match c[w].fill.value
    case Deferred(source) =>
      if w in ParameterNames(e.parameters) then Everything(c)[source := Null] else Everything(c) - {source}
    case _ => Everything(c)
  }

  lemma EverythingProvides(e: Endpoint, c: ByWireName)
    ensures Provided(e, c, Everything(c)) && Plain(Everything(c))
  {
    forall w | Hidden(c, w) ensures HiddenFill(e, c, Everything(c), w).Ok? { HasSource(c, w); }
  }

  lemma HasSource(c: ByWireName, w: Text)
    requires Hidden(c, w)
    ensures c[w].fill.value.Deferred? ==>
      c[w].fill.value.source in Everything(c) && Everything(c)[c[w].fill.value.source] == Atom(0)
  {
    if c[w].fill.value.Deferred? { assert w in c; }
  }

  lemma AllButProvides(e: Endpoint, c: ByWireName, w: Text)
    requires Hidden(c, w) && Absentable(e, c, w)
    ensures Provided(e, c, AllBut(e, c, w)) && Plain(AllBut(e, c, w))
    ensures HiddenFill(e, c, AllBut(e, c, w), w) == Ok(None)
  {
    forall v | Hidden(c, v) ensures HiddenFill(e, c, AllBut(e, c, w), v).Ok? { HasSource(c, v); }
  }

  /** `Absentable` is what it says: some values suffice for every hidden argument and leave this one without. */
  lemma AbsentableExactly(e: Endpoint, c: ByWireName, w: Text)
    requires Hidden(c, w)
    ensures Absentable(e, c, w) <==>
      exists deferred :: Provided(e, c, deferred) && HiddenFill(e, c, deferred, w) == Ok(None)
  {
    if Absentable(e, c, w) { AllButProvides(e, c, w); }
    forall deferred | Provided(e, c, deferred) && HiddenFill(e, c, deferred, w) == Ok(None)
      ensures Absentable(e, c, w)
    {
      AbsentIsAbsentable(e, c, deferred, w);
    }
  }

  lemma AbsentIsAbsentable(e: Endpoint, c: ByWireName, deferred: map<Text, Value>, w: Text)
    requires Hidden(c, w) && Provided(e, c, deferred) && HiddenFill(e, c, deferred, w) == Ok(None)
    ensures Absentable(e, c, w)
  {
    if c[w].fill.value.Deferred? {
      forall v | Hidden(c, v) && c[v].fill == c[w].fill && Demanded(e, v)
        ensures w in ParameterNames(e.parameters) && v !in ParameterNames(e.parameters)
      {
        assert HiddenFill(e, c, deferred, v).Ok?;
      }
    }
  }

  // The exact conditions.

  /** The slot of a hidden argument carries its fill or nothing. */
  ghost predicate StaysHidden(e: Endpoint, c: ByWireName, entries: seq<Entry>, deferred: map<Text, Value>, w: Text) {
    Hidden(c, w) && Unique(Keys(entries)) && Composed(TemplateOf(e, c), entries, deferred).Ok? ==>
      && HiddenFill(e, c, deferred, w).Ok?
      && Carried(TemplateOf(e, c), Composed(TemplateOf(e, c), entries, deferred).value, w)
         == Kept(TemplateOf(e, c), w, HiddenFill(e, c, deferred, w).value)
  }

  /** What was sent as an argument stands in its slot. */
  ghost predicate StaysSent(e: Endpoint, c: ByWireName, entries: seq<Entry>, deferred: map<Text, Value>, x: Entry) {
    x in entries && Unique(Keys(entries)) && Composed(TemplateOf(e, c), entries, deferred).Ok? ==>
      Carried(TemplateOf(e, c), Composed(TemplateOf(e, c), entries, deferred).value, WireOf(TemplateOf(e, c), x.key))
        == Kept(TemplateOf(e, c), WireOf(TemplateOf(e, c), x.key), Some(x.value))
  }

  /** No hidden argument that may be without a fill is reached by its new name. */
  ghost predicate NoneExposed(e: Endpoint, c: ByWireName) {
    forall w :: Hidden(c, w) && Absentable(e, c, w) ==> !Reached(e, c, w)
  }

  /** No hidden argument that may have a fill is reached by its new name. */
  ghost predicate NoneOverwritten(e: Endpoint, c: ByWireName) {
    forall w :: Hidden(c, w) && c[w].fill != Some(Omit) ==> !Reached(e, c, w)
  }

  lemma ComposedIsProvided(e: Endpoint, variant: seq<ArgumentRecord>, folded: set<Text>, c: ByWireName,
        entries: seq<Entry>, deferred: map<Text, Value>)
    requires Built(e, variant, folded, c) && Unique(Keys(entries))
    requires Composed(TemplateOf(e, c), entries, deferred).Ok?
    ensures Provided(e, c, deferred)
  {
    forall w | Hidden(c, w) ensures HiddenFill(e, c, deferred, w).Ok? {
      HiddenCarries(e, variant, folded, c, entries, deferred, w);
    }
  }

  lemma HiddenNotSent(e: Endpoint, c: ByWireName, entries: seq<Entry>, w: Text)
    requires Sound(e, c) && AcceptsAll(TemplateOf(e, c), entries) && Hidden(c, w) && !Reached(e, c, w)
    ensures w !in Translated(TemplateOf(e, c), entries)
  {
    WiresAre(e, w);
    if RootOf(e) == Some(w) { RootNotSent(e, c, entries); }
    if w in Translated(TemplateOf(e, c), entries) { SentIsReached(e, c, entries, w); }
  }

  lemma UnexposedStays(e: Endpoint, variant: seq<ArgumentRecord>, folded: set<Text>, c: ByWireName,
        entries: seq<Entry>, deferred: map<Text, Value>, w: Text)
    requires Built(e, variant, folded, c) && (Composable(e, c) ==> NoneExposed(e, c))
    ensures StaysHidden(e, c, entries, deferred, w)
  {
    var t := TemplateOf(e, c);
    if Hidden(c, w) && Unique(Keys(entries)) && Composed(t, entries, deferred).Ok? {
      BuiltIsSound(e, variant, folded, c);
      ComposedIsComposable(e, c, entries, deferred);
      ComposedIsProvided(e, variant, folded, c, entries, deferred);
      HiddenCarries(e, variant, folded, c, entries, deferred, w);
      if HiddenFill(e, c, deferred, w).value.None? {
        AbsentIsAbsentable(e, c, deferred, w);
        ComposedSteps(t, entries, deferred);
        HiddenNotSent(e, c, entries, w);
      }
    }
  }

  /** A hidden slot that is exposed is written by some argument list. */
  lemma ExposedIsWritten(e: Endpoint, variant: seq<ArgumentRecord>, folded: set<Text>, c: ByWireName, w: Text)
    requires Built(e, variant, folded, c) && Composable(e, c)
    requires Hidden(c, w) && Absentable(e, c, w) && Reached(e, c, w)
    ensures !StaysHidden(e, c, Supply(c, Supplied(e, c, w), Atom(0)), AllBut(e, c, w), w)
  {
    BuiltIsSound(e, variant, folded, c);
    SuppliedHolds(e, c, w);
    AllButProvides(e, c, w);
    Composes(e, c, Supplied(e, c, w), Atom(0), AllBut(e, c, w));
    HiddenCarries(e, variant, folded, c, Supply(c, Supplied(e, c, w), Atom(0)), AllBut(e, c, w), w);
  }

  /**
   * For all argument lists and values, every hidden slot carries its fill or nothing: exactly when no hidden
   * argument that may be without a fill is reached by a new name of its own, or no request can be composed at all.
   */
  lemma HiddenCarriesFillExactly(e: Endpoint, variant: seq<ArgumentRecord>, folded: set<Text>, c: ByWireName)
    requires Built(e, variant, folded, c)
    ensures (forall entries, deferred, w :: StaysHidden(e, c, entries, deferred, w)) <==>
      (Composable(e, c) ==> NoneExposed(e, c))
  {
    if Composable(e, c) ==> NoneExposed(e, c) {
      forall entries, deferred, w ensures StaysHidden(e, c, entries, deferred, w) {
        UnexposedStays(e, variant, folded, c, entries, deferred, w);
      }
    } else {
      var w :| Hidden(c, w) && Absentable(e, c, w) && Reached(e, c, w);
      ExposedIsWritten(e, variant, folded, c, w);
    }
  }

  lemma UntouchedStays(e: Endpoint, variant: seq<ArgumentRecord>, folded: set<Text>, c: ByWireName,
        entries: seq<Entry>, deferred: map<Text, Value>, x: Entry)
    requires Built(e, variant, folded, c) && (Composable(e, c) ==> NoneOverwritten(e, c))
    ensures StaysSent(e, c, entries, deferred, x)
  {
    var t := TemplateOf(e, c);
    if x in entries && Unique(Keys(entries)) && Composed(t, entries, deferred).Ok? {
      var w := WireOf(t, x.key);
      BuiltIsSound(e, variant, folded, c);
      ComposedIsComposable(e, c, entries, deferred);
      AcceptedIsCarried(e, variant, folded, c, entries, deferred, x);
      ComposedSteps(t, entries, deferred);
      if Hidden(c, w) { HiddenIsReached(e, c, x.key); }
    }
  }

  lemma HiddenIsReached(e: Endpoint, c: ByWireName, k: Text)
    requires Sound(e, c) && Accepts(TemplateOf(e, c), k) && Hidden(c, WireOf(TemplateOf(e, c), k))
    ensures Reached(e, c, WireOf(TemplateOf(e, c), k))
  {
    var w := WireOf(TemplateOf(e, c), k);
    WiresAre(e, w);
    if RootOf(e) == Some(w) { NotHiddenRoot(e, c, k); } else { ReachedExactly(e, c, w); }
  }

  /** A value that is not the fill's. */
  function Another(fill: Option<Value>): Value {
    if fill == Some(Atom(1)) then Atom(2) else Atom(1)
  }

  /** An argument for a reached slot, in an argument list that composes. */
  lemma SuppliedEntry(e: Endpoint, c: ByWireName, w: Text, v: Value) returns (entries: seq<Entry>, x: Entry)
    requires Sound(e, c) && Composable(e, c) && Reached(e, c, w) && v.Atom?
    ensures x in entries && x.value == v && WireOf(TemplateOf(e, c), x.key) == w && Unique(Keys(entries))
    ensures Composed(TemplateOf(e, c), entries, Everything(c)).Ok?
  {
    EverythingProvides(e, c);
    SuppliedHolds(e, c, w);
    entries := Supply(c, Supplied(e, c, w), v);
    Composes(e, c, Supplied(e, c, w), v, Everything(c));
    assert w in Places(Supplied(e, c, w), v);
    TranslatedBack(TemplateOf(e, c), entries, w);
    x :| x in entries && WireOf(TemplateOf(e, c), x.key) == w;
    SupplyKeys(c, Supplied(e, c, w), v, x.key);
  }

  lemma FillPresent(e: Endpoint, c: ByWireName, w: Text)
    requires Hidden(c, w) && c[w].fill != Some(Omit)
    ensures HiddenFill(e, c, Everything(c), w).Ok? && HiddenFill(e, c, Everything(c), w).value.Some?
  {
    HasSource(c, w);
  }

  lemma OverwrittenIsLost(e: Endpoint, variant: seq<ArgumentRecord>, folded: set<Text>, c: ByWireName, w: Text)
    returns (entries: seq<Entry>, x: Entry)
    requires Built(e, variant, folded, c) && Composable(e, c)
    requires Hidden(c, w) && c[w].fill != Some(Omit) && Reached(e, c, w)
    ensures !StaysSent(e, c, entries, Everything(c), x)
  {
    BuiltIsSound(e, variant, folded, c);
    FillPresent(e, c, w);
    entries, x := SuppliedEntry(e, c, w, Another(HiddenFill(e, c, Everything(c), w).value));
    AcceptedIsCarried(e, variant, folded, c, entries, Everything(c), x);
  }

  /**
   * For all argument lists and values, what was accepted stands in the slot that it leads to: exactly when no hidden
   * argument that may have a fill is reached by a new name of its own, or no request can be composed at all.
   */
  lemma AcceptedIsCarriedExactly(e: Endpoint, variant: seq<ArgumentRecord>, folded: set<Text>, c: ByWireName)
    requires Built(e, variant, folded, c)
    ensures (forall entries, deferred, x :: StaysSent(e, c, entries, deferred, x)) <==>
      (Composable(e, c) ==> NoneOverwritten(e, c))
  {
    if Composable(e, c) ==> NoneOverwritten(e, c) {
      forall entries, deferred, x ensures StaysSent(e, c, entries, deferred, x) {
        UntouchedStays(e, variant, folded, c, entries, deferred, x);
      }
    } else {
      var w :| Hidden(c, w) && c[w].fill != Some(Omit) && Reached(e, c, w);
      var entries, x := OverwrittenIsLost(e, variant, folded, c, w);
    }
  }

  /** A request can be composed for some arguments and values exactly when the endpoint is composable. */
  lemma ComposableExactly(e: Endpoint, variant: seq<ArgumentRecord>, folded: set<Text>, c: ByWireName)
    requires Built(e, variant, folded, c)
    ensures Composable(e, c) <==> exists entries, deferred :: Composed(TemplateOf(e, c), entries, deferred).Ok?
  {
    BuiltIsSound(e, variant, folded, c);
    if Composable(e, c) {
      EverythingProvides(e, c);
      WantingHold(e, c);
      Composes(e, c, WantingNames(c, e.parameters), Atom(0), Everything(c));
    }
    forall entries, deferred | Composed(TemplateOf(e, c), entries, deferred).Ok? ensures Composable(e, c) {
      ComposedIsComposable(e, c, entries, deferred);
    }
  }

  /** Only an argument that is both hidden and renamed is ever reached: hiding alone holds. */
  lemma HiddenAloneHolds(e: Endpoint, c: ByWireName, w: Text)
    requires Sound(e, c) && Hidden(c, w) && !Renamed(c, w)
    ensures !Reached(e, c, w)
  {
    WiresAre(e, w);
  }

  // Two endpoints where the new name of a hidden argument lets the agent in.

  lemma OneRecord(record: ArgumentRecord, shape: CurationShape)
    requires HasSlot(record.name, shape) && record.name !in shape.requiredWireNames && record.rename.Some?
      && record.rename != Some(record.name)
    ensures Declarations([record], []) == Ok([record])
    ensures ResolveAll([record], shape, {}) == Ok(map[record.name := Resolved(record.rename, record.hidden)])
  {
    var records := [record];
    assert records[..0] == [];
    assert RecordNames(records) == [] + [record.name];
    assert Unique([record.name]) by { assert [record.name][..0] == []; }
    assert ResolveRecord(record, shape, {}) == Ok(Some(Resolved(record.rename, record.hidden)));
    assert ResolveAll([], shape, {}) == Ok(map[]);
    assert ResolveAll(records, shape, {}) == Ok(map[][record.name := Resolved(record.rename, record.hidden)]);
  }

  lemma TwoParameters(a: Text, b: Text, c: ByWireName)
    ensures var pa, pb := Parameter(a, false, false, false), Parameter(b, false, false, false);
      && ParameterNames([pa, pb]) == [a, b]
      && Bindings(c, [pa, pb]) == [BindingOf(c, pa), BindingOf(c, pb)]
  {
    var pa, pb := Parameter(a, false, false, false), Parameter(b, false, false, false);
    assert [pa, pb][..1] == [pa] && [pa][..0] == [];
    assert ParameterNames([pa]) == [a];
    assert Bindings(c, [pa]) == [BindingOf(c, pa)];
  }

  /**
   * An optional parameter hidden and renamed to another parameter's name: everything is built, the other one is
   * published, and what the agent sends under it goes to the hidden slot.
   */
  lemma BothCaptures(a: Text, b: Text)
    requires a != b
    ensures var e := Endpoint([Parameter(a, false, false, false), Parameter(b, false, false, false)], None,
      [ArgumentRecord(a, Some(b), Some(Omit))]);
      var c: ByWireName := map[a := Resolved(Some(b), Some(Omit))];
      && Built(e, [], {}, c) && NamesClear(e, c)
      && b in SchemaOf(e, c).properties && SchemaOf(e, c).properties[b] == b
      && WireOf(TemplateOf(e, c), b) == a
  {
    var pa, pb := Parameter(a, false, false, false), Parameter(b, false, false, false);
    var e := Endpoint([pa, pb], None, [ArgumentRecord(a, Some(b), Some(Omit))]);
    var c: ByWireName := map[a := Resolved(Some(b), Some(Omit))];
    TwoParameters(a, b, c);
    assert Wires(e) == [a, b] by { assert [a, b] + [] == [a, b]; }
    OneRecord(ArgumentRecord(a, Some(b), Some(Omit)), ShapeOf(e));
    TwoNames(a, b, c);
    AgentNamesAre(c, [pa, pb]);
    TwoBindings(BindingOf(c, pa), BindingOf(c, pb));
    assert [a, b] + [] == [a, b];
  }

  lemma TwoNames(a: Text, b: Text, c: ByWireName)
    requires a != b && c == map[a := Resolved(Some(b), Some(Omit))]
    ensures Unique([a, b]) && VisibleNames(c, [a, b]) == [b] && Unique([b]) && Published(c, [a, b]) == map[b := b]
  {
    var two := [a, b];
    assert two[..1] == [a] && [a][..0] == [] && [b][..0] == [];
    assert Unique([a]) && Unique([b]);
    assert Hidden(c, a) && !Hidden(c, b) && AgentName(c, b) == b;
    assert VisibleNames(c, [a]) == [] + [];
    assert VisibleNames(c, two) == VisibleNames(c, [a]) + [b];
    assert Published(c, []) == map[];
    assert Published(c, [a]) == map[];
    assert Published(c, two) == map[][b := b];
  }

  lemma TwoBindings(x: Binding, y: Binding)
    requires x.argument.Some? && y.argument.None?
    ensures ParameterTable([x, y]) == map[x.argument.value := x.name]
  {
    assert [x, y][..1] == [x] && [x][..0] == [];
    assert ParameterTable([x]) == map[][x.argument.value := x.name];
  }

  lemma OneField(f: Text, g: Text, c: ByWireName)
    requires f != g && c == map[f := Resolved(Some(g), Some(Omit))]
    ensures Unique([f]) && VisibleNames(c, [f]) == [] && LastRenamed(c, [f], g) == Some(f)
  {
    assert [f][..0] == [];
    assert VisibleNames(c, [f]) == VisibleNames(c, []) + [];
  }

  /** An optional body field that is left out and renamed: nothing is published, and its new name writes it. */
  lemma HiddenFieldWritten(f: Text, g: Text, v: Value)
    requires f != g
    ensures var e := Endpoint([], Some(BodySchema(None, Untyped, false, Some([f]), [], false)),
        [ArgumentRecord(f, Some(g), Some(Omit))]);
      var c: ByWireName := map[f := Resolved(Some(g), Some(Omit))];
      var t := TemplateOf(e, c);
      && Built(e, [], {}, c) && g !in SchemaOf(e, c).properties && Accepts(t, g)
      && Composed(t, [Entry(g, v)], map[]).Ok?
      && Carried(t, Composed(t, [Entry(g, v)], map[]).value, f) == Some(v)
  {
    var e := Endpoint([], Some(BodySchema(None, Untyped, false, Some([f]), [], false)),
      [ArgumentRecord(f, Some(g), Some(Omit))]);
    var c: ByWireName := map[f := Resolved(Some(g), Some(Omit))];
    OneField(f, g, c);
    FieldBuilt(e, c, f, g);
    BuiltIsSound(e, [], {}, c);
    PublishedIs(e, c, g);
    ReachedAccepts(e, c, f);
    FieldComposes(e, c, f, g, v);
    HiddenCarries(e, [], {}, c, [Entry(g, v)], map[], f);
  }

  lemma FieldBuilt(e: Endpoint, c: ByWireName, f: Text, g: Text)
    requires f != g && c == map[f := Resolved(Some(g), Some(Omit))]
    requires e == Endpoint([], Some(BodySchema(None, Untyped, false, Some([f]), [], false)),
      [ArgumentRecord(f, Some(g), Some(Omit))])
    ensures Built(e, [], {}, c) && FieldsOf(e) == Wires(e) == [f]
  {
    assert Wires(e) == [f] by { assert [] + [f] == [f]; }
    OneField(f, g, c);
    OneRecord(ArgumentRecord(f, Some(g), Some(Omit)), ShapeOf(e));
  }

  lemma FieldComposes(e: Endpoint, c: ByWireName, f: Text, g: Text, v: Value)
    requires Sound(e, c) && e.parameters == [] && c == map[f := Resolved(Some(g), Some(Omit))]
    requires Accepts(TemplateOf(e, c), g) && WireOf(TemplateOf(e, c), g) == f
    requires RootOf(e).None?
    ensures Unique(Keys([Entry(g, v)])) && Composed(TemplateOf(e, c), [Entry(g, v)], map[]).Ok?
    ensures Translated(TemplateOf(e, c), [Entry(g, v)]) == map[f := v]
  {
    var t := TemplateOf(e, c);
    assert [] + [Entry(g, v)] == [Entry(g, v)];
    KeysSnoc([], Entry(g, v));
    UniqueSnoc([], g);
    TranslatedSnoc(t, [], Entry(g, v));
    ProvidedFills(e, c, map[f := v], map[]);
  }
}
