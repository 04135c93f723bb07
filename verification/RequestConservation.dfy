/** Nothing that is accepted is lost or doubled, and nothing hidden is reached. */
module RequestConservation {
  import opened Wrappers
  import opened Curation
  import opened RequestSchema
  import opened RequestTemplates
  import opened RequestAgreement
  import opened RequestComposition

  function Get(wire: Wire, w: Text): Option<Value> {
    if w in wire then Some(wire[w]) else None
  }

  /** An argument that is visible, but whose new name is out of use: a renamed root, or a field another ousted. */
  predicate KeepsWireName(e: Endpoint, c: ByWireName, w: Text) {
    !Hidden(c, w) && Renamed(c, w) && (RootOf(e) == Some(w) || (w in FieldsOf(e) && !Aliased(e, c, w)))
  }

  /**
   * An accepted key leads to the argument of that name, or to an argument that kept its wire name, or stays itself
   * as an extra field of an open body. Only the name of a hidden argument that holds it leads to a hidden one.
   */
  lemma AcceptedLeads(e: Endpoint, c: ByWireName, k: Text)
    requires Sound(e, c) && Accepts(TemplateOf(e, c), k)
    ensures var w := WireOf(TemplateOf(e, c), k);
      && (Hidden(c, w) ==> Holder(e, c, k) == Some(w))
      && (if w in Wires(e) then AgentName(c, w) == k || (w == k && KeepsWireName(e, c, w))
          else w == k && RootOf(e).None? && TemplateOf(e, c).bodyAllowsAdditional)
  {
    TableIs(e, c, k);
    HolderIs(e, c, k);
    AcceptsIs(e, c, k);
    if Holder(e, c, k).Some? {
      WiresAre(e, Holder(e, c, k).value);
    } else {
      if k in Allowed(TemplateOf(e, c)) { NoHolder(e, c, k); }
      UnheldKey(e, c, k);
    }
  }

  /** A name that nobody was given is a wire name, or nobody's. */
  lemma NoHolder(e: Endpoint, c: ByWireName, k: Text)
    requires Sound(e, c) && Holder(e, c, k).None? && k in Allowed(TemplateOf(e, c))
    ensures k in Wires(e)
  {
    HolderIs(e, c, k);
    AllowedIs(e, c, k);
    LastRenamedHolds(c, FieldsOf(e), k);
    WiresAre(e, k);
  }

  lemma UnheldKey(e: Endpoint, c: ByWireName, k: Text)
    requires Sound(e, c) && !Refused(e, c, k)
    ensures !Hidden(c, k) && (k in Wires(e) ==> AgentName(c, k) == k || KeepsWireName(e, c, k))
  {
    WiresAre(e, k);
  }

  /** Two accepted keys never share a slot. */
  lemma AcceptedApart(e: Endpoint, c: ByWireName, j: Text, k: Text)
    requires Sound(e, c)
    requires Accepts(TemplateOf(e, c), j) && Accepts(TemplateOf(e, c), k)
      && WireOf(TemplateOf(e, c), j) == WireOf(TemplateOf(e, c), k)
    ensures j == k
  {
    AcceptedLeads(e, c, j);
    AcceptedLeads(e, c, k);
    if j != k {
      var w := WireOf(TemplateOf(e, c), j);
      if AgentName(c, w) == j { NotBothNames(e, c, w, j); } else { NotBothNames(e, c, w, k); }
    }
  }

  /** An argument that kept its wire name is not reached by its new one. */
  lemma NotBothNames(e: Endpoint, c: ByWireName, w: Text, k: Text)
    requires Sound(e, c) && w in Wires(e) && AgentName(c, w) == k && KeepsWireName(e, c, w)
    ensures WireOf(TemplateOf(e, c), k) != w
  {
    TableIs(e, c, k);
    HolderIs(e, c, k);
    LastRenamedHolds(c, FieldsOf(e), k);
    if RootOf(e) == Some(w) { UniqueAppend(ParameterNames(e.parameters), [w]); } else { FieldIsNoParameter(e, c, w); }
  }

  lemma {:induction false} KeysHold(entries: seq<Entry>)
    ensures forall x :: x in entries ==> x.key in Keys(entries)
  {
    if entries != [] {
      var last := |entries| - 1;
      assert entries == entries[..last] + [entries[last]];
      KeysHold(entries[..last]);
    }
  }

  ghost predicate SlotsApart(t: Template, entries: seq<Entry>) {
    forall x, y :: x in entries && y in entries && WireOf(t, x.key) == WireOf(t, y.key) ==> x.key == y.key
  }

  lemma TranslatedLast(t: Template, rest: seq<Entry>, last: Entry)
    ensures Translated(t, rest + [last]) == Translated(t, rest)[WireOf(t, last.key) := last.value]
    ensures Keys(rest + [last]) == Keys(rest) + [last.key] && Keys(rest + [last])[..|rest|] == Keys(rest)
  {
    assert (rest + [last])[..|rest|] == rest;
  }

  lemma {:induction false} ApartTranslated(t: Template, entries: seq<Entry>, x: Entry)
    requires SlotsApart(t, entries) && Unique(Keys(entries)) && x in entries
    ensures Get(Translated(t, entries), WireOf(t, x.key)) == Some(x.value)
  {
    var rest, last := entries[..|entries| - 1], entries[|entries| - 1];
    assert entries == rest + [last];
    TranslatedLast(t, rest, last);
    if x != last {
      KeysHold(rest);
      assert x in rest && x.key in Keys(rest);
      ApartTranslated(t, rest, x);
      assert WireOf(t, x.key) != WireOf(t, last.key);
    }
  }

  /** `translate` loses nothing: each entry stands under its wire name. */
  lemma TranslatedHolds(e: Endpoint, c: ByWireName, entries: seq<Entry>)
    requires Sound(e, c)
    requires AcceptsAll(TemplateOf(e, c), entries) && Unique(Keys(entries))
    ensures forall x :: x in entries ==>
      Get(Translated(TemplateOf(e, c), entries), WireOf(TemplateOf(e, c), x.key)) == Some(x.value)
  {
    var t := TemplateOf(e, c);
    forall x, y | x in entries && y in entries && WireOf(t, x.key) == WireOf(t, y.key) ensures x.key == y.key {
      AcceptedApart(e, c, x.key, y.key);
    }
    forall x | x in entries ensures Get(Translated(t, entries), WireOf(t, x.key)) == Some(x.value) {
      ApartTranslated(t, entries, x);
    }
  }

  /** `translate` adds nothing. */
  lemma {:induction false} TranslatedBack(t: Template, entries: seq<Entry>, w: Text)
    requires w in Translated(t, entries)
    ensures exists x :: x in entries && WireOf(t, x.key) == w && x.value == Translated(t, entries)[w]
  {
    var rest, last := entries[..|entries| - 1], entries[|entries| - 1];
    assert entries == rest + [last];
    if w != WireOf(t, last.key) {
      TranslatedBack(t, rest, w);
      var x :| x in rest && WireOf(t, x.key) == w && x.value == Translated(t, rest)[w];
      assert x in entries;
    } else {
      assert last in entries;
    }
  }

  lemma {:induction false} BindingNamesAre(c: ByWireName, parameters: seq<Parameter>)
    ensures BindingNames(Bindings(c, parameters)) == ParameterNames(parameters)
  {
    if parameters != [] {
      var rest := parameters[..|parameters| - 1];
      BindingNamesAre(c, rest);
      assert Bindings(c, parameters)[..|rest|] == Bindings(c, rest);
    }
  }

  lemma {:induction false} BindingNamesHold(parameters: seq<Binding>, p: Binding)
    ensures p in parameters ==> p.name in BindingNames(parameters)
  {
    if parameters != [] {
      var last := |parameters| - 1;
      assert parameters == parameters[..last] + [parameters[last]];
      BindingNamesHold(parameters[..last], p);
    }
  }

  /** The fills write the hidden parameters and leave every other wire value as it was. */
  lemma {:induction false} FillParametersHold(t: Template, parameters: seq<Binding>, wire: Wire, deferred: map<Text,
        Value>, w: Text)
    requires Unique(BindingNames(parameters)) && FillParameters(t, parameters, wire, deferred).Ok?
    ensures var filled := FillParameters(t, parameters, wire, deferred).value;
      && (w !in BindingNames(parameters) ==> Get(filled, w) == Get(wire, w))
      && (forall p :: p in parameters && p.name == w ==>
            ParameterFill(t, p, deferred).Ok?
            && Get(filled, w) == if ParameterFill(t, p, deferred).value.Some? then ParameterFill(t, p, deferred).value
               else Get(wire, w))
  {
    if parameters != [] {
      var rest, last := parameters[..|parameters| - 1], parameters[|parameters| - 1];
      assert parameters == rest + [last];
      assert BindingNames(parameters)[..|rest|] == BindingNames(rest);
      FillParametersHold(t, rest, wire, deferred, w);
      forall p | p in rest ensures p.name != last.name { BindingNamesHold(rest, p); }
    }
  }

  /** Which parameters are written, and with what. */
  lemma {:induction false} WrittenHold(parameters: seq<Binding>, inPath: bool, wire: Wire, w: Text)
    requires Unique(BindingNames(parameters)) && Written(parameters, inPath, wire).Ok?
    ensures var written := Written(parameters, inPath, wire).value;
      && (w in written ==> w in BindingNames(parameters))
      && (forall p :: p in parameters && p.name == w ==>
            Get(written, w) == if p.inPath == inPath && Writes(p, wire) then Some(wire[w]) else None)
  {
    if parameters != [] {
      var rest, last := parameters[..|parameters| - 1], parameters[|parameters| - 1];
      assert parameters == rest + [last];
      assert BindingNames(parameters)[..|rest|] == BindingNames(rest);
      WrittenHold(rest, inPath, wire, w);
      forall p | p in rest ensures p.name != last.name { BindingNamesHold(rest, p); }
    }
  }

  lemma {:induction false} BindingNamed(parameters: seq<Binding>, w: Text) returns (p: Binding)
    requires w in BindingNames(parameters)
    ensures p in parameters && p.name == w
  {
    var last := |parameters| - 1;
    assert parameters == parameters[..last] + [parameters[last]];
    if parameters[last].name == w { return parameters[last]; }
    p := BindingNamed(parameters[..last], w);
  }

  lemma {:induction false} SameBinding(parameters: seq<Binding>, p: Binding, q: Binding)
    requires Unique(BindingNames(parameters)) && p in parameters && q in parameters && p.name == q.name
    ensures p == q
  {
    var rest, last := parameters[..|parameters| - 1], parameters[|parameters| - 1];
    assert parameters == rest + [last];
    assert BindingNames(parameters)[..|rest|] == BindingNames(rest);
    BindingNamesHold(rest, p);
    BindingNamesHold(rest, q);
    if p in rest && q in rest { SameBinding(rest, p, q); }
  }

  /** Each slot carries its wire value, unless that is an empty array. */
  lemma SentCarries(t: Template, wire: Wire, deferred: map<Text, Value>, w: Text)
    requires Unique(BindingNames(t.parameters)) && Sent(t, wire, deferred).Ok?
    requires w in BindingNames(t.parameters) || t.bodyRoot.None? || (t.bodyRoot == Some(w) && t.rootFill.None?)
    requires w in BindingNames(t.parameters) || t.bodyRoot.Some?
      || (t.hasBody && (w in t.bodyProperties || t.bodyAllowsAdditional)) || w !in wire
    ensures Carried(t, Sent(t, wire, deferred).value, w) == Kept(t, w, Get(wire, w))
  {
    var r := Sent(t, wire, deferred).value;
    if w in BindingNames(t.parameters) {
      var p := BindingNamed(t.parameters, w);
      WrittenHold(t.parameters, true, wire, w);
      WrittenHold(t.parameters, false, wire, w);
      KeptIs(t, p, Get(wire, w));
    } else {
      forall p | p in t.parameters ensures p.name != w { BindingNamesHold(t.parameters, p); }
    }
  }

  lemma KeptIs(t: Template, p: Binding, value: Option<Value>)
    requires Unique(BindingNames(t.parameters)) && p in t.parameters
    ensures Kept(t, p.name, value) == if p.isArray && value == Some(List([])) then None else value
  {
    forall q | q in t.parameters && q.name == p.name ensures q == p { SameBinding(t.parameters, p, q); }
  }

  predicate InPath(parameters: seq<Parameter>, w: Text) {
    exists p :: p in parameters && p.name == w && p.inPath
  }

  /** The operation needs a value there: in a required or path parameter, a body that is not optional, or a field. */
  predicate Demanded(e: Endpoint, w: Text) {
    || (exists p :: p in e.parameters && p.name == w && (p.required || p.inPath))
    || (RootOf(e) == Some(w) && BodyRequired(e))
    || (w in FieldsOf(e) && w in RequiredFieldsOf(e))
  }

  /**
   * What a hidden argument carries, by its declaration: nothing where it is left out, a constant, or the deferred
   * value. A deferred value that is missing, as null is for a parameter, is an error where the operation needs one.
   */
  function HiddenFill(e: Endpoint, c: ByWireName, deferred: map<Text, Value>,
        w: Text): Result<Option<Value>, ComposeError>
    requires Hidden(c, w)
  {
    match c[w].fill.value
    case Constant(value) => Ok(Some(value))
    case Deferred(source) =>
      var there := source in deferred && (w in ParameterNames(e.parameters) ==> deferred[source] != Null);
      if there then Ok(Some(deferred[source])) else if Demanded(e, w) then Err(DeferredValueMissing) else Ok(None)
    case Omit => Ok(None)
  }

  lemma DemandedIs(e: Endpoint, c: ByWireName, w: Text)
    requires Hidden(c, w)
    ensures Demanded(e, w) <==> InPath(e.parameters, w) || w in TemplateOf(e, c).requiredFills
  {
    if p :| p in e.parameters && p.name == w && (p.required || p.inPath) {
      assert p.required ==> w in RequiredFills(e, c);
    }
  }

  lemma HiddenFillIs(e: Endpoint, c: ByWireName, deferred: map<Text, Value>, w: Text)
    requires Hidden(c, w)
    ensures HiddenFill(e, c, deferred, w) ==
      ResolveFill(c[w].fill.value, InPath(e.parameters, w) || w in TemplateOf(e, c).requiredFills, deferred,
                  w !in ParameterNames(e.parameters))
  {
    DemandedIs(e, c, w);
  }

  lemma WiresSplit(e: Endpoint, c: ByWireName)
    requires Sound(e, c)
    ensures Unique(BindingNames(TemplateOf(e, c).parameters))
      && BindingNames(TemplateOf(e, c).parameters) == ParameterNames(e.parameters)
    ensures forall w :: w in ParameterNames(e.parameters) ==> w !in FieldsOf(e) && RootOf(e) != Some(w)
  {
    BindingNamesAre(c, e.parameters);
    UniqueAppend(ParameterNames(e.parameters), if RootOf(e).Some? then [RootOf(e).value] else FieldsOf(e));
  }

  lemma BindingIs(c: ByWireName, parameters: seq<Parameter>, b: Binding)
    requires b in Bindings(c, parameters)
    ensures b.fill.Some? <==> Hidden(c, b.name)
    ensures Hidden(c, b.name) ==> b.fill == c[b.name].fill
    ensures b.inPath ==> InPath(parameters, b.name)
  {
    BindingsHold(c, parameters);
  }

  lemma PathIs(c: ByWireName, parameters: seq<Parameter>, b: Binding)
    requires Unique(BindingNames(Bindings(c, parameters))) && b in Bindings(c, parameters) && InPath(parameters, b.name)
    ensures b.inPath
  {
    BindingsHold(c, parameters);
    var p :| p in parameters && p.name == b.name && p.inPath;
    SameBinding(Bindings(c, parameters), BindingOf(c, p), b);
  }

  /** A hidden parameter's binding carries its fill, and its need for a value. */
  lemma ParameterFillIs(e: Endpoint, c: ByWireName, t: Template, deferred: map<Text, Value>, b: Binding)
    requires Sound(e, c) && t == TemplateOf(e, c) && b in t.parameters
    ensures !Hidden(c, b.name) ==> ParameterFill(t, b, deferred) == Ok(None)
    ensures Hidden(c, b.name) ==> ParameterFill(t, b, deferred) == HiddenFill(e, c, deferred, b.name)
  {
    WiresSplit(e, c);
    BindingIs(c, e.parameters, b);
    BindingNamesHold(t.parameters, b);
    if InPath(e.parameters, b.name) { PathIs(c, e.parameters, b); }
    if Hidden(c, b.name) {
      HiddenFillIs(e, c, deferred, b.name);
      SameFill(t, b, c[b.name].fill.value, InPath(e.parameters, b.name), deferred);
    }
  }

  lemma SameFill(t: Template, b: Binding, fill: Fill, inPath: bool, deferred: map<Text, Value>)
    requires b.fill == Some(fill) && b.inPath == inPath
    ensures ParameterFill(t, b, deferred) == ResolveFill(fill, inPath || b.name in t.requiredFills, deferred, false)
  {
  }

  lemma FieldFillIs(e: Endpoint, c: ByWireName, deferred: map<Text, Value>, f: Text)
    requires Sound(e, c) && f in FieldsOf(e) && Hidden(c, f)
    ensures f in TemplateOf(e, c).bodyFills && FieldFill(TemplateOf(e, c), f, deferred) == HiddenFill(e, c, deferred, f)
  {
    WiresSplit(e, c);
    FillsHold(c, FieldsOf(e), f);
    NotInPath(e.parameters, f);
    HiddenFillIs(e, c, deferred, f);
  }

  lemma NotInPath(parameters: seq<Parameter>, w: Text)
    requires w !in ParameterNames(parameters)
    ensures !InPath(parameters, w)
  {
    ParameterNamesHold(parameters);
  }

  /** What the body's fills change. */
  lemma FillFieldsHold(t: Template, wire: Wire, deferred: map<Text, Value>, w: Text)
    requires FillFields(t, wire, deferred).Ok?
    ensures w !in t.bodyFills ==> Get(FillFields(t, wire, deferred).value, w) == Get(wire, w)
    ensures w in t.bodyFills ==>
      && FieldFill(t, w, deferred).Ok?
      && Get(FillFields(t, wire, deferred).value, w)
         == if FieldFill(t, w, deferred).value.Some? then FieldFill(t, w, deferred).value else Get(wire, w)
  {
  }

  lemma BodyFillsAre(e: Endpoint, c: ByWireName, w: Text)
    ensures w in TemplateOf(e, c).bodyFills <==> w in FieldsOf(e) && Hidden(c, w)
  {
    FillsHold(c, FieldsOf(e), w);
    if RootOf(e).Some? { assert FieldsOf(e) == []; }
  }

  /** After the fills: a visible name has what the agent sent, a hidden one its fill, or else what reached it. */
  lemma FilledHolds(e: Endpoint, c: ByWireName, t: Template, wire: Wire, deferred: map<Text, Value>, w: Text)
    requires Sound(e, c) && t == TemplateOf(e, c) && Filled(t, wire, deferred).Ok?
    ensures !Hidden(c, w) ==> Get(Filled(t, wire, deferred).value, w) == Get(wire, w)
    ensures Hidden(c, w) && RootOf(e) != Some(w) ==>
      var fill := HiddenFill(e, c, deferred, w);
      fill.Ok? && Get(Filled(t, wire, deferred).value, w) == if fill.value.Some? then fill.value else Get(wire, w)
  {
    WiresSplit(e, c);
    FillParametersHold(t, t.parameters, wire, deferred, w);
    FillFieldsHold(t, FillParameters(t, t.parameters, wire, deferred).value, deferred, w);
    BodyFillsAre(e, c, w);
    if w in BindingNames(t.parameters) {
      var b := BindingNamed(t.parameters, w);
      ParameterFillIs(e, c, t, deferred, b);
    } else if w in FieldsOf(e) && Hidden(c, w) {
      FieldFillIs(e, c, deferred, w);
    } else if Hidden(c, w) {
      WiresAre(e, w);
    }
  }

  /** The composition of an accepted argument list, step by step. */
  lemma ComposedSteps(t: Template, entries: seq<Entry>, deferred: map<Text, Value>)
    requires Composed(t, entries, deferred).Ok?
    ensures AcceptsAll(t, entries) && Filled(t, Translated(t, entries), deferred).Ok?
    ensures Composed(t, entries, deferred) == Sent(t, Filled(t, Translated(t, entries), deferred).value, deferred)
  {
  }

  lemma SlotExists(e: Endpoint, c: ByWireName, k: Text)
    requires Sound(e, c) && Accepts(TemplateOf(e, c), k)
    ensures var t := TemplateOf(e, c);
      var w := WireOf(t, k);
      && (w in BindingNames(t.parameters) || t.bodyRoot.None? || (t.bodyRoot == Some(w) && t.rootFill.None?))
      && (w in BindingNames(t.parameters) || t.bodyRoot.Some?
         || (t.hasBody && (w in t.bodyProperties || t.bodyAllowsAdditional)))
  {
    AcceptedLeads(e, c, k);
    HolderIs(e, c, k);
    WiresSplit(e, c);
    WiresAre(e, WireOf(TemplateOf(e, c), k));
  }

  /** What stands in a slot: a hidden argument's fill when it has one, or what was sent there. */
  function Prevailing(e: Endpoint, c: ByWireName, deferred: map<Text, Value>, w: Text,
        sent: Option<Value>): Option<Value> {
    if Hidden(c, w) && HiddenFill(e, c, deferred, w).Ok? && HiddenFill(e, c, deferred, w).value.Some? then
      HiddenFill(e, c, deferred, w).value
    else sent
  }

  /** The slot of a template. */
  predicate Slot(t: Template, w: Text) {
    || w in BindingNames(t.parameters)
    || (t.bodyRoot == Some(w) && t.rootFill.None?)
    || (t.bodyRoot.None? && t.hasBody && (w in t.bodyProperties || t.bodyAllowsAdditional))
  }

  lemma SlotCarries(e: Endpoint, c: ByWireName, t: Template, wire: Wire, deferred: map<Text, Value>, w: Text)
    requires Sound(e, c) && t == TemplateOf(e, c) && Filled(t, wire, deferred).Ok? && Slot(t, w)
    requires Sent(t, Filled(t, wire, deferred).value, deferred).Ok? && (RootOf(e) == Some(w) ==> !Hidden(c, w))
    ensures Carried(t, Sent(t, Filled(t, wire, deferred).value, deferred).value, w)
      == Kept(t, w, Prevailing(e, c, deferred, w, Get(wire, w)))
    ensures Hidden(c, w) ==> HiddenFill(e, c, deferred, w).Ok?
  {
    FilledHolds(e, c, t, wire, deferred, w);
    WiresSplit(e, c);
    SentCarries(t, Filled(t, wire, deferred).value, deferred, w);
  }

  lemma AcceptedSlot(e: Endpoint, c: ByWireName, k: Text)
    requires Sound(e, c) && Accepts(TemplateOf(e, c), k)
    ensures var w := WireOf(TemplateOf(e, c), k);
      Slot(TemplateOf(e, c), w) && (RootOf(e) == Some(w) ==> !Hidden(c, w))
  {
    SlotExists(e, c, k);
    if RootOf(e) == Some(WireOf(TemplateOf(e, c), k)) { NotHiddenRoot(e, c, k); }
  }

  /**
   * Every argument that was accepted stands in the slot of its wire name, which no other argument has (AcceptedApart),
   * unless a hidden slot's fill takes its place there. An empty array is the one value that is not written.
   */
  lemma AcceptedIsCarried(e: Endpoint, variant: seq<ArgumentRecord>, folded: set<Text>, c: ByWireName,
        entries: seq<Entry>, deferred: map<Text, Value>, x: Entry)
    requires Built(e, variant, folded, c) && Unique(Keys(entries)) && x in entries
    requires Composed(TemplateOf(e, c), entries, deferred).Ok?
    ensures var t := TemplateOf(e, c);
      var w := WireOf(t, x.key);
      Carried(t, Composed(t, entries, deferred).value, w)
        == Kept(t, w, Prevailing(e, c, deferred, w, Some(x.value)))
  {
    var t := TemplateOf(e, c);
    BuiltIsSound(e, variant, folded, c);
    ComposedSteps(t, entries, deferred);
    TranslatedHolds(e, c, entries);
    AcceptedSlot(e, c, x.key);
    SlotCarries(e, c, t, Translated(t, entries), deferred, WireOf(t, x.key));
  }

  /** A hidden root is led to by nothing. */
  lemma NotHiddenRoot(e: Endpoint, c: ByWireName, k: Text)
    requires Sound(e, c) && Accepts(TemplateOf(e, c), k) && RootOf(e) == Some(WireOf(TemplateOf(e, c), k))
    ensures !Hidden(c, WireOf(TemplateOf(e, c), k))
  {
    var root := RootOf(e).value;
    AcceptedLeads(e, c, k);
    HolderIs(e, c, k);
    UniqueAppend(ParameterNames(e.parameters), [root]);
  }

  /**
   * A hidden argument's slot carries its fill, or, when it has none, what an accepted argument led there, or
   * nothing.
   */
  lemma HiddenCarries(e: Endpoint, variant: seq<ArgumentRecord>, folded: set<Text>, c: ByWireName,
        entries: seq<Entry>, deferred: map<Text, Value>, w: Text)
    requires Built(e, variant, folded, c) && Unique(Keys(entries))
    requires Hidden(c, w) && Composed(TemplateOf(e, c), entries, deferred).Ok?
    ensures HiddenFill(e, c, deferred, w).Ok?
    ensures var t := TemplateOf(e, c);
      Carried(t, Composed(t, entries, deferred).value, w)
        == Kept(t, w, Prevailing(e, c, deferred, w, Get(Translated(t, entries), w)))
  {
    var t := TemplateOf(e, c);
    BuiltIsSound(e, variant, folded, c);
    ComposedSteps(t, entries, deferred);
    if RootOf(e) == Some(w) {
      RootCarriesFill(e, c, Filled(t, Translated(t, entries), deferred).value, deferred);
      RootNotSent(e, c, entries);
    } else {
      HiddenSlot(e, c, w);
      SlotCarries(e, c, t, Translated(t, entries), deferred, w);
    }
  }

  lemma HiddenSlot(e: Endpoint, c: ByWireName, w: Text)
    requires Sound(e, c) && Hidden(c, w) && RootOf(e) != Some(w)
    ensures Slot(TemplateOf(e, c), w)
  {
    WiresSplit(e, c);
    WiresAre(e, w);
  }

  lemma RootNotSent(e: Endpoint, c: ByWireName, entries: seq<Entry>)
    requires Sound(e, c) && AcceptsAll(TemplateOf(e, c), entries) && RootOf(e).Some? && Hidden(c, RootOf(e).value)
    ensures RootOf(e).value !in Translated(TemplateOf(e, c), entries)
  {
    var t, w := TemplateOf(e, c), RootOf(e).value;
    if w in Translated(t, entries) {
      TranslatedBack(t, entries, w);
      var x :| x in entries && WireOf(t, x.key) == w;
      NotHiddenRoot(e, c, x.key);
    }
  }

  lemma RootFillIs(e: Endpoint, c: ByWireName, deferred: map<Text, Value>)
    requires Sound(e, c) && RootOf(e).Some? && Hidden(c, RootOf(e).value)
    ensures TemplateOf(e, c).bodyRoot == RootOf(e) && TemplateOf(e, c).rootFill.Some?
    ensures RootFill(TemplateOf(e, c), deferred) == HiddenFill(e, c, deferred, RootOf(e).value)
  {
    WiresSplit(e, c);
    NotInPath(e.parameters, RootOf(e).value);
    HiddenFillIs(e, c, deferred, RootOf(e).value);
  }

  lemma RootCarriesFill(e: Endpoint, c: ByWireName, wire: Wire, deferred: map<Text, Value>)
    requires Sound(e, c) && RootOf(e).Some? && Hidden(c, RootOf(e).value) && Sent(TemplateOf(e, c), wire, deferred).Ok?
    ensures var t, w := TemplateOf(e, c), RootOf(e).value;
      HiddenFill(e, c, deferred, w).Ok?
        && Carried(t, Sent(t, wire, deferred).value, w) == Kept(t, w, HiddenFill(e, c, deferred, w).value)
  {
    var t, w := TemplateOf(e, c), RootOf(e).value;
    WiresSplit(e, c);
    RootFillIs(e, c, deferred);
    RootCarries(t, wire, deferred, w);
  }

  lemma RootCarries(t: Template, wire: Wire, deferred: map<Text, Value>, w: Text)
    requires t.bodyRoot == Some(w) && t.rootFill.Some? && w !in BindingNames(t.parameters)
      && Sent(t, wire, deferred).Ok?
    ensures RootFill(t, deferred).Ok?
      && Carried(t, Sent(t, wire, deferred).value, w) == Kept(t, w, RootFill(t, deferred).value)
  {
    forall p | p in t.parameters ensures p.name != w { BindingNamesHold(t.parameters, p); }
  }

  /** Nothing else is sent: what a slot carries is what the agent sent under some key, or a fill. */
  lemma CarriedWasSent(e: Endpoint, variant: seq<ArgumentRecord>, folded: set<Text>, c: ByWireName, entries: seq<Entry>,
                       deferred: map<Text, Value>, w: Text)
    requires Built(e, variant, folded, c) && Unique(Keys(entries))
    requires Composed(TemplateOf(e, c), entries, deferred).Ok? && !Hidden(c, w)
    requires Carried(TemplateOf(e, c), Composed(TemplateOf(e, c), entries, deferred).value, w).Some?
    ensures var t := TemplateOf(e, c);
      exists x :: x in entries && WireOf(t, x.key) == w
        && Carried(t, Composed(t, entries, deferred).value, w) == Some(x.value)
  {
    var t := TemplateOf(e, c);
    BuiltIsSound(e, variant, folded, c);
    ComposedSteps(t, entries, deferred);
    FilledHolds(e, c, t, Translated(t, entries), deferred, w);
    WiresSplit(e, c);
    var wire := Filled(t, Translated(t, entries), deferred).value;
    CarriedIsWire(t, wire, deferred, w);
    TranslatedBack(t, entries, w);
  }

  lemma CarriedIsWire(t: Template, wire: Wire, deferred: map<Text, Value>, w: Text)
    requires Unique(BindingNames(t.parameters)) && Sent(t, wire, deferred).Ok?
      && (t.bodyRoot == Some(w) ==> t.rootFill.None?)
    requires Carried(t, Sent(t, wire, deferred).value, w).Some?
    ensures Carried(t, Sent(t, wire, deferred).value, w) == Get(wire, w)
  {
    if w in BindingNames(t.parameters) {
      var p := BindingNamed(t.parameters, w);
      WrittenHold(t.parameters, true, wire, w);
      WrittenHold(t.parameters, false, wire, w);
    }
  }
}
