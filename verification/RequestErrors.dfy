/** Which requests are refused, and with which error: decided by what stands in each slot before anything is written. */
module RequestErrors {
  import opened Wrappers
  import opened Curation
  import opened RequestSchema
  import opened RequestTemplates
  import opened RequestAgreement
  import opened RequestComposition
  import opened RequestConservation
  import opened RequestCaptures

  /** What stands in an argument's slot once the fills are in: its fill, or what was sent there. */
  function Standing(e: Endpoint, c: ByWireName, entries: seq<Entry>, deferred: map<Text, Value>,
        w: Text): Option<Value> {
    Prevailing(e, c, deferred, w, Get(Translated(TemplateOf(e, c), entries), w))
  }

  /** Some argument is under a name that the template does not allow, or that curation took away. */
  predicate Unknown(t: Template, entries: seq<Entry>) {
    exists x :: x in entries && !Accepts(t, x.key)
  }

  /** A hidden argument other than the whole body waits for a value that the operation needs. */
  ghost predicate Starved(e: Endpoint, c: ByWireName, deferred: map<Text, Value>) {
    exists w :: Hidden(c, w) && RootOf(e) != Some(w) && HiddenFill(e, c, deferred, w).Err?
  }

  /** A path parameter has nothing to put in its place. */
  predicate Lacks(p: Parameter, v: Option<Value>) {
    p.inPath && (v.None? || v.value == Null || (p.isArray && v.value == List([])))
  }

  /** Another parameter is null. */
  predicate Nulls(p: Parameter, v: Option<Value>) {
    !p.inPath && v == Some(Null)
  }

  ghost predicate Lacking(e: Endpoint, c: ByWireName, entries: seq<Entry>, deferred: map<Text, Value>) {
    exists p :: p in e.parameters && Lacks(p, Standing(e, c, entries, deferred, p.name))
  }

  ghost predicate Nulled(e: Endpoint, c: ByWireName, entries: seq<Entry>, deferred: map<Text, Value>) {
    exists p :: p in e.parameters && Nulls(p, Standing(e, c, entries, deferred, p.name))
  }

  predicate RootStarved(e: Endpoint, c: ByWireName, deferred: map<Text, Value>) {
    RootOf(e).Some? && Hidden(c, RootOf(e).value) && HiddenFill(e, c, deferred, RootOf(e).value).Err?
  }

  /** Why a request is refused, if it is. */
  ghost function Refusal(e: Endpoint, c: ByWireName, entries: seq<Entry>,
        deferred: map<Text, Value>): Option<ComposeError> {
    if Unknown(TemplateOf(e, c), entries) then Some(UnknownArgument)
    else if Starved(e, c, deferred) then Some(DeferredValueMissing)
    else if Lacking(e, c, entries, deferred) then Some(MissingPathParameter)
    else if Nulled(e, c, entries, deferred) then Some(NullNotAllowed)
    else if RootStarved(e, c, deferred) then Some(DeferredValueMissing)
    else None
  }

  // The fills.

  lemma {:induction false} FillParametersErr(t: Template, parameters: seq<Binding>, wire: Wire,
        deferred: map<Text, Value>)
    ensures FillParameters(t, parameters, wire, deferred).Err? ==>
      && FillParameters(t, parameters, wire, deferred) == Err(DeferredValueMissing)
      && exists p :: p in parameters && ParameterFill(t, p, deferred).Err?
  {
    if parameters != [] {
      assert parameters == parameters[..|parameters| - 1] + [parameters[|parameters| - 1]];
      FillParametersErr(t, parameters[..|parameters| - 1], wire, deferred);
    }
  }

  lemma FilledErr(e: Endpoint, c: ByWireName, wire: Wire, deferred: map<Text, Value>)
    requires Sound(e, c) && Filled(TemplateOf(e, c), wire, deferred).Err?
    ensures Filled(TemplateOf(e, c), wire, deferred) == Err(DeferredValueMissing) && Starved(e, c, deferred)
  {
    var t := TemplateOf(e, c);
    WiresSplit(e, c);
    FillParametersErr(t, t.parameters, wire, deferred);
    if FillParameters(t, t.parameters, wire, deferred).Err? {
      var p :| p in t.parameters && ParameterFill(t, p, deferred).Err?;
      ParameterFillIs(e, c, t, deferred, p);
      BindingNamesHold(t.parameters, p);
      assert Hidden(c, p.name) && HiddenFill(e, c, deferred, p.name).Err?;
    } else {
      var f :| f in t.bodyFills && FieldFill(t, f, deferred).Err?;
      BodyFillsAre(e, c, f);
      FieldFillIs(e, c, deferred, f);
      assert Hidden(c, f) && HiddenFill(e, c, deferred, f).Err?;
    }
  }

  /** The fills fail exactly when some hidden argument waits for a value. */
  lemma FillsFailExactly(e: Endpoint, c: ByWireName, wire: Wire, deferred: map<Text, Value>)
    requires Sound(e, c)
    ensures Filled(TemplateOf(e, c), wire, deferred).Err? <==> Starved(e, c, deferred)
    ensures Filled(TemplateOf(e, c), wire, deferred).Err? ==>
      Filled(TemplateOf(e, c), wire, deferred) == Err(DeferredValueMissing)
  {
    var t := TemplateOf(e, c);
    if Filled(t, wire, deferred).Err? {
      FilledErr(e, c, wire, deferred);
    } else {
      forall w | Hidden(c, w) && RootOf(e) != Some(w) ensures HiddenFill(e, c, deferred, w).Ok? {
        FilledHolds(e, c, t, wire, deferred, w);
      }
    }
  }

  // The parameters.

  ghost predicate Stops(parameters: seq<Binding>, inPath: bool, wire: Wire) {
    exists b :: b in parameters && b.inPath == inPath && ParameterError(b, wire).Some?
  }

  lemma {:induction false} WrittenErr(parameters: seq<Binding>, inPath: bool, wire: Wire)
    ensures Written(parameters, inPath, wire).Err? <==> Stops(parameters, inPath, wire)
    ensures Written(parameters, inPath, wire).Err? ==>
      Written(parameters, inPath, wire) == Err(if inPath then MissingPathParameter else NullNotAllowed)
  {
    if parameters != [] {
      var rest, last := parameters[..|parameters| - 1], parameters[|parameters| - 1];
      assert parameters == rest + [last];
      WrittenErr(rest, inPath, wire);
    }
  }

  lemma BindingErr(c: ByWireName, p: Parameter, wire: Wire)
    ensures ParameterError(BindingOf(c, p), wire).Some? <==> Lacks(p, Get(wire, p.name)) || Nulls(p, Get(wire, p.name))
  {
  }

  lemma StopsExactly(c: ByWireName, parameters: seq<Parameter>, inPath: bool, wire: Wire)
    ensures Stops(Bindings(c, parameters), inPath, wire) <==>
      exists p :: p in parameters && if inPath then Lacks(p, Get(wire, p.name))
        else Nulls(p, Get(wire, p.name))
  {
    BindingsHold(c, parameters);
    forall p | p in parameters
      ensures BindingOf(c, p) in Bindings(c, parameters)
      ensures ParameterError(BindingOf(c, p), wire).Some? <==>
        Lacks(p, Get(wire, p.name)) || Nulls(p, Get(wire, p.name))
    {
      BindingErr(c, p, wire);
    }
  }

  /** After the fills, each parameter's value is the one that stands in its slot. */
  lemma StandingIs(e: Endpoint, c: ByWireName, entries: seq<Entry>, deferred: map<Text, Value>, p: Parameter)
    requires Sound(e, c) && p in e.parameters
    requires Filled(TemplateOf(e, c), Translated(TemplateOf(e, c), entries), deferred).Ok?
    ensures Get(Filled(TemplateOf(e, c), Translated(TemplateOf(e, c), entries), deferred).value, p.name)
      == Standing(e, c, entries, deferred, p.name)
  {
    var t := TemplateOf(e, c);
    FilledHolds(e, c, t, Translated(t, entries), deferred, p.name);
    ParameterNamesHold(e.parameters);
    WiresSplit(e, c);
  }

  lemma BodyErr(t: Template, wire: Wire, deferred: map<Text, Value>)
    ensures BodyValue(t, wire, deferred).Err? <==> t.bodyRoot.Some? && RootFill(t, deferred).Err?
    ensures BodyValue(t, wire, deferred).Err? ==> BodyValue(t, wire, deferred) == Err(DeferredValueMissing)
  {
  }

  lemma RootIs(e: Endpoint, c: ByWireName)
    ensures TemplateOf(e, c).bodyRoot == RootOf(e)
    ensures RootOf(e).Some? && !Hidden(c, RootOf(e).value) ==> TemplateOf(e, c).rootFill.None?
  {
  }

  lemma BodyFailsExactly(e: Endpoint, c: ByWireName, wire: Wire, deferred: map<Text, Value>)
    requires Sound(e, c)
    ensures BodyValue(TemplateOf(e, c), wire, deferred).Err? <==> RootStarved(e, c, deferred)
    ensures BodyValue(TemplateOf(e, c), wire, deferred).Err? ==>
      BodyValue(TemplateOf(e, c), wire, deferred) == Err(DeferredValueMissing)
  {
    RootIs(e, c);
    BodyErr(TemplateOf(e, c), wire, deferred);
    if RootOf(e).Some? && Hidden(c, RootOf(e).value) { RootFillIs(e, c, deferred); }
  }

  /** What the loops and the body make of the wire values. */
  lemma SentErr(t: Template, wire: Wire, deferred: map<Text, Value>)
    ensures var r := Sent(t, wire, deferred);
      if Stops(t.parameters, true, wire) then r == Err(MissingPathParameter)
      else if Stops(t.parameters, false, wire) then r == Err(NullNotAllowed)
      else if BodyValue(t, wire, deferred).Err? then r == Err(DeferredValueMissing)
      else r.Ok?
  {
    WrittenErr(t.parameters, true, wire);
    WrittenErr(t.parameters, false, wire);
    BodyErr(t, wire, deferred);
  }

  lemma ParametersStop(e: Endpoint, c: ByWireName, entries: seq<Entry>, deferred: map<Text, Value>, wire: Wire)
    requires Sound(e, c)
    requires Filled(TemplateOf(e, c), Translated(TemplateOf(e, c), entries), deferred) == Ok(wire)
    ensures Stops(Bindings(c, e.parameters), true, wire) <==> Lacking(e, c, entries, deferred)
    ensures Stops(Bindings(c, e.parameters), false, wire) <==> Nulled(e, c, entries, deferred)
  {
    StopsExactly(c, e.parameters, true, wire);
    StopsExactly(c, e.parameters, false, wire);
    forall p | p in e.parameters ensures Get(wire, p.name) == Standing(e, c, entries, deferred, p.name) {
      StandingIs(e, c, entries, deferred, p);
    }
  }

  lemma SentRefused(e: Endpoint, c: ByWireName, entries: seq<Entry>, deferred: map<Text, Value>, wire: Wire)
    requires Sound(e, c) && !Unknown(TemplateOf(e, c), entries) && !Starved(e, c, deferred)
    requires Filled(TemplateOf(e, c), Translated(TemplateOf(e, c), entries), deferred) == Ok(wire)
    ensures var r, refusal := Sent(TemplateOf(e, c), wire, deferred), Refusal(e, c, entries, deferred);
      if refusal.Some? then r == Err(refusal.value) else r.Ok?
  {
    var t := TemplateOf(e, c);
    assert t.parameters == Bindings(c, e.parameters);
    SentErr(t, wire, deferred);
    ParametersStop(e, c, entries, deferred, wire);
    BodyFailsExactly(e, c, wire, deferred);
  }

  /** A request is refused exactly when there is a reason, and then for the first. */
  lemma RefusedExactly(e: Endpoint, variant: seq<ArgumentRecord>, folded: set<Text>, c: ByWireName,
        entries: seq<Entry>, deferred: map<Text, Value>)
    requires Built(e, variant, folded, c)
    ensures var r, refusal := Composed(TemplateOf(e, c), entries, deferred), Refusal(e, c, entries, deferred);
      if refusal.Some? then r == Err(refusal.value) else r.Ok?
  {
    BuiltIsSound(e, variant, folded, c);
    var t := TemplateOf(e, c);
    var sent := Translated(t, entries);
    FillsFailExactly(e, c, sent, deferred);
    assert AcceptsAll(t, entries) <==> !Unknown(t, entries);
    if !Unknown(t, entries) && Filled(t, sent, deferred).Ok? {
      SentRefused(e, c, entries, deferred, Filled(t, sent, deferred).value);
    }
  }
}
