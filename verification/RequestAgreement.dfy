/** The published schema and the request template are two readings of one endpoint: when, exactly, they agree. */
module RequestAgreement {
  import opened Wrappers
  import opened Curation
  import opened RequestSchema
  import opened RequestTemplates

  /** Both outputs were built, under the curation `c`. */
  ghost predicate Built(e: Endpoint, variant: seq<ArgumentRecord>, folded: set<Text>, c: ByWireName) {
    Schema(e, variant, folded).Ok? && TemplateFor(e, variant, folded).Ok? && Curated(e, variant, folded) == Ok(c)
  }

  /** Wire names and visible names are distinct; only wire names are curated, and a rename is a new name. */
  ghost predicate Sound(e: Endpoint, c: ByWireName) {
    && Unique(Wires(e)) && Unique(VisibleNames(c, Wires(e)))
    && (forall w :: w in c ==> w in Wires(e) && c[w].argument != Some(w))
  }

  lemma {:induction false} RenamesDiffer(records: seq<ArgumentRecord>, shape: CurationShape, folded: set<Text>)
    requires ResolveAll(records, shape, folded).Ok?
    ensures forall w :: w in ResolveAll(records, shape, folded).value ==>
      ResolveAll(records, shape, folded).value[w].argument != Some(w)
  {
    if records != [] { RenamesDiffer(records[..|records| - 1], shape, folded); }
  }

  lemma BuiltIsSound(e: Endpoint, variant: seq<ArgumentRecord>, folded: set<Text>, c: ByWireName)
    requires Built(e, variant, folded, c)
    ensures Sound(e, c)
  {
    var records := Declarations(e.arguments, variant).value;
    ResolutionApart(records, ShapeOf(e), folded);
    ResolvedHaveSlots(records, ShapeOf(e), folded);
    RenamesDiffer(records, ShapeOf(e), folded);
  }

  predicate RootRenamed(e: Endpoint, c: ByWireName) {
    RootOf(e).Some? && !Hidden(c, RootOf(e).value) && Renamed(c, RootOf(e).value)
  }

  lemma WiresAre(e: Endpoint, w: Text)
    ensures w in Wires(e) <==> w in ParameterNames(e.parameters) || w in FieldsOf(e) || RootOf(e) == Some(w)
  {
  }

  // Which argument a new name belongs to.

  /** The last of the names that was renamed to `k`, hidden or not. */
  function LastRenamed(c: ByWireName, names: seq<Text>, k: Text): Option<Text> {
    if names == [] then None
    else
      var last := names[|names| - 1];
      if Renamed(c, last) && AgentName(c, last) == k then Some(last) else LastRenamed(c, names[..|names| - 1], k)
  }

  lemma {:induction false} LastRenamedHolds(c: ByWireName, names: seq<Text>, k: Text)
    ensures var w := LastRenamed(c, names, k);
      if w.Some? then w.value in names && Renamed(c, w.value) && AgentName(c, w.value) == k
      else forall x :: x in names ==> !(Renamed(c, x) && AgentName(c, x) == k)
  {
    if names != [] {
      var rest := names[..|names| - 1];
      assert names == rest + [names[|names| - 1]];
      LastRenamedHolds(c, rest, k);
    }
  }

  lemma {:induction false} AliasesAre(c: ByWireName, fields: seq<Text>, k: Text)
    ensures var aliases := Aliases(c, fields);
      LastRenamed(c, fields, k) == if k in aliases then Some(aliases[k]) else None
  {
    if fields != [] { AliasesAre(c, fields[..|fields| - 1], k); }
  }

  lemma {:induction false} ParameterTableIs(c: ByWireName, parameters: seq<Parameter>, k: Text)
    ensures var table := ParameterTable(Bindings(c, parameters));
      LastRenamed(c, ParameterNames(parameters), k) == if k in table then Some(table[k]) else None
  {
    if parameters != [] {
      var rest := parameters[..|parameters| - 1];
      ParameterTableIs(c, rest, k);
      assert Bindings(c, parameters)[..|rest|] == Bindings(c, rest);
      assert ParameterNames(parameters)[..|rest|] == ParameterNames(rest);
    }
  }

  /** Whose new name `k` is for the template: a field's before a parameter's, and the last one's of several. */
  function Holder(e: Endpoint, c: ByWireName, k: Text): Option<Text> {
    var field := LastRenamed(c, FieldsOf(e), k);
    if field.Some? then field else LastRenamed(c, ParameterNames(e.parameters), k)
  }

  /** The agent-to-wire table sends a name to its holder. */
  lemma TableIs(e: Endpoint, c: ByWireName, k: Text)
    ensures var table := Table(TemplateOf(e, c));
      Holder(e, c, k) == if k in table then Some(table[k]) else None
  {
    ParameterTableIs(c, e.parameters, k);
    AliasesAre(c, FieldsOf(e), k);
    if RootOf(e).Some? { assert FieldsOf(e) == []; }
  }

  lemma HolderIs(e: Endpoint, c: ByWireName, k: Text)
    ensures var w := Holder(e, c, k);
      w.Some? ==>
        && Renamed(c, w.value) && AgentName(c, w.value) == k
        && (w.value in FieldsOf(e) || w.value in ParameterNames(e.parameters))
    ensures Holder(e, c, k).None? ==>
      forall w :: (w in FieldsOf(e) || w in ParameterNames(e.parameters)) ==> !(Renamed(c, w) && AgentName(c, w) == k)
  {
    LastRenamedHolds(c, FieldsOf(e), k);
    LastRenamedHolds(c, ParameterNames(e.parameters), k);
  }

  /** A renamed field that has its new name, and no later field has taken it. */
  predicate Aliased(e: Endpoint, c: ByWireName, f: Text) {
    Renamed(c, f) && LastRenamed(c, FieldsOf(e), AgentName(c, f)) == Some(f)
  }

  lemma AliasValues(e: Endpoint, c: ByWireName, f: Text)
    ensures f in Aliases(c, FieldsOf(e)).Values <==> Aliased(e, c, f)
  {
    var aliases := Aliases(c, FieldsOf(e));
    if Aliased(e, c, f) { AliasesAre(c, FieldsOf(e), AgentName(c, f)); }
    forall k | k in aliases && aliases[k] == f ensures Aliased(e, c, f) {
      AliasesAre(c, FieldsOf(e), k);
      LastRenamedHolds(c, FieldsOf(e), k);
    }
  }

  // What the template allows and denies, in the endpoint's terms.

  /** Some visible argument among the names is called `k`. */
  ghost predicate Called(c: ByWireName, names: seq<Text>, k: Text) {
    exists w :: w in names && !Hidden(c, w) && AgentName(c, w) == k
  }

  lemma AllowedParametersAre(e: Endpoint, c: ByWireName, k: Text)
    ensures k in AllowedParameters(Bindings(c, e.parameters)) <==> Called(c, ParameterNames(e.parameters), k)
  {
    AgentNamesAre(c, e.parameters);
    VisibleMembers(c, ParameterNames(e.parameters), k);
  }

  lemma AllowedSplits(e: Endpoint, c: ByWireName, k: Text)
    ensures var aliases, fills := Aliases(c, FieldsOf(e)), Fills(c, FieldsOf(e));
      k in Allowed(TemplateOf(e, c)) <==>
      || k in AllowedParameters(Bindings(c, e.parameters))
      || k in aliases || (k in FieldsOf(e) && k !in fills && k !in aliases.Values)
      || (RootOf(e) == Some(k) && !Hidden(c, k))
  {
    if RootOf(e).Some? { assert FieldsOf(e) == []; }
  }

  /**
   * A name is allowed when a visible parameter is called so, when any field was renamed to it, when it is a visible
   * field that has no alias of its own, and when it is the visible root's wire name.
   */
  lemma AllowedIs(e: Endpoint, c: ByWireName, k: Text)
    ensures k in Allowed(TemplateOf(e, c)) <==>
      || Called(c, ParameterNames(e.parameters), k)
      || LastRenamed(c, FieldsOf(e), k).Some?
      || (k in FieldsOf(e) && !Hidden(c, k) && !Aliased(e, c, k))
      || (RootOf(e) == Some(k) && !Hidden(c, k))
  {
    AllowedParametersAre(e, c, k);
    AllowedSplits(e, c, k);
    AliasesAre(c, FieldsOf(e), k);
    FillsHold(c, FieldsOf(e), k);
    AliasValues(e, c, k);
  }

  /** The wire names that are refused: of what was renamed or hidden, but for a field whose new name another took. */
  predicate Refused(e: Endpoint, c: ByWireName, k: Text) {
    || (k in ParameterNames(e.parameters) && (Renamed(c, k) || Hidden(c, k)))
    || (k in FieldsOf(e) && (Aliased(e, c, k) || Hidden(c, k)))
    || (RootOf(e) == Some(k) && Hidden(c, k))
  }

  lemma DeniedSplits(e: Endpoint, c: ByWireName, k: Text)
    ensures k in Denied(TemplateOf(e, c)) <==>
      || (exists b :: b in Bindings(c, e.parameters) && (b.fill.Some? || b.argument.Some?) && b.name == k)
      || k in Aliases(c, FieldsOf(e)).Values || k in Fills(c, FieldsOf(e))
      || (RootOf(e) == Some(k) && Hidden(c, k))
  {
    if RootOf(e).Some? { assert FieldsOf(e) == []; }
  }

  lemma ParameterDenied(e: Endpoint, c: ByWireName, k: Text)
    ensures (exists b :: b in Bindings(c, e.parameters) && (b.fill.Some? || b.argument.Some?) && b.name == k)
      <==> k in ParameterNames(e.parameters) && (Renamed(c, k) || Hidden(c, k))
  {
    BindingsHold(c, e.parameters);
    ParameterNamesHold(e.parameters);
    if k in ParameterNames(e.parameters) && (Renamed(c, k) || Hidden(c, k)) {
      var p :| p in e.parameters && p.name == k;
      assert BindingOf(c, p) in Bindings(c, e.parameters);
    }
  }

  lemma DeniedIs(e: Endpoint, c: ByWireName, k: Text)
    ensures k in Denied(TemplateOf(e, c)) <==> Refused(e, c, k)
  {
    ParameterDenied(e, c, k);
    FillsHold(c, FieldsOf(e), k);
    AliasValues(e, c, k);
    DeniedSplits(e, c, k);
    if Aliased(e, c, k) { LastRenamedHolds(c, FieldsOf(e), AgentName(c, k)); }
  }

  // The published schema against the template.

  lemma PublishedIs(e: Endpoint, c: ByWireName, k: Text)
    ensures k in SchemaOf(e, c).properties <==> Called(c, Wires(e), k)
  {
    PublishedKeys(c, Wires(e), k);
    VisibleMembers(c, Wires(e), k);
  }

  lemma CalledSplits(e: Endpoint, c: ByWireName, k: Text)
    ensures Called(c, Wires(e), k) <==>
      || Called(c, ParameterNames(e.parameters), k)
      || Called(c, FieldsOf(e), k)
      || (RootOf(e).Some? && !Hidden(c, RootOf(e).value) && AgentName(c, RootOf(e).value) == k)
  {
    if w :| w in Wires(e) && !Hidden(c, w) && AgentName(c, w) == k { WiresAre(e, w); }
    if w :| w in ParameterNames(e.parameters) && !Hidden(c, w) && AgentName(c, w) == k { WiresAre(e, w); }
    if f :| f in FieldsOf(e) && !Hidden(c, f) && AgentName(c, f) == k { WiresAre(e, f); }
    if RootOf(e).Some? { WiresAre(e, RootOf(e).value); }
  }

  /** Every name that a hidden field was given is some visible argument's, too. */
  ghost predicate HiddenNamesShown(e: Endpoint, c: ByWireName) {
    forall f :: f in FieldsOf(e) && Hidden(c, f) && Renamed(c, f) ==> Called(c, Wires(e), AgentName(c, f))
  }

  /** A visible field whose new name a hidden one took answers to its wire name again; that is some argument's name. */
  ghost predicate OustedNamesShown(e: Endpoint, c: ByWireName) {
    forall f :: f in FieldsOf(e) && !Hidden(c, f) && Renamed(c, f) && !Aliased(e, c, f) ==> Called(c, Wires(e), f)
  }

  /** The published keys are the allowed names. */
  ghost predicate Agrees(e: Endpoint, c: ByWireName) {
    !RootRenamed(e, c) && HiddenNamesShown(e, c) && OustedNamesShown(e, c)
  }

  /** A published name is allowed, unless it is a renamed root's. */
  lemma CalledIsAllowed(e: Endpoint, c: ByWireName, k: Text)
    requires !RootRenamed(e, c) && Called(c, Wires(e), k)
    ensures k in Allowed(TemplateOf(e, c))
  {
    AllowedIs(e, c, k);
    CalledSplits(e, c, k);
    LastRenamedHolds(c, FieldsOf(e), k);
    if f :| f in FieldsOf(e) && !Hidden(c, f) && AgentName(c, f) == k {
      if !Renamed(c, f) { assert f == k && !Aliased(e, c, k); }
    }
  }

  lemma AllowedIsCalled(e: Endpoint, c: ByWireName, k: Text)
    requires Agrees(e, c) && k in Allowed(TemplateOf(e, c))
    ensures Called(c, Wires(e), k)
  {
    AllowedIs(e, c, k);
    CalledSplits(e, c, k);
    LastRenamedHolds(c, FieldsOf(e), k);
    if LastRenamed(c, FieldsOf(e), k).Some? {
      var f := LastRenamed(c, FieldsOf(e), k).value;
      if !Hidden(c, f) { assert Called(c, FieldsOf(e), k); }
    } else if k in FieldsOf(e) && !Hidden(c, k) && !Aliased(e, c, k) {
      if !Renamed(c, k) { assert AgentName(c, k) == k && Called(c, FieldsOf(e), k); }
    }
  }

  /** The published keys are the allowed names exactly when the root keeps its name and no field's name was taken. */
  lemma PublishedExactly(e: Endpoint, variant: seq<ArgumentRecord>, folded: set<Text>, c: ByWireName)
    requires Built(e, variant, folded, c)
    ensures SchemaOf(e, c).properties.Keys == Allowed(TemplateOf(e, c)) <==> Agrees(e, c)
  {
    BuiltIsSound(e, variant, folded, c);
    var properties, allowed := SchemaOf(e, c).properties, Allowed(TemplateOf(e, c));
    forall k ensures k in properties <==> Called(c, Wires(e), k) { PublishedIs(e, c, k); }
    if Agrees(e, c) {
      forall k ensures k in properties <==> k in allowed {
        if k in properties { CalledIsAllowed(e, c, k); }
        if k in allowed { AllowedIsCalled(e, c, k); }
      }
    } else if properties.Keys == allowed {
      if RootRenamed(e, c) { RootLost(e, c, AgentName(c, RootOf(e).value)); }
      SameNamesAgree(e, c);
    }
  }

  lemma SameNamesAgree(e: Endpoint, c: ByWireName)
    requires forall k :: k in Allowed(TemplateOf(e, c)) ==> Called(c, Wires(e), k)
    ensures HiddenNamesShown(e, c) && OustedNamesShown(e, c)
  {
    forall f | f in FieldsOf(e) && Hidden(c, f) && Renamed(c, f) ensures Called(c, Wires(e), AgentName(c, f)) {
      AllowedIs(e, c, AgentName(c, f));
      LastRenamedHolds(c, FieldsOf(e), AgentName(c, f));
    }
    forall f | f in FieldsOf(e) && !Hidden(c, f) && Renamed(c, f) && !Aliased(e, c, f)
      ensures Called(c, Wires(e), f)
    {
      AllowedIs(e, c, f);
    }
  }

  /** A renamed root is published under its new name, which the template does not allow. */
  lemma RootLost(e: Endpoint, c: ByWireName, k: Text)
    requires Sound(e, c) && RootRenamed(e, c) && k == AgentName(c, RootOf(e).value)
    ensures k in SchemaOf(e, c).properties && k !in Allowed(TemplateOf(e, c))
  {
    var root := RootOf(e).value;
    WiresAre(e, root);
    PublishedIs(e, c, k);
    AllowedIs(e, c, k);
    forall w | w in ParameterNames(e.parameters) && !Hidden(c, w) && AgentName(c, w) == k ensures false {
      WiresAre(e, w);
      VisibleApart(c, Wires(e), w, root);
      UniqueAppend(ParameterNames(e.parameters), [root]);
    }
  }

  // What is accepted.

  /** No name that the agent sees is refused as somebody's wire name. */
  ghost predicate NamesClear(e: Endpoint, c: ByWireName) {
    forall k :: Called(c, Wires(e), k) ==> !Refused(e, c, k)
  }

  /** As `HiddenNamesShown`, but a name that is refused does no harm. */
  ghost predicate HiddenNamesHarmless(e: Endpoint, c: ByWireName) {
    forall f :: f in FieldsOf(e) && Hidden(c, f) && Renamed(c, f) ==>
      Called(c, Wires(e), AgentName(c, f)) || Refused(e, c, AgentName(c, f))
  }

  /** A key is accepted when it is published, or when the schema admits extra keys and it is not refused. */
  ghost predicate AcceptsAsPublished(e: Endpoint, c: ByWireName, k: Text) {
    Accepts(TemplateOf(e, c), k) <==>
      k in SchemaOf(e, c).properties || (SchemaOf(e, c).additional && !Refused(e, c, k))
  }

  ghost predicate AcceptsRightly(e: Endpoint, c: ByWireName) {
    && NamesClear(e, c) && !RootRenamed(e, c)
    && (SchemaOf(e, c).additional || (HiddenNamesHarmless(e, c) && OustedNamesShown(e, c)))
  }

  lemma AcceptsIs(e: Endpoint, c: ByWireName, k: Text)
    ensures Accepts(TemplateOf(e, c), k) <==>
      !Refused(e, c, k) && (k in Allowed(TemplateOf(e, c)) || SchemaOf(e, c).additional)
  {
    DeniedIs(e, c, k);
  }

  lemma AllowedIsPublished(e: Endpoint, c: ByWireName, k: Text)
    requires !RootRenamed(e, c) && HiddenNamesHarmless(e, c) && OustedNamesShown(e, c)
    requires k in Allowed(TemplateOf(e, c)) && !Refused(e, c, k)
    ensures Called(c, Wires(e), k)
  {
    AllowedIs(e, c, k);
    CalledSplits(e, c, k);
    LastRenamedHolds(c, FieldsOf(e), k);
    if LastRenamed(c, FieldsOf(e), k).Some? {
      var f := LastRenamed(c, FieldsOf(e), k).value;
      if !Hidden(c, f) { assert Called(c, FieldsOf(e), k); }
    } else if k in FieldsOf(e) && !Hidden(c, k) && !Aliased(e, c, k) {
      if !Renamed(c, k) { assert AgentName(c, k) == k && Called(c, FieldsOf(e), k); }
    }
  }

  lemma RightlyAccepted(e: Endpoint, c: ByWireName, k: Text)
    requires AcceptsRightly(e, c)
    ensures AcceptsAsPublished(e, c, k)
  {
    AcceptsIs(e, c, k);
    PublishedIs(e, c, k);
    if Called(c, Wires(e), k) {
      CalledIsAllowed(e, c, k);
    } else if !SchemaOf(e, c).additional && Accepts(TemplateOf(e, c), k) {
      AllowedIsPublished(e, c, k);
    }
  }

  lemma AcceptedIsRight(e: Endpoint, c: ByWireName)
    requires Sound(e, c) && forall k :: AcceptsAsPublished(e, c, k)
    ensures AcceptsRightly(e, c)
  {
    forall k | Called(c, Wires(e), k) ensures !Refused(e, c, k) {
      PublishedIs(e, c, k);
      AcceptsIs(e, c, k);
      assert AcceptsAsPublished(e, c, k);
    }
    if RootRenamed(e, c) {
      var k := AgentName(c, RootOf(e).value);
      RootLost(e, c, k);
      AcceptsIs(e, c, k);
      assert !AcceptsAsPublished(e, c, k);
    }
    if !SchemaOf(e, c).additional { AllowedAreRight(e, c); }
  }

  lemma AllowedAreRight(e: Endpoint, c: ByWireName)
    requires !SchemaOf(e, c).additional && Sound(e, c) && forall k :: AcceptsAsPublished(e, c, k)
    ensures HiddenNamesHarmless(e, c) && OustedNamesShown(e, c)
  {
    forall f | f in FieldsOf(e) && Hidden(c, f) && Renamed(c, f)
      ensures Called(c, Wires(e), AgentName(c, f)) || Refused(e, c, AgentName(c, f))
    {
      var k := AgentName(c, f);
      AllowedIs(e, c, k);
      LastRenamedHolds(c, FieldsOf(e), k);
      AcceptsIs(e, c, k);
      PublishedIs(e, c, k);
      assert AcceptsAsPublished(e, c, k);
    }
    forall f | f in FieldsOf(e) && !Hidden(c, f) && Renamed(c, f) && !Aliased(e, c, f)
      ensures Called(c, Wires(e), f)
    {
      FieldIsNoParameter(e, c, f);
      AllowedIs(e, c, f);
      AcceptsIs(e, c, f);
      PublishedIs(e, c, f);
      assert AcceptsAsPublished(e, c, f);
    }
  }

  lemma FieldIsNoParameter(e: Endpoint, c: ByWireName, f: Text)
    requires Sound(e, c) && f in FieldsOf(e)
    ensures f !in ParameterNames(e.parameters) && RootOf(e).None?
  {
    UniqueAppend(ParameterNames(e.parameters), FieldsOf(e));
  }

  /**
   * `rejectUnknown` accepts just what was published, and any other name that is not refused when the schema admits
   * extra keys: exactly when no visible name is refused as a wire name, the root keeps its name, and a closed body
   * has no hidden field with a name of its own and no visible field whose name was taken.
   */
  lemma AcceptedExactly(e: Endpoint, variant: seq<ArgumentRecord>, folded: set<Text>, c: ByWireName)
    requires Built(e, variant, folded, c)
    ensures (forall k :: AcceptsAsPublished(e, c, k)) <==> AcceptsRightly(e, c)
  {
    BuiltIsSound(e, variant, folded, c);
    if AcceptsRightly(e, c) {
      forall k ensures AcceptsAsPublished(e, c, k) { RightlyAccepted(e, c, k); }
    }
    if forall k :: AcceptsAsPublished(e, c, k) { AcceptedIsRight(e, c); }
  }

  /**
   * `translate` sends a published key to the wire slot whose schema was published under it, exactly when no hidden
   * argument holds that name and it is not a renamed root's.
   */
  lemma KeysReachTheirSlots(e: Endpoint, variant: seq<ArgumentRecord>, folded: set<Text>, c: ByWireName, k: Text)
    requires Built(e, variant, folded, c) && k in SchemaOf(e, c).properties
    ensures WireOf(TemplateOf(e, c), k) == SchemaOf(e, c).properties[k] <==>
      && (Holder(e, c, k).Some? ==> !Hidden(c, Holder(e, c, k).value))
      && !(RootRenamed(e, c) && SchemaOf(e, c).properties[k] == RootOf(e).value)
  {
    BuiltIsSound(e, variant, folded, c);
    PublishedKeys(c, Wires(e), k);
    TableIs(e, c, k);
    HolderIs(e, c, k);
    var w, holder := SchemaOf(e, c).properties[k], Holder(e, c, k);
    WiresAre(e, w);
    if holder.Some? {
      WiresAre(e, holder.value);
      if !Hidden(c, holder.value) { VisibleApart(c, Wires(e), w, holder.value); }
      if RootOf(e) == Some(w) { UniqueAppend(ParameterNames(e.parameters), [w]); }
    }
  }
}
