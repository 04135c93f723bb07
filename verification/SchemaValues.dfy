/**
 * What a written schema admits, value by value, and what the shape's own types and constraints admit: the same, for
 * every value. Numbers, sizes, patterns and formats are texts that a `Sense` gives a meaning to.
 */
module SchemaValues {
  import opened Wrappers
  import opened Digraph
  import opened TypeShapes
  import opened SchemaEmission
  import opened SchemaMeaning

  datatype Value =
    | NullValue
    | BoolValue(truth: bool)
    | NumberValue(number: real)
    | TextValue(text: string)
    | ListValue(items: seq<Value>)
    | RecordValue(fields: seq<Field>)

  datatype Field = Field(name: Text, value: Value)

  /** What the literals stand for. */
  datatype Sense = Sense(
    number: Text -> real, size: Text -> int, matches: (Text, string) -> bool, formatted: (Text, string) -> bool,
    base64: string -> bool, host: (Text, Value) -> bool)

  predicate Integral(x: real) {
    x == x.Floor as real
  }

  predicate OfType(t: JsonType, v: Value) {
    match t
    case ObjectType => v.RecordValue?
    case ArrayType => v.ListValue?
    case StringType => v.TextValue?
    case IntegerType => v.NumberValue? && Integral(v.number)
    case NumberType => v.NumberValue?
    case BooleanType => v.BoolValue?
    case NullType => v.NullValue?
  }

  predicate Named(names: seq<Text>, v: Value) {
    v.TextValue? && Text(v.text) in names
  }

  predicate Numbered(s: Sense, numbers: seq<Text>, v: Value) {
    v.NumberValue? && exists x :: x in numbers && s.number(x) == v.number
  }

  // JSON Schema: a keyword says something of values of its own kind, and a `$ref` adds to what stands beside it.

  predicate FacetsAdmit(s: Sense, f: Facets, v: Value) {
    match v
    case NumberValue(n) =>
      && (Minimum in f ==> s.number(f[Minimum]) <= n)
      && (Maximum in f ==> n <= s.number(f[Maximum]))
    case TextValue(text) =>
      && (MinLength in f ==> s.size(f[MinLength]) <= |text|)
      && (MaxLength in f ==> |text| <= s.size(f[MaxLength]))
      && (Pattern in f ==> s.matches(f[Pattern], text))
      && (Format in f ==> s.formatted(f[Format], text))
    case ListValue(items) =>
      && (MinItems in f ==> s.size(f[MinItems]) <= |items|)
      && (MaxItems in f ==> |items| <= s.size(f[MaxItems]))
    case _ => true
  }

  /** The members of an `anyOf`, and the values of an `enum`, which are texts or numbers by its `type`. */
  predicate DetailAdmits(s: Sense, t: Option<JsonType>, detail: LeafDetail, v: Value) {
    match detail
    case Bare => true
    case Base64 => v.TextValue? ==> s.base64(v.text)
    case Host(rest) => s.host(rest, v)
    case EnumValues(values) => if t == Some(StringType) then Named(values, v) else Numbered(s, values, v)
    case EitherEnum(facts) =>
      if facts.combinable then OfType(StringType, v) || OfType(IntegerType, v)
      else Named(facts.names, v) || (OfType(IntegerType, v) && Numbered(s, facts.numbers, v))
  }

  /** `^-?[0-9]+$` */
  predicate IntegerText(text: string) {
    var digits := if text != "" && text[0] == '-' then text[1..] else text;
    digits != "" && forall c :: c in digits ==> '0' <= c <= '9'
  }

  predicate KeyAdmits(s: Sense, keys: KeySchema, name: Text) {
    && (keys.format.Some? ==> s.formatted(keys.format.value, name.chars))
    && (keys.integerPattern ==> IntegerText(name.chars))
  }

  predicate Holds(fields: seq<Field>, name: Text) {
    exists i :: 0 <= i < |fields| && fields[i].name == name
  }

  predicate SchemaAdmits(s: Sense, defs: map<Text, Schema>, schema: Schema, v: Value, fuel: nat)
    decreases v, fuel
  {
    FacetsAdmit(s, schema.facets, v) &&
    match schema.body
    case Opaque => v.RecordValue?
    case Leaf(t, detail) => (t.Some? ==> OfType(t.value, v)) && DetailAdmits(s, t, detail, v)
    case ArrayBody(items) =>
      v.ListValue? && forall i :: 0 <= i < |v.items| ==> SchemaAdmits(s, defs, items, v.items[i], |defs|)
    case MapBody(values, keys) =>
      v.RecordValue? && forall i :: 0 <= i < |v.fields| ==>
        && (keys.Some? ==> KeyAdmits(s, keys.value, v.fields[i].name))
        && SchemaAdmits(s, defs, values, v.fields[i].value, |defs|)
    case ObjectBody(properties, required) =>
      && v.RecordValue?
      && (forall i :: 0 <= i < |v.fields| && v.fields[i].name in properties ==>
            SchemaAdmits(s, defs, properties[v.fields[i].name], v.fields[i].value, |defs|))
      && forall name :: name in required ==> Holds(v.fields, name)
    case RefBody(name) => fuel > 0 && name in defs && SchemaAdmits(s, defs, defs[name], v, fuel - 1)
  }

  // The shape: its types, and the constraints on its members.

  const UNCONSTRAINED := Constraints(None, None, None, None, None, None)

  function First(a: Option<Text>, b: Option<Text>): Option<Text> {
    if a.Some? then a else b
  }

  /** A member's constraints within those of a wrapper around it: the outer one counts, but the inner format. */
  function Within(outer: Constraints, inner: Option<Constraints>): Constraints {
    if inner.None? then outer
    else
      var c := inner.value;
      Constraints(First(outer.minSize, c.minSize), First(outer.maxSize, c.maxSize),
                  First(outer.minimum, c.minimum), First(outer.maximum, c.maximum),
                  First(outer.pattern, c.pattern), First(c.format, outer.format))
  }

  function Own(facets: Facets, k: Keyword): Option<Text> {
    if k in facets then Some(facets[k]) else None
  }

  predicate Numeric(t: Option<JsonType>) {
    t == Some(IntegerType) || t == Some(NumberType)
  }

  predicate Between(s: Sense, low: Option<Text>, high: Option<Text>, size: int) {
    (low.Some? ==> s.size(low.value) <= size) && (high.Some? ==> size <= s.size(high.value))
  }

  /**
   * What constraints ask of a value where the type is `t`, if one is known: a number lies between `minimum` and
   * `maximum` where the type is numeric; the length of a list lies between `minSize` and `maxSize` where the type is
   * an array, and that of a text where it is not; a text has the pattern and the format where the type is a string.
   * What the type says itself, `own`, counts where the constraints say nothing, and its format always.
   */
  predicate LimitsAdmit(s: Sense, t: Option<JsonType>, own: Facets, c: Constraints, v: Value) {
    match v
    case NumberValue(n) =>
      var low := First(if Numeric(t) then c.minimum else None, Own(own, Minimum));
      var high := First(if Numeric(t) then c.maximum else None, Own(own, Maximum));
      (low.Some? ==> s.number(low.value) <= n) && (high.Some? ==> n <= s.number(high.value))
    case ListValue(items) =>
      var list := t == Some(ArrayType);
      Between(s, First(if list then c.minSize else None, Own(own, MinItems)),
              First(if list then c.maxSize else None, Own(own, MaxItems)), |items|)
    case TextValue(text) =>
      var list, known := t == Some(ArrayType), t == Some(StringType);
      var pattern := First(if known then c.pattern else None, Own(own, Pattern));
      var format := First(Own(own, Format), if known then c.format else None);
      && Between(s, First(if list then None else c.minSize, Own(own, MinLength)),
                 First(if list then None else c.maxSize, Own(own, MaxLength)), |text|)
      && (pattern.Some? ==> s.matches(pattern.value, text))
      && (format.Some? ==> s.formatted(format.value, text))
    case _ => true
  }

  /** An enumeration admits its names, its numbers, or either; one whose members combine admits more than its own. */
  predicate EnumAdmits(s: Sense, facts: EnumFacts, v: Value) {
    match facts.wireForm
    case None =>
      || (v.TextValue? && (facts.combinable || Text(v.text) in facts.names))
      || (v.NumberValue? && Integral(v.number) && (facts.combinable || Numbered(s, facts.numbers, v)))
    case Some(t) =>
      && OfType(t, v)
      && (facts.combinable || if t == StringType then Named(facts.names, v) else Numbered(s, facts.numbers, v))
  }

  /** A dictionary's keys: of their format, or integers. */
  predicate NameAdmitted(s: Sense, keys: Option<MapKey>, name: Text) {
    keys.Some? && keys.value.scalar.Some? ==>
      if keys.value.format.Some? then s.formatted(keys.value.format.value, name.chars)
      else keys.value.scalar == Some(IntegerType) ==> IntegerText(name.chars)
  }

  /** What the types of a shape say that do not refer to others. */
  predicate LeafAdmits(s: Sense, node: TypeNode, c: Constraints, v: Value) {
    match node
    case Verbatim(None) => s.host(Text(""), v) && LimitsAdmit(s, None, map[], c, v)
    case Verbatim(Some(host)) =>
      && (host.jsonType.Some? ==> OfType(host.jsonType.value, v))
      && s.host(host.rest, v) && LimitsAdmit(s, host.jsonType, host.facets, c, v)
    case Binary => v.TextValue? && s.base64(v.text) && LimitsAdmit(s, Some(StringType), map[], c, v)
    case ScalarNode(scalar, format) =>
      var t := if scalar.Some? then scalar.value else StringType;
      OfType(t, v) && LimitsAdmit(s, Some(t), if format.Some? then map[Format := format.value] else map[], c, v)
    case EnumNode(Some(facts)) => EnumAdmits(s, facts, v) && LimitsAdmit(s, facts.wireForm, map[], c, v)
    case _ => v.RecordValue?
  }

  /** The member that a name stands for among the kept ones: the last. */
  ghost predicate Speaks(members: seq<Member>, m: Member) {
    exists i :: 0 <= i < |members| && members[i] == m && forall j :: i < j < |members| ==> members[j].name != m.name
  }

  /**
   * What a node admits where it was written, under the constraints `c` of the members around it: a reference to a
   * shared type knows no type for them, and a budget leaves any record.
   */
  ghost predicate NodeAdmits(s: Sense, p: GroundedPlan, node: TypeNode, c: Constraints, depth: nat, v: Value)
    requires Known(p, node)
    decreases v, WrapRank(p, node), 1
  {
    match node
    case MapNode(keys, values) =>
      v.RecordValue? && (keys.None? || keys.value.writable ==> forall i :: 0 <= i < |v.fields| ==>
        && NameAdmitted(s, keys, v.fields[i].name)
        && if values.None? then v.fields[i].value.RecordValue?
           else BelowAdmits(s, p, values.value, UNCONSTRAINED, depth, v.fields[i].value))
    case ArrayNode(items) =>
      && v.ListValue? && LimitsAdmit(s, Some(ArrayType), map[], c, v)
      && forall i :: 0 <= i < |v.items| ==>
           if items.None? then v.items[i].RecordValue?
           else BelowAdmits(s, p, items.value, UNCONSTRAINED, depth, v.items[i])
    case RefNode(Some(key)) =>
      assert key in Refs(node);
      if key in p.hoisted then LimitsAdmit(s, None, map[], c, v) && BodyAdmits(s, p, key, UNCONSTRAINED, 0, v)
      else BodyAdmits(s, p, key, c, depth, v)
    case _ => LeafAdmits(s, node, c, v)
  }

  ghost predicate BelowAdmits(s: Sense, p: GroundedPlan, node: TypeNode, c: Constraints, depth: nat, v: Value)
    requires Known(p, node)
    decreases v, WrapRank(p, node), 2
  {
    if Truncated(p, depth + 1) then v.RecordValue? else NodeAdmits(s, p, node, c, depth + 1, v)
  }

  /** A declared type: what its one member admits when it only wraps that, or records whose fields its members admit. */
  ghost predicate BodyAdmits(s: Sense, p: GroundedPlan, key: Text, c: Constraints, depth: nat, v: Value)
    requires key in p.graph
    decreases v, |WrapReach(p, key)| + 1, 0
  {
    if key !in p.types then v.RecordValue?
    else if Unwraps(p, key) then
      WrapStepShrinks(p, key);
      NodeAdmits(s, p, OnlyMember(p, key).nodeType, Within(c, OnlyMember(p, key).constraints), depth, v)
    else
      var members := Selected(p.dropReadOnly, p.types[key].members);
      && v.RecordValue?
      && (forall i :: 0 <= i < |v.fields| ==> forall m :: m in members ==>
            Speaks(members, m) && v.fields[i].name == m.name ==>
              (MemberKnown(p, key, m);
               BelowAdmits(s, p, m.nodeType, Within(UNCONSTRAINED, m.constraints), depth, v.fields[i].value)))
      && forall m :: m in members && m.required ==> Holds(v.fields, m.name)
  }

  lemma MemberKnown(p: GroundedPlan, key: Text, m: Member)
    requires key in p.graph && key in p.types && m in p.types[key].members
    ensures Known(p, m.nodeType)
  {
    RankDrops(p, key, m);
  }

  // Annotated schemas: each constraint under its keyword.

  lemma NumberKeywords(t: Option<JsonType>, own: Facets, d: Option<Text>, c: Constraints)
    ensures var f := Annotate(t, own, d, Some(c));
      && Own(f, Minimum) == First(if Numeric(t) then c.minimum else None, Own(own, Minimum))
      && Own(f, Maximum) == First(if Numeric(t) then c.maximum else None, Own(own, Maximum))
  {
  }

  lemma SizeKeywords(t: Option<JsonType>, own: Facets, d: Option<Text>, c: Constraints)
    ensures var f, list := Annotate(t, own, d, Some(c)), t == Some(ArrayType);
      && Own(f, MinItems) == First(if list then c.minSize else None, Own(own, MinItems))
      && Own(f, MaxItems) == First(if list then c.maxSize else None, Own(own, MaxItems))
      && Own(f, MinLength) == First(if list then None else c.minSize, Own(own, MinLength))
      && Own(f, MaxLength) == First(if list then None else c.maxSize, Own(own, MaxLength))
  {
  }

  lemma TextKeywords(t: Option<JsonType>, own: Facets, d: Option<Text>, c: Constraints)
    ensures var f, known := Annotate(t, own, d, Some(c)), t == Some(StringType);
      && Own(f, Pattern) == First(if known then c.pattern else None, Own(own, Pattern))
      && Own(f, Format) == First(Own(own, Format), if known then c.format else None)
  {
  }

  lemma DescriptionKeyword(t: Option<JsonType>, own: Facets, d: Option<Text>, c: Option<Constraints>)
    ensures Own(Annotate(t, own, d, c), Description) == First(Own(own, Description), d)
  {
  }

  lemma LimitsAre(s: Sense, t: Option<JsonType>, own: Facets, d: Option<Text>, c: Constraints, v: Value)
    ensures FacetsAdmit(s, Annotate(t, own, d, Some(c)), v) <==> LimitsAdmit(s, t, own, c, v)
  {
    NumberKeywords(t, own, d, c);
    SizeKeywords(t, own, d, c);
    TextKeywords(t, own, d, c);
  }

  /** Constraints on constrained limits are constraints within one another. */
  lemma LimitsWithin(s: Sense, t: Option<JsonType>, own: Facets, d: Option<Text>, inner: Option<Constraints>,
        c: Constraints, v: Value)
    ensures LimitsAdmit(s, t, Annotate(t, own, d, inner), c, v) <==> LimitsAdmit(s, t, own, Within(c, inner), v)
  {
    if inner.Some? {
      NumberKeywords(t, own, d, inner.value);
      SizeKeywords(t, own, d, inner.value);
      TextKeywords(t, own, d, inner.value);
    }
  }

  /** A schema under further constraints. */
  function Under(schema: Schema, c: Constraints): Schema {
    ApplyConstraints(schema, None, Some(c))
  }

  ghost predicate Alike(s: Sense, defs: map<Text, Schema>, a: Schema, b: Schema, v: Value, fuel: nat) {
    SchemaAdmits(s, defs, a, v, fuel) <==> SchemaAdmits(s, defs, b, v, fuel)
  }

  lemma SameBody(s: Sense, defs: map<Text, Schema>, a: Schema, b: Schema, v: Value, fuel: nat)
    requires a.body == b.body && (FacetsAdmit(s, a.facets, v) <==> FacetsAdmit(s, b.facets, v))
    ensures Alike(s, defs, a, b, v, fuel)
  {
  }

  lemma UnderWithin(s: Sense, defs: map<Text, Schema>, schema: Schema, m: Member, c: Constraints, v: Value, fuel: nat)
    ensures Alike(s, defs, Under(ApplyConstraints(schema, m.description, m.constraints), c),
                  Under(schema, Within(c, m.constraints)), v, fuel)
  {
    var t := TypeOf(schema.body);
    LimitsAre(s, t, Annotate(t, schema.facets, m.description, m.constraints), None, c, v);
    LimitsWithin(s, t, schema.facets, m.description, m.constraints, c, v);
    LimitsAre(s, t, schema.facets, None, Within(c, m.constraints), v);
    SameBody(s, defs, Under(ApplyConstraints(schema, m.description, m.constraints), c),
      Under(schema, Within(c, m.constraints)), v, fuel);
  }

  lemma UnderNothing(s: Sense, defs: map<Text, Schema>, schema: Schema, v: Value, fuel: nat)
    ensures Alike(s, defs, Under(schema, UNCONSTRAINED), schema, v, fuel)
  {
    LimitsAre(s, TypeOf(schema.body), schema.facets, None, UNCONSTRAINED, v);
    SameBody(s, defs, Under(schema, UNCONSTRAINED), schema, v, fuel);
  }

  /** A member's own annotation is its constraints within none. */
  lemma MemberUnder(s: Sense, defs: map<Text, Schema>, schema: Schema, m: Member, v: Value, fuel: nat)
    ensures Alike(s, defs, ApplyConstraints(schema, m.description, m.constraints),
                  Under(schema, Within(UNCONSTRAINED, m.constraints)), v, fuel)
  {
    UnderNothing(s, defs, ApplyConstraints(schema, m.description, m.constraints), v, fuel);
    UnderWithin(s, defs, schema, m, UNCONSTRAINED, v, fuel);
  }

  // Each kind of node.

  ghost predicate NodeValued(s: Sense, p: GroundedPlan, defs: map<Text, Schema>, node: TypeNode, c: Constraints,
        depth: nat, v: Value, fuel: nat)
    requires Known(p, node)
  {
    SchemaAdmits(s, defs, Under(EmitNode(p, node, depth).schema, c), v, fuel) <==> NodeAdmits(s, p, node, c, depth, v)
  }

  ghost predicate BelowValued(s: Sense, p: GroundedPlan, defs: map<Text, Schema>, node: TypeNode, c: Constraints,
        depth: nat, v: Value)
    requires Known(p, node)
  {
    SchemaAdmits(s, defs, Under(Descend(p, node, depth).schema, c), v, |defs|) <==>
      BelowAdmits(s, p, node, c, depth, v)
  }

  ghost predicate BodyValued(s: Sense, p: GroundedPlan, defs: map<Text, Schema>, key: Text, c: Constraints,
        depth: nat, v: Value, fuel: nat)
    requires key in p.graph
  {
    SchemaAdmits(s, defs, Under(EmitBody(p, key, depth).schema, c), v, fuel) <==> BodyAdmits(s, p, key, c, depth, v)
  }

  lemma OpaqueValued(s: Sense, defs: map<Text, Schema>, c: Constraints, v: Value, fuel: nat)
    ensures SchemaAdmits(s, defs, Under(OPAQUE, c), v, fuel) <==> v.RecordValue?
    ensures SchemaAdmits(s, defs, OPAQUE, v, fuel) <==> v.RecordValue?
  {
  }

  lemma EnumValued(s: Sense, facts: EnumFacts, v: Value)
    ensures var body := EnumSchema(facts).body;
      && body.Leaf? && body.leafType == facts.wireForm && EnumSchema(facts).facets == map[]
      && ((body.leafType.Some? ==> OfType(body.leafType.value, v)) && DetailAdmits(s, body.leafType, body.detail, v)
          <==> EnumAdmits(s, facts, v))
  {
  }

  predicate LeafValued(s: Sense, defs: map<Text, Schema>, node: TypeNode, c: Constraints, v: Value, fuel: nat)
    requires !node.MapNode? && !node.ArrayNode? && !node.RefNode?
  {
    SchemaAdmits(s, defs, Under(EmitLeaf(node).schema, c), v, fuel) <==> LeafAdmits(s, node, c, v)
  }

  /** A leaf under its keywords. */
  lemma LeafUnder(s: Sense, defs: map<Text, Schema>, t: Option<JsonType>, detail: LeafDetail, own: Facets,
        c: Constraints, v: Value, fuel: nat)
    ensures SchemaAdmits(s, defs, Under(Schema(Leaf(t, detail), own), c), v, fuel) <==>
      (t.Some? ==> OfType(t.value, v)) && DetailAdmits(s, t, detail, v) && LimitsAdmit(s, t, own, c, v)
  {
    LimitsAre(s, t, own, None, c, v);
  }

  lemma HostValued(s: Sense, defs: map<Text, Schema>, node: TypeNode, c: Constraints, v: Value, fuel: nat)
    requires node.Verbatim? || node.Binary?
    ensures LeafValued(s, defs, node, c, v, fuel)
  {
    match node
    case Verbatim(Some(host)) => LeafUnder(s, defs, host.jsonType, Host(host.rest), host.facets, c, v, fuel);
    case Verbatim(None) => LeafUnder(s, defs, None, Host(Text("")), map[], c, v, fuel);
    case Binary => LeafUnder(s, defs, Some(StringType), Base64, map[], c, v, fuel);
  }

  lemma ScalarValued(s: Sense, defs: map<Text, Schema>, scalar: Option<JsonType>, format: Option<Text>,
        c: Constraints, v: Value, fuel: nat)
    ensures LeafValued(s, defs, ScalarNode(scalar, format), c, v, fuel)
  {
    var own: Facets := if format.Some? then map[Format := format.value] else map[];
    assert Put(map[], Format, format) == own;
    LeafUnder(s, defs, Some(scalar.GetOr(StringType)), Bare, own, c, v, fuel);
  }

  lemma OtherLeafValued(s: Sense, defs: map<Text, Schema>, node: TypeNode, c: Constraints, v: Value, fuel: nat)
    requires node.EnumNode? || node.UnknownNode?
    ensures LeafValued(s, defs, node, c, v, fuel)
  {
    match node
    case EnumNode(Some(facts)) =>
      EnumValued(s, facts, v);
      var body := EnumSchema(facts).body;
      LeafUnder(s, defs, body.leafType, body.detail, map[], c, v, fuel);
    case _ => OpaqueValued(s, defs, c, v, fuel);
  }

  lemma AnyLeafValued(s: Sense, p: GroundedPlan, defs: map<Text, Schema>, node: TypeNode, c: Constraints, depth: nat,
        v: Value, fuel: nat)
    requires Known(p, node) && !node.MapNode? && !node.ArrayNode? && !(node.RefNode? && node.target.Some?)
    ensures NodeValued(s, p, defs, node, c, depth, v, fuel)
  {
    match node
    case ScalarNode(scalar, format) => ScalarValued(s, defs, scalar, format, c, v, fuel);
    case RefNode(_) => OpaqueValued(s, defs, c, v, fuel);
    case Verbatim(_) => HostValued(s, defs, node, c, v, fuel);
    case Binary => HostValued(s, defs, node, c, v, fuel);
    case _ => OtherLeafValued(s, defs, node, c, v, fuel);
  }

  function KeysOf(keys: Option<MapKey>): Option<KeySchema> {
    if keys.None? then None else PropertyNames(keys.value)
  }

  lemma KeyNamesValued(s: Sense, keys: Option<MapKey>, name: Text)
    ensures (KeysOf(keys).Some? ==> KeyAdmits(s, KeysOf(keys).value, name)) <==> NameAdmitted(s, keys, name)
  {
  }

  ghost predicate AllBelow(s: Sense, p: GroundedPlan, defs: map<Text, Schema>, node: TypeNode, depth: nat, v: Value)
    requires Known(p, node)
  {
    forall w: Value {:trigger Inside(w, v)} :: Inside(w, v) ==> BelowValued(s, p, defs, node, UNCONSTRAINED, depth, w)
  }

  /** A value one level inside another. */
  predicate Inside(w: Value, v: Value) {
    match v
    case ListValue(items) => exists i :: 0 <= i < |items| && items[i] == w
    case RecordValue(fields) => exists i :: 0 <= i < |fields| && fields[i].value == w
    case _ => false
  }

  lemma BelowPlain(s: Sense, p: GroundedPlan, defs: map<Text, Schema>, node: TypeNode, depth: nat, v: Value, w: Value)
    requires Known(p, node) && AllBelow(s, p, defs, node, depth, v) && Inside(w, v)
    ensures SchemaAdmits(s, defs, Descend(p, node, depth).schema, w, |defs|) <==>
      BelowAdmits(s, p, node, UNCONSTRAINED, depth, w)
  {
    assert BelowValued(s, p, defs, node, UNCONSTRAINED, depth, w);
    UnderNothing(s, defs, Descend(p, node, depth).schema, w, |defs|);
  }

  lemma ArrayValued(s: Sense, p: GroundedPlan, defs: map<Text, Schema>, items: Option<TypeNode>, c: Constraints,
        depth: nat, v: Value, fuel: nat)
    requires Known(p, ArrayNode(items)) && (items.Some? ==> Known(p, items.value))
    requires items.Some? ==> AllBelow(s, p, defs, items.value, depth, v)
    ensures NodeValued(s, p, defs, ArrayNode(items), c, depth, v, fuel)
  {
    var inner := if items.None? then OPAQUE else Descend(p, items.value, depth).schema;
    LimitsAre(s, Some(ArrayType), map[], None, c, v);
    if v.ListValue? {
      forall i | 0 <= i < |v.items|
        ensures SchemaAdmits(s, defs, inner, v.items[i], |defs|) <==>
          if items.None? then v.items[i].RecordValue?
          else BelowAdmits(s, p, items.value, UNCONSTRAINED, depth, v.items[i])
      {
        if items.None? {
          OpaqueValued(s, defs, c, v.items[i], |defs|);
        } else {
          BelowPlain(s, p, defs, items.value, depth, v, v.items[i]);
        }
      }
    }
  }

  /** What a map's schema says of one entry is what the map does. */
  lemma EntryValued(s: Sense, p: GroundedPlan, defs: map<Text, Schema>, values: Option<TypeNode>, depth: nat,
        v: Value, i: nat)
    requires v.RecordValue? && i < |v.fields|
    requires values.Some? ==> Known(p, values.value) && AllBelow(s, p, defs, values.value, depth, v)
    ensures var inner := if values.None? then OPAQUE else Descend(p, values.value, depth).schema;
      SchemaAdmits(s, defs, inner, v.fields[i].value, |defs|) <==>
        if values.None? then v.fields[i].value.RecordValue?
        else BelowAdmits(s, p, values.value, UNCONSTRAINED, depth, v.fields[i].value)
  {
    if values.None? {
      OpaqueValued(s, defs, UNCONSTRAINED, v.fields[i].value, |defs|);
    } else {
      BelowPlain(s, p, defs, values.value, depth, v, v.fields[i].value);
    }
  }

  ghost predicate EntriesRead(s: Sense, defs: map<Text, Schema>, inner: Schema, names: Option<KeySchema>,
                              fields: seq<Field>)
  {
    forall i :: 0 <= i < |fields| ==>
      && (names.Some? ==> KeyAdmits(s, names.value, fields[i].name))
      && SchemaAdmits(s, defs, inner, fields[i].value, |defs|)
  }

  ghost predicate EntriesSay(s: Sense, p: GroundedPlan, keys: Option<MapKey>, values: Option<TypeNode>, depth: nat,
                             fields: seq<Field>)
    requires values.Some? ==> Known(p, values.value)
  {
    forall i :: 0 <= i < |fields| ==>
      && NameAdmitted(s, keys, fields[i].name)
      && if values.None? then fields[i].value.RecordValue?
         else BelowAdmits(s, p, values.value, UNCONSTRAINED, depth, fields[i].value)
  }

  lemma EntriesValued(s: Sense, p: GroundedPlan, defs: map<Text, Schema>, keys: Option<MapKey>,
        values: Option<TypeNode>, depth: nat, v: Value)
    requires v.RecordValue?
    requires values.Some? ==> Known(p, values.value) && AllBelow(s, p, defs, values.value, depth, v)
    ensures var inner := if values.None? then OPAQUE else Descend(p, values.value, depth).schema;
      EntriesRead(s, defs, inner, KeysOf(keys), v.fields) <==> EntriesSay(s, p, keys, values, depth, v.fields)
  {
    var inner := if values.None? then OPAQUE else Descend(p, values.value, depth).schema;
    forall i | 0 <= i < |v.fields|
      ensures SchemaAdmits(s, defs, inner, v.fields[i].value, |defs|) <==>
        if values.None? then v.fields[i].value.RecordValue?
        else BelowAdmits(s, p, values.value, UNCONSTRAINED, depth, v.fields[i].value)
      ensures (KeysOf(keys).Some? ==> KeyAdmits(s, KeysOf(keys).value, v.fields[i].name)) <==>
        NameAdmitted(s, keys, v.fields[i].name)
    {
      EntryValued(s, p, defs, values, depth, v, i);
      KeyNamesValued(s, keys, v.fields[i].name);
    }
  }

  lemma MapSchemaAdmits(s: Sense, defs: map<Text, Schema>, schema: Schema, v: Value, fuel: nat)
    requires schema.body.MapBody?
    ensures SchemaAdmits(s, defs, schema, v, fuel) <==>
      v.RecordValue? && EntriesRead(s, defs, schema.body.values, schema.body.keys, v.fields)
  {
  }

  lemma MapSays(s: Sense, p: GroundedPlan, keys: Option<MapKey>, values: Option<TypeNode>, c: Constraints, depth: nat,
        v: Value)
    requires Known(p, MapNode(keys, values)) && (values.Some? ==> Known(p, values.value))
    ensures NodeAdmits(s, p, MapNode(keys, values), c, depth, v) <==>
      v.RecordValue? && (keys.None? || keys.value.writable ==> EntriesSay(s, p, keys, values, depth, v.fields))
  {
  }

  lemma MapSchema(p: GroundedPlan, keys: Option<MapKey>, values: Option<TypeNode>, c: Constraints, depth: nat)
    requires Known(p, MapNode(keys, values)) && (values.Some? ==> Known(p, values.value))
    ensures var body := Under(EmitNode(p, MapNode(keys, values), depth).schema, c).body;
      if keys.Some? && !keys.value.writable then body == OPAQUE.body
      else body == MapBody(if values.None? then OPAQUE else Descend(p, values.value, depth).schema, KeysOf(keys))
  {
  }

  lemma MapValued(s: Sense, p: GroundedPlan, defs: map<Text, Schema>, keys: Option<MapKey>, values: Option<TypeNode>,
        c: Constraints, depth: nat, v: Value, fuel: nat)
    requires Known(p, MapNode(keys, values)) && (values.Some? ==> Known(p, values.value))
    requires values.Some? ==> AllBelow(s, p, defs, values.value, depth, v)
    ensures NodeValued(s, p, defs, MapNode(keys, values), c, depth, v, fuel)
  {
    MapSays(s, p, keys, values, c, depth, v);
    MapSchema(p, keys, values, c, depth);
    if keys.Some? && !keys.value.writable {
      OpaqueValued(s, defs, c, v, fuel);
    } else {
      MapSchemaAdmits(s, defs, Under(EmitNode(p, MapNode(keys, values), depth).schema, c), v, fuel);
      if v.RecordValue? { EntriesValued(s, p, defs, keys, values, depth, v); }
    }
  }

  lemma HoistedValued(s: Sense, p: GroundedPlan, defs: map<Text, Schema>, key: Text, c: Constraints, depth: nat,
        v: Value, fuel: nat)
    requires key in p.hoisted && Known(p, RefNode(Some(key))) && fuel > 0 && Entry(p, defs, key)
    requires BodyValued(s, p, defs, key, UNCONSTRAINED, 0, v, fuel - 1)
    ensures NodeValued(s, p, defs, RefNode(Some(key)), c, depth, v, fuel)
  {
    LimitsAre(s, None, map[], None, c, v);
    UnderNothing(s, defs, EmitBody(p, key, 0).schema, v, fuel - 1);
  }

  lemma WrapperValued(s: Sense, p: GroundedPlan, defs: map<Text, Schema>, key: Text, c: Constraints, depth: nat,
        v: Value, fuel: nat)
    requires key in p.graph && key in p.types && Unwraps(p, key) && Known(p, OnlyMember(p, key).nodeType)
    requires NodeValued(s, p, defs, OnlyMember(p, key).nodeType, Within(c, OnlyMember(p, key).constraints), depth, v,
      fuel)
    ensures BodyValued(s, p, defs, key, c, depth, v, fuel)
  {
    var only := OnlyMember(p, key);
    UnderWithin(s, defs, EmitNode(p, only.nodeType, depth).schema, only, c, v, fuel);
  }

  // Objects.

  lemma SpeaksSnoc(rest: seq<Member>, last: Member, m: Member)
    ensures Speaks(rest + [last], m) <==> m == last || (Speaks(rest, m) && m.name != last.name)
  {
    var all := rest + [last];
    if m == last { assert all[|rest|] == m; }
    if i :| 0 <= i < |rest| && rest[i] == m && forall j :: i < j < |rest| ==> rest[j].name != m.name {
      if m.name != last.name { assert all[i] == m && forall j :: i < j < |all| ==> all[j].name != m.name; }
    }
    if i :| 0 <= i < |all| && all[i] == m && forall j :: i < j < |all| ==> all[j].name != m.name {
      if i < |rest| {
        assert all[|rest|] == last && rest[i] == m;
        assert forall j :: i < j < |rest| ==> rest[j] == all[j];
      }
    }
  }

  /** The property of a name is written by the member that the name stands for. */
  ghost predicate Written(p: GroundedPlan, key: Text, members: seq<Member>, depth: nat, m: Member)
    requires key in p.graph && key in p.types && forall x :: x in members ==> x in p.types[key].members
    requires m in members
  {
    var schemas := EmitMembers(p, key, members, depth).schemas;
    MemberKnown(p, key, m);
    m.name in schemas
    && schemas[m.name] == ApplyConstraints(Descend(p, m.nodeType, depth).schema, m.description, m.constraints)
  }

  lemma {:induction false} SpokenIsWritten(p: GroundedPlan, key: Text, members: seq<Member>, depth: nat, m: Member)
    requires key in p.graph && key in p.types && forall x :: x in members ==> x in p.types[key].members
    requires Speaks(members, m)
    ensures m in members && Written(p, key, members, depth, m)
  {
    var rest, last := members[..|members| - 1], members[|members| - 1];
    assert members == rest + [last];
    SpeaksSnoc(rest, last, m);
    MemberKnown(p, key, m);
    if m != last { SpokenIsWritten(p, key, rest, depth, m); }
  }

  lemma {:induction false} WrittenIsSpoken(p: GroundedPlan, key: Text, members: seq<Member>, depth: nat, name: Text)
    returns (m: Member)
    requires key in p.graph && key in p.types && forall x :: x in members ==> x in p.types[key].members
    requires name in EmitMembers(p, key, members, depth).schemas
    ensures m in members && Speaks(members, m) && m.name == name
  {
    var rest, last := members[..|members| - 1], members[|members| - 1];
    assert members == rest + [last];
    if last.name == name {
      m := last;
    } else {
      m := WrittenIsSpoken(p, key, rest, depth, name);
    }
    SpeaksSnoc(rest, last, m);
  }

  lemma {:induction false} RequiredAre(p: GroundedPlan, key: Text, members: seq<Member>, depth: nat, name: Text)
    requires key in p.graph && key in p.types && forall x :: x in members ==> x in p.types[key].members
    ensures name in EmitMembers(p, key, members, depth).required <==>
      exists m :: m in members && m.required && m.name == name
  {
    if members != [] {
      var rest, last := members[..|members| - 1], members[|members| - 1];
      assert members == rest + [last];
      RequiredAre(p, key, rest, depth, name);
    }
  }

  ghost predicate MemberBelow(s: Sense, p: GroundedPlan, defs: map<Text, Schema>, m: Member, depth: nat, v: Value)
    requires Known(p, m.nodeType)
  {
    forall w: Value {:trigger Inside(w, v)} :: Inside(w, v) ==>
      BelowValued(s, p, defs, m.nodeType, Within(UNCONSTRAINED, m.constraints), depth, w)
  }

  /** One field, by the member that its name stands for. */
  lemma FieldValued(s: Sense, p: GroundedPlan, defs: map<Text, Schema>, key: Text, members: seq<Member>, depth: nat,
        v: Value, i: nat)
    requires key in p.graph && key in p.types && forall x :: x in members ==> x in p.types[key].members
    requires v.RecordValue? && i < |v.fields|
    requires forall m :: m in members ==> Known(p, m.nodeType) && MemberBelow(s, p, defs, m, depth, v)
    ensures var schemas, f := EmitMembers(p, key, members, depth).schemas, v.fields[i];
      (f.name in schemas ==> SchemaAdmits(s, defs, schemas[f.name], f.value, |defs|)) <==>
      forall m :: m in members ==> Speaks(members, m) && f.name == m.name ==>
        BelowAdmits(s, p, m.nodeType, Within(UNCONSTRAINED, m.constraints), depth, f.value)
  {
    var schemas, f := EmitMembers(p, key, members, depth).schemas, v.fields[i];
    assert Inside(f.value, v);
    forall m | m in members && Speaks(members, m) && f.name == m.name
      ensures f.name in schemas && (SchemaAdmits(s, defs, schemas[f.name], f.value, |defs|) <==>
        BelowAdmits(s, p, m.nodeType, Within(UNCONSTRAINED, m.constraints), depth, f.value))
    {
      SpokenIsWritten(p, key, members, depth, m);
      assert BelowValued(s, p, defs, m.nodeType, Within(UNCONSTRAINED, m.constraints), depth, f.value);
      MemberUnder(s, defs, Descend(p, m.nodeType, depth).schema, m, f.value, |defs|);
    }
    if f.name in schemas { var m := WrittenIsSpoken(p, key, members, depth, f.name); }
  }

  ghost predicate FieldsRead(s: Sense, defs: map<Text, Schema>, schemas: map<Text, Schema>, fields: seq<Field>) {
    forall i :: 0 <= i < |fields| && fields[i].name in schemas ==>
      SchemaAdmits(s, defs, schemas[fields[i].name], fields[i].value, |defs|)
  }

  ghost predicate FieldsSay(s: Sense, p: GroundedPlan, members: seq<Member>, depth: nat, fields: seq<Field>)
    requires forall m :: m in members ==> Known(p, m.nodeType)
  {
    forall i :: 0 <= i < |fields| ==> forall m :: m in members ==>
      Speaks(members, m) && fields[i].name == m.name ==>
        BelowAdmits(s, p, m.nodeType, Within(UNCONSTRAINED, m.constraints), depth, fields[i].value)
  }

  lemma FieldsValued(s: Sense, p: GroundedPlan, defs: map<Text, Schema>, key: Text, members: seq<Member>, depth: nat,
        v: Value)
    requires key in p.graph && key in p.types && forall x :: x in members ==> x in p.types[key].members
    requires v.RecordValue?
    requires forall m :: m in members ==> Known(p, m.nodeType) && MemberBelow(s, p, defs, m, depth, v)
    ensures FieldsRead(s, defs, EmitMembers(p, key, members, depth).schemas, v.fields) <==>
      FieldsSay(s, p, members, depth, v.fields)
  {
    forall i | 0 <= i < |v.fields|
      ensures var schemas, f := EmitMembers(p, key, members, depth).schemas, v.fields[i];
        (f.name in schemas ==> SchemaAdmits(s, defs, schemas[f.name], f.value, |defs|)) <==>
        forall m :: m in members ==> Speaks(members, m) && f.name == m.name ==>
          BelowAdmits(s, p, m.nodeType, Within(UNCONSTRAINED, m.constraints), depth, f.value)
    {
      FieldValued(s, p, defs, key, members, depth, v, i);
    }
  }

  lemma ObjectSchema(p: GroundedPlan, key: Text, c: Constraints, depth: nat)
    requires key in p.graph && key in p.types && !Unwraps(p, key)
    ensures var props := EmitMembers(p, key, Selected(p.dropReadOnly, p.types[key].members), depth);
      Under(EmitBody(p, key, depth).schema, c).body == ObjectBody(props.schemas, props.required)
  {
  }

  lemma ObjectAdmits(s: Sense, defs: map<Text, Schema>, schema: Schema, v: Value, fuel: nat)
    requires schema.body.ObjectBody?
    ensures SchemaAdmits(s, defs, schema, v, fuel) <==>
      && v.RecordValue? && FieldsRead(s, defs, schema.body.properties, v.fields)
      && forall name :: name in schema.body.required ==> Holds(v.fields, name)
  {
  }

  lemma BodySays(s: Sense, p: GroundedPlan, key: Text, c: Constraints, depth: nat, v: Value)
    requires key in p.graph && key in p.types && !Unwraps(p, key)
    requires forall m :: m in p.types[key].members ==> Known(p, m.nodeType)
    ensures var members := Selected(p.dropReadOnly, p.types[key].members);
      BodyAdmits(s, p, key, c, depth, v) <==>
      && v.RecordValue? && FieldsSay(s, p, members, depth, v.fields)
      && forall m :: m in members && m.required ==> Holds(v.fields, m.name)
  {
  }

  lemma ObjectValued(s: Sense, p: GroundedPlan, defs: map<Text, Schema>, key: Text, c: Constraints, depth: nat,
        v: Value, fuel: nat)
    requires key in p.graph && key in p.types && !Unwraps(p, key)
    requires forall m :: m in p.types[key].members ==> Known(p, m.nodeType) && MemberBelow(s, p, defs, m, depth, v)
    ensures BodyValued(s, p, defs, key, c, depth, v, fuel)
  {
    var members := Selected(p.dropReadOnly, p.types[key].members);
    ObjectSchema(p, key, c, depth);
    ObjectAdmits(s, defs, Under(EmitBody(p, key, depth).schema, c), v, fuel);
    BodySays(s, p, key, c, depth, v);
    if v.RecordValue? {
      FieldsValued(s, p, defs, key, members, depth, v);
      RequiredHeld(p, key, members, depth, v.fields);
    }
  }

  lemma RequiredHeld(p: GroundedPlan, key: Text, members: seq<Member>, depth: nat, fields: seq<Field>)
    requires key in p.graph && key in p.types && forall x :: x in members ==> x in p.types[key].members
    ensures (forall name :: name in EmitMembers(p, key, members, depth).required ==> Holds(fields, name)) <==>
      forall m :: m in members && m.required ==> Holds(fields, m.name)
  {
    forall name ensures name in EmitMembers(p, key, members, depth).required <==>
      exists m :: m in members && m.required && m.name == name
    {
      RequiredAre(p, key, members, depth, name);
    }
  }

  // The whole document.

  ghost predicate ReadableWith(p: GroundedPlan, defs: map<Text, Schema>) {
    DistinctNames(p) && Defines(p, defs)
  }

  lemma ReadableIs(p: GroundedPlan, defs: map<Text, Schema>)
    requires Readable(Document(p, defs, {}))
    ensures ReadableWith(p, defs)
  {
    assert Asked(true);
  }

  lemma NeedIsWithin(p: GroundedPlan, defs: map<Text, Schema>, node: TypeNode)
    requires ReadableWith(p, defs)
    ensures Need(p, node) <= |defs|
  {
    var d: ReadableDocument := Document(p, defs, {});
    NeedWithinDefs(d, node);
  }

  lemma {:induction false} NodeIsValued(s: Sense, p: GroundedPlan, defs: map<Text, Schema>, node: TypeNode,
        c: Constraints, depth: nat, v: Value, fuel: nat)
    requires ReadableWith(p, defs) && Known(p, node) && fuel >= Need(p, node)
    ensures NodeValued(s, p, defs, node, c, depth, v, fuel)
    decreases v, WrapRank(p, node), 1
  {
    match node
    case MapNode(keys, values) =>
      if values.Some? { AllBelowValued(s, p, defs, values.value, depth, v); }
      MapValued(s, p, defs, keys, values, c, depth, v, fuel);
    case ArrayNode(items) =>
      if items.Some? { AllBelowValued(s, p, defs, items.value, depth, v); }
      ArrayValued(s, p, defs, items, c, depth, v, fuel);
    case RefNode(Some(key)) =>
      assert key in Refs(node);
      KeyIsValued(s, p, defs, key, c, depth, v, fuel);
    case _ => AnyLeafValued(s, p, defs, node, c, depth, v, fuel);
  }

  lemma {:induction false} KeyIsValued(s: Sense, p: GroundedPlan, defs: map<Text, Schema>, key: Text,
        c: Constraints, depth: nat, v: Value, fuel: nat)
    requires ReadableWith(p, defs) && key in p.graph && fuel >= Need(p, RefNode(Some(key)))
    ensures Known(p, RefNode(Some(key))) && NodeValued(s, p, defs, RefNode(Some(key)), c, depth, v, fuel)
    decreases v, |WrapReach(p, key)| + 1, 0, 1
  {
    NeedOfRef(p, key);
    if key in p.hoisted {
      assert Entry(p, defs, key);
      BodyIsValued(s, p, defs, key, UNCONSTRAINED, 0, v, fuel - 1);
      HoistedValued(s, p, defs, key, c, depth, v, fuel);
    } else {
      BodyIsValued(s, p, defs, key, c, depth, v, fuel);
      InlineValued(s, p, defs, key, c, depth, v, fuel);
    }
  }

  lemma InlineValued(s: Sense, p: GroundedPlan, defs: map<Text, Schema>, key: Text, c: Constraints, depth: nat,
        v: Value, fuel: nat)
    requires key in p.graph && key !in p.hoisted && BodyValued(s, p, defs, key, c, depth, v, fuel)
    ensures Known(p, RefNode(Some(key))) && NodeValued(s, p, defs, RefNode(Some(key)), c, depth, v, fuel)
  {
    InlineIsBody(p, key, depth);
  }

  lemma {:induction false} AllBelowValued(s: Sense, p: GroundedPlan, defs: map<Text, Schema>, node: TypeNode,
        depth: nat, v: Value)
    requires ReadableWith(p, defs) && Known(p, node)
    ensures AllBelow(s, p, defs, node, depth, v)
    decreases v, 0, 0
  {
    forall w: Value | Inside(w, v) ensures BelowValued(s, p, defs, node, UNCONSTRAINED, depth, w) {
      BelowIsValued(s, p, defs, node, UNCONSTRAINED, depth, w);
    }
  }

  lemma {:induction false} BelowIsValued(s: Sense, p: GroundedPlan, defs: map<Text, Schema>, node: TypeNode,
        c: Constraints, depth: nat, v: Value)
    requires ReadableWith(p, defs) && Known(p, node)
    ensures BelowValued(s, p, defs, node, c, depth, v)
    decreases v, WrapRank(p, node), 2
  {
    OpaqueValued(s, defs, c, v, |defs|);
    NeedIsWithin(p, defs, node);
    NodeIsValued(s, p, defs, node, c, depth + 1, v, |defs|);
  }

  lemma {:induction false} BodyIsValued(s: Sense, p: GroundedPlan, defs: map<Text, Schema>, key: Text,
        c: Constraints, depth: nat, v: Value, fuel: nat)
    requires ReadableWith(p, defs) && key in p.graph && fuel >= |WrapReach(p, key) * p.hoisted|
    ensures BodyValued(s, p, defs, key, c, depth, v, fuel)
    decreases v, |WrapReach(p, key)| + 1, 0, 0
  {
    if key !in p.types {
      OpaqueValued(s, defs, c, v, fuel);
    } else if Unwraps(p, key) {
      WrapperIsValued(s, p, defs, key, c, depth, v, fuel);
    } else {
      forall m | m in p.types[key].members ensures Known(p, m.nodeType) && MemberBelow(s, p, defs, m, depth, v) {
        MemberIsValued(s, p, defs, key, m, depth, v);
      }
      ObjectValued(s, p, defs, key, c, depth, v, fuel);
    }
  }

  lemma {:induction false} WrapperIsValued(s: Sense, p: GroundedPlan, defs: map<Text, Schema>, key: Text,
        c: Constraints, depth: nat, v: Value, fuel: nat)
    requires ReadableWith(p, defs) && key in p.graph && key in p.types && Unwraps(p, key)
    requires fuel >= |WrapReach(p, key) * p.hoisted|
    ensures BodyValued(s, p, defs, key, c, depth, v, fuel)
    decreases v, |WrapReach(p, key)|, 9
  {
    var only := OnlyMember(p, key);
    WrapStepShrinks(p, key);
    NeedOfStep(p, key);
    NodeIsValued(s, p, defs, only.nodeType, Within(c, only.constraints), depth, v, fuel);
    WrapperValued(s, p, defs, key, c, depth, v, fuel);
  }

  lemma {:induction false} MemberIsValued(s: Sense, p: GroundedPlan, defs: map<Text, Schema>, key: Text, m: Member,
        depth: nat, v: Value)
    requires ReadableWith(p, defs) && key in p.graph && key in p.types && m in p.types[key].members
    ensures Known(p, m.nodeType) && MemberBelow(s, p, defs, m, depth, v)
    decreases v, 0, 0
  {
    MemberKnown(p, key, m);
    forall w: Value | Inside(w, v)
      ensures BelowValued(s, p, defs, m.nodeType, Within(UNCONSTRAINED, m.constraints), depth, w)
    {
      BelowIsValued(s, p, defs, m.nodeType, Within(UNCONSTRAINED, m.constraints), depth, w);
    }
  }

  // What is admitted, kind by kind.

  predicate AtLeast(s: Sense, low: Option<Text>, n: real) {
    low.Some? ==> s.number(low.value) <= n
  }

  predicate AtMost(s: Sense, high: Option<Text>, n: real) {
    high.Some? ==> n <= s.number(high.value)
  }

  /** A member of a number type admits the numbers from its minimum to its maximum. */
  lemma NumbersAdmitted(s: Sense, p: GroundedPlan, t: JsonType, c: Constraints, depth: nat, v: Value)
    requires t == IntegerType || t == NumberType
    ensures NodeAdmits(s, p, ScalarNode(Some(t), None), c, depth, v) <==>
      && v.NumberValue? && (t == IntegerType ==> Integral(v.number))
      && AtLeast(s, c.minimum, v.number) && AtMost(s, c.maximum, v.number)
  {
  }

  /** A text member admits the texts of its sizes that have its pattern, and its type's format or else its own. */
  lemma TextsAdmitted(s: Sense, p: GroundedPlan, format: Option<Text>, c: Constraints, depth: nat, v: Value)
    ensures NodeAdmits(s, p, ScalarNode(Some(StringType), format), c, depth, v) <==>
      && v.TextValue? && Between(s, c.minSize, c.maxSize, |v.text|)
      && (c.pattern.Some? ==> s.matches(c.pattern.value, v.text))
      && (First(format, c.format).Some? ==> s.formatted(First(format, c.format).value, v.text))
  {
  }

  /** A member that is a list admits the lists of its sizes whose items its element type admits without constraints. */
  lemma ListsAdmitted(s: Sense, p: GroundedPlan, items: TypeNode, c: Constraints, depth: nat, v: Value)
    requires Known(p, ArrayNode(Some(items))) && Known(p, items)
    ensures NodeAdmits(s, p, ArrayNode(Some(items)), c, depth, v) <==>
      && v.ListValue? && Between(s, c.minSize, c.maxSize, |v.items|)
      && forall i :: 0 <= i < |v.items| ==> BelowAdmits(s, p, items, UNCONSTRAINED, depth, v.items[i])
  {
  }

  /** Of the members of a type those are kept that are not read-only, and all of them where such are not dropped. */
  lemma {:induction false} SelectedAre(drop: bool, members: seq<Member>, m: Member)
    ensures m in Selected(drop, members) <==>
      m in members && (!drop || !m.readOnly || m.constructorBound || m.nodeType.ArrayNode? || m.nodeType.MapNode?)
    ensures multiset(Selected(drop, members))[m] <= multiset(members)[m]
  {
    if members != [] {
      assert members == [members[0]] + members[1..];
      SelectedAre(drop, members[1..], m);
    }
  }

  /** They stand in the order of the type. */
  lemma {:induction false} SelectedJoined(drop: bool, a: seq<Member>, b: seq<Member>)
    ensures Selected(drop, a + b) == Selected(drop, a) + Selected(drop, b)
  {
    if a == [] {
      assert a + b == b;
    } else {
      assert (a + b)[1..] == a[1..] + b;
      SelectedJoined(drop, a[1..], b);
    }
  }

  /** What a shape's root admits. */
  ghost predicate RootAdmits(s: Sense, p: GroundedPlan, root: TypeNode, v: Value)
    requires Known(p, root)
  {
    match root
    case RefNode(Some(key)) => assert key in Refs(root); BodyAdmits(s, p, key, UNCONSTRAINED, 0, v)
    case _ => NodeAdmits(s, p, root, UNCONSTRAINED, 0, v)
  }

  /** The document admits exactly the values that the shape's types and constraints admit. */
  lemma DocumentAdmitsExactly(s: Sense, p: GroundedPlan, defs: map<Text, Schema>, root: TypeNode, v: Value)
    requires ReadableWith(p, defs) && Known(p, root)
    ensures SchemaAdmits(s, defs, EmitRoot(p, root).schema, v, |defs|) <==> RootAdmits(s, p, root, v)
  {
    NeedIsWithin(p, defs, root);
    UnderNothing(s, defs, EmitRoot(p, root).schema, v, |defs|);
    match root
    case RefNode(Some(key)) =>
      assert key in Refs(root);
      NeedOfRef(p, key);
      BodyIsValued(s, p, defs, key, UNCONSTRAINED, 0, v, |defs|);
    case _ => NodeIsValued(s, p, defs, root, UNCONSTRAINED, 0, v, |defs|);
  }
}
