/**
 * What the simplifier writes, as functions of a hoisting plan: which keys go to `$defs`, under which
 * names, and the schema, diagnostics and written bodies each node gives.
 */
module SchemaEmission {
  import opened Wrappers
  import opened Digraph
  import opened TypeShapes

  datatype Code = UnsupportedDictionaryKey | DefNameDisambiguated | DepthTruncated | UnreadableShape

  datatype Plan = Plan(
    types: map<Text, Declared>, graph: Graph, hoisted: set<Text>, names: map<Text, Text>,
    dropReadOnly: bool, maxDepth: Option<nat>)

  /** A written schema, the diagnostics on the way, and every key whose body was written, with repeats. */
  datatype Emitted = Emitted(schema: Schema, reports: seq<Code>, bodies: multiset<Text>)

  datatype Properties = Properties(
    schemas: map<Text, Schema>, required: seq<Text>, reports: seq<Code>, bodies: multiset<Text>)

  /**
   * The graph is closed and records the declared references; every key on a cycle is hoisted. The last
   * clause is the one the recursion below rests on.
   */
  ghost predicate Sound(p: Plan) {
    && (forall k {:trigger Recorded(p, k)} :: k in p.graph ==> Recorded(p, k))
    && (forall k :: k in p.graph && Reaches(p.graph, k, k) ==> k in p.hoisted)
    && p.hoisted <= p.graph.Keys
    && p.names.Keys == p.hoisted
  }

  type SoundPlan = p: Plan | Sound(p) witness Plan(map[], map[], {}, map[], false, None)

  ghost predicate Recorded(p: Plan, key: Text)
    requires key in p.graph
  {
    p.graph[key] == DeclaredRefs(p.types, key) && forall x :: x in p.graph[key] ==> x in p.graph
  }

  ghost predicate Known(p: SoundPlan, node: TypeNode) {
    forall r :: r in Refs(node) ==> r in p.graph
  }

  predicate Populatable(node: TypeNode) {
    node.ArrayNode? || node.MapNode?
  }

  predicate Kept(dropReadOnly: bool, m: Member) {
    !(dropReadOnly && m.readOnly && !m.constructorBound && !Populatable(m.nodeType))
  }

  function Selected(dropReadOnly: bool, members: seq<Member>): (r: seq<Member>)
    ensures forall m :: m in r ==> m in members
  {
    if members == [] then []
    else if Kept(dropReadOnly, members[0]) then [members[0]] + Selected(dropReadOnly, members[1..])
    else Selected(dropReadOnly, members[1..])
  }

  ghost function Rank(p: SoundPlan, node: TypeNode): nat {
    if Refs(node) == [] || Refs(node)[0] in p.hoisted then 0
    else |ReachSet(p.graph, Refs(node)[0])| + 1
  }

  lemma RankDrops(p: SoundPlan, key: Text, m: Member)
    requires key in p.graph && key in p.types && m in p.types[key].members
    ensures Known(p, m.nodeType)
    ensures Rank(p, m.nodeType) < |ReachSet(p.graph, key)| + 1
  {
    assert Recorded(p, key);
    MemberRefsHold(p.types[key].members, m);
    if Refs(m.nodeType) != [] {
      var next := Refs(m.nodeType)[0];
      assert next in Successors(p.graph, key);
      if next !in p.hoisted {
        AcyclicStepShrinks(p.graph, key, next);
      }
    }
  }

  predicate Truncated(p: SoundPlan, depth: nat) {
    p.maxDepth.Some? && depth >= p.maxDepth.value
  }

  function Silent(schema: Schema): Emitted {
    Emitted(schema, [], multiset{})
  }

  function Unreadable(code: Code): Emitted {
    Emitted(OPAQUE, [code], multiset{})
  }

  function EnumSchema(facts: EnumFacts): Schema {
    if facts.wireForm.None? then Schema(Leaf(None, EitherEnum(facts)), map[])
    else if facts.combinable then Schema(Leaf(facts.wireForm, Bare), map[])
    else Schema(Leaf(facts.wireForm,
      EnumValues(if facts.wireForm == Some(StringType) then facts.names else facts.numbers)), map[])
  }

  function PropertyNames(keys: MapKey): Option<KeySchema> {
    if keys.scalar.None? then None
    else Some(KeySchema(keys.format, keys.format.None? && keys.scalar == Some(IntegerType)))
  }

  function EmitLeaf(node: TypeNode): Emitted
    requires !node.MapNode? && !node.ArrayNode? && !node.RefNode?
  {
    match node
    case Verbatim(Some(host)) => Silent(Schema(Leaf(host.jsonType, Host(host.rest)), host.facets))
    case Verbatim(None) => Silent(Schema(Leaf(None, Host(Text(""))), map[]))
    case Binary => Silent(Schema(Leaf(Some(StringType), Base64), map[]))
    case ScalarNode(scalar, format) =>
      Silent(Schema(Leaf(Some(scalar.GetOr(StringType)), Bare), Put(map[], Format, format)))
    case EnumNode(Some(facts)) => Silent(EnumSchema(facts))
    case _ => Unreadable(UnreadableShape)
  }

  function EmitNode(p: SoundPlan, node: TypeNode, depth: nat): Emitted
    requires Known(p, node)
    decreases Rank(p, node), NodeSize(node), 1
  {
    match node
    case MapNode(keys, values) =>
      if keys.Some? && !keys.value.writable then Unreadable(UnsupportedDictionaryKey)
      else
        var inner := if values.None? then Silent(OPAQUE) else Descend(p, values.value, depth);
        var names := if keys.None? then None else PropertyNames(keys.value);
        inner.(schema := Schema(MapBody(inner.schema, names), map[]))
    case ArrayNode(items) =>
      var inner := if items.None? then Silent(OPAQUE) else Descend(p, items.value, depth);
      inner.(schema := Schema(ArrayBody(inner.schema), map[]))
    case RefNode(None) => Unreadable(UnreadableShape)
    case RefNode(Some(key)) =>
      if key in p.hoisted then Silent(Schema(RefBody(p.names[key]), map[]))
      else EmitBody(p, key, depth)
    case _ => EmitLeaf(node)
  }

  function Descend(p: SoundPlan, node: TypeNode, depth: nat): Emitted
    requires Known(p, node)
    decreases Rank(p, node), NodeSize(node), 2
  {
    if Truncated(p, depth + 1) then Unreadable(DepthTruncated) else EmitNode(p, node, depth + 1)
  }

  function EmitBody(p: SoundPlan, key: Text, depth: nat): Emitted
    requires key in p.graph
    decreases |ReachSet(p.graph, key)| + 1, 0, if key in p.types then |p.types[key].members| + 1 else 0
  {
    if key !in p.types then Emitted(OPAQUE, [UnreadableShape], multiset{key})
    else
      var members := Selected(p.dropReadOnly, p.types[key].members);
      if p.types[key].wrapper && |members| == 1 then
        RankDrops(p, key, members[0]);
        var inner := EmitNode(p, members[0].nodeType, depth);
        Emitted(ApplyConstraints(inner.schema, members[0].description, members[0].constraints),
                inner.reports, inner.bodies + multiset{key})
      else
        var props := (SelectedShorter(p, p.types[key].members); EmitMembers(p, key, members, depth));
        Emitted(Schema(ObjectBody(props.schemas, props.required), map[]), props.reports, props.bodies + multiset{key})
  }

  lemma {:induction false} SelectedShorter(p: SoundPlan, members: seq<Member>)
    ensures |Selected(p.dropReadOnly, members)| <= |members|
  {
    if members != [] { SelectedShorter(p, members[1..]); }
  }

  /** The members so far; a later member of the same name replaces the schema and repeats in `required`. */
  function EmitMembers(p: SoundPlan, key: Text, members: seq<Member>, depth: nat): Properties
    requires key in p.graph && key in p.types
    requires forall m :: m in members ==> m in p.types[key].members
    decreases |ReachSet(p.graph, key)| + 1, 0, |members|
  {
    if members == [] then Properties(map[], [], [], multiset{})
    else
      var last := members[|members| - 1];
      var before := EmitMembers(p, key, members[..|members| - 1], depth);
      var inner := (RankDrops(p, key, last); Descend(p, last.nodeType, depth));
      Properties(before.schemas[last.name := ApplyConstraints(inner.schema, last.description, last.constraints)],
                 before.required + (if last.required then [last.name] else []),
                 before.reports + inner.reports, before.bodies + inner.bodies)
  }

  /** The root is written in place even when its own type is hoisted. */
  function EmitRoot(p: SoundPlan, root: TypeNode): Emitted
    requires Known(p, root)
  {
    match root
    case RefNode(Some(key)) => EmitBody(p, key, 0)
    case _ => EmitNode(p, root, 0)
  }
}
