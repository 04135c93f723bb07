/**
 * Type shapes as the binding layer reports them, and the JSON Schemas the simplifier writes.
 * Literal texts, patterns, formats and numbers are moved and never computed on, so they are strings.
 */
module TypeShapes {
  import opened Wrappers

  datatype JsonType = ObjectType | ArrayType | StringType | IntegerType | NumberType | BooleanType | NullType

  datatype EnumFacts = EnumFacts(wireForm: Option<JsonType>, combinable: bool, names: seq<Text>, numbers: seq<Text>)

  datatype MapKey = MapKey(writable: bool, scalar: Option<JsonType>, format: Option<Text>)

  /** A schema the host wrote itself: its type, the keywords simplification may read, and the rest. */
  datatype HostSchema = HostSchema(jsonType: Option<JsonType>, facets: Facets, rest: Text)

  datatype TypeNode =
    | Verbatim(schema: Option<HostSchema>)
    | Binary
    | ScalarNode(scalar: Option<JsonType>, format: Option<Text>)
    | EnumNode(facts: Option<EnumFacts>)
    | MapNode(keys: Option<MapKey>, values: Option<TypeNode>)
    | ArrayNode(items: Option<TypeNode>)
    | RefNode(target: Option<Text>)
    | UnknownNode

  datatype Constraints = Constraints(
    minSize: Option<Text>, maxSize: Option<Text>, minimum: Option<Text>, maximum: Option<Text>,
    pattern: Option<Text>, format: Option<Text>)

  datatype Member = Member(
    name: Text, nodeType: TypeNode, required: bool, readOnly: bool, constructorBound: bool,
    description: Option<Text>, constraints: Option<Constraints>)

  datatype Declared = Declared(name: Text, wrapper: bool, members: seq<Member>)

  datatype TypeShape = TypeShape(root: TypeNode, types: map<Text, Declared>)

  /** Keywords beside the structural ones. */
  datatype Keyword = Description | MinItems | MaxItems | MinLength | MaxLength | Minimum | Maximum | Pattern | Format

  type Facets = map<Keyword, Text>

  datatype LeafDetail = Bare | Base64 | Host(rest: Text) | EnumValues(values: seq<Text>) | EitherEnum(facts: EnumFacts)

  datatype KeySchema = KeySchema(format: Option<Text>, integerPattern: bool)

  datatype Schema = Schema(body: Body, facets: Facets)

  datatype Body =
    | Opaque
    | Leaf(leafType: Option<JsonType>, detail: LeafDetail)
    | ArrayBody(items: Schema)
    | MapBody(values: Schema, keys: Option<KeySchema>)
    | ObjectBody(properties: map<Text, Schema>, required: seq<Text>)
    | RefBody(name: Text)

  const OPAQUE := Schema(Opaque, map[])

  function TypeOf(body: Body): Option<JsonType> {
    match body
    case Opaque => Some(ObjectType)
    case Leaf(t, _) => t
    case ArrayBody(_) => Some(ArrayType)
    case MapBody(_, _) => Some(ObjectType)
    case ObjectBody(_, _) => Some(ObjectType)
    case RefBody(_) => None
  }

  function Put(facets: Facets, keyword: Keyword, value: Option<Text>): Facets {
    if value.Some? then facets[keyword := value.value] else facets
  }

  /** A keyword that is there already stays. */
  function PutFirst(facets: Facets, keyword: Keyword, value: Option<Text>): Facets {
    if keyword in facets then facets else Put(facets, keyword, value)
  }

  function Sized(t: Option<JsonType>, facets: Facets, c: Constraints): Facets {
    var list := t == Some(ArrayType);
    Put(Put(facets, if list then MinItems else MinLength, c.minSize), if list then MaxItems else MaxLength, c.maxSize)
  }

  function Bounded(t: Option<JsonType>, facets: Facets, c: Constraints): Facets {
    if t == Some(IntegerType) || t == Some(NumberType) then Put(Put(facets, Minimum, c.minimum), Maximum, c.maximum)
      else facets
  }

  function Worded(t: Option<JsonType>, facets: Facets, c: Constraints): Facets {
    if t == Some(StringType) then PutFirst(Put(facets, Pattern, c.pattern), Format, c.format) else facets
  }

  /** The keywords `applyConstraints` adds to a schema of the given type. */
  function Annotate(t: Option<JsonType>, facets: Facets, description: Option<Text>,
        constraints: Option<Constraints>): Facets {
    var described := PutFirst(facets, Description, description);
    if constraints.None? then described
    else Worded(t, Bounded(t, Sized(t, described, constraints.value), constraints.value), constraints.value)
  }

  function ApplyConstraints(s: Schema, description: Option<Text>, constraints: Option<Constraints>): Schema {
    s.(facets := Annotate(TypeOf(s.body), s.facets, description, constraints))
  }

  /** `collectRefs`: the reference a node leads to through arrays and maps, if any. */
  function Refs(node: TypeNode): (r: seq<Text>)
    ensures |r| <= 1
  {
    match node
    case RefNode(Some(key)) => [key]
    case ArrayNode(Some(items)) => Refs(items)
    case MapNode(_, Some(values)) => Refs(values)
    case _ => []
  }

  function MemberRefs(members: seq<Member>): seq<Text> {
    if members == [] then [] else Refs(members[0].nodeType) + MemberRefs(members[1..])
  }

  lemma {:induction false} MemberRefsHold(members: seq<Member>, m: Member)
    requires m in members
    ensures forall r :: r in Refs(m.nodeType) ==> r in MemberRefs(members)
  {
    if m != members[0] { MemberRefsHold(members[1..], m); }
  }

  /** The references of a declared type; an undeclared key has none. */
  function DeclaredRefs(types: map<Text, Declared>, key: Text): seq<Text> {
    if key in types then MemberRefs(types[key].members) else []
  }

  function NodeSize(node: TypeNode): nat {
    match node
    case ArrayNode(Some(items)) => 1 + NodeSize(items)
    case MapNode(_, Some(values)) => 1 + NodeSize(values)
    case _ => 1
  }
}
