/**
 * What a type shape means and what a written schema means, both as trees, and the proof that the
 * simplifier's schema read through its `$defs` is the shape read the way it was written.
 */
module SchemaMeaning {
  import opened Wrappers
  import opened Digraph
  import opened TypeShapes
  import opened SchemaEmission

  datatype Tree = Cut | Broken | Tree(head: Head, facets: Facets)

  datatype Head =
    | AnyHead
    | LeafHead(leafType: Option<JsonType>, detail: LeafDetail)
    | ArrayHead(items: Tree)
    | MapHead(values: Tree, keys: Option<KeySchema>)
    | ObjectHead(properties: map<Text, Tree>, required: seq<Text>)

  function HeadType(head: Head): Option<JsonType> {
    match head
    case LeafHead(t, _) => t
    case ArrayHead(_) => Some(ArrayType)
    case _ => Some(ObjectType)
  }

  /** The keywords that a reader looks at. */
  function Shown(facets: Facets, shown: set<Keyword>): Facets {
    map k | k in facets && k in shown :: facets[k]
  }

  /** A keyword that the first to write it keeps, in `applyConstraints` as for a reader of a `$ref`. */
  predicate FirstKept(k: Keyword) {
    k == Description || k == Format
  }

  /** The keywords beside a `$ref` over those of its definition, as inlining writes the ones over the others. */
  function Beside(facets: Facets, target: Facets): Facets {
    map k | k in facets.Keys + target.Keys :: if k in facets && !(FirstKept(k) && k in target) then facets[k]
      else target[k]
  }

  /** Reading a schema document: a `$ref` stands for the definition it names, at most `fuel` of them in a row. */
  function SchemaTree(defs: map<Text, Schema>, s: Schema, n: nat, fuel: nat, shown: set<Keyword>): Tree
    decreases n, fuel
  {
    if n == 0 then Cut
    else
      var facets := Shown(s.facets, shown);
      match s.body
      case Opaque => Tree(AnyHead, facets)
      case Leaf(t, detail) => Tree(LeafHead(t, detail), facets)
      case ArrayBody(items) => Tree(ArrayHead(SchemaTree(defs, items, n - 1, |defs|, shown)), facets)
      case MapBody(values, keys) => Tree(MapHead(SchemaTree(defs, values, n - 1, |defs|, shown), keys), facets)
      case ObjectBody(properties, required) =>
        Tree(ObjectHead(map k | k in properties :: SchemaTree(defs, properties[k], n - 1, |defs|, shown), required),
          facets)
      case RefBody(name) =>
        if fuel == 0 || name !in defs then Broken
        else
          var target := SchemaTree(defs, defs[name], n, fuel - 1, shown);
          if target.Tree? then target.(facets := Beside(facets, target.facets)) else target
  }

  /** The wrapper steps of a shape: a wrapper with one kept member stands for that member. */
  ghost function WrapperSteps(p: Plan): Graph {
    map k | k in p.graph && k in p.types && Unwraps(p, k) :: Target(OnlyMember(p, k).nodeType)
  }

  predicate Unwraps(p: Plan, key: Text)
    requires key in p.types
  {
    p.types[key].wrapper && |Selected(p.dropReadOnly, p.types[key].members)| == 1
  }

  function OnlyMember(p: Plan, key: Text): (m: Member)
    requires key in p.types && Unwraps(p, key)
    ensures m in Selected(p.dropReadOnly, p.types[key].members) && m in p.types[key].members
  {
    Selected(p.dropReadOnly, p.types[key].members)[0]
  }

  function Target(node: TypeNode): seq<Text> {
    match node
    case RefNode(Some(key)) => [key]
    case _ => []
  }

  /** A plan whose wrapper chains all end. */
  type GroundedPlan = p: SoundPlan | NoWrapperCycle(p) witness Plan(map[], map[], {}, map[], false, None)

  /** No cycle of the graph is made only of wrapper members. Such a cycle has no first structural level to read. */
  ghost predicate NoWrapperCycle(p: Plan) {
    forall k :: k in WrapperSteps(p) ==> !Reaches(WrapperSteps(p), k, k)
  }

  ghost function WrapReach(p: GroundedPlan, key: Text): set<Text> {
    ReachSet(WrapperSteps(p), key)
  }

  ghost function WrapRank(p: GroundedPlan, node: TypeNode): nat {
    if Target(node) == [] then 0 else |WrapReach(p, Target(node)[0])| + 1
  }

  lemma CycleKeySteps(g: Graph, k: Text)
    requires Reaches(g, k, k)
    ensures k in g
  {
    var path :| PathBetween(g, path, k, k);
    assert path[0 + 1] in Successors(g, path[0]);
  }

  lemma WrapStepShrinks(p: GroundedPlan, key: Text)
    requires key in p.graph && key in p.types && Unwraps(p, key)
    ensures Known(p, OnlyMember(p, key).nodeType)
    ensures WrapRank(p, OnlyMember(p, key).nodeType) <= |WrapReach(p, key)|
    ensures forall next :: next in Target(OnlyMember(p, key).nodeType) ==>
      WrapReach(p, next) + {next} <= WrapReach(p, key) && next !in WrapReach(p, next)
  {
    RankDrops(p, key, OnlyMember(p, key));
    var step := Target(OnlyMember(p, key).nodeType);
    if step != [] {
      var next := step[0];
      var g := WrapperSteps(p);
      assert next in Successors(g, key);
      if Reaches(g, next, next) { CycleKeySteps(g, next); }
      AcyclicStepShrinks(g, key, next);
      StepReaches(g, key, next);
      ReachedIsMentioned(g, key, next);
    }
  }

  /**
   * How a shape is read: which keywords, and whether as it was written. As written, a budget cuts levels off,
   * counted anew in each definition, and an annotation beside a `$ref` was made without knowing its type.
   */
  datatype Reading = Reading(shown: set<Keyword>, written: bool)

  /** The node's schema is a bare `$ref`: a hoisted key, or an inlined wrapper around one. */
  ghost predicate LeadsToShared(p: GroundedPlan, node: TypeNode)
    requires Known(p, node)
    decreases WrapRank(p, node)
  {
    node.RefNode? && node.target.Some? &&
    var key := node.target.value;
    assert key in Refs(node);
    (key in p.hoisted
     || (key in p.types && Unwraps(p, key) && (WrapStepShrinks(p, key); LeadsToShared(p, OnlyMember(p, key).nodeType))))
  }

  ghost predicate OnRef(p: GroundedPlan, m: Member, r: Reading)
    requires Known(p, m.nodeType)
  {
    r.written && LeadsToShared(p, m.nodeType)
  }

  /** A member's annotation on what its type reads as; a bare `$ref` tells no type. */
  function Note(t: Tree, m: Member, bare: bool, shown: set<Keyword>): Tree {
    if t.Tree? then
      t.(facets := Shown(Annotate(if bare then None else HeadType(t.head), t.facets, m.description, m.constraints),
        shown))
    else t
  }

  /** Reading a type shape: references and wrappers are followed, arrays, maps and objects are levels. */
  ghost function TypeTree(p: GroundedPlan, node: TypeNode, depth: nat, n: nat, r: Reading): Tree
    requires Known(p, node)
    decreases n, WrapRank(p, node), 1, 0
  {
    if n == 0 then Cut
    else match node
      case MapNode(keys, values) =>
        if keys.Some? && !keys.value.writable then Tree(AnyHead, map[])
        else
          Tree(MapHead(if values.None? then UnknownTree(n - 1) else Below(p, values.value, depth, n - 1, r),
                       if keys.None? then None else PropertyNames(keys.value)), map[])
      case ArrayNode(items) =>
        Tree(ArrayHead(if items.None? then UnknownTree(n - 1) else Below(p, items.value, depth, n - 1, r)), map[])
      case RefNode(None) => Tree(AnyHead, map[])
      case RefNode(Some(key)) =>
        assert key in Refs(node);
        DeclaredTree(p, key, if key in p.hoisted then 0 else depth, n, r)
      case Verbatim(None) => Tree(LeafHead(None, Host(Text(""))), map[])
      case Verbatim(Some(host)) => Tree(LeafHead(host.jsonType, Host(host.rest)), Shown(host.facets, r.shown))
      case Binary => Tree(LeafHead(Some(StringType), Base64), map[])
      case ScalarNode(scalar, format) =>
        Tree(LeafHead(Some(scalar.GetOr(StringType)), Bare), Shown(Put(map[], Format, format), r.shown))
      case EnumNode(Some(facts)) => var body := EnumSchema(facts).body; Tree(LeafHead(body.leafType, body.detail),
        map[])
      case _ => Tree(AnyHead, map[])
  }

  function UnknownTree(n: nat): Tree {
    if n == 0 then Cut else Tree(AnyHead, map[])
  }

  /** One level below: as written, an opaque schema where the budget ends. */
  ghost function Below(p: GroundedPlan, node: TypeNode, depth: nat, n: nat, r: Reading): Tree
    requires Known(p, node)
    decreases n, WrapRank(p, node), 2, 0
  {
    if r.written && Truncated(p, depth + 1) then UnknownTree(n) else TypeTree(p, node, depth + 1, n, r)
  }

  ghost function DeclaredTree(p: GroundedPlan, key: Text, depth: nat, n: nat, r: Reading): Tree
    requires n > 0 && key in p.graph
    decreases n, |WrapReach(p, key)| + 1, 0, 1
  {
    if key !in p.types then Tree(AnyHead, map[])
    else if Unwraps(p, key) then
      WrapStepShrinks(p, key);
      var only := OnlyMember(p, key);
      Note(TypeTree(p, only.nodeType, depth, n, r), only, OnRef(p, only, r), r.shown)
    else
      var members := Selected(p.dropReadOnly, p.types[key].members);
      Tree(ObjectHead(MemberTrees(p, key, members, depth, n - 1, r), RequiredNames(members)), map[])
  }

  /** One member, one level below. */
  ghost function MemberTree(p: GroundedPlan, m: Member, depth: nat, n: nat, r: Reading): Tree
    requires Known(p, m.nodeType)
    decreases n, WrapRank(p, m.nodeType), 3, 0
  {
    Note(Below(p, m.nodeType, depth, n, r), m, !Truncated(p, depth + 1) && OnRef(p, m, r), r.shown)
  }

  ghost function MemberTrees(p: GroundedPlan, key: Text, members: seq<Member>, depth: nat, n: nat,
        r: Reading): map<Text, Tree>
    requires key in p.graph && key in p.types && forall m :: m in members ==> m in p.types[key].members
    decreases n + 1, 0, 0, |members|
  {
    if members == [] then map[]
    else
      var last := members[|members| - 1];
      RankDrops(p, key, last);
      MemberTrees(p, key, members[..|members| - 1], depth, n, r)[last.name := MemberTree(p, last, depth, n, r)]
  }

  function RequiredNames(members: seq<Member>): seq<Text> {
    if members == [] then []
    else
      RequiredNames(members[..|members| - 1])
      + (if members[|members| - 1].required then [members[|members| - 1].name] else [])
  }

  ghost predicate NamesApart(p: SoundPlan, a: Text, b: Text)
    requires a in p.hoisted && b in p.hoisted
  {
    p.names[a] == p.names[b] ==> a == b
  }

  ghost predicate DistinctNames(p: SoundPlan) {
    forall a, b {:trigger NamesApart(p, a, b)} :: a in p.hoisted && b in p.hoisted ==> NamesApart(p, a, b)
  }

  /** The entry a hoisted key's `$ref` finds is that key's body. */
  ghost predicate Entry(p: SoundPlan, defs: map<Text, Schema>, key: Text)
    requires key in p.hoisted
  {
    p.names[key] in defs && defs[p.names[key]] == EmitBody(p, key, 0).schema
  }

  /** `defs` is the written bag: one body for each hoisted key, under its name. */
  ghost predicate Defines(p: SoundPlan, defs: map<Text, Schema>)
  {
    forall k {:trigger Entry(p, defs, k)} :: k in p.hoisted ==> Entry(p, defs, k)
  }

  /** A plan with the definitions its run wrote, and the keywords that are read. */
  datatype Document = Document(plan: GroundedPlan, defs: map<Text, Schema>, shown: set<Keyword>)

  type ReadableDocument = d: Document | Readable(d) witness Document(Plan(map[], map[], {}, map[], false, None), map[],
    {})

  ghost predicate Readable(d: Document) {
    forall q {:trigger Asked(q)} :: Asked(q) ==> DistinctNames(d.plan) && Defines(d.plan, d.defs)
  }

  function AsWritten(shown: set<Keyword>): Reading {
    Reading(shown, true)
  }

  /** How many `$ref`s in a row reading this node may follow. */
  ghost function Need(p: GroundedPlan, node: TypeNode): nat {
    if Target(node) == [] then 0 else |(WrapReach(p, Target(node)[0]) + {Target(node)[0]}) * p.hoisted|
  }

  /** A node is written as a bare `$ref` exactly when it leads to a hoisted key. */
  lemma {:induction false} RefBodyExactly(p: GroundedPlan, node: TypeNode, depth: nat)
    requires Known(p, node)
    ensures EmitNode(p, node, depth).schema.body.RefBody? <==> LeadsToShared(p, node)
    decreases WrapRank(p, node)
  {
    if node.RefNode? && node.target.Some? && node.target.value !in p.hoisted {
      var key := node.target.value;
      assert key in Refs(node);
      if key in p.types && Unwraps(p, key) {
        WrapStepShrinks(p, key);
        RefBodyExactly(p, OnlyMember(p, key).nodeType, depth);
      }
    }
  }

  // Annotating, keyword by keyword.

  predicate AgreeAt(a: Facets, b: Facets, k: Keyword) {
    (k in a <==> k in b) && (k in a ==> a[k] == b[k])
  }

  lemma PutAt(a: Facets, b: Facets, keyword: Keyword, value: Option<Text>, k: Keyword)
    requires AgreeAt(a, b, k)
    ensures AgreeAt(Put(a, keyword, value), Put(b, keyword, value), k)
    ensures AgreeAt(PutFirst(a, keyword, value), PutFirst(b, keyword, value), k)
  {
  }

  lemma SizedAt(t: Option<JsonType>, a: Facets, b: Facets, c: Constraints, k: Keyword)
    requires AgreeAt(a, b, k)
    ensures AgreeAt(Sized(t, a, c), Sized(t, b, c), k)
  {
    var low, high := if t == Some(ArrayType) then MinItems else MinLength, if t == Some(ArrayType) then MaxItems
      else MaxLength;
    PutAt(a, b, low, c.minSize, k);
    PutAt(Put(a, low, c.minSize), Put(b, low, c.minSize), high, c.maxSize, k);
  }

  lemma BoundedAt(t: Option<JsonType>, a: Facets, b: Facets, c: Constraints, k: Keyword)
    requires AgreeAt(a, b, k)
    ensures AgreeAt(Bounded(t, a, c), Bounded(t, b, c), k)
  {
    PutAt(a, b, Minimum, c.minimum, k);
    PutAt(Put(a, Minimum, c.minimum), Put(b, Minimum, c.minimum), Maximum, c.maximum, k);
  }

  lemma WordedAt(t: Option<JsonType>, a: Facets, b: Facets, c: Constraints, k: Keyword)
    requires AgreeAt(a, b, k)
    ensures AgreeAt(Worded(t, a, c), Worded(t, b, c), k)
  {
    PutAt(a, b, Pattern, c.pattern, k);
    PutAt(Put(a, Pattern, c.pattern), Put(b, Pattern, c.pattern), Format, c.format, k);
  }

  /** What annotating does to one keyword depends on that keyword alone. */
  lemma AnnotateAt(t: Option<JsonType>, a: Facets, b: Facets, m: Member, k: Keyword)
    requires AgreeAt(a, b, k)
    ensures AgreeAt(Annotate(t, a, m.description, m.constraints), Annotate(t, b, m.description, m.constraints), k)
  {
    var x, y := PutFirst(a, Description, m.description), PutFirst(b, Description, m.description);
    PutAt(a, b, Description, m.description, k);
    if m.constraints.Some? {
      var c := m.constraints.value;
      SizedAt(t, x, y, c, k);
      BoundedAt(t, Sized(t, x, c), Sized(t, y, c), c, k);
      WordedAt(t, Bounded(t, Sized(t, x, c), c), Bounded(t, Sized(t, y, c), c), c, k);
    }
  }

  lemma ShownEqual(a: Facets, b: Facets, shown: set<Keyword>)
    ensures Shown(a, shown) == Shown(b, shown) <==> forall k :: k in shown ==> AgreeAt(a, b, k)
  {
    var x, y := Shown(a, shown), Shown(b, shown);
    forall k | k in shown ensures AgreeAt(a, b, k) <==> AgreeAt(x, y, k) {}
    if x != y {
      if k :| k in x.Keys + y.Keys && !AgreeAt(x, y, k) {}
    }
  }

  lemma AnnotateShown(t: Option<JsonType>, facets: Facets, m: Member, shown: set<Keyword>)
    ensures Shown(Annotate(t, facets, m.description, m.constraints), shown)
         == Shown(Annotate(t, Shown(facets, shown), m.description, m.constraints), shown)
  {
    forall k | k in shown
      ensures AgreeAt(Annotate(t, facets, m.description, m.constraints),
        Annotate(t, Shown(facets, shown), m.description, m.constraints), k)
    {
      AnnotateAt(t, facets, Shown(facets, shown), m, k);
    }
    ShownEqual(Annotate(t, facets, m.description, m.constraints),
      Annotate(t, Shown(facets, shown), m.description, m.constraints), shown);
  }

  /** A keyword written beside a `$ref` reads as one added to what the `$ref` reads as. */
  lemma AnnotateBeside(facets: Facets, target: Facets, m: Member)
    ensures Beside(Annotate(None, facets, m.description, m.constraints), target)
         == Annotate(None, Beside(facets, target), m.description, m.constraints)
  {
  }

  lemma BesideShown(facets: Facets, target: Facets, shown: set<Keyword>)
    ensures Beside(Shown(facets, shown), Shown(target, shown)) == Shown(Beside(facets, target), shown)
  {
  }

  lemma ShownTwice(facets: Facets, shown: set<Keyword>)
    ensures Shown(Shown(facets, shown), shown) == Shown(facets, shown)
  {
  }

  lemma {:induction false} SchemaShown(defs: map<Text, Schema>, s: Schema, n: nat, fuel: nat, shown: set<Keyword>)
    ensures var t := SchemaTree(defs, s, n, fuel, shown); t.Tree? ==> t.facets == Shown(t.facets, shown)
    decreases fuel
  {
    if n > 0 {
      ShownTwice(s.facets, shown);
      if s.body.RefBody? && fuel > 0 && s.body.name in defs {
        var target := SchemaTree(defs, defs[s.body.name], n, fuel - 1, shown);
        SchemaShown(defs, defs[s.body.name], n, fuel - 1, shown);
        if target.Tree? {
          BesideShown(s.facets, target.facets, shown); ShownTwice(Beside(s.facets, target.facets), shown);
        }
      }
    }
  }

  lemma AnnotationBesideRef(facets: Facets, target: Facets, m: Member, shown: set<Keyword>)
    requires target == Shown(target, shown)
    ensures Beside(Shown(Annotate(None, facets, m.description, m.constraints), shown), target)
         == Shown(Annotate(None, Beside(Shown(facets, shown), target), m.description, m.constraints), shown)
  {
    BesideShown(Annotate(None, facets, m.description, m.constraints), target, shown);
    AnnotateBeside(facets, target, m);
    AnnotateShown(None, Beside(facets, target), m, shown);
    BesideShown(facets, target, shown);
  }

  /** The keywords of a schema that is no `$ref` are read as they stand. */
  lemma FacetsRead(defs: map<Text, Schema>, s: Schema, facets: Facets, n: nat, fuel: nat, shown: set<Keyword>)
    requires n > 0 && !s.body.RefBody?
    ensures var t := SchemaTree(defs, s, n, fuel, shown);
      t.Tree? && HeadType(t.head) == TypeOf(s.body) && t.facets == Shown(s.facets, shown)
      && SchemaTree(defs, s.(facets := facets), n, fuel, shown) == t.(facets := Shown(facets, shown))
  {
  }

  /** What annotating a written schema does to its reading. */
  lemma AnnotationReads(defs: map<Text, Schema>, s: Schema, m: Member, n: nat, fuel: nat, shown: set<Keyword>)
    ensures SchemaTree(defs, ApplyConstraints(s, m.description, m.constraints), n, fuel, shown)
         == Note(SchemaTree(defs, s, n, fuel, shown), m, s.body.RefBody?, shown)
  {
    if n > 0 {
      if s.body.RefBody? {
        if fuel > 0 && s.body.name in defs {
          var target := SchemaTree(defs, defs[s.body.name], n, fuel - 1, shown);
          SchemaShown(defs, defs[s.body.name], n, fuel - 1, shown);
          if target.Tree? { AnnotationBesideRef(s.facets, target.facets, m, shown); }
        }
      } else {
        FacetsRead(defs, s, Annotate(TypeOf(s.body), s.facets, m.description, m.constraints), n, fuel, shown);
        AnnotateShown(TypeOf(s.body), s.facets, m, shown);
      }
    }
  }

  lemma NeedOfStep(p: GroundedPlan, key: Text)
    requires key in p.graph && key in p.types && Unwraps(p, key)
    ensures Need(p, OnlyMember(p, key).nodeType) <= |WrapReach(p, key) * p.hoisted|
  {
    WrapStepShrinks(p, key);
    var step := Target(OnlyMember(p, key).nodeType);
    if step != [] {
      SubsetNotLarger((WrapReach(p, step[0]) + {step[0]}) * p.hoisted, WrapReach(p, key) * p.hoisted);
    }
  }

  lemma SubsetNotLarger(small: set<Text>, large: set<Text>)
    requires small <= large
    ensures |small| <= |large|
  {
    if small != large { SubsetSmaller(small, large); }
  }

  /** A hoisted key's own `$ref` costs one step, and its wrapper chain never comes back to it. */
  lemma NeedOfRef(p: GroundedPlan, key: Text)
    ensures |WrapReach(p, key) * p.hoisted| + (if key in p.hoisted then 1 else 0) == Need(p, RefNode(Some(key)))
  {
    if Reaches(WrapperSteps(p), key, key) { CycleKeySteps(WrapperSteps(p), key); }
    AddKey(WrapReach(p, key), p.hoisted, key);
  }

  lemma AddKey(reached: set<Text>, hoisted: set<Text>, key: Text)
    requires key !in reached
    ensures |reached * hoisted| + (if key in hoisted then 1 else 0) == |(reached + {key}) * hoisted|
  {
    var rest := reached * hoisted;
    assert (reached + {key}) * hoisted == if key in hoisted then rest + {key} else rest;
  }

  lemma NeedWithinDefs(d: ReadableDocument, node: TypeNode)
    ensures Need(d.plan, node) <= |d.defs|
  {
    assert Asked(true);
    var p := d.plan;
    ImageSize(p, p.hoisted);
    var image := set k | k in p.hoisted :: p.names[k];
    forall k | k in p.hoisted ensures p.names[k] in d.defs { assert Entry(p, d.defs, k); }
    SubsetNotLarger(image, d.defs.Keys);
    if Target(node) != [] {
      SubsetNotLarger((WrapReach(p, Target(node)[0]) + {Target(node)[0]}) * p.hoisted, p.hoisted);
    }
  }

  lemma {:induction false} ImageSize(p: GroundedPlan, keys: set<Text>)
    requires DistinctNames(p) && keys <= p.hoisted
    ensures |(set k | k in keys :: p.names[k])| == |keys|
  {
    if keys != {} {
      var key :| key in keys;
      var rest := keys - {key};
      ImageSize(p, rest);
      forall k | k in rest ensures p.names[k] != p.names[key] { assert NamesApart(p, k, key); }
      assert (set k | k in keys :: p.names[k]) == (set k | k in rest :: p.names[k]) + {p.names[key]};
    }
  }

  // The schema of each kind of node reads as the node.

  /** The written schema of a node reads as the node does. */
  ghost predicate NodeHolds(p: GroundedPlan, defs: map<Text, Schema>, node: TypeNode, depth: nat, n: nat, fuel: nat,
        shown: set<Keyword>)
    requires Known(p, node)
  {
    SchemaTree(defs, EmitNode(p, node, depth).schema, n, fuel, shown) == TypeTree(p, node, depth, n, AsWritten(shown))
  }

  ghost predicate BelowHolds(p: GroundedPlan, defs: map<Text, Schema>, node: TypeNode, depth: nat, n: nat,
        shown: set<Keyword>)
    requires Known(p, node)
  {
    SchemaTree(defs, Descend(p, node, depth).schema, n, |defs|, shown) == Below(p, node, depth, n, AsWritten(shown))
  }

  ghost predicate BodyHolds(p: GroundedPlan, defs: map<Text, Schema>, key: Text, depth: nat, n: nat, fuel: nat,
        shown: set<Keyword>)
    requires key in p.graph && n > 0
  {
    SchemaTree(defs, EmitBody(p, key, depth).schema, n, fuel, shown) == DeclaredTree(p, key, depth, n, AsWritten(shown))
  }

  lemma OpaqueReads(defs: map<Text, Schema>, n: nat, fuel: nat, shown: set<Keyword>)
    ensures SchemaTree(defs, OPAQUE, n, fuel, shown) == UnknownTree(n)
  {
  }

  lemma LevelReads(p: GroundedPlan, defs: map<Text, Schema>, node: TypeNode, inner: TypeNode, depth: nat, n: nat,
        fuel: nat, shown: set<Keyword>)
    requires Known(p, node) && Known(p, inner) && n > 0
    requires (node.MapNode? && node.values == Some(inner)) || (node.ArrayNode? && node.items == Some(inner))
    requires BelowHolds(p, defs, inner, depth, n - 1, shown)
    ensures NodeHolds(p, defs, node, depth, n, fuel, shown)
  {
  }

  lemma HoistedReads(p: GroundedPlan, defs: map<Text, Schema>, key: Text, depth: nat, n: nat, fuel: nat,
        shown: set<Keyword>)
    requires key in p.graph
    requires n > 0 && key in p.hoisted && p.names[key] in defs && fuel > 0
    ensures SchemaTree(defs, EmitNode(p, RefNode(Some(key)), depth).schema, n, fuel, shown)
         == SchemaTree(defs, defs[p.names[key]], n, fuel - 1, shown)
  {
    var target := SchemaTree(defs, defs[p.names[key]], n, fuel - 1, shown);
    assert target.Tree? ==> Beside(Shown(map[], shown), target.facets) == target.facets;
  }

  lemma InlineIsBody(p: GroundedPlan, key: Text, depth: nat)
    requires key in p.graph && key !in p.hoisted
    ensures EmitNode(p, RefNode(Some(key)), depth) == EmitBody(p, key, depth)
  {
  }

  lemma LeafReads(p: GroundedPlan, defs: map<Text, Schema>, node: TypeNode, depth: nat, n: nat, fuel: nat,
        shown: set<Keyword>)
    requires Known(p, node) && n > 0
    requires !(node.MapNode? && node.values.Some?) && !(node.ArrayNode? && node.items.Some?) && Target(node) == []
    ensures NodeHolds(p, defs, node, depth, n, fuel, shown)
  {
    assert Shown(map[], shown) == map[];
  }

  /** The written properties mean the members, name by name, and the same names are required. */
  ghost predicate PropertiesRead(p: GroundedPlan, defs: map<Text, Schema>, key: Text, members: seq<Member>, depth: nat,
        n: nat, shown: set<Keyword>)
    requires key in p.graph && key in p.types && forall m :: m in members ==> m in p.types[key].members
  {
    var props := EmitMembers(p, key, members, depth);
    var trees := MemberTrees(p, key, members, depth, n, AsWritten(shown));
    && props.schemas.Keys == trees.Keys
    && (forall k :: k in props.schemas ==> SchemaTree(defs, props.schemas[k], n, |defs|, shown) == trees[k])
    && props.required == RequiredNames(members)
  }

  lemma ObjectReads(p: GroundedPlan, defs: map<Text, Schema>, key: Text, depth: nat, n: nat, fuel: nat,
        shown: set<Keyword>)
    requires key in p.graph && key in p.types && !Unwraps(p, key) && n > 0
    requires PropertiesRead(p, defs, key, Selected(p.dropReadOnly, p.types[key].members), depth, n - 1, shown)
    ensures BodyHolds(p, defs, key, depth, n, fuel, shown)
  {
    var members := Selected(p.dropReadOnly, p.types[key].members);
    var props := EmitMembers(p, key, members, depth);
    assert (map k | k in props.schemas :: SchemaTree(defs, props.schemas[k], n - 1, |defs|, shown))
      == MemberTrees(p, key, members, depth, n - 1, AsWritten(shown));
    assert Shown(map[], shown) == map[];
  }

  lemma WrapperStep(p: GroundedPlan, defs: map<Text, Schema>, key: Text, depth: nat, n: nat, fuel: nat,
        shown: set<Keyword>)
    requires key in p.graph && key in p.types && Unwraps(p, key) && n > 0
    requires Known(p, OnlyMember(p, key).nodeType)
    requires NodeHolds(p, defs, OnlyMember(p, key).nodeType, depth, n, fuel, shown)
    ensures BodyHolds(p, defs, key, depth, n, fuel, shown)
  {
    var only := OnlyMember(p, key);
    RefBodyExactly(p, only.nodeType, depth);
    AnnotationReads(defs, EmitNode(p, only.nodeType, depth).schema, only, n, fuel, shown);
  }

  lemma MemberHolds(p: GroundedPlan, defs: map<Text, Schema>, m: Member, depth: nat, n: nat, shown: set<Keyword>)
    requires Known(p, m.nodeType) && BelowHolds(p, defs, m.nodeType, depth, n, shown)
    ensures SchemaTree(defs, ApplyConstraints(Descend(p, m.nodeType, depth).schema, m.description, m.constraints), n,
      |defs|, shown)
         == MemberTree(p, m, depth, n, AsWritten(shown))
  {
    RefBodyExactly(p, m.nodeType, depth + 1);
    AnnotationReads(defs, Descend(p, m.nodeType, depth).schema, m, n, |defs|, shown);
  }

  lemma MemberStep(p: GroundedPlan, defs: map<Text, Schema>, key: Text, members: seq<Member>, depth: nat, n: nat,
        shown: set<Keyword>)
    requires key in p.graph && key in p.types && members != []
    requires forall m :: m in members ==> m in p.types[key].members
    requires PropertiesRead(p, defs, key, members[..|members| - 1], depth, n, shown)
    requires Known(p, members[|members| - 1].nodeType)
      && BelowHolds(p, defs, members[|members| - 1].nodeType, depth, n, shown)
    ensures PropertiesRead(p, defs, key, members, depth, n, shown)
  {
    MemberHolds(p, defs, members[|members| - 1], depth, n, shown);
  }

  lemma {:induction false} NodeReads(d: ReadableDocument, node: TypeNode, depth: nat, n: nat, fuel: nat)
    requires Known(d.plan, node)
    requires fuel >= Need(d.plan, node)
    ensures NodeHolds(d.plan, d.defs, node, depth, n, fuel, d.shown)
    decreases n, WrapRank(d.plan, node), 1, 0
  {
    var p, defs := d.plan, d.defs;
    if n == 0 { return; }
    match node
    case MapNode(_, Some(values)) =>
      BelowReads(d, values, depth, n - 1);
      LevelReads(p, defs, node, values, depth, n, fuel, d.shown);
    case ArrayNode(Some(items)) =>
      BelowReads(d, items, depth, n - 1);
      LevelReads(p, defs, node, items, depth, n, fuel, d.shown);
    case RefNode(Some(key)) =>
      assert key in Refs(node);
      KeyReads(d, key, depth, n, fuel);
    case _ => LeafReads(p, defs, node, depth, n, fuel, d.shown);
  }

  lemma {:induction false} BelowReads(d: ReadableDocument, node: TypeNode, depth: nat, n: nat)
    requires Known(d.plan, node)
    ensures BelowHolds(d.plan, d.defs, node, depth, n, d.shown)
    decreases n, WrapRank(d.plan, node), 2, 0
  {
    OpaqueReads(d.defs, n, |d.defs|, d.shown);
    NeedWithinDefs(d, node);
    NodeReads(d, node, depth + 1, n, |d.defs|);
  }

  lemma {:induction false} KeyReads(d: ReadableDocument, key: Text, depth: nat, n: nat, fuel: nat)
    requires key in d.plan.graph && n > 0
    requires fuel >= Need(d.plan, RefNode(Some(key)))
    ensures Known(d.plan, RefNode(Some(key))) && NodeHolds(d.plan, d.defs, RefNode(Some(key)), depth, n, fuel, d.shown)
    decreases n, |WrapReach(d.plan, key)| + 1, 0, 4
  {
    NeedOfRef(d.plan, key);
    if key in d.plan.hoisted { HoistedKeyReads(d, key, depth, n, fuel); }
      else { InlineKeyReads(d, key, depth, n, fuel); }
  }

  lemma {:induction false} HoistedKeyReads(d: ReadableDocument, key: Text, depth: nat, n: nat, fuel: nat)
    requires key in d.plan.hoisted && n > 0
    requires fuel > |WrapReach(d.plan, key) * d.plan.hoisted|
    ensures Known(d.plan, RefNode(Some(key))) && NodeHolds(d.plan, d.defs, RefNode(Some(key)), depth, n, fuel, d.shown)
    decreases n, |WrapReach(d.plan, key)| + 1, 0, 3
  {
    EntryReads(d, key, n, fuel - 1);
    HoistedReads(d.plan, d.defs, key, depth, n, fuel, d.shown);
  }

  lemma {:induction false} InlineKeyReads(d: ReadableDocument, key: Text, depth: nat, n: nat, fuel: nat)
    requires key in d.plan.graph && key !in d.plan.hoisted && n > 0
    requires fuel >= |WrapReach(d.plan, key) * d.plan.hoisted|
    ensures Known(d.plan, RefNode(Some(key))) && NodeHolds(d.plan, d.defs, RefNode(Some(key)), depth, n, fuel, d.shown)
    decreases n, |WrapReach(d.plan, key)| + 1, 0, 3
  {
    InlineIsBody(d.plan, key, depth);
    BodyReads(d, key, depth, n, fuel);
  }

  lemma {:induction false} EntryReads(d: ReadableDocument, key: Text, n: nat, fuel: nat)
    requires key in d.plan.hoisted && n > 0
    requires fuel >= |WrapReach(d.plan, key) * d.plan.hoisted|
    ensures d.plan.names[key] in d.defs
    ensures SchemaTree(d.defs, d.defs[d.plan.names[key]], n, fuel, d.shown)
      == DeclaredTree(d.plan, key, 0, n, AsWritten(d.shown))
    decreases n, |WrapReach(d.plan, key)| + 1, 0, 2
  {
    assert Entry(d.plan, d.defs, key) by { assert Asked(true); }
    BodyReads(d, key, 0, n, fuel);
  }

  lemma {:induction false} WrapperReads(d: ReadableDocument, key: Text, depth: nat, n: nat, fuel: nat)
    requires key in d.plan.graph && key in d.plan.types && Unwraps(d.plan, key) && n > 0
    requires fuel >= |WrapReach(d.plan, key) * d.plan.hoisted|
    ensures BodyHolds(d.plan, d.defs, key, depth, n, fuel, d.shown)
    decreases n, |WrapReach(d.plan, key)| + 1, 0, 0
  {
    WrapStepShrinks(d.plan, key);
    NeedOfStep(d.plan, key);
    NodeReads(d, OnlyMember(d.plan, key).nodeType, depth, n, fuel);
    WrapperStep(d.plan, d.defs, key, depth, n, fuel, d.shown);
  }

  lemma {:induction false} ObjectBodyReads(d: ReadableDocument, key: Text, depth: nat, n: nat, fuel: nat)
    requires key in d.plan.graph && key in d.plan.types && !Unwraps(d.plan, key) && n > 0
    ensures BodyHolds(d.plan, d.defs, key, depth, n, fuel, d.shown)
    decreases n, |WrapReach(d.plan, key)| + 1, 0, 0
  {
    MembersRead(d, key, Selected(d.plan.dropReadOnly, d.plan.types[key].members), depth, n - 1);
    ObjectReads(d.plan, d.defs, key, depth, n, fuel, d.shown);
  }

  lemma UnknownBodyReads(p: GroundedPlan, defs: map<Text, Schema>, key: Text, depth: nat, n: nat, fuel: nat,
        shown: set<Keyword>)
    requires key in p.graph && key !in p.types && n > 0
    ensures BodyHolds(p, defs, key, depth, n, fuel, shown)
  {
    OpaqueReads(defs, n, fuel, shown);
  }

  lemma {:induction false} BodyReads(d: ReadableDocument, key: Text, depth: nat, n: nat, fuel: nat)
    requires key in d.plan.graph && n > 0
    requires fuel >= |WrapReach(d.plan, key) * d.plan.hoisted|
    ensures BodyHolds(d.plan, d.defs, key, depth, n, fuel, d.shown)
    decreases n, |WrapReach(d.plan, key)| + 1, 0, 1
  {
    if key !in d.plan.types {
      UnknownBodyReads(d.plan, d.defs, key, depth, n, fuel, d.shown);
    } else if Unwraps(d.plan, key) {
      WrapperReads(d, key, depth, n, fuel);
    } else {
      ObjectBodyReads(d, key, depth, n, fuel);
    }
  }

  lemma {:induction false} MembersRead(d: ReadableDocument, key: Text, members: seq<Member>, depth: nat, n: nat)
    requires key in d.plan.graph && key in d.plan.types
    requires forall m :: m in members ==> m in d.plan.types[key].members
    ensures PropertiesRead(d.plan, d.defs, key, members, depth, n, d.shown)
    decreases n + 1, 0, 0, |members|
  {
    if members != [] {
      var last := members[|members| - 1];
      MembersRead(d, key, members[..|members| - 1], depth, n);
      RankDrops(d.plan, key, last);
      BelowReads(d, last.nodeType, depth, n);
      MemberStep(d.plan, d.defs, key, members, depth, n, d.shown);
    }
  }

  /**
   * Unfolded to any number of levels and for any keywords, the written schema read through its definitions is
   * the type shape read as it was written: cut where the budget ends, and nowhere else.
   */
  lemma SimplifiedReadsAsWritten(d: ReadableDocument, root: TypeNode, n: nat)
    requires Known(d.plan, root)
    ensures SchemaTree(d.defs, EmitRoot(d.plan, root).schema, n, |d.defs|, d.shown)
      == TypeTree(d.plan, root, 0, n, AsWritten(d.shown))
  {
    NeedWithinDefs(d, root);
    match root
    case RefNode(Some(key)) =>
      assert key in Refs(root);
      NeedOfRef(d.plan, key);
      if n > 0 { BodyReads(d, key, 0, n, |d.defs|); }
    case _ => NodeReads(d, root, 0, n, |d.defs|);
  }
}
