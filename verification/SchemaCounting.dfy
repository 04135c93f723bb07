/** Every written `$ref` names a definition, and how often each declared type's body is written. */
module SchemaCounting {
  import opened Wrappers
  import opened Digraph
  import opened Ordering
  import opened TypeShapes
  import opened SchemaEmission

  ghost predicate RefsIn(s: Schema, names: set<Text>) {
    match s.body
    case ArrayBody(items) => RefsIn(items, names)
    case MapBody(values, _) => RefsIn(values, names)
    case ObjectBody(properties, _) => forall k :: k in properties ==> RefsIn(properties[k], names)
    case RefBody(name) => name in names
    case _ => true
  }

  lemma {:induction false} NodeRefsNamed(p: SoundPlan, node: TypeNode, depth: nat)
    requires Known(p, node)
    ensures RefsIn(EmitNode(p, node, depth).schema, p.names.Values)
    decreases Rank(p, node), NodeSize(node), 1
  {
    match node
    case MapNode(_, Some(values)) => if !Truncated(p, depth + 1) { NodeRefsNamed(p, values, depth + 1); }
    case ArrayNode(Some(items)) => if !Truncated(p, depth + 1) { NodeRefsNamed(p, items, depth + 1); }
    case RefNode(Some(key)) =>
      assert key in Refs(node);
      if key !in p.hoisted { BodyRefsNamed(p, key, depth); }
    case _ =>
  }

  lemma {:induction false} BodyRefsNamed(p: SoundPlan, key: Text, depth: nat)
    requires key in p.graph
    ensures RefsIn(EmitBody(p, key, depth).schema, p.names.Values)
    decreases |ReachSet(p.graph, key)| + 1, 0, if key in p.types then |p.types[key].members| + 1 else 0
  {
    if key in p.types {
      var members := Selected(p.dropReadOnly, p.types[key].members);
      if p.types[key].wrapper && |members| == 1 {
        RankDrops(p, key, members[0]);
        NodeRefsNamed(p, members[0].nodeType, depth);
      } else {
        SelectedShorter(p, p.types[key].members);
        MemberRefsNamed(p, key, members, depth);
      }
    }
  }

  lemma {:induction false} MemberRefsNamed(p: SoundPlan, key: Text, members: seq<Member>, depth: nat)
    requires key in p.graph && key in p.types
    requires forall m :: m in members ==> m in p.types[key].members
    ensures forall k :: k in EmitMembers(p, key, members, depth).schemas ==>
      RefsIn(EmitMembers(p, key, members, depth).schemas[k], p.names.Values)
    decreases |ReachSet(p.graph, key)| + 1, 0, |members|
  {
    if members != [] {
      var last := members[|members| - 1];
      MemberRefsNamed(p, key, members[..|members| - 1], depth);
      RankDrops(p, key, last);
      if !Truncated(p, depth + 1) { NodeRefsNamed(p, last.nodeType, depth + 1); }
    }
  }

  function Count(refs: seq<Text>, key: Text): nat {
    multiset(refs)[key]
  }

  lemma {:induction false} SelectedRefs(p: SoundPlan, members: seq<Member>, key: Text)
    ensures Count(MemberRefs(Selected(p.dropReadOnly, members)), key) <= Count(MemberRefs(members), key)
  {
    if members != [] { SelectedRefs(p, members[1..], key); }
  }

  lemma {:induction false} MemberRefsSplit(members: seq<Member>, key: Text)
    requires members != []
    ensures Count(MemberRefs(members), key)
         == Count(MemberRefs(members[..|members| - 1]), key) + Count(Refs(members[|members| - 1].nodeType), key)
  {
    if |members| > 1 {
      MemberRefsSplit(members[1..], key);
      assert members[1..][..|members| - 2] == members[..|members| - 1][1..];
    } else {
      assert MemberRefs(members) == Refs(members[0].nodeType) + [];
    }
  }

  /** A body written inside another stands at the one place that mentions its key. */
  ghost predicate OnlyIn(p: SoundPlan, key: Text, parent: Option<Text>) {
    forall q :: q in p.graph ==> Count(p.graph[q], key) <= if parent == Some(q) then 1 else 0
  }

  function Written(bodies: multiset<Text>, key: Option<Text>): nat {
    if key.None? then 0 else bodies[key.value]
  }

  lemma {:induction false} NodeBodies(p: SoundPlan, node: TypeNode, depth: nat, key: Text, parent: Option<Text>)
    requires Known(p, node) && OnlyIn(p, key, parent)
    ensures var b := EmitNode(p, node, depth).bodies; b[key] <= Written(b, parent) + Count(Refs(node), key)
    decreases Rank(p, node), NodeSize(node), 1
  {
    match node
    case MapNode(_, Some(values)) => if !Truncated(p, depth + 1) { NodeBodies(p, values, depth + 1, key, parent); }
    case ArrayNode(Some(items)) => if !Truncated(p, depth + 1) { NodeBodies(p, items, depth + 1, key, parent); }
    case RefNode(Some(k)) =>
      assert k in Refs(node);
      if k !in p.hoisted { BodyBodies(p, k, depth, key, parent); }
    case _ =>
  }

  lemma {:induction false} WrapperBodies(p: SoundPlan, k: Text, depth: nat, key: Text, parent: Option<Text>)
    requires k in p.graph && k in p.types && OnlyIn(p, key, parent)
    requires p.types[k].wrapper && |Selected(p.dropReadOnly, p.types[k].members)| == 1
    ensures var b := EmitBody(p, k, depth).bodies; b[key] <= Written(b, parent) + if k == key then 1 else 0
    decreases |ReachSet(p.graph, k)| + 1, 0, 0
  {
    assert Recorded(p, k);
    var members := Selected(p.dropReadOnly, p.types[k].members);
    SelectedRefs(p, p.types[k].members, key);
    RankDrops(p, k, members[0]);
    NodeBodies(p, members[0].nodeType, depth, key, parent);
    MemberRefsSplit(members, key);
  }

  lemma {:induction false} BodyBodies(p: SoundPlan, k: Text, depth: nat, key: Text, parent: Option<Text>)
    requires k in p.graph && OnlyIn(p, key, parent)
    ensures var b := EmitBody(p, k, depth).bodies; b[key] <= Written(b, parent) + if k == key then 1 else 0
    decreases |ReachSet(p.graph, k)| + 1, 0, if k in p.types then |p.types[k].members| + 1 else 0
  {
    if k !in p.types {
    } else if p.types[k].wrapper && |Selected(p.dropReadOnly, p.types[k].members)| == 1 {
      WrapperBodies(p, k, depth, key, parent);
    } else {
      var members := Selected(p.dropReadOnly, p.types[k].members);
      assert Recorded(p, k);
      SelectedRefs(p, p.types[k].members, key);
      SelectedShorter(p, p.types[k].members);
      MemberBodies(p, k, members, depth, key, parent);
    }
  }

  lemma {:induction false} MemberBodies(p: SoundPlan, k: Text, members: seq<Member>, depth: nat, key: Text,
        parent: Option<Text>)
    requires k in p.graph && k in p.types && OnlyIn(p, key, parent)
    requires forall m :: m in members ==> m in p.types[k].members
    ensures var b := EmitMembers(p, k, members, depth).bodies;
      b[key] <= Written(b, parent) + Count(MemberRefs(members), key)
    decreases |ReachSet(p.graph, k)| + 1, 0, |members|
  {
    if members != [] {
      var last := members[|members| - 1];
      MemberBodies(p, k, members[..|members| - 1], depth, key, parent);
      RankDrops(p, k, last);
      if !Truncated(p, depth + 1) { NodeBodies(p, last.nodeType, depth + 1, key, parent); }
      MemberRefsSplit(members, key);
    }
  }

  /** A hoisted body is never written inside another. */
  lemma {:induction false} HoistedNotInNode(p: SoundPlan, node: TypeNode, depth: nat, key: Text)
    requires Known(p, node) && key in p.hoisted
    ensures EmitNode(p, node, depth).bodies[key] == 0
    decreases Rank(p, node), NodeSize(node), 1
  {
    match node
    case MapNode(_, Some(values)) => if !Truncated(p, depth + 1) { HoistedNotInNode(p, values, depth + 1, key); }
    case ArrayNode(Some(items)) => if !Truncated(p, depth + 1) { HoistedNotInNode(p, items, depth + 1, key); }
    case RefNode(Some(k)) =>
      assert k in Refs(node);
      if k !in p.hoisted { HoistedNotInBody(p, k, depth, key); }
    case _ =>
  }

  lemma {:induction false} HoistedNotInBody(p: SoundPlan, k: Text, depth: nat, key: Text)
    requires k in p.graph && key in p.hoisted
    ensures EmitBody(p, k, depth).bodies[key] == if k == key then 1 else 0
    decreases |ReachSet(p.graph, k)| + 1, 0, if k in p.types then |p.types[k].members| + 1 else 0
  {
    if k in p.types {
      var members := Selected(p.dropReadOnly, p.types[k].members);
      if p.types[k].wrapper && |members| == 1 {
        RankDrops(p, k, members[0]);
        HoistedNotInNode(p, members[0].nodeType, depth, key);
      } else {
        SelectedShorter(p, p.types[k].members);
        HoistedNotInMembers(p, k, members, depth, key);
      }
    }
  }

  lemma {:induction false} HoistedNotInMembers(p: SoundPlan, k: Text, members: seq<Member>, depth: nat, key: Text)
    requires k in p.graph && k in p.types && key in p.hoisted
    requires forall m :: m in members ==> m in p.types[k].members
    ensures EmitMembers(p, k, members, depth).bodies[key] == 0
    decreases |ReachSet(p.graph, k)| + 1, 0, |members|
  {
    if members != [] {
      var last := members[|members| - 1];
      HoistedNotInMembers(p, k, members[..|members| - 1], depth, key);
      RankDrops(p, k, last);
      if !Truncated(p, depth + 1) { HoistedNotInNode(p, last.nodeType, depth + 1, key); }
    }
  }

  /** What writing the definitions of `order` adds to the root: the `$defs` bag, diagnostics and bodies. */
  datatype Definitions = Definitions(bag: map<Text, Schema>, reports: seq<Code>, bodies: multiset<Text>)

  function DefineAll(p: SoundPlan, order: seq<Text>): Definitions {
    if order == [] then Definitions(map[], [], multiset{})
    else Define(p, DefineAll(p, order[..|order| - 1]), order[|order| - 1])
  }

  /** One definition; a repeated name keeps the last body. */
  function Define(p: SoundPlan, d: Definitions, key: Text): Definitions {
    if key !in p.hoisted then d
    else
      var e := EmitBody(p, key, 0);
      Definitions(d.bag[p.names[key] := e.schema], d.reports + e.reports, d.bodies + e.bodies)
  }

  lemma DefineNext(p: SoundPlan, order: seq<Text>, i: nat)
    requires i < |order|
    ensures DefineAll(p, order[..i + 1]) == Define(p, DefineAll(p, order[..i]), order[i])
  {
    assert order[..i + 1][..i] == order[..i] && order[..i + 1][i] == order[i];
  }

  /** Everything one run writes: the root, then each hoisted key's definition. */
  function RunBodies(p: SoundPlan, root: TypeNode, order: seq<Text>): multiset<Text>
    requires Known(p, root)
  {
    EmitRoot(p, root).bodies + DefineAll(p, order).bodies
  }

  /** How often a key is mentioned by the root and by the types in `order`. */
  function Mentions(root: TypeNode, graph: Graph, order: seq<Text>): multiset<Text> {
    if order == [] then multiset(Refs(root))
    else Mentions(root, graph, order[..|order| - 1]) + multiset(Successors(graph, order[|order| - 1]))
  }

  lemma LastOnce(order: seq<Text>)
    requires order != [] && forall k :: multiset(order)[k] <= 1
    ensures forall k {:trigger multiset(order[..|order| - 1])[k]} :: multiset(order[..|order| - 1])[k] <= 1
    ensures order[|order| - 1] !in order[..|order| - 1]
    ensures forall q :: q in order <==> q in order[..|order| - 1] || q == order[|order| - 1]
  {
    var last := order[|order| - 1];
    var rest := order[..|order| - 1];
    assert order == rest + [last];
    assert multiset(order) == multiset(rest) + multiset{last};
    forall k ensures multiset(rest)[k] <= 1 { assert multiset(rest)[k] <= multiset(order)[k]; }
    assert last in rest ==> last in multiset(rest);
    assert multiset(order)[last] == 1 + multiset(rest)[last];
  }

  /** A key used once has one place: the root, or one declared type that mentions it once. */
  lemma {:induction false} SingleUse(root: TypeNode, graph: Graph, order: seq<Text>, key: Text)
    returns (parent: Option<Text>)
    requires forall k :: multiset(order)[k] <= 1
    requires Mentions(root, graph, order)[key] <= 1
    ensures parent.Some?
      ==> parent.value in order && Count(Successors(graph, parent.value), key) == 1 && Count(Refs(root), key) == 0
    ensures forall q :: q in order ==> Count(Successors(graph, q), key) <= if parent == Some(q) then 1 else 0
  {
    if order == [] { return None; }
    var last := order[|order| - 1];
    var rest := order[..|order| - 1];
    LastOnce(order);
    parent := SingleUse(root, graph, rest, key);
    MentionsHold(root, graph, rest, key);
    if Count(Successors(graph, last), key) == 1 {
      forall q | q in rest ensures Count(Successors(graph, q), key) == 0 {
        MentionsOf(root, graph, rest, key, q);
      }
      parent := Some(last);
    }
  }

  lemma {:induction false} MentionsHold(root: TypeNode, graph: Graph, order: seq<Text>, key: Text)
    ensures Count(Refs(root), key) <= Mentions(root, graph, order)[key]
  {
    if order != [] { MentionsHold(root, graph, order[..|order| - 1], key); }
  }

  lemma {:induction false} MentionsOf(root: TypeNode, graph: Graph, order: seq<Text>, key: Text, q: Text)
    requires q in order
    ensures Count(Successors(graph, q), key) <= Mentions(root, graph, order)[key]
  {
    if q != order[|order| - 1] { MentionsOf(root, graph, order[..|order| - 1], key, q); }
  }

  /** The hoisting rule: a key used more than once, or on a cycle, goes to `$defs`. */
  ghost predicate HoistsByRule(p: SoundPlan, root: TypeNode, visited: seq<Text>) {
    && Enumerates(visited, p.graph.Keys)
    && (forall k {:trigger HoistedByRule(p, root, visited, k)} :: k in p.graph ==> HoistedByRule(p, root, visited, k))
  }

  ghost predicate HoistedByRule(p: SoundPlan, root: TypeNode, visited: seq<Text>, key: Text) {
    key in p.hoisted <==> Mentions(root, p.graph, visited)[key] > 1 || Reaches(p.graph, key, key)
  }

  predicate RootHoisted(p: SoundPlan, root: TypeNode) {
    root.RefNode? && root.target.Some? && root.target.value in p.hoisted
  }

  lemma {:induction false} DefBodiesOfHoisted(p: SoundPlan, order: seq<Text>, key: Text)
    requires key in p.hoisted
    ensures DefineAll(p, order).bodies[key] == multiset(order)[key]
  {
    if order != [] {
      var last := order[|order| - 1];
      assert order == order[..|order| - 1] + [last];
      DefBodiesOfHoisted(p, order[..|order| - 1], key);
      if last in p.hoisted { HoistedNotInBody(p, last, 0, key); }
    }
  }

  lemma {:induction false} DefBodiesOfInlined(p: SoundPlan, order: seq<Text>, key: Text, parent: Option<Text>)
    requires key !in p.hoisted && OnlyIn(p, key, parent)
    ensures DefineAll(p, order).bodies[key] <= Written(DefineAll(p, order).bodies, parent)
  {
    if order != [] {
      var last := order[|order| - 1];
      DefBodiesOfInlined(p, order[..|order| - 1], key, parent);
      if last in p.hoisted { BodyBodies(p, last, 0, key, parent); }
    }
  }

  lemma RootBodiesOfHoisted(p: SoundPlan, root: TypeNode, key: Text)
    requires Known(p, root) && key in p.hoisted
    ensures EmitRoot(p, root).bodies[key] <= if RootHoisted(p, root) then 1 else 0
  {
    if root.RefNode? && root.target.Some? {
      assert root.target.value in Refs(root);
      HoistedNotInBody(p, root.target.value, 0, key);
    } else {
      HoistedNotInNode(p, root, 0, key);
    }
  }

  lemma RootBodiesOfInlined(p: SoundPlan, root: TypeNode, key: Text, parent: Option<Text>)
    requires Known(p, root) && OnlyIn(p, key, parent)
    ensures EmitRoot(p, root).bodies[key] <= Written(EmitRoot(p, root).bodies, parent) + Count(Refs(root), key)
  {
    if root.RefNode? && root.target.Some? {
      assert root.target.value in Refs(root);
      BodyBodies(p, root.target.value, 0, key, parent);
    } else {
      NodeBodies(p, root, 0, key, parent);
    }
  }

  /** Each body is written at most twice in a run, and at most once unless the root's own type is hoisted. */
  lemma {:induction false} BodiesWrittenAtMostTwice(p: SoundPlan, root: TypeNode, visited: seq<Text>, order: seq<Text>,
        key: Text)
    requires Known(p, root) && HoistsByRule(p, root, visited) && Enumerates(order, p.hoisted)
    ensures RunBodies(p, root, order)[key] <= if RootHoisted(p, root) then 2 else 1
    decreases |Mentioned(p.graph)| - |ReachSet(p.graph, key)|
  {
    if key in p.hoisted {
      DefBodiesOfHoisted(p, order, key);
      RootBodiesOfHoisted(p, root, key);
    } else {
      var parent := PlaceOf(p, root, visited, key);
      DefBodiesOfInlined(p, order, key, parent);
      RootBodiesOfInlined(p, root, key, parent);
      if parent.Some? {
        assert key in Successors(p.graph, parent.value);
        AcyclicStepShrinks(p.graph, parent.value, key);
        ReachWithinMentioned(p.graph, parent.value);
        BodiesWrittenAtMostTwice(p, root, visited, order, parent.value);
      }
    }
  }

  lemma PlaceOf(p: SoundPlan, root: TypeNode, visited: seq<Text>, key: Text) returns (parent: Option<Text>)
    requires Known(p, root) && HoistsByRule(p, root, visited) && key !in p.hoisted
    ensures OnlyIn(p, key, parent)
    ensures parent.Some? ==> parent.value in p.graph && key in Successors(p.graph, parent.value)
    ensures parent.Some? ==> Count(Refs(root), key) == 0 && !Reaches(p.graph, key, key)
    ensures Count(Refs(root), key) <= 1
  {
    EnumeratesMembers(visited, p.graph.Keys);
    if key in p.graph {
      assert HoistedByRule(p, root, visited, key);
      parent := SingleUse(root, p.graph, visited, key);
      MentionsHold(root, p.graph, visited, key);
    } else {
      parent := None;
      forall q | q in p.graph ensures Count(p.graph[q], key) == 0 { assert Recorded(p, q); }
      assert key !in Refs(root);
    }
  }

  lemma ReachWithinMentioned(g: Graph, from: Text)
    ensures |ReachSet(g, from)| <= |Mentioned(g)|
  {
    if ReachSet(g, from) != Mentioned(g) { SubsetSmaller(ReachSet(g, from), Mentioned(g)); }
  }
}
