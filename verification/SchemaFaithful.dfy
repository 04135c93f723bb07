/**
 * Where reading a shape as it was written is reading the shape: exactly where no keyword was lost, or put
 * beside a `$ref` under another name, for want of the type behind the `$ref`.
 */
module SchemaFaithful {
  import opened Wrappers
  import opened TypeShapes
  import opened SchemaEmission
  import opened SchemaMeaning

  function AsShaped(shown: set<Keyword>): Reading {
    Reading(shown, false)
  }

  // What a node shows on its own level.

  /** The type at the end of a node's wrapper chain. */
  ghost function EndType(p: GroundedPlan, node: TypeNode): Option<JsonType>
    requires Known(p, node)
    decreases WrapRank(p, node)
  {
    match node
    case Verbatim(None) => None
    case Verbatim(Some(host)) => host.jsonType
    case Binary => Some(StringType)
    case ScalarNode(scalar, _) => Some(scalar.GetOr(StringType))
    case EnumNode(Some(facts)) => facts.wireForm
    case ArrayNode(_) => Some(ArrayType)
    case RefNode(Some(key)) =>
      assert key in Refs(node);
      if key in p.types && Unwraps(p, key) then (WrapStepShrinks(p, key); EndType(p, OnlyMember(p, key).nodeType))
        else Some(ObjectType)
    case _ => Some(ObjectType)
  }

  /** The keywords at the end of a node's wrapper chain, annotated on the way back. */
  ghost function Keywords(p: GroundedPlan, node: TypeNode, r: Reading): Facets
    requires Known(p, node)
    decreases WrapRank(p, node), 0
  {
    match node
    case Verbatim(Some(host)) => Shown(host.facets, r.shown)
    case ScalarNode(_, format) => Shown(Put(map[], Format, format), r.shown)
    case RefNode(Some(key)) =>
      assert key in Refs(node);
      if key in p.types && Unwraps(p, key) then (WrapStepShrinks(p, key); Noted(p, OnlyMember(p, key), r)) else map[]
    case _ => map[]
  }

  /** The keywords of a member: its type's, and its own annotation. */
  ghost function Noted(p: GroundedPlan, m: Member, r: Reading): Facets
    requires Known(p, m.nodeType)
    decreases WrapRank(p, m.nodeType), 1
  {
    Shown(Annotate(if OnRef(p, m, r) then None
      else EndType(p, m.nodeType), Keywords(p, m.nodeType, r), m.description, m.constraints), r.shown)
  }

  ghost predicate ShowsFirst(p: GroundedPlan, node: TypeNode, depth: nat, n: nat, r: Reading)
    requires Known(p, node) && n > 0
  {
    var t := TypeTree(p, node, depth, n, r);
    t.Tree? && t.facets == Keywords(p, node, r) && HeadType(t.head) == EndType(p, node)
  }

  lemma FirstLeaf(p: GroundedPlan, node: TypeNode, depth: nat, n: nat, r: Reading)
    requires Known(p, node) && n > 0 && Target(node) == []
    ensures ShowsFirst(p, node, depth, n, r)
  {
  }

  lemma FirstWrapped(p: GroundedPlan, key: Text, depth: nat, n: nat, r: Reading)
    requires key in p.graph && key in p.types && Unwraps(p, key) && n > 0
    requires Known(p, OnlyMember(p, key).nodeType) && ShowsFirst(p, OnlyMember(p, key).nodeType, depth, n, r)
    ensures var t := DeclaredTree(p, key, depth, n, r);
      t.Tree? && t.facets == Noted(p, OnlyMember(p, key), r)
        && HeadType(t.head) == EndType(p, OnlyMember(p, key).nodeType)
  {
  }

  /** The first level of a node's tree, at any depth and to any further level. */
  lemma {:induction false} FirstLevel(p: GroundedPlan, node: TypeNode, depth: nat, n: nat, r: Reading)
    requires Known(p, node) && n > 0
    ensures ShowsFirst(p, node, depth, n, r)
    decreases WrapRank(p, node)
  {
    match node
    case RefNode(Some(key)) =>
      assert key in Refs(node);
      if key in p.types && Unwraps(p, key) {
        var inner := if key in p.hoisted then 0 else depth;
        WrapStepShrinks(p, key);
        FirstLevel(p, OnlyMember(p, key).nodeType, inner, n, r);
        FirstWrapped(p, key, inner, n, r);
      }
    case _ => FirstLeaf(p, node, depth, n, r);
  }

  lemma BelowIs(p: GroundedPlan, node: TypeNode, depth: nat, n: nat, r: Reading)
    requires p.maxDepth.None? && Known(p, node)
    ensures Below(p, node, depth, n, r) == TypeTree(p, node, depth + 1, n, r)
  {
  }

  /** The first level of a member's tree, where no budget cuts it off. */
  lemma MemberFirst(p: GroundedPlan, m: Member, depth: nat, n: nat, r: Reading)
    requires p.maxDepth.None? && Known(p, m.nodeType) && n > 0
    ensures TypeTree(p, m.nodeType, depth + 1, n, r).Tree?
    ensures var t := MemberTree(p, m, depth, n, r);
      t.Tree? && t.facets == Noted(p, m, r) && t.head == TypeTree(p, m.nodeType, depth + 1, n, r).head
  {
    FirstLevel(p, m.nodeType, depth + 1, n, r);
  }

  // Where the readings can differ.

  /** The keys a node leads to through levels that are written. */
  function Inside(node: TypeNode): set<Text> {
    match node
    case RefNode(Some(key)) => {key}
    case ArrayNode(Some(items)) => Inside(items)
    case MapNode(keys, Some(values)) => if keys.Some? && !keys.value.writable then {} else Inside(values)
    case _ => {}
  }

  lemma {:induction false} InsideKnown(p: SoundPlan, node: TypeNode)
    requires Known(p, node)
    ensures Inside(node) <= p.graph.Keys
  {
    match node
    case RefNode(Some(key)) => assert key in Refs(node);
    case ArrayNode(Some(items)) => InsideKnown(p, items);
    case MapNode(keys, Some(values)) => InsideKnown(p, values);
    case _ =>
  }

  /** The member that a name stands for: the last one of that name. */
  predicate Stands(members: seq<Member>, m: Member) {
    members != [] && (members[|members| - 1] == m
      || (members[|members| - 1].name != m.name && Stands(members[..|members| - 1], m)))
  }

  function KeptOf(p: Plan, key: Text): (r: seq<Member>)
    requires key in p.types
    ensures forall m :: m in r ==> m in p.types[key].members
  {
    Selected(p.dropReadOnly, p.types[key].members)
  }

  /** The keys that a declared type's written schema leads to. */
  function ShownRefs(p: Plan, key: Text): set<Text> {
    if key !in p.types then {}
    else if Unwraps(p, key) then Inside(OnlyMember(p, key).nodeType)
    else set m, x | m in KeptOf(p, key) && Stands(KeptOf(p, key), m) && x in Inside(m.nodeType) :: x
  }

  ghost predicate Leads(p: Plan, path: seq<Text>) {
    forall i :: 0 <= i < |path| - 1 ==> path[i + 1] in ShownRefs(p, path[i])
  }

  /** A declared type that the written document shows somewhere. */
  ghost predicate Visible(p: Plan, root: TypeNode, key: Text) {
    exists path :: path != [] && path[0] in Inside(root) && path[|path| - 1] == key && Leads(p, path)
  }

  /** The levels of a node show what its shape does. */
  ghost predicate LevelsFaithful(p: GroundedPlan, node: TypeNode, shown: set<Keyword>)
    requires Known(p, node)
    decreases node, 0
  {
    match node
    case MapNode(keys, Some(values)) => (keys.Some? && !keys.value.writable) || NodeFaithful(p, values, shown)
    case ArrayNode(Some(items)) => NodeFaithful(p, items, shown)
    case _ => true
  }

  ghost predicate NodeFaithful(p: GroundedPlan, node: TypeNode, shown: set<Keyword>)
    requires Known(p, node)
    decreases node, 1
  {
    Keywords(p, node, AsWritten(shown)) == Keywords(p, node, AsShaped(shown)) && LevelsFaithful(p, node, shown)
  }

  ghost predicate MemberFaithful(p: GroundedPlan, m: Member, shown: set<Keyword>)
    requires Known(p, m.nodeType)
  {
    Noted(p, m, AsWritten(shown)) == Noted(p, m, AsShaped(shown)) && LevelsFaithful(p, m.nodeType, shown)
  }

  lemma MemberKnown(p: SoundPlan, key: Text, m: Member)
    requires key in p.graph && key in p.types && m in p.types[key].members
    ensures Known(p, m.nodeType)
  {
    RankDrops(p, key, m);
  }

  ghost predicate KeyFaithful(p: GroundedPlan, key: Text, shown: set<Keyword>)
    requires key in p.graph
  {
    key in p.types ==>
      if Unwraps(p, key) then (MemberKnown(p, key, OnlyMember(p, key));
        LevelsFaithful(p, OnlyMember(p, key).nodeType, shown))
      else forall m :: m in KeptOf(p, key) && Stands(KeptOf(p, key), m) ==>
        (MemberKnown(p, key, m); MemberFaithful(p, m, shown))
  }

  /** Every place that the document shows has the keywords that its shape gives it. */
  ghost predicate Faithful(p: GroundedPlan, root: TypeNode, shown: set<Keyword>)
    requires Known(p, root)
  {
    NodeFaithful(p, root, shown)
    && forall key :: key in p.graph && Visible(p, root, key) ==> KeyFaithful(p, key, shown)
  }

  // Faithful places give equal trees.

  /** A set of faithful keys that holds what they lead to. */
  ghost predicate Closed(p: GroundedPlan, keys: set<Text>, shown: set<Keyword>) {
    keys <= p.graph.Keys && forall k :: k in keys ==> KeyFaithful(p, k, shown) && ShownRefs(p, k) <= keys
  }

  lemma {:induction false} StandingOf(p: GroundedPlan, key: Text, members: seq<Member>, depth: nat, n: nat, r: Reading,
        name: Text) returns (m: Member)
    requires key in p.graph && key in p.types && forall x :: x in members ==> x in p.types[key].members
    requires name in MemberTrees(p, key, members, depth, n, r)
    ensures Stands(members, m) && m in members && m.name == name
  {
    var last := members[|members| - 1];
    if last.name == name {
      m := last;
    } else {
      m := StandingOf(p, key, members[..|members| - 1], depth, n, r, name);
    }
  }

  lemma {:induction false} StandingTree(p: GroundedPlan, key: Text, members: seq<Member>, depth: nat, n: nat,
        r: Reading, m: Member)
    requires key in p.graph && key in p.types && forall x :: x in members ==> x in p.types[key].members
    requires Stands(members, m)
    ensures m in members && Known(p, m.nodeType)
    ensures var trees := MemberTrees(p, key, members, depth, n, r);
      m.name in trees && trees[m.name] == MemberTree(p, m, depth, n, r)
  {
    var last := members[|members| - 1];
    RankDrops(p, key, last);
    if last != m {
      StandingTree(p, key, members[..|members| - 1], depth, n, r, m);
    }
  }

  lemma {:induction false} TreesNamed(p: GroundedPlan, key: Text, members: seq<Member>, depth: nat, n: nat, a: Reading,
        b: Reading)
    requires key in p.graph && key in p.types && forall x :: x in members ==> x in p.types[key].members
    ensures MemberTrees(p, key, members, depth, n, a).Keys == MemberTrees(p, key, members, depth, n, b).Keys
  {
    if members != [] { TreesNamed(p, key, members[..|members| - 1], depth, n, a, b); }
  }

  ghost predicate SameTree(p: GroundedPlan, node: TypeNode, depth: nat, n: nat, shown: set<Keyword>)
    requires Known(p, node)
  {
    TypeTree(p, node, depth, n, AsWritten(shown)) == TypeTree(p, node, depth, n, AsShaped(shown))
  }

  ghost predicate SameHead(p: GroundedPlan, node: TypeNode, depth: nat, n: nat, shown: set<Keyword>)
    requires Known(p, node) && n > 0
  {
    var a, b := TypeTree(p, node, depth, n, AsWritten(shown)), TypeTree(p, node, depth, n, AsShaped(shown));
    a.Tree? && b.Tree? && a.head == b.head
  }

  ghost predicate SameMember(p: GroundedPlan, m: Member, depth: nat, n: nat, shown: set<Keyword>)
    requires Known(p, m.nodeType)
  {
    MemberTree(p, m, depth, n, AsWritten(shown)) == MemberTree(p, m, depth, n, AsShaped(shown))
  }

  lemma {:induction false} NodeAgrees(p: GroundedPlan, node: TypeNode, depth: nat, n: nat, shown: set<Keyword>,
        keys: set<Text>)
    requires p.maxDepth.None? && Known(p, node) && Inside(node) <= keys && Closed(p, keys, shown)
      && NodeFaithful(p, node, shown)
    ensures SameTree(p, node, depth, n, shown)
    decreases n, WrapRank(p, node), 2, 0
  {
    if n > 0 {
      HeadAgrees(p, node, depth, n, shown, keys);
      FirstLevel(p, node, depth, n, AsWritten(shown));
      FirstLevel(p, node, depth, n, AsShaped(shown));
    }
  }

  lemma {:induction false} HeadAgrees(p: GroundedPlan, node: TypeNode, depth: nat, n: nat, shown: set<Keyword>,
        keys: set<Text>)
    requires p.maxDepth.None? && Known(p, node) && n > 0
    requires Inside(node) <= keys && Closed(p, keys, shown) && LevelsFaithful(p, node, shown)
    ensures SameHead(p, node, depth, n, shown)
    decreases n, WrapRank(p, node), 1, 0
  {
    FirstLevel(p, node, depth, n, AsWritten(shown));
    FirstLevel(p, node, depth, n, AsShaped(shown));
    match node
    case MapNode(names, Some(values)) =>
      if !(names.Some? && !names.value.writable) { NodeAgrees(p, values, depth + 1, n - 1, shown, keys); }
    case ArrayNode(Some(items)) => NodeAgrees(p, items, depth + 1, n - 1, shown, keys);
    case RefNode(Some(key)) =>
      assert key in Inside(node);
      KeyAgrees(p, key, if key in p.hoisted then 0 else depth, n, shown, keys);
    case _ =>
  }

  ghost predicate SameKey(p: GroundedPlan, key: Text, depth: nat, n: nat, shown: set<Keyword>)
    requires n > 0 && key in p.graph
  {
    var a, b := DeclaredTree(p, key, depth, n, AsWritten(shown)), DeclaredTree(p, key, depth, n, AsShaped(shown));
    a.Tree? && b.Tree? && a.head == b.head
  }

  lemma {:induction false} KeyAgrees(p: GroundedPlan, key: Text, depth: nat, n: nat, shown: set<Keyword>,
        keys: set<Text>)
    requires p.maxDepth.None? && key in p.graph && n > 0 && key in keys && Closed(p, keys, shown)
    ensures SameKey(p, key, depth, n, shown)
    decreases n, |WrapReach(p, key)| + 1, 0, 0
  {
    if key in p.types {
      if Unwraps(p, key) {
        WrapStepShrinks(p, key);
        HeadAgrees(p, OnlyMember(p, key).nodeType, depth, n, shown, keys);
      } else {
        MembersAgree(p, key, depth, n - 1, shown, keys);
      }
    }
  }

  lemma {:induction false} MembersAgree(p: GroundedPlan, key: Text, depth: nat, n: nat, shown: set<Keyword>,
        keys: set<Text>)
    requires p.maxDepth.None? && key in p.graph && key in p.types && !Unwraps(p, key) && key in keys
      && Closed(p, keys, shown)
    ensures MemberTrees(p, key, KeptOf(p, key), depth, n, AsWritten(shown))
      == MemberTrees(p, key, KeptOf(p, key), depth, n, AsShaped(shown))
    decreases n + 1, 0, 0, 0
  {
    var members := KeptOf(p, key);
    var a, b := MemberTrees(p, key, members, depth, n, AsWritten(shown)),
      MemberTrees(p, key, members, depth, n, AsShaped(shown));
    TreesNamed(p, key, members, depth, n, AsWritten(shown), AsShaped(shown));
    forall name | name in a ensures a[name] == b[name] {
      var m := StandingOf(p, key, members, depth, n, AsWritten(shown), name);
      StandingTree(p, key, members, depth, n, AsWritten(shown), m);
      StandingTree(p, key, members, depth, n, AsShaped(shown), m);
      assert forall x :: x in Inside(m.nodeType) ==> x in ShownRefs(p, key);
      MemberAgrees(p, m, depth, n, shown, keys);
    }
  }

  lemma {:induction false} MemberAgrees(p: GroundedPlan, m: Member, depth: nat, n: nat, shown: set<Keyword>,
        keys: set<Text>)
    requires p.maxDepth.None? && Known(p, m.nodeType) && Inside(m.nodeType) <= keys && Closed(p, keys, shown)
      && MemberFaithful(p, m, shown)
    ensures SameMember(p, m, depth, n, shown)
    decreases n, WrapRank(p, m.nodeType), 2, 0
  {
    if n > 0 {
      HeadAgrees(p, m.nodeType, depth + 1, n, shown, keys);
      MemberFirst(p, m, depth, n, AsWritten(shown));
      MemberFirst(p, m, depth, n, AsShaped(shown));
      assert SameHead(p, m.nodeType, depth + 1, n, shown);
    } else {
      BelowIs(p, m.nodeType, depth, n, AsWritten(shown));
      BelowIs(p, m.nodeType, depth, n, AsShaped(shown));
      assert TypeTree(p, m.nodeType, depth + 1, 0, AsWritten(shown)) == Cut
        && TypeTree(p, m.nodeType, depth + 1, 0, AsShaped(shown)) == Cut;
    }
  }

  lemma VisibleStep(p: Plan, root: TypeNode, key: Text, next: Text)
    requires Visible(p, root, key) && next in ShownRefs(p, key)
    ensures Visible(p, root, next)
  {
    var path :| path != [] && path[0] in Inside(root) && path[|path| - 1] == key && Leads(p, path);
    var longer := path + [next];
    assert Leads(p, longer);
  }

  lemma ShownKnown(p: SoundPlan, key: Text)
    requires key in p.graph
    ensures ShownRefs(p, key) <= p.graph.Keys
  {
    if key in p.types {
      if Unwraps(p, key) {
        MemberKnown(p, key, OnlyMember(p, key));
        InsideKnown(p, OnlyMember(p, key).nodeType);
      } else {
        forall m, x | m in KeptOf(p, key) && x in Inside(m.nodeType) ensures x in p.graph {
          MemberKnown(p, key, m);
          InsideKnown(p, m.nodeType);
        }
      }
    }
  }

  lemma FaithfulAgrees(p: GroundedPlan, root: TypeNode, n: nat, shown: set<Keyword>)
    requires p.maxDepth.None? && Known(p, root) && Faithful(p, root, shown)
    ensures SameTree(p, root, 0, n, shown)
  {
    var keys := set k | k in p.graph && Visible(p, root, k);
    InsideKnown(p, root);
    forall k | k in Inside(root) ensures k in keys { assert Leads(p, [k]) && [k][0] in Inside(root); }
    forall k, x | k in keys && x in ShownRefs(p, k) ensures x in keys { VisibleStep(p, root, k, x); ShownKnown(p, k); }
    NodeAgrees(p, root, 0, n, shown, keys);
  }

  // Equal trees come from faithful places.

  ghost predicate SameTrees(p: GroundedPlan, node: TypeNode, depth: nat, shown: set<Keyword>)
    requires Known(p, node)
  {
    forall n: nat {:trigger SameTree(p, node, depth, n, shown)} :: SameTree(p, node, depth, n, shown)
  }

  ghost predicate SameHeads(p: GroundedPlan, node: TypeNode, depth: nat, shown: set<Keyword>)
    requires Known(p, node)
  {
    forall n: nat {:trigger SameHead(p, node, depth, n, shown)} :: n > 0 ==> SameHead(p, node, depth, n, shown)
  }

  ghost predicate SameKeys(p: GroundedPlan, key: Text, depth: nat, shown: set<Keyword>)
    requires key in p.graph
  {
    forall n: nat {:trigger SameKey(p, key, depth, n, shown)} :: n > 0 ==> SameKey(p, key, depth, n, shown)
  }

  /** Equal trees have equal keywords on their first level, and equal heads. */
  lemma TreesGive(p: GroundedPlan, node: TypeNode, depth: nat, shown: set<Keyword>)
    requires Known(p, node) && SameTrees(p, node, depth, shown)
    ensures Keywords(p, node, AsWritten(shown)) == Keywords(p, node, AsShaped(shown))
      && SameHeads(p, node, depth, shown)
  {
    FirstLevel(p, node, depth, 1, AsWritten(shown));
    FirstLevel(p, node, depth, 1, AsShaped(shown));
    assert SameTree(p, node, depth, 1, shown);
    forall n: nat | n > 0 ensures SameHead(p, node, depth, n, shown) {
      FirstLevel(p, node, depth, n, AsWritten(shown));
      FirstLevel(p, node, depth, n, AsShaped(shown));
      assert SameTree(p, node, depth, n, shown);
    }
  }

  lemma LevelGives(p: GroundedPlan, node: TypeNode, inner: TypeNode, depth: nat, n: nat, r: Reading)
    requires p.maxDepth.None? && Known(p, node) && Known(p, inner)
    requires (node.ArrayNode? && node.items == Some(inner))
             || (node.MapNode? && node.values == Some(inner) && !(node.keys.Some? && !node.keys.value.writable))
    ensures var t := TypeTree(p, node, depth, n + 1, r);
      t.Tree? && (if node.ArrayNode? then t.head == ArrayHead(TypeTree(p, inner, depth + 1, n, r))
                  else t.head.MapHead? && t.head.values == TypeTree(p, inner, depth + 1, n, r))
  {
    BelowIs(p, inner, depth, n, r);
  }

  /** The level below a node with equal heads has equal trees. */
  lemma HeadsGive(p: GroundedPlan, node: TypeNode, inner: TypeNode, depth: nat, shown: set<Keyword>)
    requires p.maxDepth.None? && Known(p, node) && Known(p, inner) && SameHeads(p, node, depth, shown)
    requires (node.ArrayNode? && node.items == Some(inner))
             || (node.MapNode? && node.values == Some(inner) && !(node.keys.Some? && !node.keys.value.writable))
    ensures SameTrees(p, inner, depth + 1, shown)
  {
    var below := depth + 1;
    forall n: nat ensures SameTree(p, inner, below, n, shown) {
      assert SameHead(p, node, depth, n + 1, shown);
      LevelGives(p, node, inner, depth, n, AsWritten(shown));
      LevelGives(p, node, inner, depth, n, AsShaped(shown));
    }
  }

  lemma {:induction false} LevelsAreFaithful(p: GroundedPlan, node: TypeNode, depth: nat, shown: set<Keyword>)
    requires p.maxDepth.None? && Known(p, node) && SameHeads(p, node, depth, shown)
    ensures LevelsFaithful(p, node, shown)
    decreases node
  {
    match node
    case MapNode(names, Some(values)) =>
      if !(names.Some? && !names.value.writable) {
        HeadsGive(p, node, values, depth, shown);
        TreesGive(p, values, depth + 1, shown);
        LevelsAreFaithful(p, values, depth + 1, shown);
      }
    case ArrayNode(Some(items)) =>
      HeadsGive(p, node, items, depth, shown);
      TreesGive(p, items, depth + 1, shown);
      LevelsAreFaithful(p, items, depth + 1, shown);
    case _ =>
  }

  /** A key inside a node with equal heads has equal heads, at the depth where it stands. */
  lemma {:induction false} InsideSame(p: GroundedPlan, node: TypeNode, depth: nat, shown: set<Keyword>, key: Text)
    returns (inner: nat)
    requires p.maxDepth.None? && Known(p, node) && SameHeads(p, node, depth, shown) && key in Inside(node)
    ensures key in p.graph && SameKeys(p, key, inner, shown)
    decreases node
  {
    match node
    case MapNode(names, Some(values)) =>
      HeadsGive(p, node, values, depth, shown);
      TreesGive(p, values, depth + 1, shown);
      inner := InsideSame(p, values, depth + 1, shown, key);
    case ArrayNode(Some(items)) =>
      HeadsGive(p, node, items, depth, shown);
      TreesGive(p, items, depth + 1, shown);
      inner := InsideSame(p, items, depth + 1, shown, key);
    case RefNode(Some(k)) =>
      assert k in Refs(node);
      inner := if key in p.hoisted then 0 else depth;
      forall n: nat | n > 0 ensures SameKey(p, key, inner, n, shown) { assert SameHead(p, node, depth, n, shown); }
  }

  lemma MemberGives(p: GroundedPlan, key: Text, depth: nat, shown: set<Keyword>, m: Member)
    requires p.maxDepth.None? && key in p.graph && key in p.types && !Unwraps(p, key) && SameKeys(p, key, depth, shown)
    requires m in KeptOf(p, key) && Stands(KeptOf(p, key), m)
    ensures Known(p, m.nodeType) && Noted(p, m, AsWritten(shown)) == Noted(p, m, AsShaped(shown))
    ensures SameHeads(p, m.nodeType, depth + 1, shown)
  {
    MemberKnown(p, key, m);
    forall n: nat ensures SameMember(p, m, depth, n, shown) {
      assert SameKey(p, key, depth, n + 1, shown);
      StandingTree(p, key, KeptOf(p, key), depth, n, AsWritten(shown), m);
      StandingTree(p, key, KeptOf(p, key), depth, n, AsShaped(shown), m);
    }
    assert SameMember(p, m, depth, 1, shown);
    MemberFirst(p, m, depth, 1, AsWritten(shown));
    MemberFirst(p, m, depth, 1, AsShaped(shown));
    var below := depth + 1;
    forall n: nat | n > 0 ensures SameHead(p, m.nodeType, below, n, shown) {
      assert SameMember(p, m, depth, n, shown);
      MemberFirst(p, m, depth, n, AsWritten(shown));
      MemberFirst(p, m, depth, n, AsShaped(shown));
    }
  }

  lemma WrapperGives(p: GroundedPlan, key: Text, depth: nat, shown: set<Keyword>)
    requires key in p.graph && key in p.types && Unwraps(p, key) && SameKeys(p, key, depth, shown)
    ensures Known(p, OnlyMember(p, key).nodeType) && SameHeads(p, OnlyMember(p, key).nodeType, depth, shown)
  {
    var only := OnlyMember(p, key);
    MemberKnown(p, key, only);
    forall n: nat | n > 0 ensures SameHead(p, only.nodeType, depth, n, shown) {
      assert SameKey(p, key, depth, n, shown);
      FirstLevel(p, only.nodeType, depth, n, AsWritten(shown));
      FirstLevel(p, only.nodeType, depth, n, AsShaped(shown));
    }
  }

  lemma KeyIsFaithful(p: GroundedPlan, key: Text, depth: nat, shown: set<Keyword>)
    requires p.maxDepth.None? && key in p.graph && SameKeys(p, key, depth, shown)
    ensures KeyFaithful(p, key, shown)
  {
    if key in p.types {
      if Unwraps(p, key) {
        WrapperGives(p, key, depth, shown);
        LevelsAreFaithful(p, OnlyMember(p, key).nodeType, depth, shown);
      } else {
        forall m | m in KeptOf(p, key) && Stands(KeptOf(p, key), m)
          ensures Known(p, m.nodeType) && MemberFaithful(p, m, shown) {
          MemberGives(p, key, depth, shown, m);
          LevelsAreFaithful(p, m.nodeType, depth + 1, shown);
        }
      }
    }
  }

  lemma KeyStep(p: GroundedPlan, key: Text, depth: nat, shown: set<Keyword>, next: Text) returns (inner: nat)
    requires p.maxDepth.None? && key in p.graph && SameKeys(p, key, depth, shown) && next in ShownRefs(p, key)
    ensures next in p.graph && SameKeys(p, next, inner, shown)
  {
    if Unwraps(p, key) {
      WrapperGives(p, key, depth, shown);
      inner := InsideSame(p, OnlyMember(p, key).nodeType, depth, shown, next);
    } else {
      var m :| m in KeptOf(p, key) && Stands(KeptOf(p, key), m) && next in Inside(m.nodeType);
      MemberGives(p, key, depth, shown, m);
      inner := InsideSame(p, m.nodeType, depth + 1, shown, next);
    }
  }

  lemma {:induction false} PathSame(p: GroundedPlan, root: TypeNode, shown: set<Keyword>, path: seq<Text>)
    returns (depth: nat)
    requires p.maxDepth.None? && Known(p, root) && SameHeads(p, root, 0, shown)
    requires path != [] && path[0] in Inside(root) && Leads(p, path)
    ensures path[|path| - 1] in p.graph && SameKeys(p, path[|path| - 1], depth, shown)
  {
    if |path| == 1 {
      depth := InsideSame(p, root, 0, shown, path[0]);
    } else {
      var before := path[..|path| - 1];
      forall i | 0 <= i < |before| - 1 ensures before[i + 1] in ShownRefs(p, before[i]) {
        assert path[i + 1] in ShownRefs(p, path[i]);
      }
      var inner := PathSame(p, root, shown, before);
      assert path[|path| - 2 + 1] in ShownRefs(p, path[|path| - 2]);
      depth := KeyStep(p, before[|before| - 1], inner, shown, path[|path| - 1]);
    }
  }

  /**
   * Without a budget, the shape read as it was written is the shape itself exactly when every place that the
   * document shows has the keywords its shape gives it.
   */
  lemma FaithfulExactly(p: GroundedPlan, root: TypeNode, shown: set<Keyword>)
    requires p.maxDepth.None? && Known(p, root)
    ensures SameTrees(p, root, 0, shown) <==> Faithful(p, root, shown)
  {
    if Faithful(p, root, shown) {
      forall n: nat ensures SameTree(p, root, 0, n, shown) { FaithfulAgrees(p, root, n, shown); }
    }
    if SameTrees(p, root, 0, shown) {
      TreesGive(p, root, 0, shown);
      LevelsAreFaithful(p, root, 0, shown);
      forall key | key in p.graph && Visible(p, root, key) ensures KeyFaithful(p, key, shown) {
        var path :| path != [] && path[0] in Inside(root) && path[|path| - 1] == key && Leads(p, path);
        var depth := PathSame(p, root, shown, path);
        KeyIsFaithful(p, key, depth, shown);
      }
    }
  }


  // Which constraints survive beside a `$ref`.

  /** A bare `$ref` has no type, so keywords that depend on the target's type are misplaced or lost on it. */
  predicate SurvivesHoisting(t: Option<JsonType>, c: Constraints) {
    && (t == Some(ArrayType) ==> c.minSize.None? && c.maxSize.None?)
    && (t == Some(IntegerType) || t == Some(NumberType) ==> c.minimum.None? && c.maximum.None?)
    && (t == Some(StringType) ==> c.pattern.None? && c.format.None?)
  }

  lemma SurvivorsRead(t: Option<JsonType>, facets: Facets, m: Member)
    requires m.constraints.Some? ==> SurvivesHoisting(t, m.constraints.value)
    ensures Annotate(None, facets, m.description, m.constraints) == Annotate(t, facets, m.description, m.constraints)
  {
  }

  /** On a type with no keywords of its own, constraints read from beside its `$ref` exactly when they survive. */
  lemma KeywordsSurviveExactly(t: Option<JsonType>, description: Option<Text>, c: Constraints)
    ensures Annotate(None, map[], description, Some(c)) == Annotate(t, map[], description, Some(c)) <==>
      SurvivesHoisting(t, c)
  {
    var onRef := Annotate(None, map[], description, Some(c));
    var inline := Annotate(t, map[], description, Some(c));
    if t == Some(ArrayType) {
      assert MinItems !in onRef && MaxItems !in onRef;
      assert (MinItems in inline <==> c.minSize.Some?) && (MaxItems in inline <==> c.maxSize.Some?);
    } else if t == Some(IntegerType) || t == Some(NumberType) {
      assert Minimum !in onRef && Maximum !in onRef;
      assert (Minimum in inline <==> c.minimum.Some?) && (Maximum in inline <==> c.maximum.Some?);
    } else if t == Some(StringType) {
      assert Pattern !in onRef && Format !in onRef;
      assert (Pattern in inline <==> c.pattern.Some?) && (Format in inline <==> c.format.Some?);
    }
  }

  const EVERY_KEYWORD: set<Keyword> :=
    {Description, MinItems, MaxItems, MinLength, MaxLength, Minimum, Maximum, Pattern, Format}

  lemma EveryKeyword(k: Keyword)
    ensures k in EVERY_KEYWORD
  {
    match k
    case Description => case MinItems => case MaxItems => case MinLength => case MaxLength =>
    case Minimum => case Maximum => case Pattern => case Format =>
  }

  lemma ShownAll(facets: Facets)
    ensures Shown(facets, EVERY_KEYWORD) == facets
  {
    forall k: Keyword ensures k in EVERY_KEYWORD { EveryKeyword(k); }
  }

  /**
   * A constrained member of a shared type with no keywords of its own is faithful exactly when its
   * constraints survive.
   */
  lemma SharedMemberExactly(p: GroundedPlan, m: Member)
    requires Known(p, m.nodeType) && LeadsToShared(p, m.nodeType) && m.constraints.Some?
    requires Keywords(p, m.nodeType, AsWritten(EVERY_KEYWORD)) == map[]
      == Keywords(p, m.nodeType, AsShaped(EVERY_KEYWORD))
    ensures MemberFaithful(p, m, EVERY_KEYWORD) <==> SurvivesHoisting(EndType(p, m.nodeType), m.constraints.value)
  {
    KeywordsSurviveExactly(EndType(p, m.nodeType), m.description, m.constraints.value);
    ShownAll(Annotate(None, map[], m.description, m.constraints));
    ShownAll(Annotate(EndType(p, m.nodeType), map[], m.description, m.constraints));
  }

  ghost predicate MemberSurvives(p: GroundedPlan, m: Member)
    requires Known(p, m.nodeType)
  {
    m.constraints.Some? && LeadsToShared(p, m.nodeType) ==>
      SurvivesHoisting(EndType(p, m.nodeType), m.constraints.value)
  }

  ghost predicate KeySurvives(p: GroundedPlan, key: Text)
    requires key in p.graph
  {
    key in p.types ==>
      if Unwraps(p, key) then (MemberKnown(p, key, OnlyMember(p, key)); MemberSurvives(p, OnlyMember(p, key)))
      else forall m :: m in KeptOf(p, key) && Stands(KeptOf(p, key), m) ==>
        (MemberKnown(p, key, m); MemberSurvives(p, m))
  }

  /** Every constrained member that the document shows on a shared type survives there. */
  ghost predicate Survivors(p: GroundedPlan, root: TypeNode) {
    forall key :: key in p.graph && Visible(p, root, key) ==> KeySurvives(p, key)
  }

  ghost predicate Surviving(p: GroundedPlan, keys: set<Text>) {
    keys <= p.graph.Keys && forall k :: k in keys ==> KeySurvives(p, k) && ShownRefs(p, k) <= keys
  }

  lemma SurvivingNoted(p: GroundedPlan, m: Member, shown: set<Keyword>)
    requires Known(p, m.nodeType) && MemberSurvives(p, m)
    requires Keywords(p, m.nodeType, AsWritten(shown)) == Keywords(p, m.nodeType, AsShaped(shown))
    ensures Noted(p, m, AsWritten(shown)) == Noted(p, m, AsShaped(shown))
  {
    if LeadsToShared(p, m.nodeType) {
      SurvivorsRead(EndType(p, m.nodeType), Keywords(p, m.nodeType, AsShaped(shown)), m);
    }
  }

  lemma {:induction false} ChainSurvives(p: GroundedPlan, node: TypeNode, shown: set<Keyword>, keys: set<Text>)
    requires Known(p, node) && Inside(node) <= keys && Surviving(p, keys)
    ensures Keywords(p, node, AsWritten(shown)) == Keywords(p, node, AsShaped(shown))
    decreases WrapRank(p, node)
  {
    match node
    case RefNode(Some(key)) =>
      assert key in Refs(node) && key in Inside(node);
      if key in p.types && Unwraps(p, key) {
        WrapStepShrinks(p, key);
        ChainSurvives(p, OnlyMember(p, key).nodeType, shown, keys);
        SurvivingNoted(p, OnlyMember(p, key), shown);
      }
    case _ =>
  }

  lemma {:induction false} LevelsSurvive(p: GroundedPlan, node: TypeNode, shown: set<Keyword>, keys: set<Text>)
    requires Known(p, node) && Inside(node) <= keys && Surviving(p, keys)
    ensures LevelsFaithful(p, node, shown)
    decreases node
  {
    match node
    case MapNode(names, Some(values)) =>
      if !(names.Some? && !names.value.writable) {
        ChainSurvives(p, values, shown, keys);
        LevelsSurvive(p, values, shown, keys);
      }
    case ArrayNode(Some(items)) =>
      ChainSurvives(p, items, shown, keys);
      LevelsSurvive(p, items, shown, keys);
    case _ =>
  }

  lemma KeySurvivesFaithfully(p: GroundedPlan, key: Text, shown: set<Keyword>, keys: set<Text>)
    requires key in keys && Surviving(p, keys)
    ensures KeyFaithful(p, key, shown)
  {
    if key in p.types {
      if Unwraps(p, key) {
        MemberKnown(p, key, OnlyMember(p, key));
        LevelsSurvive(p, OnlyMember(p, key).nodeType, shown, keys);
      } else {
        forall m | m in KeptOf(p, key) && Stands(KeptOf(p, key), m)
          ensures Known(p, m.nodeType) && MemberFaithful(p, m, shown) {
          MemberKnown(p, key, m);
          assert forall x :: x in Inside(m.nodeType) ==> x in ShownRefs(p, key);
          ChainSurvives(p, m.nodeType, shown, keys);
          SurvivingNoted(p, m, shown);
          LevelsSurvive(p, m.nodeType, shown, keys);
        }
      }
    }
  }

  /** A description never hurts, nor does a constraint that needs no type: then every keyword is read faithfully. */
  lemma SurvivorsAreFaithful(p: GroundedPlan, root: TypeNode, shown: set<Keyword>)
    requires Known(p, root) && Survivors(p, root)
    ensures Faithful(p, root, shown)
  {
    var keys := set k | k in p.graph && Visible(p, root, k);
    InsideKnown(p, root);
    forall k | k in Inside(root) ensures k in keys { assert Leads(p, [k]) && [k][0] in Inside(root); }
    forall k, x | k in keys && x in ShownRefs(p, k) ensures x in keys { VisibleStep(p, root, k, x); ShownKnown(p, k); }
    ChainSurvives(p, root, shown, keys);
    LevelsSurvive(p, root, shown, keys);
    forall key | key in p.graph && Visible(p, root, key) ensures KeyFaithful(p, key, shown) {
      KeySurvivesFaithfully(p, key, shown, keys);
    }
  }
}
