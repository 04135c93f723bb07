/**
 * The simplifier itself: the reference graph built with a queue, and the writer whose methods fill
 * the hoisted set, the names, the definitions and the diagnostics.
 */
module SchemaWriter {
  import opened Wrappers
  import opened Digraph
  import opened Ordering
  import opened TypeShapes
  import opened SchemaEmission
  import opened SchemaCounting
  import opened SchemaNames
  import opened SchemaPlans
  import opened SchemaMeaning
  import opened SchemaFaithful
  import SchemaValues

  function Bump(uses: map<Text, nat>, key: Text): map<Text, nat> {
    uses[key := (if key in uses then uses[key] else 0) + 1]
  }

  /** `uses` counts what `mentions` holds. */
  ghost predicate Tallies(uses: map<Text, nat>, mentions: multiset<Text>) {
    forall k :: (k in uses <==> k in mentions) && (k in uses ==> uses[k] == mentions[k])
  }

  method BumpAll(uses: map<Text, nat>, refs: seq<Text>, ghost mentions: multiset<Text>) returns (r: map<Text, nat>)
    requires Tallies(uses, mentions)
    ensures Tallies(r, mentions + multiset(refs))
    ensures forall k :: k in uses || k in refs ==> k in r
  {
    r := uses;
    for i := 0 to |refs|
      invariant Tallies(r, mentions + multiset(refs[..i]))
      invariant forall k :: k in uses || k in refs[..i] ==> k in r
    {
      r := Bump(r, refs[i]);
      assert refs[..i + 1] == refs[..i] + [refs[i]];
    }
    assert refs[..|refs|] == refs;
  }

  /** The queue loop's frontier: references recorded, and each known key queued or visited. */
  ghost predicate Frontier(shape: TypeShape, uses: map<Text, nat>, edges: Graph, queue: seq<Text>) {
    && (forall k :: k in edges ==> edges[k] == DeclaredRefs(shape.types, k))
    && (forall x :: x in queue || x in edges ==> x in AllRefs(shape) && x in uses && Reached(shape, x))
    && (forall k, x :: k in edges && x in edges[k] ==> x in edges || x in queue)
    && (forall x :: x in Refs(shape.root) ==> x in edges || x in queue)
  }

  lemma VisitShrinks(shape: TypeShape, edges: Graph, key: Text)
    requires key in AllRefs(shape) && key !in edges
    ensures AllRefs(shape) - edges[key := DeclaredRefs(shape.types, key)].Keys < AllRefs(shape) - edges.Keys
  {
    assert key in AllRefs(shape) - edges.Keys;
  }

  /** `buildGraph`: exactly the keys the root leads to, each visited once; every mention is counted. */
  method BuildGraph(shape: TypeShape) returns (uses: map<Text, nat>, edges: Graph, ghost visited: seq<Text>)
    ensures edges == GraphOf(shape)
    ensures Counted(shape, uses, edges, visited)
    ensures uses.Keys == edges.Keys
  {
    edges := map[];
    visited := [];
    var rootRefs := Refs(shape.root);
    uses := BumpAll(map[], rootRefs, multiset{});
    assert multiset{} + multiset(rootRefs) == Mentions(shape.root, edges, []);
    var queue := rootRefs;
    while queue != []
      invariant Frontier(shape, uses, edges, queue)
      invariant Counted(shape, uses, edges, visited)
      decreases AllRefs(shape) - edges.Keys, |queue|
    {
      var key := queue[0];
      assert key in AllRefs(shape);
      FrontierSkips(shape, uses, edges, queue);
      if key in edges {
        queue := queue[1..];
        continue;
      }
      var refs := DeclaredRefs(shape.types, key);
      VisitShrinks(shape, edges, key);
      var more := CountVisit(shape, uses, edges, visited, key);
      VisitFrontier(shape, uses, edges, queue, more);
      uses := more;
      edges := edges[key := refs];
      visited := visited + [key];
      queue := queue[1..] + refs;
    }
    assert queue == [];
    UsedIsVisited(shape, uses, edges, visited);
    FrontierIsGraph(shape, uses, edges);
  }

  /** When nothing is queued any more, the graph is that of the shape. */
  lemma FrontierIsGraph(shape: TypeShape, uses: map<Text, nat>, edges: Graph)
    requires Frontier(shape, uses, edges, [])
    ensures edges == GraphOf(shape)
  {
    forall k, x | k in edges && x in DeclaredRefs(shape.types, k) ensures x in edges { assert x in edges[k]; }
    forall k | k in ReachedKeys(shape) ensures k in edges { ClosedHoldsReached(shape, edges.Keys, k); }
  }

  /** `visited` lists the graph's keys and `uses` counts every mention among them and the root. */
  ghost predicate Counted(shape: TypeShape, uses: map<Text, nat>, edges: Graph, visited: seq<Text>) {
    forall q {:trigger Asked(q)} :: Asked(q) ==>
      Enumerates(visited, edges.Keys) && Tallies(uses, Mentions(shape.root, edges, visited))
  }

  method CountVisit(shape: TypeShape, uses: map<Text, nat>, edges: Graph, ghost visited: seq<Text>, key: Text)
    returns (more: map<Text, nat>)
    requires Counted(shape, uses, edges, visited) && key !in edges
    ensures Counted(shape, more, edges[key := DeclaredRefs(shape.types, key)], visited + [key])
    ensures forall k :: k in uses || k in DeclaredRefs(shape.types, key) ==> k in more
  {
    assert Asked(true);
    VisitMentions(shape, edges, visited, key);
    more := BumpAll(uses, DeclaredRefs(shape.types, key), Mentions(shape.root, edges, visited));
  }

  lemma FrontierSkips(shape: TypeShape, uses: map<Text, nat>, edges: Graph, queue: seq<Text>)
    requires Frontier(shape, uses, edges, queue) && queue != []
    ensures queue[0] in edges ==> Frontier(shape, uses, edges, queue[1..])
  {
    assert forall x :: x in queue <==> x == queue[0] || x in queue[1..];
  }

  lemma VisitFrontier(shape: TypeShape, uses: map<Text, nat>, edges: Graph, queue: seq<Text>, more: map<Text, nat>)
    requires Frontier(shape, uses, edges, queue) && queue != []
    requires forall k :: k in uses || k in DeclaredRefs(shape.types, queue[0]) ==> k in more
    ensures var refs := DeclaredRefs(shape.types, queue[0]);
      Frontier(shape, more, edges[queue[0] := refs], queue[1..] + refs)
  {
    var key := queue[0];
    var refs := DeclaredRefs(shape.types, key);
    var wider := edges[key := refs];
    var after := queue[1..] + refs;
    assert forall x :: x in queue <==> x == key || x in queue[1..];
    forall x | x in after || x in wider ensures x in AllRefs(shape) && x in more && Reached(shape, x) {
      assert x in refs || x in queue || x in edges;
      if x in refs { StepReached(shape, key, x); }
    }
    forall k, x | k in wider && x in wider[k] ensures x in wider || x in after {
      assert x in refs || x in edges[k];
    }
  }

  lemma VisitMentions(shape: TypeShape, edges: Graph, visited: seq<Text>, key: Text)
    requires Enumerates(visited, edges.Keys) && key !in edges
    ensures var refs := DeclaredRefs(shape.types, key);
      && Enumerates(visited + [key], edges[key := refs].Keys)
      && Mentions(shape.root, edges[key := refs], visited + [key])
         == Mentions(shape.root, edges, visited) + multiset(refs)
  {
    var wider := edges[key := DeclaredRefs(shape.types, key)];
    EnumeratesMembers(visited, edges.Keys);
    MentionsOfSame(shape.root, edges, wider, visited);
    assert (visited + [key])[..|visited|] == visited;
    assert wider.Keys == edges.Keys + {key};
  }

  lemma UsedIsVisited(shape: TypeShape, uses: map<Text, nat>, edges: Graph, visited: seq<Text>)
    requires Frontier(shape, uses, edges, []) && Counted(shape, uses, edges, visited)
    ensures uses.Keys == edges.Keys
  {
    assert Asked(true);
    EnumeratesMembers(visited, edges.Keys);
    forall k ensures k in uses <==> k in edges {
      if k in uses { MentionedIsKnown(shape.root, edges, visited, k); }
    }
  }

  lemma {:induction false} MentionsOfSame(root: TypeNode, g: Graph, h: Graph, order: seq<Text>)
    requires forall k :: k in order ==> Successors(g, k) == Successors(h, k)
    ensures Mentions(root, g, order) == Mentions(root, h, order)
  {
    if order != [] { MentionsOfSame(root, g, h, order[..|order| - 1]); }
  }

  lemma {:induction false} MentionedIsKnown(root: TypeNode, g: Graph, order: seq<Text>, key: Text)
    requires key in Mentions(root, g, order)
    ensures key in Refs(root) || exists k :: k in order && key in Successors(g, k)
  {
    if order != [] && key in Mentions(root, g, order[..|order| - 1]) {
      MentionedIsKnown(root, g, order[..|order| - 1], key);
    }
  }

  /** The constructor's loop: a key used more than once, or reaching itself, is hoisted. */
  method HoistedKeys(uses: map<Text, nat>, edges: Graph) returns (hoisted: set<Text>)
    ensures forall k :: k in hoisted <==> k in uses && (uses[k] > 1 || Reaches(edges, k, k))
  {
    hoisted := {};
    var rest := uses.Keys;
    while rest != {}
      invariant rest <= uses.Keys
      invariant forall k :: k in hoisted <==> k in uses && k !in rest && (uses[k] > 1 || Reaches(edges, k, k))
    {
      var key :| key in rest;
      rest := rest - {key};
      var cyclic := SearchReaches(edges, key, key);
      if uses[key] > 1 || cyclic {
        hoisted := hoisted + {key};
      }
    }
  }

  /** A plan for a root, with the order its keys were visited in and the order they are named in. */
  datatype Run = Run(plan: SoundPlan, root: TypeNode, visited: seq<Text>, order: seq<Text>)

  /** The plan follows the hoisting rule and the naming rule. */
  ghost predicate FollowsRules(r: Run) {
    forall q {:trigger Asked(q)} :: Asked(q) ==> Rules(r)
  }

  ghost predicate Rules(r: Run) {
    && Known(r.plan, r.root) && HoistsByRule(r.plan, r.root, r.visited)
    && Lists(r.order, r.plan.hoisted) && r.plan.names == NameMap(r.plan.types, r.order)
  }

  type RuledRun = r: Run | FollowsRules(r) witness Run(Plan(map[], map[], {}, map[], false, None), UnknownNode, [], [])

  /** What the constructor's queue and loop find. */
  ghost predicate Found(shape: TypeShape, hoisted: set<Text>, visited: seq<Text>) {
    forall q {:trigger Asked(q)} :: Asked(q) ==> hoisted == HoistedOf(shape) && Enumerates(visited, ReachedKeys(shape))
  }

  ghost predicate Drawn(shape: TypeShape, g: Graph) {
    forall q {:trigger Asked(q)} :: Asked(q) ==> g == GraphOf(shape)
  }

  method Analyse(shape: TypeShape) returns (hoisted: set<Text>, ghost visited: seq<Text>)
    ensures Found(shape, hoisted, visited)
  {
    var uses, edges;
    uses, edges, visited := BuildGraph(shape);
    hoisted := HoistedKeys(uses, edges);
    assert Asked(true);
    UsesAre(shape, visited);
    assert forall k :: k in edges <==> k in ReachedKeys(shape);
  }

  lemma RuleHolds(shape: TypeShape, p: SoundPlan, visited: seq<Text>)
    requires p.graph == GraphOf(shape) && p.hoisted == HoistedOf(shape) && Enumerates(visited, ReachedKeys(shape))
    ensures HoistsByRule(p, shape.root, visited)
  {
    UsesAre(shape, visited);
    assert p.graph.Keys == ReachedKeys(shape);
    forall k | k in p.graph ensures HoistedByRule(p, shape.root, visited, k) {}
  }

  /** The run of a shape. */
  lemma RunOf(shape: TypeShape, visited: seq<Text>, hoisted: set<Text>, order: seq<Text>, names: map<Text, Text>,
              dropReadOnly: bool, maxDepth: Option<nat>) returns (run: RuledRun)
    requires Found(shape, hoisted, visited) && Lists(order, hoisted) && names == NameMap(shape.types, order)
    ensures run.plan == Plan(shape.types, run.plan.graph, hoisted, names, dropReadOnly, maxDepth)
      && Drawn(shape, run.plan.graph)
    ensures run.root == shape.root && run.order == order && Known(run.plan, run.root)
  {
    assert Asked(true);
    PlanIsSound(shape, dropReadOnly, maxDepth);
    ListingUnique(order, OrderOf(shape));
    var p: SoundPlan := PlanFor(shape, dropReadOnly, maxDepth);
    RuleHolds(shape, p, visited);
    assert Rules(Run(p, shape.root, visited, order));
    run := Run(p, shape.root, visited, order);
  }

  /** The hoisting rule leaves no choice. */
  lemma HoistedIsPlanned(shape: TypeShape, p: SoundPlan, visited: seq<Text>, key: Text)
    requires p.graph == GraphOf(shape) && HoistsByRule(p, shape.root, visited)
    ensures key in p.hoisted <==> key in HoistedOf(shape)
  {
    assert p.graph.Keys == ReachedKeys(shape);
    UsesAre(shape, visited);
    if key in p.graph { assert HoistedByRule(p, shape.root, visited, key); }
  }

  lemma RunIsPlanned(shape: TypeShape, run: RuledRun)
    requires run.root == shape.root && run.plan.types == shape.types && Drawn(shape, run.plan.graph)
    ensures run.plan == PlanFor(shape, run.plan.dropReadOnly, run.plan.maxDepth) && run.order == OrderOf(shape)
  {
    assert Asked(true);
    forall k ensures k in run.plan.hoisted <==> k in HoistedOf(shape) {
      HoistedIsPlanned(shape, run.plan, run.visited, k);
    }
    assert run.plan.hoisted == HoistedOf(shape);
    ListingUnique(run.order, OrderOf(shape));
  }

  function NameReports(types: map<Text, Declared>, order: seq<Text>): seq<Code> {
    if order == [] then []
    else
      var earlier, key := order[..|order| - 1], order[|order| - 1];
      NameReports(types, earlier)
        + (if Claims(types, earlier, Base(types, key)) == 0 then [] else [DefNameDisambiguated])
  }

  lemma {:induction false} BagEntries(p: SoundPlan, order: seq<Text>, names: set<Text>)
    requires forall k :: k in order ==> k in p.hoisted
    ensures forall k :: k in order ==> p.names[k] in DefineAll(p, order).bag
    ensures DistinctNames(p) ==> forall k {:trigger Entry(p, DefineAll(p, order).bag, k)} :: k in order ==>
      Entry(p, DefineAll(p, order).bag, k)
    ensures forall name :: name in DefineAll(p, order).bag ==> name in p.names.Values
    ensures p.names.Values <= names ==> forall name :: name in DefineAll(p, order).bag ==>
      RefsIn(DefineAll(p, order).bag[name], names)
  {
    if order != [] {
      var key := order[|order| - 1];
      var rest := order[..|order| - 1];
      assert order == rest + [key];
      BagEntries(p, rest, names);
      BodyRefsNamed(p, key, 0);
      if p.names.Values <= names { RefsInMore(EmitBody(p, key, 0).schema, p.names.Values, names); }
      if DistinctNames(p) {
        forall k | k in order ensures Entry(p, DefineAll(p, order).bag, k) {
          assert NamesApart(p, k, key);
          if k != key { assert Entry(p, DefineAll(p, rest).bag, k); }
        }
      }
    }
  }

  lemma {:induction false} RefsInMore(s: Schema, few: set<Text>, many: set<Text>)
    requires RefsIn(s, few) && few <= many
    ensures RefsIn(s, many)
  {
    match s.body
    case ArrayBody(items) => RefsInMore(items, few, many);
    case MapBody(values, _) => RefsInMore(values, few, many);
    case ObjectBody(properties, _) =>
      forall k | k in properties ensures RefsIn(properties[k], many) { RefsInMore(properties[k], few, many); }
    case _ =>
  }

  /** The state of the naming loop after the keys of `order`. */
  ghost predicate NamedSoFar(types: map<Text, Declared>, order: seq<Text>, reported: seq<Code>,
                             claimed: map<Text, nat>, names: map<Text, Text>, reports: seq<Code>)
  {
    claimed == ClaimMap(types, order) && names == NameMap(types, order)
      && reports == reported + NameReports(types, order)
  }

  lemma NamedNext(types: map<Text, Declared>, keys: seq<Text>, i: nat, reported: seq<Code>,
                  claimed: map<Text, nat>, names: map<Text, Text>, reports: seq<Code>)
    requires i < |keys| && NamedSoFar(types, keys[..i], reported, claimed, names, reports)
    ensures var base := Base(types, keys[i]);
      var seen := if base in claimed then claimed[base] else 0;
      var more := claimed[base := seen + 1];
      NamedSoFar(types, keys[..i + 1], reported, more,
                 names[keys[i] := if seen == 0 then base else Suffixed(base, seen + 1)],
                 if seen == 0 then reports else reports + [DefNameDisambiguated])
  {
    ClaimMapCounts(types, keys[..i], Base(types, keys[i]));
    assert keys[..i + 1][..i] == keys[..i] && keys[..i + 1][i] == keys[i];
    assert reports + [] == reports;
  }

  lemma NamedAll(types: map<Text, Declared>, keys: seq<Text>, hoisted: set<Text>, reported: seq<Code>,
                 claimed: map<Text, nat>, names: map<Text, Text>, reports: seq<Code>)
    requires Lists(keys, hoisted) && NamedSoFar(types, keys[..|keys|], reported, claimed, names, reports)
    ensures names == NameMap(types, keys) && names.Keys == hoisted && reports == reported + NameReports(types, keys)
  {
    assert keys[..|keys|] == keys;
    NameMapKeys(types, keys);
    EnumeratesMembers(keys, hoisted);
  }

  datatype SimplifiedSchema = SimplifiedSchema(schema: Schema, defs: map<Text, Schema>, diagnostics: seq<Code>)

  class Writer {
    const shape: TypeShape
    const dropReadOnly: bool
    const maxDepth: Option<nat>
    var diagnostics: seq<Code>
    var defs: map<Text, Schema>
    var hoisted: set<Text>
    var names: map<Text, Text>
    ghost var run: RuledRun
    ghost var written: multiset<Text>

    ghost predicate Valid()
      reads `hoisted, `names, `run
    {
      && run.plan == Plan(shape.types, run.plan.graph, hoisted, names, dropReadOnly, maxDepth)
      && run.root == shape.root
      && Known(run.plan, shape.root)
    }

    constructor (shape: TypeShape, dropReadOnly: bool, maxDepth: Option<nat>)
      ensures Valid()
      ensures this.shape == shape && this.dropReadOnly == dropReadOnly && this.maxDepth == maxDepth
      ensures Drawn(shape, run.plan.graph)
      ensures diagnostics == NameReports(shape.types, run.order)
      ensures defs == map[] && written == multiset{}
    {
      this.shape := shape;
      this.dropReadOnly := dropReadOnly;
      this.maxDepth := maxDepth;
      diagnostics := [];
      defs := map[];
      written := multiset{};
      var found, visited := Analyse(shape);
      hoisted := found;
      new;
      ghost var order := AssignNames();
      assert [] + NameReports(shape.types, order) == NameReports(shape.types, order);
      run := RunOf(shape, visited, hoisted, order, names, dropReadOnly, maxDepth);
    }

    method AssignNames() returns (ghost order: seq<Text>)
      modifies `names, `diagnostics
      ensures Lists(order, hoisted) && names == NameMap(shape.types, order)
      ensures names.Keys == hoisted
      ensures diagnostics == old(diagnostics) + NameReports(shape.types, order)
    {
      var claimed: map<Text, nat> := map[];
      var keys := SortedKeys(hoisted);
      names := map[];
      ghost var reported := diagnostics;
      assert reported + [] == reported;
      for i := 0 to |keys|
        invariant NamedSoFar(shape.types, keys[..i], reported, claimed, names, diagnostics)
      {
        var key := keys[i];
        var base := Base(shape.types, key);
        var seen := if base in claimed then claimed[base] else 0;
        NamedNext(shape.types, keys, i, reported, claimed, names, diagnostics);
        claimed := claimed[base := seen + 1];
        if seen == 0 {
          names := names[key := base];
        } else {
          names := names[key := Suffixed(base, seen + 1)];
          diagnostics := diagnostics + [DefNameDisambiguated];
        }
      }
      NamedAll(shape.types, keys, hoisted, reported, claimed, names, diagnostics);
      order := keys;
    }

    method Node(node: TypeNode, depth: nat) returns (s: Schema)
      requires Valid() && Known(run.plan, node)
      modifies `diagnostics, `written
      ensures s == EmitNode(run.plan, node, depth).schema
      ensures diagnostics == old(diagnostics) + EmitNode(run.plan, node, depth).reports
      ensures written == old(written) + EmitNode(run.plan, node, depth).bodies
      decreases Rank(run.plan, node), NodeSize(node), 1
    {
      match node
      case MapNode(keys, values) =>
        if keys.Some? && !keys.value.writable {
          diagnostics := diagnostics + [UnsupportedDictionaryKey];
          return OPAQUE;
        }
        var inner := OPAQUE;
        if values.Some? {
          inner := Down(values.value, depth);
        }
        s := Schema(MapBody(inner, if keys.None? then None else PropertyNames(keys.value)), map[]);
      case ArrayNode(items) =>
        var inner := OPAQUE;
        if items.Some? {
          inner := Down(items.value, depth);
        }
        s := Schema(ArrayBody(inner), map[]);
      case RefNode(target) =>
        if target.None? {
          diagnostics := diagnostics + [UnreadableShape];
          return OPAQUE;
        }
        assert target.value in Refs(node);
        if target.value in hoisted {
          return Schema(RefBody(names[target.value]), map[]);
        }
        s := BodyOf(target.value, depth);
      case _ =>
        var leaf := EmitLeaf(node);
        diagnostics := diagnostics + leaf.reports;
        s := leaf.schema;
    }

    method Down(node: TypeNode, depth: nat) returns (s: Schema)
      requires Valid() && Known(run.plan, node)
      modifies `diagnostics, `written
      ensures s == Descend(run.plan, node, depth).schema
      ensures diagnostics == old(diagnostics) + Descend(run.plan, node, depth).reports
      ensures written == old(written) + Descend(run.plan, node, depth).bodies
      decreases Rank(run.plan, node), NodeSize(node), 2
    {
      if maxDepth.Some? && depth + 1 >= maxDepth.value {
        diagnostics := diagnostics + [DepthTruncated];
        return OPAQUE;
      }
      s := Node(node, depth + 1);
    }

    method BodyOf(key: Text, depth: nat) returns (s: Schema)
      requires Valid() && key in run.plan.graph
      modifies `diagnostics, `written
      ensures s == EmitBody(run.plan, key, depth).schema
      ensures diagnostics == old(diagnostics) + EmitBody(run.plan, key, depth).reports
      ensures written == old(written) + EmitBody(run.plan, key, depth).bodies
      decreases |ReachSet(run.plan.graph, key)| + 1, 0, if key in shape.types then |shape.types[key].members| + 1 else 0
    {
      if key !in shape.types {
        diagnostics := diagnostics + [UnreadableShape];
        written := written + multiset{key};
        return OPAQUE;
      }
      var members := Selected(dropReadOnly, shape.types[key].members);
      if shape.types[key].wrapper && |members| == 1 {
        RankDrops(run.plan, key, members[0]);
        s := Node(members[0].nodeType, depth);
        s := ApplyConstraints(s, members[0].description, members[0].constraints);
      } else {
        var properties, required := Properties(key, members, depth);
        s := Schema(ObjectBody(properties, required), map[]);
      }
      written := written + multiset{key};
    }

    method Properties(key: Text, members: seq<Member>, depth: nat)
      returns (properties: map<Text, Schema>, required: seq<Text>)
      requires Valid() && key in run.plan.graph && key in shape.types
      requires forall m :: m in members ==> m in shape.types[key].members
      modifies `diagnostics, `written
      ensures properties == EmitMembers(run.plan, key, members, depth).schemas
      ensures required == EmitMembers(run.plan, key, members, depth).required
      ensures diagnostics == old(diagnostics) + EmitMembers(run.plan, key, members, depth).reports
      ensures written == old(written) + EmitMembers(run.plan, key, members, depth).bodies
      decreases |ReachSet(run.plan.graph, key)| + 1, 0, 0
    {
      properties := map[];
      required := [];
      ghost var e := EmitMembers(run.plan, key, [], depth);
      for i := 0 to |members|
        invariant Valid()
        invariant e == EmitMembers(run.plan, key, members[..i], depth)
        invariant properties == e.schemas && required == e.required
        invariant diagnostics == old(diagnostics) + e.reports
        invariant written == old(written) + e.bodies
      {
        var member := members[i];
        RankDrops(run.plan, key, member);
        assert members[..i + 1][..i] == members[..i] && members[..i + 1][i] == member;
        var schema := Down(member.nodeType, depth);
        e := EmitMembers(run.plan, key, members[..i + 1], depth);
        properties := properties[member.name := ApplyConstraints(schema, member.description, member.constraints)];
        if member.required {
          required := required + [member.name];
        }
      }
      assert members[..|members|] == members;
    }

    /** `write`: the root in place, then a body for every hoisted key, filed under its name. */
    method Write() returns (result: SimplifiedSchema)
      requires Valid() && written == multiset{}
      modifies `diagnostics, `written, `defs
      ensures result == SimplifiedSchema(EmitRoot(run.plan, shape.root).schema, DefineAll(run.plan, run.order).bag,
        diagnostics)
      ensures diagnostics == old(diagnostics) + EmitRoot(run.plan, shape.root).reports
        + DefineAll(run.plan, run.order).reports
      ensures written == RunBodies(run.plan, shape.root, run.order)
    {
      var schema: Schema;
      if shape.root.RefNode? && shape.root.target.Some? {
        assert shape.root.target.value in Refs(shape.root);
        schema := BodyOf(shape.root.target.value, 0);
      } else {
        schema := Node(shape.root, 0);
      }
      var keys := SortedKeys(hoisted);
      RunOrder(run, keys);
      assert multiset{} + EmitRoot(run.plan, shape.root).bodies == EmitRoot(run.plan, shape.root).bodies;
      var bag := Definitions(keys);
      result := SimplifiedSchema(schema, bag, diagnostics);
    }

    method Definitions(keys: seq<Text>) returns (bag: map<Text, Schema>)
      requires Valid() && forall k :: k in keys ==> k in hoisted
      modifies `diagnostics, `written, `defs
      ensures bag == DefineAll(run.plan, keys).bag
      ensures diagnostics == old(diagnostics) + DefineAll(run.plan, keys).reports
      ensures written == old(written) + DefineAll(run.plan, keys).bodies
    {
      bag := map[];
      ghost var p := run.plan;
      ghost var reported, bodies := diagnostics, written;
      for i := 0 to |keys|
        invariant Valid() && run.plan == p
        invariant Defined(p, keys[..i], reported, bodies, bag, diagnostics, written)
      {
        var key := keys[i];
        ghost var e := EmitBody(p, key, 0);
        DefinedNext(p, keys, i, reported, bodies, bag, diagnostics, written);
        var body := BodyOf(key, 0);
        defs := defs[key := body];
        bag := bag[names[key] := body];
      }
      assert keys[..|keys|] == keys;
    }
  }

  /** The state of the definition loop after the keys of `order`. */
  ghost predicate Defined(p: SoundPlan, order: seq<Text>, reported: seq<Code>, bodies: multiset<Text>,
                          bag: map<Text, Schema>, reports: seq<Code>, written: multiset<Text>)
  {
    var d := DefineAll(p, order);
    bag == d.bag && reports == reported + d.reports && written == bodies + d.bodies
  }

  lemma DefinedNext(p: SoundPlan, keys: seq<Text>, i: nat, reported: seq<Code>, bodies: multiset<Text>,
                    bag: map<Text, Schema>, reports: seq<Code>, written: multiset<Text>)
    requires i < |keys| && keys[i] in p.hoisted
    requires Defined(p, keys[..i], reported, bodies, bag, reports, written)
    ensures var e := EmitBody(p, keys[i], 0);
      Defined(p, keys[..i + 1], reported, bodies, bag[p.names[keys[i]] := e.schema], reports + e.reports, written
        + e.bodies)
  {
    DefineNext(p, keys, i);
  }

  lemma RunOrder(run: RuledRun, keys: seq<Text>)
    requires Lists(keys, run.plan.hoisted)
    ensures keys == run.order && forall k :: k in keys ==> k in run.plan.hoisted
  {
    assert Asked(true);
    ListingUnique(keys, run.order);
    EnumeratesMembers(keys, run.plan.hoisted);
  }

  /** The document, read for some keywords to any level, is the shape under a reading. */
  ghost predicate ReadsAs(p: GroundedPlan, root: TypeNode, result: SimplifiedSchema, r: Reading)
    requires Known(p, root)
  {
    forall n: nat :: SchemaTree(result.defs, result.schema, n, |result.defs|, r.shown) == TypeTree(p, root, 0, n, r)
  }

  /**
   * For any keywords: the document is the shape as it was written; without a budget it is the shape itself exactly
   * when it is faithful, and so it is when every constraint on a shared type survives there.
   */
  ghost predicate ReadsBack(p: GroundedPlan, root: TypeNode, result: SimplifiedSchema, shown: set<Keyword>)
    requires Known(p, root)
  {
    && ReadsAs(p, root, result, AsWritten(shown))
    && (p.maxDepth.None? ==> (ReadsAs(p, root, result, AsShaped(shown)) <==> Faithful(p, root, shown)))
    && (p.maxDepth.None? && Survivors(p, root) ==> ReadsAs(p, root, result, AsShaped(shown)))
  }

  /** The document admits a value exactly when the shape's own types and constraints do. */
  ghost predicate AdmitsAlike(s: SchemaValues.Sense, p: GroundedPlan, root: TypeNode, result: SimplifiedSchema,
                              v: SchemaValues.Value)
    requires Known(p, root)
  {
    SchemaValues.SchemaAdmits(s, result.defs, result.schema, v, |result.defs|) <==>
      SchemaValues.RootAdmits(s, p, root, v)
  }

  /**
   * The whole run, for every shape: what is written follows from the shape alone, every reference in the document
   * has a definition, no body is written more than twice, and the document reads back and admits the
   * values that the shape admits.
   */
  method SimplifySchema(shape: TypeShape, dropReadOnly: bool, maxDepth: Option<nat>)
    returns (result: SimplifiedSchema, ghost run: RuledRun, ghost written: multiset<Text>)
    ensures run.plan == PlanFor(shape, dropReadOnly, maxDepth) && Known(run.plan, shape.root)
    ensures result == Simplified(run.plan, shape.root, OrderOf(shape))
    ensures RefsIn(result.schema, result.defs.Keys)
    ensures forall name :: name in result.defs ==> RefsIn(result.defs[name], result.defs.Keys)
    ensures forall key :: written[key] <= if RootHoisted(run.plan, shape.root) then 2 else 1
    ensures !SuffixTaken(shape.types, OrderOf(shape)) && NoWrapperCycle(run.plan) ==>
      forall shown :: ReadsBack(run.plan, shape.root, result, shown)
    ensures !SuffixTaken(shape.types, OrderOf(shape)) && NoWrapperCycle(run.plan) ==>
      forall s, v :: AdmitsAlike(s, run.plan, shape.root, result, v)
  {
    var writer := new Writer(shape, dropReadOnly, maxDepth);
    result := writer.Write();
    run, written := writer.run, writer.written;
    RunIsPlanned(shape, run);
    RunRefsNamed(run, result);
    assert Asked(true);
    forall key ensures written[key] <= if RootHoisted(run.plan, shape.root) then 2 else 1 {
      BodiesWrittenAtMostTwice(run.plan, shape.root, run.visited, run.order, key);
    }
    if !SuffixTaken(shape.types, OrderOf(shape)) && NoWrapperCycle(run.plan) {
      forall shown ensures ReadsBack(run.plan, shape.root, result, shown) {
        RunReadsBack(run.plan, shape.root, run.order, result, shown);
      }
      forall s, v ensures AdmitsAlike(s, run.plan, shape.root, result, v) {
        RunAdmits(s, run.plan, shape.root, run.order, result, v);
      }
    }
  }

  /** What a plan's run gives. */
  function Simplified(p: SoundPlan, root: TypeNode, order: seq<Text>): SimplifiedSchema
    requires Known(p, root)
  {
    SimplifiedSchema(EmitRoot(p, root).schema, DefineAll(p, order).bag,
                     NameReports(p.types, order) + EmitRoot(p, root).reports + DefineAll(p, order).reports)
  }

  /** The definitions of a run can be read for its plan. */
  lemma RunReadable(p: GroundedPlan, order: seq<Text>, defs: map<Text, Schema>, shown: set<Keyword>)
    requires Lists(order, p.hoisted) && p.names == NameMap(p.types, order) && !SuffixTaken(p.types, order)
    requires defs == DefineAll(p, order).bag
    ensures Readable(Document(p, defs, shown))
  {
    NamesDistinctExactly(p.types, order);
    DistinctOrderDistinctNames(p, order);
    EnumeratesMembers(order, p.hoisted);
    BagEntries(p, order, {});
    assert Defines(p, defs);
  }

  /** What a run writes admits what its shape admits. */
  lemma RunAdmits(s: SchemaValues.Sense, p: GroundedPlan, root: TypeNode, order: seq<Text>, result: SimplifiedSchema,
        v: SchemaValues.Value)
    requires Known(p, root) && Lists(order, p.hoisted) && p.names == NameMap(p.types, order)
      && !SuffixTaken(p.types, order)
    requires result.schema == EmitRoot(p, root).schema && result.defs == DefineAll(p, order).bag
    ensures AdmitsAlike(s, p, root, result, v)
  {
    RunReadable(p, order, result.defs, {});
    SchemaValues.ReadableIs(p, result.defs);
    SchemaValues.DocumentAdmitsExactly(s, p, result.defs, root, v);
  }

  lemma RunReadsAsWritten(p: GroundedPlan, root: TypeNode, order: seq<Text>, result: SimplifiedSchema,
        shown: set<Keyword>)
    requires Known(p, root) && Lists(order, p.hoisted) && p.names == NameMap(p.types, order)
      && !SuffixTaken(p.types, order)
    requires result.schema == EmitRoot(p, root).schema && result.defs == DefineAll(p, order).bag
    ensures ReadsAs(p, root, result, AsWritten(shown))
  {
    RunReadable(p, order, result.defs, shown);
    var d: ReadableDocument := Document(p, result.defs, shown);
    forall n: nat
      ensures SchemaTree(result.defs, result.schema, n, |result.defs|, shown)
        == TypeTree(p, root, 0, n, AsWritten(shown))
    {
      SimplifiedReadsAsWritten(d, root, n);
    }
  }

  /** A document that reads as written reads as the shape where the two readings are one. */
  lemma ReadsAsShaped(p: GroundedPlan, root: TypeNode, result: SimplifiedSchema, shown: set<Keyword>)
    requires Known(p, root) && ReadsAs(p, root, result, AsWritten(shown))
    ensures ReadsAs(p, root, result, AsShaped(shown)) <==> SameTrees(p, root, 0, shown)
  {
    if ReadsAs(p, root, result, AsShaped(shown)) {
      forall n: nat ensures SameTree(p, root, 0, n, shown) {
        assert SchemaTree(result.defs, result.schema, n, |result.defs|, shown)
          == TypeTree(p, root, 0, n, AsWritten(shown));
      }
    }
    if SameTrees(p, root, 0, shown) {
      forall n: nat
        ensures SchemaTree(result.defs, result.schema, n, |result.defs|, shown)
          == TypeTree(p, root, 0, n, AsShaped(shown))
      {
        assert SameTree(p, root, 0, n, shown);
      }
    }
  }

  lemma RunReadsBack(p: GroundedPlan, root: TypeNode, order: seq<Text>, result: SimplifiedSchema, shown: set<Keyword>)
    requires Known(p, root) && Lists(order, p.hoisted) && p.names == NameMap(p.types, order)
      && !SuffixTaken(p.types, order)
    requires result.schema == EmitRoot(p, root).schema && result.defs == DefineAll(p, order).bag
    ensures ReadsBack(p, root, result, shown)
  {
    RunReadsAsWritten(p, root, order, result, shown);
    ReadsAsShaped(p, root, result, shown);
    if p.maxDepth.None? {
      FaithfulExactly(p, root, shown);
      if Survivors(p, root) { SurvivorsAreFaithful(p, root, shown); }
    }
  }

  lemma RunRefsNamed(run: RuledRun, result: SimplifiedSchema)
    requires Known(run.plan, run.root)
    requires result.schema == EmitRoot(run.plan, run.root).schema && result.defs == DefineAll(run.plan, run.order).bag
    ensures RefsIn(result.schema, result.defs.Keys)
    ensures forall name :: name in result.defs ==> RefsIn(result.defs[name], result.defs.Keys)
  {
    assert Asked(true);
    var p, root, order := run.plan, run.root, run.order;
    EnumeratesMembers(order, p.hoisted);
    BagEntries(p, order, result.defs.Keys);
    assert result.defs.Keys == p.names.Values;
    if root.RefNode? && root.target.Some? {
      assert root.target.value in Refs(root);
      BodyRefsNamed(p, root.target.value, 0);
    } else {
      NodeRefsNamed(p, root, 0);
    }
  }

  lemma DistinctOrderDistinctNames(p: SoundPlan, order: seq<Text>)
    requires Lists(order, p.hoisted) && p.names == NameMap(p.types, order) && NamesDistinct(p.types, order)
    ensures DistinctNames(p)
  {
    EnumeratesMembers(order, p.hoisted);
    forall a, b | a in p.hoisted && b in p.hoisted ensures NamesApart(p, a, b) {
      var i := IndexOf(order, a);
      var j := IndexOf(order, b);
      NameMapAt(p.types, order, i);
      NameMapAt(p.types, order, j);
    }
  }

  lemma {:induction false} IndexOf(order: seq<Text>, key: Text) returns (i: nat)
    requires key in order && multiset(order)[key] <= 1
    ensures i < |order| && order[i] == key && forall j :: i < j < |order| ==> order[j] != key
  {
    i :| 0 <= i < |order| && order[i] == key;
    assert order == order[..i + 1] + order[i + 1..];
    assert key in multiset(order[..i + 1]);
    assert multiset(order)[key] == multiset(order[..i + 1])[key] + multiset(order[i + 1..])[key];
    assert key !in order[i + 1..];
    forall j | i < j < |order| ensures order[j] != key {
      assert order[j] == order[i + 1..][j - i - 1];
    }
  }
}
