/** What the diagnostics of a run say: nothing is cut off or renamed without a report, nor reported without it. */
module SchemaBudget {
  import opened Wrappers
  import opened Digraph
  import opened TypeShapes
  import opened SchemaEmission
  import opened SchemaCounting
  import opened SchemaNames
  import opened SchemaPlans
  import opened SchemaWriter

  lemma {:induction false} FreeIsSound(p: SoundPlan)
    ensures Sound(p.(maxDepth := None))
  {
    var q := p.(maxDepth := None);
    forall k | k in q.graph ensures Recorded(q, k) { assert Recorded(p, k); }
  }

  /** The plan with no depth budget. */
  function Free(p: SoundPlan): SoundPlan {
    FreeIsSound(p);
    p.(maxDepth := None)
  }

  // No report of a cut: nothing was cut.

  lemma {:induction false} NodeUncut(p: SoundPlan, node: TypeNode, depth: nat)
    requires Known(p, node) && DepthTruncated !in EmitNode(p, node, depth).reports
    ensures EmitNode(Free(p), node, depth) == EmitNode(p, node, depth)
    decreases Rank(p, node), NodeSize(node), 1
  {
    match node
    case MapNode(keys, Some(values)) =>
      if !(keys.Some? && !keys.value.writable) { BelowUncut(p, values, depth); }
    case ArrayNode(Some(items)) => BelowUncut(p, items, depth);
    case RefNode(Some(key)) =>
      assert key in Refs(node);
      if key !in p.hoisted { BodyUncut(p, key, depth); }
    case _ =>
  }

  lemma {:induction false} BelowUncut(p: SoundPlan, node: TypeNode, depth: nat)
    requires Known(p, node) && DepthTruncated !in Descend(p, node, depth).reports
    ensures Descend(Free(p), node, depth) == Descend(p, node, depth)
    decreases Rank(p, node), NodeSize(node), 2
  {
    NodeUncut(p, node, depth + 1);
  }

  lemma {:induction false} BodyUncut(p: SoundPlan, key: Text, depth: nat)
    requires key in p.graph && DepthTruncated !in EmitBody(p, key, depth).reports
    ensures EmitBody(Free(p), key, depth) == EmitBody(p, key, depth)
    decreases |ReachSet(p.graph, key)| + 1, 0, if key in p.types then |p.types[key].members| + 1 else 0
  {
    if key in p.types {
      var members := Selected(p.dropReadOnly, p.types[key].members);
      if p.types[key].wrapper && |members| == 1 {
        RankDrops(p, key, members[0]);
        NodeUncut(p, members[0].nodeType, depth);
      } else {
        SelectedShorter(p, p.types[key].members);
        MembersUncut(p, key, members, depth);
      }
    }
  }

  lemma {:induction false} MembersUncut(p: SoundPlan, key: Text, members: seq<Member>, depth: nat)
    requires key in p.graph && key in p.types
    requires forall m :: m in members ==> m in p.types[key].members
    requires DepthTruncated !in EmitMembers(p, key, members, depth).reports
    ensures EmitMembers(Free(p), key, members, depth) == EmitMembers(p, key, members, depth)
    decreases |ReachSet(p.graph, key)| + 1, 0, |members|
  {
    if members != [] {
      var last := members[|members| - 1];
      RankDrops(p, key, last);
      MembersUncut(p, key, members[..|members| - 1], depth);
      BelowUncut(p, last.nodeType, depth);
    }
  }

  lemma {:induction false} DefinitionsUncut(p: SoundPlan, order: seq<Text>)
    requires DepthTruncated !in DefineAll(p, order).reports
    ensures DefineAll(Free(p), order) == DefineAll(p, order)
  {
    if order != [] {
      var key := order[|order| - 1];
      DefinitionsUncut(p, order[..|order| - 1]);
      if key in p.hoisted { BodyUncut(p, key, 0); }
    }
  }

  lemma {:induction false} RootUncut(p: SoundPlan, root: TypeNode)
    requires Known(p, root) && DepthTruncated !in EmitRoot(p, root).reports
    ensures EmitRoot(Free(p), root) == EmitRoot(p, root)
  {
    match root
    case RefNode(Some(key)) => assert key in Refs(root); BodyUncut(p, key, 0);
    case _ => NodeUncut(p, root, 0);
  }

  // No budget: no report of a cut.

  lemma {:induction false} NodeFree(p: SoundPlan, node: TypeNode, depth: nat)
    requires Known(p, node) && p.maxDepth.None?
    ensures DepthTruncated !in EmitNode(p, node, depth).reports
    decreases Rank(p, node), NodeSize(node), 1
  {
    match node
    case MapNode(_, Some(values)) => NodeFree(p, values, depth + 1);
    case ArrayNode(Some(items)) => NodeFree(p, items, depth + 1);
    case RefNode(Some(key)) =>
      assert key in Refs(node);
      if key !in p.hoisted { BodyFree(p, key, depth); }
    case _ =>
  }

  lemma {:induction false} BodyFree(p: SoundPlan, key: Text, depth: nat)
    requires key in p.graph && p.maxDepth.None?
    ensures DepthTruncated !in EmitBody(p, key, depth).reports
    decreases |ReachSet(p.graph, key)| + 1, 0, if key in p.types then |p.types[key].members| + 1 else 0
  {
    if key in p.types {
      var members := Selected(p.dropReadOnly, p.types[key].members);
      if p.types[key].wrapper && |members| == 1 {
        RankDrops(p, key, members[0]);
        NodeFree(p, members[0].nodeType, depth);
      } else {
        SelectedShorter(p, p.types[key].members);
        MembersFree(p, key, members, depth);
      }
    }
  }

  lemma {:induction false} MembersFree(p: SoundPlan, key: Text, members: seq<Member>, depth: nat)
    requires key in p.graph && key in p.types && p.maxDepth.None?
    requires forall m :: m in members ==> m in p.types[key].members
    ensures DepthTruncated !in EmitMembers(p, key, members, depth).reports
    decreases |ReachSet(p.graph, key)| + 1, 0, |members|
  {
    if members != [] {
      var last := members[|members| - 1];
      RankDrops(p, key, last);
      MembersFree(p, key, members[..|members| - 1], depth);
      NodeFree(p, last.nodeType, depth + 1);
    }
  }

  lemma {:induction false} DefinitionsFree(p: SoundPlan, order: seq<Text>)
    requires p.maxDepth.None?
    ensures DepthTruncated !in DefineAll(p, order).reports
  {
    if order != [] {
      var key := order[|order| - 1];
      DefinitionsFree(p, order[..|order| - 1]);
      if key in p.hoisted { BodyFree(p, key, 0); }
    }
  }

  lemma {:induction false} NamesUncut(types: map<Text, Declared>, order: seq<Text>)
    ensures forall code :: code in NameReports(types, order) ==> code == DefNameDisambiguated
  {
    if order != [] { NamesUncut(types, order[..|order| - 1]); }
  }

  lemma {:induction false} RunFree(p: SoundPlan, root: TypeNode, order: seq<Text>)
    requires Known(p, root) && p.maxDepth.None?
    ensures DepthTruncated !in Simplified(p, root, order).diagnostics
  {
    NamesUncut(p.types, order);
    DefinitionsFree(p, order);
    if root.RefNode? && root.target.Some? {
      assert root.target.value in Refs(root);
      BodyFree(p, root.target.value, 0);
    } else {
      NodeFree(p, root, 0);
    }
  }

  /** A run under a budget gives what the run without one gives exactly when it reports no cut. */
  lemma {:induction false} CutExactly(p: SoundPlan, root: TypeNode, order: seq<Text>)
    requires Known(p, root)
    ensures Simplified(p, root, order) == Simplified(Free(p), root, order)
      <==> DepthTruncated !in Simplified(p, root, order).diagnostics
  {
    RunFree(Free(p), root, order);
    if DepthTruncated !in Simplified(p, root, order).diagnostics {
      RootUncut(p, root);
      DefinitionsUncut(p, order);
    }
  }

  /** For a shape: a budget changes nothing exactly when the diagnostics name no cut. */
  lemma {:induction false} BudgetExactly(shape: TypeShape, drop: bool, budget: Option<nat>)
    returns (p: SoundPlan, whole: SoundPlan)
    ensures p == PlanFor(shape, drop, budget) && whole == PlanFor(shape, drop, None)
    ensures Known(p, shape.root) && Known(whole, shape.root)
    ensures Simplified(p, shape.root, OrderOf(shape)) == Simplified(whole, shape.root, OrderOf(shape))
      <==> DepthTruncated !in Simplified(p, shape.root, OrderOf(shape)).diagnostics
  {
    PlanIsSound(shape, drop, budget);
    p := PlanFor(shape, drop, budget);
    whole := Free(p);
    CutExactly(p, shape.root, OrderOf(shape));
  }

  // Renamed definitions.

  /** The places whose key did not get its simple name. */
  function Renamed(types: map<Text, Declared>, order: seq<Text>): set<nat> {
    set i: nat | i < |order| && NameAt(types, order, i) != Base(types, order[i])
  }

  lemma {:induction false} RenamedNext(types: map<Text, Declared>, order: seq<Text>)
    requires order != []
    ensures var earlier, key := order[..|order| - 1], order[|order| - 1];
      Renamed(types, order) == Renamed(types, earlier)
        + (if Claims(types, earlier, Base(types, key)) == 0 then {} else {|order| - 1})
  {
    var earlier, last := order[..|order| - 1], |order| - 1;
    forall i: nat ensures i in Renamed(types, order)
      <==> i in Renamed(types, earlier) || (i == last && Claims(types, earlier, Base(types, order[last])) != 0)
    {
      if i < last { assert order[..i] == earlier[..i]; }
    }
  }

  /** Every renamed definition is reported once, and nothing else is. */
  lemma {:induction false} RenamesReported(types: map<Text, Declared>, order: seq<Text>)
    ensures |NameReports(types, order)| == |Renamed(types, order)|
  {
    if order == [] {
      assert Renamed(types, order) == {};
    } else {
      RenamesReported(types, order[..|order| - 1]);
      RenamedNext(types, order);
    }
  }
}
