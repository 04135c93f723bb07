/** The shapes whose documents can be read: those without a cycle of wrappers only. */
module SchemaCycles {
  import opened Wrappers
  import opened Digraph
  import opened TypeShapes
  import opened SchemaEmission
  import opened SchemaMeaning
  import opened SchemaFaithful

  lemma {:induction false} WrapperStepIsStep(p: SoundPlan, key: Text, next: Text)
    requires next in Successors(WrapperSteps(p), key)
    ensures key in p.graph && next in Successors(p.graph, key)
  {
    var only := OnlyMember(p, key);
    MemberRefsHold(p.types[key].members, only);
    assert Recorded(p, key) && next in Refs(only.nodeType);
  }

  lemma {:induction false} WrapperCycleHoisted(p: SoundPlan, key: Text)
    requires Reaches(WrapperSteps(p), key, key)
    ensures key in p.hoisted
  {
    var g := WrapperSteps(p);
    var path :| PathBetween(g, path, key, key);
    forall i | 0 <= i < |path| - 1 ensures path[i + 1] in Successors(p.graph, path[i]) {
      WrapperStepIsStep(p, path[i], path[i + 1]);
    }
    assert path[0 + 1] in Successors(p.graph, path[0]);
    assert PathBetween(p.graph, path, key, key);
  }

  /** A cycle whose keys have one step each: the next key is on it too. */
  lemma {:induction false} CycleGoesOn(g: Graph, key: Text) returns (next: Text)
    requires Reaches(g, key, key) && |Successors(g, key)| <= 1
    ensures Successors(g, key) == [next] && Reaches(g, next, next)
  {
    var path :| PathBetween(g, path, key, key);
    next := path[1];
    assert path[0 + 1] in Successors(g, path[0]);
    StepReaches(g, key, next);
    if |path| > 2 {
      assert PathBetween(g, path[1..], next, key);
      ReachesTransitive(g, next, key, next);
    }
  }

  lemma {:induction false} WrapperSchema(p: SoundPlan, key: Text, next: Text)
    requires Successors(WrapperSteps(p), key) == [next] && next in p.hoisted
    ensures key in p.graph && EmitBody(p, key, 0).schema.body == RefBody(p.names[next])
  {
    var only := OnlyMember(p, key);
    RankDrops(p, key, only);
    assert only.nodeType == RefNode(Some(next));
  }

  /** The definitions along a wrapper cycle refer to one another without end. */
  lemma {:induction false} CycleBroken(p: SoundPlan, defs: map<Text, Schema>, key: Text, facets: Facets, n: nat,
        fuel: nat, shown: set<Keyword>)
    requires Defines(p, defs) && Reaches(WrapperSteps(p), key, key) && key in p.hoisted && n > 0
    ensures SchemaTree(defs, Schema(RefBody(p.names[key]), facets), n, fuel, shown) == Broken
    decreases fuel
  {
    if fuel > 0 {
      var next := CycleGoesOn(WrapperSteps(p), key);
      WrapperCycleHoisted(p, next);
      WrapperSchema(p, key, next);
      assert Entry(p, defs, key);
      CycleBroken(p, defs, next, defs[p.names[key]].facets, n, fuel - 1, shown);
    }
  }

  lemma {:induction false} GroundedReads(p: GroundedPlan, defs: map<Text, Schema>, key: Text, shown: set<Keyword>)
    requires Defines(p, defs) && DistinctNames(p) && key in p.hoisted
    ensures SchemaTree(defs, Schema(RefBody(p.names[key]), map[]), 1, |defs|, shown).Tree?
  {
    var d: ReadableDocument := Document(p, defs, shown);
    var node := RefNode(Some(key));
    assert Refs(node) == [key];
    NeedWithinDefs(d, node);
    NodeReads(d, node, 0, 1, |defs|);
    FirstLevel(p, node, 0, 1, AsWritten(shown));
  }

  /** Every definition shows a first level exactly when no cycle is made of wrappers only. */
  lemma {:induction false} ReadableExactly(p: SoundPlan, defs: map<Text, Schema>, shown: set<Keyword>)
    requires Defines(p, defs) && DistinctNames(p)
    ensures NoWrapperCycle(p) <==> forall key :: key in p.hoisted ==>
      SchemaTree(defs, Schema(RefBody(p.names[key]), map[]), 1, |defs|, shown).Tree?
  {
    if NoWrapperCycle(p) {
      forall key | key in p.hoisted
        ensures SchemaTree(defs, Schema(RefBody(p.names[key]), map[]), 1, |defs|, shown).Tree?
      {
        GroundedReads(p, defs, key, shown);
      }
    } else {
      var key :| key in WrapperSteps(p) && Reaches(WrapperSteps(p), key, key);
      WrapperCycleHoisted(p, key);
      CycleBroken(p, defs, key, map[], 1, |defs|, shown);
    }
  }
}
