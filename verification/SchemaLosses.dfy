/** Two shapes whose documents do not say what the shapes do. */
module SchemaLosses {
  import opened Wrappers
  import opened Digraph
  import opened Ordering
  import opened Decimals
  import opened TypeShapes
  import opened SchemaEmission
  import opened SchemaCounting
  import opened SchemaNames
  import opened SchemaPlans
  import opened SchemaMeaning
  import opened SchemaFaithful
  import opened SchemaWriter

  function Field(name: string, nodeType: TypeNode, constraints: Option<Constraints>): Member {
    Member(Text(name), nodeType, false, false, false, None, constraints)
  }

  function RefField(name: string, key: Text, constraints: Option<Constraints>): Member {
    Field(name, RefNode(Some(key)), constraints)
  }

  // A pattern lost behind a reference.

  function Patterned(pattern: Text): Option<Constraints> {
    Some(Constraints(None, None, None, None, Some(pattern), None))
  }

  /** An object with two members of one wrapped string, of which the first has a pattern. */
  function LossShape(r: Text, w: Text, pattern: Text): TypeShape {
    TypeShape(RefNode(Some(r)),
      map[r := Declared(Text("Order"), false, [RefField("code", w, Patterned(pattern)), RefField("other", w, None)]),
          w := Declared(Text("Code"), true, [Field("value", ScalarNode(Some(StringType), None), None)])])
  }

  lemma {:induction false} PairRefs(a: Member, b: Member, key: Text)
    requires a.nodeType == RefNode(Some(key)) == b.nodeType
    ensures MemberRefs([a, b]) == [key, key]
  {
    assert [a, b][1..] == [b] && [b][1..] == [] && MemberRefs([b]) == [key] + [];
  }

  lemma {:induction false} OneRefs(a: Member)
    requires Refs(a.nodeType) == []
    ensures MemberRefs([a]) == []
  {
    assert [a][1..] == [];
  }

  lemma {:induction false} LossStar(r: Text, w: Text, pattern: Text)
    requires r != w
    ensures var shape := LossShape(r, w, pattern);
      Star(shape, r) && DeclaredRefs(shape.types, r) == [w, w] && HoistedOf(shape) == {w}
  {
    var shape := LossShape(r, w, pattern);
    PairRefs(shape.types[r].members[0], shape.types[r].members[1], w);
    OneRefs(shape.types[w].members[0]);
    forall k ensures k in HoistedOf(shape) <==> k == w {
      StarHoisted(shape, r, k);
      assert multiset([w, w])[w] == 2;
    }
  }

  lemma {:induction false} ClaimsWithin(types: map<Text, Declared>, keys: seq<Text>, base: Text)
    ensures Claims(types, keys, base) <= |keys|
  {
    if keys != [] { ClaimsWithin(types, keys[..|keys| - 1], base); }
  }

  lemma {:induction false} LossNames(r: Text, w: Text, pattern: Text)
    requires r != w
    ensures var shape := LossShape(r, w, pattern); !SuffixTaken(shape.types, OrderOf(shape))
  {
    var shape := LossShape(r, w, pattern);
    LossStar(r, w, pattern);
    EnumeratesMembers(OrderOf(shape), {w});
    forall base ensures Claims(shape.types, OrderOf(shape), base) < 2 {
      ClaimsWithin(shape.types, OrderOf(shape), base);
    }
  }

  lemma {:induction false} NoStepsNoCycle(g: Graph, key: Text)
    requires forall k :: k in g ==> g[k] == []
    ensures !Reaches(g, key, key)
  {
    if Reaches(g, key, key) { CycleSteps(g, key); }
  }

  lemma {:induction false} LossGrounded(r: Text, w: Text, pattern: Text, drop: bool)
    requires r != w
    ensures NoWrapperCycle(PlanFor(LossShape(r, w, pattern), drop, None))
  {
    var p := PlanFor(LossShape(r, w, pattern), drop, None);
    forall k | k in WrapperSteps(p) ensures WrapperSteps(p)[k] == [] { assert k == w; }
    forall k | k in WrapperSteps(p) ensures !Reaches(WrapperSteps(p), k, k) { NoStepsNoCycle(WrapperSteps(p), k); }
  }

  lemma {:induction false} LossReached(r: Text, w: Text, pattern: Text)
    requires r != w
    ensures var g := GraphOf(LossShape(r, w, pattern)); r in g && w in g
  {
    LossStar(r, w, pattern);
    StarReached(LossShape(r, w, pattern), r);
  }

  lemma {:induction false} PlanOf(shape: TypeShape, drop: bool) returns (p: SoundPlan)
    ensures p == PlanFor(shape, drop, None) && p.graph == GraphOf(shape) && p.hoisted == HoistedOf(shape)
    ensures Known(p, shape.root)
  {
    PlanIsSound(shape, drop, None);
    p := PlanFor(shape, drop, None);
  }

  lemma {:induction false} KnownKey(p: SoundPlan, key: Text)
    requires key in p.graph
    ensures Known(p, RefNode(Some(key)))
  {
    assert Refs(RefNode(Some(key))) == [key];
  }

  /** The plan of that shape. */
  lemma {:induction false} LossPlan(r: Text, w: Text, pattern: Text, drop: bool) returns (p: GroundedPlan)
    requires r != w
    ensures p == PlanFor(LossShape(r, w, pattern), drop, None)
    ensures Known(p, RefNode(Some(r))) && Known(p, RefNode(Some(w))) && r in p.graph && w in p.graph && p.hoisted == {w}
  {
    LossGrounded(r, w, pattern, drop);
    LossStar(r, w, pattern);
    LossReached(r, w, pattern);
    p := PlanOf(LossShape(r, w, pattern), drop);
    KnownKey(p, r);
    KnownKey(p, w);
  }

  /** A wrapper of one plain string shows no keyword. */
  lemma {:induction false} PlainWrapper(p: GroundedPlan, w: Text, value: Member, r: Reading)
    requires w in p.graph && w in p.types && p.types[w].wrapper && p.types[w].members == [value]
      && Known(p, RefNode(Some(w)))
    requires value.nodeType == ScalarNode(Some(StringType), None) && !value.readOnly
    requires value.description.None? && value.constraints.None?
    ensures EndType(p, RefNode(Some(w))) == Some(StringType) && Keywords(p, RefNode(Some(w)), r) == map[]
  {
    assert Selected(p.dropReadOnly, [value]) == [value] by { assert [value][1..] == []; }
    assert Unwraps(p, w) && OnlyMember(p, w) == value;
    assert Refs(value.nodeType) == [] && Shown(map[], r.shown) == map[];
    assert EndType(p, value.nodeType) == Some(StringType) && Keywords(p, value.nodeType, r) == map[];
    assert Noted(p, value, r) == map[];
  }

  lemma {:induction false} LossVisible(p: Plan, r: Text)
    ensures Visible(p, RefNode(Some(r)), r)
  {
    assert [r][0] in Inside(RefNode(Some(r))) && Leads(p, [r]);
  }

  /** A visible key where the readings differ: the document does not read as the shape. */
  lemma {:induction false} NotShaped(p: GroundedPlan, root: TypeNode, result: SimplifiedSchema, key: Text,
        shown: set<Keyword>)
    requires Known(p, root) && ReadsBack(p, root, result, shown) && p.maxDepth.None?
    requires key in p.graph && Visible(p, root, key) && !KeyFaithful(p, key, shown)
    ensures !ReadsAs(p, root, result, AsShaped(shown))
  {
  }

  /** The pattern is in the shape, and the document read in full does not have it. */
  lemma {:induction false} PatternLost(r: Text, w: Text, pattern: Text, drop: bool)
    returns (p: GroundedPlan, result: SimplifiedSchema)
    requires r != w
    ensures p == PlanFor(LossShape(r, w, pattern), drop, None) && Known(p, RefNode(Some(r)))
    ensures result == Simplified(p, RefNode(Some(r)), OrderOf(LossShape(r, w, pattern)))
    ensures !ReadsAs(p, RefNode(Some(r)), result, AsShaped({Pattern}))
  {
    var shape, root := LossShape(r, w, pattern), RefNode(Some(r));
    p := LossPlan(r, w, pattern, drop);
    LossNames(r, w, pattern);
    result := Simplified(p, root, OrderOf(shape));
    RunReadsBack(p, root, OrderOf(shape), result, {Pattern});
    LossUnfaithful(p, r, w, pattern);
    LossVisible(p, r);
    NotShaped(p, root, result, r, {Pattern});
  }

  /** A pattern put on a reference to a hoisted plain wrapper is lost. */
  lemma {:induction false} Unfaithful(p: GroundedPlan, r: Text, w: Text, pattern: Text)
    requires r in p.graph && w in p.graph && r in p.types && p.hoisted == {w} && Known(p, RefNode(Some(w)))
    requires p.types[r].members == [RefField("code", w, Patterned(pattern)), RefField("other", w, None)]
    requires EndType(p, RefNode(Some(w))) == Some(StringType)
    requires forall reading :: Keywords(p, RefNode(Some(w)), reading) == map[]
    ensures !KeyFaithful(p, r, {Pattern})
  {
    var code, other := RefField("code", w, Patterned(pattern)), RefField("other", w, None);
    assert Selected(p.dropReadOnly, [code, other]) == [code, other] by {
      assert [code, other][1..] == [other] && [other][1..] == [];
      assert Selected(p.dropReadOnly, [other]) == [other];
    }
    assert KeptOf(p, r) == [code, other] && [code, other][..1] == [code];
    assert Stands([code], code) && other.name != code.name;
    assert Stands([code, other], code);
    assert LeadsToShared(p, code.nodeType);
    assert Pattern !in Noted(p, code, AsWritten({Pattern}));
    assert Pattern in Noted(p, code, AsShaped({Pattern}));
    assert code in KeptOf(p, r);
  }

  lemma {:induction false} LossUnfaithful(p: GroundedPlan, r: Text, w: Text, pattern: Text)
    requires r != w && p.types == LossShape(r, w, pattern).types
    requires r in p.graph && w in p.graph && Known(p, RefNode(Some(w))) && p.hoisted == {w}
    ensures !KeyFaithful(p, r, {Pattern})
  {
    var value := Field("value", ScalarNode(Some(StringType), None), None);
    forall reading ensures Keywords(p, RefNode(Some(w)), reading) == map[] { PlainWrapper(p, w, value, reading); }
    PlainWrapper(p, w, value, AsWritten({}));
    Unfaithful(p, r, w, pattern);
  }

  // A definition overwritten by another of its name.

  /** An object that refers twice to each of three types named Foo, Foo and Foo_2. */
  function RepeatShape(r: Text, a: Text, b: Text, c: Text): TypeShape {
    TypeShape(RefNode(Some(r)),
      map[r := Declared(Text("Holder"), false,
                 [RefField("a1", a, None), RefField("a2", a, None), RefField("b1", b, None), RefField("b2", b, None),
                  RefField("c1", c, None), RefField("c2", c, None)]),
          a := Declared(Text("Foo"), false, []),
          b := Declared(Text("Foo"), false, [Field("only", ScalarNode(Some(StringType), None), None)]),
          c := Declared(Text("Foo_2"), false, [])])
  }

  lemma {:induction false} RefsAppend(m: Member, key: Text, rest: seq<Member>, keys: seq<Text>)
    requires m.nodeType == RefNode(Some(key)) && MemberRefs(rest) == keys
    ensures MemberRefs([m] + rest) == [key] + keys
  {
    assert ([m] + rest)[1..] == rest;
  }

  lemma {:induction false} SixRefs(m: seq<Member>, a: Text, b: Text, c: Text)
    requires |m| == 6 && m[0].nodeType == m[1].nodeType == RefNode(Some(a))
    requires m[2].nodeType == m[3].nodeType == RefNode(Some(b))
    requires m[4].nodeType == m[5].nodeType == RefNode(Some(c))
    ensures MemberRefs(m) == [a, a, b, b, c, c]
  {
    PairRefs(m[4], m[5], c);
    RefsAppend(m[3], b, [m[4], m[5]], [c, c]);
    RefsAppend(m[2], b, [m[3], m[4], m[5]], [b, c, c]);
    assert [m[3]] + [m[4], m[5]] == [m[3], m[4], m[5]] && [m[2]] + [m[3], m[4], m[5]] == m[2..];
    RefsAppend(m[1], a, m[2..], [b, b, c, c]);
    RefsAppend(m[0], a, m[1..], [a, b, b, c, c]);
    assert [m[1]] + m[2..] == m[1..] && [m[0]] + m[1..] == m;
    assert [b] + [b, c, c] == [b, b, c, c] && [a] + [a, b, b, c, c] == [a, a, b, b, c, c];
  }

  ghost predicate Rising(r: Text, a: Text, b: Text, c: Text) {
    Precedes(a, b) && Precedes(b, c) && Precedes(a, c) && a != b && b != c && a != c && r !in {a, b, c}
  }

  lemma {:induction false} RepeatOrder(r: Text, a: Text, b: Text, c: Text)
    requires Rising(r, a, b, c)
    ensures OrderOf(RepeatShape(r, a, b, c)) == [a, b, c] && HoistedOf(RepeatShape(r, a, b, c)) == {a, b, c}
  {
    var shape := RepeatShape(r, a, b, c);
    RepeatStar(r, a, b, c);
    ThriceHoisted(shape, r, a, b, c);
    SortedThree(a, b, c);
  }

  lemma {:induction false} RepeatStar(r: Text, a: Text, b: Text, c: Text)
    requires Rising(r, a, b, c)
    ensures var shape := RepeatShape(r, a, b, c);
      Star(shape, r) && DeclaredRefs(shape.types, r) == [a, a, b, b, c, c]
  {
    var shape := RepeatShape(r, a, b, c);
    SixRefs(shape.types[r].members, a, b, c);
    OneRefs(shape.types[b].members[0]);
  }

  lemma {:induction false} ThriceHoisted(shape: TypeShape, r: Text, a: Text, b: Text, c: Text)
    requires Rising(r, a, b, c) && Star(shape, r) && DeclaredRefs(shape.types, r) == [a, a, b, b, c, c]
    ensures HoistedOf(shape) == {a, b, c}
  {
    forall k ensures k in HoistedOf(shape) <==> k in {a, b, c} {
      StarHoisted(shape, r, k);
      SixCounts(a, b, c, k);
    }
  }

  lemma {:induction false} AscendingMore(x: Text, rest: seq<Text>, all: seq<Text>)
    requires Ascending(rest) && all == [x] + rest && forall k :: k in rest ==> Precedes(x, k)
    ensures Ascending(all)
  {
    assert all[1..] == rest;
  }

  lemma {:induction false} SortedThree(a: Text, b: Text, c: Text)
    requires Precedes(a, b) && Precedes(b, c) && Precedes(a, c) && a != b && b != c && a != c
    ensures Sorted({a, b, c}) == [a, b, c]
  {
    AscendingMore(c, [], [c]);
    AscendingMore(b, [c], [b, c]);
    AscendingMore(a, [b, c], [a, b, c]);
    assert multiset([a, b, c]) == multiset({a, b, c});
    ListingUnique(Sorted({a, b, c}), [a, b, c]);
  }

  lemma {:induction false} SixCounts(a: Text, b: Text, c: Text, k: Text)
    requires a != b && b != c && a != c
    ensures Count([a, a, b, b, c, c], k) == if k in {a, b, c} then 2 else 0
  {
    assert multiset([a, a, b, b, c, c]) == multiset{a, a, b, b, c, c};
  }

  lemma {:induction false} RepeatNames(r: Text, a: Text, b: Text, c: Text)
    requires Rising(r, a, b, c)
    ensures var types := RepeatShape(r, a, b, c).types;
      SuffixTaken(types, [a, b, c])
      && NameMap(types, [a, b, c]) == map[a := Text("Foo"), b := Text("Foo_2"), c := Text("Foo_2")]
  {
    var types := RepeatShape(r, a, b, c).types;
    var order := [a, b, c];
    assert order[..2] == [a, b] && [a, b][..1] == [a] && [a][..0] == [];
    assert Claims(types, [a], Text("Foo")) == 1;
    assert Claims(types, [a, b], Text("Foo")) == 2;
    assert Claims(types, order, Text("Foo")) == 2;
    assert Claims(types, [a], Text("Foo_2")) == 0;
    assert Claims(types, [a, b], Text("Foo_2")) == 0;
    assert Decimal(2) == "2";
    assert Suffixed(Text("Foo"), 2) == Text("Foo_2");
    assert c in order && Base(types, c) == Suffixed(Text("Foo"), 2);
    assert NameMap(types, [a]) == map[a := Text("Foo")];
    assert NameMap(types, [a, b]) == map[a := Text("Foo"), b := Text("Foo_2")];
  }

  /** Of two hoisted keys of one name, the later one's definition stays. */
  lemma {:induction false} LaterStays(p: SoundPlan, order: seq<Text>, b: Text, c: Text)
    requires b in p.hoisted && c in p.hoisted && p.names[b] == p.names[c]
    ensures var bag := DefineAll(p, order + [b, c]).bag;
      p.names[b] in bag && bag[p.names[b]] == EmitBody(p, c, 0).schema
  {
    assert (order + [b, c])[..|order| + 1] == order + [b];
  }

  lemma {:induction false} BodiesDiffer(p: SoundPlan, b: Text, c: Text, only: Member)
    requires b in p.graph && c in p.graph && b in p.types && c in p.types && !p.types[b].wrapper && !p.types[c].wrapper
    requires p.types[b].members == [only] && p.types[c].members == [] && !only.readOnly
    ensures EmitBody(p, b, 0).schema != EmitBody(p, c, 0).schema
  {
    assert Selected(p.dropReadOnly, [only]) == [only] by { assert [only][1..] == []; }
    assert only.name in EmitMembers(p, b, [only], 0).schemas;
    assert only.name !in EmitMembers(p, c, [], 0).schemas;
  }

  lemma {:induction false} RepeatPlan(r: Text, a: Text, b: Text, c: Text, drop: bool) returns (p: SoundPlan)
    requires Rising(r, a, b, c)
    ensures p == PlanFor(RepeatShape(r, a, b, c), drop, None) && p.types == RepeatShape(r, a, b, c).types
    ensures p.hoisted == {a, b, c} && p.names[b] == p.names[c]
  {
    RepeatOrder(r, a, b, c);
    RepeatNames(r, a, b, c);
    p := PlanOf(RepeatShape(r, a, b, c), drop);
  }

  /** The second Foo is renamed onto Foo_2, whose definition takes its place: references to the one read the other. */
  lemma {:induction false} NamesRepeat(r: Text, a: Text, b: Text, c: Text, drop: bool) returns (p: SoundPlan)
    requires Rising(r, a, b, c)
    ensures p == PlanFor(RepeatShape(r, a, b, c), drop, None) && OrderOf(RepeatShape(r, a, b, c)) == [a, b, c]
    ensures SuffixTaken(RepeatShape(r, a, b, c).types, [a, b, c])
    ensures b in p.hoisted && c in p.hoisted && p.names[b] == p.names[c]
    ensures var bag := DefineAll(p, [a, b, c]).bag;
      p.names[b] in bag && bag[p.names[b]] == EmitBody(p, c, 0).schema != EmitBody(p, b, 0).schema
  {
    RepeatOrder(r, a, b, c);
    RepeatNames(r, a, b, c);
    p := RepeatPlan(r, a, b, c, drop);
    assert [a] + [b, c] == [a, b, c];
    LaterStays(p, [a], b, c);
    BodiesDiffer(p, b, c, Field("only", ScalarNode(Some(StringType), None), None));
  }
}
