/** What a type shape alone determines of a run: its reference graph, what is hoisted, and the names in order. */
module SchemaPlans {
  import opened Wrappers
  import opened Digraph
  import opened Ordering
  import opened TypeShapes
  import opened SchemaEmission
  import opened SchemaCounting
  import opened SchemaNames

  ghost function AllRefs(shape: TypeShape): set<Text> {
    (set x | x in Refs(shape.root)) + (set k, x | k in shape.types && x in DeclaredRefs(shape.types, k) :: x)
  }

  /** Every declared type's references. */
  ghost function WholeGraph(shape: TypeShape): Graph {
    map k | k in shape.types :: DeclaredRefs(shape.types, k)
  }

  /** A key that the root leads to. */
  ghost predicate Reached(shape: TypeShape, key: Text) {
    key in Refs(shape.root) || exists r :: r in Refs(shape.root) && Reaches(WholeGraph(shape), r, key)
  }

  ghost function ReachedKeys(shape: TypeShape): set<Text> {
    set k | k in AllRefs(shape) && Reached(shape, k)
  }

  ghost function GraphOf(shape: TypeShape): Graph {
    map k | k in ReachedKeys(shape) :: DeclaredRefs(shape.types, k)
  }

  /** A set in ascending order. */
  ghost function Sorted(keys: set<Text>): (r: seq<Text>)
    ensures Lists(r, keys)
  {
    if keys == {} then []
    else
      var key :| key in keys;
      var rest := Sorted(keys - {key});
      SortedMore(rest, keys, key);
      InsertAscending(rest, key)
  }

  lemma SortedMore(rest: seq<Text>, keys: set<Text>, key: Text)
    requires key in keys && Lists(rest, keys - {key})
    ensures Lists(InsertAscending(rest, key), keys)
  {
    EnumeratesMembers(rest, keys - {key});
    InsertKeepsAscending(rest, key);
    InsertHolds(rest, key);
    assert multiset(keys) == multiset(keys - {key}) + multiset{key};
  }

  ghost function UsesOf(shape: TypeShape): multiset<Text> {
    Mentions(shape.root, GraphOf(shape), Sorted(ReachedKeys(shape)))
  }

  /** The hoisting rule. */
  ghost function HoistedOf(shape: TypeShape): set<Text> {
    set k | k in ReachedKeys(shape) && (UsesOf(shape)[k] > 1 || Reaches(GraphOf(shape), k, k))
  }

  ghost function OrderOf(shape: TypeShape): seq<Text> {
    Sorted(HoistedOf(shape))
  }

  /** The plan of a shape's run. */
  ghost function PlanFor(shape: TypeShape, dropReadOnly: bool, maxDepth: Option<nat>): Plan {
    Plan(shape.types, GraphOf(shape), HoistedOf(shape), NameMap(shape.types, OrderOf(shape)), dropReadOnly, maxDepth)
  }

  lemma StepReached(shape: TypeShape, key: Text, next: Text)
    requires Reached(shape, key) && next in DeclaredRefs(shape.types, key)
    ensures Reached(shape, next) && next in AllRefs(shape)
  {
    var g := WholeGraph(shape);
    assert key in shape.types && next in Successors(g, key);
    StepReaches(g, key, next);
    if key !in Refs(shape.root) {
      var r :| r in Refs(shape.root) && Reaches(g, r, key);
      ReachesTransitive(g, r, key, next);
    }
  }

  /** A set that holds the root's references and is closed under references holds every key that the root leads to. */
  lemma ClosedHoldsReached(shape: TypeShape, closed: set<Text>, key: Text)
    requires forall x :: x in Refs(shape.root) ==> x in closed
    requires forall k, x :: k in closed && x in DeclaredRefs(shape.types, k) ==> x in closed
    requires Reached(shape, key)
    ensures key in closed
  {
    if key !in Refs(shape.root) {
      var g := WholeGraph(shape);
      var r :| r in Refs(shape.root) && Reaches(g, r, key);
      var path :| PathBetween(g, path, r, key);
      forall k, x | k in closed && x in Successors(g, k) ensures x in closed {
        assert x in DeclaredRefs(shape.types, k);
      }
      ClosedSetHoldsReached(g, closed, r, path, key);
    }
  }

  /** How often the types of `order` mention a key. */
  function Times(g: Graph, order: seq<Text>, key: Text): nat {
    if order == [] then 0 else Times(g, order[..|order| - 1], key) + Count(Successors(g, order[|order| - 1]), key)
  }

  lemma {:induction false} MentionsTimes(root: TypeNode, g: Graph, order: seq<Text>, key: Text)
    ensures Mentions(root, g, order)[key] == Count(Refs(root), key) + Times(g, order, key)
  {
    if order != [] { MentionsTimes(root, g, order[..|order| - 1], key); }
  }

  lemma TimesLast(g: Graph, a: seq<Text>, x: Text, key: Text)
    ensures Times(g, a + [x], key) == Times(g, a, key) + Count(Successors(g, x), key)
  {
    assert (a + [x])[..|a|] == a;
  }

  lemma {:induction false} TimesAppend(g: Graph, a: seq<Text>, b: seq<Text>, key: Text)
    ensures Times(g, a + b, key) == Times(g, a, key) + Times(g, b, key)
  {
    if b == [] {
      assert a + b == a;
    } else {
      var rest, x := b[..|b| - 1], b[|b| - 1];
      assert b == rest + [x];
      TimesAppend(g, a, rest, key);
      TimesLast(g, a + rest, x, key);
      Regroup(a, rest, [x]);
    }
  }

  lemma TimesOne(g: Graph, x: Text, key: Text)
    ensures Times(g, [x], key) == Count(Successors(g, x), key)
  {
    assert [x][..0] == [];
  }

  lemma WithoutLast(a: seq<Text>, x: Text, rest: multiset<Text>)
    requires a != [] && a[|a| - 1] == x && multiset(a) == rest + multiset{x}
    ensures multiset(a[..|a| - 1]) == rest
  {
    assert a == a[..|a| - 1] + [x];
    assert multiset(a[..|a| - 1]) == multiset(a) - multiset{x};
  }

  lemma CutAt(b: seq<Text>, i: nat)
    requires i < |b|
    ensures b == b[..i] + ([b[i]] + b[i + 1..]) && multiset(b) == multiset(b[..i] + b[i + 1..]) + multiset{b[i]}
  {
    assert b == b[..i] + ([b[i]] + b[i + 1..]);
    assert multiset(b) == multiset(b[..i]) + multiset([b[i]] + b[i + 1..]);
  }

  /** Mentions do not depend on the order of the keys. */
  lemma {:induction false} TimesPermute(g: Graph, a: seq<Text>, b: seq<Text>, key: Text)
    requires multiset(a) == multiset(b)
    ensures Times(g, a, key) == Times(g, b, key)
  {
    if a == [] {
      assert |multiset(b)| == 0;
    } else {
      var x := a[|a| - 1];
      assert x in multiset(a);
      var i :| 0 <= i < |b| && b[i] == x;
      var b1, b2 := b[..i], b[i + 1..];
      CutAt(b, i);
      WithoutLast(a, x, multiset(b1 + b2));
      TimesPermute(g, a[..|a| - 1], b1 + b2, key);
      TimesAppend(g, b1, b2, key);
      TimesAppend(g, b1, [x] + b2, key);
      TimesAppend(g, [x], b2, key);
      TimesOne(g, x, key);
    }
  }

  lemma UsesAre(shape: TypeShape, visited: seq<Text>)
    requires Enumerates(visited, ReachedKeys(shape))
    ensures Mentions(shape.root, GraphOf(shape), visited) == UsesOf(shape)
  {
    var g, order := GraphOf(shape), Sorted(ReachedKeys(shape));
    forall k ensures Mentions(shape.root, g, visited)[k] == Mentions(shape.root, g, order)[k] {
      MentionsTimes(shape.root, g, visited, k);
      MentionsTimes(shape.root, g, order, k);
      TimesPermute(g, visited, order, k);
    }
  }

  lemma PlanIsSound(shape: TypeShape, dropReadOnly: bool, maxDepth: Option<nat>)
    ensures Sound(PlanFor(shape, dropReadOnly, maxDepth))
    ensures Known(PlanFor(shape, dropReadOnly, maxDepth), shape.root)
  {
    var p := PlanFor(shape, dropReadOnly, maxDepth);
    forall k | k in p.graph ensures Recorded(p, k) {
      forall x | x in p.graph[k] ensures x in p.graph { StepReached(shape, k, x); }
    }
    NameMapKeys(shape.types, OrderOf(shape));
    EnumeratesMembers(OrderOf(shape), HoistedOf(shape));
  }

  // Shapes whose root is an object of types without references.

  /** The root refers to `r`, and what `r` refers to refers to nothing. */
  ghost predicate Star(shape: TypeShape, r: Text) {
    shape.root == RefNode(Some(r)) && r in shape.types
    && forall x :: x in DeclaredRefs(shape.types, r) ==> x != r && DeclaredRefs(shape.types, x) == []
  }

  lemma StarReached(shape: TypeShape, r: Text)
    requires Star(shape, r)
    ensures ReachedKeys(shape) == {r} + set x | x in DeclaredRefs(shape.types, r)
  {
    var closed := {r} + set x | x in DeclaredRefs(shape.types, r);
    assert Refs(shape.root) == [r];
    forall k | k in ReachedKeys(shape) ensures k in closed { ClosedHoldsReached(shape, closed, k); }
    forall x | x in DeclaredRefs(shape.types, r) ensures x in ReachedKeys(shape) { StepReached(shape, r, x); }
  }

  lemma {:induction false} StarTimes(r: Text, g: Graph, order: seq<Text>, key: Text)
    requires forall k :: k in order && k != r ==> Successors(g, k) == []
    requires forall k :: multiset(order)[k] <= 1
    ensures Times(g, order, key) == if r in order then Count(Successors(g, r), key) else 0
  {
    if order != [] {
      LastOnce(order);
      StarTimes(r, g, order[..|order| - 1], key);
    }
  }

  lemma StarNoCycle(shape: TypeShape, r: Text, key: Text)
    requires Star(shape, r)
    ensures !Reaches(GraphOf(shape), key, key)
  {
    var g := GraphOf(shape);
    StarReached(shape, r);
    assert r !in Mentioned(g);
    if Reaches(g, key, key) {
      ReachedIsMentioned(g, key, key);
      CycleSteps(g, key);
    }
  }

  lemma CycleSteps(g: Graph, key: Text)
    requires Reaches(g, key, key)
    ensures Successors(g, key) != []
  {
    var path :| PathBetween(g, path, key, key);
    assert path[0 + 1] in Successors(g, path[0]);
  }

  lemma StarUses(shape: TypeShape, r: Text, key: Text)
    requires Star(shape, r)
    ensures UsesOf(shape)[key] == Count(DeclaredRefs(shape.types, r), key) + if key == r then 1 else 0
  {
    var keys, g := ReachedKeys(shape), GraphOf(shape);
    StarReached(shape, r);
    EnumeratesMembers(Sorted(keys), keys);
    forall k ensures multiset(Sorted(keys))[k] <= 1 { assert multiset(Sorted(keys)) == multiset(keys); }
    StarTimes(r, g, Sorted(keys), key);
    MentionsTimes(shape.root, g, Sorted(keys), key);
    assert Refs(shape.root) == [r];
  }

  /** Of a star, what its centre refers to more than once is hoisted. */
  lemma StarHoisted(shape: TypeShape, r: Text, key: Text)
    requires Star(shape, r)
    ensures key in HoistedOf(shape) <==> Count(DeclaredRefs(shape.types, r), key) > 1
  {
    StarReached(shape, r);
    StarUses(shape, r, key);
    StarNoCycle(shape, r, key);
    assert Count(DeclaredRefs(shape.types, r), key) > 0 <==> key in DeclaredRefs(shape.types, r);
  }
}
