/** Reference graphs: a finite map from a key to the keys it mentions, in order. */
module Digraph {
  import opened Wrappers

  type Graph = map<Text, seq<Text>>

  function Successors(g: Graph, key: Text): seq<Text> {
    if key in g then g[key] else []
  }

  ghost predicate IsPath(g: Graph, path: seq<Text>) {
    forall i :: 0 <= i < |path| - 1 ==> path[i + 1] in Successors(g, path[i])
  }

  ghost predicate PathBetween(g: Graph, path: seq<Text>, from: Text, target: Text) {
    |path| >= 2 && path[0] == from && path[|path| - 1] == target && IsPath(g, path)
  }

  /** `target` can be reached from `from` in one step or more. */
  ghost predicate Reaches(g: Graph, from: Text, target: Text) {
    exists path :: PathBetween(g, path, from, target)
  }

  /** Every key that some key mentions. */
  ghost function Mentioned(g: Graph): set<Text> {
    set k, x | k in g && x in g[k] :: x
  }

  ghost function ReachSet(g: Graph, from: Text): set<Text> {
    set x | x in Mentioned(g) && Reaches(g, from, x)
  }

  lemma StepReaches(g: Graph, from: Text, next: Text)
    requires next in Successors(g, from)
    ensures Reaches(g, from, next)
  {
    assert PathBetween(g, [from, next], from, next);
  }

  lemma ReachesTransitive(g: Graph, a: Text, b: Text, c: Text)
    requires Reaches(g, a, b) && Reaches(g, b, c)
    ensures Reaches(g, a, c)
  {
    var p :| PathBetween(g, p, a, b);
    var q :| PathBetween(g, q, b, c);
    var r := p + q[1..];
    forall i | 0 <= i < |r| - 1
      ensures r[i + 1] in Successors(g, r[i])
    {
      if i >= |p| - 1 {
        assert r[i] == q[i - |p| + 1] && r[i + 1] == q[i - |p| + 2];
      }
    }
    assert PathBetween(g, r, a, c);
  }

  lemma ReachedIsMentioned(g: Graph, from: Text, target: Text)
    requires Reaches(g, from, target)
    ensures target in Mentioned(g)
  {
    var p :| PathBetween(g, p, from, target);
    assert p[|p| - 2 + 1] in Successors(g, p[|p| - 2]);
  }

  /** A set that holds the successors of `from` and is closed under successors holds all `from` reaches. */
  lemma ClosedSetHoldsReached(g: Graph, closed: set<Text>, from: Text, path: seq<Text>, target: Text)
    requires forall x :: x in Successors(g, from) ==> x in closed
    requires forall k, x :: k in closed && x in Successors(g, k) ==> x in closed
    requires PathBetween(g, path, from, target)
    ensures target in closed
    decreases |path|
  {
    assert path[0 + 1] in Successors(g, path[0]);
    if |path| > 2 {
      assert PathBetween(g, path[1..], path[1], target);
      ClosedSetHoldsReached(g, closed, path[1], path[1..], target);
    }
  }

  /**
   * Stepping to a key that lies on no cycle loses that key from the reachable set. This is what makes
   * a recursion that stops at keys on a cycle terminate.
   */
  lemma AcyclicStepShrinks(g: Graph, from: Text, next: Text)
    requires next in Successors(g, from)
    requires !Reaches(g, next, next)
    ensures ReachSet(g, next) < ReachSet(g, from)
    ensures |ReachSet(g, next)| < |ReachSet(g, from)|
  {
    StepReaches(g, from, next);
    ReachedIsMentioned(g, from, next);
    forall x | x in ReachSet(g, next)
      ensures x in ReachSet(g, from)
    {
      ReachesTransitive(g, from, next, x);
    }
    assert next in ReachSet(g, from) && next !in ReachSet(g, next);
    SubsetSmaller(ReachSet(g, next), ReachSet(g, from));
  }

  lemma SubsetSmaller(small: set<Text>, large: set<Text>)
    requires small < large
    ensures |small| < |large|
  {
    var rest := large - small;
    assert large == small + rest;
    assert rest != {};
  }

  /** The breadth-first search of `buildReachability`: a queue that may repeat keys, and a set of seen ones. */
  method SearchReaches(g: Graph, from: Text, target: Text) returns (found: bool)
    ensures found <==> Reaches(g, from, target)
  {
    var seen: set<Text> := {};
    var queue := Successors(g, from);
    forall x | x in queue ensures Reaches(g, from, x) { StepReaches(g, from, x); }
    while queue != []
      invariant forall x :: x in queue || x in seen ==> Reaches(g, from, x)
      invariant seen <= Mentioned(g)
      invariant target !in seen
      invariant forall x :: x in Successors(g, from) ==> x in queue || x in seen
      invariant forall k, x :: k in seen && x in Successors(g, k) ==> x in queue || x in seen
      decreases Mentioned(g) - seen, |queue|
    {
      var key := queue[0];
      ghost var before := queue;
      assert forall x :: x in before ==> x == key || x in before[1..];
      queue := queue[1..];
      if key == target {
        return true;
      }
      if key in seen {
        continue;
      }
      ReachedIsMentioned(g, from, key);
      seen := seen + {key};
      forall x | x in Successors(g, key) ensures Reaches(g, from, x) {
        StepReaches(g, key, x);
        ReachesTransitive(g, from, key, x);
      }
      queue := queue + Successors(g, key);
    }
    if Reaches(g, from, target) {
      var path :| PathBetween(g, path, from, target);
      ClosedSetHoldsReached(g, seen, from, path, target);
    }
    return false;
  }
}
