/** Folding the routes of one operation: what is kept, what is folded away, and what order does not change. */
module Folding {
  import opened Wrappers
  import opened Ordering

  datatype Endpoint = Endpoint(operationId: Option<Text>, container: Option<Text>, verb: Text, route: string)

  /** An item: the object it is, and the endpoint that the selector gives for it. */
  datatype Item = Item(reference: nat, endpoint: Endpoint)

  /** The text functions of the runtime that folding uses: whether a trimmed text is empty, and upper case. */
  datatype Texts = Texts(blank: Text -> bool, upper: Text -> Text)

  datatype Key = Key(container: Text, operation: Text, verb: Text)

  /** The operation an item belongs to; none without an operation id that says something. */
  function KeyOf(t: Texts, x: Item): Option<Key> {
    var e := x.endpoint;
    if e.operationId.None? || t.blank(e.operationId.value) then None
    else Some(Key(e.container.GetOr(Text("")), e.operationId.value, t.upper(e.verb)))
  }

  /** `shorter`: by length, then by character. */
  predicate Shorter(a: string, b: string) {
    if |a| != |b| then |a| < |b| else Less(a, b)
  }

  /** The items of an operation, in order. */
  function Group(t: Texts, items: seq<Item>, k: Key): seq<Item> {
    if items == [] then [] else
      var rest := Group(t, items[..|items| - 1], k);
      if KeyOf(t, items[|items| - 1]) == Some(k) then rest + [items[|items| - 1]] else rest
  }

  /** The first item of a group that no other has a shorter route than. */
  function Best(group: seq<Item>): Item
    requires group != []
  {
    var last := group[|group| - 1];
    if |group| == 1 then last else
      var b := Best(group[..|group| - 1]);
      if Shorter(last.endpoint.route, b.endpoint.route) then last else b
  }

  /** The items without an operation, and the first item of each operation. */
  function Leaders(t: Texts, items: seq<Item>): seq<Item> {
    if items == [] then [] else
      var before, x := items[..|items| - 1], items[|items| - 1];
      var rest := Leaders(t, before);
      if KeyOf(t, x).None? || Group(t, before, KeyOf(t, x).value) == [] then rest + [x] else rest
  }

  /** What stands in the place of a leader. */
  function Representative(t: Texts, items: seq<Item>, x: Item): Item {
    if KeyOf(t, x).None? || Group(t, items, KeyOf(t, x).value) == [] then x
      else Best(Group(t, items, KeyOf(t, x).value))
  }

  function Kept(t: Texts, items: seq<Item>, leaders: seq<Item>): seq<Item> {
    if leaders == [] then [] else [Representative(t, items, leaders[0])] + Kept(t, items, leaders[1..])
  }

  /** The operations that folding leaves. */
  function Folded(t: Texts, items: seq<Item>): seq<Item> {
    Kept(t, items, Leaders(t, items))
  }

  /** The members of a group that are not the kept object. */
  function Others(group: seq<Item>, kept: Item): seq<Item> {
    if group == [] then [] else (if group[0] != kept then [group[0]] else []) + Others(group[1..], kept)
  }

  datatype Fold = Fold(kept: Item, folded: seq<Item>)

  /** The operations led, in order. */
  function KeysOf(t: Texts, leaders: seq<Item>): seq<Key> {
    if leaders == [] then []
      else (if KeyOf(t, leaders[0]).None? then [] else [KeyOf(t, leaders[0]).value]) + KeysOf(t, leaders[1..])
  }

  /** The report on a group, when there is something folded in it. */
  function Report(group: seq<Item>): seq<Fold> {
    if |group| < 2 then [] else [Fold(Best(group), Others(group, Best(group)))]
  }

  function Reports(t: Texts, items: seq<Item>, keys: seq<Key>): seq<Fold> {
    if keys == [] then [] else Report(Group(t, items, keys[0])) + Reports(t, items, keys[1..])
  }

  // Groups and leaders, one item more.

  lemma GroupStep(t: Texts, items: seq<Item>, x: Item, k: Key)
    ensures Group(t, items + [x], k) == if KeyOf(t, x) == Some(k) then Group(t, items, k) + [x] else Group(t, items, k)
  {
    assert (items + [x])[..|items|] == items;
  }

  lemma LeadersStep(t: Texts, items: seq<Item>, x: Item)
    ensures Leaders(t, items + [x])
      == if KeyOf(t, x).None? || Group(t, items, KeyOf(t, x).value) == [] then Leaders(t, items) + [x]
        else Leaders(t, items)
  {
    assert (items + [x])[..|items|] == items;
  }

  lemma {:induction false} GroupMembers(t: Texts, items: seq<Item>, k: Key, x: Item)
    ensures x in Group(t, items, k) <==> x in items && KeyOf(t, x) == Some(k)
  {
    if items != [] {
      GroupMembers(t, items[..|items| - 1], k, x);
      assert items == items[..|items| - 1] + [items[|items| - 1]];
    }
  }

  /** No operation leads twice. */
  ghost predicate OnceKeyed(t: Texts, s: seq<Item>) {
    forall i, j :: 0 <= i < j < |s| && KeyOf(t, s[i]).Some? ==> KeyOf(t, s[i]) != KeyOf(t, s[j])
  }

  lemma {:induction false} LeaderMember(t: Texts, items: seq<Item>, x: Item)
    requires x in Leaders(t, items)
    ensures x in items
  {
    var before := items[..|items| - 1];
    if x in Leaders(t, before) {
      LeaderMember(t, before, x);
    }
  }

  lemma {:induction false} LeadersOnce(t: Texts, items: seq<Item>)
    ensures OnceKeyed(t, Leaders(t, items))
  {
    if items != [] {
      var before, x := items[..|items| - 1], items[|items| - 1];
      LeadersOnce(t, before);
      var rest := Leaders(t, before);
      if KeyOf(t, x).Some? && Group(t, before, KeyOf(t, x).value) == [] {
        forall i | 0 <= i < |rest| ensures KeyOf(t, rest[i]) != KeyOf(t, x) {
          LeaderMember(t, before, rest[i]);
          GroupMembers(t, before, KeyOf(t, x).value, rest[i]);
        }
      }
    }
  }

  /** The place of an operation among the leaders. */
  lemma {:induction false} LeaderOf(t: Texts, items: seq<Item>, k: Key) returns (i: nat)
    requires Group(t, items, k) != []
    ensures i < |Leaders(t, items)| && KeyOf(t, Leaders(t, items)[i]) == Some(k)
  {
    var before := items[..|items| - 1];
    if Group(t, before, k) == [] {
      i := |Leaders(t, before)|;
    } else {
      i := LeaderOf(t, before, k);
    }
  }

  // What is kept.

  lemma {:induction false} KeptAt(t: Texts, items: seq<Item>, leaders: seq<Item>)
    ensures |Kept(t, items, leaders)| == |leaders|
    ensures forall i :: 0 <= i < |leaders| ==> Kept(t, items, leaders)[i] == Representative(t, items, leaders[i])
  {
    if leaders != [] {
      KeptAt(t, items, leaders[1..]);
    }
  }

  /** The kept item is one of its group, no other route is shorter, and among equals it is the first. */
  lemma {:induction false} BestMeans(group: seq<Item>) returns (at: nat)
    requires group != []
    ensures at < |group| && group[at] == Best(group)
    ensures forall j :: 0 <= j < |group| ==> !Shorter(group[j].endpoint.route, Best(group).endpoint.route)
    ensures forall j :: 0 <= j < at ==> Shorter(Best(group).endpoint.route, group[j].endpoint.route)
  {
    var n := |group| - 1;
    if n == 0 {
      at := 0;
      LessIrreflexive(group[0].endpoint.route);
    } else {
      at := BestMeans(group[..n]);
      var b, r := Best(group[..n]).endpoint.route, group[n].endpoint.route;
      LessIrreflexive(r);
      if Shorter(r, b) {
        at := n;
        forall j | 0 <= j < n ensures Shorter(r, group[j].endpoint.route) && !Shorter(group[j].endpoint.route, r) {
          assert group[..n][j] == group[j];
          ShorterLaws(r, b, group[j].endpoint.route);
        }
      }
    }
  }

  /** A route shorter than a shortest is shorter than all. */
  lemma ShorterLaws(r: string, b: string, s: string)
    requires Shorter(r, b) && !Shorter(s, b)
    ensures Shorter(r, s) && !Shorter(s, r)
  {
    if |r| == |b| == |s| {
      LessTotal(b, s);
      if b != s { LessTransitive(r, b, s); }
      if Less(s, r) { LessTransitive(r, s, r); LessIrreflexive(r); }
    }
  }

  lemma ShorterTotal(a: string, b: string)
    requires !Shorter(a, b) && !Shorter(b, a)
    ensures a == b
  {
    LessTotal(a, b);
  }

  /** A representative belongs to the operation it stands for. */
  lemma RepresentativeKey(t: Texts, items: seq<Item>, x: Item)
    ensures KeyOf(t, Representative(t, items, x)) == KeyOf(t, x)
    ensures x in items ==> Representative(t, items, x) in items
  {
    if KeyOf(t, x).Some? && Group(t, items, KeyOf(t, x).value) != [] {
      var g := Group(t, items, KeyOf(t, x).value);
      var at := BestMeans(g);
      GroupMembers(t, items, KeyOf(t, x).value, g[at]);
    }
  }

  // Kept and folded together are the whole.

  lemma {:induction false} OthersNone(group: seq<Item>, kept: Item)
    requires kept !in group
    ensures Others(group, kept) == group
  {
    if group != [] {
      assert group == [group[0]] + group[1..];
      OthersNone(group[1..], kept);
    }
  }

  /** The kept object leaves its group, however often the group holds it. */
  lemma {:induction false} OthersCount(group: seq<Item>, kept: Item)
    ensures multiset(Others(group, kept)) == multiset(group)[kept := 0]
  {
    if group != [] {
      assert group == [group[0]] + group[1..];
      OthersCount(group[1..], kept);
    }
  }

  lemma PutBack(m: multiset<Item>, x: Item)
    ensures multiset{x} + m[x := 0] == m <==> m[x] == 1
  {
    var back := multiset{x} + m[x := 0];
    assert back[x] == 1;
    if m[x] == 1 {
      forall y ensures back[y] == m[y] {}
    }
  }

  /** Kept and folded are the whole group exactly when the kept object is in it once. */
  lemma FoldIsWholeExactly(group: seq<Item>)
    requires group != []
    ensures multiset{Best(group)} + multiset(Others(group, Best(group))) == multiset(group) <==>
      multiset(group)[Best(group)] == 1
  {
    OthersCount(group, Best(group));
    PutBack(multiset(group), Best(group));
  }

  /** What the leaders answer for. */
  function Gathered(t: Texts, items: seq<Item>, leaders: seq<Item>): multiset<Item> {
    if leaders == [] then multiset{} else
      var k := KeyOf(t, leaders[0]);
      (if k.None? then multiset{leaders[0]} else multiset(Group(t, items, k.value))) + Gathered(t, items, leaders[1..])
  }

  ghost predicate Leads(t: Texts, leaders: seq<Item>, k: Key) {
    exists i :: 0 <= i < |leaders| && KeyOf(t, leaders[i]) == Some(k)
  }

  lemma LeadsTail(t: Texts, leaders: seq<Item>, k: Key)
    requires leaders != []
    ensures Leads(t, leaders, k) <==> KeyOf(t, leaders[0]) == Some(k) || Leads(t, leaders[1..], k)
  {
    if Leads(t, leaders[1..], k) {
      var i :| 0 <= i < |leaders[1..]| && KeyOf(t, leaders[1..][i]) == Some(k);
      assert KeyOf(t, leaders[i + 1]) == Some(k);
    }
    if Leads(t, leaders, k) && KeyOf(t, leaders[0]) != Some(k) {
      var i :| 0 <= i < |leaders| && KeyOf(t, leaders[i]) == Some(k);
      assert leaders[1..][i - 1] == leaders[i];
    }
  }

  lemma OnceApart(t: Texts, leaders: seq<Item>)
    requires leaders != [] && OnceKeyed(t, leaders) && KeyOf(t, leaders[0]).Some?
    ensures !Leads(t, leaders[1..], KeyOf(t, leaders[0]).value)
  {
    var rest := leaders[1..];
    forall i | 0 <= i < |rest| ensures KeyOf(t, rest[i]) != KeyOf(t, leaders[0]) { assert rest[i] == leaders[i + 1]; }
  }

  lemma {:induction false} GatheredStep(t: Texts, items: seq<Item>, x: Item, leaders: seq<Item>)
    requires OnceKeyed(t, leaders)
    ensures Gathered(t, items + [x], leaders) == Gathered(t, items, leaders)
      + if KeyOf(t, x).Some? && Leads(t, leaders, KeyOf(t, x).value) then multiset{x} else multiset{}
  {
    if leaders != [] {
      GatheredStep(t, items, x, leaders[1..]);
      if KeyOf(t, x).Some? { LeadsTail(t, leaders, KeyOf(t, x).value); }
      if KeyOf(t, leaders[0]).Some? {
        GroupStep(t, items, x, KeyOf(t, leaders[0]).value);
        OnceApart(t, leaders);
      }
    }
  }

  lemma {:induction false} GatheredLast(t: Texts, items: seq<Item>, leaders: seq<Item>, x: Item)
    ensures Gathered(t, items, leaders + [x]) == Gathered(t, items, leaders)
      + if KeyOf(t, x).None? then multiset{x} else multiset(Group(t, items, KeyOf(t, x).value))
  {
    if leaders == [] {
      assert [] + [x] == [x] && Gathered(t, items, [x][1..]) == multiset{};
    } else {
      GatheredLast(t, items, leaders[1..], x);
      assert (leaders + [x])[1..] == leaders[1..] + [x];
    }
  }

  /** The groups of the leaders, and the items without an operation, are a partition of the items. */
  lemma {:induction false} GatheredAll(t: Texts, items: seq<Item>)
    ensures Gathered(t, items, Leaders(t, items)) == multiset(items)
  {
    if items != [] {
      var before, x := items[..|items| - 1], items[|items| - 1];
      var rest := Leaders(t, before);
      assert items == before + [x];
      GatheredAll(t, before);
      LeadersOnce(t, before);
      GatheredStep(t, before, x, rest);
      LeadsExactly(t, before, x);
      if |Leaders(t, items)| == |rest| + 1 {
        GatheredLast(t, items, rest, x);
        if KeyOf(t, x).Some? { GroupStep(t, before, x, KeyOf(t, x).value); }
      }
    }
  }

  lemma LeadsExactly(t: Texts, items: seq<Item>, x: Item)
    ensures KeyOf(t, x).Some? ==>
      (Leads(t, Leaders(t, items), KeyOf(t, x).value) <==> Group(t, items, KeyOf(t, x).value) != [])
  {
    if KeyOf(t, x).Some? {
      var k := KeyOf(t, x).value;
      if Group(t, items, k) != [] {
        var i := LeaderOf(t, items, k);
      }
      if Leads(t, Leaders(t, items), k) {
        var i :| 0 <= i < |Leaders(t, items)| && KeyOf(t, Leaders(t, items)[i]) == Some(k);
        LeaderMember(t, items, Leaders(t, items)[i]);
        GroupMembers(t, items, k, Leaders(t, items)[i]);
      }
    }
  }

  function FoldedAway(reports: seq<Fold>): seq<Item> {
    if reports == [] then [] else reports[0].folded + FoldedAway(reports[1..])
  }

  ghost predicate NoRepeats(items: seq<Item>) {
    forall x :: multiset(items)[x] <= 1
  }

  lemma {:induction false} GroupWithin(t: Texts, items: seq<Item>, k: Key, x: Item)
    ensures multiset(Group(t, items, k))[x] <= multiset(items)[x]
  {
    if items != [] {
      GroupWithin(t, items[..|items| - 1], k, x);
      assert items == items[..|items| - 1] + [items[|items| - 1]];
    }
  }

  lemma GroupWhole(t: Texts, items: seq<Item>, k: Key)
    requires NoRepeats(items) && Group(t, items, k) != []
    ensures var g := Group(t, items, k);
      multiset{Best(g)} + multiset(Others(g, Best(g))) == multiset(g) && (|g| < 2 ==> Others(g, Best(g)) == [])
  {
    var g := Group(t, items, k);
    var at := BestMeans(g);
    GroupWithin(t, items, k, g[at]);
    assert multiset(g)[g[at]] == 1;
    FoldIsWholeExactly(g);
    assert |multiset{Best(g)} + multiset(Others(g, Best(g)))| == 1 + |Others(g, Best(g))|;
  }

  lemma {:induction false} FoldedAwayAppend(a: seq<Fold>, b: seq<Fold>)
    ensures FoldedAway(a + b) == FoldedAway(a) + FoldedAway(b)
  {
    if a == [] {
      assert a + b == b;
    } else {
      FoldedAwayAppend(a[1..], b);
      assert (a + b)[0] == a[0] && (a + b)[1..] == a[1..] + b;
      Regroup(a[0].folded, FoldedAway(a[1..]), FoldedAway(b));
    }
  }

  /** One group: the kept item and the report on it are the whole. */
  lemma GroupKept(t: Texts, items: seq<Item>, k: Key, rest: seq<Fold>)
    requires NoRepeats(items) && Group(t, items, k) != []
    ensures var g := Group(t, items, k);
      multiset{Best(g)} + multiset(FoldedAway(Report(g) + rest)) == multiset(g) + multiset(FoldedAway(rest))
  {
    var g := Group(t, items, k);
    GroupWhole(t, items, k);
    FoldedAwayAppend(Report(g), rest);
    if |g| >= 2 {
      assert FoldedAway(Report(g)[1..]) == [];
    }
    assert FoldedAway(Report(g)) == Others(g, Best(g));
  }

  lemma AddUp(a: Item, kept: seq<Item>, rest: seq<Item>, all: seq<Item>, group: multiset<Item>)
    requires multiset{a} + multiset(all) == group + multiset(rest)
    ensures multiset([a] + kept) + multiset(all) == group + (multiset(kept) + multiset(rest))
  {
    assert multiset([a] + kept) == multiset{a} + multiset(kept);
    assert multiset([a] + kept) + multiset(all) == (multiset{a} + multiset(all)) + multiset(kept);
    assert group + (multiset(kept) + multiset(rest)) == (group + multiset(rest)) + multiset(kept);
  }

  lemma KeysOfLed(t: Texts, leaders: seq<Item>)
    requires leaders != [] && KeyOf(t, leaders[0]).Some?
    ensures KeysOf(t, leaders) != [] && KeysOf(t, leaders)[0] == KeyOf(t, leaders[0]).value
    ensures KeysOf(t, leaders)[1..] == KeysOf(t, leaders[1..])
  {
    var k, rest := KeyOf(t, leaders[0]).value, KeysOf(t, leaders[1..]);
    assert KeysOf(t, leaders) == [k] + rest && ([k] + rest)[1..] == rest;
  }

  lemma {:induction false} KeptAndFolded(t: Texts, items: seq<Item>, leaders: seq<Item>)
    requires NoRepeats(items) && forall x :: x in leaders ==> x in items
    ensures multiset(Kept(t, items, leaders)) + multiset(FoldedAway(Reports(t, items, KeysOf(t, leaders))))
      == Gathered(t, items, leaders)
  {
    if leaders != [] {
      var x, tail := leaders[0], leaders[1..];
      KeptAndFolded(t, items, tail);
      var rest := Reports(t, items, KeysOf(t, tail));
      var all := Reports(t, items, KeysOf(t, leaders));
      if KeyOf(t, x).Some? {
        KeysOfLed(t, leaders);
        GroupMembers(t, items, KeyOf(t, x).value, x);
        GroupKept(t, items, KeyOf(t, x).value, rest);
        AddUp(Representative(t, items, x), Kept(t, items, tail), FoldedAway(rest), FoldedAway(all),
          multiset(Group(t, items, KeyOf(t, x).value)));
      } else {
        assert KeysOf(t, leaders) == KeysOf(t, tail);
        AddUp(x, Kept(t, items, tail), FoldedAway(rest), FoldedAway(all), multiset{x});
      }
    }
  }

  /** When no object is listed twice, what is kept and what is reported folded are together the items given. */
  lemma NothingLost(t: Texts, items: seq<Item>)
    requires NoRepeats(items)
    ensures multiset(Folded(t, items)) + multiset(FoldedAway(Reports(t, items, KeysOf(t, Leaders(t, items)))))
      == multiset(items)
  {
    forall x | x in Leaders(t, items) ensures x in items { LeaderMember(t, items, x); }
    KeptAndFolded(t, items, Leaders(t, items));
    GatheredAll(t, items);
  }

  // Folding again.

  lemma {:induction false} GroupEmpty(t: Texts, items: seq<Item>, k: Key)
    requires forall i :: 0 <= i < |items| ==> KeyOf(t, items[i]) != Some(k)
    ensures Group(t, items, k) == []
  {
    if items != [] {
      GroupEmpty(t, items[..|items| - 1], k);
    }
  }

  lemma OnceGroup(t: Texts, before: seq<Item>, x: Item)
    requires OnceKeyed(t, before + [x]) && KeyOf(t, x).Some?
    ensures Group(t, before, KeyOf(t, x).value) == []
  {
    var s := before + [x];
    forall i | 0 <= i < |before| ensures KeyOf(t, before[i]) != KeyOf(t, x) {
      assert s[i] == before[i] && s[|before|] == x;
    }
    GroupEmpty(t, before, KeyOf(t, x).value);
  }

  lemma {:induction false} OnceLeaders(t: Texts, s: seq<Item>)
    requires OnceKeyed(t, s)
    ensures Leaders(t, s) == s
  {
    if s != [] {
      var before, x := s[..|s| - 1], s[|s| - 1];
      assert s == before + [x];
      OnceLeaders(t, before);
      if KeyOf(t, x).Some? {
        OnceGroup(t, before, x);
      }
    }
  }

  lemma {:induction false} OnceGroups(t: Texts, s: seq<Item>, i: nat)
    requires OnceKeyed(t, s) && i < |s| && KeyOf(t, s[i]).Some?
    ensures Group(t, s, KeyOf(t, s[i]).value) == [s[i]]
  {
    var before, x := s[..|s| - 1], s[|s| - 1];
    assert s == before + [x];
    GroupStep(t, before, x, KeyOf(t, s[i]).value);
    if i < |before| {
      OnceGroups(t, before, i);
      assert KeyOf(t, s[i]) != KeyOf(t, s[|before|]);
    } else {
      OnceGroup(t, before, x);
    }
  }

  /** Folding twice is folding once. */
  lemma FoldedAgain(t: Texts, items: seq<Item>)
    ensures Folded(t, Folded(t, items)) == Folded(t, items)
  {
    var leaders, f := Leaders(t, items), Folded(t, items);
    LeadersOnce(t, items);
    KeptAt(t, items, leaders);
    forall i | 0 <= i < |f| ensures KeyOf(t, f[i]) == KeyOf(t, leaders[i]) { RepresentativeKey(t, items, leaders[i]); }
    OnceLeaders(t, f);
    KeptAt(t, f, f);
    forall i | 0 <= i < |f| ensures Folded(t, f)[i] == f[i] {
      if KeyOf(t, f[i]).Some? { OnceGroups(t, f, i); }
    }
  }

  // The order of the items does not change what is kept.

  /** The operations kept, each with its route. */
  function KeptRoutes(t: Texts, kept: seq<Item>): seq<(Key, string)> {
    if kept == [] then [] else
      var k := KeyOf(t, kept[0]);
      (if k.None? then [] else [(k.value, kept[0].endpoint.route)]) + KeptRoutes(t, kept[1..])
  }

  lemma {:induction false} KeptRoutesMembers(t: Texts, kept: seq<Item>, p: (Key, string))
    ensures p in KeptRoutes(t, kept) <==>
      exists i :: 0 <= i < |kept| && KeyOf(t, kept[i]) == Some(p.0) && kept[i].endpoint.route == p.1
  {
    if kept != [] {
      KeptRoutesMembers(t, kept[1..], p);
      assert forall i :: 0 <= i < |kept[1..]| ==> kept[1..][i] == kept[i + 1];
      assert forall i :: 1 <= i < |kept| ==> kept[i] == kept[1..][i - 1];
    }
  }

  lemma {:induction false} KeptRoutesOnce(t: Texts, kept: seq<Item>, p: (Key, string))
    requires OnceKeyed(t, kept)
    ensures multiset(KeptRoutes(t, kept))[p] <= 1
  {
    if kept != [] {
      KeptRoutesOnce(t, kept[1..], p);
      KeptRoutesMembers(t, kept[1..], p);
      if KeyOf(t, kept[0]) == Some(p.0) {
        forall i | 0 <= i < |kept[1..]| ensures KeyOf(t, kept[1..][i]) != Some(p.0) {
          assert kept[1..][i] == kept[i + 1];
        }
      }
    }
  }

  /** An operation is kept with a route exactly when that is the shortest of its items' routes. */
  ghost predicate Shortest(t: Texts, items: seq<Item>, p: (Key, string)) {
    (exists x :: x in items && KeyOf(t, x) == Some(p.0) && x.endpoint.route == p.1)
    && forall x :: x in items && KeyOf(t, x) == Some(p.0) ==> !Shorter(x.endpoint.route, p.1)
  }

  lemma KeptExactly(t: Texts, items: seq<Item>, p: (Key, string))
    ensures p in KeptRoutes(t, Folded(t, items)) <==> Shortest(t, items, p)
  {
    var leaders, f := Leaders(t, items), Folded(t, items);
    var g := Group(t, items, p.0);
    KeptAt(t, items, leaders);
    KeptRoutesMembers(t, f, p);
    forall x ensures x in g <==> x in items && KeyOf(t, x) == Some(p.0) { GroupMembers(t, items, p.0, x); }
    forall i | 0 <= i < |f| ensures KeyOf(t, f[i]) == KeyOf(t, leaders[i]) { RepresentativeKey(t, items, leaders[i]); }
    if g != [] {
      var at := BestMeans(g);
      var i := LeaderOf(t, items, p.0);
      assert f[i] == Best(g);
      if Shortest(t, items, p) { ShorterTotal(p.1, Best(g).endpoint.route); }
    }
    if p in KeptRoutes(t, f) {
      var i :| 0 <= i < |f| && KeyOf(t, f[i]) == Some(p.0) && f[i].endpoint.route == p.1;
      LeaderMember(t, items, leaders[i]);
    }
  }

  /** The same items in another order keep the same operations, each with the same route. */
  lemma OrderIrrelevant(t: Texts, items: seq<Item>, others: seq<Item>)
    requires forall x :: x in items <==> x in others
    ensures multiset(KeptRoutes(t, Folded(t, items))) == multiset(KeptRoutes(t, Folded(t, others)))
  {
    var a, b := KeptRoutes(t, Folded(t, items)), KeptRoutes(t, Folded(t, others));
    forall p ensures multiset(a)[p] == multiset(b)[p] {
      KeptExactly(t, items, p);
      KeptExactly(t, others, p);
      FoldedOnce(t, items);
      FoldedOnce(t, others);
      KeptRoutesOnce(t, Folded(t, items), p);
      KeptRoutesOnce(t, Folded(t, others), p);
      assert p in a <==> p in b;
      assert p in multiset(a) <==> p in a;
      assert p in multiset(b) <==> p in b;
    }
  }

  lemma FoldedOnce(t: Texts, items: seq<Item>)
    ensures OnceKeyed(t, Folded(t, items))
  {
    var leaders, f := Leaders(t, items), Folded(t, items);
    LeadersOnce(t, items);
    KeptAt(t, items, leaders);
    forall i | 0 <= i < |f| ensures KeyOf(t, f[i]) == KeyOf(t, leaders[i]) { RepresentativeKey(t, items, leaders[i]); }
  }
}
