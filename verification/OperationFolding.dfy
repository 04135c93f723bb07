/** `deduplicateOperations`: one pass over the items, then one over the groups. */
module OperationFolding {
  import opened Wrappers
  import opened Folding

  /** The two tables of the pass, after some of the items. */
  ghost predicate Tables(t: Texts, done: seq<Item>, seen: map<Key, nat>, grouped: map<Key, seq<Item>>) {
    (forall k :: k in grouped <==> Group(t, done, k) != [])
    && (forall k :: k in grouped ==> grouped[k] == Group(t, done, k))
    && seen.Keys == grouped.Keys
    && (forall k :: k in seen ==> seen[k] < |Leaders(t, done)| && KeyOf(t, Leaders(t, done)[seen[k]]) == Some(k))
  }

  lemma TablesUnkeyed(t: Texts, done: seq<Item>, x: Item, seen: map<Key, nat>, grouped: map<Key, seq<Item>>)
    requires Tables(t, done, seen, grouped) && KeyOf(t, x).None?
    ensures Tables(t, done + [x], seen, grouped)
  {
    LeadersStep(t, done, x);
    forall k: Key ensures Group(t, done + [x], k) == Group(t, done, k) { GroupStep(t, done, x, k); }
  }

  lemma TablesNew(t: Texts, done: seq<Item>, x: Item, seen: map<Key, nat>, grouped: map<Key, seq<Item>>, k: Key)
    requires Tables(t, done, seen, grouped) && KeyOf(t, x) == Some(k) && k !in grouped
    ensures Tables(t, done + [x], seen[k := |Leaders(t, done)|], grouped[k := [x]])
  {
    LeadersStep(t, done, x);
    forall j: Key ensures Group(t, done + [x], j) == if j == k then [x] else Group(t, done, j) {
      GroupStep(t, done, x, j);
    }
  }

  lemma TablesAgain(t: Texts, done: seq<Item>, x: Item, seen: map<Key, nat>, grouped: map<Key, seq<Item>>, k: Key)
    requires Tables(t, done, seen, grouped) && KeyOf(t, x) == Some(k) && k in grouped
    ensures Tables(t, done + [x], seen, grouped[k := grouped[k] + [x]])
  {
    LeadersStep(t, done, x);
    forall j: Key ensures Group(t, done + [x], j) == if j == k then Group(t, done, k) + [x] else Group(t, done, j) {
      GroupStep(t, done, x, j);
    }
  }

  lemma {:induction false} KeysOfAppend(t: Texts, leaders: seq<Item>, x: Item)
    ensures KeysOf(t, leaders + [x]) == KeysOf(t, leaders) + if KeyOf(t, x).None? then [] else [KeyOf(t, x).value]
  {
    if leaders == [] {
      assert [] + [x] == [x] && KeysOf(t, [x][1..]) == [];
    } else {
      KeysOfAppend(t, leaders[1..], x);
      assert (leaders + [x])[1..] == leaders[1..] + [x];
    }
  }

  /** An item that leads is appended. */
  lemma FoldedLed(t: Texts, done: seq<Item>, x: Item)
    requires KeyOf(t, x).Some? ==> Group(t, done, KeyOf(t, x).value) == []
    ensures Folded(t, done + [x]) == Folded(t, done) + [x]
    ensures KeysOf(t, Leaders(t, done + [x])) == KeysOf(t, Leaders(t, done)) + if KeyOf(t, x).None? then []
      else [KeyOf(t, x).value]
  {
    var led, next := Leaders(t, done), Leaders(t, done + [x]);
    LeadersStep(t, done, x);
    KeysOfAppend(t, led, x);
    KeptAt(t, done, led);
    KeptAt(t, done + [x], next);
    forall i | 0 <= i < |next| ensures Folded(t, done + [x])[i] == (Folded(t, done) + [x])[i] {
      if KeyOf(t, next[i]).Some? {
        GroupStep(t, done, x, KeyOf(t, next[i]).value);
        if i < |led| {
          LeaderMember(t, done, led[i]);
          GroupMembers(t, done, KeyOf(t, led[i]).value, led[i]);
        }
      }
    }
  }

  lemma BestStep(t: Texts, done: seq<Item>, x: Item)
    requires KeyOf(t, x).Some? && Group(t, done, KeyOf(t, x).value) != []
    ensures var k := KeyOf(t, x).value;
      var b := Best(Group(t, done, k));
      Group(t, done + [x], k) != []
        && Best(Group(t, done + [x], k)) == if Shorter(x.endpoint.route, b.endpoint.route) then x else b
  {
    var g := Group(t, done, KeyOf(t, x).value);
    GroupStep(t, done, x, KeyOf(t, x).value);
    assert (g + [x])[..|g|] == g;
  }

  lemma RepresentativeStays(t: Texts, done: seq<Item>, x: Item, y: Item)
    requires KeyOf(t, y) != KeyOf(t, x)
    ensures Representative(t, done + [x], y) == Representative(t, done, y)
  {
    if KeyOf(t, y).Some? {
      GroupStep(t, done, x, KeyOf(t, y).value);
    }
  }

  /** What stands at a place among the operations. */
  lemma FoldedAt(t: Texts, items: seq<Item>, j: nat)
    requires j < |Leaders(t, items)|
    ensures |Folded(t, items)| == |Leaders(t, items)|
      && Folded(t, items)[j] == Representative(t, items, Leaders(t, items)[j])
  {
    KeptAt(t, items, Leaders(t, items));
  }

  /** An item of an operation already led leaves the other places as they were. */
  lemma OthersStay(t: Texts, done: seq<Item>, x: Item, i: nat, j: nat)
    requires KeyOf(t, x).Some? && i < |Leaders(t, done)| && KeyOf(t, Leaders(t, done)[i]) == KeyOf(t, x)
    requires j < |Leaders(t, done)| && j != i && Leaders(t, done + [x]) == Leaders(t, done)
    ensures |Folded(t, done + [x])| == |Leaders(t, done)| == |Folded(t, done)|
      && Folded(t, done + [x])[j] == Folded(t, done)[j]
  {
    var leaders := Leaders(t, done);
    LeadersOnce(t, done);
    assert KeyOf(t, leaders[j]) != KeyOf(t, x) by {
      assert if i < j then KeyOf(t, leaders[i]) != KeyOf(t, leaders[j]) else KeyOf(t, leaders[j]).Some? ==>
        KeyOf(t, leaders[j]) != KeyOf(t, leaders[i]);
    }
    RepresentativeStays(t, done, x, leaders[j]);
    FoldedAt(t, done, j);
    FoldedAt(t, done + [x], j);
  }

  /** An item of an operation already led takes its place when its route is shorter. */
  lemma FoldedAgainAt(t: Texts, done: seq<Item>, x: Item, i: nat)
    requires KeyOf(t, x).Some? && i < |Leaders(t, done)| && KeyOf(t, Leaders(t, done)[i]) == KeyOf(t, x)
    ensures Leaders(t, done + [x]) == Leaders(t, done) && |Folded(t, done)| == |Leaders(t, done)|
    ensures var kept := Folded(t, done)[i];
      Folded(t, done + [x]) == Folded(t, done)[i := if Shorter(x.endpoint.route, kept.endpoint.route) then x else kept]
  {
    var leaders := Leaders(t, done);
    LeaderMember(t, done, leaders[i]);
    GroupMembers(t, done, KeyOf(t, x).value, leaders[i]);
    LeadersStep(t, done, x);
    BestStep(t, done, x);
    FoldedAt(t, done, i);
    FoldedAt(t, done + [x], i);
    forall j | 0 <= j < |leaders| && j != i ensures Folded(t, done + [x])[j] == Folded(t, done)[j] {
      OthersStay(t, done, x, i, j);
    }
  }

  /** The kept item found by its group's place among the operations. */
  lemma KeptPlace(t: Texts, items: seq<Item>, k: Key, i: nat)
    requires i < |Leaders(t, items)| && KeyOf(t, Leaders(t, items)[i]) == Some(k) && Group(t, items, k) != []
    ensures i < |Folded(t, items)| && Folded(t, items)[i] == Best(Group(t, items, k))
  {
    KeptAt(t, items, Leaders(t, items));
  }

  /** `members.filter((member) => member !== kept)`. */
  method Filter(members: seq<Item>, kept: Item) returns (folded: seq<Item>)
    ensures folded == Others(members, kept)
  {
    folded := [];
    assert members[0..] == members;
    for i := 0 to |members|
      invariant folded + Others(members[i..], kept) == Others(members, kept)
    {
      assert members[i..][1..] == members[i + 1..];
      ghost var rest := Others(members[i + 1..], kept);
      if members[i] != kept {
        assert folded + ([members[i]] + rest) == folded + [members[i]] + rest;
        folded := folded + [members[i]];
      }
    }
  }

  /** The first loop. */
  method Gather(t: Texts, items: seq<Item>)
    returns (operations: seq<Item>, seen: map<Key, nat>, grouped: map<Key, seq<Item>>, order: seq<Key>)
    ensures operations == Folded(t, items) && Tables(t, items, seen, grouped) && order == KeysOf(t, Leaders(t, items))
  {
    operations, seen, grouped, order := [], map[], map[], [];
    for i := 0 to |items|
      invariant operations == Folded(t, items[..i])
      invariant Tables(t, items[..i], seen, grouped)
      invariant order == KeysOf(t, Leaders(t, items[..i]))
    {
      var item := items[i];
      ghost var done := items[..i];
      assert items[..i + 1] == done + [item];
      var key := KeyOf(t, item);
      KeptAt(t, done, Leaders(t, done));
      if key.None? {
        FoldedLed(t, done, item);
        TablesUnkeyed(t, done, item, seen, grouped);
        operations := operations + [item];
        continue;
      }
      var k := key.value;
      if k !in grouped {
        FoldedLed(t, done, item);
        TablesNew(t, done, item, seen, grouped, k);
        grouped := grouped[k := [item]];
        order := order + [k];
        seen := seen[k := |operations|];
        operations := operations + [item];
        continue;
      }
      var index := seen[k];
      FoldedAgainAt(t, done, item, index);
      TablesAgain(t, done, item, seen, grouped, k);
      grouped := grouped[k := grouped[k] + [item]];
      if Shorter(item.endpoint.route, operations[index].endpoint.route) {
        operations := operations[index := item];
      }
    }
    assert items[..|items|] == items;
  }

  lemma {:induction false} KeysLead(t: Texts, leaders: seq<Item>, k: Key)
    ensures k in KeysOf(t, leaders) ==> exists i :: 0 <= i < |leaders| && KeyOf(t, leaders[i]) == Some(k)
  {
    if leaders != [] && k in KeysOf(t, leaders[1..]) {
      KeysLead(t, leaders[1..], k);
      var i :| 0 <= i < |leaders[1..]| && KeyOf(t, leaders[1..][i]) == Some(k);
      assert KeyOf(t, leaders[i + 1]) == Some(k);
    }
  }

  lemma KeysGrouped(t: Texts, items: seq<Item>, k: Key)
    requires k in KeysOf(t, Leaders(t, items))
    ensures Group(t, items, k) != []
  {
    var leaders := Leaders(t, items);
    KeysLead(t, leaders, k);
    var i :| 0 <= i < |leaders| && KeyOf(t, leaders[i]) == Some(k);
    LeaderMember(t, items, leaders[i]);
    GroupMembers(t, items, k, leaders[i]);
  }

  lemma ReportsStep(t: Texts, items: seq<Item>, order: seq<Key>, i: nat)
    requires i < |order|
    ensures Reports(t, items, order[i..]) == Report(Group(t, items, order[i])) + Reports(t, items, order[i + 1..])
  {
    assert order[i..][1..] == order[i + 1..];
  }

  /** The operations that are kept, and the reports on those that folded others. */
  method DeduplicateOperations(t: Texts, items: seq<Item>) returns (operations: seq<Item>, folds: seq<Fold>)
    ensures operations == Folded(t, items)
    ensures folds == Reports(t, items, KeysOf(t, Leaders(t, items)))
  {
    var seen, grouped, order;
    operations, seen, grouped, order := Gather(t, items);
    folds := [];
    ghost var goal := Reports(t, items, order);
    assert order[0..] == order && [] + goal == goal;
    for i := 0 to |order|
      invariant folds + Reports(t, items, order[i..]) == goal
    {
      var key := order[i];
      ReportsStep(t, items, order, i);
      KeysGrouped(t, items, key);
      KeptPlace(t, items, key, seen[key]);
      var members := grouped[key];
      ghost var before := folds;
      if |members| >= 2 {
        var kept := operations[seen[key]];
        var folded := Filter(members, kept);
        folds := folds + [Fold(kept, folded)];
      }
      assert folds == before + Report(members);
      Regroup(before, Report(members), Reports(t, items, order[i + 1..]));
    }
    assert folds + [] == folds;
  }
}
