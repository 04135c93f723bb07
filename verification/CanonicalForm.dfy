/** The canonical text of a JSON value, which two values share exactly when they differ in key order alone. */
module CanonicalForm {
  import opened Ordering
  import opened JsonText
  import opened JsonRoundTrip

  function KeyOrder(): (Member, Member) -> bool {
    (a: Member, b: Member) => Less(a.key, b.key)
  }

  /** A value with the keys of every object in it sorted. */
  function Sorted(v: Json): Json
    decreases v, 0
  {
    match v
    case Arr(items) => Arr(SortedItems(items))
    case Obj(members) => Obj(Sort(KeyOrder(), SortedValues(members)))
    case _ => v
  }

  function SortedItems(items: seq<Json>): (r: seq<Json>)
    ensures |r| == |items|
    decreases items, 1
  {
    if items == [] then [] else [Sorted(items[0])] + SortedItems(items[1..])
  }

  function SortedValues(members: seq<Member>): (r: seq<Member>)
    ensures |r| == |members|
    decreases members, 1
  {
    if members == [] then [] else [SortedMember(members[0])] + SortedValues(members[1..])
  }

  function SortedMember(m: Member): Member
    decreases m, 0
  {
    Member(m.key, Sorted(m.value))
  }

  /** `canonical`: the text with every object's keys in sorted order. */
  function Canonical(v: Json): string {
    Stringified(Sorted(v))
  }

  function KeySet(members: seq<Member>): set<string> {
    if members == [] then {} else {members[0].key} + KeySet(members[1..])
  }

  predicate DistinctKeys(members: seq<Member>) {
    members == [] || (members[0].key !in KeySet(members[1..]) && DistinctKeys(members[1..]))
  }

  /** No object holds a key twice. */
  predicate WellKeyed(v: Json) {
    match v
    case Arr(items) => forall i :: 0 <= i < |items| ==> WellKeyed(items[i])
    case Obj(members) => DistinctKeys(members) && forall i :: 0 <= i < |members| ==> WellKeyed(members[i].value)
    case _ => true
  }

  /** Equal but for the order of keys, at every depth. */
  predicate Same(a: Json, b: Json) {
    match a
    case Arr(items) =>
      b.Arr? && |items| == |b.items| && forall i :: 0 <= i < |items| ==> Same(items[i], b.items[i])
    case Obj(members) =>
      b.Obj? && KeySet(members) == KeySet(b.members) &&
      forall i, j :: 0 <= i < |members| && 0 <= j < |b.members| && members[i].key == b.members[j].key ==>
        Same(members[i].value, b.members[j].value)
    case _ => a == b
  }

  lemma {:induction false} SortedItemsAt(items: seq<Json>, i: nat)
    requires i < |items|
    ensures SortedItems(items)[i] == Sorted(items[i])
  {
    if i > 0 { SortedItemsAt(items[1..], i - 1); }
  }

  lemma {:induction false} SortedValuesAt(members: seq<Member>, i: nat)
    requires i < |members|
    ensures SortedValues(members)[i] == SortedMember(members[i])
  {
    if i > 0 { SortedValuesAt(members[1..], i - 1); }
  }

  lemma {:induction false} KeySetHolds(members: seq<Member>, k: string)
    ensures k in KeySet(members) <==> exists i :: 0 <= i < |members| && members[i].key == k
  {
    if members != [] {
      KeySetHolds(members[1..], k);
      if exists i :: 0 <= i < |members| && members[i].key == k {
        var i :| 0 <= i < |members| && members[i].key == k;
        if i > 0 { assert members[1..][i - 1].key == k; }
      }
      if k in KeySet(members[1..]) {
        var i :| 0 <= i < |members[1..]| && members[1..][i].key == k;
        assert members[i + 1].key == k;
      }
    }
  }

  lemma {:induction false} SortedKeySet(members: seq<Member>)
    ensures KeySet(SortedValues(members)) == KeySet(members)
    ensures DistinctKeys(members) ==> DistinctKeys(SortedValues(members))
  {
    if members != [] {
      SortedKeySet(members[1..]);
      assert SortedValues(members)[1..] == SortedValues(members[1..]);
    }
  }

  /** Ascending by key, strictly. */
  ghost predicate Strict(s: seq<Member>) {
    s == [] || ((forall m :: m in s[1..] ==> Less(s[0].key, m.key)) && Strict(s[1..]))
  }

  lemma {:induction false} InsertStrict(x: Member, s: seq<Member>)
    requires Strict(s) && forall m :: m in s ==> m.key != x.key
    ensures Strict(Insert(KeyOrder(), x, s))
  {
    if s != [] {
      var first := s[0];
      assert s == [first] + s[1..];
      if Less(first.key, x.key) {
        InsertStrict(x, s[1..]);
        InsertMembers(KeyOrder(), x, s[1..]);
        assert ([first] + Insert(KeyOrder(), x, s[1..]))[1..] == Insert(KeyOrder(), x, s[1..]);
      } else {
        LessTotal(x.key, first.key);
        assert first in s;
        assert ([x] + s)[1..] == s;
        forall m | m in s ensures Less(x.key, m.key) {
          if m != first { LessTransitive(x.key, first.key, m.key); }
        }
      }
    }
  }

  lemma {:induction false} SortStrict(s: seq<Member>)
    requires DistinctKeys(s)
    ensures Strict(Sort(KeyOrder(), s))
  {
    if s != [] {
      SortStrict(s[1..]);
      SortMembers(KeyOrder(), s[1..]);
      forall m | m in Sort(KeyOrder(), s[1..]) ensures m.key != s[0].key {
        assert m in s[1..];
        var i :| 0 <= i < |s[1..]| && s[1..][i] == m;
        KeySetHolds(s[1..], m.key);
      }
      InsertStrict(s[0], Sort(KeyOrder(), s[1..]));
    }
  }

  lemma HeadFirst(a: seq<Member>, b: seq<Member>)
    requires Strict(a) && Strict(b) && a != [] && b != [] && a[0] in b && b[0] in a
    ensures a[0] == b[0]
  {
    assert a == [a[0]] + a[1..] && b == [b[0]] + b[1..];
    LessIrreflexive(a[0].key);
    if b[0] in a[1..] && a[0] in b[1..] { LessTransitive(a[0].key, b[0].key, a[0].key); }
  }

  /** A set of members has one strict listing. */
  lemma {:induction false} StrictUnique(a: seq<Member>, b: seq<Member>)
    requires Strict(a) && Strict(b) && forall m :: m in a <==> m in b
    ensures a == b
  {
    assert b != [] ==> b[0] in b;
    if a != [] {
      assert a[0] in a;
      HeadFirst(a, b);
      assert a == [a[0]] + a[1..] && b == [b[0]] + b[1..];
      LessIrreflexive(a[0].key);
      assert a[0] !in a[1..] && b[0] !in b[1..];
      forall m ensures m in a[1..] <==> m in b[1..] { assert m in a <==> m in b; }
      StrictUnique(a[1..], b[1..]);
    }
  }

  /** Values equal but for key order have the same sorted form. */
  lemma {:induction false} SameSorts(a: Json, b: Json)
    requires WellKeyed(a) && WellKeyed(b) && Same(a, b)
    ensures Sorted(a) == Sorted(b)
    decreases a
  {
    match a
    case Arr(items) =>
      forall i | 0 <= i < |items| ensures SortedItems(items)[i] == SortedItems(b.items)[i] {
        SameSorts(items[i], b.items[i]);
        SortedItemsAt(items, i);
        SortedItemsAt(b.items, i);
      }
    case Obj(members) =>
      var x, y := SortedValues(members), SortedValues(b.members);
      forall i, j | 0 <= i < |members| && 0 <= j < |b.members| && members[i].key == b.members[j].key
        ensures Sorted(members[i].value) == Sorted(b.members[j].value)
      {
        SameSorts(members[i].value, b.members[j].value);
      }
      forall m ensures m in x <==> m in y { SameMembers(members, b.members, m); SameMembers(b.members, members, m); }
      SortedListsEqual(members, b.members);
    case _ =>
  }

  lemma SameMembers(a: seq<Member>, b: seq<Member>, m: Member)
    requires KeySet(a) == KeySet(b)
    requires forall i, j :: 0 <= i < |a| && 0 <= j < |b| && a[i].key == b[j].key ==>
      Sorted(a[i].value) == Sorted(b[j].value)
    ensures m in SortedValues(a) ==> m in SortedValues(b)
  {
    if m in SortedValues(a) {
      var i :| 0 <= i < |a| && SortedValues(a)[i] == m;
      SortedValuesAt(a, i);
      KeySetHolds(a, m.key);
      KeySetHolds(b, m.key);
      var j :| 0 <= j < |b| && b[j].key == m.key;
      SortedValuesAt(b, j);
      assert SortedValues(b)[j] == m;
    }
  }

  lemma SortedListsEqual(a: seq<Member>, b: seq<Member>)
    requires DistinctKeys(a) && DistinctKeys(b) && forall m :: m in SortedValues(a) <==> m in SortedValues(b)
    ensures Sort(KeyOrder(), SortedValues(a)) == Sort(KeyOrder(), SortedValues(b))
  {
    var x, y := SortedValues(a), SortedValues(b);
    SortedKeySet(a);
    SortedKeySet(b);
    SortStrict(x);
    SortStrict(y);
    SortMembers(KeyOrder(), x);
    SortMembers(KeyOrder(), y);
    StrictUnique(Sort(KeyOrder(), x), Sort(KeyOrder(), y));
  }

  /** Values with the same sorted form are equal but for key order. */
  lemma {:induction false} SortedSame(a: Json, b: Json)
    requires WellKeyed(a) && WellKeyed(b) && Sorted(a) == Sorted(b)
    ensures Same(a, b)
    decreases a
  {
    match a
    case Arr(items) =>
      forall i | 0 <= i < |items| ensures Same(items[i], b.items[i]) {
        SortedItemsAt(items, i);
        SortedItemsAt(b.items, i);
        SortedSame(items[i], b.items[i]);
      }
    case Obj(members) =>
      var x, y := SortedValues(members), SortedValues(b.members);
      SortMembers(KeyOrder(), x);
      SortMembers(KeyOrder(), y);
      assert forall m :: m in x <==> m in y;
      KeysAgree(members, b.members);
      forall i, j | 0 <= i < |members| && 0 <= j < |b.members| && members[i].key == b.members[j].key
        ensures Same(members[i].value, b.members[j].value)
      {
        OnePerKey(members, b.members, i, j);
        SortedSame(members[i].value, b.members[j].value);
      }
    case _ =>
  }

  lemma KeysAgree(a: seq<Member>, b: seq<Member>)
    requires forall m :: m in SortedValues(a) <==> m in SortedValues(b)
    ensures KeySet(a) == KeySet(b)
  {
    SortedKeySet(a);
    SortedKeySet(b);
    var x, y := SortedValues(a), SortedValues(b);
    forall k ensures k in KeySet(x) <==> k in KeySet(y) {
      KeySetHolds(x, k);
      KeySetHolds(y, k);
      if k in KeySet(x) { var i :| 0 <= i < |x| && x[i].key == k; assert x[i] in y; }
      if k in KeySet(y) { var i :| 0 <= i < |y| && y[i].key == k; assert y[i] in x; }
    }
  }

  lemma {:induction false} KeyAtOnce(members: seq<Member>, i: nat, j: nat)
    requires DistinctKeys(members) && i < |members| && j < |members| && members[i].key == members[j].key
    ensures i == j
  {
    KeySetHolds(members[1..], members[0].key);
    assert i > 0 ==> members[1..][i - 1] == members[i];
    assert j > 0 ==> members[1..][j - 1] == members[j];
    if i > 0 && j > 0 { KeyAtOnce(members[1..], i - 1, j - 1); }
  }

  lemma OnePerKey(a: seq<Member>, b: seq<Member>, i: nat, j: nat)
    requires DistinctKeys(b) && i < |a| && j < |b| && a[i].key == b[j].key
    requires forall m :: m in SortedValues(a) <==> m in SortedValues(b)
    ensures Sorted(a[i].value) == Sorted(b[j].value)
  {
    SortedValuesAt(a, i);
    assert SortedValues(a)[i] in SortedValues(b);
    var l :| 0 <= l < |b| && SortedValues(b)[l] == SortedMember(a[i]);
    SortedValuesAt(b, l);
    KeyAtOnce(b, l, j);
  }

  lemma {:induction false} SortedValid(v: Json)
    requires Valid(v)
    ensures Valid(Sorted(v))
    decreases v
  {
    match v
    case Arr(items) =>
      forall i | 0 <= i < |items| ensures Valid(SortedItems(items)[i]) {
        SortedItemsAt(items, i);
        SortedValid(items[i]);
      }
    case Obj(members) =>
      var x := SortedValues(members);
      SortMembers(KeyOrder(), x);
      var s := Sort(KeyOrder(), x);
      forall i | 0 <= i < |s| ensures Valid(s[i].value) {
        assert s[i] in x;
        var j :| 0 <= j < |x| && x[j] == s[i];
        SortedValuesAt(members, j);
        SortedValid(members[j].value);
      }
    case _ =>
  }

  /** Two values have one canonical text exactly when they are equal but for key order. */
  lemma CanonicalExactly(a: Json, b: Json)
    requires Valid(a) && Valid(b) && WellKeyed(a) && WellKeyed(b)
    ensures Canonical(a) == Canonical(b) <==> Same(a, b)
  {
    if Same(a, b) { SameSorts(a, b); }
    SortedValid(a);
    SortedValid(b);
    ParseStringified(Sorted(a));
    ParseStringified(Sorted(b));
    if Canonical(a) == Canonical(b) { SortedSame(a, b); }
  }
}
