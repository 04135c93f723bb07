/** The ordinal order of strings, and a stable sort standing for the runtime's. */
module Ordering {
  import opened Wrappers

  /** JavaScript's `<` on strings: by character, a proper prefix first. */
  predicate Less(a: string, b: string) {
    if b == [] then false
    else if a == [] then true
    else if a[0] != b[0] then a[0] < b[0]
    else Less(a[1..], b[1..])
  }

  lemma {:induction false} LessIrreflexive(a: string)
    ensures !Less(a, a)
  {
    if a != [] { LessIrreflexive(a[1..]); }
  }

  lemma {:induction false} LessTransitive(a: string, b: string, c: string)
    requires Less(a, b) && Less(b, c)
    ensures Less(a, c)
  {
    if a != [] && a[0] == b[0] && b[0] == c[0] { LessTransitive(a[1..], b[1..], c[1..]); }
  }

  lemma {:induction false} LessTotal(a: string, b: string)
    ensures Less(a, b) || a == b || Less(b, a)
  {
    if a != [] && b != [] && a[0] == b[0] {
      LessTotal(a[1..], b[1..]);
      assert a == [a[0]] + a[1..] && b == [b[0]] + b[1..];
    }
  }

  predicate Precedes(a: Text, b: Text) {
    Less(a.chars, b.chars)
  }

  ghost predicate Ascending(s: seq<Text>) {
    s == [] || ((forall k :: k in s[1..] ==> Precedes(s[0], k)) && Ascending(s[1..]))
  }

  /** `s` holds each key once. */
  ghost predicate Enumerates(s: seq<Text>, keys: set<Text>) {
    multiset(s) == multiset(keys)
  }

  ghost predicate Lists(s: seq<Text>, keys: set<Text>) {
    Ascending(s) && Enumerates(s, keys)
  }

  lemma EnumeratesMembers(s: seq<Text>, keys: set<Text>)
    requires Enumerates(s, keys)
    ensures forall k :: k in s <==> k in keys
    ensures |s| == |keys|
  {
    forall k ensures k in s <==> k in keys {
      assert k in multiset(s) <==> k in multiset(keys);
    }
    assert |multiset(s)| == |s| && |multiset(keys)| == |keys|;
  }

  function InsertAscending(s: seq<Text>, key: Text): (r: seq<Text>) {
    if s == [] then [key]
    else if Precedes(s[0], key) then [s[0]] + InsertAscending(s[1..], key)
    else [key] + s
  }

  lemma {:induction false} InsertHolds(s: seq<Text>, key: Text)
    ensures multiset(InsertAscending(s, key)) == multiset(s) + multiset{key}
    ensures forall k :: k in InsertAscending(s, key) ==> k in s || k == key
  {
    if s != [] {
      assert s == [s[0]] + s[1..];
      if Precedes(s[0], key) { InsertHolds(s[1..], key); }
    }
  }

  lemma {:induction false} InsertKeepsAscending(s: seq<Text>, key: Text)
    requires Ascending(s) && key !in s
    ensures Ascending(InsertAscending(s, key))
  {
    if s == [] {
    } else if Precedes(s[0], key) {
      InsertKeepsAscending(s[1..], key);
      InsertHolds(s[1..], key);
      assert ([s[0]] + InsertAscending(s[1..], key))[1..] == InsertAscending(s[1..], key);
    } else {
      LessTotal(s[0].chars, key.chars);
      assert s[0] in s;
      forall k | k in s ensures Precedes(key, k) {
        if k != s[0] {
          assert k in s[1..];
          LessTransitive(key.chars, s[0].chars, k.chars);
        }
      }
      assert ([key] + s)[1..] == s;
    }
  }

  /** `[...keys].sort(ordinal)`. */
  method SortedKeys(keys: set<Text>) returns (r: seq<Text>)
    ensures Lists(r, keys)
  {
    r := [];
    var rest := keys;
    while rest != {}
      invariant rest <= keys
      invariant Lists(r, keys - rest)
    {
      var key :| key in rest;
      EnumeratesMembers(r, keys - rest);
      InsertKeepsAscending(r, key);
      InsertHolds(r, key);
      r := InsertAscending(r, key);
      rest := rest - {key};
      assert multiset(keys - rest) == multiset(keys - rest - {key}) + multiset{key};
      assert keys - rest - {key} == keys - (rest + {key});
    }
    assert keys - rest == keys;
  }

  lemma TailsPermute<T>(a: seq<T>, b: seq<T>)
    requires a != [] && b != [] && a[0] == b[0] && multiset(a) == multiset(b)
    ensures multiset(a[1..]) == multiset(b[1..])
  {
    assert a == [a[0]] + a[1..] && b == [b[0]] + b[1..];
    assert multiset(a[1..]) == multiset(a) - multiset{a[0]};
    assert multiset(b[1..]) == multiset(b) - multiset{b[0]};
  }

  /** A set has one ascending listing. */
  lemma {:induction false} ListingUnique(a: seq<Text>, b: seq<Text>)
    requires Ascending(a) && Ascending(b) && multiset(a) == multiset(b)
    ensures a == b
  {
    if a == [] {
      assert |multiset(b)| == 0;
    } else {
      assert a[0] in multiset(b);
      assert b != [] && b[0] in multiset(a);
      assert a == [a[0]] + a[1..] && b == [b[0]] + b[1..];
      assert a[0] == b[0] || (a[0] in b[1..] && b[0] in a[1..]);
      LessIrreflexive(a[0].chars);
      if a[0] != b[0] { LessTransitive(a[0].chars, b[0].chars, a[0].chars); }
      assert a[0] == b[0];
      TailsPermute(a, b);
      ListingUnique(a[1..], b[1..]);
    }
  }

  /** Inserting before the first element that does not precede it keeps equal elements in order. */
  function Insert<T>(before: (T, T) -> bool, x: T, s: seq<T>): seq<T> {
    if s == [] then [x]
    else if before(s[0], x) then [s[0]] + Insert(before, x, s[1..])
    else [x] + s
  }

  /** A stable sort, as ECMAScript requires of `Array.prototype.sort`. */
  function Sort<T>(before: (T, T) -> bool, s: seq<T>): seq<T> {
    if s == [] then [] else Insert(before, s[0], Sort(before, s[1..]))
  }

  lemma {:induction false} InsertPermutes<T>(before: (T, T) -> bool, x: T, s: seq<T>)
    ensures multiset(Insert(before, x, s)) == multiset(s) + multiset{x}
  {
    if s != [] && before(s[0], x) {
      InsertPermutes(before, x, s[1..]);
      assert s == [s[0]] + s[1..];
    }
  }

  lemma {:induction false} SortPermutes<T>(before: (T, T) -> bool, s: seq<T>)
    ensures multiset(Sort(before, s)) == multiset(s)
  {
    if s != [] {
      SortPermutes(before, s[1..]);
      InsertPermutes(before, s[0], Sort(before, s[1..]));
      assert s == [s[0]] + s[1..];
    }
  }

  lemma {:induction false} InsertMembers<T>(before: (T, T) -> bool, x: T, s: seq<T>)
    ensures forall y :: y in Insert(before, x, s) <==> y == x || y in s
  {
    if s != [] {
      assert s == [s[0]] + s[1..];
      if before(s[0], x) { InsertMembers(before, x, s[1..]); }
    }
  }

  lemma {:induction false} SortMembers<T>(before: (T, T) -> bool, s: seq<T>)
    ensures forall y :: y in Sort(before, s) <==> y in s
  {
    if s != [] {
      assert s == [s[0]] + s[1..];
      SortMembers(before, s[1..]);
      InsertMembers(before, s[0], Sort(before, s[1..]));
    }
  }
}
