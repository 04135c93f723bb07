/** The names hoisted types get in `$defs`, and exactly when they are distinct. */
module SchemaNames {
  import opened Wrappers
  import opened TypeShapes
  import opened Decimals

  /** The simple name a key asks for: its type's own, or the key when nothing is declared. */
  function Base(types: map<Text, Declared>, key: Text): Text {
    if key in types then types[key].name else key
  }

  /** How many of the keys ask for a simple name. */
  function Claims(types: map<Text, Declared>, keys: seq<Text>, base: Text): nat {
    if keys == [] then 0
    else Claims(types, keys[..|keys| - 1], base) + if Base(types, keys[|keys| - 1]) == base then 1 else 0
  }

  function Suffixed(base: Text, n: nat): Text {
    Text(base.chars + "_" + Decimal(n))
  }

  /** The first claimant of a simple name keeps it; the n-th gets the suffix `_n`. */
  function NameAfter(types: map<Text, Declared>, earlier: seq<Text>, key: Text): Text {
    var base := Base(types, key);
    var seen := Claims(types, earlier, base);
    if seen == 0 then base else Suffixed(base, seen + 1)
  }

  function NameAt(types: map<Text, Declared>, order: seq<Text>, i: nat): Text
    requires i < |order|
  {
    NameAfter(types, order[..i], order[i])
  }

  /** The names given along `order`. */
  function NameMap(types: map<Text, Declared>, order: seq<Text>): map<Text, Text> {
    if order == [] then map[]
    else
      var earlier, key := order[..|order| - 1], order[|order| - 1];
      NameMap(types, earlier)[key := NameAfter(types, earlier, key)]
  }

  lemma {:induction false} NameMapAt(types: map<Text, Declared>, order: seq<Text>, i: nat)
    requires i < |order| && forall j :: i < j < |order| ==> order[j] != order[i]
    ensures order[i] in NameMap(types, order) && NameMap(types, order)[order[i]] == NameAt(types, order, i)
    decreases |order|
  {
    if i < |order| - 1 {
      NameMapAt(types, order[..|order| - 1], i);
      assert order[..|order| - 1][..i] == order[..i];
    }
  }

  lemma {:induction false} NameMapKeys(types: map<Text, Declared>, order: seq<Text>)
    ensures forall k :: k in NameMap(types, order) <==> k in order
  {
    if order != [] {
      NameMapKeys(types, order[..|order| - 1]);
      assert order == order[..|order| - 1] + [order[|order| - 1]];
    }
  }

  /** The claim counter of the source after the keys of `order`. */
  function ClaimMap(types: map<Text, Declared>, order: seq<Text>): map<Text, nat> {
    if order == [] then map[]
    else
      var counted := ClaimMap(types, order[..|order| - 1]);
      var base := Base(types, order[|order| - 1]);
      counted[base := (if base in counted then counted[base] else 0) + 1]
  }

  lemma {:induction false} ClaimMapCounts(types: map<Text, Declared>, order: seq<Text>, base: Text)
    ensures var m := ClaimMap(types, order); (if base in m then m[base] else 0) == Claims(types, order, base)
  {
    if order != [] { ClaimMapCounts(types, order[..|order| - 1], base); }
  }

  ghost predicate NamesDistinct(types: map<Text, Declared>, order: seq<Text>) {
    forall i, j :: 0 <= i < j < |order| ==> NameAt(types, order, i) != NameAt(types, order, j)
  }

  /** Some type's simple name is the suffixed name a shared simple name gives away. */
  ghost predicate SuffixTaken(types: map<Text, Declared>, order: seq<Text>) {
    exists k, base, n :: k in order && 2 <= n <= Claims(types, order, base) && Base(types, k) == Suffixed(base, n)
  }

  lemma {:induction false} ClaimsGrow(types: map<Text, Declared>, keys: seq<Text>, i: nat, j: nat, base: Text)
    requires i <= j <= |keys|
    ensures Claims(types, keys[..i], base) <= Claims(types, keys[..j], base)
    ensures i < j && Base(types, keys[i]) == base ==> Claims(types, keys[..i], base) < Claims(types, keys[..j], base)
    decreases j
  {
    if i < j {
      assert keys[..j][..j - 1] == keys[..j - 1];
      ClaimsGrow(types, keys, i, j - 1, base);
    }
  }

  /** The first key with a simple name. */
  lemma {:induction false} FirstClaimant(types: map<Text, Declared>, keys: seq<Text>, i: nat) returns (f: nat)
    requires i < |keys|
    ensures f <= i && Base(types, keys[f]) == Base(types, keys[i])
      && Claims(types, keys[..f], Base(types, keys[i])) == 0
  {
    var base := Base(types, keys[i]);
    if Claims(types, keys[..i], base) == 0 { return i; }
    var m := LaterClaim(types, keys, i, base);
    f := FirstClaimant(types, keys, m);
  }

  lemma {:induction false} LaterClaim(types: map<Text, Declared>, keys: seq<Text>, i: nat, base: Text) returns (m: nat)
    requires i <= |keys| && Claims(types, keys[..i], base) > 0
    ensures m < i && Base(types, keys[m]) == base
      && Claims(types, keys[..m], base) + 1 == Claims(types, keys[..i], base)
  {
    assert keys[..i][..i - 1] == keys[..i - 1];
    if Base(types, keys[i - 1]) == base { m := i - 1; } else { m := LaterClaim(types, keys, i - 1, base); }
  }

  /** The key that makes a claim number `n`. */
  lemma {:induction false} NthClaimant(types: map<Text, Declared>, keys: seq<Text>, i: nat, base: Text, n: nat)
    returns (m: nat)
    requires i <= |keys| && 1 <= n <= Claims(types, keys[..i], base)
    ensures m < i && Base(types, keys[m]) == base && Claims(types, keys[..m], base) + 1 == n
  {
    m := LaterClaim(types, keys, i, base);
    if Claims(types, keys[..i], base) != n { m := NthClaimant(types, keys, m, base, n); }
  }

  lemma SuffixShape(a: Text, m: nat)
    ensures var s := Suffixed(a, m).chars; s[|a.chars|] == '_' && forall k :: |a.chars| < k < |s| ==> IsDigit(s[k])
  {
    forall k | |a.chars| < k < |Suffixed(a, m).chars| ensures IsDigit(Suffixed(a, m).chars[k]) {
      assert Suffixed(a, m).chars[k] == Decimal(m)[k - |a.chars| - 1];
    }
  }

  lemma SuffixedInjective(a: Text, m: nat, b: Text, n: nat)
    requires Suffixed(a, m) == Suffixed(b, n)
    ensures a == b && m == n
  {
    var s := Suffixed(a, m).chars;
    SuffixShape(a, m);
    SuffixShape(b, n);
    assert |a.chars| == |b.chars|;
    assert s[..|a.chars|] == a.chars && s[..|b.chars|] == b.chars;
    assert s[|a.chars| + 1..] == Decimal(m) && s[|b.chars| + 1..] == Decimal(n);
    DecimalInjective(m, n);
  }

  /** Disambiguation works exactly when no type is already called what a duplicate would be renamed to. */
  lemma NamesDistinctExactly(types: map<Text, Declared>, order: seq<Text>)
    ensures NamesDistinct(types, order) <==> !SuffixTaken(types, order)
  {
    if SuffixTaken(types, order) {
      var k, base, n :| k in order && 2 <= n <= Claims(types, order, base) && Base(types, k) == Suffixed(base, n);
      var i :| 0 <= i < |order| && order[i] == k;
      var f := FirstClaimant(types, order, i);
      assert order[..|order|] == order;
      var m := NthClaimant(types, order, |order|, base, n);
      assert NameAt(types, order, f) == Suffixed(base, n) && NameAt(types, order, m) == Suffixed(base, n);
      assert |Suffixed(base, n).chars| > |base.chars|;
      assert f != m;
    }
    if !NamesDistinct(types, order) {
      var i, j :| 0 <= i < j < |order| && NameAt(types, order, i) == NameAt(types, order, j);
      ClashTakesSuffix(types, order, i, j);
    }
  }

  lemma ClashTakesSuffix(types: map<Text, Declared>, order: seq<Text>, i: nat, j: nat)
    requires i < j < |order| && NameAt(types, order, i) == NameAt(types, order, j)
    ensures SuffixTaken(types, order)
  {
    var a, b := Base(types, order[i]), Base(types, order[j]);
    var m, n := Claims(types, order[..i], a), Claims(types, order[..j], b);
    ClaimsGrow(types, order, i, j, a);
    assert order[..|order|] == order;
    ClaimsGrow(types, order, i, |order|, a);
    ClaimsGrow(types, order, j, |order|, b);
    if m > 0 && n > 0 {
      SuffixedInjective(a, m + 1, b, n + 1);
    } else if m == 0 {
      assert order[i] in order && Base(types, order[i]) == Suffixed(b, n + 1);
    } else {
      assert order[j] in order && Base(types, order[j]) == Suffixed(a, m + 1);
    }
  }
}
