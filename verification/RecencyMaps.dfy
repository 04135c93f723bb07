/** Maps that keep their keys in order of insertion, and the order of last use that deleting and setting again gives. */
module RecencyMaps {
  import opened Wrappers

  datatype Slot<+V> = Slot(key: Text, value: V)

  function Find<V>(m: seq<Slot<V>>, k: Text): Option<V> {
    if m == [] then None else if m[0].key == k then Some(m[0].value) else Find(m[1..], k)
  }

  /** The map without a key. */
  function Without<V>(m: seq<Slot<V>>, k: Text): seq<Slot<V>> {
    if m == [] then [] else if m[0].key == k then m[1..] else [m[0]] + Without(m[1..], k)
  }

  /** The map with a key set: in its place when it was there, last when it was not. */
  function With<V>(m: seq<Slot<V>>, k: Text, v: V): seq<Slot<V>> {
    if m == [] then [Slot(k, v)] else if m[0].key == k then [Slot(k, v)] + m[1..] else [m[0]] + With(m[1..], k, v)
  }

  ghost predicate Distinct<V>(m: seq<Slot<V>>) {
    forall i, j :: 0 <= i < j < |m| ==> m[i].key != m[j].key
  }

  /** Deleting a key and setting it again puts it last. */
  function Renewed<V>(m: seq<Slot<V>>, k: Text, v: V): seq<Slot<V>> {
    Without(m, k) + [Slot(k, v)]
  }

  lemma {:induction false} Absent<V>(m: seq<Slot<V>>, k: Text)
    ensures Find(m, k).None? <==> forall i :: 0 <= i < |m| ==> m[i].key != k
  {
    if m != [] {
      Absent(m[1..], k);
      if m[0].key != k && Find(m, k).None? {
        forall i | 0 <= i < |m| ensures m[i].key != k {
          if i > 0 { assert m[i] == m[1..][i - 1]; }
        }
      }
      if m[0].key != k && Find(m, k).Some? {
        var i :| 0 <= i < |m[1..]| && m[1..][i].key == k;
        assert m[i + 1].key == k;
      }
    }
  }

  lemma CutOut<V>(first: V, rest: seq<V>, j: nat)
    requires j < |rest|
    ensures [first] + (rest[..j] + rest[j + 1..]) == ([first] + rest)[..j + 1] + ([first] + rest)[j + 2..]
  {
  }

  /** A key that is there has a place, and deleting it takes that place out. */
  lemma {:induction false} Place<V>(m: seq<Slot<V>>, k: Text) returns (i: nat)
    requires Find(m, k).Some?
    ensures i < |m| && m[i] == Slot(k, Find(m, k).value) && Without(m, k) == m[..i] + m[i + 1..]
  {
    if m[0].key == k {
      i := 0;
      assert m[..0] + m[1..] == m[1..];
    } else {
      var j := Place(m[1..], k);
      i := j + 1;
      CutOut(m[0], m[1..], j);
      assert [m[0]] + m[1..] == m;
    }
  }

  lemma {:induction false} WithoutAbsent<V>(m: seq<Slot<V>>, k: Text)
    requires Find(m, k).None?
    ensures Without(m, k) == m
  {
    if m != [] {
      WithoutAbsent(m[1..], k);
    }
  }

  lemma {:induction false} WithAbsent<V>(m: seq<Slot<V>>, k: Text, v: V)
    requires Find(m, k).None?
    ensures With(m, k, v) == m + [Slot(k, v)]
  {
    if m != [] {
      WithAbsent(m[1..], k, v);
    }
  }

  lemma {:induction false} WithoutMembers<V>(m: seq<Slot<V>>, k: Text, s: Slot<V>)
    requires Distinct(m)
    ensures s in Without(m, k) <==> s in m && s.key != k
  {
    if m != [] {
      assert m == [m[0]] + m[1..];
      WithoutMembers(m[1..], k, s);
    }
  }

  lemma {:induction false} WithoutDistinct<V>(m: seq<Slot<V>>, k: Text)
    requires Distinct(m)
    ensures Distinct(Without(m, k))
  {
    if m != [] && m[0].key != k {
      var rest := Without(m[1..], k);
      WithoutDistinct(m[1..], k);
      forall j | 0 <= j < |rest| ensures rest[j].key != m[0].key {
        WithoutMembers(m[1..], k, rest[j]);
        var i :| 0 <= i < |m[1..]| && m[1..][i] == rest[j];
        assert m[i + 1].key != m[0].key;
      }
    }
  }

  /** Without a key: nothing else goes, nothing comes, and the keys stay distinct. */
  lemma {:induction false} WithoutKeeps<V>(m: seq<Slot<V>>, k: Text)
    requires Distinct(m)
    ensures Distinct(Without(m, k)) && Find(Without(m, k), k).None?
    ensures forall s :: s in Without(m, k) <==> s in m && s.key != k
  {
    forall s ensures s in Without(m, k) <==> s in m && s.key != k {
      WithoutMembers(m, k, s);
    }
    WithoutDistinct(m, k);
    var rest := Without(m, k);
    forall i | 0 <= i < |rest| ensures rest[i].key != k { WithoutMembers(m, k, rest[i]); }
    Absent(rest, k);
  }

  lemma {:induction false} FindMember<V>(m: seq<Slot<V>>, s: Slot<V>)
    requires Distinct(m) && s in m
    ensures Find(m, s.key) == Some(s.value)
  {
    if m[0] != s {
      assert m == [m[0]] + m[1..];
      var i :| 0 <= i < |m| && m[i] == s;
      assert m[0].key != m[i].key;
      FindMember(m[1..], s);
    }
  }

  lemma FoundMember<V>(m: seq<Slot<V>>, k: Text)
    requires Find(m, k).Some?
    ensures Slot(k, Find(m, k).value) in m
  {
    var i := Place(m, k);
  }

  // When each key was last used.

  function LastUse(log: seq<Text>, k: Text): int {
    if log == [] then -1 else if log[|log| - 1] == k then |log| - 1 else LastUse(log[..|log| - 1], k)
  }

  lemma {:induction false} LastUseBelow(log: seq<Text>, k: Text)
    ensures -1 <= LastUse(log, k) < |log|
  {
    if log != [] {
      LastUseBelow(log[..|log| - 1], k);
    }
  }

  lemma UsedNow(log: seq<Text>, k: Text, x: Text)
    ensures LastUse(log + [k], x) == if x == k then |log| else LastUse(log, x)
  {
    assert (log + [k])[..|log|] == log;
  }

  /** The map's own order is that of last use. */
  ghost predicate ByRecency<V>(m: seq<Slot<V>>, log: seq<Text>) {
    forall i, j :: 0 <= i < j < |m| ==> LastUse(log, m[i].key) < LastUse(log, m[j].key)
  }

  lemma WithoutByRecency<V>(m: seq<Slot<V>>, log: seq<Text>, k: Text)
    requires ByRecency(m, log)
    ensures ByRecency(Without(m, k), log)
  {
    if Find(m, k).None? {
      WithoutAbsent(m, k);
    } else {
      var i := Place(m, k);
    }
  }

  /** A use puts its key last and leaves the others in their order. */
  lemma RenewedByRecency<V>(m: seq<Slot<V>>, log: seq<Text>, k: Text, v: V)
    requires ByRecency(m, log) && Distinct(m)
    ensures ByRecency(Renewed(m, k, v), log + [k]) && Distinct(Renewed(m, k, v))
  {
    var rest := Without(m, k);
    WithoutByRecency(m, log, k);
    WithoutKeeps(m, k);
    Absent(rest, k);
    forall i | 0 <= i < |rest| ensures LastUse(log + [k], rest[i].key) == LastUse(log, rest[i].key) < |log| {
      UsedNow(log, k, rest[i].key);
      LastUseBelow(log, rest[i].key);
    }
    UsedNow(log, k, k);
  }


  function Values<V>(m: seq<Slot<V>>): seq<V> {
    if m == [] then [] else [m[0].value] + Values(m[1..])
  }

  lemma {:induction false} ValuesAppend<V>(a: seq<Slot<V>>, b: seq<Slot<V>>)
    ensures Values(a + b) == Values(a) + Values(b)
  {
    if a == [] {
      assert a + b == b;
    } else {
      ValuesAppend(a[1..], b);
      assert (a + b)[1..] == a[1..] + b;
    }
  }

  lemma {:induction false} ValuesWithout<V>(m: seq<Slot<V>>, k: Text)
    requires Find(m, k).Some?
    ensures multiset(Values(Without(m, k))) + multiset{Find(m, k).value} == multiset(Values(m))
  {
    if m[0].key != k {
      ValuesWithout(m[1..], k);
      assert ([m[0]] + Without(m[1..], k))[1..] == Without(m[1..], k);
    }
  }
}
