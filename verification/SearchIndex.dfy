/** The flattened posting index and what its parts hold of the corpus. */
module SearchIndex {
  import opened Wrappers
  import opened Ordering
  import opened SearchCorpus

  /** A document's terms with their summed weights. */
  function TermMap(occ: seq<Occurrence>): map<Text, real> {
    if occ == [] then map[]
    else
      var m := TermMap(occ[..|occ| - 1]);
      var last := occ[|occ| - 1];
      m[last.token := (if last.token in m then m[last.token] else 0.0) + last.weight]
  }

  /** The same map's keys in the order they were first written. */
  function TermKeys(occ: seq<Occurrence>): seq<Text> {
    if occ == [] then []
    else
      var keys := TermKeys(occ[..|occ| - 1]);
      var token := occ[|occ| - 1].token;
      if token in keys then keys else keys + [token]
  }

  function Get(m: map<Text, real>, key: Text): real {
    if key in m then m[key] else 0.0
  }

  function SumOver(m: map<Text, real>, keys: seq<Text>): real {
    if keys == [] then 0.0 else SumOver(m, keys[..|keys| - 1]) + Get(m, keys[|keys| - 1])
  }

  /** The weight a document has on the entries a term matches. */
  function SumMatching(m: map<Text, real>, entries: seq<Text>, term: Text): real {
    if entries == [] then 0.0
    else
      var last := entries[|entries| - 1];
      SumMatching(m, entries[..|entries| - 1], term) + if Matches(term, last) then Get(m, last) else 0.0
  }

  ghost predicate Distinct(s: seq<Text>) {
    forall k {:trigger multiset(s)[k]} :: multiset(s)[k] <= 1
  }

  lemma {:induction false} TermKeysList(occ: seq<Occurrence>)
    ensures Distinct(TermKeys(occ))
    ensures forall k :: k in TermKeys(occ) <==> k in TermMap(occ)
  {
    if occ != [] {
      TermKeysList(occ[..|occ| - 1]);
      var keys := TermKeys(occ[..|occ| - 1]);
      var token := occ[|occ| - 1].token;
      if token !in keys {
        assert multiset(keys)[token] == 0;
        assert multiset(keys + [token]) == multiset(keys) + multiset{token};
      }
    }
  }

  lemma {:induction false} TermMapPositive(occ: seq<Occurrence>)
    requires PositiveWeights(occ)
    ensures forall k :: k in TermMap(occ) ==> TermMap(occ)[k] > 0.0
  {
    if occ != [] { TermMapPositive(occ[..|occ| - 1]); }
  }

  /** Adding weight to one key of a distinct list adds it to the sum once. */
  lemma {:induction false} SumMatchingUpdate(m: map<Text, real>, entries: seq<Text>, term: Text, key: Text,
        weight: real)
    requires Distinct(entries)
    ensures SumMatching(m[key := Get(m, key) + weight], entries, term)
         == SumMatching(m, entries, term) + if key in entries && Matches(term, key) then weight else 0.0
  {
    if entries != [] {
      var last := entries[|entries| - 1];
      var rest := entries[..|entries| - 1];
      assert entries == rest + [last];
      assert multiset(entries) == multiset(rest) + multiset{last};
      assert forall k :: multiset(rest)[k] <= multiset(entries)[k];
      assert multiset(rest)[last] == 0;
      SumMatchingUpdate(m, rest, term, key, weight);
    }
  }

  /** Exchange of sums: by vocabulary entry, or by token as the plain reading does. */
  lemma {:induction false} SumMatchingIsFrequency(occ: seq<Occurrence>, entries: seq<Text>, term: Text)
    requires Distinct(entries) && forall o :: o in occ ==> o.token in entries
    ensures SumMatching(TermMap(occ), entries, term) == TermFrequency(occ, term)
  {
    if occ == [] {
      SumMatchingEmpty(entries, term);
    } else {
      var last := occ[|occ| - 1];
      SumMatchingIsFrequency(occ[..|occ| - 1], entries, term);
      SumMatchingUpdate(TermMap(occ[..|occ| - 1]), entries, term, last.token, last.weight);
    }
  }

  lemma {:induction false} SumMatchingEmpty(entries: seq<Text>, term: Text)
    ensures SumMatching(map[], entries, term) == 0.0
  {
    if entries != [] { SumMatchingEmpty(entries[..|entries| - 1], term); }
  }

  lemma {:induction false} SumOverUpdate(m: map<Text, real>, keys: seq<Text>, key: Text, weight: real)
    requires Distinct(keys)
    ensures SumOver(m[key := Get(m, key) + weight], keys) == SumOver(m, keys) + if key in keys then weight else 0.0
  {
    if keys != [] {
      var last := keys[|keys| - 1];
      var rest := keys[..|keys| - 1];
      assert keys == rest + [last];
      assert multiset(keys) == multiset(rest) + multiset{last};
      assert forall k :: multiset(rest)[k] <= multiset(keys)[k];
      assert multiset(rest)[last] == 0;
      SumOverUpdate(m, rest, key, weight);
    }
  }

  /** A document's stored length is the weight of all its tokens. */
  lemma {:induction false} SumOverIsTotal(occ: seq<Occurrence>)
    ensures SumOver(TermMap(occ), TermKeys(occ)) == TotalWeight(occ)
  {
    if occ != [] {
      var rest := occ[..|occ| - 1];
      var last := occ[|occ| - 1];
      var keys := TermKeys(rest);
      SumOverIsTotal(rest);
      TermKeysList(rest);
      SumOverUpdate(TermMap(rest), keys, last.token, last.weight);
      if last.token !in keys { assert (keys + [last.token])[..|keys|] == keys; }
    }
  }

  datatype Posting = Posting(id: int, frequency: real)

  /** The documents that carry a term, in id order. */
  function Postings(maps: seq<map<Text, real>>, term: Text): seq<Posting> {
    if maps == [] then []
    else
      var id := |maps| - 1;
      Postings(maps[..id], term) + if term in maps[id] then [Posting(id, maps[id][term])] else []
  }

  /** All postings, vocabulary entry after vocabulary entry. */
  function Flat(maps: seq<map<Text, real>>, vocabulary: seq<Text>): seq<Posting> {
    if vocabulary == [] then []
    else Flat(maps, vocabulary[..|vocabulary| - 1]) + Postings(maps, vocabulary[|vocabulary| - 1])
  }

  lemma {:induction false} FlatPrefix(maps: seq<map<Text, real>>, vocabulary: seq<Text>, i: nat)
    requires i <= |vocabulary|
    ensures |Flat(maps, vocabulary[..i])| <= |Flat(maps, vocabulary)|
    ensures Flat(maps, vocabulary)[..|Flat(maps, vocabulary[..i])|] == Flat(maps, vocabulary[..i])
    decreases |vocabulary|
  {
    if i == |vocabulary| {
      assert vocabulary[..i] == vocabulary;
    } else {
      var rest := vocabulary[..|vocabulary| - 1];
      FlatPrefix(maps, rest, i);
      assert rest[..i] == vocabulary[..i];
    }
  }

  /** The slice between two offsets is one entry's postings. */
  lemma FlatSlice(maps: seq<map<Text, real>>, vocabulary: seq<Text>, i: nat)
    requires i < |vocabulary|
    ensures var start, end := |Flat(maps, vocabulary[..i])|, |Flat(maps, vocabulary[..i + 1])|;
      start <= end <= |Flat(maps, vocabulary)| && Flat(maps, vocabulary)[start..end] == Postings(maps, vocabulary[i])
  {
    FlatPrefix(maps, vocabulary, i + 1);
    assert vocabulary[..i + 1][..i] == vocabulary[..i];
    var upTo := Flat(maps, vocabulary[..i + 1]);
    var start := |Flat(maps, vocabulary[..i])|;
    assert upTo == Flat(maps, vocabulary[..i]) + Postings(maps, vocabulary[i]);
    assert Flat(maps, vocabulary)[start..|upTo|] == Flat(maps, vocabulary)[..|upTo|][start..];
  }

  /** `lowerBound`: the first entry that does not precede the target. */
  method LowerBound(values: seq<Text>, target: Text) returns (low: nat)
    requires Ascending(values)
    ensures low <= |values|
    ensures forall v :: v in values[..low] ==> Precedes(v, target)
    ensures forall v :: v in values[low..] ==> !Precedes(v, target)
  {
    low := 0;
    var high := |values|;
    while low < high
      invariant low <= high <= |values|
      invariant forall v :: v in values[..low] ==> Precedes(v, target)
      invariant forall v :: v in values[high..] ==> !Precedes(v, target)
    {
      var middle := low + (high - low) / 2;
      if Precedes(values[middle], target) {
        Below(values, middle, target);
        low := middle + 1;
      } else {
        Above(values, middle, target);
        high := middle;
      }
    }
  }

  lemma Below(values: seq<Text>, i: nat, target: Text)
    requires Ascending(values) && i < |values| && Precedes(values[i], target)
    ensures forall v :: v in values[..i + 1] ==> Precedes(v, target)
  {
    AscendingSplit(values, i);
    assert values[..i + 1] == values[..i] + [values[i]];
    forall v | v in values[..i] ensures Precedes(v, target) {
      LessTransitive(v.chars, values[i].chars, target.chars);
    }
  }

  lemma Above(values: seq<Text>, i: nat, target: Text)
    requires Ascending(values) && i < |values| && !Precedes(values[i], target)
    ensures forall v :: v in values[i..] ==> !Precedes(v, target)
  {
    AscendingSplit(values, i);
    assert values[i..] == [values[i]] + values[i + 1..];
    forall v | v in values[i + 1..] ensures !Precedes(v, target) {
      assert Precedes(values[i], v);
      PrecedesNot(values[i], v, target);
    }
  }

  lemma PrecedesNot(a: Text, b: Text, c: Text)
    requires Precedes(a, b) && !Precedes(a, c)
    ensures !Precedes(b, c)
  {
    if Less(b.chars, c.chars) { LessTransitive(a.chars, b.chars, c.chars); }
  }

  /** Entries before an index precede it, entries after it follow it. */
  lemma {:induction false} AscendingSplit(values: seq<Text>, i: nat)
    requires Ascending(values) && i < |values|
    ensures forall v :: v in values[..i] ==> Precedes(v, values[i])
    ensures forall v :: v in values[i + 1..] ==> Precedes(values[i], v)
  {
    if i > 0 {
      AscendingSplit(values[1..], i - 1);
      assert values[..i] == [values[0]] + values[1..][..i - 1];
      assert values[i + 1..] == values[1..][i..];
      assert values[i] in values[1..];
    }
  }

  /** Behind a term's place in the order, its matches come first, without a gap. */
  lemma PrefixRun(term: Text, entry: Text, later: Text)
    requires !Precedes(entry, term) && Precedes(entry, later) && !(term.chars <= entry.chars)
    ensures !(term.chars <= later.chars)
  {
    PrefixRunChars(term.chars, entry.chars, later.chars);
  }

  lemma PrefixTail(t: string, l: string)
    requires t != [] && t <= l
    ensures t[1..] <= l[1..]
  {
    assert t[1..] == l[1..][..|t| - 1];
  }

  lemma {:induction false} PrefixRunChars(t: string, e: string, l: string)
    requires !Less(e, t) && Less(e, l) && !(t <= e)
    ensures !(t <= l)
  {
    if e != [] && l != [] && e[0] == l[0] && t[0] == e[0] {
      assert e == [e[0]] + e[1..] && t == [t[0]] + t[1..] && l == [l[0]] + l[1..];
      assert t[1..] <= e[1..] ==> t <= e;
      if t <= l { PrefixTail(t, l); }
      PrefixRunChars(t[1..], e[1..], l[1..]);
    }
  }

  lemma {:induction false} PrefixNotBefore(term: string, entry: string)
    requires term <= entry
    ensures !Less(entry, term)
  {
    if term != [] {
      assert entry[0] == term[0] && term[1..] <= entry[1..];
      PrefixNotBefore(term[1..], entry[1..]);
    }
  }
}
