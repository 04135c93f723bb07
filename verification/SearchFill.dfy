/** The constructor's typed arrays: postings, ranks and tag ids, each filled in place and then frozen. */
module SearchFill {
  import opened Wrappers
  import opened Ordering
  import opened SearchCorpus
  import opened SearchIndex
  import opened SearchRanking
  import opened SearchBuild

  function Zip(ids: seq<int>, frequencies: seq<real>): (r: seq<Posting>)
    requires |ids| == |frequencies|
    ensures |r| == |ids|
  {
    if ids == [] then []
    else Zip(ids[..|ids| - 1], frequencies[..|ids| - 1]) + [Posting(ids[|ids| - 1], frequencies[|ids| - 1])]
  }

  lemma {:induction false} ZipAt(ids: seq<int>, frequencies: seq<real>, i: nat)
    requires |ids| == |frequencies| && i < |ids|
    ensures Zip(ids, frequencies)[i] == Posting(ids[i], frequencies[i])
  {
    if i < |ids| - 1 { ZipAt(ids[..|ids| - 1], frequencies[..|ids| - 1], i); }
  }

  /** The flat posting arrays and their offsets. */
  datatype PostingArrays = PostingArrays(ids: seq<int>, frequencies: seq<real>, offsets: seq<int>)

  ghost predicate Flattens(a: PostingArrays, maps: seq<map<Text, real>>, vocabulary: seq<Text>) {
    && |a.ids| == |a.frequencies| && Zip(a.ids, a.frequencies) == Flat(maps, vocabulary)
    && a.offsets == OffsetsUpTo(maps, vocabulary, |vocabulary| + 1)
  }

  /** Where each entry's postings start; the last offset is where they end. */
  function OffsetsUpTo(maps: seq<map<Text, real>>, vocabulary: seq<Text>, n: nat): (r: seq<int>)
    requires n <= |vocabulary| + 1
    ensures |r| == n
  {
    if n == 0 then [] else OffsetsUpTo(maps, vocabulary, n - 1) + [|Flat(maps, vocabulary[..n - 1])|]
  }

  lemma {:induction false} OffsetsAt(maps: seq<map<Text, real>>, vocabulary: seq<Text>, n: nat, k: nat)
    requires k < n <= |vocabulary| + 1
    ensures OffsetsUpTo(maps, vocabulary, n)[k] == |Flat(maps, vocabulary[..k])|
  {
    if k < n - 1 { OffsetsAt(maps, vocabulary, n - 1, k); }
  }

  method CountPostings(postings: map<Text, seq<Posting>>, ghost maps: seq<map<Text, real>>, vocabulary: seq<Text>)
    returns (count: nat)
    requires Collected(postings, maps) && forall v :: v in vocabulary ==> v in postings
    ensures count == |Flat(maps, vocabulary)|
  {
    count := 0;
    for i := 0 to |vocabulary|
      invariant count == |Flat(maps, vocabulary[..i])|
    {
      assert vocabulary[i] in vocabulary && vocabulary[..i + 1][..i] == vocabulary[..i];
      assert Listed(postings, vocabulary[i]) == Postings(maps, vocabulary[i]);
      count := count + |postings[vocabulary[i]]|;
    }
    assert vocabulary[..|vocabulary|] == vocabulary;
  }

  /** One posting list copied behind what is already there. */
  method CopyPostings(posting: seq<Posting>, ids: array<int>, frequencies: array<real>, at: nat,
        ghost before: seq<Posting>)
    requires ids.Length == frequencies.Length && at + |posting| <= ids.Length
    requires Zip(ids[..at], frequencies[..at]) == before
    modifies ids, frequencies
    ensures Zip(ids[..at + |posting|], frequencies[..at + |posting|]) == before + posting
  {
    for j := 0 to |posting|
      invariant Zip(ids[..at + j], frequencies[..at + j]) == before + posting[..j]
    {
      ghost var someIds, someFrequencies := ids[..at + j], frequencies[..at + j];
      ids[at + j] := posting[j].id;
      frequencies[at + j] := posting[j].frequency;
      assert ids[..at + j + 1] == someIds + [posting[j].id];
      assert frequencies[..at + j + 1] == someFrequencies + [posting[j].frequency];
      assert posting[..j + 1] == posting[..j] + [posting[j]];
    }
    assert posting[..|posting|] == posting;
  }

  method FillPostings(postings: map<Text, seq<Posting>>, ghost maps: seq<map<Text, real>>, vocabulary: seq<Text>)
    returns (a: PostingArrays)
    requires Collected(postings, maps) && forall v :: v in vocabulary ==> v in postings
    ensures Flattens(a, maps, vocabulary)
  {
    var count := CountPostings(postings, maps, vocabulary);
    var ids := new int[count];
    var frequencies := new real[count];
    var offsets := new int[|vocabulary| + 1];
    CopyAll(postings, maps, vocabulary, ids, frequencies, offsets);
    a := PostingArrays(ids[..], frequencies[..], offsets[..]);
  }

  /** The arrays hold the first entries' postings. */
  ghost predicate FilledUpTo(ids: seq<int>, frequencies: seq<real>, offsets: seq<int>, maps: seq<map<Text, real>>,
        vocabulary: seq<Text>, i: nat)
    requires i <= |vocabulary| && |ids| == |frequencies|
  {
    Zip(ids, frequencies) == Flat(maps, vocabulary[..i]) && offsets == OffsetsUpTo(maps, vocabulary, i)
  }

  method CopyAll(postings: map<Text, seq<Posting>>, ghost maps: seq<map<Text, real>>, vocabulary: seq<Text>,
                 ids: array<int>, frequencies: array<real>, offsets: array<int>)
    requires Collected(postings, maps) && forall v :: v in vocabulary ==> v in postings
    requires ids.Length == frequencies.Length == |Flat(maps, vocabulary)|
    requires offsets.Length == |vocabulary| + 1 && offsets != ids
    modifies ids, frequencies, offsets
    ensures Zip(ids[..], frequencies[..]) == Flat(maps, vocabulary)
    ensures offsets[..] == OffsetsUpTo(maps, vocabulary, |vocabulary| + 1)
  {
    var at: nat := 0;
    for i := 0 to |vocabulary|
      invariant at <= ids.Length && FilledUpTo(ids[..at], frequencies[..at], offsets[..i], maps, vocabulary, i)
    {
      assert vocabulary[i] in vocabulary;
      assert Listed(postings, vocabulary[i]) == Postings(maps, vocabulary[i]);
      FlatNext(maps, vocabulary, i);
      at := CopyEntry(postings[vocabulary[i]], ids, frequencies, offsets, i, at, Flat(maps, vocabulary[..i]));
    }
    offsets[|vocabulary|] := at;
    assert vocabulary[..|vocabulary|] == vocabulary;
    assert offsets[..] == offsets[..|vocabulary|] + [at];
    assert ids[..at] == ids[..] && frequencies[..at] == frequencies[..];
  }

  method CopyEntry(posting: seq<Posting>, ids: array<int>, frequencies: array<real>, offsets: array<int>,
                   i: nat, at: nat, ghost before: seq<Posting>) returns (end: nat)
    requires ids.Length == frequencies.Length && at + |posting| <= ids.Length && i < offsets.Length && offsets != ids
    requires Zip(ids[..at], frequencies[..at]) == before
    modifies ids, frequencies, offsets
    ensures end == at + |posting| && Zip(ids[..end], frequencies[..end]) == before + posting
    ensures offsets[..i + 1] == old(offsets[..i]) + [at]
  {
    offsets[i] := at;
    CopyPostings(posting, ids, frequencies, at, before);
    end := at + |posting|;
  }

  lemma FlatNext(maps: seq<map<Text, real>>, vocabulary: seq<Text>, i: nat)
    requires i < |vocabulary|
    ensures Flat(maps, vocabulary[..i + 1]) == Flat(maps, vocabulary[..i]) + Postings(maps, vocabulary[i])
    ensures |Flat(maps, vocabulary[..i + 1])| <= |Flat(maps, vocabulary)|
  {
    assert vocabulary[..i + 1][..i] == vocabulary[..i];
    FlatPrefix(maps, vocabulary, i + 1);
  }

  /** `ordinalDocumentIds.sort`: the runtime's stable sort by name alone. */
  function NameOrder(documents: seq<IndexedDocument>): Order {
    (a: int, b: int) => 0 <= a < |documents| && 0 <= b < |documents| && Precedes(documents[a].name, documents[b].name)
  }

  lemma NameOrderAgrees(corpus: seq<Doc>, low: int, y: int)
    requires 0 <= low < y < |corpus|
    ensures if NameOrder(IndexedDocuments(corpus))(y, low) then OrdinalOrder(corpus)(y, low)
      else OrdinalOrder(corpus)(low, y)
  {
    IndexedDocumentsAt(corpus, y);
    IndexedDocumentsAt(corpus, low);
    OrdinalOrderTotal(corpus, y, low);
  }

  lemma {:induction false} StableByName(corpus: seq<Doc>, low: nat)
    ensures StrictlySorted(OrdinalOrder(corpus), Sort(NameOrder(IndexedDocuments(corpus)), IdsFrom(low, |corpus|)))
    decreases |corpus| - low
  {
    if low < |corpus| {
      var before, o := NameOrder(IndexedDocuments(corpus)), OrdinalOrder(corpus);
      var ids := IdsFrom(low + 1, |corpus|);
      assert IdsFrom(low, |corpus|) == [low as int] + ids;
      StableByName(corpus, low + 1);
      SortMembers(before, ids);
      IdsMembers(low + 1, |corpus|);
      OrdinalOrderStrict(corpus);
      forall y | y in Sort(before, ids) ensures if before(y, low) then o(y, low) else o(low, y) {
        NameOrderAgrees(corpus, low, y);
      }
      InsertStrict(before, o, low, Sort(before, ids));
      assert ([low as int] + ids)[1..] == ids;
    }
  }

  /** The stable sort by name is document order. */
  lemma StableIsOrdinal(log: real -> real, corpus: seq<Doc>)
    ensures Sort(NameOrder(IndexedDocuments(corpus)), Ids(|corpus|)) == Ranking(log, corpus, [])
  {
    StableByName(corpus, 0);
    OrdinalRankingMeans(log, corpus);
    OrdinalOrderStrict(corpus);
    SortPermutes(NameOrder(IndexedDocuments(corpus)), Ids(|corpus|));
    StrictlySortedUnique(OrdinalOrder(corpus), Sort(NameOrder(IndexedDocuments(corpus)), Ids(|corpus|)),
      Ranking(log, corpus, []));
  }

  /** Ranks compare as documents do. */
  ghost predicate RanksOrder(ranks: seq<int>, corpus: seq<Doc>) {
    |ranks| == |corpus| &&
    forall a, b {:trigger ranks[a], ranks[b]} :: 0 <= a < |corpus| && 0 <= b < |corpus| ==>
      (ranks[a] < ranks[b] <==> OrdinalOrder(corpus)(a, b))
  }

  lemma {:induction false} SortedAt(o: Order, s: seq<int>, i: nat, j: nat)
    requires StrictlySorted(o, s) && i < j < |s|
    ensures o(s[i], s[j])
  {
    assert s[1..][j - 1] == s[j];
    if i == 0 {
      assert s[j] in s[1..];
    } else {
      assert s[1..][i - 1] == s[i];
      SortedAt(o, s[1..], i - 1, j - 1);
    }
  }

  method FillRanks(ghost corpus: seq<Doc>, ordinal: seq<int>) returns (ranks: seq<int>)
    requires StrictlySorted(OrdinalOrder(corpus), ordinal) && multiset(ordinal) == multiset(Ids(|corpus|))
    ensures RanksOrder(ranks, corpus)
  {
    OrdinalMembers(corpus, ordinal);
    var filled := new int[|ordinal|];
    for r := 0 to |ordinal|
      invariant forall k :: 0 <= k < r ==> filled[ordinal[k]] == k
    {
      OrdinalOrderStrict(corpus);
      forall k | 0 <= k < r ensures ordinal[k] != ordinal[r] { SortedAt(OrdinalOrder(corpus), ordinal, k, r); }
      filled[ordinal[r]] := r;
    }
    ranks := filled[..];
    forall a, b | 0 <= a < |corpus| && 0 <= b < |corpus| ensures ranks[a] < ranks[b] <==> OrdinalOrder(corpus)(a, b) {
      assert a in ordinal && b in ordinal;
      var i :| 0 <= i < |ordinal| && ordinal[i] == a;
      var j :| 0 <= j < |ordinal| && ordinal[j] == b;
      OrdinalOrderStrict(corpus);
      if i < j { SortedAt(OrdinalOrder(corpus), ordinal, i, j); }
      if j < i { SortedAt(OrdinalOrder(corpus), ordinal, j, i); }
    }
  }

  lemma OrdinalMembers(corpus: seq<Doc>, ordinal: seq<int>)
    requires multiset(ordinal) == multiset(Ids(|corpus|))
    ensures |ordinal| == |corpus|
    ensures forall k :: 0 <= k < |ordinal| ==> 0 <= ordinal[k] < |corpus|
    ensures forall d :: 0 <= d < |corpus| ==> d in ordinal
  {
    IdsLength(0, |corpus|);
    assert |multiset(ordinal)| == |ordinal| && |multiset(Ids(|corpus|))| == |Ids(|corpus|)|;
    forall k | 0 <= k < |ordinal| ensures 0 <= ordinal[k] < |corpus| {
      assert ordinal[k] in multiset(ordinal);
      IdsHold(0, |corpus|, ordinal[k]);
    }
    forall d | 0 <= d < |corpus| ensures d in ordinal {
      IdsHold(0, |corpus|, d);
      assert d in multiset(ordinal);
    }
  }

  lemma {:induction false} IdsLength(low: nat, n: nat)
    requires low <= n
    ensures |IdsFrom(low, n)| == n - low
    decreases n - low
  {
    if low < n { IdsLength(low + 1, n); }
  }

  /** The folded tags of the documents, one after another. */
  function FlatTags(tags: seq<seq<Text>>): seq<Text> {
    if tags == [] then [] else FlatTags(tags[..|tags| - 1]) + tags[|tags| - 1]
  }

  datatype TagArrays = TagArrays(ids: seq<int>, offsets: seq<int>)

  /** Each tag id names the tag at its place in the vocabulary. */
  ghost predicate NamesTags(ids: seq<int>, vocabulary: seq<Text>, texts: seq<Text>) {
    |ids| == |texts| &&
    forall i {:trigger ids[i]} :: 0 <= i < |ids| ==> 0 <= ids[i] < |vocabulary| && vocabulary[ids[i]] == texts[i]
  }

  ghost predicate FlattensTags(a: TagArrays, tags: seq<seq<Text>>, vocabulary: seq<Text>) {
    && NamesTags(a.ids, vocabulary, FlatTags(tags))
    && |a.offsets| == |tags| + 1
    && (forall d {:trigger a.offsets[d]} :: 0 <= d <= |tags| ==> a.offsets[d] == |FlatTags(tags[..d])|)
  }

  lemma {:induction false} FlatTagsPrefix(tags: seq<seq<Text>>, d: nat)
    requires d <= |tags|
    ensures |FlatTags(tags[..d])| <= |FlatTags(tags)| && FlatTags(tags)[..|FlatTags(tags[..d])|] == FlatTags(tags[..d])
    decreases |tags|
  {
    if d == |tags| {
      assert tags[..d] == tags;
    } else {
      FlatTagsPrefix(tags[..|tags| - 1], d);
      assert tags[..|tags| - 1][..d] == tags[..d];
    }
  }

  lemma FlatTagsSlice(tags: seq<seq<Text>>, d: nat)
    requires d < |tags|
    ensures var start, end := |FlatTags(tags[..d])|, |FlatTags(tags[..d + 1])|;
      start <= end <= |FlatTags(tags)| && FlatTags(tags)[start..end] == tags[d]
  {
    FlatTagsPrefix(tags, d + 1);
    assert tags[..d + 1][..d] == tags[..d];
    var upTo := FlatTags(tags[..d + 1]);
    var start := |FlatTags(tags[..d])|;
    assert upTo == FlatTags(tags[..d]) + tags[d];
    assert FlatTags(tags)[start..|upTo|] == FlatTags(tags)[..|upTo|][start..];
  }

  /** A sorted vocabulary finds its own entries, and no others. */
  lemma LowerBoundFinds(values: seq<Text>, target: Text, low: nat)
    requires Ascending(values) && low <= |values|
    requires forall v :: v in values[..low] ==> Precedes(v, target)
    requires forall v :: v in values[low..] ==> !Precedes(v, target)
    ensures target in values <==> low < |values| && values[low] == target
  {
    LessIrreflexive(target.chars);
    assert values == values[..low] + values[low..];
    if target in values {
      assert target in values[low..];
      assert values[low] in values[low..];
      AscendingSplit(values, low);
      assert values[low..] == [values[low]] + values[low + 1..];
    }
  }

  method CountTags(tags: seq<seq<Text>>) returns (count: nat)
    ensures count == |FlatTags(tags)|
  {
    count := 0;
    for d := 0 to |tags|
      invariant count == |FlatTags(tags[..d])|
    {
      assert tags[..d + 1][..d] == tags[..d];
      count := count + |tags[d]|;
    }
    assert tags[..|tags|] == tags;
  }

  method CopyTags(tags: seq<Text>, vocabulary: seq<Text>, ids: array<int>, at: nat, ghost before: seq<Text>)
    requires Ascending(vocabulary) && forall t :: t in tags ==> t in vocabulary
    requires at + |tags| <= ids.Length && NamesTags(ids[..at], vocabulary, before)
    modifies ids
    ensures NamesTags(ids[..at + |tags|], vocabulary, before + tags)
  {
    for j := 0 to |tags|
      invariant NamesTags(ids[..at + j], vocabulary, before + tags[..j])
    {
      ghost var named := ids[..at + j];
      var low := LowerBound(vocabulary, tags[j]);
      LowerBoundFinds(vocabulary, tags[j], low);
      assert tags[j] in tags;
      ids[at + j] := low;
      assert ids[..at + j + 1] == named + [low];
      assert before + tags[..j + 1] == before + tags[..j] + [tags[j]];
    }
    assert tags[..|tags|] == tags;
  }

  method FillTags(tags: seq<seq<Text>>, vocabulary: seq<Text>) returns (a: TagArrays)
    requires Ascending(vocabulary) && forall d, t :: 0 <= d < |tags| && t in tags[d] ==> t in vocabulary
    ensures FlattensTags(a, tags, vocabulary)
  {
    var count := CountTags(tags);
    var ids := new int[count];
    var offsets := new int[|tags| + 1];
    var at := 0;
    for d := 0 to |tags|
      invariant at == |FlatTags(tags[..d])| <= count
      invariant NamesTags(ids[..at], vocabulary, FlatTags(tags[..d]))
      invariant forall k :: 0 <= k < d ==> offsets[k] == |FlatTags(tags[..k])|
    {
      offsets[d] := at;
      assert tags[..d + 1][..d] == tags[..d];
      FlatTagsPrefix(tags, d + 1);
      CopyTags(tags[d], vocabulary, ids, at, FlatTags(tags[..d]));
      at := at + |tags[d]|;
    }
    offsets[|tags|] := at;
    assert tags[..|tags|] == tags;
    assert ids[..at] == ids[..];
    a := TagArrays(ids[..], offsets[..]);
  }
}
