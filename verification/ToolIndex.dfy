/** The index class: built once from the documents, then searched. Its answers are those of the plain ranking. */
module ToolIndexes {
  import opened Wrappers
  import opened Ordering
  import opened SearchCorpus
  import opened SearchIndex
  import opened SearchRanking
  import opened SearchBuild
  import opened SearchFill
  import opened SearchScoring
  import opened SearchTerms

  datatype SearchError = LimitMustBePositive

  /** The tag side of the index. */
  ghost predicate IndexesTags(a: TagArrays, vocabulary: seq<Text>, tags: seq<seq<Text>>, corpus: seq<Doc>) {
    && Ascending(vocabulary) && TagsRead(tags, corpus) && FlattensTags(a, tags, vocabulary)
    && (forall d {:trigger tags[d]} :: 0 <= d < |tags| ==> forall t :: t in tags[d] ==> t in vocabulary)
  }

  /** A wanted id stands for a folded tag: its place in the vocabulary, or just past the end. */
  ghost predicate Wants(ids: seq<int>, vocabulary: seq<Text>, folded: seq<Text>) {
    |ids| == |folded| && forall i {:trigger ids[i]} :: 0 <= i < |ids| ==>
      if folded[i] in vocabulary then 0 <= ids[i] < |vocabulary| && vocabulary[ids[i]] == folded[i]
        else ids[i] == |vocabulary|
  }

  function FoldAll(lex: Lexicon, tags: seq<Text>): (r: seq<Text>)
    ensures |r| == |tags|
    ensures forall t :: t in r <==> t in Folded(lex, tags)
  {
    if tags == [] then []
    else
      var r := FoldAll(lex, tags[..|tags| - 1]) + [lex.fold(tags[|tags| - 1])];
      FoldedSnoc(lex, tags);
      r
  }

  lemma FoldedSnoc(lex: Lexicon, tags: seq<Text>)
    requires tags != []
    ensures Folded(lex, tags) == Folded(lex, tags[..|tags| - 1]) + {lex.fold(tags[|tags| - 1])}
  {
    assert tags == tags[..|tags| - 1] + [tags[|tags| - 1]];
  }

  lemma AscendingAt(vocabulary: seq<Text>, i: nat, j: nat)
    requires Ascending(vocabulary) && i < j < |vocabulary|
    ensures vocabulary[i] != vocabulary[j]
  {
    AscendingSplit(vocabulary, j);
    assert vocabulary[..j][i] == vocabulary[i];
    assert vocabulary[i] in vocabulary[..j];
    LessIrreflexive(vocabulary[j].chars);
  }

  lemma AscendingDistinctAt(vocabulary: seq<Text>, i: nat, j: nat)
    requires Ascending(vocabulary) && i < |vocabulary| && j < |vocabulary| && vocabulary[i] == vocabulary[j]
    ensures i == j
  {
    if i < j { AscendingAt(vocabulary, i, j); }
    if j < i { AscendingAt(vocabulary, j, i); }
  }

  /** A run of tag ids holds a wanted id exactly when the texts it names hold the wanted tag. */
  lemma WantedIsNamed(ids: seq<int>, vocabulary: seq<Text>, texts: seq<Text>, wanted: int, folded: Text)
    requires Ascending(vocabulary) && NamesTags(ids, vocabulary, texts)
    requires if folded in vocabulary then 0 <= wanted < |vocabulary| && vocabulary[wanted] == folded
      else wanted == |vocabulary|
    ensures wanted in ids <==> folded in texts
  {
    if folded in texts {
      var k :| 0 <= k < |texts| && texts[k] == folded;
      assert vocabulary[ids[k]] == folded;
      AscendingDistinctAt(vocabulary, ids[k], wanted);
    }
    if wanted in ids {
      var k :| 0 <= k < |ids| && ids[k] == wanted;
      assert vocabulary[ids[k]] == texts[k];
    }
  }

  lemma WantedIsCarried(a: TagArrays, vocabulary: seq<Text>, tags: seq<seq<Text>>, corpus: seq<Doc>, d: nat,
        wanted: int, folded: Text)
    requires IndexesTags(a, vocabulary, tags, corpus) && d < |corpus|
    requires if folded in vocabulary then 0 <= wanted < |vocabulary| && vocabulary[wanted] == folded
      else wanted == |vocabulary|
    ensures 0 <= a.offsets[d] <= a.offsets[d + 1] <= |a.ids|
    ensures wanted in a.ids[a.offsets[d]..a.offsets[d + 1]] <==> folded in corpus[d].tags
  {
    FlatTagsSlice(tags, d);
    var start, end := |FlatTags(tags[..d])|, |FlatTags(tags[..d + 1])|;
    assert a.offsets[d] == start && a.offsets[d + 1] == end;
    WantedIsNamed(a.ids[start..end], vocabulary, FlatTags(tags)[start..end], wanted, folded);
    assert folded in tags[d] <==> folded in corpus[d].tags;
  }

  /** The comparison that sorts results: scores downwards, then ordinal ranks. */
  function ResultOrder(scores: seq<real>, ranks: seq<int>): Order {
    (left: int, right: int) => 0 <= left < |scores| && 0 <= right < |scores| && |ranks| == |scores| &&
      if scores[right] - scores[left] != 0.0 then scores[right] - scores[left] < 0.0 else ranks[left] - ranks[right] < 0
  }

  /** The survivors, sorted, are in strict result order and are the scoring documents that carry the tags. */
  lemma SortedSurvivors(scores: seq<real>, scored: seq<int>, ranks: seq<int>, log: real -> real, corpus: seq<Doc>,
        terms: seq<Text>, tags: set<Text>)
    requires Scores(scores, log, corpus, terms) && Exact(Tally(scores, scored)) && RanksOrder(ranks, corpus)
    ensures StrictlySorted(ScoreOrder(log, corpus, terms),
      Sort(ResultOrder(scores, ranks), Carrying(corpus, scored, tags)))
    ensures multiset(Sort(ResultOrder(scores, ranks), Carrying(corpus, scored, tags)))
      == multiset(Carrying(corpus, scored, tags))
  {
    var before, o := ResultOrder(scores, ranks), ScoreOrder(log, corpus, terms);
    var survivors := Carrying(corpus, scored, tags);
    ScoreOrderStrict(log, corpus, terms);
    CarryingKeeps(o, corpus, scored, tags);
    ScoredInRange(scores, scored);
    forall d: int ensures multiset(survivors)[d] <= 1 { ScoredOnce(scores, scored, d); }
    forall a, b | a in survivors && b in survivors && a != b ensures if before(a, b) then o(a, b) else o(b, a) {
      OrdersAgree(scores, ranks, log, corpus, terms, a, b);
    }
    SortStrict(before, o, survivors);
    SortPermutes(before, survivors);
  }

  /** Filtering before sorting gives the plain ranking with the other documents dropped. */
  lemma FilteredRanking(scores: seq<real>, scored: seq<int>, ranks: seq<int>, log: real -> real, corpus: seq<Doc>,
        terms: seq<Text>, tags: set<Text>)
    requires Scores(scores, log, corpus, terms) && Exact(Tally(scores, scored)) && RanksOrder(ranks, corpus)
      && terms != []
    ensures Sort(ResultOrder(scores, ranks), Carrying(corpus, scored, tags))
      == Carrying(corpus, Ranking(log, corpus, terms), tags)
  {
    var o := ScoreOrder(log, corpus, terms);
    var ranking := Ranking(log, corpus, terms);
    SortedSurvivors(scores, scored, ranks, log, corpus, terms, tags);
    ScoreOrderStrict(log, corpus, terms);
    RankingMeans(log, corpus, terms);
    CarryingKeeps(o, corpus, scored, tags);
    CarryingKeeps(o, corpus, ranking, tags);
    forall d: int ensures multiset(Carrying(corpus, scored, tags))[d] == multiset(Carrying(corpus, ranking, tags))[d] {
      ScoredOnce(scores, scored, d);
      assert multiset(ranking)[d] == if 0 <= d < |corpus| && Score(log, corpus, terms, d) > 0.0 then 1 else 0;
    }
    StrictlySortedUnique(o, Sort(ResultOrder(scores, ranks), Carrying(corpus, scored, tags)),
      Carrying(corpus, ranking, tags));
  }

  lemma ScoredOnce(scores: seq<real>, scored: seq<int>, d: int)
    requires Exact(Tally(scores, scored))
    ensures multiset(scored)[d] == if 0 <= d < |scores| && scores[d] > 0.0 then 1 else 0
  {
    assert Tally(scores, scored).touched == scored;
  }

  lemma OrdersAgree(scores: seq<real>, ranks: seq<int>, log: real -> real, corpus: seq<Doc>, terms: seq<Text>, a: int,
        b: int)
    requires Scores(scores, log, corpus, terms) && RanksOrder(ranks, corpus)
    requires 0 <= a < |corpus| && 0 <= b < |corpus| && a != b
    ensures if ResultOrder(scores, ranks)(a, b) then ScoreOrder(log, corpus, terms)(a, b)
      else ScoreOrder(log, corpus, terms)(b, a)
  {
    assert scores[a] == Score(log, corpus, terms, a) && scores[b] == Score(log, corpus, terms, b);
    assert ranks[a] < ranks[b] <==> OrdinalOrder(corpus)(a, b);
    OrdinalOrderTotal(corpus, a, b);
    OrdinalOrderStrict(corpus);
  }

  class ToolIndex {
    const lex: Lexicon
    const index: Index
    const ordinalDocumentIds: seq<int>
    const ordinalRanks: seq<int>
    const tagVocabulary: seq<Text>
    const documentTags: TagArrays
    ghost const corpus: seq<Doc>
    ghost const foldedTags: seq<seq<Text>>

    ghost predicate Valid() {
      && Indexes(index, corpus)
      && ordinalDocumentIds == Ranking(lex.log, corpus, [])
      && RanksOrder(ordinalRanks, corpus)
      && IndexesTags(documentTags, tagVocabulary, foldedTags, corpus)
    }

    constructor (lex: Lexicon, documents: seq<SearchDocument>)
      ensures Valid() && this.lex == lex && corpus == Corpus(lex, documents)
    {
      ghost var read := Corpus(lex, documents);
      var indexed, postings, tags, allTags := ReadDocuments(lex, documents);
      var mean := MeanLength(indexed, read);
      var ordinal := Sort(NameOrder(indexed), Ids(|indexed|));
      StableIsOrdinal(lex.log, read);
      OrdinalRankingMeans(lex.log, read);
      var ranks := FillRanks(read, ordinal);
      var vocabulary := SortedKeys(postings.Keys);
      EnumeratesMembers(vocabulary, postings.Keys);
      var arrays := FillPostings(postings, Maps(read), vocabulary);
      var tagWords := SortedKeys(allTags);
      EnumeratesMembers(tagWords, allTags);
      var tagArrays := FillTags(tags, tagWords);
      BuiltIndexes(lex, documents, postings, vocabulary, arrays, mean);
      this.lex := lex;
      index := Index(vocabulary, arrays, indexed, mean);
      ordinalDocumentIds := ordinal;
      ordinalRanks := ranks;
      tagVocabulary := tagWords;
      documentTags := tagArrays;
      corpus := read;
      foldedTags := tags;
    }

    /** `tagFilterIds`: nothing when no tag was asked for. */
    method TagFilterIds(tags: seq<Text>) returns (filter: Option<seq<int>>)
      requires Valid()
      ensures filter.None? <==> tags == []
      ensures filter.Some? ==> Wants(filter.value, tagVocabulary, FoldAll(lex, tags))
    {
      if |tags| == 0 { return None; }
      var ids := [];
      for i := 0 to |tags|
        invariant Wants(ids, tagVocabulary, FoldAll(lex, tags[..i]))
      {
        var folded := lex.fold(tags[i]);
        var low := LowerBound(tagVocabulary, folded);
        LowerBoundFinds(tagVocabulary, folded, low);
        assert tags[..i + 1][..i] == tags[..i];
        ids := ids + [if low < |tagVocabulary| && tagVocabulary[low] == folded then low else |tagVocabulary|];
      }
      assert tags[..|tags|] == tags;
      filter := Some(ids);
    }

    /** `carriesEveryTag`: every wanted id is among the document's. */
    method CarriesEveryTag(documentId: int, filter: seq<int>, ghost folded: seq<Text>) returns (carries: bool)
      requires Valid() && 0 <= documentId < |corpus| && Wants(filter, tagVocabulary, folded)
      ensures carries <==> forall t :: t in folded ==> t in corpus[documentId].tags
    {
      for i := 0 to |filter|
        invariant forall t :: t in folded[..i] ==> t in corpus[documentId].tags
      {
        WantedIsCarried(documentTags, tagVocabulary, foldedTags, corpus, documentId, filter[i], folded[i]);
        var found := Holds(documentTags.ids, documentTags.offsets[documentId], documentTags.offsets[documentId + 1],
          filter[i]);
        if !found {
          assert folded[i] in folded;
          return false;
        }
        assert folded[..i + 1] == folded[..i] + [folded[i]];
      }
      assert folded[..|filter|] == folded;
      carries := true;
    }

    method Admits(documentId: int, filter: Option<seq<int>>, ghost tags: seq<Text>) returns (admitted: bool)
      requires Valid() && 0 <= documentId < |corpus|
      requires (filter.None? <==> tags == [])
        && (filter.Some? ==> Wants(filter.value, tagVocabulary, FoldAll(lex, tags)))
      ensures admitted <==> CarriesAt(corpus, documentId, Folded(lex, tags))
    {
      if filter.None? { return true; }
      admitted := CarriesEveryTag(documentId, filter.value, FoldAll(lex, tags));
    }

    /** The page of an empty query: documents by name until the limit. */
    method ListByName(limit: nat, filter: Option<seq<int>>, ghost tags: seq<Text>) returns (names: seq<Text>)
      requires Valid() && limit > 0
      requires (filter.None? <==> tags == [])
        && (filter.Some? ==> Wants(filter.value, tagVocabulary, FoldAll(lex, tags)))
      ensures names == Names(corpus, Take(Carrying(corpus, Ranking(lex.log, corpus, []), Folded(lex, tags)), limit))
    {
      names := [];
      ghost var folded := Folded(lex, tags);
      ListedInRange(lex.log, corpus);
      var i := 0;
      while i < |ordinalDocumentIds| && |names| < limit
        invariant 0 <= i <= |ordinalDocumentIds| && |names| <= limit
        invariant names == Names(corpus, Carrying(corpus, ordinalDocumentIds[..i], folded))
      {
        var documentId := ordinalDocumentIds[i];
        assert documentId in ordinalDocumentIds;
        CarryingNext(corpus, ordinalDocumentIds, i, folded);
        var admitted := Admits(documentId, filter, tags);
        if admitted {
          IndexedDocumentsAt(corpus, documentId);
          names := names + [index.documents[documentId].name];
        }
        i := i + 1;
      }
      CarryingTaken(corpus, ordinalDocumentIds, i, folded, limit);
    }

    method Survivors(scored: seq<int>, filter: Option<seq<int>>, ghost tags: seq<Text>) returns (survivors: seq<int>)
      requires Valid() && forall d :: d in scored ==> 0 <= d < |corpus|
      requires (filter.None? <==> tags == [])
        && (filter.Some? ==> Wants(filter.value, tagVocabulary, FoldAll(lex, tags)))
      ensures survivors == Carrying(corpus, scored, Folded(lex, tags))
    {
      survivors := [];
      ghost var folded := Folded(lex, tags);
      for i := 0 to |scored|
        invariant survivors == Carrying(corpus, scored[..i], folded)
      {
        assert scored[i] in scored;
        CarryingNext(corpus, scored, i, folded);
        var admitted := Admits(scored[i], filter, tags);
        if admitted {
          survivors := survivors + [scored[i]];
        }
      }
      assert scored[..|scored|] == scored;
    }

    method NamesOf(ids: seq<int>) returns (names: seq<Text>)
      requires Valid() && forall d :: d in ids ==> 0 <= d < |corpus|
      ensures names == Names(corpus, ids)
    {
      names := [];
      for i := 0 to |ids|
        invariant names == Names(corpus, ids[..i])
      {
        assert ids[i] in ids;
        IndexedDocumentsAt(corpus, ids[i]);
        NamesSplit(corpus, ids[..i], [ids[i]]);
        assert ids[..i + 1] == ids[..i] + [ids[i]];
        assert Names(corpus, [ids[i]]) == [NameOf(corpus, ids[i])];
        names := names + [index.documents[ids[i]].name];
      }
      assert ids[..|ids|] == ids;
    }

    /**
     * The answer is the plain ranking's tag-carrying documents, cut at the limit: tags drop documents
     * and never reorder the rest.
     */
    method Search(query: Option<Text>, limit: int, tags: seq<Text>) returns (r: Result<seq<Text>, SearchError>)
      requires Valid() && PositiveAboveOne(lex.log)
      ensures limit <= 0 ==> r == Err(LimitMustBePositive)
      ensures limit > 0 ==>
        var terms := if query.Some? then lex.tokenize(query.value) else [];
        r == Ok(Names(corpus, Take(Carrying(corpus, Ranking(lex.log, corpus, terms), Folded(lex, tags)), limit)))
    {
      if limit <= 0 { return Err(LimitMustBePositive); }
      var filter := TagFilterIds(tags);
      var terms := if query.Some? then lex.tokenize(query.value) else [];
      if |terms| == 0 {
        var listed := ListByName(limit, filter, tags);
        return Ok(listed);
      }
      var scores, scored := ScoreTerms(index, lex, corpus, terms);
      ScoredInRange(scores, scored);
      var survivors := Survivors(scored, filter, tags);
      var sorted := Sort(ResultOrder(scores, ordinalRanks), survivors);
      FilteredRanking(scores, scored, ordinalRanks, lex.log, corpus, terms, Folded(lex, tags));
      TakenInRange(scores, scored, ordinalRanks, corpus, Folded(lex, tags), limit);
      var names := NamesOf(Take(sorted, limit));
      r := Ok(names);
    }
  }

  method Holds(ids: seq<int>, start: int, end: int, wanted: int) returns (found: bool)
    requires 0 <= start <= end <= |ids|
    ensures found <==> wanted in ids[start..end]
  {
    for cursor := start to end
      invariant wanted !in ids[start..cursor]
    {
      assert ids[start..cursor + 1] == ids[start..cursor] + [ids[cursor]];
      if ids[cursor] == wanted {
        assert ids[start..end][cursor - start] == wanted;
        return true;
      }
    }
    found := false;
  }

  lemma CarryingNext(corpus: seq<Doc>, ids: seq<int>, i: nat, tags: set<Text>)
    requires i < |ids|
    ensures Carrying(corpus, ids[..i + 1], tags)
      == Carrying(corpus, ids[..i], tags) + if CarriesAt(corpus, ids[i], tags) then [ids[i]] else []
    ensures Names(corpus, Carrying(corpus, ids[..i + 1], tags))
         == Names(corpus, Carrying(corpus, ids[..i], tags)) + if CarriesAt(corpus, ids[i], tags)
           then [NameOf(corpus, ids[i])] else []
  {
    assert ids[..i + 1] == ids[..i] + [ids[i]];
    CarryingSplit(corpus, ids[..i], [ids[i]], tags);
    var kept := Carrying(corpus, ids[..i], tags);
    if CarriesAt(corpus, ids[i], tags) {
      assert Carrying(corpus, [ids[i]], tags) == [ids[i]];
      NamesSplit(corpus, kept, [ids[i]]);
      assert Names(corpus, [ids[i]]) == [NameOf(corpus, ids[i])];
    } else {
      assert kept + [] == kept;
      assert Names(corpus, kept) + [] == Names(corpus, kept);
    }
  }

  lemma ListedInRange(log: real -> real, corpus: seq<Doc>)
    ensures forall d :: d in Ranking(log, corpus, []) ==> 0 <= d < |corpus|
  {
    OrdinalRankingMeans(log, corpus);
    OrdinalMembers(corpus, Ranking(log, corpus, []));
  }

  lemma CarryingTaken(corpus: seq<Doc>, ids: seq<int>, i: nat, tags: set<Text>, limit: nat)
    requires i <= |ids| && |Carrying(corpus, ids[..i], tags)| <= limit
    requires i == |ids| || |Carrying(corpus, ids[..i], tags)| == limit
    ensures Take(Carrying(corpus, ids, tags), limit) == Carrying(corpus, ids[..i], tags)
  {
    var kept, rest := Carrying(corpus, ids[..i], tags), Carrying(corpus, ids[i..], tags);
    assert ids == ids[..i] + ids[i..];
    CarryingSplit(corpus, ids[..i], ids[i..], tags);
    if i == |ids| {
      assert rest == [];
      assert kept + [] == kept;
    } else {
      assert (kept + rest)[..limit] == kept;
      assert |kept + rest| <= limit ==> rest == [];
    }
  }

  lemma ScoredInRange(scores: seq<real>, scored: seq<int>)
    requires Exact(Tally(scores, scored))
    ensures forall d :: d in scored ==> 0 <= d < |scores|
  {
    forall d | d in scored ensures 0 <= d < |scores| {
      assert d in multiset(scored);
      ScoredOnce(scores, scored, d);
    }
  }

  lemma TakenInRange(scores: seq<real>, scored: seq<int>, ranks: seq<int>, corpus: seq<Doc>, tags: set<Text>,
        limit: nat)
    requires Exact(Tally(scores, scored)) && |scores| == |corpus|
    ensures forall d :: d in Take(Sort(ResultOrder(scores, ranks), Carrying(corpus, scored, tags)), limit) ==>
      0 <= d < |corpus|
  {
    ScoredInRange(scores, scored);
    CarryingKeeps(OrdinalOrder(corpus), corpus, scored, tags);
    var survivors := Carrying(corpus, scored, tags);
    var sorted := Sort(ResultOrder(scores, ranks), survivors);
    SortMembers(ResultOrder(scores, ranks), survivors);
    forall d | d in Take(sorted, limit) ensures 0 <= d < |corpus| {
      assert d in sorted && d in survivors && d in scored;
    }
  }

  lemma BuiltIndexes(lex: Lexicon, documents: seq<SearchDocument>, postings: map<Text, seq<Posting>>,
        vocabulary: seq<Text>,
                     arrays: PostingArrays, mean: real)
    requires Collected(postings, Maps(Corpus(lex, documents))) && Lists(vocabulary, postings.Keys)
    requires Flattens(arrays, Maps(Corpus(lex, documents)), vocabulary) && mean == AverageLength(Corpus(lex, documents))
    ensures Indexes(Index(vocabulary, arrays, IndexedDocuments(Corpus(lex, documents)), mean), Corpus(lex, documents))
  {
    var corpus := Corpus(lex, documents);
    CorpusPositive(lex, documents);
    EnumeratesMembers(vocabulary, postings.Keys);
    forall k ensures multiset(vocabulary)[k] <= 1 { assert multiset(postings.Keys)[k] <= 1; }
    forall d, o | 0 <= d < |corpus| && o in corpus[d].occurrences ensures o.token in vocabulary {
      TokenIsKey(corpus[d].occurrences, o);
      MapsAt(corpus, d);
      PostedSome(Maps(corpus), o.token, d);
      assert Listed(postings, o.token) == Postings(Maps(corpus), o.token);
    }
    forall i | 0 <= i < |arrays.ids| ensures 0 <= arrays.ids[i] < |corpus| {
      ZipAt(arrays.ids, arrays.frequencies, i);
      FlatIds(Maps(corpus), vocabulary, Zip(arrays.ids, arrays.frequencies)[i]);
    }
  }

  lemma {:induction false} TokenIsKey(occ: seq<Occurrence>, o: Occurrence)
    requires o in occ
    ensures o.token in TermMap(occ)
  {
    var rest := occ[..|occ| - 1];
    assert occ == rest + [occ[|occ| - 1]];
    if o in rest { TokenIsKey(rest, o); }
  }

  lemma {:induction false} PostedSome(maps: seq<map<Text, real>>, term: Text, d: nat)
    requires d < |maps| && term in maps[d]
    ensures Postings(maps, term) != []
  {
    if d < |maps| - 1 { PostedSome(maps[..|maps| - 1], term, d); }
  }

  lemma {:induction false} PostingIds(maps: seq<map<Text, real>>, term: Text, p: Posting)
    requires p in Postings(maps, term)
    ensures 0 <= p.id < |maps|
  {
    var id := |maps| - 1;
    if p in Postings(maps[..id], term) { PostingIds(maps[..id], term, p); }
  }

  lemma {:induction false} FlatIds(maps: seq<map<Text, real>>, vocabulary: seq<Text>, p: Posting)
    requires p in Flat(maps, vocabulary)
    ensures 0 <= p.id < |maps|
  {
    var last := |vocabulary| - 1;
    if p in Flat(maps, vocabulary[..last]) {
      FlatIds(maps, vocabulary[..last], p);
    } else {
      PostingIds(maps, vocabulary[last], p);
    }
  }
}
