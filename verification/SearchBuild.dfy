/** The index constructor's loops: each fills one part of the index and is proved against the corpus. */
module SearchBuild {
  import opened Wrappers
  import opened SearchCorpus
  import opened SearchIndex

  /** `accumulate`: the tokens of one text added to the document's terms. */
  lemma WeightedNext(occ: seq<Occurrence>, tokens: seq<Text>, i: nat, weight: real)
    requires i < |tokens|
    ensures var next := occ + Weighted(tokens[..i + 1], weight);
      |next| > 0 && next[..|next| - 1] == occ + Weighted(tokens[..i], weight)
        && next[|next| - 1] == Occurrence(tokens[i], weight)
  {
    assert tokens[..i + 1][..i] == tokens[..i];
  }

  method Accumulate(ghost occ: seq<Occurrence>, terms: map<Text, real>, keys: seq<Text>, tokens: seq<Text>,
        weight: real)
    returns (moreTerms: map<Text, real>, moreKeys: seq<Text>)
    requires terms == TermMap(occ) && keys == TermKeys(occ)
    ensures moreTerms == TermMap(occ + Weighted(tokens, weight)) && moreKeys == TermKeys(occ + Weighted(tokens, weight))
  {
    moreTerms, moreKeys := terms, keys;
    assert occ + Weighted(tokens[..0], weight) == occ;
    for i := 0 to |tokens|
      invariant moreTerms == TermMap(occ + Weighted(tokens[..i], weight))
      invariant moreKeys == TermKeys(occ + Weighted(tokens[..i], weight))
    {
      var token := tokens[i];
      WeightedNext(occ, tokens, i, weight);
      moreTerms := moreTerms[token := (if token in moreTerms then moreTerms[token] else 0.0) + weight];
      if token !in moreKeys {
        moreKeys := moreKeys + [token];
      }
    }
    assert tokens[..|tokens|] == tokens;
  }

  method AccumulateAll(lex: Lexicon, ghost occ: seq<Occurrence>, terms: map<Text, real>, keys: seq<Text>,
        texts: seq<Text>, weight: real)
    returns (moreTerms: map<Text, real>, moreKeys: seq<Text>)
    requires terms == TermMap(occ) && keys == TermKeys(occ)
    ensures moreTerms == TermMap(occ + ListOccurrences(lex, texts, weight))
    ensures moreKeys == TermKeys(occ + ListOccurrences(lex, texts, weight))
  {
    moreTerms, moreKeys := terms, keys;
    assert occ + ListOccurrences(lex, texts[..0], weight) == occ;
    for i := 0 to |texts|
      invariant moreTerms == TermMap(occ + ListOccurrences(lex, texts[..i], weight))
      invariant moreKeys == TermKeys(occ + ListOccurrences(lex, texts[..i], weight))
    {
      ghost var before := occ + ListOccurrences(lex, texts[..i], weight);
      assert texts[..i + 1][..i] == texts[..i];
      assert occ + ListOccurrences(lex, texts[..i + 1], weight) == before + Weighted(lex.tokenize(texts[i]), weight);
      moreTerms, moreKeys := Accumulate(before, moreTerms, moreKeys, lex.tokenize(texts[i]), weight);
    }
    assert texts[..|texts|] == texts;
  }

  /** One document's terms, with the keys in the order of a JavaScript map. */
  method DocumentTerms(lex: Lexicon, d: SearchDocument) returns (terms: map<Text, real>, keys: seq<Text>)
    ensures terms == TermMap(Occurrences(lex, d)) && keys == TermKeys(Occurrences(lex, d))
  {
    ghost var named := TextOccurrences(lex, d.name, NAME_WEIGHT);
    ghost var described := if d.description.Some? then TextOccurrences(lex, d.description.value, DESCRIPTION_WEIGHT)
      else [];
    ghost var tagged := ListOccurrences(lex, d.tags, TAG_WEIGHT);
    ghost var routed := TextOccurrences(lex, d.route, ROUTE_WEIGHT);
    ghost var rerouted := ListOccurrences(lex, d.alternateRoutes, ROUTE_WEIGHT);
    assert [] + named == named && named + [] == named;
    terms, keys := Accumulate([], map[], [], lex.tokenize(d.name), NAME_WEIGHT);
    if d.description.Some? {
      terms, keys := Accumulate(named, terms, keys, lex.tokenize(d.description.value), DESCRIPTION_WEIGHT);
    }
    terms, keys := AccumulateAll(lex, named + described, terms, keys, d.tags, TAG_WEIGHT);
    terms, keys := Accumulate(named + described + tagged, terms, keys, lex.tokenize(d.route), ROUTE_WEIGHT);
    terms, keys := AccumulateAll(lex, named + described + tagged
      + routed, terms, keys, d.alternateRoutes, ROUTE_WEIGHT);
    terms, keys := AccumulateAll(lex, named + described + tagged + routed
      + rerouted, terms, keys, d.parameters, PARAMETER_WEIGHT);
  }

  /** The document's folded tags without repeats. */
  method FoldedTags(lex: Lexicon, tags: seq<Text>) returns (folded: seq<Text>)
    ensures forall t :: t in folded <==> t in Folded(lex, tags)
  {
    folded := [];
    for i := 0 to |tags|
      invariant forall t :: t in folded <==> t in Folded(lex, tags[..i])
    {
      var tag := lex.fold(tags[i]);
      assert tags[..i + 1] == tags[..i] + [tags[i]];
      assert Folded(lex, tags[..i + 1]) == Folded(lex, tags[..i]) + {tag};
      if tag !in folded {
        folded := folded + [tag];
      }
    }
    assert tags[..|tags|] == tags;
  }

  /** `length`: the sum of a document's term weights. */
  method SumTerms(ghost occ: seq<Occurrence>, terms: map<Text, real>, keys: seq<Text>) returns (length: real)
    requires terms == TermMap(occ) && keys == TermKeys(occ)
    ensures length == TotalWeight(occ)
  {
    TermKeysList(occ);
    length := 0.0;
    for i := 0 to |keys|
      invariant length == SumOver(terms, keys[..i])
    {
      assert keys[..i + 1][..i] == keys[..i];
      assert keys[i] in keys;
      length := length + terms[keys[i]];
    }
    assert keys[..|keys|] == keys;
    SumOverIsTotal(occ);
  }

  function Maps(corpus: seq<Doc>): (maps: seq<map<Text, real>>)
    ensures |maps| == |corpus|
  {
    if corpus == [] then [] else Maps(corpus[..|corpus| - 1]) + [TermMap(corpus[|corpus| - 1].occurrences)]
  }

  lemma {:induction false} MapsAt(corpus: seq<Doc>, d: nat)
    requires d < |corpus|
    ensures Maps(corpus)[d] == TermMap(corpus[d].occurrences)
  {
    if d < |corpus| - 1 { MapsAt(corpus[..|corpus| - 1], d); }
  }

  function Listed(postings: map<Text, seq<Posting>>, term: Text): seq<Posting> {
    if term in postings then postings[term] else []
  }

  /** The growing posting map holds every term's postings, and no empty list. */
  ghost predicate Collected(postings: map<Text, seq<Posting>>, maps: seq<map<Text, real>>) {
    forall t {:trigger Postings(maps, t)} :: Listed(postings, t) == Postings(maps, t)
      && (t in postings ==> Postings(maps, t) != [])
  }

  /** A term's postings when the newest document has been posted under the keys of `done`. */
  function PostedFor(maps: seq<map<Text, real>>, terms: map<Text, real>, done: seq<Text>, term: Text): seq<Posting> {
    Postings(maps, term) + if term in done && term in terms then [Posting(|maps|, terms[term])] else []
  }

  ghost predicate PostedUpTo(postings: map<Text, seq<Posting>>, maps: seq<map<Text, real>>, terms: map<Text, real>,
        done: seq<Text>) {
    forall t {:trigger PostedFor(maps, terms, done, t)} ::
      Listed(postings, t) == PostedFor(maps, terms, done, t)
        && (t in postings ==> PostedFor(maps, terms, done, t) != [])
  }

  method Post(postings: map<Text, seq<Posting>>, ghost maps: seq<map<Text, real>>, id: int, terms: map<Text, real>,
        keys: seq<Text>)
    returns (more: map<Text, seq<Posting>>)
    requires Collected(postings, maps) && id == |maps| && Distinct(keys) && forall k :: k in keys <==> k in terms
    ensures Collected(more, maps + [terms])
  {
    more := postings;
    forall t ensures PostedFor(maps, terms, keys[..0], t) == Postings(maps, t) {}
    for i := 0 to |keys|
      invariant PostedUpTo(more, maps, terms, keys[..i])
    {
      assert keys[i] in keys;
      PostNext(more, maps, terms, keys, i);
      more := more[keys[i] := Listed(more, keys[i]) + [Posting(id, terms[keys[i]])]];
    }
    assert keys[..|keys|] == keys;
    ghost var all := maps + [terms];
    assert all[..|maps|] == maps;
    forall t ensures Listed(more, t) == Postings(all, t) && (t in more ==> Postings(all, t) != []) {
      assert PostedFor(maps, terms, keys, t) == Postings(all, t);
    }
  }

  lemma PostNext(postings: map<Text, seq<Posting>>, maps: seq<map<Text, real>>, terms: map<Text, real>,
        keys: seq<Text>, i: nat)
    requires Distinct(keys) && i < |keys| && keys[i] in terms
    requires PostedUpTo(postings, maps, terms, keys[..i])
    ensures var more := postings[keys[i] := Listed(postings, keys[i]) + [Posting(|maps|, terms[keys[i]])]];
      PostedUpTo(more, maps, terms, keys[..i + 1])
  {
    Unposted(keys, i);
    assert keys[..i + 1] == keys[..i] + [keys[i]];
    assert Listed(postings, keys[i]) == PostedFor(maps, terms, keys[..i], keys[i]) == Postings(maps, keys[i]) + [];
    var more := postings[keys[i] := Listed(postings, keys[i]) + [Posting(|maps|, terms[keys[i]])]];
    forall t ensures Listed(more, t) == PostedFor(maps, terms, keys[..i + 1], t)
      && (t in more ==> PostedFor(maps, terms, keys[..i + 1], t) != []) {
      assert Listed(postings, t) == PostedFor(maps, terms, keys[..i], t);
      if t == keys[i] {
        assert t in keys[..i + 1];
        assert PostedFor(maps, terms, keys[..i + 1], t) == Postings(maps, t) + [Posting(|maps|, terms[t])];
        assert Postings(maps, t) + [] == Postings(maps, t);
      } else {
        assert PostedFor(maps, terms, keys[..i + 1], t) == PostedFor(maps, terms, keys[..i], t);
      }
    }
  }

  lemma Unposted(keys: seq<Text>, i: nat)
    requires Distinct(keys) && i < |keys|
    ensures keys[i] !in keys[..i]
  {
    assert keys == keys[..i] + [keys[i]] + keys[i + 1..];
    assert multiset(keys)[keys[i]] <= 1;
  }

  datatype IndexedDocument = IndexedDocument(name: Text, length: real)

  function IndexedDocuments(corpus: seq<Doc>): (r: seq<IndexedDocument>)
    ensures |r| == |corpus|
  {
    if corpus == [] then []
    else
      var last := corpus[|corpus| - 1];
      IndexedDocuments(corpus[..|corpus| - 1]) + [IndexedDocument(last.name, TotalWeight(last.occurrences))]
  }

  lemma {:induction false} IndexedDocumentsAt(corpus: seq<Doc>, d: nat)
    requires d < |corpus|
    ensures IndexedDocuments(corpus)[d] == IndexedDocument(corpus[d].name, TotalWeight(corpus[d].occurrences))
  {
    if d < |corpus| - 1 { IndexedDocumentsAt(corpus[..|corpus| - 1], d); }
  }

  /** The per-document folded tags agree with the corpus. */
  ghost predicate TagsRead(tags: seq<seq<Text>>, corpus: seq<Doc>) {
    |tags| == |corpus| && forall d {:trigger tags[d]} :: 0 <= d < |tags| ==> forall t :: t in tags[d] <==>
      t in corpus[d].tags
  }

  ghost predicate TagsIn(tags: seq<seq<Text>>, allTags: set<Text>) {
    forall d {:trigger tags[d]} :: 0 <= d < |tags| ==> forall t :: t in tags[d] ==> t in allTags
  }

  /** What the first loop has gathered from the documents so far. */
  ghost predicate Gathered(indexed: seq<IndexedDocument>, postings: map<Text, seq<Posting>>, tags: seq<seq<Text>>,
        allTags: set<Text>, corpus: seq<Doc>) {
    && indexed == IndexedDocuments(corpus) && Collected(postings, Maps(corpus))
    && TagsRead(tags, corpus) && TagsIn(tags, allTags)
  }

  lemma GatheredNext(indexed: seq<IndexedDocument>, postings: map<Text, seq<Posting>>, more: map<Text, seq<Posting>>,
        tags: seq<seq<Text>>,
                     allTags: set<Text>, corpus: seq<Doc>, doc: Doc, folded: seq<Text>)
    requires Gathered(indexed, postings, tags, allTags, corpus)
    requires Collected(more, Maps(corpus) + [TermMap(doc.occurrences)]) && forall t :: t in folded <==> t in doc.tags
    ensures Gathered(indexed + [IndexedDocument(doc.name, TotalWeight(doc.occurrences))], more, tags + [folded],
                     allTags + (set t | t in folded), corpus + [doc])
  {
    assert (corpus + [doc])[..|corpus|] == corpus;
  }

  /** The constructor's first loop, over the documents. */
  method ReadDocuments(lex: Lexicon, documents: seq<SearchDocument>)
    returns (indexed: seq<IndexedDocument>, postings: map<Text, seq<Posting>>, tags: seq<seq<Text>>, allTags: set<Text>)
    ensures Gathered(indexed, postings, tags, allTags, Corpus(lex, documents))
  {
    indexed, postings, tags, allTags := [], map[], [], {};
    for i := 0 to |documents|
      invariant Gathered(indexed, postings, tags, allTags, Corpus(lex, documents[..i]))
    {
      var document := documents[i];
      ghost var corpus := Corpus(lex, documents[..i]);
      ghost var occ := Occurrences(lex, document);
      assert documents[..i + 1][..i] == documents[..i];
      assert Corpus(lex, documents[..i + 1]) == corpus + [Read(lex, document)];
      var terms, keys := DocumentTerms(lex, document);
      var folded := FoldedTags(lex, document.tags);
      var length := SumTerms(occ, terms, keys);
      TermKeysList(occ);
      var more := Post(postings, Maps(corpus), |indexed|, terms, keys);
      GatheredNext(indexed, postings, more, tags, allTags, corpus, Read(lex, document), folded);
      postings := more;
      indexed := indexed + [IndexedDocument(document.name, length)];
      tags := tags + [folded];
      allTags := allTags + set t | t in folded;
    }
    assert documents[..|documents|] == documents;
  }

  /** `reduce`: the mean document length. */
  method MeanLength(indexed: seq<IndexedDocument>, ghost corpus: seq<Doc>) returns (mean: real)
    requires indexed == IndexedDocuments(corpus)
    ensures mean == AverageLength(corpus)
  {
    if |indexed| == 0 { return 0.0; }
    var sum := 0.0;
    for i := 0 to |indexed|
      invariant sum == LengthSum(corpus[..i])
    {
      IndexedDocumentsAt(corpus, i);
      assert corpus[..i + 1][..i] == corpus[..i];
      sum := sum + indexed[i].length;
    }
    assert corpus[..|corpus|] == corpus;
    mean := sum / |indexed| as real;
  }
}
