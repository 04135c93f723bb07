/** Scoring one term against the index: scratch totals, touched documents, and the sums they hold. */
module SearchScoring {
  import opened Wrappers
  import opened Ordering
  import opened SearchCorpus
  import opened SearchIndex
  import opened SearchBuild
  import opened SearchFill

  /** The scratch totals and the documents whose total was zero when first added to. */
  datatype Tally = Tally(totals: seq<real>, touched: seq<int>)

  function AddPosting(t: Tally, p: Posting): Tally {
    if 0 <= p.id < |t.totals| then
      Tally(t.totals[p.id := t.totals[p.id] + p.frequency], if t.totals[p.id] == 0.0 then t.touched + [p.id]
        else t.touched)
    else t
  }

  function AddPostings(t: Tally, ps: seq<Posting>): (r: Tally)
    ensures |r.totals| == |t.totals|
  {
    if ps == [] then t else AddPosting(AddPostings(t, ps[..|ps| - 1]), ps[|ps| - 1])
  }

  /** Totals are never negative and the touched documents are those with a positive total, each once. */
  ghost predicate Exact(t: Tally) {
    && (forall d :: 0 <= d < |t.totals| ==> t.totals[d] >= 0.0)
    && (forall d {:trigger multiset(t.touched)[d]} ::
          multiset(t.touched)[d] == if 0 <= d < |t.totals| && t.totals[d] > 0.0 then 1 else 0)
  }

  lemma AddPostingExact(t: Tally, p: Posting)
    requires Exact(t) && p.frequency > 0.0
    ensures Exact(AddPosting(t, p))
  {
    var r := AddPosting(t, p);
    forall d ensures multiset(r.touched)[d] == if 0 <= d < |r.totals| && r.totals[d] > 0.0 then 1 else 0 {
      assert multiset(t.touched)[d] == if 0 <= d < |t.totals| && t.totals[d] > 0.0 then 1 else 0;
    }
  }

  ghost predicate PositiveMaps(maps: seq<map<Text, real>>) {
    forall d, k :: 0 <= d < |maps| && k in maps[d] ==> maps[d][k] > 0.0
  }

  /** Adding one entry's postings adds each document's weight on that entry. */
  lemma {:induction false} AddEntry(t: Tally, maps: seq<map<Text, real>>, entry: Text)
    requires Exact(t) && PositiveMaps(maps) && |maps| <= |t.totals|
    ensures Exact(AddPostings(t, Postings(maps, entry)))
    ensures forall d :: 0 <= d < |t.totals| ==>
      AddPostings(t, Postings(maps, entry)).totals[d] == t.totals[d] + if d < |maps| then Get(maps[d], entry) else 0.0
  {
    if maps != [] {
      var id := |maps| - 1;
      AddEntry(t, maps[..id], entry);
      var before := Postings(maps[..id], entry);
      if entry in maps[id] {
        var p := Posting(id, maps[id][entry]);
        assert (before + [p])[..|before|] == before;
        AddPostingExact(AddPostings(t, before), p);
      } else {
        assert before + [] == before;
      }
    }
  }

  lemma AddPostingsNext(t: Tally, all: seq<Posting>, start: nat, index: nat)
    requires start <= index < |all|
    ensures AddPostings(t, all[start..index + 1]) == AddPosting(AddPostings(t, all[start..index]), all[index])
  {
    assert all[start..index + 1][..index - start] == all[start..index];
    assert all[start..index + 1][index - start] == all[index];
  }

  method AddPostingFrequencies(totals: array<real>, touched: seq<int>, a: PostingArrays, start: int, end: int)
    returns (more: seq<int>)
    requires |a.ids| == |a.frequencies| && 0 <= start <= end <= |a.ids|
    requires forall i :: 0 <= i < |a.ids| ==> 0 <= a.ids[i] < totals.Length
    modifies totals
    ensures Tally(totals[..], more)
      == AddPostings(Tally(old(totals[..]), touched), Zip(a.ids, a.frequencies)[start..end])
  {
    more := touched;
    ghost var all := Zip(a.ids, a.frequencies);
    ghost var from := Tally(totals[..], touched);
    for index := start to end
      invariant Tally(totals[..], more) == AddPostings(from, all[start..index])
    {
      ZipAt(a.ids, a.frequencies, index);
      AddPostingsNext(from, all, start, index);
      ghost var before := totals[..];
      var documentId := a.ids[index];
      if totals[documentId] == 0.0 {
        more := more + [documentId];
      }
      totals[documentId] := totals[documentId] + a.frequencies[index];
      assert totals[..] == before[documentId := before[documentId] + a.frequencies[index]];
    }
  }

  lemma {:induction false} SumMatchingSplit(m: map<Text, real>, a: seq<Text>, b: seq<Text>, term: Text)
    ensures SumMatching(m, a + b, term) == SumMatching(m, a, term) + SumMatching(m, b, term)
  {
    if b == [] {
      assert a + b == a;
    } else {
      assert (a + b)[..|a + b| - 1] == a + b[..|b| - 1];
      SumMatchingSplit(m, a, b[..|b| - 1], term);
    }
  }

  lemma {:induction false} SumMatchingNone(m: map<Text, real>, entries: seq<Text>, term: Text)
    requires forall v :: v in entries ==> !Matches(term, v)
    ensures SumMatching(m, entries, term) == 0.0
  {
    if entries != [] { SumMatchingNone(m, entries[..|entries| - 1], term); }
  }

  /** When every match lies in a run of the vocabulary, the run's sum is the document's whole sum. */
  lemma RunIsWhole(m: map<Text, real>, vocabulary: seq<Text>, low: nat, high: nat, term: Text)
    requires low <= high <= |vocabulary|
    requires forall v :: v in vocabulary[..low] || v in vocabulary[high..] ==> !Matches(term, v)
    ensures SumMatching(m, vocabulary[low..high], term) == SumMatching(m, vocabulary, term)
  {
    assert vocabulary == vocabulary[..low] + (vocabulary[low..high] + vocabulary[high..]);
    SumMatchingSplit(m, vocabulary[..low], vocabulary[low..high] + vocabulary[high..], term);
    SumMatchingSplit(m, vocabulary[low..high], vocabulary[high..], term);
    SumMatchingNone(m, vocabulary[..low], term);
    SumMatchingNone(m, vocabulary[high..], term);
  }

  lemma NoMatchBefore(term: Text, v: Text)
    requires Precedes(v, term)
    ensures !Matches(term, v)
  {
    LessIrreflexive(term.chars);
    if term.chars <= v.chars { PrefixNotBefore(term.chars, v.chars); }
  }

  /** Behind the first entry that does not start with a long term, none does. */
  lemma NoMatchAfter(vocabulary: seq<Text>, term: Text, low: nat, high: nat)
    requires Ascending(vocabulary) && low <= high <= |vocabulary| && |term.chars| >= PREFIX_MINIMUM_LENGTH
    requires forall v :: v in vocabulary[low..] ==> !Precedes(v, term)
    requires high < |vocabulary| ==> !Matches(term, vocabulary[high])
    ensures forall v :: v in vocabulary[high..] ==> !Matches(term, v)
  {
    if high < |vocabulary| {
      AscendingSplit(vocabulary, high);
      assert vocabulary[high] == vocabulary[low..][high - low];
      assert vocabulary[high..] == [vocabulary[high]] + vocabulary[high + 1..];
      forall v | v in vocabulary[high + 1..] ensures !Matches(term, v) {
        PrefixRun(term, vocabulary[high], v);
      }
    }
  }

  /** A short term matches its own entry and nothing else. */
  lemma ShortMatches(vocabulary: seq<Text>, term: Text, low: nat)
    requires Distinct(vocabulary) && low <= |vocabulary| && |term.chars| < PREFIX_MINIMUM_LENGTH
    requires term in vocabulary <==> low < |vocabulary| && vocabulary[low] == term
    ensures forall v :: v in vocabulary[..low] || v in vocabulary[(if term in vocabulary then low + 1 else low)..] ==>
      !Matches(term, v)
  {
    if term in vocabulary {
      assert vocabulary == vocabulary[..low] + [term] + vocabulary[low + 1..];
      assert multiset(vocabulary) == multiset(vocabulary[..low]) + multiset{term} + multiset(vocabulary[low + 1..]);
      assert multiset(vocabulary)[term] <= 1;
      assert term !in multiset(vocabulary[..low]) && term !in multiset(vocabulary[low + 1..]);
    } else {
      assert vocabulary == vocabulary[..low] + vocabulary[low..];
    }
  }

  /** The parts of the index a term is scored with, and what they hold of the corpus. */
  datatype Index = Index(vocabulary: seq<Text>, postings: PostingArrays, documents: seq<IndexedDocument>,
    averageLength: real)

  ghost predicate Indexes(x: Index, corpus: seq<Doc>) {
    && Ascending(x.vocabulary) && Distinct(x.vocabulary)
    && (forall d, o :: 0 <= d < |corpus| && o in corpus[d].occurrences ==> o.token in x.vocabulary)
    && Flattens(x.postings, Maps(corpus), x.vocabulary)
    && (forall i :: 0 <= i < |x.postings.ids| ==> 0 <= x.postings.ids[i] < |corpus|)
    && x.documents == IndexedDocuments(corpus) && x.averageLength == AverageLength(corpus)
    && PositiveCorpus(corpus)
  }

  lemma MapsPositive(corpus: seq<Doc>)
    requires PositiveCorpus(corpus)
    ensures PositiveMaps(Maps(corpus))
  {
    forall d, k | 0 <= d < |corpus| && k in Maps(corpus)[d] ensures Maps(corpus)[d][k] > 0.0 {
      MapsAt(corpus, d);
      TermMapPositive(corpus[d].occurrences);
    }
  }

  /** The scratch totals are each document's weight on the entries of a run. */
  ghost predicate SumsRun(t: Tally, corpus: seq<Doc>, run: seq<Text>, term: Text) {
    |t.totals| == |corpus| && Exact(t) &&
    forall d {:trigger t.totals[d]} :: 0 <= d < |corpus| ==>
      t.totals[d] == SumMatching(TermMap(corpus[d].occurrences), run, term)
  }

  lemma RunStep(t: Tally, corpus: seq<Doc>, run: seq<Text>, entry: Text, term: Text)
    requires PositiveCorpus(corpus) && SumsRun(t, corpus, run, term) && Matches(term, entry)
    ensures SumsRun(AddPostings(t, Postings(Maps(corpus), entry)), corpus, run + [entry], term)
  {
    MapsPositive(corpus);
    AddEntry(t, Maps(corpus), entry);
    assert (run + [entry])[..|run|] == run;
    var r := AddPostings(t, Postings(Maps(corpus), entry));
    forall d | 0 <= d < |corpus|
      ensures r.totals[d] == SumMatching(TermMap(corpus[d].occurrences), run + [entry], term)
    {
      MapsAt(corpus, d);
      assert t.totals[d] == SumMatching(TermMap(corpus[d].occurrences), run, term);
    }
  }

  lemma RunTotals(t: Tally, x: Index, corpus: seq<Doc>, low: nat, high: nat, term: Text)
    requires Indexes(x, corpus) && low <= high <= |x.vocabulary|
    requires SumsRun(t, corpus, x.vocabulary[low..high], term)
    requires forall v :: v in x.vocabulary[..low] || v in x.vocabulary[high..] ==> !Matches(term, v)
    ensures forall d :: 0 <= d < |corpus| ==> t.totals[d] == TermFrequency(corpus[d].occurrences, term)
  {
    forall d | 0 <= d < |corpus| ensures t.totals[d] == TermFrequency(corpus[d].occurrences, term) {
      var occ := corpus[d].occurrences;
      assert t.totals[d] == SumMatching(TermMap(occ), x.vocabulary[low..high], term);
      RunIsWhole(TermMap(occ), x.vocabulary, low, high, term);
      SumMatchingIsFrequency(occ, x.vocabulary, term);
    }
  }

  ghost predicate AllZero(totals: seq<real>) {
    forall d :: 0 <= d < |totals| ==> totals[d] == 0.0
  }

  lemma ZeroTally(totals: seq<real>, corpus: seq<Doc>, term: Text)
    requires AllZero(totals) && |totals| == |corpus|
    ensures SumsRun(Tally(totals, []), corpus, [], term)
  {
  }

  /** The posting arrays between an entry's offsets are its postings. */
  lemma FlattenedSlice(a: PostingArrays, maps: seq<map<Text, real>>, vocabulary: seq<Text>, index: nat)
    requires Flattens(a, maps, vocabulary) && index < |vocabulary|
    ensures 0 <= a.offsets[index] <= a.offsets[index + 1] <= |a.ids|
    ensures Zip(a.ids, a.frequencies)[a.offsets[index]..a.offsets[index + 1]] == Postings(maps, vocabulary[index])
  {
    OffsetsAt(maps, vocabulary, |vocabulary| + 1, index);
    OffsetsAt(maps, vocabulary, |vocabulary| + 1, index + 1);
    FlatSlice(maps, vocabulary, index);
  }

  method AddVocabularyEntry(x: Index, ghost corpus: seq<Doc>, term: Text, index: nat, totals: array<real>,
        touched: seq<int>, ghost run: seq<Text>)
    returns (more: seq<int>)
    requires Indexes(x, corpus) && index < |x.vocabulary| && Matches(term, x.vocabulary[index])
      && totals.Length == |corpus|
    requires SumsRun(Tally(totals[..], touched), corpus, run, term)
    modifies totals
    ensures SumsRun(Tally(totals[..], more), corpus, run + [x.vocabulary[index]], term)
  {
    FlattenedSlice(x.postings, Maps(corpus), x.vocabulary, index);
    RunStep(Tally(totals[..], touched), corpus, run, x.vocabulary[index], term);
    more := AddPostingFrequencies(totals, touched, x.postings, x.postings.offsets[index],
      x.postings.offsets[index + 1]);
  }

  /** The first half of the term loop: a prefix run, or a single entry for a short term. */
  method MatchTerm(x: Index, ghost corpus: seq<Doc>, term: Text, totals: array<real>) returns (touched: seq<int>)
    requires Indexes(x, corpus) && totals.Length == |corpus| && AllZero(totals[..])
    modifies totals
    ensures Exact(Tally(totals[..], touched))
    ensures forall d :: 0 <= d < |corpus| ==> totals[d] == TermFrequency(corpus[d].occurrences, term)
  {
    touched := [];
    var low := LowerBound(x.vocabulary, term);
    LowerBoundFinds(x.vocabulary, term, low);
    ZeroTally(totals[..], corpus, term);
    if |term.chars| < PREFIX_MINIMUM_LENGTH {
      ShortMatches(x.vocabulary, term, low);
      assert x.vocabulary[low..low] == [];
      if low < |x.vocabulary| && x.vocabulary[low] == term {
        touched := AddVocabularyEntry(x, corpus, term, low, totals, touched, []);
        assert x.vocabulary[low..low + 1] == [] + [term];
        RunTotals(Tally(totals[..], touched), x, corpus, low, low + 1, term);
      } else {
        RunTotals(Tally(totals[..], touched), x, corpus, low, low, term);
      }
    } else {
      var index := low;
      while index < |x.vocabulary| && term.chars <= x.vocabulary[index].chars
        invariant low <= index <= |x.vocabulary|
        invariant SumsRun(Tally(totals[..], touched), corpus, x.vocabulary[low..index], term)
      {
        touched := AddVocabularyEntry(x, corpus, term, index, totals, touched, x.vocabulary[low..index]);
        assert x.vocabulary[low..index + 1] == x.vocabulary[low..index] + [x.vocabulary[index]];
        index := index + 1;
      }
      forall v | v in x.vocabulary[..low] ensures !Matches(term, v) { NoMatchBefore(term, v); }
      NoMatchAfter(x.vocabulary, term, low, index);
      RunTotals(Tally(totals[..], touched), x, corpus, low, index, term);
    }
  }
}
