/** The query loop: each term's contributions added to the scores, with the scratch totals cleared again. */
module SearchTerms {
  import opened Wrappers
  import opened SearchCorpus
  import opened SearchIndex
  import opened SearchBuild
  import opened SearchScoring

  function FrequentIds(corpus: seq<Doc>, term: Text): (ids: seq<int>)
    ensures |ids| == DocumentFrequency(corpus, term)
  {
    if corpus == [] then []
    else
      var d := |corpus| - 1;
      FrequentIds(corpus[..d], term) + if TermFrequency(corpus[d].occurrences, term) > 0.0 then [d] else []
  }

  lemma {:induction false} FrequentIdsHold(corpus: seq<Doc>, term: Text, d: int)
    ensures multiset(FrequentIds(corpus, term))[d]
         == if 0 <= d < |corpus| && TermFrequency(corpus[d].occurrences, term) > 0.0 then 1 else 0
  {
    if corpus != [] { FrequentIdsHold(corpus[..|corpus| - 1], term, d); }
  }

  /** The totals a term leaves behind are every document's frequency. */
  ghost predicate Totals(totals: seq<real>, corpus: seq<Doc>, term: Text) {
    |totals| == |corpus| && forall d {:trigger totals[d]} :: 0 <= d < |corpus| ==>
      totals[d] == TermFrequency(corpus[d].occurrences, term)
  }

  /** The touched documents are counted as the plain reading counts them. */
  lemma TouchedAreCounted(totals: seq<real>, touched: seq<int>, corpus: seq<Doc>, term: Text)
    requires Exact(Tally(totals, touched)) && Totals(totals, corpus, term)
    ensures |touched| == DocumentFrequency(corpus, term)
  {
    var ids := FrequentIds(corpus, term);
    forall d: int ensures multiset(touched)[d] == multiset(ids)[d] {
      FrequentIdsHold(corpus, term, d);
      assert multiset(touched)[d] == if 0 <= d < |totals| && totals[d] > 0.0 then 1 else 0;
    }
    assert multiset(touched) == multiset(ids);
    assert |multiset(touched)| == |touched| && |multiset(ids)| == |ids|;
  }

  ghost predicate Scores(scores: seq<real>, log: real -> real, corpus: seq<Doc>, terms: seq<Text>) {
    |scores| == |corpus| && forall d {:trigger scores[d]} :: 0 <= d < |corpus| ==>
      scores[d] == Score(log, corpus, terms, d)
  }

  /** Scores and scratch totals when the first documents of `touched` have been scored. */
  ghost predicate Midway(scores: seq<real>, frequencies: seq<real>, log: real -> real, corpus: seq<Doc>,
        terms: seq<Text>,
                         term: Text, done: set<int>)
  {
    && |scores| == |frequencies| == |corpus|
    && (forall d {:trigger scores[d]} :: 0 <= d < |corpus| ==>
          scores[d] == Score(log, corpus, terms, d) + if d in done then Contribution(log, corpus, term, d) else 0.0)
    && (forall d {:trigger frequencies[d]} :: 0 <= d < |corpus| ==>
          frequencies[d] == if d in done then 0.0 else TermFrequency(corpus[d].occurrences, term))
  }

  /** `tf * (k1 + 1) / (tf + k1 * (1 - b + b * length / average))`, times the inverse document frequency. */
  method Gain(x: Index, ghost log: real -> real, ghost corpus: seq<Doc>, ghost term: Text, d: nat, idf: real, tf: real)
    returns (gain: real)
    requires Indexes(x, corpus) && d < |corpus| && tf == TermFrequency(corpus[d].occurrences, term) > 0.0
    requires idf == Idf(log, |corpus|, DocumentFrequency(corpus, term))
    ensures gain == Contribution(log, corpus, term, d)
  {
    FrequencyBounds(corpus[d].occurrences, term);
    AverageLengthPositive(corpus, d);
    IndexedDocumentsAt(corpus, d);
    NormalizedPositive(tf, x.documents[d].length, x.averageLength);
    var normalized := tf * (K1 + 1.0) / (tf + K1 * (1.0 - B + B * x.documents[d].length / x.averageLength));
    gain := idf * normalized;
  }

  lemma MidwayNext(scores: seq<real>, frequencies: seq<real>, log: real -> real, corpus: seq<Doc>, terms: seq<Text>,
        term: Text,
                   done: set<int>, d: int)
    requires Midway(scores, frequencies, log, corpus, terms, term, done) && 0 <= d < |corpus| && d !in done
    ensures Midway(scores[d := scores[d] + Contribution(log, corpus, term, d)], frequencies[d := 0.0], log, corpus,
      terms, term, done + {d})
  {
  }

  /** A score that grows from zero is pushed once. */
  lemma PushExact(scores: seq<real>, scored: seq<int>, d: int, gain: real)
    requires Exact(Tally(scores, scored)) && 0 <= d < |scores| && gain > 0.0
    ensures Exact(Tally(scores[d := scores[d] + gain], if scores[d] == 0.0 then scored + [d] else scored))
  {
    AddPostingExact(Tally(scores, scored), Posting(d, gain));
  }

  /** The three writes of the scoring loop: push, add, clear. */
  method Credit(scores: array<real>, scored: seq<int>, frequencies: array<real>, d: int, gain: real)
    returns (more: seq<int>)
    requires scores != frequencies && 0 <= d < scores.Length == frequencies.Length
    modifies scores, frequencies
    ensures scores[..] == old(scores[..])[d := old(scores[..])[d] + gain]
    ensures frequencies[..] == old(frequencies[..])[d := 0.0]
    ensures more == if old(scores[..])[d] == 0.0 then scored + [d] else scored
  {
    more := scored;
    if scores[d] == 0.0 {
      more := more + [d];
    }
    scores[d] := scores[d] + gain;
    frequencies[d] := 0.0;
  }

  method ScoreDocument(x: Index, ghost log: real -> real, ghost corpus: seq<Doc>, ghost terms: seq<Text>,
        ghost term: Text,
                       ghost done: set<int>, d: int, idf: real, scores: array<real>, scored: seq<int>,
                       frequencies: array<real>)
    returns (more: seq<int>)
    requires Indexes(x, corpus) && PositiveAboveOne(log) && scores != frequencies
    requires Midway(scores[..], frequencies[..], log, corpus, terms, term, done)
    requires 0 <= d < |corpus| && d !in done && TermFrequency(corpus[d].occurrences, term) > 0.0
    requires idf == Idf(log, |corpus|, DocumentFrequency(corpus, term))
    requires Exact(Tally(scores[..], scored))
    modifies scores, frequencies
    ensures Midway(scores[..], frequencies[..], log, corpus, terms, term, done + {d})
    ensures Exact(Tally(scores[..], more))
  {
    assert frequencies[..][d] == TermFrequency(corpus[d].occurrences, term);
    var gain := Gain(x, log, corpus, term, d, idf, frequencies[d]);
    ContributionSign(log, corpus, term, d);
    PushExact(scores[..], scored, d, gain);
    MidwayNext(scores[..], frequencies[..], log, corpus, terms, term, done, d);
    more := Credit(scores, scored, frequencies, d, gain);
  }

  /** With every touched document scored, the term is part of the score and the totals are zero. */
  lemma AllScored(scores: seq<real>, frequencies: seq<real>, log: real -> real, corpus: seq<Doc>, terms: seq<Text>,
        term: Text, done: set<int>)
    requires PositiveCorpus(corpus) && Midway(scores, frequencies, log, corpus, terms, term, done)
    requires forall d :: 0 <= d < |corpus| && TermFrequency(corpus[d].occurrences, term) > 0.0 ==> d in done
    ensures Scores(scores, log, corpus, terms + [term]) && AllZero(frequencies)
  {
    assert (terms + [term])[..|terms|] == terms;
    forall d | 0 <= d < |corpus|
      ensures scores[d] == Score(log, corpus, terms + [term], d) && frequencies[d] == 0.0
    {
      FrequencyBounds(corpus[d].occurrences, term);
    }
  }

  function Elements(s: seq<int>): (r: set<int>)
    ensures forall d :: d in r <==> d in s
  {
    set d | d in s
  }

  method ScoreTouched(x: Index, ghost log: real -> real, ghost corpus: seq<Doc>, ghost terms: seq<Text>,
        ghost term: Text,
                      touched: seq<int>, idf: real, scores: array<real>, scored: seq<int>, frequencies: array<real>)
    returns (more: seq<int>)
    requires Indexes(x, corpus) && PositiveAboveOne(log) && scores != frequencies
    requires Scores(scores[..], log, corpus, terms) && Exact(Tally(scores[..], scored))
    requires Totals(frequencies[..], corpus, term) && Exact(Tally(frequencies[..], touched))
    requires idf == Idf(log, |corpus|, DocumentFrequency(corpus, term))
    modifies scores, frequencies
    ensures Midway(scores[..], frequencies[..], log, corpus, terms, term, Elements(touched))
      && Exact(Tally(scores[..], more))
  {
    more := scored;
    ghost var totals := frequencies[..];
    assert Elements(touched[..0]) == {};
    for i := 0 to |touched|
      invariant Midway(scores[..], frequencies[..], log, corpus, terms, term, Elements(touched[..i]))
      invariant Exact(Tally(scores[..], more))
    {
      TouchedNext(totals, touched, corpus, term, i);
      more := ScoreDocument(x, log, corpus, terms, term, Elements(touched[..i]), touched[i], idf, scores, more,
        frequencies);
    }
    assert touched[..|touched|] == touched;
  }

  /** The body of the term loop. */
  method ScoreTerm(x: Index, lex: Lexicon, ghost corpus: seq<Doc>, ghost terms: seq<Text>, term: Text,
                   scores: array<real>, scored: seq<int>, frequencies: array<real>) returns (more: seq<int>)
    requires Indexes(x, corpus) && PositiveAboveOne(lex.log) && scores != frequencies
    requires Scores(scores[..], lex.log, corpus, terms) && Exact(Tally(scores[..], scored))
    requires frequencies.Length == |corpus| && AllZero(frequencies[..])
    modifies scores, frequencies
    ensures Scores(scores[..], lex.log, corpus, terms + [term]) && Exact(Tally(scores[..], more))
    ensures AllZero(frequencies[..])
  {
    more := scored;
    var touched := MatchTerm(x, corpus, term, frequencies);
    ghost var totals := frequencies[..];
    assert Totals(totals, corpus, term);
    TouchedAreCounted(totals, touched, corpus, term);
    TouchedAll(totals, touched, corpus, term);
    if |touched| != 0 {
      var idf := lex.log(1.0 + ((|x.documents| - |touched|) as real + 0.5) / (|touched| as real + 0.5));
      more := ScoreTouched(x, lex.log, corpus, terms, term, touched, idf, scores, more, frequencies);
    } else {
      assert Midway(scores[..], frequencies[..], lex.log, corpus, terms, term, Elements(touched));
    }
    AllScored(scores[..], frequencies[..], lex.log, corpus, terms, term, Elements(touched));
  }

  lemma TouchedNext(totals: seq<real>, touched: seq<int>, corpus: seq<Doc>, term: Text, i: nat)
    requires Exact(Tally(totals, touched)) && Totals(totals, corpus, term) && i < |touched|
    ensures 0 <= touched[i] < |corpus| && TermFrequency(corpus[touched[i]].occurrences, term) > 0.0
    ensures touched[i] !in touched[..i] && Elements(touched[..i + 1]) == Elements(touched[..i]) + {touched[i]}
  {
    assert touched[..i + 1] == touched[..i] + [touched[i]];
    assert touched == touched[..i] + [touched[i]] + touched[i + 1..];
    assert multiset(touched) == multiset(touched[..i]) + multiset{touched[i]} + multiset(touched[i + 1..]);
    assert multiset(touched)[touched[i]] >= 1;
    assert totals[touched[i]] > 0.0;
  }

  lemma TouchedAll(totals: seq<real>, touched: seq<int>, corpus: seq<Doc>, term: Text)
    requires Exact(Tally(totals, touched)) && Totals(totals, corpus, term)
    ensures forall d :: 0 <= d < |corpus| && TermFrequency(corpus[d].occurrences, term) > 0.0 ==> d in touched
  {
    forall d | 0 <= d < |corpus| && TermFrequency(corpus[d].occurrences, term) > 0.0 ensures d in touched {
      assert totals[d] > 0.0;
      assert multiset(touched)[d] == 1;
    }
  }

  /** The loop over the query's terms. */
  method ScoreTerms(x: Index, lex: Lexicon, ghost corpus: seq<Doc>, terms: seq<Text>)
    returns (scores: seq<real>, scored: seq<int>)
    requires Indexes(x, corpus) && PositiveAboveOne(lex.log)
    ensures Scores(scores, lex.log, corpus, terms) && Exact(Tally(scores, scored))
  {
    var frequencies := new real[|x.documents|](i => 0.0);
    var sums := new real[|x.documents|](i => 0.0);
    scored := [];
    for i := 0 to |terms|
      invariant Scores(sums[..], lex.log, corpus, terms[..i]) && Exact(Tally(sums[..], scored))
      invariant AllZero(frequencies[..])
    {
      assert terms[..i + 1] == terms[..i] + [terms[i]];
      scored := ScoreTerm(x, lex, corpus, terms[..i], terms[i], sums, scored, frequencies);
    }
    assert terms[..|terms|] == terms;
    scores := sums[..];
  }
}
