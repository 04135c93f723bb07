/** What moves a document up among the results, for every corpus, query, tag filter and limit. */
module SearchOrder {
  import opened Wrappers
  import opened SearchCorpus
  import opened SearchRanking
  import opened SearchLaws

  // The length-normalised frequency.

  lemma Cleared(n: real, d: real, x: real)
    requires d > 0.0 && n == x / d
    ensures n * d == x
  {
  }

  /** Okapi BM25 with `k1` = 1.2 and `b` = 0.75. */
  lemma NormalizedIs(tf: real, length: real, average: real)
    requires tf > 0.0 && length >= 0.0 && average > 0.0
    ensures Normalized(tf, length, average) * (tf * average + 0.3 * average + 0.9 * length) == 2.2 * (tf * average)
  {
    var f := B * length / average;
    var below := tf + K1 * (1.0 - B + f);
    NormalizedPositive(tf, length, average);
    Cleared(f, average, B * length);
    Cleared(Normalized(tf, length, average), below, tf * (K1 + 1.0));
    Rescaled(Normalized(tf, length, average), tf, f, length, average);
  }

  lemma Rescaled(n: real, tf: real, f: real, length: real, average: real)
    requires f * average == 0.75 * length && n * (tf + 0.3 + 1.2 * f) == 2.2 * tf
    ensures n * (tf * average + 0.3 * average + 0.9 * length) == 2.2 * (tf * average)
  {
    calc {
      n * (tf * average + 0.3 * average + 0.9 * length);
      n * (tf * average + 0.3 * average + 1.2 * (f * average));
      (n * (tf + 0.3 + 1.2 * f)) * average;
      2.2 * (tf * average);
    }
  }

  lemma ProductPositive(x: real, y: real)
    requires x > 0.0 && y > 0.0
    ensures x * y > 0.0
  {
  }

  lemma Compared(m: real, c: real, s: real, n: real, d: real, t: real)
    requires c > 0.0 && d > 0.0 && m * c == s && n * d == t && s * d > t * c
    ensures m > n
  {
    assert (m * c) * d > (n * d) * c;
    assert (m - n) * (c * d) == (m * c) * d - (n * d) * c;
    ProductPositive(c, d);
  }

  /** What a frequency is worth grows against the length it stands in. */
  ghost predicate Outweighs(tf: real, length: real, less: real, other: real, average: real) {
    tf * (0.3 * average + 0.9 * other) > less * (0.3 * average + 0.9 * length)
  }

  lemma NormalizedAbove(tf: real, length: real, less: real, other: real, average: real)
    requires tf > 0.0 && less > 0.0 && length >= 0.0 && other >= 0.0 && average > 0.0
    requires Outweighs(tf, length, less, other, average)
    ensures Normalized(tf, length, average) > Normalized(less, other, average)
  {
    NormalizedIs(tf, length, average);
    NormalizedIs(less, other, average);
    ProductPositive(tf, average);
    ProductPositive(less, average);
    var c, d := 0.3 * average + 0.9 * length, 0.3 * average + 0.9 * other;
    Crossed(tf, less, average, c, d);
    Compared(Normalized(tf, length, average), tf * average + c, 2.2 * (tf * average),
      Normalized(less, other, average), less * average + d, 2.2 * (less * average));
  }

  lemma Crossed(tf: real, less: real, average: real, c: real, d: real)
    requires tf * d > less * c && average > 0.0
    ensures 2.2 * (tf * average) * (less * average + d) > 2.2 * (less * average) * (tf * average + c)
  {
    ProductPositive(average, tf * d - less * c);
    assert (tf * average) * (less * average + d) - (less * average) * (tf * average + c)
      == average * (tf * d - less * c);
  }

  // What a document gains from a term.

  function Frequency(corpus: seq<Doc>, term: Text, d: nat): real
    requires d < |corpus|
  {
    TermFrequency(corpus[d].occurrences, term)
  }

  function Length(corpus: seq<Doc>, d: nat): real
    requires d < |corpus|
  {
    TotalWeight(corpus[d].occurrences)
  }

  lemma AverageNotNegative(corpus: seq<Doc>)
    requires PositiveCorpus(corpus)
    ensures AverageLength(corpus) >= 0.0
  {
    LengthSumNonNegative(corpus);
  }

  lemma Scaled(idf: real, m: real, n: real)
    requires idf > 0.0 && m > n
    ensures idf * m > idf * n
  {
  }

  lemma OutweighsPositive(tf: real, length: real, less: real, other: real, average: real)
    requires tf >= 0.0 && less >= 0.0 && length >= 0.0 && other >= 0.0 && average >= 0.0
    requires Outweighs(tf, length, less, other, average)
    ensures tf > 0.0
  {
  }

  lemma ContributionIs(log: real -> real, corpus: seq<Doc>, term: Text, d: nat, idf: real, n: real)
    requires d < |corpus| && Frequency(corpus, term, d) > 0.0
    requires idf == Idf(log, |corpus|, DocumentFrequency(corpus, term))
    requires n == Normalized(Frequency(corpus, term, d), Length(corpus, d), AverageLength(corpus))
    ensures Contribution(log, corpus, term, d) == idf * n
  {
  }

  /** The two factors of a contribution. */
  lemma Factors(log: real -> real, corpus: seq<Doc>, term: Text, d: nat) returns (idf: real, n: real)
    requires PositiveAboveOne(log) && d < |corpus| && Frequency(corpus, term, d) > 0.0
    ensures idf == Idf(log, |corpus|, DocumentFrequency(corpus, term)) && idf > 0.0
    ensures n == Normalized(Frequency(corpus, term, d), Length(corpus, d), AverageLength(corpus))
    ensures Contribution(log, corpus, term, d) == idf * n
  {
    idf := Idf(log, |corpus|, DocumentFrequency(corpus, term));
    n := Normalized(Frequency(corpus, term, d), Length(corpus, d), AverageLength(corpus));
    IdfPositive(log, |corpus|, DocumentFrequency(corpus, term));
    ContributionIs(log, corpus, term, d, idf, n);
  }

  lemma BothAbove(log: real -> real, corpus: seq<Doc>, term: Text, i: nat, j: nat)
    requires PositiveAboveOne(log) && i < |corpus| && j < |corpus|
    requires Frequency(corpus, term, i) > 0.0 && Frequency(corpus, term, j) > 0.0
    requires Normalized(Frequency(corpus, term, i), Length(corpus, i), AverageLength(corpus))
      > Normalized(Frequency(corpus, term, j), Length(corpus, j), AverageLength(corpus))
    ensures Contribution(log, corpus, term, i) > Contribution(log, corpus, term, j)
  {
    var idf, m := Factors(log, corpus, term, i);
    var same, n := Factors(log, corpus, term, j);
    Scaled(idf, m, n);
  }

  lemma ContributionAbove(log: real -> real, corpus: seq<Doc>, term: Text, i: nat, j: nat)
    requires PositiveAboveOne(log) && PositiveCorpus(corpus) && i < |corpus| && j < |corpus|
    requires Outweighs(Frequency(corpus, term, i), Length(corpus, i), Frequency(corpus, term, j), Length(corpus, j),
                       AverageLength(corpus))
    ensures Contribution(log, corpus, term, i) > Contribution(log, corpus, term, j)
  {
    var tf, less, average := Frequency(corpus, term, i), Frequency(corpus, term, j), AverageLength(corpus);
    FrequencyBounds(corpus[i].occurrences, term);
    FrequencyBounds(corpus[j].occurrences, term);
    AverageNotNegative(corpus);
    OutweighsPositive(tf, Length(corpus, i), less, Length(corpus, j), average);
    if less > 0.0 {
      AverageLengthPositive(corpus, i);
      NormalizedAbove(tf, Length(corpus, i), less, Length(corpus, j), average);
      BothAbove(log, corpus, term, i, j);
    } else {
      ContributionSign(log, corpus, term, i);
    }
  }

  // Scores and results.

  lemma {:induction false} ScoresAtLeast(log: real -> real, corpus: seq<Doc>, terms: seq<Text>, i: nat, j: nat)
    requires i < |corpus| && j < |corpus|
    requires forall t :: t in terms ==> Contribution(log, corpus, t, i) >= Contribution(log, corpus, t, j)
    ensures Score(log, corpus, terms, i) >= Score(log, corpus, terms, j)
    ensures (exists t :: t in terms && Contribution(log, corpus, t, i) > Contribution(log, corpus, t, j)) ==>
      Score(log, corpus, terms, i) > Score(log, corpus, terms, j)
  {
    if terms != [] {
      assert terms == terms[..|terms| - 1] + [terms[|terms| - 1]];
      ScoresAtLeast(log, corpus, terms[..|terms| - 1], i, j);
    }
  }

  /** What a search answers, before the names are read. */
  function Answer(log: real -> real, corpus: seq<Doc>, terms: seq<Text>, tags: set<Text>, limit: nat): seq<int> {
    Take(Carrying(corpus, Ranking(log, corpus, terms), tags), limit)
  }

  /** Wherever the second is listed the first is listed before it. */
  ghost predicate Ahead(ids: seq<int>, i: int, j: int) {
    forall y :: 0 <= y < |ids| && ids[y] == j ==> i in ids[..y]
  }

  lemma {:induction false} SortedAhead(o: Order, ids: seq<int>, i: int, j: int)
    requires Asymmetric(o) && StrictlySorted(o, ids) && o(i, j) && i in ids
    ensures Ahead(ids, i, j)
  {
    if ids[0] != i {
      SortedAhead(o, ids[1..], i, j);
      forall y | 0 <= y < |ids| && ids[y] == j ensures i in ids[..y] {
        assert i in ids[1..] && o(ids[0], i);
        assert y > 0;
        assert ids[1..][y - 1] == j;
        assert ids[1..][..y - 1] == ids[..y][1..];
      }
    } else {
      assert o(i, j) && !o(j, i);
      assert !o(i, i);
    }
  }

  lemma AheadTaken(ids: seq<int>, i: int, j: int, limit: nat)
    requires Ahead(ids, i, j)
    ensures Ahead(Take(ids, limit), i, j)
  {
    forall y | 0 <= y < |Take(ids, limit)| && Take(ids, limit)[y] == j ensures i in Take(ids, limit)[..y] {
      assert ids[y] == j;
      assert Take(ids, limit)[..y] == ids[..y];
    }
  }

  /** A document with the higher score that carries the wanted tags is answered ahead of the other. */
  lemma HigherIsAhead(log: real -> real, corpus: seq<Doc>, terms: seq<Text>, i: nat, j: nat, tags: set<Text>,
        limit: nat)
    requires PositiveAboveOne(log) && PositiveCorpus(corpus) && i < |corpus| && j < |corpus|
    requires Score(log, corpus, terms, i) > Score(log, corpus, terms, j) && CarriesAt(corpus, i, tags)
    ensures Ahead(Answer(log, corpus, terms, tags, limit), i, j)
  {
    var o, ranking := ScoreOrder(log, corpus, terms), Ranking(log, corpus, terms);
    ScoreNotNegative(log, corpus, terms, j);
    RankingMeans(log, corpus, terms);
    ScoreOrderStrict(log, corpus, terms);
    CarryingKeeps(o, corpus, ranking, tags);
    assert multiset(Carrying(corpus, ranking, tags))[i] == 1;
    SortedAhead(o, Carrying(corpus, ranking, tags), i, j);
    AheadTaken(Carrying(corpus, ranking, tags), i, j, limit);
  }

  lemma {:induction false} ScoreNotNegative(log: real -> real, corpus: seq<Doc>, terms: seq<Text>, d: nat)
    requires PositiveAboveOne(log) && PositiveCorpus(corpus) && d < |corpus|
    ensures Score(log, corpus, terms, d) >= 0.0
  {
    if terms != [] {
      ScoreNotNegative(log, corpus, terms[..|terms| - 1], d);
      ContributionSign(log, corpus, terms[|terms| - 1], d);
    }
  }

  // The laws.

  /** `i` scores above `j` and, where it carries the wanted tags, is answered ahead of it. */
  ghost predicate Outscores(log: real -> real, corpus: seq<Doc>, terms: seq<Text>, i: nat, j: nat)
    requires i < |corpus| && j < |corpus|
  {
    && Score(log, corpus, terms, i) > Score(log, corpus, terms, j)
    && forall tags, limit :: CarriesAt(corpus, i, tags) ==> Ahead(Answer(log, corpus, terms, tags, limit), i, j)
  }

  lemma ContributionsDecide(log: real -> real, corpus: seq<Doc>, terms: seq<Text>, i: nat, j: nat, term: Text)
    requires PositiveAboveOne(log) && PositiveCorpus(corpus) && i < |corpus| && j < |corpus|
    requires forall t :: t in terms ==> Contribution(log, corpus, t, i) >= Contribution(log, corpus, t, j)
    requires term in terms && Contribution(log, corpus, term, i) > Contribution(log, corpus, term, j)
    ensures Outscores(log, corpus, terms, i, j)
  {
    ScoresAtLeast(log, corpus, terms, i, j);
    forall tags, limit: nat | CarriesAt(corpus, i, tags)
      ensures Ahead(Answer(log, corpus, terms, tags, limit), i, j)
    {
      HigherIsAhead(log, corpus, terms, i, j, tags, limit);
    }
  }

  /** At equal length, terms that occur more often rank a document higher. */
  lemma MoreOccurrencesRank(log: real -> real, corpus: seq<Doc>, terms: seq<Text>, i: nat, j: nat, term: Text)
    requires PositiveAboveOne(log) && PositiveCorpus(corpus) && i < |corpus| && j < |corpus|
    requires Length(corpus, i) == Length(corpus, j)
    requires forall t :: t in terms ==> Frequency(corpus, t, i) >= Frequency(corpus, t, j)
    requires term in terms && Frequency(corpus, term, i) > Frequency(corpus, term, j)
    ensures Outscores(log, corpus, terms, i, j)
  {
    forall t | t in terms
      ensures Contribution(log, corpus, t, i) >= Contribution(log, corpus, t, j)
      ensures Frequency(corpus, t, i) > Frequency(corpus, t, j) ==>
        Contribution(log, corpus, t, i) > Contribution(log, corpus, t, j)
    {
      if Frequency(corpus, t, i) > Frequency(corpus, t, j) {
        MoreOutweighs(log, corpus, t, i, j);
      }
    }
    ContributionsDecide(log, corpus, terms, i, j, term);
  }

  lemma MoreTips(tf: real, less: real, length: real, average: real)
    requires tf > less && length >= 0.0 && average > 0.0
    ensures Outweighs(tf, length, less, length, average)
  {
    ProductPositive(tf - less, 0.3 * average + 0.9 * length);
  }

  lemma MoreOutweighs(log: real -> real, corpus: seq<Doc>, term: Text, i: nat, j: nat)
    requires PositiveAboveOne(log) && PositiveCorpus(corpus) && i < |corpus| && j < |corpus|
    requires Length(corpus, i) == Length(corpus, j) && Frequency(corpus, term, i) > Frequency(corpus, term, j)
    ensures Contribution(log, corpus, term, i) > Contribution(log, corpus, term, j)
  {
    var tf, less := Frequency(corpus, term, i), Frequency(corpus, term, j);
    FrequencyBounds(corpus[i].occurrences, term);
    FrequencyBounds(corpus[j].occurrences, term);
    AverageLengthPositive(corpus, i);
    MoreTips(tf, less, Length(corpus, i), AverageLength(corpus));
    ContributionAbove(log, corpus, term, i, j);
  }

  /** At equal frequency, the shorter of two documents in which a term occurs ranks higher. */
  lemma ShorterRanks(log: real -> real, corpus: seq<Doc>, terms: seq<Text>, i: nat, j: nat, term: Text)
    requires PositiveAboveOne(log) && PositiveCorpus(corpus) && i < |corpus| && j < |corpus|
    requires Length(corpus, i) < Length(corpus, j)
    requires forall t :: t in terms ==> Frequency(corpus, t, i) == Frequency(corpus, t, j)
    requires term in terms && Frequency(corpus, term, i) > 0.0
    ensures Outscores(log, corpus, terms, i, j)
  {
    forall t | t in terms
      ensures Contribution(log, corpus, t, i) >= Contribution(log, corpus, t, j)
      ensures Frequency(corpus, t, i) > 0.0 ==> Contribution(log, corpus, t, i) > Contribution(log, corpus, t, j)
    {
      if Frequency(corpus, t, i) > 0.0 { ShorterOutweighs(log, corpus, t, i, j); }
    }
    ContributionsDecide(log, corpus, terms, i, j, term);
  }

  lemma ShorterTips(tf: real, length: real, other: real, average: real)
    requires tf > 0.0 && length < other
    ensures Outweighs(tf, length, tf, other, average)
  {
    ProductPositive(tf, (0.3 * average + 0.9 * other) - (0.3 * average + 0.9 * length));
  }

  lemma ShorterOutweighs(log: real -> real, corpus: seq<Doc>, term: Text, i: nat, j: nat)
    requires PositiveAboveOne(log) && PositiveCorpus(corpus) && i < |corpus| && j < |corpus|
    requires Length(corpus, i) < Length(corpus, j)
    requires Frequency(corpus, term, i) == Frequency(corpus, term, j) > 0.0
    ensures Contribution(log, corpus, term, i) > Contribution(log, corpus, term, j)
  {
    ShorterTips(Frequency(corpus, term, i), Length(corpus, i), Length(corpus, j), AverageLength(corpus));
    ContributionAbove(log, corpus, term, i, j);
  }

  ghost predicate Increasing(log: real -> real) {
    forall x: real, y: real :: 0.0 < x < y ==> log(x) < log(y)
  }

  /** The weight of a term is the logarithm of the documents and one over its own and a half. */
  lemma IdfIs(log: real -> real, n: nat, df: nat)
    requires df <= n
    ensures Idf(log, n, df) == log((n as real + 1.0) / (df as real + 0.5))
  {
    var d := df as real + 0.5;
    Cleared(((n - df) as real + 0.5) / d, d, (n - df) as real + 0.5);
    Cleared((n as real + 1.0) / d, d, n as real + 1.0);
    Scales(1.0 + ((n - df) as real + 0.5) / d, (n as real + 1.0) / d, d);
  }

  lemma Scales(x: real, y: real, d: real)
    requires d > 0.0 && x * d == y * d
    ensures x == y
  {
    assert (x - y) * d == 0.0;
  }

  lemma IdfFalls(log: real -> real, n: nat, df: nat, more: nat)
    requires Increasing(log) && df < more <= n
    ensures Idf(log, n, df) > Idf(log, n, more)
  {
    IdfIs(log, n, df);
    IdfIs(log, n, more);
    var c, d, x := df as real + 0.5, more as real + 0.5, n as real + 1.0;
    Cleared(x / c, c, x);
    Cleared(x / d, d, x);
    ProductPositive(x, d - c);
    Compared(x / c, c, x, x / d, d, x);
    QuotientPositive(x, d);
  }

  lemma NormalizedIsPositive(corpus: seq<Doc>, term: Text, d: nat)
    requires PositiveCorpus(corpus) && d < |corpus| && Frequency(corpus, term, d) > 0.0
    ensures Normalized(Frequency(corpus, term, d), Length(corpus, d), AverageLength(corpus)) > 0.0
  {
    FrequencyBounds(corpus[d].occurrences, term);
    AverageLengthPositive(corpus, d);
    NormalizedPositive(Frequency(corpus, term, d), Length(corpus, d), AverageLength(corpus));
  }

  lemma RarerFactors(log: real -> real, corpus: seq<Doc>, rare: Text, common: Text, d: nat)
    returns (high: real, low: real, n: real)
    requires PositiveAboveOne(log) && Increasing(log) && PositiveCorpus(corpus) && d < |corpus|
    requires DocumentFrequency(corpus, rare) < DocumentFrequency(corpus, common)
    requires Frequency(corpus, rare, d) == Frequency(corpus, common, d) > 0.0
    ensures high > low && n > 0.0
    ensures Contribution(log, corpus, rare, d) == high * n && Contribution(log, corpus, common, d) == low * n
  {
    high, n := Factors(log, corpus, rare, d);
    var same;
    low, same := Factors(log, corpus, common, d);
    NormalizedIsPositive(corpus, rare, d);
    IdfFalls(log, |corpus|, DocumentFrequency(corpus, rare), DocumentFrequency(corpus, common));
  }

  lemma ProductsCompare(a: real, b: real, high: real, low: real, n: real)
    requires high > low && n > 0.0 && a == high * n && b == low * n
    ensures a > b
  {
  }

  /** Of two terms with one frequency in a document, the one that fewer documents hold contributes more. */
  lemma RarerContributesMore(log: real -> real, corpus: seq<Doc>, rare: Text, common: Text, d: nat)
    requires PositiveAboveOne(log) && Increasing(log) && PositiveCorpus(corpus) && d < |corpus|
    requires DocumentFrequency(corpus, rare) < DocumentFrequency(corpus, common)
    requires Frequency(corpus, rare, d) == Frequency(corpus, common, d) > 0.0
    ensures Contribution(log, corpus, rare, d) > Contribution(log, corpus, common, d)
  {
    var high, low, n := RarerFactors(log, corpus, rare, common, d);
    ProductsCompare(Contribution(log, corpus, rare, d), Contribution(log, corpus, common, d), high, low, n);
  }

  // Where a token stands.

  predicate Outranks(a: Place, b: Place) {
    (a == InName && b != InName) || (a == InDescription && b != InName && b != InDescription)
  }

  function One(here: bool, token: Text): multiset<Text> {
    if here then multiset{token} else multiset{}
  }

  /** The same tokens at the same places, but for one: it stands here in the one document and there in the other. */
  ghost predicate DifferInPlace(lex: Lexicon, a: SearchDocument, b: SearchDocument, here: Place, there: Place,
                                token: Text)
  {
    forall place {:trigger TokensAt(lex, a, place)} ::
      multiset(TokensAt(lex, a, place)) + One(place == there, token)
      == multiset(TokensAt(lex, b, place)) + One(place == here, token)
  }

  function Extra(here: bool, token: Text): (r: seq<Text>)
    ensures multiset(r) == One(here, token)
  {
    if here then [token] else []
  }

  function Unit(b: bool): nat {
    if b then 1 else 0
  }

  lemma PlaceDiffers(lex: Lexicon, a: SearchDocument, b: SearchDocument, here: Place, there: Place, token: Text,
        term: Text, place: Place)
    requires DifferInPlace(lex, a, b, here, there, token)
    ensures CountAt(lex, a, place, term) + Unit(place == there && Meets(term, token))
      == CountAt(lex, b, place, term) + Unit(place == here && Meets(term, token))
    ensures SizeAt(lex, a, place) + Unit(place == there) == SizeAt(lex, b, place) + Unit(place == here)
  {
    var s, more := TokensAt(lex, a, place), Extra(place == there, token);
    var t, other := TokensAt(lex, b, place), Extra(place == here, token);
    assert multiset(s + more) == multiset(s) + multiset(more);
    assert multiset(t + other) == multiset(t) + multiset(other);
    CountJoined(term, s, more);
    CountJoined(term, t, other);
    CountPermuted(term, s + more, t + other);
    assert |multiset(s + more)| == |s + more| && |multiset(t + other)| == |t + other|;
  }

  function Worth(place: Place): real {
    match place
    case InName => 3.0
    case InDescription => 1.5
    case _ => 1.0
  }

  lemma FrequencyShifts(lex: Lexicon, a: SearchDocument, b: SearchDocument, here: Place, there: Place, token: Text,
        term: Text)
    requires DifferInPlace(lex, a, b, here, there, token)
    ensures TermFrequency(Occurrences(lex, a), term) - TermFrequency(Occurrences(lex, b), term)
      == if Meets(term, token) then Worth(here) - Worth(there) else 0.0
    ensures TotalWeight(Occurrences(lex, a)) - TotalWeight(Occurrences(lex, b)) == Worth(here) - Worth(there)
  {
    PlaceDiffers(lex, a, b, here, there, token, term, InName);
    PlaceDiffers(lex, a, b, here, there, token, term, InDescription);
    PlaceDiffers(lex, a, b, here, there, token, term, InTags);
    PlaceDiffers(lex, a, b, here, there, token, term, InRoutes);
    PlaceDiffers(lex, a, b, here, there, token, term, InParameters);
    FrequencyIs(lex, a, term);
    FrequencyIs(lex, b, term);
  }

  lemma PlaceTips(less: real, other: real, gain: real, average: real)
    requires 0.0 <= less <= other && gain > 0.0 && average > 0.0
    ensures Outweighs(less + gain, other + gain, less, other, average)
  {
    ProductPositive(gain, average);
    Excess(gain, other - less);
    assert (less + gain) * (0.3 * average + 0.9 * other) - less * (0.3 * average + 0.9 * (other + gain))
      == 0.3 * (gain * average) + 0.9 * (gain * (other - less));
  }

  lemma Excess(x: real, y: real)
    requires x > 0.0 && y >= 0.0
    ensures x * y >= 0.0
  {
  }

  ghost predicate Unmet(lex: Lexicon, d: SearchDocument, term: Text) {
    forall place {:trigger CountAt(lex, d, place, term)} :: CountAt(lex, d, place, term) == 0
  }

  lemma UnmetFrequency(lex: Lexicon, d: SearchDocument, term: Text)
    requires Unmet(lex, d, term)
    ensures TermFrequency(Occurrences(lex, d), term) == 0.0
  {
    FrequencyIs(lex, d, term);
  }

  /** As much more in frequency as in length is worth more. */
  lemma GainContributes(log: real -> real, corpus: seq<Doc>, term: Text, i: nat, j: nat, gain: real)
    requires PositiveAboveOne(log) && PositiveCorpus(corpus) && i < |corpus| && j < |corpus| && gain > 0.0
    requires Frequency(corpus, term, i) == Frequency(corpus, term, j) + gain
    requires Length(corpus, i) == Length(corpus, j) + gain
    ensures Contribution(log, corpus, term, i) > Contribution(log, corpus, term, j)
  {
    FrequencyBounds(corpus[j].occurrences, term);
    AverageLengthPositive(corpus, i);
    PlaceTips(Frequency(corpus, term, j), Length(corpus, j), gain, AverageLength(corpus));
    ContributionAbove(log, corpus, term, i, j);
  }

  lemma CorpusShifts(lex: Lexicon, documents: seq<SearchDocument>, i: nat, j: nat, here: Place, there: Place,
        token: Text, term: Text)
    requires i < |documents| && j < |documents|
    requires DifferInPlace(lex, documents[i], documents[j], here, there, token)
    ensures var corpus, gain := Corpus(lex, documents), Worth(here) - Worth(there);
      && Frequency(corpus, term, i) == Frequency(corpus, term, j) + (if Meets(term, token) then gain else 0.0)
      && Length(corpus, i) == Length(corpus, j) + gain
  {
    CorpusAt(lex, documents, i);
    CorpusAt(lex, documents, j);
    FrequencyShifts(lex, documents[i], documents[j], here, there, token, term);
  }

  lemma CorpusUnmet(lex: Lexicon, documents: seq<SearchDocument>, j: nat, term: Text)
    requires j < |documents| && Unmet(lex, documents[j], term)
    ensures Frequency(Corpus(lex, documents), term, j) == 0.0
  {
    CorpusAt(lex, documents, j);
    UnmetFrequency(lex, documents[j], term);
  }

  lemma MetContributes(lex: Lexicon, documents: seq<SearchDocument>, i: nat, j: nat, here: Place, there: Place,
        token: Text, term: Text)
    requires PositiveAboveOne(lex.log) && i < |documents| && j < |documents| && Outranks(here, there)
    requires DifferInPlace(lex, documents[i], documents[j], here, there, token) && Meets(term, token)
    ensures Contribution(lex.log, Corpus(lex, documents), term, i) > Contribution(lex.log, Corpus(lex, documents),
      term, j)
  {
    CorpusPositive(lex, documents);
    CorpusShifts(lex, documents, i, j, here, there, token, term);
    GainContributes(lex.log, Corpus(lex, documents), term, i, j, Worth(here) - Worth(there));
  }

  lemma NothingContributes(log: real -> real, corpus: seq<Doc>, term: Text, d: nat)
    requires d < |corpus| && Frequency(corpus, term, d) == 0.0
    ensures Contribution(log, corpus, term, d) == 0.0
  {
  }

  lemma UnmetContributes(lex: Lexicon, documents: seq<SearchDocument>, i: nat, j: nat, here: Place, there: Place,
        token: Text, term: Text)
    requires i < |documents| && j < |documents|
    requires DifferInPlace(lex, documents[i], documents[j], here, there, token)
    requires !Meets(term, token) && Unmet(lex, documents[j], term)
    ensures Contribution(lex.log, Corpus(lex, documents), term, i) == 0.0
    ensures Contribution(lex.log, Corpus(lex, documents), term, j) == 0.0
  {
    CorpusShifts(lex, documents, i, j, here, there, token, term);
    CorpusUnmet(lex, documents, j, term);
    NothingContributes(lex.log, Corpus(lex, documents), term, i);
    NothingContributes(lex.log, Corpus(lex, documents), term, j);
  }

  /**
   * Of two documents that differ only in where one token stands, the one with it in the name ranks above the other,
   * and the one with it in the description above those with it in tags, routes or parameters: for every query that
   * the token answers and whose other terms the documents do not hold.
   */
  lemma PlaceRanks(lex: Lexicon, documents: seq<SearchDocument>, terms: seq<Text>, i: nat, j: nat, here: Place,
        there: Place, token: Text, term: Text)
    requires PositiveAboveOne(lex.log) && i < |documents| && j < |documents| && Outranks(here, there)
    requires DifferInPlace(lex, documents[i], documents[j], here, there, token)
    requires term in terms && Meets(term, token)
    requires forall t :: t in terms ==> Meets(t, token) || Unmet(lex, documents[j], t)
    ensures Outscores(lex.log, Corpus(lex, documents), terms, i, j)
  {
    CorpusPositive(lex, documents);
    forall t | t in terms
      ensures Contribution(lex.log, Corpus(lex, documents), t, i) >= Contribution(lex.log, Corpus(lex, documents), t, j)
    {
      if Meets(t, token) {
        MetContributes(lex, documents, i, j, here, there, token, t);
      } else {
        UnmetContributes(lex, documents, i, j, here, there, token, t);
      }
    }
    MetContributes(lex, documents, i, j, here, there, token, term);
    ContributionsDecide(lex.log, Corpus(lex, documents), terms, i, j, term);
  }

  // The corpus.

  lemma AverageTimes(corpus: seq<Doc>)
    requires corpus != []
    ensures AverageLength(corpus) * |corpus| as real == LengthSum(corpus)
  {
    Cleared(AverageLength(corpus), |corpus| as real, LengthSum(corpus));
  }

  lemma AverageOfOne(d: Doc)
    ensures AverageLength([d]) == TotalWeight(d.occurrences)
  {
    assert [d][..0] == [];
    assert LengthSum([]) == 0.0;
  }

  /** Lengths are averaged over all documents. */
  lemma AverageIs(a: seq<Doc>, b: seq<Doc>)
    requires a != [] && b != []
    ensures AverageLength(a + b) * |a + b| as real == AverageLength(a) * |a| as real + AverageLength(b) * |b| as real
  {
    LengthSumJoined(a, b);
    AverageTimes(a + b);
    AverageTimes(a);
    AverageTimes(b);
  }

  lemma {:induction false} LengthSumJoined(a: seq<Doc>, b: seq<Doc>)
    ensures LengthSum(a + b) == LengthSum(a) + LengthSum(b)
  {
    if b == [] {
      assert a + b == a;
    } else {
      assert (a + b)[..|a + b| - 1] == a + b[..|b| - 1];
      LengthSumJoined(a, b[..|b| - 1]);
    }
  }

  /** A term is met somewhere in a document. */
  predicate HoldsTerm(lex: Lexicon, d: SearchDocument, term: Text) {
    || CountAt(lex, d, InName, term) > 0 || CountAt(lex, d, InDescription, term) > 0
    || CountAt(lex, d, InTags, term) > 0 || CountAt(lex, d, InRoutes, term) > 0
    || CountAt(lex, d, InParameters, term) > 0
  }

  ghost function Holders(lex: Lexicon, documents: seq<SearchDocument>, term: Text): set<int> {
    set d: int | 0 <= d < |documents| && HoldsTerm(lex, documents[d], term)
  }

  lemma SomeCounts(name: nat, description: nat, rest: nat)
    ensures 3.0 * name as real + 1.5 * description as real + rest as real > 0.0 <==>
      name > 0 || description > 0 || rest > 0
  {
  }

  lemma HoldsExactly(lex: Lexicon, d: SearchDocument, term: Text)
    ensures HoldsTerm(lex, d, term) <==> TermFrequency(Occurrences(lex, d), term) > 0.0
  {
    FrequencyIs(lex, d, term);
    SomeCounts(CountAt(lex, d, InName, term), CountAt(lex, d, InDescription, term),
      CountAt(lex, d, InTags, term) + CountAt(lex, d, InRoutes, term) + CountAt(lex, d, InParameters, term));
  }

  /** A term's document frequency is the number of documents that hold it. */
  lemma {:induction false} DocumentFrequencyIs(lex: Lexicon, documents: seq<SearchDocument>, term: Text)
    ensures DocumentFrequency(Corpus(lex, documents), term) == |Holders(lex, documents, term)|
  {
    if documents == [] {
      assert Holders(lex, documents, term) == {};
    } else {
      var n := |documents| - 1;
      var rest := documents[..n];
      DocumentFrequencyIs(lex, rest, term);
      HoldsExactly(lex, documents[n], term);
      HoldersNext(lex, documents, term);
      assert Corpus(lex, documents)[..n] == Corpus(lex, rest);
    }
  }

  lemma HoldersNext(lex: Lexicon, documents: seq<SearchDocument>, term: Text)
    requires documents != []
    ensures var n := |documents| - 1;
      |Holders(lex, documents, term)| == |Holders(lex, documents[..n], term)|
        + if HoldsTerm(lex, documents[n], term) then 1 else 0
  {
    var n := |documents| - 1;
    var before := Holders(lex, documents[..n], term);
    assert Holders(lex, documents, term) == before + if HoldsTerm(lex, documents[n], term) then {n} else {};
    assert n !in before;
  }

  // Why the other terms of the query matter: a name makes a document longer, too.

  ghost predicate Bears(lex: Lexicon, d: SearchDocument, name: seq<Text>, description: seq<Text>, routes: seq<Text>) {
    && TokensAt(lex, d, InName) == name && TokensAt(lex, d, InDescription) == description
    && TokensAt(lex, d, InRoutes) == routes
    && TokensAt(lex, d, InTags) == [] && TokensAt(lex, d, InParameters) == []
  }

  lemma CountOne(term: Text, token: Text)
    ensures Count(term, [token]) == Unit(Meets(term, token))
  {
    assert [token][..0] == [];
    assert Count(term, []) == 0;
  }

  lemma BearsCounts(lex: Lexicon, d: SearchDocument, t: Text, x: Text, named: bool)
    requires !Meets(t, x) && !Meets(x, t)
    requires if named then Bears(lex, d, [t], [], [x]) else Bears(lex, d, [], [t], [x])
    ensures TermFrequency(Occurrences(lex, d), t) == (if named then 3.0 else 1.5)
    ensures TermFrequency(Occurrences(lex, d), x) == 1.0
    ensures TotalWeight(Occurrences(lex, d)) == (if named then 4.0 else 2.5)
  {
    CountOne(t, t);
    CountOne(t, x);
    CountOne(x, t);
    CountOne(x, x);
    FrequencyIs(lex, d, t);
    FrequencyIs(lex, d, x);
  }

  /** Two documents of one corpus that hold both terms. */
  lemma PairAverages(corpus: seq<Doc>, term: Text)
    requires |corpus| == 2 && Frequency(corpus, term, 0) > 0.0 && Frequency(corpus, term, 1) > 0.0
    ensures AverageLength(corpus) == (Length(corpus, 0) + Length(corpus, 1)) / 2.0
    ensures DocumentFrequency(corpus, term) == 2
  {
    assert corpus == [corpus[0]] + [corpus[1]];
    LengthSumJoined([corpus[0]], [corpus[1]]);
    AverageOfOne(corpus[0]);
    AverageOfOne(corpus[1]);
    assert corpus[..1] == [corpus[0]] && corpus[..1][..0] == [];
    assert DocumentFrequency(corpus[..1], term) == 1;
  }

  lemma NamedValues()
    ensures Normalized(3.0, 4.0, 3.25) + Normalized(1.0, 4.0, 3.25)
      < Normalized(1.5, 2.5, 3.25) + Normalized(1.0, 2.5, 3.25)
  {
    NormalizedIs(3.0, 4.0, 3.25);
    NormalizedIs(1.0, 4.0, 3.25);
    NormalizedIs(1.5, 2.5, 3.25);
    NormalizedIs(1.0, 2.5, 3.25);
  }

  lemma TwoTerms(log: real -> real, corpus: seq<Doc>, t: Text, x: Text, d: nat)
    requires d < |corpus|
    ensures Score(log, corpus, [t, x], d) == Contribution(log, corpus, t, d) + Contribution(log, corpus, x, d)
  {
    assert [t, x][..1] == [t] && [t][..0] == [];
    assert Score(log, corpus, [], d) == 0.0;
    assert Score(log, corpus, [t], d) == Contribution(log, corpus, t, d);
  }

  lemma Halves(idf: real, a: real, b: real, c: real, d: real)
    requires idf > 0.0 && a + b < c + d
    ensures idf * a + idf * b < idf * c + idf * d
  {
    ProductPositive(idf, c + d - a - b);
  }

  /** A pair of documents, the first with a term in the name and the second with it in the description. */
  ghost predicate NamedAndDescribed(corpus: seq<Doc>, t: Text, x: Text) {
    && |corpus| == 2 && Length(corpus, 0) == 4.0 && Length(corpus, 1) == 2.5
    && Frequency(corpus, t, 0) == 3.0 && Frequency(corpus, t, 1) == 1.5
    && Frequency(corpus, x, 0) == 1.0 && Frequency(corpus, x, 1) == 1.0
  }

  lemma PairFactors(log: real -> real, corpus: seq<Doc>, t: Text, x: Text) returns (idf: real, n: seq<real>)
    requires PositiveAboveOne(log) && NamedAndDescribed(corpus, t, x)
    ensures idf > 0.0 && |n| == 4 && n[0] + n[1] < n[2] + n[3]
    ensures Contribution(log, corpus, t, 0) == idf * n[0] && Contribution(log, corpus, x, 0) == idf * n[1]
    ensures Contribution(log, corpus, t, 1) == idf * n[2] && Contribution(log, corpus, x, 1) == idf * n[3]
  {
    PairAverages(corpus, t);
    PairAverages(corpus, x);
    var i0, a := Factors(log, corpus, t, 0);
    var i1, b := Factors(log, corpus, x, 0);
    var i2, c := Factors(log, corpus, t, 1);
    var i3, d := Factors(log, corpus, x, 1);
    NamedValues();
    idf, n := i0, [a, b, c, d];
  }

  lemma PairScores(log: real -> real, corpus: seq<Doc>, t: Text, x: Text)
    requires PositiveAboveOne(log) && NamedAndDescribed(corpus, t, x)
    ensures Score(log, corpus, [t, x], 0) < Score(log, corpus, [t, x], 1)
  {
    var idf, n := PairFactors(log, corpus, t, x);
    TwoTerms(log, corpus, t, x, 0);
    TwoTerms(log, corpus, t, x, 1);
    Halves(idf, n[0], n[1], n[2], n[3]);
  }

  lemma PairIs(lex: Lexicon, named: SearchDocument, described: SearchDocument, t: Text, x: Text)
    requires !Meets(t, x) && !Meets(x, t)
    requires Bears(lex, named, [t], [], [x]) && Bears(lex, described, [], [t], [x])
    ensures NamedAndDescribed(Corpus(lex, [named, described]), t, x)
  {
    CorpusAt(lex, [named, described], 0);
    CorpusAt(lex, [named, described], 1);
    BearsCounts(lex, named, t, x, true);
    BearsCounts(lex, described, t, x, false);
  }

  lemma PairDiffers(lex: Lexicon, named: SearchDocument, described: SearchDocument, t: Text, x: Text)
    requires Bears(lex, named, [t], [], [x]) && Bears(lex, described, [], [t], [x])
    ensures DifferInPlace(lex, named, described, InName, InDescription, t)
  {
  }

  /**
   * Two documents that differ only in that a token stands in the name of the first and in the description of the
   * second: to a query with another term that both hold, the second one scores higher, whatever the logarithm.
   */
  lemma NameMayLose(lex: Lexicon, named: SearchDocument, described: SearchDocument, t: Text, x: Text)
    requires PositiveAboveOne(lex.log) && !Meets(t, x) && !Meets(x, t)
    requires Bears(lex, named, [t], [], [x]) && Bears(lex, described, [], [t], [x])
    ensures DifferInPlace(lex, named, described, InName, InDescription, t)
    ensures Score(lex.log, Corpus(lex, [named, described]), [t, x], 0)
      < Score(lex.log, Corpus(lex, [named, described]), [t, x], 1)
  {
    PairDiffers(lex, named, described, t, x);
    PairIs(lex, named, described, t, x);
    PairScores(lex.log, Corpus(lex, [named, described]), t, x);
  }
}
