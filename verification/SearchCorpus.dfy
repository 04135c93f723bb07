/**
 * The plain reading of a search: every document scored by looking at all its tokens. Floating-point
 * numbers are reals; tokenising, folding and the logarithm are parameters.
 */
module SearchCorpus {
  import opened Wrappers

  datatype SearchDocument = SearchDocument(
    name: Text, description: Option<Text>, tags: seq<Text>, route: Text, alternateRoutes: seq<Text>,
    parameters: seq<Text>)

  datatype Lexicon = Lexicon(tokenize: Text -> seq<Text>, fold: Text -> Text, log: real -> real)

  /** All that is asked of the logarithm. */
  ghost predicate PositiveAboveOne(log: real -> real) {
    forall x: real :: x > 1.0 ==> log(x) > 0.0
  }

  const NAME_WEIGHT := 3.0
  const DESCRIPTION_WEIGHT := 1.5
  const TAG_WEIGHT := 1.0
  const ROUTE_WEIGHT := 1.0
  const PARAMETER_WEIGHT := 1.0
  const PREFIX_MINIMUM_LENGTH := 3
  const K1 := 1.2
  const B := 0.75

  datatype Occurrence = Occurrence(token: Text, weight: real)

  function Weighted(tokens: seq<Text>, weight: real): seq<Occurrence> {
    if tokens == [] then [] else Weighted(tokens[..|tokens| - 1], weight) + [Occurrence(tokens[|tokens| - 1], weight)]
  }

  function TextOccurrences(lex: Lexicon, text: Text, weight: real): seq<Occurrence> {
    Weighted(lex.tokenize(text), weight)
  }

  function ListOccurrences(lex: Lexicon, texts: seq<Text>, weight: real): seq<Occurrence> {
    if texts == [] then []
    else ListOccurrences(lex, texts[..|texts| - 1], weight) + TextOccurrences(lex, texts[|texts| - 1], weight)
  }

  /** Every weighted token of a document, in the order the index reads them. */
  function Occurrences(lex: Lexicon, d: SearchDocument): seq<Occurrence> {
    TextOccurrences(lex, d.name, NAME_WEIGHT)
    + (if d.description.Some? then TextOccurrences(lex, d.description.value, DESCRIPTION_WEIGHT) else [])
    + ListOccurrences(lex, d.tags, TAG_WEIGHT)
    + TextOccurrences(lex, d.route, ROUTE_WEIGHT)
    + ListOccurrences(lex, d.alternateRoutes, ROUTE_WEIGHT)
    + ListOccurrences(lex, d.parameters, PARAMETER_WEIGHT)
  }

  function Folded(lex: Lexicon, tags: seq<Text>): set<Text> {
    set t | t in tags :: lex.fold(t)
  }

  /** What scoring reads of a document. */
  datatype Doc = Doc(name: Text, occurrences: seq<Occurrence>, tags: set<Text>)

  function Read(lex: Lexicon, d: SearchDocument): Doc {
    Doc(d.name, Occurrences(lex, d), Folded(lex, d.tags))
  }

  function Corpus(lex: Lexicon, documents: seq<SearchDocument>): (corpus: seq<Doc>)
    ensures |corpus| == |documents|
  {
    if documents == [] then []
    else Corpus(lex, documents[..|documents| - 1]) + [Read(lex, documents[|documents| - 1])]
  }

  /** A short term matches itself, a longer one every token it begins. */
  predicate Matches(term: Text, token: Text) {
    if |term.chars| < PREFIX_MINIMUM_LENGTH then token == term else term.chars <= token.chars
  }

  function TermFrequency(occ: seq<Occurrence>, term: Text): real {
    if occ == [] then 0.0
    else
      var last := occ[|occ| - 1];
      TermFrequency(occ[..|occ| - 1], term) + if Matches(term, last.token) then last.weight else 0.0
  }

  function TotalWeight(occ: seq<Occurrence>): real {
    if occ == [] then 0.0 else TotalWeight(occ[..|occ| - 1]) + occ[|occ| - 1].weight
  }

  function LengthSum(corpus: seq<Doc>): real {
    if corpus == [] then 0.0 else LengthSum(corpus[..|corpus| - 1]) + TotalWeight(corpus[|corpus| - 1].occurrences)
  }

  function AverageLength(corpus: seq<Doc>): real {
    if corpus == [] then 0.0 else LengthSum(corpus) / |corpus| as real
  }

  /** How many documents a term occurs in; tags play no part. */
  function DocumentFrequency(corpus: seq<Doc>, term: Text): (n: nat)
    ensures n <= |corpus|
  {
    if corpus == [] then 0
    else DocumentFrequency(corpus[..|corpus| - 1], term)
         + if TermFrequency(corpus[|corpus| - 1].occurrences, term) > 0.0 then 1 else 0
  }

  function Idf(log: real -> real, n: nat, df: nat): real
    requires df <= n
  {
    log(1.0 + ((n - df) as real + 0.5) / (df as real + 0.5))
  }

  /** The length-normalised frequency; the guard only avoids dividing by zero where no term occurs. */
  function Normalized(tf: real, length: real, average: real): real {
    var relative := if average == 0.0 then 0.0 else B * length / average;
    var below := tf + K1 * (1.0 - B + relative);
    if below == 0.0 then 0.0 else tf * (K1 + 1.0) / below
  }

  function Contribution(log: real -> real, corpus: seq<Doc>, term: Text, d: nat): real
    requires d < |corpus|
  {
    var tf := TermFrequency(corpus[d].occurrences, term);
    if tf > 0.0 then
      Idf(log, |corpus|, DocumentFrequency(corpus, term))
      * Normalized(tf, TotalWeight(corpus[d].occurrences), AverageLength(corpus))
    else 0.0
  }

  function Score(log: real -> real, corpus: seq<Doc>, terms: seq<Text>, d: nat): real
    requires d < |corpus|
  {
    if terms == [] then 0.0
    else Score(log, corpus, terms[..|terms| - 1], d) + Contribution(log, corpus, terms[|terms| - 1], d)
  }

  ghost predicate PositiveWeights(occ: seq<Occurrence>) {
    forall o :: o in occ ==> o.weight > 0.0
  }

  lemma {:induction false} WeightedPositive(tokens: seq<Text>, weight: real)
    requires weight > 0.0
    ensures PositiveWeights(Weighted(tokens, weight))
  {
    if tokens != [] { WeightedPositive(tokens[..|tokens| - 1], weight); }
  }

  lemma {:induction false} ListPositive(lex: Lexicon, texts: seq<Text>, weight: real)
    requires weight > 0.0
    ensures PositiveWeights(ListOccurrences(lex, texts, weight))
  {
    if texts != [] {
      ListPositive(lex, texts[..|texts| - 1], weight);
      WeightedPositive(lex.tokenize(texts[|texts| - 1]), weight);
    }
  }

  lemma OccurrencesPositive(lex: Lexicon, d: SearchDocument)
    ensures PositiveWeights(Occurrences(lex, d))
  {
    WeightedPositive(lex.tokenize(d.name), NAME_WEIGHT);
    if d.description.Some? { WeightedPositive(lex.tokenize(d.description.value), DESCRIPTION_WEIGHT); }
    ListPositive(lex, d.tags, TAG_WEIGHT);
    WeightedPositive(lex.tokenize(d.route), ROUTE_WEIGHT);
    ListPositive(lex, d.alternateRoutes, ROUTE_WEIGHT);
    ListPositive(lex, d.parameters, PARAMETER_WEIGHT);
  }

  ghost predicate PositiveCorpus(corpus: seq<Doc>) {
    forall d :: 0 <= d < |corpus| ==> PositiveWeights(corpus[d].occurrences)
  }

  lemma {:induction false} CorpusPositive(lex: Lexicon, documents: seq<SearchDocument>)
    ensures PositiveCorpus(Corpus(lex, documents))
  {
    if documents != [] {
      CorpusPositive(lex, documents[..|documents| - 1]);
      OccurrencesPositive(lex, documents[|documents| - 1]);
    }
  }

  lemma {:induction false} CorpusAt(lex: Lexicon, documents: seq<SearchDocument>, d: nat)
    requires d < |documents|
    ensures Corpus(lex, documents)[d] == Read(lex, documents[d])
  {
    if d < |documents| - 1 { CorpusAt(lex, documents[..|documents| - 1], d); }
  }

  lemma {:induction false} FrequencyBounds(occ: seq<Occurrence>, term: Text)
    requires PositiveWeights(occ)
    ensures 0.0 <= TermFrequency(occ, term) <= TotalWeight(occ)
  {
    if occ != [] { FrequencyBounds(occ[..|occ| - 1], term); }
  }

  lemma {:induction false} LengthSumAtLeast(corpus: seq<Doc>, d: nat)
    requires PositiveCorpus(corpus) && d < |corpus|
    ensures TotalWeight(corpus[d].occurrences) <= LengthSum(corpus)
  {
    var rest := corpus[..|corpus| - 1];
    FrequencyBounds(corpus[|corpus| - 1].occurrences, Text(""));
    LengthSumNonNegative(rest);
    if d < |rest| { LengthSumAtLeast(rest, d); }
  }

  lemma {:induction false} LengthSumNonNegative(corpus: seq<Doc>)
    requires PositiveCorpus(corpus)
    ensures LengthSum(corpus) >= 0.0
  {
    if corpus != [] {
      LengthSumNonNegative(corpus[..|corpus| - 1]);
      FrequencyBounds(corpus[|corpus| - 1].occurrences, Text(""));
    }
  }

  lemma AverageLengthPositive(corpus: seq<Doc>, d: nat)
    requires PositiveCorpus(corpus) && d < |corpus| && TotalWeight(corpus[d].occurrences) > 0.0
    ensures AverageLength(corpus) > 0.0
  {
    LengthSumAtLeast(corpus, d);
  }

  lemma NormalizedPositive(tf: real, length: real, average: real)
    requires tf > 0.0 && length >= 0.0 && average > 0.0
    ensures Normalized(tf, length, average) > 0.0
    ensures tf + K1 * (1.0 - B + B * length / average) > 0.0
  {
    var share := B * length / average;
    assert share >= 0.0;
    var below := tf + K1 * (1.0 - B + share);
    assert below > 0.0;
    QuotientPositive(tf * (K1 + 1.0), below);
  }

  lemma QuotientPositive(x: real, y: real)
    requires x > 0.0 && y > 0.0
    ensures x / y > 0.0
  {
  }

  lemma IdfPositive(log: real -> real, n: nat, df: nat)
    requires PositiveAboveOne(log) && df <= n
    ensures Idf(log, n, df) > 0.0
  {
    QuotientPositive((n - df) as real + 0.5, df as real + 0.5);
  }

  /** A document gains from a term exactly when the term occurs in it. */
  lemma ContributionSign(log: real -> real, corpus: seq<Doc>, term: Text, d: nat)
    requires PositiveAboveOne(log) && PositiveCorpus(corpus) && d < |corpus|
    ensures Contribution(log, corpus, term, d) >= 0.0
    ensures Contribution(log, corpus, term, d) > 0.0 <==> TermFrequency(corpus[d].occurrences, term) > 0.0
  {
    var occ := corpus[d].occurrences;
    FrequencyBounds(occ, term);
    if TermFrequency(occ, term) > 0.0 {
      AverageLengthPositive(corpus, d);
      NormalizedPositive(TermFrequency(occ, term), TotalWeight(occ), AverageLength(corpus));
      IdfPositive(log, |corpus|, DocumentFrequency(corpus, term));
    }
  }
}
