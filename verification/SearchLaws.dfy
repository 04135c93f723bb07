/** Laws of the order of results: what a field, an occurrence, a shorter document and a rarer term are worth. */
module SearchLaws {
  import opened Wrappers
  import opened SearchCorpus
  import opened SearchRanking

  /** Where a token of a document stands. */
  datatype Place = InName | InDescription | InTags | InRoutes | InParameters

  function TextsAt(d: SearchDocument, place: Place): seq<Text> {
    match place
    case InName => [d.name]
    case InDescription => if d.description.Some? then [d.description.value] else []
    case InTags => d.tags
    case InRoutes => [d.route] + d.alternateRoutes
    case InParameters => d.parameters
  }

  function Tokens(lex: Lexicon, texts: seq<Text>): seq<Text> {
    if texts == [] then [] else Tokens(lex, texts[..|texts| - 1]) + lex.tokenize(texts[|texts| - 1])
  }

  function TokensAt(lex: Lexicon, d: SearchDocument, place: Place): seq<Text> {
    Tokens(lex, TextsAt(d, place))
  }

  /** A term meets itself, and from three characters on every token that starts with it. */
  predicate Meets(term: Text, token: Text) {
    token == term || (|term.chars| >= 3 && term.chars <= token.chars)
  }

  function Count(term: Text, tokens: seq<Text>): nat {
    if tokens == [] then 0
    else Count(term, tokens[..|tokens| - 1]) + if Meets(term, tokens[|tokens| - 1]) then 1 else 0
  }

  lemma {:induction false} CountJoined(term: Text, a: seq<Text>, b: seq<Text>)
    ensures Count(term, a + b) == Count(term, a) + Count(term, b)
  {
    if b == [] {
      assert a + b == a;
    } else {
      assert (a + b)[..|a + b| - 1] == a + b[..|b| - 1];
      CountJoined(term, a, b[..|b| - 1]);
    }
  }

  lemma CountTaken(term: Text, tokens: seq<Text>, k: nat)
    requires k < |tokens|
    ensures multiset(tokens) == multiset(tokens[..k] + tokens[k + 1..]) + multiset{tokens[k]}
    ensures Count(term, tokens) ==
      Count(term, tokens[..k] + tokens[k + 1..]) + if Meets(term, tokens[k]) then 1 else 0
  {
    var before, after := tokens[..k], tokens[k + 1..];
    assert tokens == before + [tokens[k]] + after;
    CountJoined(term, before, after);
    CountJoined(term, before, [tokens[k]]);
    CountJoined(term, before + [tokens[k]], after);
    assert Count(term, [tokens[k]]) == if Meets(term, tokens[k]) then 1 else 0;
  }

  lemma Cancelled(a: multiset<Text>, b: multiset<Text>, x: Text)
    requires a + multiset{x} == b + multiset{x}
    ensures a == b
  {
    assert a == (a + multiset{x}) - multiset{x};
    assert b == (b + multiset{x}) - multiset{x};
  }

  /** How often a term is met does not depend on the order of the tokens. */
  lemma {:induction false} CountPermuted(term: Text, a: seq<Text>, b: seq<Text>)
    requires multiset(a) == multiset(b)
    ensures Count(term, a) == Count(term, b)
  {
    if a == [] {
      assert |multiset(b)| == 0;
    } else {
      assert a[0] in multiset(b);
      var k :| 0 <= k < |b| && b[k] == a[0];
      var restA, restB := a[..0] + a[1..], b[..k] + b[k + 1..];
      CountTaken(term, a, 0);
      CountTaken(term, b, k);
      Cancelled(multiset(restA), multiset(restB), a[0]);
      CountPermuted(term, restA, restB);
    }
  }

  // Frequency and length, by field.

  lemma {:induction false} FrequencyJoined(term: Text, a: seq<Occurrence>, b: seq<Occurrence>)
    ensures TermFrequency(a + b, term) == TermFrequency(a, term) + TermFrequency(b, term)
    ensures TotalWeight(a + b) == TotalWeight(a) + TotalWeight(b)
  {
    if b == [] {
      assert a + b == a;
    } else {
      assert (a + b)[..|a + b| - 1] == a + b[..|b| - 1];
      FrequencyJoined(term, a, b[..|b| - 1]);
    }
  }

  /** A weight added up so many times. */
  function Times(w: real, n: nat): real {
    if n == 0 then 0.0 else Times(w, n - 1) + w
  }

  lemma {:induction false} TimesAdded(w: real, m: nat, n: nat)
    ensures Times(w, m + n) == Times(w, m) + Times(w, n)
  {
    if n > 0 { TimesAdded(w, m, n - 1); }
  }

  lemma {:induction false} TimesAre(n: nat)
    ensures Times(3.0, n) == 3.0 * n as real && Times(1.5, n) == 1.5 * n as real && Times(1.0, n) == n as real
  {
    if n > 0 { TimesAre(n - 1); }
  }

  lemma FrequencySnoc(term: Text, occ: seq<Occurrence>, token: Text, w: real)
    ensures TermFrequency(occ + [Occurrence(token, w)], term) == TermFrequency(occ, term) +
      if Meets(term, token) then w else 0.0
    ensures TotalWeight(occ + [Occurrence(token, w)]) == TotalWeight(occ) + w
  {
    assert (occ + [Occurrence(token, w)])[..|occ|] == occ;
  }

  lemma {:induction false} WeightedCounts(term: Text, tokens: seq<Text>, w: real)
    ensures TermFrequency(Weighted(tokens, w), term) == Times(w, Count(term, tokens))
    ensures TotalWeight(Weighted(tokens, w)) == Times(w, |tokens|)
  {
    if tokens != [] {
      var rest, last := tokens[..|tokens| - 1], tokens[|tokens| - 1];
      WeightedCounts(term, rest, w);
      FrequencySnoc(term, Weighted(rest, w), last, w);
    }
  }

  lemma {:induction false} ListCounts(lex: Lexicon, term: Text, texts: seq<Text>, w: real)
    ensures TermFrequency(ListOccurrences(lex, texts, w), term) == Times(w, Count(term, Tokens(lex, texts)))
    ensures TotalWeight(ListOccurrences(lex, texts, w)) == Times(w, |Tokens(lex, texts)|)
  {
    if texts != [] {
      var rest, last := texts[..|texts| - 1], lex.tokenize(texts[|texts| - 1]);
      ListCounts(lex, term, rest, w);
      WeightedCounts(term, last, w);
      FrequencyJoined(term, ListOccurrences(lex, rest, w), Weighted(last, w));
      CountJoined(term, Tokens(lex, rest), last);
      TimesAdded(w, Count(term, Tokens(lex, rest)), Count(term, last));
      TimesAdded(w, |Tokens(lex, rest)|, |last|);
    }
  }

  lemma OneText(lex: Lexicon, text: Text)
    ensures Tokens(lex, [text]) == lex.tokenize(text)
  {
    assert [text][..0] == [];
    assert Tokens(lex, []) == [];
    assert [] + lex.tokenize(text) == lex.tokenize(text);
  }

  lemma {:induction false} TokensJoined(lex: Lexicon, a: seq<Text>, b: seq<Text>)
    ensures Tokens(lex, a + b) == Tokens(lex, a) + Tokens(lex, b)
  {
    if b == [] {
      assert a + b == a;
    } else {
      assert (a + b)[..|a + b| - 1] == a + b[..|b| - 1];
      TokensJoined(lex, a, b[..|b| - 1]);
    }
  }

  function CountAt(lex: Lexicon, d: SearchDocument, place: Place, term: Text): nat {
    Count(term, TokensAt(lex, d, place))
  }

  function SizeAt(lex: Lexicon, d: SearchDocument, place: Place): nat {
    |TokensAt(lex, d, place)|
  }

  lemma PlainCounts(lex: Lexicon, term: Text, text: Text, w: real)
    ensures TermFrequency(TextOccurrences(lex, text, w), term) == Times(w, Count(term, Tokens(lex, [text])))
    ensures TotalWeight(TextOccurrences(lex, text, w)) == Times(w, |Tokens(lex, [text])|)
  {
    OneText(lex, text);
    WeightedCounts(term, lex.tokenize(text), w);
  }

  lemma RoutesCounts(lex: Lexicon, d: SearchDocument, term: Text)
    ensures var routes := TextOccurrences(lex, d.route, ROUTE_WEIGHT) +
        ListOccurrences(lex, d.alternateRoutes, ROUTE_WEIGHT);
      && TermFrequency(routes, term) == CountAt(lex, d, InRoutes, term) as real
      && TotalWeight(routes) == SizeAt(lex, d, InRoutes) as real
  {
    PlainCounts(lex, term, d.route, ROUTE_WEIGHT);
    ListCounts(lex, term, d.alternateRoutes, ROUTE_WEIGHT);
    FrequencyJoined(term, TextOccurrences(lex, d.route, ROUTE_WEIGHT),
      ListOccurrences(lex, d.alternateRoutes, ROUTE_WEIGHT));
    TokensJoined(lex, [d.route], d.alternateRoutes);
    CountJoined(term, Tokens(lex, [d.route]), Tokens(lex, d.alternateRoutes));
    TimesAre(Count(term, Tokens(lex, [d.route])));
    TimesAre(Count(term, Tokens(lex, d.alternateRoutes)));
    TimesAre(|Tokens(lex, [d.route])|);
    TimesAre(|Tokens(lex, d.alternateRoutes)|);
  }

  lemma NameCounts(lex: Lexicon, d: SearchDocument, term: Text)
    ensures TermFrequency(TextOccurrences(lex, d.name, NAME_WEIGHT), term) ==
      3.0 * CountAt(lex, d, InName, term) as real
    ensures TotalWeight(TextOccurrences(lex, d.name, NAME_WEIGHT)) == 3.0 * SizeAt(lex, d, InName) as real
  {
    PlainCounts(lex, term, d.name, NAME_WEIGHT);
    TimesAre(CountAt(lex, d, InName, term));
    TimesAre(SizeAt(lex, d, InName));
  }

  function Described(lex: Lexicon, d: SearchDocument): seq<Occurrence> {
    if d.description.Some? then TextOccurrences(lex, d.description.value, DESCRIPTION_WEIGHT) else []
  }

  lemma DescriptionCounts(lex: Lexicon, d: SearchDocument, term: Text)
    ensures TermFrequency(Described(lex, d), term) == 1.5 * CountAt(lex, d, InDescription, term) as real
    ensures TotalWeight(Described(lex, d)) == 1.5 * SizeAt(lex, d, InDescription) as real
  {
    if d.description.Some? {
      PlainCounts(lex, term, d.description.value, DESCRIPTION_WEIGHT);
      TimesAre(CountAt(lex, d, InDescription, term));
      TimesAre(SizeAt(lex, d, InDescription));
    }
  }

  lemma ListedCounts(lex: Lexicon, d: SearchDocument, term: Text)
    ensures TermFrequency(ListOccurrences(lex, d.tags, TAG_WEIGHT), term) == CountAt(lex, d, InTags, term) as real
    ensures TotalWeight(ListOccurrences(lex, d.tags, TAG_WEIGHT)) == SizeAt(lex, d, InTags) as real
    ensures TermFrequency(ListOccurrences(lex, d.parameters, PARAMETER_WEIGHT), term) ==
      CountAt(lex, d, InParameters, term) as real
    ensures TotalWeight(ListOccurrences(lex, d.parameters, PARAMETER_WEIGHT)) == SizeAt(lex, d, InParameters) as real
  {
    ListCounts(lex, term, d.tags, TAG_WEIGHT);
    ListCounts(lex, term, d.parameters, PARAMETER_WEIGHT);
    TimesAre(CountAt(lex, d, InTags, term));
    TimesAre(SizeAt(lex, d, InTags));
    TimesAre(CountAt(lex, d, InParameters, term));
    TimesAre(SizeAt(lex, d, InParameters));
  }

  lemma OccurrencesSplit(lex: Lexicon, d: SearchDocument, term: Text)
    ensures var name, described, tags, routes, parameters := TextOccurrences(lex, d.name, NAME_WEIGHT),
        Described(lex, d), ListOccurrences(lex, d.tags, TAG_WEIGHT),
        TextOccurrences(lex, d.route, ROUTE_WEIGHT) + ListOccurrences(lex, d.alternateRoutes, ROUTE_WEIGHT),
        ListOccurrences(lex, d.parameters, PARAMETER_WEIGHT);
      && TermFrequency(Occurrences(lex, d), term) == TermFrequency(name, term) + TermFrequency(described, term)
         + TermFrequency(tags, term) + TermFrequency(routes, term) + TermFrequency(parameters, term)
      && TotalWeight(Occurrences(lex, d)) == TotalWeight(name) + TotalWeight(described) + TotalWeight(tags)
         + TotalWeight(routes) + TotalWeight(parameters)
  {
    var name, described, tags := TextOccurrences(lex, d.name, NAME_WEIGHT), Described(lex, d),
      ListOccurrences(lex, d.tags, TAG_WEIGHT);
    var route, others := TextOccurrences(lex, d.route, ROUTE_WEIGHT),
      ListOccurrences(lex, d.alternateRoutes, ROUTE_WEIGHT);
    var parameters := ListOccurrences(lex, d.parameters, PARAMETER_WEIGHT);
    FrequencyJoined(term, name, described);
    FrequencyJoined(term, name + described, tags);
    FrequencyJoined(term, name + described + tags, route);
    FrequencyJoined(term, name + described + tags + route, others);
    FrequencyJoined(term, name + described + tags + route + others, parameters);
    FrequencyJoined(term, route, others);
  }

  /** A name's token counts three times, a description's one and a half times, and any other once. */
  lemma FrequencyIs(lex: Lexicon, d: SearchDocument, term: Text)
    ensures TermFrequency(Occurrences(lex, d), term) ==
      3.0 * CountAt(lex, d, InName, term) as real + 1.5 * CountAt(lex, d, InDescription, term) as real
      + (CountAt(lex, d, InTags, term) + CountAt(lex, d, InRoutes, term) + CountAt(lex, d, InParameters, term)) as real
    ensures TotalWeight(Occurrences(lex, d)) ==
      3.0 * SizeAt(lex, d, InName) as real + 1.5 * SizeAt(lex, d, InDescription) as real
      + (SizeAt(lex, d, InTags) + SizeAt(lex, d, InRoutes) + SizeAt(lex, d, InParameters)) as real
  {
    OccurrencesSplit(lex, d, term);
    NameCounts(lex, d, term);
    DescriptionCounts(lex, d, term);
    ListedCounts(lex, d, term);
    RoutesCounts(lex, d, term);
  }
}
