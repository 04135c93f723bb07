/** The second glob engine: a pattern rewritten as a regular expression, and its agreement with the table. */
module RouteGlobs {
  import opened Wrappers
  import opened GlobPatterns
  import opened PercentCoding

  /** The characters that mean something in a regular expression, and so are escaped. */
  predicate Meta(c: char) {
    c == '.' || c == '*' || c == '+' || c == '?' || c == '^' || c == '$' || c == '{' || c == '}'
    || c == '(' || c == ')' || c == '|' || c == '[' || c == ']' || c == '\\'
  }

  function Quoted(text: string): string {
    if text == "" then "" else (if Meta(text[0]) then ['\\', text[0]] else [text[0]]) + Quoted(text[1..])
  }

  function QuotedAll(texts: seq<string>): seq<string> {
    if texts == [] then [] else [Quoted(texts[0])] + QuotedAll(texts[1..])
  }

  /** A text split at each `**`, from the left. */
  function SplitPairs(text: string): (r: seq<string>)
    ensures r != []
  {
    if text == "" then [""]
    else if text[0] == '*' && |text| > 1 && text[1] == '*' then [""] + SplitPairs(text[2..])
    else
      var rest := SplitPairs(text[1..]);
      [[text[0]] + rest[0]] + rest[1..]
  }

  function JoinWith(parts: seq<string>, separator: string): string {
    if parts == [] then "" else if |parts| == 1 then parts[0]
      else parts[0] + separator + JoinWith(parts[1..], separator)
  }

  /** One part between `**`s. */
  function PartSource(part: string): string {
    JoinWith(QuotedAll(Split(part, '*')), "[^/]*")
  }

  function PartSources(parts: seq<string>): seq<string> {
    if parts == [] then [] else [PartSource(parts[0])] + PartSources(parts[1..])
  }

  /** The body of the regular expression that `matchesRoute` builds. */
  function RouteSource(pattern: string): string {
    JoinWith(PartSources(SplitPairs(pattern)), ".*")
  }

  // Regular expressions, as far as such a body uses them.

  datatype Atom = Exactly(c: char) | SegmentRun | LineRun

  function Prepend(a: Atom, rest: Option<seq<Atom>>): Option<seq<Atom>> {
    if rest.None? then None else Some([a] + rest.value)
  }

  /**
   * An escaped character, a run of non-slashes, a run within a line, or a plain character; anything else
   * is refused.
   */
  function ReadRegex(source: string): Option<seq<Atom>> {
    if source == "" then Some([])
    else if source[0] == '\\' then
      if |source| > 1 && Meta(source[1]) then Prepend(Exactly(source[1]), ReadRegex(source[2..])) else None
    else if source[0] == '[' then
      if |source| >= 5 && source[..5] == "[^/]*" then Prepend(SegmentRun, ReadRegex(source[5..])) else None
    else if source[0] == '.' then
      if |source| >= 2 && source[1] == '*' then Prepend(LineRun, ReadRegex(source[2..])) else None
    else if Meta(source[0]) then None
    else Prepend(Exactly(source[0]), ReadRegex(source[1..]))
  }

  predicate LineEnd(c: char) {
    c == '\n' || c == '\r' || c == '\U{2028}' || c == '\U{2029}'
  }

  predicate OneLine(text: string) {
    forall c :: c in text ==> !LineEnd(c)
  }

  predicate Matched(a: Atom, piece: string) {
    match a
    case Exactly(c) => piece == [c]
    case SegmentRun => '/' !in piece
    case LineRun => OneLine(piece)
  }

  ghost predicate Runs(atoms: seq<Atom>, pieces: seq<string>, value: string) {
    |pieces| == |atoms| && Concat(pieces) == value && forall i :: 0 <= i < |atoms| ==> Matched(atoms[i], pieces[i])
  }

  /** `matchesRoute`: the whole route matches the expression. */
  ghost predicate MatchesRoute(pattern: string, route: string) {
    var read := ReadRegex(RouteSource(pattern));
    read.Some? && exists pieces :: Runs(read.value, pieces, route)
  }

  // The expression reads back as the pattern's tokens.

  function AtomOf(t: Token): Atom {
    match t
    case Literal(c) => Exactly(c)
    case AnyOne => SegmentRun
    case Star => SegmentRun
    case DoubleStar => LineRun
  }

  function AtomsOf(tokens: seq<Token>): seq<Atom> {
    if tokens == [] then [] else [AtomOf(tokens[0])] + AtomsOf(tokens[1..])
  }

  /** What one token is written as. */
  function Written(t: Token): string {
    match t
    case Literal(c) => Quoted([c])
    case AnyOne => "[^/]*"
    case Star => "[^/]*"
    case DoubleStar => ".*"
  }

  lemma JoinGrown(head: string, parts: seq<string>, separator: string)
    requires parts != []
    ensures JoinWith([head + parts[0]] + parts[1..], separator) == head + JoinWith(parts, separator)
  {
    var grown := [head + parts[0]] + parts[1..];
    assert grown[1..] == parts[1..];
    if |parts| > 1 {
      Regroup(head, parts[0], separator, JoinWith(parts[1..], separator));
    }
  }

  lemma Regroup(a: string, b: string, c: string, d: string)
    ensures (a + b) + c + d == a + (b + c + d)
  {
  }

  lemma JoinOpened(parts: seq<string>, separator: string)
    requires parts != []
    ensures JoinWith([""] + parts, separator) == separator + JoinWith(parts, separator)
  {
    assert ([""] + parts)[1..] == parts;
    assert "" + separator == separator;
  }

  lemma QuotedHead(c: char, text: string)
    ensures Quoted([c] + text) == Quoted([c]) + Quoted(text)
  {
    assert ([c] + text)[1..] == text && [c][1..] == "" && Quoted("") == "";
  }

  /** A part with one more character, or one more star, in front. */
  lemma PartGrown(c: char, part: string)
    ensures PartSource([c] + part) == Written(if c == '*' then Star else Literal(c)) + PartSource(part)
  {
    var pieces := Split(part, '*');
    assert ([c] + part)[1..] == part;
    if c == '*' {
      assert Split([c] + part, '*') == [""] + pieces;
      assert ([""] + pieces)[1..] == pieces;
      JoinOpened(QuotedAll(pieces), "[^/]*");
    } else {
      assert Split([c] + part, '*') == [[c] + pieces[0]] + pieces[1..];
      assert ([[c] + pieces[0]] + pieces[1..])[1..] == pieces[1..];
      QuotedHead(c, pieces[0]);
      assert QuotedAll(pieces)[1..] == QuotedAll(pieces[1..]);
      JoinGrown(Quoted([c]), QuotedAll(pieces), "[^/]*");
    }
  }

  /** The source of a pattern is its first token's, then the rest's. */
  lemma SourceStep(pattern: string)
    requires pattern != ""
    ensures RouteSource(pattern) == Written(Head(pattern, false)) + RouteSource(pattern[Width(pattern)..])
  {
    var parts := SplitPairs(pattern[Width(pattern)..]);
    if Width(pattern) == 2 {
      assert SplitPairs(pattern) == [""] + parts;
      assert ([""] + parts)[1..] == parts;
      JoinOpened(PartSources(parts), ".*");
    } else {
      assert SplitPairs(pattern) == [[pattern[0]] + parts[0]] + parts[1..];
      assert ([[pattern[0]] + parts[0]] + parts[1..])[1..] == parts[1..];
      PartGrown(pattern[0], parts[0]);
      assert PartSources(parts)[1..] == PartSources(parts[1..]);
      JoinGrown(Written(Head(pattern, false)), PartSources(parts), ".*");
    }
  }

  lemma ReadStep(t: Token, rest: string)
    requires !t.AnyOne?
    ensures ReadRegex(Written(t) + rest) == Prepend(AtomOf(t), ReadRegex(rest))
  {
    var source := Written(t) + rest;
    match t
    case Literal(c) =>
      assert [c][1..] == "" && Quoted([c]) == if Meta(c) then ['\\', c] else [c];
      assert source[|Written(t)|..] == rest;
    case Star => assert source[..5] == "[^/]*" && source[5..] == rest;
    case DoubleStar => assert source[2..] == rest;
  }

  /** The expression is well formed, and reads back as the pattern's tokens in order. */
  lemma {:induction false} SourceReadsBack(pattern: string)
    ensures ReadRegex(RouteSource(pattern)) == Some(AtomsOf(Tokens(pattern, false)))
    decreases |pattern|
  {
    if pattern == "" {
      assert Split("", '*') == [""] && QuotedAll([""]) == [""] && PartSources([""]) == [""];
    } else {
      var rest := pattern[Width(pattern)..];
      SourceReadsBack(rest);
      SourceStep(pattern);
      ReadStep(Head(pattern, false), RouteSource(rest));
      var tokens := Tokens(pattern, false);
      assert tokens[1..] == Tokens(rest, false);
    }
  }

  lemma {:induction false} AtomAt(tokens: seq<Token>, i: nat)
    requires i < |tokens|
    ensures |AtomsOf(tokens)| == |tokens| && AtomsOf(tokens)[i] == AtomOf(tokens[i])
  {
    if i > 0 {
      AtomAt(tokens[1..], i - 1);
    } else if |tokens| > 1 {
      AtomAt(tokens[1..], 0);
    }
  }

  /** Every run of characters that stands for a `**` stays on one line. */
  predicate PairsOnOneLine(tokens: seq<Token>, pieces: seq<string>)
    requires |pieces| == |tokens|
  {
    forall i :: 0 <= i < |tokens| && tokens[i].DoubleStar? ==> OneLine(pieces[i])
  }

  lemma {:induction false} NoneWild(pattern: string)
    ensures forall t :: t in Tokens(pattern, false) ==> !t.AnyOne?
    decreases |pattern|
  {
    if pattern != "" {
      NoneWild(pattern[Width(pattern)..]);
    }
  }

  lemma RunsAreSegments(tokens: seq<Token>, pieces: seq<string>, value: string)
    requires forall t :: t in tokens ==> !t.AnyOne?
    ensures Runs(AtomsOf(tokens), pieces, value) <==> Segments(tokens, pieces, value) && PairsOnOneLine(tokens, pieces)
  {
    assert |AtomsOf(tokens)| == |tokens| by { if tokens != [] { AtomAt(tokens, 0); } }
    if |pieces| == |tokens| {
      forall i | 0 <= i < |tokens|
        ensures Matched(AtomsOf(tokens)[i], pieces[i])
          <==> Fits(tokens[i], pieces[i]) && (tokens[i].DoubleStar? ==> OneLine(pieces[i]))
      {
        AtomAt(tokens, i);
        assert tokens[i] in tokens;
      }
    }
  }

  /** What the second engine accepts: the segmentations whose `**` runs stay on one line. */
  lemma RouteMatchesExactly(pattern: string, route: string)
    ensures MatchesRoute(pattern, route)
      <==> exists pieces ::
             Segments(Tokens(pattern, false), pieces, route) && PairsOnOneLine(Tokens(pattern, false), pieces)
  {
    var tokens := Tokens(pattern, false);
    SourceReadsBack(pattern);
    NoneWild(pattern);
    forall pieces: seq<string>
      ensures Runs(AtomsOf(tokens), pieces, route)
        <==> Segments(tokens, pieces, route) && PairsOnOneLine(tokens, pieces)
    {
      RunsAreSegments(tokens, pieces, route);
    }
  }

  lemma {:induction false} PieceWithin(pieces: seq<string>, i: nat, c: char)
    requires i < |pieces| && c in pieces[i]
    ensures c in Concat(pieces)
  {
    var init := pieces[..|pieces| - 1];
    if i < |init| {
      PieceWithin(init, i, c);
    }
  }

  lemma {:induction false} WildMatters(pattern: string)
    requires '?' !in pattern
    ensures Tokens(pattern, true) == Tokens(pattern, false)
    decreases |pattern|
  {
    if pattern != "" {
      WildMatters(pattern[Width(pattern)..]);
    }
  }

  /** On patterns without a question mark and values of one line, or patterns without `**`, the two engines agree. */
  lemma EnginesAgree(pattern: string, value: string)
    requires '?' !in pattern
    requires OneLine(value) || DoubleStar !in Tokens(pattern, true)
    ensures Accepts(Tokens(pattern, true), value) <==> MatchesRoute(pattern, value)
  {
    var tokens := Tokens(pattern, true);
    WildMatters(pattern);
    RouteMatchesExactly(pattern, value);
    forall pieces | Segments(tokens, pieces, value) ensures PairsOnOneLine(tokens, pieces) {
      forall i, c | 0 <= i < |tokens| && tokens[i].DoubleStar? && c in pieces[i] ensures !LineEnd(c) {
        PieceWithin(pieces, i, c);
      }
    }
  }

  // Where they part: a question mark is a wildcard to the table, a character to the expression.

  function Plain(t: Token): Token {
    if t.AnyOne? then Literal('?') else t
  }

  /** The least value that a token stands for. */
  function Least(t: Token): string {
    match t
    case Literal(c) => [c]
    case AnyOne => "a"
    case Star => ""
    case DoubleStar => ""
  }

  function LeastPieces(tokens: seq<Token>): seq<string> {
    seq(|tokens|, i requires 0 <= i < |tokens| => Least(tokens[i]))
  }

  lemma LeastAccepted(tokens: seq<Token>)
    ensures Accepts(tokens, Concat(LeastPieces(tokens)))
  {
    assert Segments(tokens, LeastPieces(tokens), Concat(LeastPieces(tokens)));
  }

  ghost predicate PlainSegments(tokens: seq<Token>, pieces: seq<string>, value: string) {
    |pieces| == |tokens| && Concat(pieces) == value && forall i :: 0 <= i < |tokens| ==>
      Fits(Plain(tokens[i]), pieces[i])
  }

  lemma PlainInit(tokens: seq<Token>, pieces: seq<string>)
    requires tokens != [] && PlainSegments(tokens, pieces, Concat(pieces))
    ensures var n := |tokens| - 1;
      PlainSegments(tokens[..n], pieces[..n], Concat(pieces[..n]))
      && Fits(Plain(tokens[n]), pieces[n]) && Concat(pieces) == Concat(pieces[..n]) + pieces[n]
      && Concat(LeastPieces(tokens)) == Concat(LeastPieces(tokens[..n])) + Least(tokens[n])
  {
    var n := |tokens| - 1;
    assert LeastPieces(tokens)[..n] == LeastPieces(tokens[..n]);
  }

  lemma {:induction false} NoShorter(tokens: seq<Token>, pieces: seq<string>)
    requires PlainSegments(tokens, pieces, Concat(pieces))
    ensures |Concat(pieces)| >= |Concat(LeastPieces(tokens))|
  {
    if tokens != [] {
      PlainInit(tokens, pieces);
      NoShorter(tokens[..|tokens| - 1], pieces[..|tokens| - 1]);
    }
  }

  lemma LastSplit(a: string, b: string, x: string, y: string)
    requires a + b == x + y && |b| == |y|
    ensures a == x && b == y
  {
    assert (a + b)[..|a|] == a && (a + b)[|a|..] == b;
    assert (x + y)[..|x|] == x && (x + y)[|x|..] == y;
  }

  /** The least value is no plain reading of a pattern with a wildcard character. */
  lemma {:induction false} LeastIsWild(tokens: seq<Token>, pieces: seq<string>)
    requires PlainSegments(tokens, pieces, Concat(LeastPieces(tokens)))
    ensures AnyOne !in tokens
  {
    if tokens != [] {
      var n := |tokens| - 1;
      PlainInit(tokens, pieces);
      NoShorter(tokens[..n], pieces[..n]);
      LastSplit(Concat(pieces[..n]), pieces[n], Concat(LeastPieces(tokens[..n])), Least(tokens[n]));
      LeastIsWild(tokens[..n], pieces[..n]);
      assert tokens == tokens[..n] + [tokens[n]];
    }
  }

  lemma {:induction false} PlainTokens(pattern: string)
    ensures |Tokens(pattern, false)| == |Tokens(pattern, true)|
    ensures forall i :: 0 <= i < |Tokens(pattern, true)| ==>
      Tokens(pattern, false)[i] == Plain(Tokens(pattern, true)[i])
    ensures AnyOne in Tokens(pattern, true) <==> '?' in pattern
    decreases |pattern|
  {
    if pattern != "" {
      var rest := pattern[Width(pattern)..];
      PlainTokens(rest);
      assert pattern == pattern[..Width(pattern)] + rest;
      assert Tokens(pattern, true)[1..] == Tokens(rest, true);
      assert Tokens(pattern, false)[1..] == Tokens(rest, false);
      assert Tokens(pattern, true) == [Head(pattern, true)] + Tokens(rest, true);
      assert '?' in pattern[..Width(pattern)] <==> pattern[0] == '?';
    }
  }

  /** A pattern with a question mark: the table accepts a value that the expression does not. */
  lemma QuestionMarkParts(pattern: string)
    requires '?' in pattern
    ensures Accepts(Tokens(pattern, true), Concat(LeastPieces(Tokens(pattern, true))))
    ensures !MatchesRoute(pattern, Concat(LeastPieces(Tokens(pattern, true))))
  {
    var tokens := Tokens(pattern, true);
    var value := Concat(LeastPieces(tokens));
    LeastAccepted(tokens);
    PlainTokens(pattern);
    RouteMatchesExactly(pattern, value);
    forall pieces | Segments(Tokens(pattern, false), pieces, value) ensures false {
      assert PlainSegments(tokens, pieces, value);
      LeastIsWild(tokens, pieces);
    }
  }

  // Where they part, too: the expression's catch-all stops at the end of a line.

  /** How often a slash stands right before `c`. */
  function Pairs(s: string, c: char): nat {
    if |s| < 2 then 0
    else Pairs(s[..|s| - 1], c) + if s[|s| - 2] == '/' && s[|s| - 1] == c then 1 else 0
  }

  /** A cut loses one pair at most. */
  lemma {:induction false} PairsAppend(a: string, b: string, c: char)
    ensures Pairs(a, c) + Pairs(b, c) <= Pairs(a + b, c) <= Pairs(a, c) + Pairs(b, c) + 1
  {
    if b == "" {
      assert a + b == a;
    } else {
      var rest := b[..|b| - 1];
      PairsAppend(a, rest, c);
      assert (a + b)[..|a + b| - 1] == a + rest;
      if rest == "" { assert a + rest == a; }
    }
  }

  lemma {:induction false} NoPairs(s: string, c: char)
    requires '/' !in s || c !in s
    ensures Pairs(s, c) == 0
  {
    if |s| >= 2 {
      assert s[|s| - 2] in s && s[|s| - 1] in s;
      NoPairs(s[..|s| - 1], c);
    }
  }

  /** A cut whose catch-all pieces stay on one line holds no more pairs than it has pieces. */
  lemma {:induction false} FewPairs(tokens: seq<Token>, pieces: seq<string>, c: char)
    requires LineEnd(c) && AnyOne !in tokens
    requires Segments(tokens, pieces, Concat(pieces)) && PairsOnOneLine(tokens, pieces)
    ensures Pairs(Concat(pieces), c) <= |pieces|
  {
    if pieces != [] {
      var n := |pieces| - 1;
      assert tokens == tokens[..n] + [tokens[n]] && Fits(tokens[n], pieces[n]);
      FewPairs(tokens[..n], pieces[..n], c);
      if !tokens[n].Literal? { NoPairs(pieces[n], c); }
      PairsAppend(Concat(pieces[..n]), pieces[n], c);
    }
  }

  lemma {:induction false} PiecePairs(pieces: seq<string>, i: nat, c: char)
    requires i < |pieces|
    ensures Pairs(Concat(pieces), c) >= Pairs(pieces[i], c)
  {
    var n := |pieces| - 1;
    PairsAppend(Concat(pieces[..n]), pieces[n], c);
    if i < n { PiecePairs(pieces[..n], i, c); }
  }

  /** `n` lines that begin with a slash. */
  function Lines(n: nat, c: char): string {
    if n == 0 then "" else Lines(n - 1, c) + ['/', c]
  }

  lemma {:induction false} LinesPair(n: nat, c: char)
    ensures Pairs(Lines(n, c), c) >= n
  {
    if n > 0 {
      LinesPair(n - 1, c);
      PairsAppend(Lines(n - 1, c), ['/', c], c);
      assert ['/', c][..1] == ['/'] && Pairs(['/'], c) == 0;
    }
  }

  /** The least value, but that the catch-all at `i` stands for more lines than there are tokens. */
  function ManyLines(tokens: seq<Token>, i: nat, c: char): string
    requires i < |tokens|
  {
    Concat(LeastPieces(tokens)[i := Lines(|tokens| + 1, c)])
  }

  /** A pattern with a `**` and no question mark: the table accepts a value that the expression does not. */
  lemma LineBreakParts(pattern: string, i: nat, c: char)
    requires '?' !in pattern && LineEnd(c)
    requires i < |Tokens(pattern, true)| && Tokens(pattern, true)[i].DoubleStar?
    ensures Accepts(Tokens(pattern, true), ManyLines(Tokens(pattern, true), i, c))
    ensures !MatchesRoute(pattern, ManyLines(Tokens(pattern, true), i, c))
  {
    var tokens := Tokens(pattern, true);
    var pieces, value := LeastPieces(tokens)[i := Lines(|tokens| + 1, c)], ManyLines(tokens, i, c);
    WildMatters(pattern);
    NoneWild(pattern);
    assert Segments(tokens, pieces, value);
    PiecePairs(pieces, i, c);
    LinesPair(|tokens| + 1, c);
    RouteMatchesExactly(pattern, value);
    forall cut | Segments(tokens, cut, value) ensures !PairsOnOneLine(tokens, cut) {
      if PairsOnOneLine(tokens, cut) { FewPairs(tokens, cut, c); }
    }
  }

  /** The engines agree on every value exactly when the pattern has neither a question mark nor a `**`. */
  lemma AgreeExactly(pattern: string)
    ensures (forall value :: Accepts(Tokens(pattern, true), value) <==> MatchesRoute(pattern, value)) <==>
      '?' !in pattern && DoubleStar !in Tokens(pattern, true)
  {
    if '?' in pattern {
      QuestionMarkParts(pattern);
    } else if DoubleStar in Tokens(pattern, true) {
      var i :| 0 <= i < |Tokens(pattern, true)| && Tokens(pattern, true)[i] == DoubleStar;
      LineBreakParts(pattern, i, '\n');
    } else {
      forall value: string ensures Accepts(Tokens(pattern, true), value) <==> MatchesRoute(pattern, value) {
        EnginesAgree(pattern, value);
      }
    }
  }
}
