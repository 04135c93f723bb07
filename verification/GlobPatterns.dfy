/** Glob patterns: their tokens, the strings they accept, and the table that decides it. */
module GlobPatterns {
  datatype Token = Literal(c: char) | AnyOne | Star | DoubleStar

  /** How many characters the first token of a pattern takes: two stars before one. */
  function Width(pattern: string): nat
    requires pattern != ""
  {
    if pattern[0] == '*' && |pattern| > 1 && pattern[1] == '*' then 2 else 1
  }

  /** The first token; `wild` says whether a question mark is a wildcard. */
  function Head(pattern: string, wild: bool): Token
    requires pattern != ""
  {
    if pattern[0] == '*' then if Width(pattern) == 2 then DoubleStar else Star
    else if wild && pattern[0] == '?' then AnyOne
    else Literal(pattern[0])
  }

  function Tokens(pattern: string, wild: bool): seq<Token> {
    if pattern == "" then [] else [Head(pattern, wild)] + Tokens(pattern[Width(pattern)..], wild)
  }

  /** What one token can stand for. */
  predicate Fits(t: Token, piece: string) {
    match t
    case Literal(c) => piece == [c]
    case AnyOne => |piece| == 1 && piece[0] != '/'
    case Star => '/' !in piece
    case DoubleStar => true
  }

  function Concat(pieces: seq<string>): string {
    if pieces == [] then "" else Concat(pieces[..|pieces| - 1]) + pieces[|pieces| - 1]
  }

  /** The value cut into one piece for each token. */
  ghost predicate Segments(tokens: seq<Token>, pieces: seq<string>, value: string) {
    |pieces| == |tokens| && Concat(pieces) == value && forall i :: 0 <= i < |tokens| ==> Fits(tokens[i], pieces[i])
  }

  /** The language of a pattern: the values that can be so cut. */
  ghost predicate Accepts(tokens: seq<Token>, value: string) {
    exists pieces :: Segments(tokens, pieces, value)
  }

  /** One row of the table: which prefixes of the value the tokens so far accept. */
  ghost predicate Row(tokens: seq<Token>, value: string, row: seq<bool>) {
    |row| == |value| + 1 && forall i {:trigger row[i]} :: 0 <= i <= |value| ==>
      (row[i] <==> Accepts(tokens, value[..i]))
  }

  lemma FirstRow(value: string, row: seq<bool>)
    requires |row| == |value| + 1 && row[0] && forall i :: 1 <= i <= |value| ==> !row[i]
    ensures Row([], value, row)
  {
    forall i | 0 <= i <= |value| ensures row[i] <==> Accepts([], value[..i]) {
      if i == 0 { assert Segments([], [], value[..0]); }
    }
  }

  /** A last token more: some prefix is accepted before it, and the rest fits it. */
  lemma AcceptsSnoc(tokens: seq<Token>, t: Token, value: string)
    ensures Accepts(tokens + [t], value) <==>
      exists k :: 0 <= k <= |value| && Accepts(tokens, value[..k]) && Fits(t, value[k..])
  {
    if pieces :| Segments(tokens + [t], pieces, value) {
      var init, last := pieces[..|pieces| - 1], pieces[|pieces| - 1];
      var k := |Concat(init)|;
      assert value == Concat(init) + last;
      assert value[..k] == Concat(init) && value[k..] == last;
      assert Fits((tokens + [t])[|tokens|], pieces[|tokens|]);
      forall i | 0 <= i < |tokens| ensures Fits(tokens[i], init[i]) { assert Fits((tokens + [t])[i], pieces[i]); }
      assert Segments(tokens, init, value[..k]);
    }
    if k :| 0 <= k <= |value| && Accepts(tokens, value[..k]) && Fits(t, value[k..]) {
      var init :| Segments(tokens, init, value[..k]);
      var pieces := init + [value[k..]];
      assert pieces[..|init|] == init;
      assert value[..k] + value[k..] == value;
      assert Segments(tokens + [t], pieces, value);
    }
  }

  /** A single-character token moves the row by one. */
  lemma StepOne(tokens: seq<Token>, t: Token, value: string, i: nat)
    requires (t.Literal? || t.AnyOne?) && i <= |value|
    ensures Accepts(tokens + [t], value[..i])
      <==> i > 0 && Accepts(tokens, value[..i - 1]) && (if t.Literal? then value[i - 1] == t.c else value[i - 1] != '/')
  {
    var v := value[..i];
    AcceptsSnoc(tokens, t, v);
    if i > 0 {
      assert v[..i - 1] == value[..i - 1] && v[i - 1..] == [value[i - 1]];
    }
    forall k | 0 <= k <= i && Fits(t, v[k..]) ensures k == i - 1 { assert |v[k..]| == i - k; }
  }

  lemma LastOff(value: string, i: nat, k: nat)
    requires k < i <= |value|
    ensures value[..i][..k] == value[..i - 1][..k]
    ensures value[..i][k..] == value[..i - 1][k..] + [value[i - 1]]
  {
  }

  lemma FitsLonger(t: Token, piece: string, c: char)
    requires t.Star? || t.DoubleStar?
    ensures Fits(t, piece + [c]) <==> Fits(t, piece) && (t.DoubleStar? || c != '/')
  {
    assert (piece + [c])[|piece|] == c;
  }

  /** A star takes nothing, or one character more than it took before. */
  lemma StepStar(tokens: seq<Token>, t: Token, value: string, i: nat)
    requires (t.Star? || t.DoubleStar?) && i <= |value|
    ensures Accepts(tokens + [t], value[..i])
      <==> Accepts(tokens, value[..i])
           || (i > 0 && (t.DoubleStar? || value[i - 1] != '/') && Accepts(tokens + [t], value[..i - 1]))
  {
    var v := value[..i];
    AcceptsSnoc(tokens, t, v);
    assert v[..i] == v && v[i..] == "";
    if i > 0 {
      var u := value[..i - 1];
      AcceptsSnoc(tokens, t, u);
      if k :| 0 <= k < i && Accepts(tokens, v[..k]) && Fits(t, v[k..]) {
        LastOff(value, i, k);
        FitsLonger(t, u[k..], value[i - 1]);
      }
      if k :| 0 <= k <= i - 1 && Accepts(tokens, u[..k]) && Fits(t, u[k..]) && (t.DoubleStar? || value[i - 1] != '/') {
        LastOff(value, i, k);
        FitsLonger(t, u[k..], value[i - 1]);
      }
    }
  }

  /** A row for a star token. */
  method StarRow(ghost tokens: seq<Token>, value: string, previous: array<bool>, recursive: bool)
    returns (next: array<bool>)
    requires previous.Length == |value| + 1 && Row(tokens, value, previous[..])
    ensures fresh(next) && next.Length == |value| + 1
    ensures Row(tokens + [if recursive then DoubleStar else Star], value, next[..])
  {
    ghost var t := if recursive then DoubleStar else Star;
    next := new bool[|value| + 1](i => false);
    next[0] := previous[0];
    StepStar(tokens, t, value, 0);
    assert previous[..][0] == previous[0];
    for i := 1 to |value| + 1
      invariant forall j :: 0 <= j < i ==> (next[j] <==> Accepts(tokens + [t], value[..j]))
    {
      StepStar(tokens, t, value, i);
      assert previous[..][i] == previous[i];
      next[i] := previous[i] || ((recursive || value[i - 1] != '/') && next[i - 1]);
    }
  }

  /** A row for a token of one character. */
  method OneRow(ghost tokens: seq<Token>, value: string, previous: array<bool>, t: Token) returns (next: array<bool>)
    requires previous.Length == |value| + 1 && Row(tokens, value, previous[..]) && (t.Literal? || t.AnyOne?)
    ensures fresh(next) && next.Length == |value| + 1
    ensures Row(tokens + [t], value, next[..])
  {
    next := new bool[|value| + 1](i => false);
    StepOne(tokens, t, value, 0);
    for i := 1 to |value| + 1
      invariant !next[0]
      invariant forall j :: 0 <= j < i ==> (next[j] <==> Accepts(tokens + [t], value[..j]))
    {
      StepOne(tokens, t, value, i);
      assert previous[..][i - 1] == previous[i - 1];
      next[i] := previous[i - 1] && (if t.AnyOne? then value[i - 1] != '/' else t.c == value[i - 1]);
    }
  }

  /** The turn of the loop that reads the token at the head of `rest`. */
  method NextRow(ghost done: seq<Token>, rest: string, value: string, previous: array<bool>)
    returns (next: array<bool>, recursive: bool)
    requires rest != "" && previous.Length == |value| + 1 && Row(done, value, previous[..])
    ensures recursive <==> Width(rest) == 2
    ensures fresh(next) && next.Length == |value| + 1 && Row(done + [Head(rest, true)], value, next[..])
  {
    recursive := false;
    if rest[0] == '*' {
      recursive := |rest| > 1 && rest[1] == '*';
      next := StarRow(done, value, previous, recursive);
    } else {
      next := OneRow(done, value, previous, if rest[0] == '?' then AnyOne else Literal(rest[0]));
    }
  }

  lemma TakeToken(done: seq<Token>, rest: string, wild: bool)
    requires rest != ""
    ensures done + [Head(rest, wild)] + Tokens(rest[Width(rest)..], wild) == done + Tokens(rest, wild)
  {
  }

  /** `globMatches`: the table accepts exactly the values that the pattern's tokens can be cut from. */
  method GlobMatches(pattern: string, value: string) returns (matches: bool)
    ensures matches <==> Accepts(Tokens(pattern, true), value)
  {
    var previous := new bool[|value| + 1](i => false);
    previous[0] := true;
    FirstRow(value, previous[..]);
    ghost var done: seq<Token> := [];
    ghost var goal := Tokens(pattern, true);
    var p := 0;
    assert pattern[0..] == pattern && [] + goal == goal;
    while p < |pattern|
      invariant 0 <= p <= |pattern| && previous.Length == |value| + 1
      invariant done + Tokens(pattern[p..], true) == goal
      invariant Row(done, value, previous[..])
    {
      var rest := pattern[p..];
      TakeToken(done, rest, true);
      var recursive;
      previous, recursive := NextRow(done, rest, value, previous);
      done := done + [Head(rest, true)];
      if recursive {
        p := p + 1;
      }
      p := p + 1;
      assert rest[Width(rest)..] == pattern[p..];
    }
    assert done + [] == done;
    assert value[..|value|] == value;
    assert previous[..][|value|] == previous[|value|];
    matches := previous[|value|];
  }
}
