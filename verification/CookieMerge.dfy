/** The caller's own cookies and the composed ones in one header. */
module CookieMerge {
  import opened Wrappers
  import opened PercentCoding

  /** White space as `trim` takes it off; a space is white, and neither delimiter is. */
  ghost predicate WhiteSpace(white: char -> bool) {
    white(' ') && !white('=') && !white(';')
  }

  function TrimStart(white: char -> bool, s: string): string {
    if s != "" && white(s[0]) then TrimStart(white, s[1..]) else s
  }

  function TrimEnd(white: char -> bool, s: string): string {
    if s != "" && white(s[|s| - 1]) then TrimEnd(white, s[..|s| - 1]) else s
  }

  function Trim(white: char -> bool, s: string): string {
    TrimEnd(white, TrimStart(white, s))
  }

  /** The name of one piece of a header; none when the piece is blank. */
  function NameOf(white: char -> bool, piece: string): seq<string> {
    var pair := Trim(white, piece);
    if pair == "" then [] else [Trim(white, Cut(pair, '=').0)]
  }

  function NamesOf(white: char -> bool, pieces: seq<string>): seq<string> {
    if pieces == [] then [] else NameOf(white, pieces[0]) + NamesOf(white, pieces[1..])
  }

  /** `cookieNames`. */
  function CookieNames(white: char -> bool, header: string): seq<string> {
    NamesOf(white, Split(header, ';'))
  }

  lemma GrowFirst(x: char, first: seq<string>, rest: seq<string>)
    requires first != []
    ensures [[x] + (first + rest)[0]] + (first + rest)[1..] == ([[x] + first[0]] + first[1..]) + rest
  {
  }

  lemma {:induction false} SplitAround(a: string, b: string, c: char)
    ensures Split(a + [c] + b, c) == Split(a, c) + Split(b, c)
  {
    var s := a + [c] + b;
    if a == "" {
      assert s[1..] == b;
    } else {
      assert s[0] == a[0] && s[1..] == a[1..] + [c] + b;
      SplitAround(a[1..], b, c);
      GrowFirst(a[0], Split(a[1..], c), Split(b, c));
      Regroup([""], Split(a[1..], c), Split(b, c));
    }
  }

  lemma {:induction false} NamesAppend(white: char -> bool, a: seq<string>, b: seq<string>)
    ensures NamesOf(white, a + b) == NamesOf(white, a) + NamesOf(white, b)
  {
    if a == [] {
      assert a + b == b;
    } else {
      NamesAppend(white, a[1..], b);
      assert (a + b)[0] == a[0] && (a + b)[1..] == a[1..] + b;
      Regroup(NameOf(white, a[0]), NamesOf(white, a[1..]), NamesOf(white, b));
    }
  }

  /** A space in front of a header changes no name. */
  lemma SpaceBefore(white: char -> bool, header: string)
    requires WhiteSpace(white)
    ensures CookieNames(white, " " + header) == CookieNames(white, header)
  {
    var pieces := Split(header, ';');
    var spaced := [[' '] + pieces[0]] + pieces[1..];
    assert (" " + header)[0] == ' ' && (" " + header)[1..] == header;
    assert Split(" " + header, ';') == spaced;
    assert ([' '] + pieces[0])[1..] == pieces[0];
    assert spaced[1..] == pieces[1..];
  }

  /** The joined header names what both headers name, the carried first. */
  lemma JoinedNames(white: char -> bool, carried: string, composed: string)
    requires WhiteSpace(white)
    ensures CookieNames(white, carried + "; " + composed) == CookieNames(white, carried) + CookieNames(white, composed)
  {
    assert carried + "; " + composed == carried + [';'] + (" " + composed);
    SplitAround(carried, " " + composed, ';');
    NamesAppend(white, Split(carried, ';'), Split(" " + composed, ';'));
    SpaceBefore(white, composed);
  }

  /**
   * `mergeCookieHeader`: refused exactly when the two share a name, and then for the first composed name
   * that is shared.
   */
  method MergeCookieHeader(white: char -> bool, carried: Option<string>, composed: Option<string>)
    returns (r: Result<Option<string>, string>)
    requires WhiteSpace(white)
    ensures composed == None ==> r == Ok(carried)
    ensures composed.Some? && (carried.None? || Trim(white, carried.value) == "") ==> r == Ok(composed)
    ensures composed.Some? && carried.Some? && Trim(white, carried.value) != "" ==>
      var own, sent := CookieNames(white, carried.value), CookieNames(white, composed.value);
      match r
      case Ok(merged) =>
        merged.Some? && CookieNames(white, merged.value) == own + sent
        && (forall name :: name in sent ==> name !in own)
        && merged.value == carried.value + "; " + composed.value
      case Err(name) =>
        name in own && exists i :: 0 <= i < |sent| && sent[i] == name && forall j :: 0 <= j < i ==> sent[j] !in own
  {
    if composed.None? {
      return Ok(carried);
    }
    if carried.None? || Trim(white, carried.value) == "" {
      return Ok(composed);
    }
    var names := CookieNames(white, carried.value);
    var sent := CookieNames(white, composed.value);
    for i := 0 to |sent|
      invariant forall j :: 0 <= j < i ==> sent[j] !in names
    {
      if sent[i] in names {
        return Err(sent[i]);
      }
    }
    JoinedNames(white, carried.value, composed.value);
    r := Ok(Some(carried.value + "; " + composed.value));
  }
}
