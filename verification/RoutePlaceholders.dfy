/** A route's placeholders: read from the route, and replaced one parameter after another. */
module RoutePlaceholders {
  import opened PercentCoding

  // The route grammar.

  datatype Part = Literal(text: char) | Slot(name: string)

  /** A character that ends a placeholder's name. */
  predicate Stop(c: char) {
    c == '}' || c == ':' || c == '?' || c == '*'
  }

  predicate NameOk(name: string) {
    name != "" && forall c :: c in name ==> !Stop(c)
  }

  function NameEnd(s: string): (n: nat)
    ensures n <= |s| && (forall c :: c in s[..n] ==> !Stop(c)) && (n < |s| ==> Stop(s[n]))
  {
    if s == "" || Stop(s[0]) then 0 else 1 + NameEnd(s[1..])
  }

  function CloseAt(s: string): (n: nat)
    requires '}' in s
    ensures n < |s| && s[n] == '}'
  {
    if s[0] == '}' then 0 else 1 + CloseAt(s[1..])
  }

  /** `routePlaceholder`, matched from left to right: an opening brace, a name, anything, a closing brace. */
  function Parse(route: string): seq<Part> {
    if route == "" then []
    else if route[0] == '{' && NameEnd(route[1..]) > 0 && '}' in route[1..] then
      [Slot(route[1..][..NameEnd(route[1..])])] + Parse(route[1..][CloseAt(route[1..]) + 1..])
    else [Literal(route[0])] + Parse(route[1..])
  }

  function Placeholder(name: string): string {
    ['{'] + name + ['}']
  }

  /** The route with constraints and modifiers stripped from its placeholders. */
  function RouteText(parts: seq<Part>): string {
    if parts == [] then ""
    else (match parts[0] case Literal(c) => [c] case Slot(name) => Placeholder(name)) + RouteText(parts[1..])
  }

  /** What follows an opening brace outside the placeholders: a character that no name has, or no closing brace. */
  predicate Dangling(rest: seq<Part>) {
    || (rest != [] && rest[0].Literal? && Stop(rest[0].text))
    || (forall p :: p in rest ==> p.Literal? && p.text != '}')
  }

  predicate Routed(parts: seq<Part>) {
    parts == [] ||
    (Routed(parts[1..])
     && match parts[0]
        case Literal(c) => c == '{' ==> Dangling(parts[1..])
        case Slot(name) => NameOk(name))
  }

  lemma {:induction false} NoSlots(route: string)
    requires '}' !in route
    ensures forall p :: p in Parse(route) ==> p.Literal? && p.text != '}'
  {
    if route != "" { NoSlots(route[1..]); }
  }

  /** Every route is read into parts that the proofs below apply to. */
  lemma {:induction false} ParseIsRouted(route: string)
    ensures Routed(Parse(route))
    decreases |route|
  {
    if route != "" {
      var rest := route[1..];
      if route[0] == '{' && NameEnd(rest) > 0 && '}' in rest {
        ParseIsRouted(rest[CloseAt(rest) + 1..]);
        assert Parse(route)[1..] == Parse(rest[CloseAt(rest) + 1..]);
      } else {
        ParseIsRouted(rest);
        assert Parse(route)[1..] == Parse(rest);
        if '}' !in rest { NoSlots(rest); }
      }
    }
  }

  lemma {:induction false} NameEndAt(name: string, s: string)
    requires (forall c :: c in name ==> !Stop(c)) && s != "" && Stop(s[0])
    ensures NameEnd(name + s) == |name|
  {
    if name == "" {
      assert name + s == s;
    } else {
      assert name[0] in name && (name + s)[1..] == name[1..] + s;
      NameEndAt(name[1..], s);
    }
  }

  lemma {:induction false} CloseAtFirst(name: string, s: string)
    requires '}' !in name
    ensures '}' in name + ['}'] + s && CloseAt(name + ['}'] + s) == |name|
  {
    assert (name + ['}'] + s)[|name|] == '}';
    if name != "" {
      assert name[0] in name && (name + ['}'] + s)[1..] == name[1..] + ['}'] + s;
      CloseAtFirst(name[1..], s);
    }
  }

  lemma SlotParsed(name: string, s: string)
    requires NameOk(name)
    ensures Parse(Placeholder(name) + s) == [Slot(name)] + Parse(s)
  {
    var t := Placeholder(name) + s;
    var rest := name + ['}'] + s;
    assert t[1..] == rest && rest == name + (['}'] + s);
    NameEndAt(name, ['}'] + s);
    assert '}' !in name;
    CloseAtFirst(name, s);
    assert rest[..|name|] == name && rest[|name| + 1..] == s;
  }

  lemma {:induction false} NoneParsed(rest: seq<Part>)
    requires forall p :: p in rest ==> p.Literal? && p.text != '}'
    ensures '}' !in RouteText(rest)
  {
    if rest != [] {
      assert rest[0] in rest && forall p :: p in rest[1..] ==> p in rest;
      NoneParsed(rest[1..]);
    }
  }

  lemma LiteralParsed(c: char, rest: seq<Part>)
    requires c == '{' ==> Dangling(rest)
    ensures Parse([c] + RouteText(rest)) == [Literal(c)] + Parse(RouteText(rest))
  {
    var s := RouteText(rest);
    assert ([c] + s)[1..] == s;
    if c == '{' && !(rest != [] && rest[0].Literal? && Stop(rest[0].text)) { NoneParsed(rest); }
  }

  /** Reading a normalized route again changes nothing. */
  lemma {:induction false} ParseBack(parts: seq<Part>)
    requires Routed(parts)
    ensures Parse(RouteText(parts)) == parts
  {
    if parts != [] {
      ParseBack(parts[1..]);
      assert parts == [parts[0]] + parts[1..];
      match parts[0]
      case Literal(c) => LiteralParsed(c, parts[1..]);
      case Slot(name) => SlotParsed(name, RouteText(parts[1..]));
    }
  }

  // Replacing.

  /** `replaceAll(pattern, text)`, for a text without the dollar signs that JavaScript would read as references. */
  function ReplaceAll(s: string, pattern: string, text: string): string
    requires pattern != ""
  {
    if s == "" then ""
    else if pattern <= s then text + ReplaceAll(s[|pattern|..], pattern, text)
    else [s[0]] + ReplaceAll(s[1..], pattern, text)
  }

  predicate Braceless(s: string) {
    '{' !in s && '}' !in s
  }

  /** Every placeholder in `values` replaced at once; the others stay. */
  function ReplaceAtOnce(parts: seq<Part>, values: map<string, string>): string {
    if parts == [] then ""
    else
      (match parts[0]
       case Literal(c) => [c]
       case Slot(name) => if name in values then values[name] else Placeholder(name))
      + ReplaceAtOnce(parts[1..], values)
  }

  /** A path parameter and the segment its value is written as. */
  datatype Filled = Filled(name: string, segment: string)

  function ValuesOf(fills: seq<Filled>): map<string, string> {
    if fills == [] then map[] else ValuesOf(fills[..|fills| - 1])[fills[|fills| - 1].name := fills[|fills| - 1].segment]
  }

  /** One parameter after another. */
  function ReplaceInTurn(s: string, fills: seq<Filled>): string {
    if fills == [] then s
    else
      var last := fills[|fills| - 1];
      ReplaceAll(ReplaceInTurn(s, fills[..|fills| - 1]), Placeholder(last.name), last.segment)
  }

  /** A name that ends with an opening brace and another name: the other's placeholder stands inside its own. */
  predicate Holds(name: string, inner: string) {
    |name| > |inner| && name[|name| - |inner| - 1..] == ['{'] + inner
  }

  lemma ReplaceFirst(c: char, s: string, name: string, text: string)
    requires !(Placeholder(name) <= [c] + s)
    ensures ReplaceAll([c] + s, Placeholder(name), text) == [c] + ReplaceAll(s, Placeholder(name), text)
  {
    assert ([c] + s)[1..] == s;
  }

  /** Text without an opening brace is copied. */
  lemma {:induction false} ReplaceCopies(a: string, s: string, name: string, text: string)
    requires '{' !in a
    ensures ReplaceAll(a + s, Placeholder(name), text) == a + ReplaceAll(s, Placeholder(name), text)
  {
    if a == "" {
      assert a + s == s;
    } else {
      assert a == [a[0]] + a[1..] && a + s == [a[0]] + (a[1..] + s);
      assert a[0] in a && Placeholder(name)[0] == '{';
      ReplaceCopies(a[1..], s, name, text);
      ReplaceFirst(a[0], a[1..] + s, name, text);
    }
  }

  lemma ReplaceHit(s: string, name: string, text: string)
    ensures ReplaceAll(Placeholder(name) + s, Placeholder(name), text) == text + ReplaceAll(s, Placeholder(name), text)
  {
    var p := Placeholder(name);
    assert (p + s)[..|p|] == p && (p + s)[|p|..] == s;
  }

  /** A placeholder begins a text up to its first closing brace only when that is the placeholder. */
  lemma StartsWith(a: string, s: string, name: string)
    requires '}' !in a && '}' !in name && a != "" && Placeholder(name) <= a + ['}'] + s
    ensures a == ['{'] + name && Holds(a, name)
  {
    var t := a + ['}'] + s;
    var u := t[|name| + 2..];
    assert t == (['{'] + name) + ['}'] + u;
    CutAt(a, s, '}');
    CutAt(['{'] + name, u, '}');
    assert a[0..] == a;
  }

  /** The rest of a placeholder that does not hold `name` is copied. */
  lemma {:induction false} ReplacePasses(a: string, s: string, name: string, text: string)
    requires '}' !in a && '}' !in name && !Holds(a, name)
    ensures ReplaceAll(a + ['}'] + s, Placeholder(name), text) == a + ['}'] + ReplaceAll(s, Placeholder(name), text)
  {
    if a == "" {
      ReplaceCopies(['}'], s, name, text);
      assert "" + ['}'] + s == ['}'] + s;
    } else {
      var rest := a[1..] + ['}'] + s;
      if Placeholder(name) <= a + ['}'] + s { StartsWith(a, s, name); }
      assert a == [a[0]] + a[1..] && a + ['}'] + s == [a[0]] + rest;
      assert |a| > |name| + 1 ==> a[|a| - |name| - 1..] == a[1..][|a[1..]| - |name| - 1..];
      ReplacePasses(a[1..], s, name, text);
      ReplaceFirst(a[0], rest, name, text);
    }
  }

  /** The slots of a route. */
  function Names(parts: seq<Part>): set<string> {
    set p | p in parts && p.Slot? :: p.name
  }

  lemma {:induction false} RestCopied(parts: seq<Part>, values: map<string, string>)
    requires forall p :: p in parts ==> p.Literal? && p.text != '}'
    ensures '}' !in ReplaceAtOnce(parts, values)
  {
    if parts != [] {
      assert parts[0] in parts && forall p :: p in parts[1..] ==> p in parts;
      RestCopied(parts[1..], values);
    }
  }

  lemma NeedsClose(s: string, name: string)
    requires Placeholder(name) <= s
    ensures '}' in s
  {
    assert s[|name| + 1] == '}';
  }

  /** An opening brace outside the placeholders begins none. */
  lemma DanglingCopied(rest: seq<Part>, values: map<string, string>, name: string, text: string)
    requires Dangling(rest) && NameOk(name)
    ensures var more := ReplaceAtOnce(rest, values);
      ReplaceAll(['{'] + more, Placeholder(name), text) == ['{'] + ReplaceAll(more, Placeholder(name), text)
  {
    var more := ReplaceAtOnce(rest, values);
    if Placeholder(name) <= ['{'] + more {
      NeedsClose(['{'] + more, name);
      assert (['{'] + more)[1] == more[0] == name[0];
      assert name[0] in name;
      if !(rest != [] && rest[0].Literal? && Stop(rest[0].text)) { RestCopied(rest, values); }
    }
    ReplaceFirst('{', more, name, text);
  }

  lemma HoldsWithin(other: string, name: string)
    ensures Holds(['{'] + other, name) <==> other == name || Holds(other, name)
  {
    var a := ['{'] + other;
    if |other| > |name| {
      assert other[|other| - |name| - 1..] == a[|a| - |name| - 1..];
    } else if |other| == |name| {
      assert a[0..] == a && a[1..] == other && (['{'] + name)[1..] == name;
    }
  }

  /** The placeholder of another name, in which the name's own does not stand. */
  lemma SlotCopied(other: string, s: string, name: string, text: string)
    requires NameOk(other) && NameOk(name) && other != name && !Holds(other, name)
    ensures ReplaceAll(Placeholder(other) + s, Placeholder(name), text)
      == Placeholder(other) + ReplaceAll(s, Placeholder(name), text)
  {
    HoldsWithin(other, name);
    ReplacePasses(['{'] + other, s, name, text);
  }

  /** One more parameter's turn, where its placeholder stands in no other that is still there. */
  lemma {:induction false} ReplaceOneMore(parts: seq<Part>, values: map<string, string>, name: string, text: string)
    requires Routed(parts) && NameOk(name) && name !in values
    requires forall n :: n in values ==> Braceless(values[n])
    requires forall n :: n in Names(parts) && n !in values ==> !Holds(n, name)
    ensures ReplaceAll(ReplaceAtOnce(parts, values), Placeholder(name), text)
      == ReplaceAtOnce(parts, values[name := text])
  {
    if parts != [] {
      var rest := ReplaceAtOnce(parts[1..], values);
      assert parts == [parts[0]] + parts[1..];
      assert forall n :: n in Names(parts[1..]) ==> n in Names(parts);
      ReplaceOneMore(parts[1..], values, name, text);
      match parts[0]
      case Literal(c) =>
        if c == '{' {
          DanglingCopied(parts[1..], values, name, text);
        } else {
          ReplaceCopies([c], rest, name, text);
        }
      case Slot(other) =>
        if other in values {
          ReplaceCopies(values[other], rest, name, text);
        } else if other == name {
          ReplaceHit(rest, name, text);
        } else {
          assert parts[0] in parts && other in Names(parts);
          SlotCopied(other, rest, name, text);
        }
    }
  }

  // One after another against all at once.

  /** Path parameters as a template has them: each named once, by names of the grammar, with segments as written. */
  ghost predicate Separate(fills: seq<Filled>) {
    fills == [] ||
    var rest, last := fills[..|fills| - 1], fills[|fills| - 1];
    Separate(rest) && NameOk(last.name) && Braceless(last.segment) && last.name !in ValuesOf(rest)
  }

  /** A parameter comes before one whose placeholder its own stands in. */
  ghost predicate Clash(parts: seq<Part>, fills: seq<Filled>) {
    fills != [] &&
    var rest, last := fills[..|fills| - 1], fills[|fills| - 1];
    Clash(parts, rest) || exists n :: n in Names(parts) && n !in ValuesOf(rest) && Holds(n, last.name)
  }

  lemma {:induction false} SeparateValues(fills: seq<Filled>)
    requires Separate(fills)
    ensures forall n :: n in ValuesOf(fills) ==> Braceless(ValuesOf(fills)[n])
  {
    if fills != [] { SeparateValues(fills[..|fills| - 1]); }
  }

  lemma {:induction false} NothingReplaced(parts: seq<Part>)
    ensures ReplaceAtOnce(parts, map[]) == RouteText(parts)
  {
    if parts != [] { NothingReplaced(parts[1..]); }
  }

  /** Without a clash, one after another is all at once. */
  lemma {:induction false} TurnsAreOnce(parts: seq<Part>, fills: seq<Filled>)
    requires Routed(parts) && Separate(fills) && !Clash(parts, fills)
    ensures ReplaceInTurn(RouteText(parts), fills) == ReplaceAtOnce(parts, ValuesOf(fills))
  {
    NothingReplaced(parts);
    if fills != [] {
      var rest, last := fills[..|fills| - 1], fills[|fills| - 1];
      TurnsAreOnce(parts, rest);
      SeparateValues(rest);
      ReplaceOneMore(parts, ValuesOf(rest), last.name, last.segment);
    }
  }

  // What a clash does: with segments longer than every name, a spoilt placeholder stays spoilt.

  datatype Fate = Whole | Done | Spoilt(before: string)

  /** What the turns leave of a placeholder: all, its segment, or an opening brace and the segment of another. */
  function FateOf(name: string, fills: seq<Filled>): Fate {
    if fills == [] then Whole
    else
      var earlier, m := FateOf(name, fills[..|fills| - 1]), fills[|fills| - 1].name;
      if !earlier.Whole? then earlier
      else if m == name then Done
      else if Holds(name, m) then Spoilt(name[..|name| - |m| - 1])
      else Whole
  }

  function FateText(name: string, fate: Fate, x: string): string {
    match fate
    case Whole => Placeholder(name)
    case Done => x
    case Spoilt(before) => ['{'] + before + x
  }

  function Turned(parts: seq<Part>, fills: seq<Filled>, x: string): string {
    if parts == [] then ""
    else
      (match parts[0] case Literal(c) => [c] case Slot(name) => FateText(name, FateOf(name, fills), x))
      + Turned(parts[1..], fills, x)
  }

  /** Text up to a long segment is copied: no placeholder reaches over it. */
  lemma {:induction false} Blocked(a: string, x: string, s: string, name: string, text: string)
    requires '}' !in a && Braceless(x) && |x| > |name|
    ensures ReplaceAll(a + x + s, Placeholder(name), text) == a + x + ReplaceAll(s, Placeholder(name), text)
  {
    if a == "" {
      ReplaceCopies(x, s, name, text);
      assert "" + x + s == x + s;
    } else {
      var rest := a[1..] + x + s;
      assert a == [a[0]] + a[1..] && a + x + s == [a[0]] + rest;
      Blocked(a[1..], x, s, name, text);
      assert (a + x)[|name| + 1] == (a + x + s)[|name| + 1];
      assert Placeholder(name)[|name| + 1] == '}';
      assert (a + x)[|name| + 1] in a + x;
      ReplaceFirst(a[0], rest, name, text);
    }
  }

  /** The other placeholder inside one is replaced, and what stands before it is copied. */
  lemma {:induction false} InnerHit(a: string, s: string, name: string, text: string)
    requires '}' !in a && '}' !in name
    ensures ReplaceAll(a + Placeholder(name) + s, Placeholder(name), text)
      == a + text + ReplaceAll(s, Placeholder(name), text)
  {
    if a == "" {
      ReplaceHit(s, name, text);
      assert "" + Placeholder(name) + s == Placeholder(name) + s;
    } else {
      var rest := a[1..] + Placeholder(name) + s;
      var b := a + (['{'] + name);
      assert a == [a[0]] + a[1..] && a + Placeholder(name) + s == [a[0]] + rest;
      assert a + Placeholder(name) + s == b + ['}'] + s;
      if Placeholder(name) <= b + ['}'] + s { StartsWith(b, s, name); }
      InnerHit(a[1..], s, name, text);
      ReplaceFirst(a[0], rest, name, text);
    }
  }

  lemma PrefixCloses(name: string, n: nat)
    requires NameOk(name) && n <= |name|
    ensures '}' !in name[..n]
  {
    forall i | 0 <= i < n ensures name[..n][i] != '}' { assert name[i] in name && !Stop(name[i]); }
  }

  lemma SpoiltHit(other: string, s: string, name: string, text: string)
    requires NameOk(other) && NameOk(name) && Holds(other, name)
    ensures ReplaceAll(Placeholder(other) + s, Placeholder(name), text)
      == ['{'] + other[..|other| - |name| - 1] + text + ReplaceAll(s, Placeholder(name), text)
  {
    var before := other[..|other| - |name| - 1];
    assert other == before + (['{'] + name);
    assert Placeholder(other) + s == (['{'] + before) + Placeholder(name) + s;
    PrefixCloses(other, |other| - |name| - 1);
    PrefixCloses(name, |name|);
    assert name[..|name|] == name;
    InnerHit(['{'] + before, s, name, text);
  }

  lemma {:induction false} RestTurned(parts: seq<Part>, fills: seq<Filled>, x: string)
    requires forall p :: p in parts ==> p.Literal? && p.text != '}'
    ensures '}' !in Turned(parts, fills, x)
  {
    if parts != [] {
      assert parts[0] in parts && forall p :: p in parts[1..] ==> p in parts;
      RestTurned(parts[1..], fills, x);
    }
  }

  lemma DanglingTurned(rest: seq<Part>, fills: seq<Filled>, x: string, name: string)
    requires Dangling(rest) && NameOk(name)
    ensures var more := Turned(rest, fills, x);
      ReplaceAll(['{'] + more, Placeholder(name), x) == ['{'] + ReplaceAll(more, Placeholder(name), x)
  {
    var more := Turned(rest, fills, x);
    if Placeholder(name) <= ['{'] + more {
      NeedsClose(['{'] + more, name);
      assert (['{'] + more)[1] == more[0] == name[0];
      assert name[0] in name;
      if !(rest != [] && rest[0].Literal? && Stop(rest[0].text)) { RestTurned(rest, fills, x); }
    }
    ReplaceFirst('{', more, name, x);
  }

  lemma {:induction false} SpoiltPart(name: string, fills: seq<Filled>)
    requires NameOk(name)
    ensures FateOf(name, fills).Spoilt? ==> '}' !in FateOf(name, fills).before
  {
    if fills != [] {
      SpoiltPart(name, fills[..|fills| - 1]);
      var m := fills[|fills| - 1].name;
      if Holds(name, m) { PrefixCloses(name, |name| - |m| - 1); }
    }
  }

  /** One turn of one placeholder. */
  lemma SlotTurned(other: string, rest: seq<Filled>, last: Filled, s: string, x: string)
    requires NameOk(other) && NameOk(last.name) && Braceless(x) && |x| > |last.name|
    ensures ReplaceAll(FateText(other, FateOf(other, rest), x) + s, Placeholder(last.name), x)
      == FateText(other, FateOf(other, rest + [last]), x) + ReplaceAll(s, Placeholder(last.name), x)
  {
    assert (rest + [last])[..|rest|] == rest;
    match FateOf(other, rest)
    case Done => ReplaceCopies(x, s, last.name, x);
    case Spoilt(before) =>
      SpoiltPart(other, rest);
      Blocked(['{'] + before, x, s, last.name, x);
    case Whole =>
      if other == last.name {
        ReplaceHit(s, other, x);
      } else if Holds(other, last.name) {
        SpoiltHit(other, s, last.name, x);
      } else {
        SlotCopied(other, s, last.name, x);
      }
  }

  lemma {:induction false} AllTurned(parts: seq<Part>, rest: seq<Filled>, last: Filled, x: string)
    requires Routed(parts) && NameOk(last.name) && Braceless(x) && |x| > |last.name|
    ensures ReplaceAll(Turned(parts, rest, x), Placeholder(last.name), x) == Turned(parts, rest + [last], x)
  {
    if parts != [] {
      var more := Turned(parts[1..], rest, x);
      AllTurned(parts[1..], rest, last, x);
      match parts[0]
      case Literal(c) =>
        if c == '{' {
          DanglingTurned(parts[1..], rest, x, last.name);
        } else {
          ReplaceCopies([c], more, last.name, x);
        }
      case Slot(other) => SlotTurned(other, rest, last, more, x);
    }
  }

  /** Every segment is `x`, and `x` is longer than every name. */
  predicate Long(fills: seq<Filled>, x: string) {
    forall f :: f in fills ==> f.segment == x && |f.name| < |x|
  }

  lemma {:induction false} NothingTurned(parts: seq<Part>, x: string)
    ensures Turned(parts, [], x) == RouteText(parts)
  {
    if parts != [] { NothingTurned(parts[1..], x); }
  }

  lemma {:induction false} TurnsAreFates(parts: seq<Part>, fills: seq<Filled>, x: string)
    requires Routed(parts) && Separate(fills) && Long(fills, x) && Braceless(x)
    ensures ReplaceInTurn(RouteText(parts), fills) == Turned(parts, fills, x)
  {
    if fills == [] {
      NothingTurned(parts, x);
    } else {
      var rest, last := fills[..|fills| - 1], fills[|fills| - 1];
      assert fills == rest + [last];
      TurnsAreFates(parts, rest, x);
      AllTurned(parts, rest, last, x);
    }
  }

  lemma {:induction false} Fates(name: string, fills: seq<Filled>, x: string)
    requires Long(fills, x)
    ensures FateOf(name, fills).Done? ==> name in ValuesOf(fills)
    ensures name in ValuesOf(fills) ==> !FateOf(name, fills).Whole? && ValuesOf(fills)[name] == x
  {
    if fills != [] {
      assert fills == fills[..|fills| - 1] + [fills[|fills| - 1]];
      Fates(name, fills[..|fills| - 1], x);
    }
  }

  lemma {:induction false} ClashSpoils(parts: seq<Part>, fills: seq<Filled>, x: string)
    requires Clash(parts, fills) && Long(fills, x)
    ensures exists n :: n in Names(parts) && FateOf(n, fills).Spoilt?
  {
    var rest, last := fills[..|fills| - 1], fills[|fills| - 1];
    assert fills == rest + [last];
    if Clash(parts, rest) {
      ClashSpoils(parts, rest, x);
    } else {
      var n :| n in Names(parts) && n !in ValuesOf(rest) && Holds(n, last.name);
      Fates(n, rest, x);
      assert FateOf(n, fills).Spoilt?;
    }
  }

  /** A spoilt placeholder leaves the path longer than it should be. */
  lemma {:induction false} SpoiltIsLonger(parts: seq<Part>, fills: seq<Filled>, x: string)
    requires Long(fills, x) && forall n :: n in Names(parts) ==> n in ValuesOf(fills)
    ensures |Turned(parts, fills, x)| >= |ReplaceAtOnce(parts, ValuesOf(fills))|
    ensures (exists n :: n in Names(parts) && FateOf(n, fills).Spoilt?) ==>
      |Turned(parts, fills, x)| > |ReplaceAtOnce(parts, ValuesOf(fills))|
  {
    if parts != [] {
      assert parts == [parts[0]] + parts[1..];
      assert forall n :: n in Names(parts[1..]) ==> n in Names(parts);
      SpoiltIsLonger(parts[1..], fills, x);
      if parts[0].Slot? {
        assert parts[0] in parts && parts[0].name in Names(parts);
        Fates(parts[0].name, fills, x);
      }
      NamesSplit(parts);
    }
  }

  lemma NamesSplit(parts: seq<Part>)
    requires parts != []
    ensures forall n :: n in Names(parts) ==> n in Names(parts[1..]) || parts[0] == Slot(n)
  {
    forall n | n in Names(parts) ensures n in Names(parts[1..]) || parts[0] == Slot(n) {
      var p :| p in parts && p.Slot? && p.name == n;
      assert parts == [parts[0]] + parts[1..];
    }
  }

  // The exact conditions.

  function FillNames(fills: seq<Filled>): (r: seq<string>)
    ensures |r| == |fills|
  {
    if fills == [] then [] else FillNames(fills[..|fills| - 1]) + [fills[|fills| - 1].name]
  }

  /** Parameters of the given names whose segments are one text. */
  function Named(names: seq<string>, x: string): (r: seq<Filled>)
    ensures |r| == |names|
  {
    if names == [] then [] else Named(names[..|names| - 1], x) + [Filled(names[|names| - 1], x)]
  }

  function Longest(names: seq<string>): nat {
    if names == [] then 0
    else
      var before, last := Longest(names[..|names| - 1]), |names[|names| - 1]|;
      if last > before then last else before
  }

  function Run(n: nat): (x: string)
    ensures |x| == n && Braceless(x)
  {
    if n == 0 then "" else Run(n - 1) + ['a']
  }

  lemma {:induction false} LongestHolds(names: seq<string>)
    ensures forall n :: n in names ==> |n| <= Longest(names)
  {
    if names != [] {
      assert names == names[..|names| - 1] + [names[|names| - 1]];
      LongestHolds(names[..|names| - 1]);
    }
  }

  /** Named parameters are separate, clash, and have a value just when the parameters they are named after do. */
  lemma {:induction false} NamedLike(parts: seq<Part>, fills: seq<Filled>, x: string)
    requires Separate(fills) && Braceless(x)
    ensures Separate(Named(FillNames(fills), x)) && FillNames(Named(FillNames(fills), x)) == FillNames(fills)
    ensures Clash(parts, Named(FillNames(fills), x)) <==> Clash(parts, fills)
    ensures ValuesOf(Named(FillNames(fills), x)).Keys == ValuesOf(fills).Keys
  {
    if fills != [] {
      var rest, last := fills[..|fills| - 1], fills[|fills| - 1];
      NamedLike(parts, rest, x);
      NamedSnoc(FillNames(rest), last.name, x);
    }
  }

  lemma NamedSnoc(names: seq<string>, last: string, x: string)
    ensures Named(names + [last], x) == Named(names, x) + [Filled(last, x)]
    ensures FillNames(Named(names + [last], x)) == FillNames(Named(names, x)) + [last]
    ensures Named(names + [last], x)[..|names|] == Named(names, x)
  {
    assert (names + [last])[..|names|] == names;
    assert (Named(names, x) + [Filled(last, x)])[..|names|] == Named(names, x);
  }

  lemma {:induction false} NamedLong(names: seq<string>, x: string)
    requires forall n :: n in names ==> |n| < |x|
    ensures Long(Named(names, x), x)
  {
    if names != [] {
      assert names == names[..|names| - 1] + [names[|names| - 1]];
      NamedLong(names[..|names| - 1], x);
    }
  }

  ghost predicate TurnsAgree(parts: seq<Part>, fills: seq<Filled>) {
    ReplaceInTurn(RouteText(parts), fills) == ReplaceAtOnce(parts, ValuesOf(fills))
  }

  /** With a clash the path is wrong for some segments. */
  lemma ClashShows(parts: seq<Part>, fills: seq<Filled>) returns (other: seq<Filled>)
    requires Routed(parts) && Separate(fills) && forall n :: n in Names(parts) ==> n in ValuesOf(fills)
    requires Clash(parts, fills)
    ensures Separate(other) && FillNames(other) == FillNames(fills) && !TurnsAgree(parts, other)
  {
    var names := FillNames(fills);
    var x := Run(Longest(names) + 1);
    other := Named(names, x);
    LongestHolds(names);
    NamedLike(parts, fills, x);
    NamedLong(names, x);
    TurnsAreFates(parts, other, x);
    ClashSpoils(parts, other, x);
    SpoiltIsLonger(parts, other, x);
  }

  lemma {:induction false} ClashByNames(parts: seq<Part>, a: seq<Filled>, b: seq<Filled>)
    requires FillNames(a) == FillNames(b)
    ensures (Clash(parts, a) <==> Clash(parts, b)) && ValuesOf(a).Keys == ValuesOf(b).Keys
  {
    assert |FillNames(a)| == |FillNames(b)|;
    if a != [] {
      assert FillNames(a)[..|a| - 1] == FillNames(a[..|a| - 1]);
      assert FillNames(b)[..|b| - 1] == FillNames(b[..|b| - 1]);
      assert FillNames(a)[|a| - 1] == FillNames(b)[|b| - 1];
      ClashByNames(parts, a[..|a| - 1], b[..|b| - 1]);
    }
  }

  /**
   * For parameters in one order, replacing one after another gives what replacing all at once gives, whatever the
   * segments: exactly when none comes before one whose name ends with an opening brace and its own.
   */
  lemma InTurnExactly(parts: seq<Part>, fills: seq<Filled>)
    requires Routed(parts) && Separate(fills) && forall n :: n in Names(parts) ==> n in ValuesOf(fills)
    ensures (forall other :: Separate(other) && FillNames(other) == FillNames(fills) ==> TurnsAgree(parts, other))
      <==> !Clash(parts, fills)
  {
    if Clash(parts, fills) {
      var other := ClashShows(parts, fills);
    } else {
      forall other | Separate(other) && FillNames(other) == FillNames(fills) ensures TurnsAgree(parts, other) {
        ClashByNames(parts, fills, other);
        TurnsAreOnce(parts, other);
      }
    }
  }

  /** A placeholder stands inside another one's. */
  ghost predicate Nested(parts: seq<Part>, names: set<string>) {
    exists n, m :: n in Names(parts) && m in names && Holds(n, m)
  }

  lemma {:induction false} ClashIsNested(parts: seq<Part>, fills: seq<Filled>)
    requires Clash(parts, fills)
    ensures Nested(parts, ValuesOf(fills).Keys)
  {
    var rest := fills[..|fills| - 1];
    if Clash(parts, rest) { ClashIsNested(parts, rest); }
  }

  /** Some order of the names, `first` before the others. */
  ghost function Listed(first: string, names: set<string>): (r: seq<string>)
    requires first in names
    ensures r != [] && r[0] == first
    decreases |names|
  {
    if names == {first} then [first]
    else
      var n :| n in names && n != first;
      Listed(first, names - {n}) + [n]
  }

  lemma OneNamed(name: string, x: string)
    ensures Named([name], x) == [Filled(name, x)] && Named([name], x)[..0] == []
  {
    assert [name][..0] == [] && Named([], x) + [Filled(name, x)] == [Filled(name, x)];
  }

  lemma SeparateSnoc(fills: seq<Filled>, f: Filled)
    requires Separate(fills) && NameOk(f.name) && Braceless(f.segment) && f.name !in ValuesOf(fills)
    ensures Separate(fills + [f]) && ValuesOf(fills + [f]) == ValuesOf(fills)[f.name := f.segment]
  {
    assert (fills + [f])[..|fills|] == fills;
  }

  lemma OneMore(fills: seq<Filled>, n: string, x: string, names: set<string>)
    requires Separate(fills) && NameOk(n) && Braceless(x) && n in names && ValuesOf(fills).Keys == names - {n}
    ensures Separate(fills + [Filled(n, x)]) && ValuesOf(fills + [Filled(n, x)]).Keys == names
  {
    SeparateSnoc(fills, Filled(n, x));
    assert names - {n} + {n} == names;
  }

  ghost predicate AllOk(names: set<string>) {
    forall n :: n in names ==> NameOk(n)
  }

  lemma {:induction false} ListedSeparate(first: string, names: set<string>, x: string)
    requires first in names && Braceless(x) && AllOk(names)
    ensures Separate(Named(Listed(first, names), x)) && ValuesOf(Named(Listed(first, names), x)).Keys == names
    decreases |names|
  {
    if names == {first} {
      OneNamed(first, x);
      SeparateSnoc([], Filled(first, x));
      assert [] + [Filled(first, x)] == [Filled(first, x)];
    } else {
      var n :| n in names && n != first && Listed(first, names) == Listed(first, names - {n}) + [n];
      ListedSeparate(first, names - {n}, x);
      NamedSnoc(Listed(first, names - {n}), n, x);
      OneMore(Named(Listed(first, names - {n}), x), n, x, names);
    }
  }

  lemma {:induction false} ListedClash(parts: seq<Part>, inner: string, first: string, names: set<string>, x: string)
    requires first in names && inner in Names(parts) && Holds(inner, first)
    ensures Clash(parts, Named(Listed(first, names), x))
    decreases |names|
  {
    if names == {first} {
      OneNamed(first, x);
    } else {
      var n :| n in names && n != first && Listed(first, names) == Listed(first, names - {n}) + [n];
      ListedClash(parts, inner, first, names - {n}, x);
      NamedSnoc(Listed(first, names - {n}), n, x);
    }
  }

  /**
   * In every order and whatever the segments, replacing one after another gives what replacing all at once gives:
   * exactly when no placeholder's name ends with an opening brace and a parameter's name.
   */
  lemma AnyOrderExactly(parts: seq<Part>, names: set<string>)
    requires Routed(parts) && Names(parts) <= names && AllOk(names)
    ensures (forall fills :: Separate(fills) && ValuesOf(fills).Keys == names ==> TurnsAgree(parts, fills))
      <==> !Nested(parts, names)
  {
    if Nested(parts, names) {
      var n, m :| n in Names(parts) && m in names && Holds(n, m);
      ListedSeparate(m, names, "");
      ListedClash(parts, n, m, names, "");
      var other := ClashShows(parts, Named(Listed(m, names), ""));
      ClashByNames(parts, other, Named(Listed(m, names), ""));
      NamedBack(Listed(m, names), "");
    } else {
      forall fills | Separate(fills) && ValuesOf(fills).Keys == names ensures TurnsAgree(parts, fills) {
        if Clash(parts, fills) { ClashIsNested(parts, fills); }
        TurnsAreOnce(parts, fills);
      }
    }
  }

  lemma {:induction false} NamedBack(names: seq<string>, x: string)
    ensures FillNames(Named(names, x)) == names
  {
    if names != [] {
      NamedBack(names[..|names| - 1], x);
      NamedSnoc(names[..|names| - 1], names[|names| - 1], x);
      assert names == names[..|names| - 1] + [names[|names| - 1]];
    }
  }

  /** The path loop of `compose`. */
  method FillRoute(route: string, fills: seq<Filled>) returns (path: string)
    ensures path == ReplaceInTurn(RouteText(Parse(route)), fills)
    ensures Separate(fills) && !Clash(Parse(route), fills) ==>
      path == ReplaceAtOnce(Parse(route), ValuesOf(fills))
  {
    path := RouteText(Parse(route));
    for i := 0 to |fills|
      invariant path == ReplaceInTurn(RouteText(Parse(route)), fills[..i])
    {
      assert fills[..i + 1][..i] == fills[..i];
      path := ReplaceAll(path, Placeholder(fills[i].name), fills[i].segment);
    }
    assert fills[..|fills|] == fills;
    ParseIsRouted(route);
    if Separate(fills) && !Clash(Parse(route), fills) { TurnsAreOnce(Parse(route), fills); }
  }

  // A route where it goes wrong.

  lemma TwoTurns(s: string, f: Filled, g: Filled)
    ensures ReplaceInTurn(s, [f, g])
      == ReplaceAll(ReplaceAll(s, Placeholder(f.name), f.segment), Placeholder(g.name), g.segment)
  {
    assert [f, g][..1] == [f] && [f][..0] == [];
    assert ReplaceInTurn(s, [f]) == ReplaceAll(s, Placeholder(f.name), f.segment);
  }

  lemma {:induction false} NoneClosed(s: string, name: string, text: string)
    requires '}' !in s
    ensures ReplaceAll(s, Placeholder(name), text) == s
  {
    if s != "" {
      if Placeholder(name) <= s { NeedsClose(s, name); }
      NoneClosed(s[1..], name, text);
    }
  }

  lemma BraceTurns(a: string, x: string, y: string)
    requires NameOk(a) && NameOk(['{'] + a) && Braceless(x)
    ensures var spoilt := ReplaceAll(Placeholder(['{'] + a) + Placeholder(a), Placeholder(a), x);
      ReplaceAll(spoilt, Placeholder(['{'] + a), y) == ['{'] + x + x
  {
    var outer := ['{'] + a;
    assert outer[..0] == "" && outer[0..] == outer && Placeholder(a) + "" == Placeholder(a);
    SpoiltHit(outer, Placeholder(a), a, x);
    ReplaceHit("", a, x);
    assert ['{'] + "" + x + (x + "") == ['{'] + x + x;
    NoneClosed(['{'] + x + x, outer, y);
  }

  lemma BraceClash(a: string, x: string, y: string)
    requires NameOk(a) && NameOk(['{'] + a) && Braceless(x) && Braceless(y)
    ensures var fills := [Filled(a, x), Filled(['{'] + a, y)];
      Separate(fills) && Clash([Slot(['{'] + a), Slot(a)], fills) && ValuesOf(fills) == map[a := x, ['{'] + a := y]
  {
    var parts, one := [Slot(['{'] + a), Slot(a)], [Filled(a, x)];
    assert [] + [Filled(a, x)] == one && one + [Filled(['{'] + a, y)] == [Filled(a, x), Filled(['{'] + a, y)];
    SeparateSnoc([], Filled(a, x));
    SeparateSnoc(one, Filled(['{'] + a, y));
    assert parts[0] in parts && ['{'] + a in Names(parts) && (['{'] + a)[0..] == ['{'] + a;
    assert one[..0] == [] && Clash(parts, one);
    assert [Filled(a, x), Filled(['{'] + a, y)][..1] == one;
  }

  lemma BraceOnce(a: string, values: map<string, string>)
    requires a in values && ['{'] + a in values
    ensures ReplaceAtOnce([Slot(['{'] + a), Slot(a)], values) == values[['{'] + a] + values[a]
    ensures RouteText([Slot(['{'] + a), Slot(a)]) == Placeholder(['{'] + a) + Placeholder(a)
  {
    var parts := [Slot(['{'] + a), Slot(a)];
    assert parts[1..] == [Slot(a)] && [Slot(a)][1..] == [];
    assert RouteText([Slot(a)]) == Placeholder(a) + "" == Placeholder(a);
    assert ReplaceAtOnce([Slot(a)], values) == values[a] + "" == values[a];
  }

  /** In a route `{{a}{a}` with `a` first, the other placeholder keeps a brace and takes the wrong segment. */
  lemma BraceNamesClash(a: string, x: string, y: string)
    requires NameOk(a) && Braceless(x) && Braceless(y)
    ensures var parts := [Slot(['{'] + a), Slot(a)];
      var fills := [Filled(a, x), Filled(['{'] + a, y)];
      && Parse(RouteText(parts)) == parts && Separate(fills) && Clash(parts, fills)
      && ReplaceInTurn(RouteText(parts), fills) == ['{'] + x + x
      && ReplaceAtOnce(parts, ValuesOf(fills)) == y + x
  {
    var parts, fills := [Slot(['{'] + a), Slot(a)], [Filled(a, x), Filled(['{'] + a, y)];
    assert NameOk(['{'] + a);
    assert parts[1..] == [Slot(a)] && [Slot(a)][1..] == [];
    assert Routed([Slot(a)]) && Routed(parts);
    ParseBack(parts);
    BraceClash(a, x, y);
    BraceOnce(a, ValuesOf(fills));
    TwoTurns(RouteText(parts), fills[0], fills[1]);
    BraceTurns(a, x, y);
  }
}
