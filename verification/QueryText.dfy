/** Query strings, urlencoded bodies and cookies: rendered pair by pair, and read back by splitting and decoding. */
module QueryText {
  import opened Wrappers
  import opened PercentCoding

  datatype Separator = Comma | Pipe | Blank

  /** What a parameter is written with: one value, its key repeated, or items joined into one value. */
  datatype Rendering =
    | Single(value: Octets)
    | Repeated(items: seq<Octets>)
    | Delimited(items: seq<Octets>, separator: Separator)

  datatype Notation = Bracket | Dot

  /** A query parameter, or a group of members under one name. Empty arrays are not written. */
  datatype Argument =
    | Plain(name: Octets, allowReserved: bool, rendering: Rendering)
    | Group(name: Octets, notation: Notation, members: seq<Member>)

  datatype Member = Member(name: Octets, values: seq<Octets>)

  datatype Pair = Pair(key: string, value: string)

  function EncodeValue(v: Octets, keep: bool): string {
    if keep then EncodeKeeping(v) else Encode(v)
  }

  /** `replaceAll(",", "%2C")`. */
  function EscapeCommas(s: string): string {
    if s == "" then "" else (if s[0] == ',' then ['%', '2', 'C'] else [s[0]]) + EscapeCommas(s[1..])
  }

  function EncodeItem(v: Octets, keep: bool, separator: Separator): string {
    if keep && separator == Comma then EscapeCommas(EncodeKeeping(v)) else EncodeValue(v, keep)
  }

  function EncodeItems(items: seq<Octets>, keep: bool, separator: Separator): (r: seq<string>)
    ensures |r| == |items|
  {
    if items == [] then [] else [EncodeItem(items[0], keep, separator)] + EncodeItems(items[1..], keep, separator)
  }

  /** `separatorFor`: a space is written as its escape. */
  function JoinWith(items: seq<string>, separator: Separator): string {
    match separator
    case Comma => Join(items, ',')
    case Pipe => Join(items, '|')
    case Blank => JoinBlank(items)
  }

  function JoinBlank(items: seq<string>): string {
    if items == [] then "" else if |items| == 1 then items[0] else items[0] + ['%', '2', '0'] + JoinBlank(items[1..])
  }

  function Pairs(key: string, values: seq<Octets>, keep: bool): (r: seq<Pair>)
    ensures |r| == |values|
  {
    if values == [] then [] else [Pair(key, EncodeValue(values[0], keep))] + Pairs(key, values[1..], keep)
  }

  /** `memberKey`. */
  function MemberKey(group: Octets, member: Octets, notation: Notation): string {
    match notation
    case Dot => Encode(group) + ['.'] + Encode(member)
    case Bracket => Encode(group) + ['['] + Encode(member) + [']']
  }

  function GroupPairs(group: Octets, notation: Notation, members: seq<Member>): seq<Pair> {
    if members == [] then []
    else
      Pairs(MemberKey(group, members[0].name, notation), members[0].values, false)
      + GroupPairs(group, notation, members[1..])
  }

  /** The pairs one argument writes. */
  function ArgumentPairs(a: Argument): seq<Pair> {
    match a
    case Plain(name, keep, Single(value)) => [Pair(Encode(name), EncodeValue(value, keep))]
    case Plain(name, keep, Repeated(items)) => Pairs(Encode(name), items, keep)
    case Plain(name, keep, Delimited(items, separator)) =>
      if items == [] then [] else [Pair(Encode(name), JoinWith(EncodeItems(items, keep, separator), separator))]
    case Group(name, notation, members) => GroupPairs(name, notation, members)
  }

  function AllPairs(arguments: seq<Argument>): seq<Pair> {
    if arguments == [] then [] else AllPairs(arguments[..|arguments| - 1]) + ArgumentPairs(arguments[|arguments| - 1])
  }

  function PairText(p: Pair): string {
    p.key + ['='] + p.value
  }

  function Texts(pairs: seq<Pair>): (r: seq<string>)
    ensures |r| == |pairs|
  {
    if pairs == [] then [] else [PairText(pairs[0])] + Texts(pairs[1..])
  }

  /** The composed text: the pairs joined by `&`. */
  function Render(pairs: seq<Pair>): string {
    Join(Texts(pairs), '&')
  }

  function CutAll(texts: seq<string>): (r: seq<Pair>)
    ensures |r| == |texts|
  {
    if texts == [] then [] else [Pair(Cut(texts[0], '=').0, Cut(texts[0], '=').1)] + CutAll(texts[1..])
  }

  /** What a server reads: pieces at `&`, each cut at its first `=`. */
  function Read(text: string): seq<Pair> {
    if text == "" then [] else CutAll(Split(text, '&'))
  }

  /** Pairs that the delimiters cannot break. */
  ghost predicate Clean(pairs: seq<Pair>) {
    forall p :: p in pairs ==> '&' !in p.key && '=' !in p.key && '&' !in p.value
  }

  lemma {:induction false} TextsClean(pairs: seq<Pair>)
    requires Clean(pairs)
    ensures forall t :: t in Texts(pairs) ==> '&' !in t
  {
    if pairs != [] {
      assert pairs[0] in pairs;
      TextsClean(pairs[1..]);
      assert forall c :: c in PairText(pairs[0]) ==> c in pairs[0].key || c == '=' || c in pairs[0].value;
    }
  }

  lemma {:induction false} CutTexts(pairs: seq<Pair>)
    requires Clean(pairs)
    ensures CutAll(Texts(pairs)) == pairs
  {
    if pairs != [] {
      assert pairs[0] in pairs;
      CutAt(pairs[0].key, pairs[0].value, '=');
      CutTexts(pairs[1..]);
      assert pairs == [pairs[0]] + pairs[1..];
    }
  }

  /** Rendered pairs are read back, all of them and in order. */
  lemma ReadRender(pairs: seq<Pair>)
    requires Clean(pairs)
    ensures Read(Render(pairs)) == pairs
  {
    if pairs != [] {
      TextsClean(pairs);
      CutTexts(pairs);
      SplitJoin(Texts(pairs), '&');
      assert '=' in PairText(pairs[0]) by { assert PairText(pairs[0])[|pairs[0].key|] == '='; }
      assert Render(pairs) != "" by {
        if |pairs| > 1 { assert |Join(Texts(pairs), '&')| >= |Texts(pairs)[0]|; }
      }
    }
  }

  lemma {:induction false} EscapeCommasChars(s: string)
    ensures forall c :: c in EscapeCommas(s) ==> c != ',' && (c in s || c == '%' || Unreserved(c))
  {
    if s != "" {
      EscapeCommasChars(s[1..]);
      assert s == [s[0]] + s[1..];
    }
  }

  lemma ItemChars(v: Octets, keep: bool, separator: Separator)
    ensures forall c :: c in EncodeItem(v, keep, separator) ==> WireChar(c, keep)
    ensures separator == Comma ==> ',' !in EncodeItem(v, keep, separator)
    ensures '|' !in EncodeItem(v, keep, separator)
  {
    EncodedChars(v);
    if keep && separator == Comma { EscapeCommasChars(EncodeKeeping(v)); }
  }

  lemma {:induction false} ItemsChars(items: seq<Octets>, keep: bool, separator: Separator)
    ensures forall x, c :: x in EncodeItems(items, keep, separator) && c in x ==> WireChar(c, keep)
    ensures forall x :: x in EncodeItems(items, keep, separator) ==> (separator == Comma ==> ',' !in x) && '|' !in x
  {
    if items != [] {
      ItemChars(items[0], keep, separator);
      ItemsChars(items[1..], keep, separator);
    }
  }

  /** Neither of the characters that end a pair is in a joined value. */
  lemma {:induction false} JoinChars(items: seq<string>, sep: char, c: char)
    requires c != sep && forall x :: x in items ==> c !in x
    ensures c !in Join(items, sep)
  {
    if |items| > 1 {
      JoinChars(items[1..], sep, c);
      assert items[0] in items;
    } else if |items| == 1 {
      assert items[0] in items;
    }
  }

  lemma {:induction false} JoinBlankChars(items: seq<string>, c: char)
    requires c != '%' && c != '2' && c != '0' && forall x :: x in items ==> c !in x
    ensures c !in JoinBlank(items)
  {
    if |items| > 1 {
      JoinBlankChars(items[1..], c);
      assert items[0] in items;
    } else if |items| == 1 {
      assert items[0] in items;
    }
  }

  lemma {:induction false} PairsClean(key: string, values: seq<Octets>, keep: bool)
    requires '&' !in key && '=' !in key
    ensures Clean(Pairs(key, values, keep))
  {
    if values != [] {
      PairsClean(key, values[1..], keep);
      EncodedChars(values[0]);
    }
  }

  lemma MemberKeyClean(group: Octets, member: Octets, notation: Notation)
    ensures '&' !in MemberKey(group, member, notation) && '=' !in MemberKey(group, member, notation)
  {
    EncodedChars(group);
    EncodedChars(member);
  }

  lemma {:induction false} GroupClean(group: Octets, notation: Notation, members: seq<Member>)
    ensures Clean(GroupPairs(group, notation, members))
  {
    if members != [] {
      MemberKeyClean(group, members[0].name, notation);
      PairsClean(MemberKey(group, members[0].name, notation), members[0].values, false);
      GroupClean(group, notation, members[1..]);
    }
  }

  lemma ArgumentClean(a: Argument)
    ensures Clean(ArgumentPairs(a))
  {
    EncodedChars(a.name);
    match a
    case Plain(name, keep, Single(value)) => EncodedChars(value);
    case Plain(name, keep, Repeated(items)) => PairsClean(Encode(name), items, keep);
    case Plain(name, keep, Delimited(items, separator)) =>
      var texts := EncodeItems(items, keep, separator);
      ItemsChars(items, keep, separator);
      match separator {
        case Comma => JoinChars(texts, ',', '&');
        case Pipe => JoinChars(texts, '|', '&');
        case Blank => JoinBlankChars(texts, '&');
      }
    case Group(name, notation, members) => GroupClean(name, notation, members);
  }

  lemma {:induction false} AllClean(arguments: seq<Argument>)
    ensures Clean(AllPairs(arguments))
  {
    if arguments != [] {
      AllClean(arguments[..|arguments| - 1]);
      ArgumentClean(arguments[|arguments| - 1]);
    }
  }

  /** The query reads back as the pairs of the arguments, in template order. */
  lemma QueryReadsBack(arguments: seq<Argument>)
    ensures Read(Render(AllPairs(arguments))) == AllPairs(arguments)
  {
    AllClean(arguments);
    ReadRender(AllPairs(arguments));
  }

  /** A pair of a plain argument decodes to its name and value. */
  lemma PairDecodes(name: Octets, value: Octets, keep: bool)
    ensures Decode(Encode(name)) == Some(name) && Decode(EncodeValue(value, keep)) == Some(value)
  {
    DecodeEncode(name);
    DecodeEncode(value);
  }

  /** Escaping commas afterwards changes nothing that decoding sees. */
  lemma {:induction false} EscapeCommasDecodes(v: Octets)
    ensures Decode(EscapeCommas(WriteAll(v, true))) == Some(v)
  {
    if v != [] {
      var rest := WriteAll(v[1..], true);
      EscapeCommasDecodes(v[1..]);
      assert [v[0]] + v[1..] == v;
      var c := CharOf(v[0]);
      if Unreserved(c) || Kept(c) {
        assert ([c] + rest)[1..] == rest;
        if c == ',' {
          assert Escape(v[0]) == ['%', '2', 'C'];
          EscapeBack(v[0], EscapeCommas(rest));
        } else {
          assert ([c] + EscapeCommas(rest))[1..] == EscapeCommas(rest);
        }
      } else {
        EscapeKeptWhole(v[0], rest);
        EscapeBack(v[0], EscapeCommas(rest));
      }
    }
  }

  lemma EscapeKeptWhole(b: Octet, rest: string)
    ensures EscapeCommas(Escape(b) + rest) == Escape(b) + EscapeCommas(rest)
  {
    var s := Escape(b) + rest;
    HexBack(b as int / 16);
    HexBack(b as int % 16);
    assert s[1..][0] == Hex(b as int / 16) && s[1..][1..] == s[2..];
    assert s[2..][0] == Hex(b as int % 16) && s[2..][1..] == rest;
    assert EscapeCommas(s[2..]) == [Hex(b as int % 16)] + EscapeCommas(rest);
    assert EscapeCommas(s[1..]) == [Hex(b as int / 16)] + EscapeCommas(s[2..]);
  }

  lemma ItemDecodes(v: Octets, keep: bool, separator: Separator)
    ensures Decode(EncodeItem(v, keep, separator)) == Some(v)
  {
    DecodeEncode(v);
    if keep && separator == Comma {
      KeepingWrites(v);
      EscapeCommasDecodes(v);
    }
  }

  /** The items of a delimited value, split and decoded. */
  function DecodeAll(texts: seq<string>): Option<seq<Octets>> {
    if texts == [] then Some([])
    else
      var first := Decode(texts[0]);
      var rest := DecodeAll(texts[1..]);
      if first.None? || rest.None? then None else Some([first.value] + rest.value)
  }

  lemma {:induction false} ItemsDecode(items: seq<Octets>, keep: bool, separator: Separator)
    ensures DecodeAll(EncodeItems(items, keep, separator)) == Some(items)
  {
    if items != [] {
      ItemDecodes(items[0], keep, separator);
      ItemsDecode(items[1..], keep, separator);
      assert items == [items[0]] + items[1..];
    }
  }

  /** Comma- and pipe-joined arrays split back to their items, whatever the items hold, `allowReserved` or not. */
  lemma DelimitedReadsBack(items: seq<Octets>, keep: bool, separator: Separator)
    requires items != [] && separator != Blank
    ensures var text := JoinWith(EncodeItems(items, keep, separator), separator);
      DecodeAll(Split(text, if separator == Comma then ',' else '|')) == Some(items)
  {
    ItemsChars(items, keep, separator);
    SplitJoin(EncodeItems(items, keep, separator), if separator == Comma then ',' else '|');
    ItemsDecode(items, keep, separator);
  }

  lemma {:induction false} TextsAppend(a: seq<Pair>, b: seq<Pair>)
    ensures Texts(a + b) == Texts(a) + Texts(b)
  {
    if a == [] {
      assert a + b == b;
    } else {
      assert (a + b)[1..] == a[1..] + b;
      TextsAppend(a[1..], b);
    }
  }

  /** The query loop of `compose`: each argument pushes its pairs, and the whole reads back. */
  method ComposeQuery(arguments: seq<Argument>) returns (text: string)
    ensures text == Render(AllPairs(arguments))
    ensures Read(text) == AllPairs(arguments)
  {
    var query: seq<string> := [];
    for i := 0 to |arguments|
      invariant query == Texts(AllPairs(arguments[..i]))
    {
      assert arguments[..i + 1][..i] == arguments[..i];
      TextsAppend(AllPairs(arguments[..i]), ArgumentPairs(arguments[i]));
      query := query + Texts(ArgumentPairs(arguments[i]));
    }
    assert arguments[..|arguments|] == arguments;
    QueryReadsBack(arguments);
    text := Join(query, '&');
  }

  /** A group's key reads back: at its bracket, or at its last dot, since no member name holds one. */
  function ReadMemberKey(key: string, notation: Notation): (string, string) {
    match notation
    case Bracket =>
      var parts := Cut(key, '[');
      (parts.0, if parts.1 == "" then "" else parts.1[..|parts.1| - 1])
    case Dot => CutLast(key, '.')
  }

  function CutLast(s: string, c: char): (string, string) {
    if s == "" then ("", "")
    else if s[|s| - 1] == c then (s[..|s| - 1], "")
    else
      var rest := CutLast(s[..|s| - 1], c);
      (rest.0, rest.1 + [s[|s| - 1]])
  }

  lemma {:induction false} CutLastAt(a: string, b: string, c: char)
    requires c !in b
    ensures CutLast(a + [c] + b, c) == (a, b)
  {
    var s := a + [c] + b;
    if b == "" {
      assert s[..|s| - 1] == a;
    } else {
      var last := b[|b| - 1];
      assert last in b;
      assert s[..|s| - 1] == a + [c] + b[..|b| - 1];
      CutLastAt(a, b[..|b| - 1], c);
      assert b[..|b| - 1] + [last] == b;
    }
  }

  lemma MemberKeyReadsBack(group: Octets, member: Octets, notation: Notation)
    requires notation == Dot ==> '.' !in Encode(member)
    ensures ReadMemberKey(MemberKey(group, member, notation), notation) == (Encode(group), Encode(member))
  {
    EncodedChars(group);
    if notation == Bracket {
      assert Encode(group) + ['['] + Encode(member) + [']'] == Encode(group) + ['['] + (Encode(member) + [']']);
      CutAt(Encode(group), Encode(member) + [']'], '[');
      assert (Encode(member) + [']'])[..|Encode(member)|] == Encode(member);
    } else {
      CutLastAt(Encode(group), Encode(member), '.');
    }
  }
}
