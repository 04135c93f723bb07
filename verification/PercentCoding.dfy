/** Percent-encoding of octets, and splitting of the text it gives (RFC 3986 sections 2.1 to 2.3). */
module PercentCoding {
  import opened Wrappers

  newtype Octet = x: int | 0 <= x < 256

  /** A value as the octets of its UTF-8 form. */
  type Octets = seq<Octet>

  predicate Unreserved(c: char) {
    'A' <= c <= 'Z' || 'a' <= c <= 'z' || '0' <= c <= '9' || c == '-' || c == '.' || c == '_' || c == '~'
  }

  /** The reserved characters that `allowReserved` writes raw. */
  predicate Kept(c: char) {
    c == ':' || c == '/' || c == '?' || c == '@' || c == '!' || c == '$' || c == '\'' || c == '(' || c == ')'
      || c == '*'
    || c == ',' || c == ';' || c == '[' || c == ']'
  }

  function Hex(n: int): char
    requires 0 <= n < 16
  {
    if n < 10 then '0' + n as char else 'A' + (n - 10) as char
  }

  function HexValue(c: char): Option<int> {
    if '0' <= c <= '9' then Some(c as int - '0' as int)
    else if 'A' <= c <= 'F' then Some(c as int - 'A' as int + 10)
    else if 'a' <= c <= 'f' then Some(c as int - 'a' as int + 10)
    else None
  }

  function Escape(b: Octet): string {
    ['%', Hex(b as int / 16), Hex(b as int % 16)]
  }

  function CharOf(b: Octet): char {
    b as int as char
  }

  /** `percentEncode`. */
  function Encode(v: Octets): string {
    if v == [] then ""
    else (if Unreserved(CharOf(v[0])) then [CharOf(v[0])] else Escape(v[0])) + Encode(v[1..])
  }

  /** The octet an escape stands for. */
  function Escaped(s: string): Option<int> {
    if |s| < 3 || s[0] != '%' || HexValue(s[1]).None? || HexValue(s[2]).None? then None
    else Some(HexValue(s[1]).value * 16 + HexValue(s[2]).value)
  }

  /** `percentEncodeAllowingReserved`: the second pass, which turns the escapes of kept characters back. */
  function KeepReserved(s: string): string {
    if s == "" then ""
    else if Escaped(s).Some? && 0 <= Escaped(s).value < 256
      && Kept(Escaped(s).value as char) then [Escaped(s).value as char] + KeepReserved(s[3..])
    else [s[0]] + KeepReserved(s[1..])
  }

  function EncodeKeeping(v: Octets): string {
    KeepReserved(Encode(v))
  }

  /** What a server reads: escapes and plain characters. */
  function Decode(s: string): Option<Octets> {
    if s == "" then Some([])
    else if s[0] == '%' then
      if Escaped(s).None? || !(0 <= Escaped(s).value < 256) then None
      else
        var rest := Decode(s[3..]);
        if rest.None? then None else Some([Escaped(s).value as Octet] + rest.value)
    else if s[0] as int >= 256 then None
    else
      var rest := Decode(s[1..]);
      if rest.None? then None else Some([s[0] as int as Octet] + rest.value)
  }

  lemma EscapeBack(b: Octet, rest: string)
    ensures Escaped(Escape(b) + rest) == Some(b as int) && (Escape(b) + rest)[3..] == rest
  {
    HexBack(b as int / 16);
    HexBack(b as int % 16);
  }

  lemma HexBack(n: int)
    requires 0 <= n < 16
    ensures HexValue(Hex(n)) == Some(n) && Unreserved(Hex(n)) && !Kept(Hex(n))
  {
  }

  /** What an octet is written as. */
  function Written(b: Octet, keep: bool): string {
    if Unreserved(CharOf(b)) || (keep && Kept(CharOf(b))) then [CharOf(b)] else Escape(b)
  }

  /** The two encodings, octet by octet. */
  function WriteAll(v: Octets, keep: bool): string {
    if v == [] then "" else Written(v[0], keep) + WriteAll(v[1..], keep)
  }

  lemma {:induction false} EncodeWrites(v: Octets)
    ensures Encode(v) == WriteAll(v, false)
  {
    if v != [] { EncodeWrites(v[1..]); }
  }

  lemma {:induction false} KeepingWrites(v: Octets)
    ensures EncodeKeeping(v) == WriteAll(v, true)
  {
    if v != [] {
      KeepingWrites(v[1..]);
      var rest := Encode(v[1..]);
      var c := CharOf(v[0]);
      if Unreserved(c) {
        assert ([c] + rest)[1..] == rest;
        assert Escaped([c] + rest).None?;
      } else {
        EscapeBack(v[0], rest);
        if !Kept(c) { KeepsEscape(v[0], rest); }
      }
    }
  }

  /** An escape that is not turned back is copied as it stands. */
  lemma KeepsEscape(b: Octet, rest: string)
    requires !Kept(CharOf(b))
    ensures KeepReserved(Escape(b) + rest) == Escape(b) + KeepReserved(rest)
  {
    var s := Escape(b) + rest;
    EscapeBack(b, rest);
    HexBack(b as int / 16);
    HexBack(b as int % 16);
    assert s[1..][0] == Hex(b as int / 16) && s[1..][1..] == s[2..];
    assert s[2..][0] == Hex(b as int % 16) && s[2..][1..] == rest;
    assert KeepReserved(s[2..]) == [Hex(b as int % 16)] + KeepReserved(rest);
    assert KeepReserved(s[1..]) == [Hex(b as int / 16)] + KeepReserved(s[2..]);
  }

  /** Decoding undoes both encodings. */
  lemma {:induction false} DecodeWritten(v: Octets, keep: bool)
    ensures Decode(WriteAll(v, keep)) == Some(v)
  {
    if v != [] {
      var rest := WriteAll(v[1..], keep);
      DecodeWritten(v[1..], keep);
      assert [v[0]] + v[1..] == v;
      if Unreserved(CharOf(v[0])) || (keep && Kept(CharOf(v[0]))) {
        assert ([CharOf(v[0])] + rest)[1..] == rest;
      } else {
        EscapeBack(v[0], rest);
      }
    }
  }

  lemma DecodeEncode(v: Octets)
    ensures Decode(Encode(v)) == Some(v) && Decode(EncodeKeeping(v)) == Some(v)
  {
    EncodeWrites(v);
    KeepingWrites(v);
    DecodeWritten(v, false);
    DecodeWritten(v, true);
  }

  /** The characters that encoded text is made of. */
  predicate WireChar(c: char, keep: bool) {
    Unreserved(c) || c == '%' || (keep && Kept(c))
  }

  lemma {:induction false} WrittenChars(v: Octets, keep: bool)
    ensures forall c :: c in WriteAll(v, keep) ==> WireChar(c, keep)
  {
    if v != [] {
      WrittenChars(v[1..], keep);
      HexBack(v[0] as int / 16);
      HexBack(v[0] as int % 16);
      assert forall c :: c in WriteAll(v, keep) ==> c in Written(v[0], keep) || c in WriteAll(v[1..], keep);
    }
  }

  /** Encoded text holds no delimiter of queries, bodies, cookies or routes, and nothing that a replacement reads. */
  lemma EncodedChars(v: Octets)
    ensures forall c :: c in Encode(v) ==> Unreserved(c) || c == '%'
    ensures forall c :: c in EncodeKeeping(v) ==> Unreserved(c) || c == '%' || Kept(c)
  {
    EncodeWrites(v);
    KeepingWrites(v);
    WrittenChars(v, false);
    WrittenChars(v, true);
  }

  lemma NotPrefix(pattern: string, s: string, i: nat)
    requires i < |pattern| && i < |s| && pattern[i] != s[i]
    ensures !(pattern <= s)
  {
  }

  // Splitting and joining.

  /** The pieces between the separators; there is always one. */
  function Split(s: string, c: char): (r: seq<string>)
    ensures r != []
  {
    if s == "" then [""]
    else
      var rest := Split(s[1..], c);
      if s[0] == c then [""] + rest else [[s[0]] + rest[0]] + rest[1..]
  }

  function Join(items: seq<string>, c: char): string {
    if items == [] then "" else if |items| == 1 then items[0] else items[0] + [c] + Join(items[1..], c)
  }

  lemma {:induction false} SplitHead(a: string, b: string, c: char)
    requires c !in a
    ensures Split(a + [c] + b, c) == [a] + Split(b, c)
  {
    var s := a + [c] + b;
    if a == "" {
      assert s[1..] == b;
    } else {
      assert s[0] == a[0] && s[1..] == a[1..] + [c] + b;
      SplitHead(a[1..], b, c);
      assert [a[0]] + a[1..] == a;
    }
  }

  lemma {:induction false} SplitNone(a: string, c: char)
    requires c !in a
    ensures Split(a, c) == [a]
  {
    if a != "" {
      SplitNone(a[1..], c);
      assert [a[0]] + a[1..] == a;
    }
  }

  lemma {:induction false} SplitJoin(items: seq<string>, c: char)
    requires items != [] && forall x :: x in items ==> c !in x
    ensures Split(Join(items, c), c) == items
  {
    if |items| == 1 {
      SplitNone(items[0], c);
    } else {
      SplitJoin(items[1..], c);
      SplitHead(items[0], Join(items[1..], c), c);
      assert items == [items[0]] + items[1..];
    }
  }

  function Occurrences(s: string, c: char): nat {
    if s == "" then 0 else (if s[0] == c then 1 else 0) + Occurrences(s[1..], c)
  }

  lemma {:induction false} OccurrencesAppend(a: string, b: string, c: char)
    ensures Occurrences(a + b, c) == Occurrences(a, c) + Occurrences(b, c)
  {
    if a == "" {
      assert a + b == b;
    } else {
      assert (a + b)[1..] == a[1..] + b;
      OccurrencesAppend(a[1..], b, c);
    }
  }

  lemma {:induction false} SplitCounts(s: string, c: char)
    ensures |Split(s, c)| == Occurrences(s, c) + 1
  {
    if s != "" { SplitCounts(s[1..], c); }
  }

  lemma {:induction false} OccursIn(s: string, c: char)
    ensures Occurrences(s, c) > 0 <==> c in s
  {
    if s != "" {
      OccursIn(s[1..], c);
      assert s == [s[0]] + s[1..];
    }
  }

  lemma {:induction false} JoinCounts(items: seq<string>, c: char, x: string)
    requires x in items
    ensures Occurrences(Join(items, c), c) >= |items| - 1 + Occurrences(x, c)
  {
    if |items| > 1 {
      var rest := Join(items[1..], c);
      assert items == [items[0]] + items[1..];
      OccurrencesAppend(items[0] + [c], rest, c);
      OccurrencesAppend(items[0], [c], c);
      assert Occurrences([c], c) == 1 + Occurrences([c][1..], c);
      JoinCounts(items[1..], c, if x in items[1..] then x else items[1]);
    }
  }

  /** Joined items split back exactly when none of them holds the separator. */
  lemma SplitJoinExactly(items: seq<string>, c: char)
    requires items != []
    ensures Split(Join(items, c), c) == items <==> forall x :: x in items ==> c !in x
  {
    if x :| x in items && c in x {
      JoinCounts(items, c, x);
      OccursIn(x, c);
      SplitCounts(Join(items, c), c);
    } else {
      SplitJoin(items, c);
    }
  }

  /** What is before the first separator, and what is behind it. */
  function Cut(s: string, c: char): (string, string) {
    if s == "" then ("", "")
    else if s[0] == c then ("", s[1..])
    else
      var rest := Cut(s[1..], c);
      ([s[0]] + rest.0, rest.1)
  }

  lemma {:induction false} CutAt(a: string, b: string, c: char)
    requires c !in a
    ensures Cut(a + [c] + b, c) == (a, b)
  {
    var s := a + [c] + b;
    if a == "" {
      assert s[1..] == b;
    } else {
      assert s[0] == a[0] && s[1..] == a[1..] + [c] + b;
      CutAt(a[1..], b, c);
      assert [a[0]] + a[1..] == a;
    }
  }
}
