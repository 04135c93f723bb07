/** File arguments of a body: reading one, the base64 gate, and the budget for inline bytes. */
module InlineFiles {
  import opened Wrappers
  import opened PercentCoding
  import opened MultipartText

  // Base64 (RFC 4648 section 4).

  function Sextet(c: char): Option<int> {
    if 'A' <= c <= 'Z' then Some(c as int - 'A' as int)
    else if 'a' <= c <= 'z' then Some(c as int - 'a' as int + 26)
    else if '0' <= c <= '9' then Some(c as int - '0' as int + 52)
    else if c == '+' then Some(62)
    else if c == '/' then Some(63)
    else None
  }

  function Digit(n: int): char
    requires 0 <= n < 64
  {
    if n < 26 then 'A' + n as char
    else if n < 52 then 'a' + (n - 26) as char
    else if n < 62 then '0' + (n - 52) as char
    else if n == 62 then '+' else '/'
  }

  predicate Digits(s: string) {
    forall c :: c in s ==> Sextet(c).Some?
  }

  /** `strictBase64`: groups of four digits, the last of them perhaps padded. */
  predicate Strict(s: string) {
    if s == "" then true
    else if |s| < 4 then false
    else if |s| == 4 && s[2..] == "==" then Digits(s[..2])
    else if |s| == 4 && s[3] == '=' then Digits(s[..3])
    else Digits(s[..4]) && Strict(s[4..])
  }

  function Padding(s: string): nat {
    if |s| >= 2 && s[|s| - 2..] == "==" then 2 else if |s| >= 1 && s[|s| - 1] == '=' then 1 else 0
  }

  /** `base64ByteLength`. */
  function ByteLength(s: string): int {
    |s| / 4 * 3 - Padding(s)
  }

  /** Three bytes from the four digits of a group, fewer when it is padded. */
  function GroupBytes(a: int, b: int, c: int, d: int): Octets
    requires 0 <= a < 64 && 0 <= b < 64 && 0 <= c < 64 && 0 <= d < 64
  {
    [(a * 4 + b / 16) as Octet, (b % 16 * 16 + c / 4) as Octet, (c % 4 * 64 + d) as Octet]
  }

  function Value64(c: char): (n: int)
    ensures 0 <= n < 64
  {
    Sextet(c).GetOr(0)
  }

  /** What a strict text decodes to. */
  function Decode64(s: string): Octets {
    if |s| < 4 then []
    else if |s| == 4 && s[2..] == "==" then GroupBytes(Value64(s[0]), Value64(s[1]), 0, 0)[..1]
    else if |s| == 4 && s[3] == '=' then GroupBytes(Value64(s[0]), Value64(s[1]), Value64(s[2]), 0)[..2]
    else GroupBytes(Value64(s[0]), Value64(s[1]), Value64(s[2]), Value64(s[3])) + Decode64(s[4..])
  }

  function OneText(x: Octet): string {
    [Digit(x as int / 4), Digit(x as int % 4 * 16)] + "=="
  }

  function TwoText(x: Octet, y: Octet): string {
    [Digit(x as int / 4), Digit(x as int % 4 * 16 + y as int / 16)] + ([Digit(y as int % 16 * 4)] + "=")
  }

  function ThreeText(x: Octet, y: Octet, z: Octet, rest: string): string {
    [Digit(x as int / 4), Digit(x as int % 4 * 16 + y as int / 16)]
    + ([Digit(y as int % 16 * 4 + z as int / 64)] + ([Digit(z as int % 64)] + rest))
  }

  function Encode64(v: Octets): string {
    if v == [] then ""
    else if |v| == 1 then OneText(v[0])
    else if |v| == 2 then TwoText(v[0], v[1])
    else ThreeText(v[0], v[1], v[2], Encode64(v[3..]))
  }

  lemma PaddingBehind(s: string, n: nat)
    requires n + 2 <= |s|
    ensures Padding(s) == Padding(s[n..])
  {
    assert s[n..][|s| - n - 2..] == s[|s| - 2..];
  }

  lemma DigitsUnpadded(s: string)
    requires |s| == 4 && Digits(s[..4])
    ensures Padding(s) == 0
  {
    assert s[..4] == s && s[3] in s;
    assert s[2..][1] == s[3];
  }

  /** The last group of a text, when it is padded. */
  predicate PaddedGroup(s: string) {
    |s| == 4 && (s[2..] == "==" || s[3] == '=')
  }

  lemma PaddedLength(s: string)
    requires PaddedGroup(s)
    ensures ByteLength(s) == |Decode64(s)|
  {
    assert s[2..] == [s[2], s[3]];
  }

  lemma FullLength(s: string)
    requires Strict(s) && s != "" && !PaddedGroup(s)
    ensures |s| >= 4 && Strict(s[4..]) && |Decode64(s)| == 3 + |Decode64(s[4..])| && Padding(s) == Padding(s[4..])
  {
    if |s| == 4 {
      DigitsUnpadded(s);
    } else {
      StrictGroups(s[4..]);
      PaddingBehind(s, 4);
    }
  }

  lemma {:induction false} StrictGroups(s: string)
    requires Strict(s)
    ensures |s| % 4 == 0
  {
    if s != "" && !PaddedGroup(s) {
      StrictGroups(s[4..]);
    }
  }

  /** Counting a strict text is decoding it and counting its bytes. */
  lemma {:induction false} LengthIsDecoded(s: string)
    requires Strict(s)
    ensures ByteLength(s) == |Decode64(s)|
  {
    if PaddedGroup(s) {
      PaddedLength(s);
    } else if s != "" {
      LengthIsDecoded(s[4..]);
      FullLength(s);
      assert |s| / 4 == |s[4..]| / 4 + 1;
    }
  }

  lemma DigitBack(n: int)
    requires 0 <= n < 64
    ensures Sextet(Digit(n)) == Some(n) && Digit(n) != '='
  {
  }

  lemma GroupBack(x: int, y: int, z: int)
    requires 0 <= x < 256 && 0 <= y < 256 && 0 <= z < 256
    ensures GroupBytes(x / 4, x % 4 * 16 + y / 16, y % 16 * 4 + z / 64, z % 64) == [x as Octet, y as Octet, z as Octet]
  {
  }

  lemma TwoPads(a: char, b: char)
    requires Sextet(a).Some? && Sextet(b).Some?
    ensures Strict([a, b] + "==") && Decode64([a, b] + "==") == GroupBytes(Value64(a), Value64(b), 0, 0)[..1]
  {
    var s := [a, b] + "==";
    assert s[2..] == "==" && s[..2] == [a, b];
  }

  lemma OnePad(a: char, b: char, c: char)
    requires Sextet(a).Some? && Sextet(b).Some? && Sextet(c).Some? && c != '='
    ensures Strict([a, b] + ([c] + "="))
      && Decode64([a, b] + ([c] + "=")) == GroupBytes(Value64(a), Value64(b), Value64(c), 0)[..2]
  {
    var s := [a, b] + ([c] + "=");
    assert s[2] == c && s[3] == '=' && s[..3] == [a, b, c] && s[2..][0] == c;
  }

  lemma FullGroup(a: char, b: char, c: char, d: char, rest: string)
    requires Sextet(a).Some? && Sextet(b).Some? && Sextet(c).Some? && Sextet(d).Some? && d != '=' && Strict(rest)
    ensures var s := [a, b] + ([c] + ([d] + rest));
      Strict(s) && Decode64(s) == GroupBytes(Value64(a), Value64(b), Value64(c), Value64(d)) + Decode64(rest)
  {
    var s := [a, b] + ([c] + ([d] + rest));
    assert s[3] == d && s[..4] == [a, b, c, d] && s[4..] == rest && s[2..][1] == d;
  }

  lemma OneByte(x: Octet)
    ensures Strict(OneText(x)) && Decode64(OneText(x)) == [x]
  {
    var n := x as int;
    GroupBack(n, 0, 0);
    DigitBack(n / 4);
    DigitBack(n % 4 * 16);
    TwoPads(Digit(n / 4), Digit(n % 4 * 16));
  }

  lemma TwoBytes(x: Octet, y: Octet)
    ensures Strict(TwoText(x, y)) && Decode64(TwoText(x, y)) == [x, y]
  {
    var n, m := x as int, y as int;
    GroupBack(n, m, 0);
    DigitBack(n / 4);
    DigitBack(n % 4 * 16 + m / 16);
    DigitBack(m % 16 * 4);
    OnePad(Digit(n / 4), Digit(n % 4 * 16 + m / 16), Digit(m % 16 * 4));
  }

  lemma ThreeBytes(x: Octet, y: Octet, z: Octet, rest: string)
    requires Strict(rest)
    ensures Strict(ThreeText(x, y, z, rest)) && Decode64(ThreeText(x, y, z, rest)) == [x, y, z] + Decode64(rest)
  {
    var n, m, k := x as int, y as int, z as int;
    GroupBack(n, m, k);
    DigitBack(n / 4);
    DigitBack(n % 4 * 16 + m / 16);
    DigitBack(m % 16 * 4 + k / 64);
    DigitBack(k % 64);
    FullGroup(Digit(n / 4), Digit(n % 4 * 16 + m / 16), Digit(m % 16 * 4 + k / 64), Digit(k % 64), rest);
  }

  lemma ThreeThenRest(v: Octets, rest: string)
    requires |v| >= 3 && Strict(rest) && Decode64(rest) == v[3..]
    ensures Strict(ThreeText(v[0], v[1], v[2], rest)) && Decode64(ThreeText(v[0], v[1], v[2], rest)) == v
  {
    ThreeBytes(v[0], v[1], v[2], rest);
    assert v == [v[0], v[1], v[2]] + v[3..];
  }

  lemma TwoOnly(v: Octets)
    requires |v| == 2
    ensures Strict(TwoText(v[0], v[1])) && Decode64(TwoText(v[0], v[1])) == v
  {
    TwoBytes(v[0], v[1]);
    assert v == [v[0], v[1]];
  }

  /** The base64 text of any bytes passes the gate and decodes to them. */
  lemma {:induction false} EncodedDecodes(v: Octets)
    ensures Strict(Encode64(v)) && Decode64(Encode64(v)) == v
    decreases |v|
  {
    if |v| == 1 {
      OneByte(v[0]);
    } else if |v| == 2 {
      TwoOnly(v);
    } else if v != [] {
      EncodedDecodes(v[3..]);
      ThreeThenRest(v, Encode64(v[3..]));
    }
  }

  /** So any bytes can be sent inline, and are counted as their number. */
  lemma EncodedCounts(v: Octets)
    ensures Strict(Encode64(v)) && ByteLength(Encode64(v)) == |v|
  {
    EncodedDecodes(v);
    LengthIsDecoded(Encode64(v));
  }

  // Reading one file argument.

  /** A JSON value as an argument; a number carries its text and whether it is a safe integer. */
  datatype Value =
    | Null
    | Str(chars: Octets)
    | Num(text: Octets, safeInteger: bool)
    | Flag(on: bool)
    | Items(items: seq<Value>)
    | Object(members: map<Octets, Value>)

  datatype Source = InText | InBase64 | InRef

  /** A file read: its bytes as text or base64, or a reference to it; names and media types are apart. */
  datatype FileContent = FileContent(source: Source, content: Octets, byteLength: int)

  datatype Problem = NullNotAllowed | InvalidType | UnknownArgument | InvalidFile | FileTooLarge

  const TEXT: Octets := [116, 101, 120, 116]
  const BASE64: Octets := [98, 97, 115, 101, 54, 52]
  const REF: Octets := [114, 101, 102]
  const NAME_KEY: Octets := [110, 97, 109, 101]
  const MEDIA_TYPE: Octets := [109, 101, 100, 105, 97, 84, 121, 112, 101]

  function KeyFor(source: Source): Octets {
    match source
    case InText => TEXT
    case InBase64 => BASE64
    case InRef => REF
  }

  /** The texts that a file name and a media type may be. */
  datatype Grammar = Grammar(safeName: Octets -> bool, mediaType: Octets -> bool)

  function Offered(sources: set<Source>): set<Octets> {
    (set s | s in sources :: KeyFor(s)) + {NAME_KEY, MEDIA_TYPE}
  }

  function Present(members: map<Octets, Value>): seq<Source> {
    (if TEXT in members then [InText] else []) + (if BASE64 in members then [InBase64] else [])
      + (if REF in members then [InRef] else [])
  }

  /** The content of a file read is what its argument holds under its source. */
  predicate FoundIn(value: Value, f: FileContent) {
    value.Object? && KeyFor(f.source) in value.members && value.members[KeyFor(f.source)] == Str(f.content)
  }

  /** `readFile`, but for the names and media types of its result. */
  function ReadFile(value: Value, sources: set<Source>, g: Grammar): (r: Result<FileContent, Problem>)
    ensures r.Ok? ==> r.value.source in sources && FoundIn(value, r.value)
    ensures r.Ok? && r.value.source == InBase64
      ==> Strict(CharsOf(r.value.content)) && r.value.byteLength == ByteLength(CharsOf(r.value.content))
    ensures r.Err? ==> r.error == InvalidFile
  {
    if !value.Object? || !(value.members.Keys <= Offered(sources))
      || |Present(value.members)| != 1 then Err(InvalidFile)
    else
      var source := Present(value.members)[0];
      KeysTell(sources, source);
      var content := value.members[KeyFor(source)];
      if !content.Str? then Err(InvalidFile)
      else if NAME_KEY in value.members
        && !(value.members[NAME_KEY].Str? && value.members[NAME_KEY].chars != []
           && g.safeName(value.members[NAME_KEY].chars)) then Err(InvalidFile)
      else if MEDIA_TYPE in value.members
        && !(value.members[MEDIA_TYPE].Str? && g.mediaType(value.members[MEDIA_TYPE].chars)) then Err(InvalidFile)
      else if source == InBase64 && !Strict(CharsOf(content.chars)) then Err(InvalidFile)
      else if source == InRef && content.chars == [] then Err(InvalidFile)
      else Ok(FileContent(source, content.chars, if source == InBase64 then ByteLength(CharsOf(content.chars)) else 0))
  }

  /** A source that is not offered is an unknown key. */
  lemma KeysTell(sources: set<Source>, source: Source)
    ensures KeyFor(source) in Offered(sources) <==> source in sources
  {
    assert |TEXT| == 4 && |BASE64| == 6 && |REF| == 3 && |NAME_KEY| == 4 && |MEDIA_TYPE| == 9;
    assert TEXT[0] == 116 && NAME_KEY[0] == 110;
  }

  // The budget.

  /** The bytes that the inline files of a call decode to. */
  function InlineBytes(files: seq<FileContent>): int {
    if files == [] then 0 else
      InlineBytes(files[..|files| - 1]) + if files[|files| - 1].source == InBase64
        then |Decode64(CharsOf(files[|files| - 1].content))| else 0
  }

  /** As a read file is. */
  predicate Measured(f: FileContent) {
    f.source == InBase64 ==> Strict(CharsOf(f.content)) && f.byteLength == ByteLength(CharsOf(f.content))
  }

  /** `assertInlineBudget`: refused exactly when the inline files decode to more than the limit. */
  method AssertInlineBudget(files: seq<FileContent>, limit: int) returns (fits: bool)
    requires forall f :: f in files ==> Measured(f)
    ensures fits <==> InlineBytes(files) <= limit
  {
    var total := 0;
    for i := 0 to |files|
      invariant total == InlineBytes(files[..i])
    {
      assert files[..i + 1][..i] == files[..i];
      assert files[i] in files;
      if files[i].source == InBase64 {
        LengthIsDecoded(CharsOf(files[i].content));
        total := total + files[i].byteLength;
      }
    }
    assert files[..|files|] == files;
    fits := total <= limit;
  }
}
