/** JSON values and their text, and a reference parser after RFC 8259. Number tokens are kept as text. */
module JsonText {
  import opened Wrappers

  datatype Member = Member(key: string, value: Json)

  datatype Json =
    | Null
    | Bool(value: bool)
    | Number(token: string)
    | Str(chars: string)
    | Arr(items: seq<Json>)
    | Obj(members: seq<Member>)

  predicate NumberChar(c: char) {
    '0' <= c <= '9' || c == '-' || c == '+' || c == '.' || c == 'e' || c == 'E'
  }

  /** The length of the run of characters that a number can hold. */
  function NumberRun(s: string): (n: nat)
    ensures n <= |s|
  {
    if s == "" || !NumberChar(s[0]) then 0 else 1 + NumberRun(s[1..])
  }

  function Digits(s: string): (n: nat)
    ensures n <= |s|
  {
    if s == "" || !('0' <= s[0] <= '9') then 0 else 1 + Digits(s[1..])
  }

  predicate Exponent(s: string) {
    s == "" || ((s[0] == 'e' || s[0] == 'E') &&
      var t := if |s| > 1 && (s[1] == '+' || s[1] == '-') then s[2..] else s[1..];
      t != "" && Digits(t) == |t|)
  }

  predicate Fraction(s: string) {
    if s != "" && s[0] == '.' then Digits(s[1..]) > 0 && Exponent(s[1..][Digits(s[1..])..]) else Exponent(s)
  }

  /** The `number` production of RFC 8259 section 6, without its sign. */
  predicate Unsigned(s: string) {
    Digits(s) > 0 && (s[0] == '0' ==> Digits(s) == 1) && Fraction(s[Digits(s)..])
  }

  predicate NumberToken(s: string) {
    s != "" && NumberRun(s) == |s| && if s[0] == '-' then Unsigned(s[1..]) else Unsigned(s)
  }

  function HexDigit(n: int): char
    requires 0 <= n < 16
  {
    if n < 10 then '0' + n as char else 'a' + (n - 10) as char
  }

  function HexValue(c: char): Option<int> {
    if '0' <= c <= '9' then Some(c as int - '0' as int)
    else if 'a' <= c <= 'f' then Some(c as int - 'a' as int + 10)
    else if 'A' <= c <= 'F' then Some(c as int - 'A' as int + 10)
    else None
  }

  /** One character of a string, and what follows. */
  function CharTo(c: char, rest: string): string {
    if c == '"' then ['\\', '"'] + rest
    else if c == '\\' then ['\\', '\\'] + rest
    else if c as int == 8 then ['\\', 'b'] + rest
    else if c as int == 12 then ['\\', 'f'] + rest
    else if c == '\n' then ['\\', 'n'] + rest
    else if c == '\r' then ['\\', 'r'] + rest
    else if c == '\t' then ['\\', 't'] + rest
    else if c < ' ' then ['\\', 'u', '0', '0', HexDigit(c as int / 16), HexDigit(c as int % 16)] + rest
    else [c] + rest
  }

  /** A character is written as itself, as a short escape where JSON has one, or else by its number. */
  lemma CharLength(c: char, rest: string)
    ensures |CharTo(c, rest)| - |rest| ==
      if c == '"' || c == '\\' || c == '\n' || c == '\r' || c == '\t' || c as int == 8 || c as int == 12 then 2
      else if c as int < 32 then 6 else 1
  {
  }

  /** The characters of a string and its closing quote, and what follows. */
  function CharsTo(chars: string, rest: string): string {
    if chars == "" then ['"'] + rest else CharTo(chars[0], CharsTo(chars[1..], rest))
  }

  function StringTo(chars: string, rest: string): string {
    ['"'] + CharsTo(chars, rest)
  }

  /** The text of a value, and what follows. */
  function ValueTo(v: Json, rest: string): string
    decreases v, 0
  {
    match v
    case Null => "null" + rest
    case Bool(b) => (if b then "true" else "false") + rest
    case Number(token) => token + rest
    case Str(chars) => StringTo(chars, rest)
    case Arr(items) => ['['] + if items == [] then [']'] + rest else ItemsTo(items, rest)
    case Obj(members) => ['{'] + if members == [] then ['}'] + rest else MembersTo(members, rest)
  }

  function ItemsTo(items: seq<Json>, rest: string): string
    requires items != []
    decreases items, 1
  {
    ValueTo(items[0], if |items| == 1 then [']'] + rest else [','] + ItemsTo(items[1..], rest))
  }

  function MembersTo(members: seq<Member>, rest: string): string
    requires members != []
    decreases members, 1
  {
    StringTo(members[0].key, [':'] + ValueTo(members[0].value,
      if |members| == 1 then ['}'] + rest else [','] + MembersTo(members[1..], rest)))
  }

  function Stringified(v: Json): string {
    ValueTo(v, "")
  }

  /** Values whose numbers are number tokens. */
  predicate Valid(v: Json) {
    match v
    case Number(token) => NumberToken(token)
    case Arr(items) => forall i :: 0 <= i < |items| ==> Valid(items[i])
    case Obj(members) => forall i :: 0 <= i < |members| ==> Valid(members[i].value)
    case _ => true
  }

  // The reference parser.

  predicate Space(c: char) {
    c == ' ' || c == '\t' || c == '\n' || c == '\r'
  }

  function Skip(s: string): (r: string)
    ensures |r| <= |s|
  {
    if s != "" && Space(s[0]) then Skip(s[1..]) else s
  }

  type Parsed<T> = Option<(T, string)>

  function Hex4(s: string): Option<int> {
    if |s| < 4 || HexValue(s[0]).None? || HexValue(s[1]).None? || HexValue(s[2]).None? || HexValue(s[3]).None? then None
    else Some(((HexValue(s[0]).value * 16 + HexValue(s[1]).value) * 16 + HexValue(s[2]).value) * 16
      + HexValue(s[3]).value)
  }

  predicate High(n: int) {
    0xD800 <= n < 0xDC00
  }

  predicate Low(n: int) {
    0xDC00 <= n < 0xE000
  }

  lemma HexDigitRange(c: char)
    requires HexValue(c).Some?
    ensures 0 <= HexValue(c).value < 16
  {
  }

  lemma HexRange(s: string)
    requires Hex4(s).Some?
    ensures 0 <= Hex4(s).value < 0x10000
  {
    HexDigitRange(s[0]);
    HexDigitRange(s[1]);
    HexDigitRange(s[2]);
    HexDigitRange(s[3]);
  }

  /** A `\u` escape: a character, or a surrogate pair's; a surrogate alone is none. */
  function Escaped(s: string): (r: Parsed<char>)
    ensures r.Some? ==> |r.value.1| < |s|
  {
    var first := Hex4(s);
    if first.None? then None
    else
      HexRange(s);
      if !High(first.value) && !Low(first.value) then Some((first.value as char, s[4..]))
      else if High(first.value) && |s| >= 6 && s[4] == '\\' && s[5] == 'u' && Hex4(s[6..]).Some?
        && Low(Hex4(s[6..]).value) then
        Some(((0x10000 + (first.value - 0xD800) * 0x400 + (Hex4(s[6..]).value - 0xDC00)) as char, s[10..]))
      else None
  }

  function OneChar(s: string): (r: Parsed<char>)
    ensures r.Some? ==> |r.value.1| < |s|
  {
    if s == "" || s[0] < ' ' || s[0] == '"' then None
    else if s[0] != '\\' then Some((s[0], s[1..]))
    else if |s| < 2 then None
    else if s[1] == '"' || s[1] == '\\' || s[1] == '/' then Some((s[1], s[2..]))
    else if s[1] == 'b' then Some((8 as char, s[2..]))
    else if s[1] == 'f' then Some((12 as char, s[2..]))
    else if s[1] == 'n' then Some(('\n', s[2..]))
    else if s[1] == 'r' then Some(('\r', s[2..]))
    else if s[1] == 't' then Some(('\t', s[2..]))
    else if s[1] == 'u' then Escaped(s[2..])
    else None
  }

  /** The rest of a string, behind its opening quote. */
  function Chars(s: string): (r: Parsed<string>)
    ensures r.Some? ==> |r.value.1| < |s|
    decreases |s|
  {
    if s != "" && s[0] == '"' then Some(("", s[1..]))
    else
      var first := OneChar(s);
      if first.None? then None
      else
        var more := Chars(first.value.1);
        if more.None? then None else Some(([first.value.0] + more.value.0, more.value.1))
  }

  function Word(s: string, word: string, v: Json): (r: Parsed<Json>)
    requires word != ""
    ensures r.Some? ==> |r.value.1| < |s|
  {
    if word <= s then Some((v, s[|word|..])) else None
  }

  function Value(s: string): (r: Parsed<Json>)
    ensures r.Some? ==> |r.value.1| < |s|
    decreases |s|, 0
  {
    if s == "" then None
    else if s[0] == '"' then
      var chars := Chars(s[1..]);
      if chars.None? then None else Some((Str(chars.value.0), chars.value.1))
    else if s[0] == '[' then
      var t := Skip(s[1..]);
      if t != "" && t[0] == ']' then Some((Arr([]), t[1..]))
      else
        var items := Items(t);
        if items.None? then None else Some((Arr(items.value.0), items.value.1))
    else if s[0] == '{' then
      var t := Skip(s[1..]);
      if t != "" && t[0] == '}' then Some((Obj([]), t[1..]))
      else
        var members := Members(t);
        if members.None? then None else Some((Obj(members.value.0), members.value.1))
    else if s[0] == 't' then Word(s, "true", Bool(true))
    else if s[0] == 'f' then Word(s, "false", Bool(false))
    else if s[0] == 'n' then Word(s, "null", Null)
    else
      var n := NumberRun(s);
      if NumberToken(s[..n]) then Some((Number(s[..n]), s[n..])) else None
  }

  function Items(s: string): (r: Parsed<seq<Json>>)
    ensures r.Some? ==> |r.value.1| < |s|
    decreases |s|, 1
  {
    var first := Value(s);
    if first.None? then None
    else
      var t := Skip(first.value.1);
      if t == "" then None
      else if t[0] == ']' then Some(([first.value.0], t[1..]))
      else if t[0] != ',' then None
      else
        var more := Items(Skip(t[1..]));
        if more.None? then None else Some(([first.value.0] + more.value.0, more.value.1))
  }

  function OneMember(s: string): (r: Parsed<Member>)
    ensures r.Some? ==> |r.value.1| < |s|
    decreases |s|, 1
  {
    if s == "" || s[0] != '"' then None
    else
      var key := Chars(s[1..]);
      if key.None? then None
      else
        var t := Skip(key.value.1);
        if t == "" || t[0] != ':' then None
        else
          var value := Value(Skip(t[1..]));
          if value.None? then None else Some((Member(key.value.0, value.value.0), value.value.1))
  }

  function Members(s: string): (r: Parsed<seq<Member>>)
    ensures r.Some? ==> |r.value.1| < |s|
    decreases |s|, 2
  {
    var first := OneMember(s);
    if first.None? then None
    else
      var t := Skip(first.value.1);
      if t == "" then None
      else if t[0] == '}' then Some(([first.value.0], t[1..]))
      else if t[0] != ',' then None
      else
        var more := Members(Skip(t[1..]));
        if more.None? then None else Some(([first.value.0] + more.value.0, more.value.1))
  }

  /** The value that a JSON text stands for. */
  function Parse(s: string): Option<Json> {
    var r := Value(Skip(s));
    if r.Some? && Skip(r.value.1) == "" then Some(r.value.0) else None
  }
}
