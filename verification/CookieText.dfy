/** The cookie header: pairs joined by a semicolon and a space, read back as RFC 6265 section 4.2.1 has it. */
module CookieText {
  import opened Wrappers
  import opened PercentCoding
  import opened QueryText

  /** RFC 6265 `cookie-octet`. */
  predicate CookieOctet(c: char) {
    0x21 <= c as int <= 0x7E && c != '"' && c != ',' && c != ';' && c != '\\'
  }

  predicate CookieOctets(s: string) {
    forall c :: c in s ==> CookieOctet(c)
  }

  /** `cookieName`: a token of RFC 9110. */
  predicate NameChar(c: char) {
    'A' <= c <= 'Z' || 'a' <= c <= 'z' || '0' <= c <= '9' || c == '!' || c == '#' || c == '$' || c == '%' || c == '&'
    || c == '\'' || c == '*' || c == '+' || c == '-' || c == '.' || c == '^' || c == '_' || c == '`' || c == '|'
       || c == '~'
  }

  predicate CookieName(s: string) {
    s != "" && forall c :: c in s ==> NameChar(c)
  }

  datatype CookieValue = Coded(items: seq<Octets>) | Raw(texts: seq<string>)

  datatype Cookie = Cookie(name: string, value: CookieValue)

  /** Names and raw values that passed their gates; an empty array writes no cookie. */
  ghost predicate Admitted(c: Cookie) {
    && CookieName(c.name)
    && match c.value
       case Coded(items) => items != []
       case Raw(texts) => texts != [] && forall x :: x in texts ==> CookieOctets(x)
  }

  /** The text of a cookie's items, which a comma joins. */
  function Items(v: CookieValue): seq<string> {
    match v
    case Coded(items) => EncodeItems(items, false, Comma)
    case Raw(texts) => texts
  }

  function CookiePair(c: Cookie): Pair {
    Pair(c.name, Join(Items(c.value), ','))
  }

  function CookiePairs(cookies: seq<Cookie>): (r: seq<Pair>)
    ensures |r| == |cookies|
  {
    if cookies == [] then [] else [CookiePair(cookies[0])] + CookiePairs(cookies[1..])
  }

  /** `cookies.join("; ")`. */
  function JoinCookies(texts: seq<string>): string {
    if texts == [] then "" else if |texts| == 1 then texts[0] else texts[0] + [';'] + ([' '] + JoinCookies(texts[1..]))
  }

  function Header(cookies: seq<Cookie>): string {
    JoinCookies(Texts(CookiePairs(cookies)))
  }

  function DropSpaces(texts: seq<string>): (r: seq<string>)
    ensures |r| == |texts|
  {
    if texts == [] then []
      else [if texts[0] != "" && texts[0][0] == ' ' then texts[0][1..] else texts[0]] + DropSpaces(texts[1..])
  }

  /** The reader: pieces at `;`, a space dropped behind each, cut at the first `=`. */
  function ReadCookies(header: string): seq<Pair> {
    if header == "" then [] else CutAll(DropSpaces(Split(header, ';')))
  }

  /** A piece that starts with no space and holds no semicolon. */
  ghost predicate Plain(text: string) {
    text != "" && text[0] != ' ' && ';' !in text
  }

  lemma {:induction false} SplitCookies(texts: seq<string>, first: bool)
    requires texts != [] && forall t :: t in texts ==> Plain(t)
    ensures DropSpaces(Split((if first then "" else " ") + JoinCookies(texts), ';')) == texts
  {
    var lead := if first then "" else " ";
    var head := lead + texts[0];
    assert texts[0] in texts && Plain(texts[0]);
    assert ';' !in head;
    assert head[|lead|..] == texts[0];
    assert texts == [texts[0]] + texts[1..];
    if |texts| == 1 {
      SplitNone(head, ';');
    } else {
      SplitCookies(texts[1..], false);
      var rest := [' '] + JoinCookies(texts[1..]);
      assert lead + JoinCookies(texts) == head + [';'] + rest;
      SplitHead(head, rest, ';');
      assert [' '] + JoinCookies(texts[1..]) == " " + JoinCookies(texts[1..]);
    }
  }

  lemma CookieClean(c: Cookie)
    requires Admitted(c)
    ensures '=' !in c.name && Plain(PairText(CookiePair(c)))
  {
    var p := CookiePair(c);
    match c.value {
      case Coded(items) =>
        ItemsChars(items, false, Comma);
        JoinChars(Items(c.value), ',', ';');
      case Raw(texts) =>
        JoinChars(texts, ',', ';');
    }
    assert PairText(p)[0] == c.name[0] && NameChar(c.name[0]);
    assert forall x :: x in PairText(p) ==> x in c.name || x == '=' || x in p.value;
  }

  lemma {:induction false} CookiesClean(cookies: seq<Cookie>)
    requires forall c :: c in cookies ==> Admitted(c)
    ensures forall t :: t in Texts(CookiePairs(cookies)) ==> Plain(t)
    ensures CutAll(Texts(CookiePairs(cookies))) == CookiePairs(cookies)
  {
    if cookies != [] {
      assert cookies[0] in cookies;
      CookieClean(cookies[0]);
      CookiesClean(cookies[1..]);
      CutAt(cookies[0].name, CookiePair(cookies[0]).value, '=');
      assert CookiePairs(cookies)[1..] == CookiePairs(cookies[1..]);
    }
  }

  /** The header reads back as the cookies that were written, in order. */
  lemma HeaderReadsBack(cookies: seq<Cookie>)
    requires forall c :: c in cookies ==> Admitted(c)
    ensures ReadCookies(Header(cookies)) == CookiePairs(cookies)
  {
    if cookies != [] {
      CookiesClean(cookies);
      var texts := Texts(CookiePairs(cookies));
      SplitCookies(texts, true);
      assert "" + JoinCookies(texts) == JoinCookies(texts);
      assert texts[0] in texts;
    }
  }

  /** A coded cookie's value splits and decodes to its items; a raw one's splits to them. */
  lemma ValueReadsBack(c: Cookie)
    requires Admitted(c)
    ensures c.value.Coded? ==> DecodeAll(Split(CookiePair(c).value, ',')) == Some(c.value.items)
    ensures c.value.Raw? ==> Split(CookiePair(c).value, ',') == c.value.texts
  {
    match c.value
    case Coded(items) => DelimitedReadsBack(items, false, Comma);
    case Raw(texts) => SplitJoin(texts, ',');
  }
}
