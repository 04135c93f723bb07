/**
 * A multipart body and a reader after RFC 2046 section 5.1.1. Each character stands for an octet; names are given by
 * their UTF-8 octets.
 */
module MultipartText {
  import opened Wrappers
  import opened PercentCoding

  const CRLF := ['\r', '\n']

  /** `quoted`: the WHATWG form-data escapes. */
  function Quoted(s: string): string {
    if s == "" then ""
    else
      (if s[0] == '"' then ['%', '2', '2'] else if s[0] == '\r' then ['%', '0', 'D']
        else if s[0] == '\n' then ['%', '0', 'A'] else [s[0]])
      + Quoted(s[1..])
  }

  predicate Printable(b: Octet) {
    0x20 <= b as int <= 0x7E
  }

  predicate AllPrintable(name: Octets) {
    forall b :: b in name ==> Printable(b)
  }

  function CharsOf(name: Octets): string {
    if name == [] then "" else [CharOf(name[0])] + CharsOf(name[1..])
  }

  /** The fallback: an underscore for each UTF-16 unit that is not printable ASCII. */
  function Fallback(name: Octets): string {
    if name == [] then ""
    else
      var b := name[0] as int;
      (if Printable(name[0]) then [CharOf(name[0])] else if 0x80 <= b < 0xC0 then [] else if b >= 0xF0 then ['_', '_']
        else ['_'])
      + Fallback(name[1..])
  }

  datatype Part = Part(name: string, filename: Option<Octets>, mediaType: string, content: string)

  const NAME := "Content-Disposition: form-data; name=\""
  const FILENAME := "; filename=\""
  const EXTENDED := "; filename*=UTF-8''"
  const TYPE := "Content-Type: "

  /** What follows the name in a disposition. */
  function FilenameText(filename: Option<Octets>): string {
    match filename
    case None => ""
    case Some(f) =>
      if AllPrintable(f) then FILENAME + (Quoted(CharsOf(f)) + ['"'] + "")
      else FILENAME + (Quoted(Fallback(f)) + ['"'] + (EXTENDED + Encode(f)))
  }

  /** `dispositionOf`, with its header's name. */
  function Disposition(p: Part): string {
    NAME + (Quoted(p.name) + ['"'] + FilenameText(p.filename))
  }

  function PartText(p: Part): string {
    Disposition(p) + CRLF + (TYPE + p.mediaType) + (CRLF + CRLF) + p.content
  }

  function Delimiter(boundary: string): string {
    CRLF + "--" + boundary
  }

  /** What follows a boundary: the next part and what is behind it, or the close. */
  function AfterBoundary(parts: seq<Part>, boundary: string): string {
    if parts == [] then "--" + CRLF
    else CRLF + (PartText(parts[0]) + Delimiter(boundary) + AfterBoundary(parts[1..], boundary))
  }

  /** The body that `writeBody` writes. */
  function BodyText(parts: seq<Part>, boundary: string): string {
    "--" + boundary + AfterBoundary(parts, boundary)
  }

  // The reader.

  /** The text before the first occurrence of a pattern, and the text behind it. */
  function Until(s: string, pattern: string): (r: Option<(string, string)>)
    ensures r.Some? ==> |r.value.1| + |pattern| <= |s|
  {
    if pattern <= s then Some(("", s[|pattern|..]))
    else if s == "" then None
    else
      var rest := Until(s[1..], pattern);
      if rest.None? then None else Some(([s[0]] + rest.value.0, rest.value.1))
  }

  datatype Disposed = Disposed(name: string, filename: Option<string>, extended: Option<Octets>)

  /** What is read of a part: its name and filename as they were quoted, its type and its content. */
  datatype ReadPart = ReadPart(disposed: Disposed, mediaType: string, content: string)

  function After(s: string, prefix: string): Option<string> {
    if prefix <= s then Some(s[|prefix|..]) else None
  }

  function ReadDisposition(line: string): Option<Disposed> {
    var named := After(line, NAME);
    if named.None? then None
    else
      var name := Until(named.value, ['"']);
      if name.None? then None
      else if name.value.1 == "" then Some(Disposed(name.value.0, None, None))
      else
        var filed := After(name.value.1, FILENAME);
        if filed.None? then None
        else
          var filename := Until(filed.value, ['"']);
          if filename.None? then None
          else if filename.value.1 == "" then Some(Disposed(name.value.0, Some(filename.value.0), None))
          else
            var extended := After(filename.value.1, EXTENDED);
            if extended.None? || Decode(extended.value).None? then None
            else Some(Disposed(name.value.0, Some(filename.value.0), Decode(extended.value)))
  }

  function ReadOne(text: string): Option<ReadPart> {
    var split := Until(text, CRLF + CRLF);
    if split.None? then None
    else
      var lines := Until(split.value.0, CRLF);
      if lines.None? then None
      else
        var disposed := ReadDisposition(lines.value.0);
        var mediaType := After(lines.value.1, TYPE);
        if disposed.None? || mediaType.None? then None
          else Some(ReadPart(disposed.value, mediaType.value, split.value.1))
  }

  /** The parts behind a boundary, until the one that closes. */
  function ReadAfter(s: string, boundary: string): Option<seq<ReadPart>>
    decreases |s|
  {
    if "--" <= s then Some([])
    else if !(CRLF <= s) then None
    else
      var next := Until(s[2..], Delimiter(boundary));
      if next.None? then None
      else
        var part := ReadOne(next.value.0);
        var rest := ReadAfter(next.value.1, boundary);
        if part.None? || rest.None? then None else Some([part.value] + rest.value)
  }

  function ReadBody(s: string, boundary: string): Option<seq<ReadPart>> {
    var rest := After(s, "--" + boundary);
    if rest.None? then None else ReadAfter(rest.value, boundary)
  }

  /** What a part reads as: the name with its quotes and line ends escaped, the filename whole. */
  function Reading(p: Part): ReadPart {
    ReadPart(
      match p.filename
      case None => Disposed(Quoted(p.name), None, None)
      case Some(f) =>
        if AllPrintable(f) then Disposed(Quoted(p.name), Some(Quoted(CharsOf(f))), None)
        else Disposed(Quoted(p.name), Some(Quoted(Fallback(f))), Some(f)),
      p.mediaType, p.content)
  }

  function Readings(parts: seq<Part>): (r: seq<ReadPart>)
    ensures |r| == |parts|
  {
    if parts == [] then [] else [Reading(parts[0])] + Readings(parts[1..])
  }

  predicate OneLine(s: string) {
    '\r' !in s && '\n' !in s
  }

  /** A boundary that occurs in no content, and types that are one line. */
  ghost predicate Writable(parts: seq<Part>, boundary: string) {
    OneLine(boundary) && forall p :: p in parts ==> OneLine(p.mediaType) && !Occurs(boundary, p.content)
  }

  predicate Occurs(pattern: string, s: string) {
    pattern <= s || (s != "" && Occurs(pattern, s[1..]))
  }

  lemma AfterPrefix(prefix: string, s: string)
    ensures After(prefix + s, prefix) == Some(s)
  {
    assert (prefix + s)[..|prefix|] == prefix && (prefix + s)[|prefix|..] == s;
  }

  /** One character that is not in the text before it. */
  lemma {:induction false} UntilChar(a: string, c: char, b: string)
    requires c !in a
    ensures Until(a + [c] + b, [c]) == Some((a, b))
  {
    var s := a + [c] + b;
    if a == "" {
      assert s[..1] == [c] && s[1..] == b;
    } else {
      assert s[0] == a[0] && s[0] != c && s[1..] == a[1..] + [c] + b;
      assert !([c] <= s);
      UntilChar(a[1..], c, b);
      assert [a[0]] + a[1..] == a;
    }
  }

  /** A pattern that starts with a line end, behind text without one. */
  lemma {:induction false} UntilLineEnd(a: string, pattern: string, b: string)
    requires OneLine(a) && pattern != "" && pattern[0] == '\r'
    ensures Until(a + pattern + b, pattern) == Some((a, b))
  {
    var s := a + pattern + b;
    if a == "" {
      assert s[..|pattern|] == pattern && s[|pattern|..] == b;
    } else {
      assert s[0] == a[0] && a[0] in a && s[1..] == a[1..] + pattern + b;
      assert !(pattern <= s);
      UntilLineEnd(a[1..], pattern, b);
      assert [a[0]] + a[1..] == a;
    }
  }

  lemma {:induction false} QuotedChars(s: string)
    ensures '"' !in Quoted(s) && OneLine(Quoted(s))
  {
    if s != "" { QuotedChars(s[1..]); }
  }

  /** Text without quotes and line ends is left as it is. */
  lemma {:induction false} QuotedExactly(s: string)
    ensures Quoted(s) == s <==> '"' !in s && OneLine(s)
  {
    QuotedChars(s);
    if s != "" && Quoted(s) != s {
      QuotedExactly(s[1..]);
      assert s == [s[0]] + s[1..];
    }
  }

  /** A reader that undoes the escapes. */
  function Unquoted(s: string): string {
    if s == "" then ""
    else if "%22" <= s then ['"'] + Unquoted(s[3..])
    else if "%0D" <= s then ['\r'] + Unquoted(s[3..])
    else if "%0A" <= s then ['\n'] + Unquoted(s[3..])
    else [s[0]] + Unquoted(s[1..])
  }

  /** The text begins like an escape. */
  predicate Escaping(s: string) {
    "%22" <= s || "%0D" <= s || "%0A" <= s
  }

  /** An escape stands in the text as it is. */
  predicate HoldsEscape(s: string) {
    s != "" && (Escaping(s) || HoldsEscape(s[1..]))
  }

  predicate Special(c: char) {
    c == '"' || c == '\r' || c == '\n'
  }

  lemma {:induction false} EscapingIs(s: string)
    ensures Escaping(s) <==>
      |s| >= 3 && s[0] == '%' && if s[1] == '2' then s[2] == '2' else s[1] == '0' && (s[2] == 'D' || s[2] == 'A')
  {
    if |s| >= 3 { assert s[..3] == [s[0], s[1], s[2]]; }
  }

  lemma {:induction false} QuotedStep(s: string)
    requires s != "" && !Special(s[0])
    ensures Quoted(s) == [s[0]] + Quoted(s[1..]) && (Escaping(Quoted(s)) <==> Escaping(s))
  {
    var q := Quoted(s);
    EscapingIs(s);
    EscapingIs(q);
    if |s| > 1 {
      QuotedSecond(s[1..]);
      assert q[1] == Quoted(s[1..])[0] && (|q| > 2 ==> q[2] == Quoted(s[1..])[1]);
      assert s[1..][0] == s[1] && (|s| > 2 ==> s[1..][1] == s[2]);
    } else {
      assert s[1..] == "" && Quoted("") == "";
    }
  }

  /** The first two characters of quoted text, where they are no escape's. */
  lemma QuotedSecond(s: string)
    requires s != ""
    ensures Quoted(s) != "" && (Quoted(s)[0] == if Special(s[0]) then '%' else s[0])
    ensures !Special(s[0]) && |s| > 1 ==>
      |Quoted(s)| > 1 && (Quoted(s)[1] == if Special(s[1]) then '%' else s[1])
    ensures !Special(s[0]) && |s| == 1 ==> |Quoted(s)| == 1
  {
    if |s| > 1 { assert s[1..][0] == s[1]; }
  }

  lemma UnquotedSpecial(s: string)
    requires s != "" && Special(s[0])
    ensures Unquoted(Quoted(s)) == [s[0]] + Unquoted(Quoted(s[1..]))
  {
    var q := Quoted(s);
    assert q[3..] == Quoted(s[1..]);
  }

  lemma UnquotedLength(s: string)
    requires s != "" && Escaping(s)
    ensures |Unquoted(Quoted(s))| == 1 + |Unquoted(Quoted(s[3..]))|
  {
    QuotedStep(s);
    QuotedStep(s[1..]);
    QuotedStep(s[2..]);
    assert s[1..][1..] == s[2..] && s[2..][1..] == s[3..];
    assert Quoted(s) == [s[0], s[1], s[2]] + Quoted(s[3..]);
    assert Quoted(s)[3..] == Quoted(s[3..]);
  }

  /** The escapes are undone, and nothing else, exactly when none stood in the text already. */
  lemma {:induction false} UnquotedExactly(s: string)
    ensures |Unquoted(Quoted(s))| <= |s| && (HoldsEscape(s) ==> |Unquoted(Quoted(s))| < |s|)
    ensures Unquoted(Quoted(s)) == s <==> !HoldsEscape(s)
    decreases |s|
  {
    if s != "" {
      UnquotedExactly(s[1..]);
      assert s == [s[0]] + s[1..];
      if Special(s[0]) {
        UnquotedSpecial(s);
      } else if Escaping(s) {
        UnquotedLength(s);
        UnquotedExactly(s[3..]);
      } else {
        QuotedStep(s);
        assert Quoted(s)[1..] == Quoted(s[1..]);
      }
    }
  }

  lemma EncodedOneLine(f: Octets)
    ensures OneLine(Encode(f))
  {
    EncodedChars(f);
  }

  lemma OneLineJoin(a: string, b: string)
    requires OneLine(a) && OneLine(b)
    ensures OneLine(a + b)
  {
  }

  lemma FilenameOneLine(filename: Option<Octets>)
    ensures OneLine(FilenameText(filename))
  {
    if filename.Some? {
      var f := filename.value;
      var text := Quoted(if AllPrintable(f) then CharsOf(f) else Fallback(f));
      var more := if AllPrintable(f) then "" else EXTENDED + Encode(f);
      QuotedChars(if AllPrintable(f) then CharsOf(f) else Fallback(f));
      EncodedOneLine(f);
      OneLineJoin(EXTENDED, Encode(f));
      OneLineJoin(text, ['"']);
      OneLineJoin(text + ['"'], more);
      OneLineJoin(FILENAME, text + ['"'] + more);
    }
  }

  lemma DispositionOneLine(p: Part)
    ensures OneLine(Disposition(p))
  {
    QuotedChars(p.name);
    FilenameOneLine(p.filename);
    OneLineJoin(Quoted(p.name), ['"']);
    OneLineJoin(Quoted(p.name) + ['"'], FilenameText(p.filename));
    OneLineJoin(NAME, Quoted(p.name) + ['"'] + FilenameText(p.filename));
  }

  lemma DispositionReadsBack(p: Part)
    ensures ReadDisposition(Disposition(p)) == Some(Reading(p).disposed)
  {
    var tail := FilenameText(p.filename);
    AfterPrefix(NAME, Quoted(p.name) + ['"'] + tail);
    QuotedChars(p.name);
    UntilChar(Quoted(p.name), '"', tail);
    if p.filename.Some? {
      var f := p.filename.value;
      var text := Quoted(if AllPrintable(f) then CharsOf(f) else Fallback(f));
      var more := if AllPrintable(f) then "" else EXTENDED + Encode(f);
      QuotedChars(CharsOf(f));
      QuotedChars(Fallback(f));
      AfterPrefix(FILENAME, text + ['"'] + more);
      UntilChar(text, '"', more);
      AfterPrefix(EXTENDED, Encode(f));
      DecodeEncode(f);
    }
  }

  lemma PartReadsBack(p: Part)
    requires OneLine(p.mediaType)
    ensures ReadOne(PartText(p)) == Some(Reading(p))
  {
    var line, kind := Disposition(p), TYPE + p.mediaType;
    DispositionOneLine(p);
    DispositionReadsBack(p);
    AfterPrefix(TYPE, p.mediaType);
    HeadersEnd(line, kind, p.content);
    UntilLineEnd(line, CRLF, kind);
  }

  /** The first empty line ends the headers. */
  lemma HeadersEnd(line: string, kind: string, content: string)
    requires OneLine(line) && OneLine(kind) && kind != ""
    ensures Until(line + CRLF + kind + (CRLF + CRLF) + content, CRLF + CRLF) == Some((line + CRLF + kind, content))
  {
    var rest := kind + (CRLF + CRLF) + content;
    UntilLineEnd(kind, CRLF + CRLF, content);
    LineEndsOnce(rest, kind + (CRLF + CRLF) + content);
    var split := Until(rest, CRLF + CRLF);
    SkipLine(line, rest, kind, content);
    assert line + CRLF + kind + (CRLF + CRLF) + content == line + (CRLF + rest);
  }

  lemma LineEndsOnce(s: string, t: string)
    requires s == t && s != "" && s[0] != '\r'
    ensures Until(CRLF + s, CRLF + CRLF) ==
      var rest := Until(s, CRLF + CRLF); if rest.None? then None else Some((CRLF + rest.value.0, rest.value.1))
  {
    var u := CRLF + s;
    assert u[1..] == ['\n'] + s && u[1..][1..] == s;
    assert u[2] == s[0];
    NotPrefix(CRLF + CRLF, u, 2);
    NotPrefix(CRLF + CRLF, u[1..], 0);
    var rest := Until(s, CRLF + CRLF);
    if rest.Some? { assert ['\r'] + (['\n'] + rest.value.0) == CRLF + rest.value.0; }
  }

  lemma {:induction false} SkipLine(line: string, rest: string, kind: string, content: string)
    requires OneLine(line) && rest != "" && rest[0] != '\r' && Until(rest, CRLF + CRLF) == Some((kind, content))
    ensures Until(line + (CRLF + rest), CRLF + CRLF) == Some((line + CRLF + kind, content))
  {
    var s := line + (CRLF + rest);
    if line == "" {
      assert s == CRLF + rest;
      LineEndsOnce(rest, rest);
      assert "" + CRLF + kind == CRLF + kind;
    } else {
      assert s[0] == line[0] && line[0] in line && s[1..] == line[1..] + (CRLF + rest);
      assert !(CRLF + CRLF <= s);
      SkipLine(line[1..], rest, kind, content);
      assert [line[0]] + (line[1..] + CRLF + kind) == line + CRLF + kind;
    }
  }

  lemma DelimiterStarts(boundary: string)
    ensures Delimiter(boundary)[..4] == ['\r', '\n', '-', '-'] && Delimiter(boundary)[4..] == boundary
  {
  }

  /** A delimiter never lies across the end of the text before it: a boundary holds no line end. */
  lemma NoStraddle(a: string, boundary: string, rest: string)
    requires a != "" && OneLine(boundary) && !(Delimiter(boundary) <= a)
    ensures !(Delimiter(boundary) <= a + Delimiter(boundary) + rest)
  {
    var d := Delimiter(boundary);
    var s := a + d + rest;
    DelimiterStarts(boundary);
    assert s[|a|] == '\r' && s[..|a|] == a;
    if |a| < |d| {
      assert d[|a|] != '\r' by {
        if |a| >= 4 { assert d[|a|] == d[4..][|a| - 4]; }
      }
      NotPrefix(d, s, |a|);
    } else {
      assert s[..|d|] == a[..|d|];
    }
  }

  lemma {:induction false} UntilDelimiter(a: string, boundary: string, rest: string)
    requires OneLine(boundary) && !Occurs(Delimiter(boundary), a)
    ensures Until(a + Delimiter(boundary) + rest, Delimiter(boundary)) == Some((a, rest))
  {
    var d := Delimiter(boundary);
    var s := a + d + rest;
    if a == "" {
      assert s[..|d|] == d && s[|d|..] == rest;
    } else {
      NoStraddle(a, boundary, rest);
      assert s[0] == a[0] && s[1..] == a[1..] + d + rest;
      UntilDelimiter(a[1..], boundary, rest);
      assert [a[0]] + a[1..] == a;
    }
  }

  lemma {:induction false} BehindLine(line: string, rest: string, d: string)
    requires OneLine(line) && d != "" && d[0] == '\r' && !Occurs(d, rest)
    ensures !Occurs(d, line + rest)
  {
    if line == "" {
      assert line + rest == rest;
    } else {
      assert (line + rest)[0] == line[0] && line[0] in line && (line + rest)[1..] == line[1..] + rest;
      NotPrefix(d, line + rest, 0);
      BehindLine(line[1..], rest, d);
    }
  }

  lemma BehindLineEnd(rest: string, d: string)
    requires d != "" && d[0] == '\r' && !(d <= CRLF + rest) && !Occurs(d, rest)
    ensures !Occurs(d, CRLF + rest)
  {
    var s := CRLF + rest;
    assert s[1..] == ['\n'] + rest && s[1..][1..] == rest;
    NotPrefix(d, s[1..], 0);
  }

  lemma {:induction false} NoBoundaryNoDelimiter(content: string, boundary: string)
    requires !Occurs(boundary, content)
    ensures !Occurs(Delimiter(boundary), content) && !(Delimiter(boundary) <= CRLF + content)
  {
    var d := Delimiter(boundary);
    DelimiterStarts(boundary);
    if d <= CRLF + content { BoundaryWithin(content, boundary); }
    if d <= content {
      assert content[4..][..|boundary|] == boundary;
      assert boundary <= content[4..];
      OccursLater(content, boundary, 4);
    }
    if content != "" { NoBoundaryNoDelimiter(content[1..], boundary); }
  }

  lemma BoundaryWithin(content: string, boundary: string)
    requires Delimiter(boundary) <= CRLF + content
    ensures Occurs(boundary, content)
  {
    var s := CRLF + content;
    DelimiterStarts(boundary);
    assert s[4..] == content[2..];
    assert s[4..][..|boundary|] == boundary;
    OccursLater(content, boundary, 2);
  }

  lemma {:induction false} OccursLater(s: string, pattern: string, n: nat)
    requires n <= |s| && pattern <= s[n..]
    ensures Occurs(pattern, s)
  {
    if n == 0 {
      assert s[0..] == s;
    } else {
      assert s[1..][n - 1..] == s[n..];
      OccursLater(s[1..], pattern, n - 1);
    }
  }

  /** A line end that the next text does not continue into a delimiter. */
  lemma BehindPlainLineEnd(rest: string, d: string)
    requires |d| > 2 && d[0] == '\r' && d[2] == '-' && rest != "" && rest[0] != '-' && !Occurs(d, rest)
    ensures !Occurs(d, CRLF + rest)
  {
    assert (CRLF + rest)[2] == rest[0];
    NotPrefix(d, CRLF + rest, 2);
    BehindLineEnd(rest, d);
  }

  lemma HeadersClear(line: string, kind: string, tail: string, d: string)
    requires OneLine(line) && OneLine(kind) && kind != "" && kind[0] != '-'
    requires |d| > 2 && d[0] == '\r' && d[2] == '-' && !Occurs(d, tail)
    ensures !Occurs(d, line + (CRLF + (kind + tail)))
  {
    BehindLine(kind, tail, d);
    assert (kind + tail)[0] == kind[0];
    BehindPlainLineEnd(kind + tail, d);
    BehindLine(line, CRLF + (kind + tail), d);
  }

  lemma EmptyLineClear(content: string, boundary: string)
    requires !Occurs(boundary, content)
    ensures !Occurs(Delimiter(boundary), CRLF + (CRLF + content))
  {
    var d := Delimiter(boundary);
    DelimiterStarts(boundary);
    NoBoundaryNoDelimiter(content, boundary);
    BehindLineEnd(content, d);
    BehindPlainLineEnd(CRLF + content, d);
  }

  /** No delimiter lies in a part's own text. */
  lemma PartClear(p: Part, boundary: string)
    requires OneLine(boundary) && OneLine(p.mediaType) && !Occurs(boundary, p.content)
    ensures !Occurs(Delimiter(boundary), PartText(p))
  {
    var line, kind := Disposition(p), TYPE + p.mediaType;
    DelimiterStarts(boundary);
    DispositionOneLine(p);
    OneLineJoin(TYPE, p.mediaType);
    EmptyLineClear(p.content, boundary);
    assert TYPE[0] == 'C' && kind[0] == TYPE[0];
    HeadersClear(line, kind, CRLF + (CRLF + p.content), Delimiter(boundary));
    PartRegroups(line, kind, p.content);
  }

  lemma PartRegroups(line: string, kind: string, content: string)
    ensures line + CRLF + kind + (CRLF + CRLF) + content == line + (CRLF + (kind + (CRLF + (CRLF + content))))
  {
  }

  /** The parts are read back, all of them, in order, with their contents octet for octet. */
  lemma {:induction false} AfterReadsBack(parts: seq<Part>, boundary: string)
    requires Writable(parts, boundary)
    ensures ReadAfter(AfterBoundary(parts, boundary), boundary) == Some(Readings(parts))
  {
    var s := AfterBoundary(parts, boundary);
    if parts == [] {
      assert s[..2] == "--";
    } else {
      assert parts[0] in parts;
      AfterReadsBack(parts[1..], boundary);
      var text, rest := PartText(parts[0]), AfterBoundary(parts[1..], boundary);
      NotPrefix("--", s, 0);
      assert s[..2] == CRLF && s[2..] == text + Delimiter(boundary) + rest;
      PartClear(parts[0], boundary);
      UntilDelimiter(text, boundary, rest);
      PartReadsBack(parts[0]);
    }
  }

  lemma BodyReadsBack(parts: seq<Part>, boundary: string)
    requires Writable(parts, boundary)
    ensures ReadBody(BodyText(parts, boundary), boundary) == Some(Readings(parts))
  {
    AfterPrefix("--" + boundary, AfterBoundary(parts, boundary));
    AfterReadsBack(parts, boundary);
  }

  // When a part is read as it was given.

  /** A part as a reader would have it: its name, its filename or the fallback, and its filename's octets. */
  function Itself(p: Part): ReadPart {
    ReadPart(
      match p.filename
      case None => Disposed(p.name, None, None)
      case Some(f) =>
        if AllPrintable(f) then Disposed(p.name, Some(CharsOf(f)), None)
        else Disposed(p.name, Some(Fallback(f)), Some(f)),
      p.mediaType, p.content)
  }

  function Themselves(parts: seq<Part>): (r: seq<ReadPart>)
    ensures |r| == |parts|
  {
    if parts == [] then [] else [Itself(parts[0])] + Themselves(parts[1..])
  }

  /** No quote and no line end in the name, and no quote in the filename. */
  predicate Unescaped(p: Part) {
    '"' !in p.name && OneLine(p.name) && (p.filename.Some? ==> 34 !in p.filename.value)
  }

  lemma {:induction false} CharsClean(f: Octets)
    requires AllPrintable(f)
    ensures ('"' in CharsOf(f) <==> 34 in f) && OneLine(CharsOf(f))
  {
    if f != [] {
      assert f == [f[0]] + f[1..] && f[0] in f;
      CharsClean(f[1..]);
    }
  }

  lemma {:induction false} FallbackClean(f: Octets)
    ensures ('"' in Fallback(f) <==> 34 in f) && OneLine(Fallback(f))
  {
    if f != [] {
      assert f == [f[0]] + f[1..];
      FallbackClean(f[1..]);
    }
  }

  lemma PartIsItselfExactly(p: Part)
    ensures Reading(p) == Itself(p) <==> Unescaped(p)
  {
    QuotedExactly(p.name);
    if p.filename.Some? {
      var f := p.filename.value;
      FallbackClean(f);
      QuotedExactly(Fallback(f));
      if AllPrintable(f) {
        CharsClean(f);
        QuotedExactly(CharsOf(f));
      }
    }
  }

  lemma {:induction false} PartsThemselvesExactly(parts: seq<Part>)
    ensures Readings(parts) == Themselves(parts) <==> forall p :: p in parts ==> Unescaped(p)
  {
    if parts != [] {
      assert parts == [parts[0]] + parts[1..];
      assert Readings(parts)[1..] == Readings(parts[1..]) && Themselves(parts)[1..] == Themselves(parts[1..]);
      PartsThemselvesExactly(parts[1..]);
      PartIsItselfExactly(parts[0]);
    }
  }

  /** The body reads back as the parts that were given exactly when no name or filename needed an escape. */
  lemma BodyIsItselfExactly(parts: seq<Part>, boundary: string)
    requires Writable(parts, boundary)
    ensures ReadBody(BodyText(parts, boundary), boundary) == Some(Themselves(parts))
      <==> forall p :: p in parts ==> Unescaped(p)
  {
    BodyReadsBack(parts, boundary);
    PartsThemselvesExactly(parts);
  }

  /** Everything the loop has written before the closing boundary. */
  function Chunks(parts: seq<Part>, boundary: string): string {
    if parts == [] then ""
    else Chunks(parts[..|parts| - 1], boundary) + ("--" + boundary + CRLF + PartText(parts[|parts| - 1]) + CRLF)
  }

  lemma ChunkJoins(chunks: string, dashed: string, text: string, end: string)
    ensures chunks + (dashed + CRLF + text + CRLF) + (dashed + end)
      == chunks + (dashed + (CRLF + (text + (CRLF + dashed) + end)))
  {
    assert dashed + CRLF + text + CRLF + (dashed + end) == dashed + (CRLF + (text + (CRLF + dashed) + end));
  }

  lemma {:induction false} ChunksAre(parts: seq<Part>, boundary: string, end: string)
    ensures Chunks(parts, boundary) + ("--" + boundary + end) == "--" + boundary + Behind(parts, boundary, end)
  {
    if parts == [] {
      assert "" + ("--" + boundary + end) == "--" + boundary + end;
    } else {
      var init, last := parts[..|parts| - 1], parts[|parts| - 1];
      var more := CRLF + (PartText(last) + Delimiter(boundary) + end);
      assert parts == init + [last];
      ChunkJoins(Chunks(init, boundary), "--" + boundary, PartText(last), end);
      assert CRLF + "--" + boundary == CRLF + ("--" + boundary);
      ChunksAre(init, boundary, more);
      BehindSnoc(init, last, boundary, end);
    }
  }

  /** What follows the first boundary, up to an end. */
  function Behind(parts: seq<Part>, boundary: string, end: string): string {
    if parts == [] then end else CRLF + (PartText(parts[0]) + Delimiter(boundary) + Behind(parts[1..], boundary, end))
  }

  lemma {:induction false} BehindSnoc(parts: seq<Part>, last: Part, boundary: string, end: string)
    ensures Behind(parts + [last], boundary, end)
         == Behind(parts, boundary, CRLF + (PartText(last) + Delimiter(boundary) + end))
  {
    if parts == [] {
      assert [last][1..] == [] && parts + [last] == [last];
    } else {
      assert (parts + [last])[1..] == parts[1..] + [last];
      BehindSnoc(parts[1..], last, boundary, end);
    }
  }

  lemma {:induction false} BehindCloses(parts: seq<Part>, boundary: string)
    ensures Behind(parts, boundary, "--" + CRLF) == AfterBoundary(parts, boundary)
  {
    if parts != [] { BehindCloses(parts[1..], boundary); }
  }

  /** The multipart branch of `writeBody`: chunks pushed part by part. */
  method WriteMultipart(parts: seq<Part>, boundary: string) returns (body: string)
    ensures body == BodyText(parts, boundary)
    ensures Writable(parts, boundary) ==> ReadBody(body, boundary) == Some(Readings(parts))
  {
    var chunks := "";
    for i := 0 to |parts|
      invariant chunks == Chunks(parts[..i], boundary)
    {
      assert parts[..i + 1][..i] == parts[..i];
      chunks := chunks + ("--" + boundary + CRLF + PartText(parts[i]) + CRLF);
    }
    assert parts[..|parts|] == parts;
    body := chunks + ("--" + boundary + ("--" + CRLF));
    ChunksAre(parts, boundary, "--" + CRLF);
    BehindCloses(parts, boundary);
    if Writable(parts, boundary) { BodyReadsBack(parts, boundary); }
  }
}
