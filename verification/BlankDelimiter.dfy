/** Space-delimited arrays: the delimiter is an escape, so an item that holds a space is read as two. */
module BlankDelimiter {
  import opened Wrappers
  import opened PercentCoding
  import opened QueryText

  predicate StartsBlank(s: string) {
    |s| >= 3 && s[0] == '%' && s[1] == '2' && s[2] == '0'
  }

  /** The pieces between `%20`. */
  function SplitBlank(s: string): (r: seq<string>)
    ensures r != []
  {
    if s == "" then [""]
    else if StartsBlank(s) then [""] + SplitBlank(s[3..])
    else
      var rest := SplitBlank(s[1..]);
      [[s[0]] + rest[0]] + rest[1..]
  }

  /** Text in front of the first piece. */
  function Glue(text: string, pieces: seq<string>): (r: seq<string>)
    requires pieces != []
    ensures |r| == |pieces|
  {
    [text + pieces[0]] + pieces[1..]
  }

  lemma GlueTwice(a: string, b: string, pieces: seq<string>)
    requires pieces != []
    ensures Glue(a, Glue(b, pieces)) == Glue(a + b, pieces)
  {
    assert a + (b + pieces[0]) == a + b + pieces[0];
  }

  lemma GlueNothing(pieces: seq<string>)
    requires pieces != []
    ensures Glue("", pieces) == pieces
  {
    assert "" + pieces[0] == pieces[0];
  }

  const BLANK: Octet := 32

  function Blanks(v: Octets): nat {
    if v == [] then 0 else (if v[0] == BLANK then 1 else 0) + Blanks(v[1..])
  }

  lemma BlankEscape()
    ensures Escape(BLANK) == ['%', '2', '0'] && !Unreserved(CharOf(BLANK)) && !Kept(CharOf(BLANK))
  {
  }

  /** The characters of one octet stay in one piece, unless it is a space. */
  lemma SplitWritten(b: Octet, keep: bool, rest: string)
    ensures SplitBlank(Written(b, keep) + rest) == if b == BLANK then [""] + SplitBlank(rest)
      else Glue(Written(b, keep), SplitBlank(rest))
  {
    var s := Written(b, keep) + rest;
    BlankEscape();
    if Unreserved(CharOf(b)) || (keep && Kept(CharOf(b))) {
      assert s[1..] == rest;
    } else if b == BLANK {
      assert s[3..] == rest;
    } else {
      SplitEscape(b, rest);
    }
  }

  lemma SplitChar(c: char, rest: string)
    requires !StartsBlank([c] + rest)
    ensures SplitBlank([c] + rest) == Glue([c], SplitBlank(rest))
  {
    assert ([c] + rest)[1..] == rest;
  }

  lemma SplitEscape(b: Octet, rest: string)
    requires b != BLANK
    ensures SplitBlank(Escape(b) + rest) == Glue(Escape(b), SplitBlank(rest))
  {
    var high, low := Hex(b as int / 16), Hex(b as int % 16);
    HexBack(b as int / 16);
    HexBack(b as int % 16);
    assert Escape(b) + rest == ['%'] + ([high] + ([low] + rest));
    assert !StartsBlank(Escape(b) + rest);
    SplitChar('%', [high] + ([low] + rest));
    SplitChar(high, [low] + rest);
    SplitChar(low, rest);
    GlueTwice([high], [low], SplitBlank(rest));
    GlueTwice(['%'], [high] + [low], SplitBlank(rest));
    assert ['%'] + ([high] + [low]) == Escape(b);
  }

  lemma {:induction false} SplitItem(v: Octets, keep: bool, rest: string)
    requires Blanks(v) == 0
    ensures SplitBlank(WriteAll(v, keep) + rest) == Glue(WriteAll(v, keep), SplitBlank(rest))
  {
    if v == [] {
      assert "" + rest == rest;
      GlueNothing(SplitBlank(rest));
    } else {
      var first, more := Written(v[0], keep), WriteAll(v[1..], keep);
      SplitItem(v[1..], keep, rest);
      SplitWritten(v[0], keep, more + rest);
      assert first + more + rest == first + (more + rest);
      GlueTwice(first, more, SplitBlank(rest));
    }
  }

  lemma {:induction false} CountItem(v: Octets, keep: bool, rest: string)
    ensures |SplitBlank(WriteAll(v, keep) + rest)| == Blanks(v) + |SplitBlank(rest)|
  {
    if v == [] {
      assert "" + rest == rest;
    } else {
      var first, more := Written(v[0], keep), WriteAll(v[1..], keep);
      CountItem(v[1..], keep, rest);
      SplitWritten(v[0], keep, more + rest);
      assert first + more + rest == first + (more + rest);
    }
  }

  lemma BlankItem(v: Octets, keep: bool)
    ensures EncodeItem(v, keep, Blank) == WriteAll(v, keep)
  {
    EncodeWrites(v);
    KeepingWrites(v);
  }

  lemma SplitSeparator(rest: string)
    ensures SplitBlank(['%', '2', '0'] + rest) == [""] + SplitBlank(rest)
  {
    assert (['%', '2', '0'] + rest)[3..] == rest;
  }

  /** An item without spaces and a delimiter are one piece and what follows. */
  lemma SplitFirst(v: Octets, keep: bool, first: string, rest: string)
    requires Blanks(v) == 0 && first == WriteAll(v, keep)
    ensures SplitBlank(first + ['%', '2', '0'] + rest) == [first] + SplitBlank(rest)
  {
    SplitItem(v, keep, ['%', '2', '0'] + rest);
    SplitSeparator(rest);
    assert first + ['%', '2', '0'] + rest == first + (['%', '2', '0'] + rest);
    assert first + "" == first;
  }

  lemma SplitLast(v: Octets, keep: bool, first: string)
    requires Blanks(v) == 0 && first == WriteAll(v, keep)
    ensures SplitBlank(first) == [first]
  {
    SplitItem(v, keep, "");
    assert first + "" == first;
  }

  lemma {:induction false} SplitJoined(items: seq<Octets>, keep: bool)
    requires items != [] && forall v :: v in items ==> Blanks(v) == 0
    ensures SplitBlank(JoinBlank(EncodeItems(items, keep, Blank))) == EncodeItems(items, keep, Blank)
  {
    var texts := EncodeItems(items, keep, Blank);
    BlankItem(items[0], keep);
    assert items[0] in items;
    if |items| == 1 {
      SplitLast(items[0], keep, texts[0]);
    } else {
      SplitJoined(items[1..], keep);
      SplitFirst(items[0], keep, texts[0], JoinBlank(texts[1..]));
    }
  }

  lemma {:induction false} CountJoined(items: seq<Octets>, keep: bool, x: Octets)
    requires x in items
    ensures |SplitBlank(JoinBlank(EncodeItems(items, keep, Blank)))| >= |items| + Blanks(x)
  {
    var texts := EncodeItems(items, keep, Blank);
    BlankItem(items[0], keep);
    if |items| == 1 {
      CountItem(items[0], keep, "");
      assert texts[0] + "" == texts[0];
    } else {
      var rest := JoinBlank(texts[1..]);
      assert items == [items[0]] + items[1..];
      CountJoined(items[1..], keep, if x in items[1..] then x else items[1]);
      CountItem(items[0], keep, ['%', '2', '0'] + rest);
      SplitSeparator(rest);
      assert texts[0] + ['%', '2', '0'] + rest == texts[0] + (['%', '2', '0'] + rest);
    }
  }

  lemma {:induction false} DecodeAllLength(texts: seq<string>)
    ensures DecodeAll(texts).Some? ==> |DecodeAll(texts).value| == |texts|
  {
    if texts != [] { DecodeAllLength(texts[1..]); }
  }

  /** A space-delimited array reads back exactly when none of its items holds a space. */
  lemma BlankReadsBackExactly(items: seq<Octets>, keep: bool)
    requires items != []
    ensures DecodeAll(SplitBlank(JoinWith(EncodeItems(items, keep, Blank), Blank))) == Some(items)
      <==> forall v :: v in items ==> Blanks(v) == 0
  {
    if v :| v in items && Blanks(v) > 0 {
      CountJoined(items, keep, v);
      DecodeAllLength(SplitBlank(JoinWith(EncodeItems(items, keep, Blank), Blank)));
    } else {
      SplitJoined(items, keep);
      ItemsDecode(items, keep, Blank);
    }
  }
}
