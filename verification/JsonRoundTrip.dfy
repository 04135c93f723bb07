/** The reference parser reads every printed value back. */
module JsonRoundTrip {
  import opened Wrappers
  import opened JsonText

  /** What can follow a value: the end, a comma or a closing bracket. */
  predicate Stops(rest: string) {
    rest == "" || rest[0] == ',' || rest[0] == ']' || rest[0] == '}'
  }

  lemma HexBack(n: int)
    requires 0 <= n < 16
    ensures HexValue(HexDigit(n)) == Some(n)
  {
  }

  lemma ControlBack(c: char, rest: string)
    requires c < ' '
    ensures Escaped(['0', '0', HexDigit(c as int / 16), HexDigit(c as int % 16)] + rest) == Some((c, rest))
  {
    var n := c as int;
    var s := ['0', '0', HexDigit(n / 16), HexDigit(n % 16)] + rest;
    HexBack(n / 16);
    HexBack(n % 16);
    assert s[2] == HexDigit(n / 16) && s[3] == HexDigit(n % 16);
    assert Hex4(s) == Some(n);
    assert s[4..] == rest;
  }

  /** Each character is read back, whether it was escaped or not. */
  lemma CharBack(c: char, rest: string)
    ensures OneChar(CharTo(c, rest)) == Some((c, rest))
    ensures CharTo(c, rest)[0] != '"'
  {
    var s := CharTo(c, rest);
    if c == '"' || c == '\\' || c as int == 8 || c as int == 12 || c == '\n' || c == '\r' || c == '\t' {
      assert s[2..] == rest;
    } else if c < ' ' {
      ControlBack(c, rest);
      assert s[2..] == ['0', '0', HexDigit(c as int / 16), HexDigit(c as int % 16)] + rest;
    } else {
      assert s[1..] == rest;
    }
  }

  lemma {:induction false} CharsBack(chars: string, rest: string)
    ensures Chars(CharsTo(chars, rest)) == Some((chars, rest))
  {
    if chars == "" {
      assert (['"'] + rest)[1..] == rest;
    } else {
      CharBack(chars[0], CharsTo(chars[1..], rest));
      CharsBack(chars[1..], rest);
      assert [chars[0]] + chars[1..] == chars;
    }
  }

  lemma {:induction false} NumberRunStops(token: string, rest: string)
    requires NumberRun(token) == |token| && Stops(rest)
    ensures NumberRun(token + rest) == |token|
  {
    if token == "" {
      assert token + rest == rest;
    } else {
      assert (token + rest)[1..] == token[1..] + rest;
      NumberRunStops(token[1..], rest);
    }
  }

  lemma NumberBack(token: string, rest: string)
    requires NumberToken(token) && Stops(rest)
    ensures Value(token + rest) == Some((Number(token), rest))
    ensures NumberChar((token + rest)[0])
  {
    var s := token + rest;
    NumberRunStops(token, rest);
    assert s[..|token|] == token && s[|token|..] == rest;
    assert s[0] == token[0] && NumberChar(token[0]);
  }

  lemma WordBack(word: string, rest: string, v: Json)
    requires word != ""
    ensures Word(word + rest, word, v) == Some((v, rest))
  {
    assert (word + rest)[..|word|] == word && (word + rest)[|word|..] == rest;
  }

  /** No printed value starts with a space, a comma or a closing bracket. */
  lemma ValueStarts(v: Json, rest: string)
    requires Valid(v)
    ensures var s := ValueTo(v, rest); s != "" && !Space(s[0]) && s[0] != ']' && s[0] != '}'
  {
    if v.Number? {
      assert NumberRun(v.token) > 0;
    }
  }

  lemma SkipNone(s: string)
    requires s == "" || !Space(s[0])
    ensures Skip(s) == s
  {
  }

  /** Parsing undoes printing, whatever follows the value. */
  lemma {:induction false} ValueBack(v: Json, rest: string)
    requires Valid(v) && Stops(rest)
    ensures Value(ValueTo(v, rest)) == Some((v, rest))
    decreases v, 1
  {
    match v
    case Null => WordBack("null", rest, Null);
    case Bool(b) => WordBack(if b then "true" else "false", rest, v);
    case Number(token) => NumberBack(token, rest);
    case Str(chars) =>
      CharsBack(chars, rest);
      assert StringTo(chars, rest)[1..] == CharsTo(chars, rest);
    case Arr(items) => ArrayBack(v, rest);
    case Obj(members) => ObjectBack(v, rest);
  }

  lemma {:induction false} ArrayBack(v: Json, rest: string)
    requires v.Arr? && Valid(v) && Stops(rest)
    ensures Value(ValueTo(v, rest)) == Some((v, rest))
    decreases v, 0
  {
    var items := v.items;
    var s := ValueTo(v, rest);
    if items == [] {
      assert s[1..] == [']'] + rest;
      assert s[1..][1..] == rest;
    } else {
      assert s[1..] == ItemsTo(items, rest);
      ItemsStart(items, rest);
      SkipNone(s[1..]);
      ItemsBack(items, rest);
    }
  }

  lemma ObjectOpens(s: string, members: seq<Member>, rest: string)
    requires s != "" && s[0] == '{' && |s| > 1 && s[1] == '"' && Members(s[1..]) == Some((members, rest))
    ensures Value(s) == Some((Obj(members), rest))
  {
    SkipNone(s[1..]);
  }

  lemma {:induction false} ObjectBack(v: Json, rest: string)
    requires v.Obj? && Valid(v) && Stops(rest)
    ensures Value(ValueTo(v, rest)) == Some((v, rest))
    decreases v, 0
  {
    var members := v.members;
    var s := ValueTo(v, rest);
    if members == [] {
      assert s[1..] == ['}'] + rest;
      assert s[1..][1..] == rest;
    } else {
      assert s[1..] == MembersTo(members, rest);
      MembersBack(members, rest);
      ObjectOpens(s, members, rest);
    }
  }

  lemma ItemsStart(items: seq<Json>, rest: string)
    requires items != [] && forall i :: 0 <= i < |items| ==> Valid(items[i])
    ensures var s := ItemsTo(items, rest); s != "" && !Space(s[0]) && s[0] != ']'
  {
    ValueStarts(items[0], if |items| == 1 then [']'] + rest else [','] + ItemsTo(items[1..], rest));
  }

  lemma {:induction false} ItemsBack(items: seq<Json>, rest: string)
    requires items != [] && forall i :: 0 <= i < |items| ==> Valid(items[i])
    ensures Items(ItemsTo(items, rest)) == Some((items, rest))
    decreases items, 1
  {
    var tail := if |items| == 1 then [']'] + rest else [','] + ItemsTo(items[1..], rest);
    ValueBack(items[0], tail);
    SkipNone(tail);
    if |items| == 1 {
      assert tail[1..] == rest;
      assert items == [items[0]];
    } else {
      assert tail[1..] == ItemsTo(items[1..], rest);
      ItemsStart(items[1..], rest);
      SkipNone(tail[1..]);
      ItemsBack(items[1..], rest);
      assert items == [items[0]] + items[1..];
    }
  }

  lemma {:induction false} MemberBack(m: Member, rest: string)
    requires Valid(m.value) && Stops(rest)
    ensures OneMember(StringTo(m.key, [':'] + ValueTo(m.value, rest))) == Some((m, rest))
    decreases m, 0
  {
    var after := [':'] + ValueTo(m.value, rest);
    var s := StringTo(m.key, after);
    assert s[1..] == CharsTo(m.key, after);
    CharsBack(m.key, after);
    SkipNone(after);
    assert after[1..] == ValueTo(m.value, rest);
    ValueStarts(m.value, rest);
    SkipNone(after[1..]);
    ValueBack(m.value, rest);
  }

  lemma MembersEnd(s: string, first: Member, tail: string, rest: string)
    requires OneMember(s) == Some((first, tail)) && tail == ['}'] + rest
    ensures Members(s) == Some(([first], rest))
  {
    assert tail[0] == '}' && tail[1..] == rest;
    SkipNone(tail);
  }

  lemma MembersGoOn(s: string, first: Member, tail: string, next: string, more: seq<Member>, rest: string)
    requires OneMember(s) == Some((first, tail)) && tail == [','] + next
    requires next != "" && !Space(next[0]) && Members(next) == Some((more, rest))
    ensures Members(s) == Some(([first] + more, rest))
  {
    assert tail[0] == ',' && tail[1..] == next;
    SkipNone(tail);
    SkipNone(next);
  }

  lemma {:induction false} MembersBack(members: seq<Member>, rest: string)
    requires members != [] && forall i :: 0 <= i < |members| ==> Valid(members[i].value)
    ensures Members(MembersTo(members, rest)) == Some((members, rest))
    decreases members, 1
  {
    var s := MembersTo(members, rest);
    if |members| == 1 {
      MemberBack(members[0], ['}'] + rest);
      MembersEnd(s, members[0], ['}'] + rest, rest);
      assert members == [members[0]];
    } else {
      var next := MembersTo(members[1..], rest);
      MemberBack(members[0], [','] + next);
      MembersBack(members[1..], rest);
      MembersGoOn(s, members[0], [','] + next, next, members[1..], rest);
      assert members == [members[0]] + members[1..];
    }
  }

  /** `parse(stringify(v)) == v`. */
  lemma ParseStringified(v: Json)
    requires Valid(v)
    ensures Parse(Stringified(v)) == Some(v)
  {
    ValueStarts(v, "");
    SkipNone(Stringified(v));
    ValueBack(v, "");
  }
}
