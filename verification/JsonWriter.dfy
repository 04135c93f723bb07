/** The canonical writer: a builder appended to, member by member. */
module JsonWriter {
  import opened JsonText

  /** The text of items with commas between them. */
  function Joined(items: seq<Json>): string
    requires items != []
  {
    if |items| == 1 then Stringified(items[0]) else Stringified(items[0]) + [','] + Joined(items[1..])
  }

  function MemberText(m: Member): string {
    StringTo(m.key, [':'] + Stringified(m.value))
  }

  function JoinedMembers(members: seq<Member>): string
    requires members != []
  {
    if |members| == 1 then MemberText(members[0]) else MemberText(members[0]) + [','] + JoinedMembers(members[1..])
  }

  lemma {:induction false} CharsAppend(chars: string, a: string, b: string)
    ensures CharsTo(chars, a + b) == CharsTo(chars, a) + b
  {
    if chars == "" {
      assert ['"'] + (a + b) == ['"'] + a + b;
    } else {
      CharsAppend(chars[1..], a, b);
      CharAppend(chars[0], CharsTo(chars[1..], a), b);
    }
  }

  lemma CharAppend(c: char, a: string, b: string)
    ensures CharTo(c, a + b) == CharTo(c, a) + b
  {
  }

  lemma StringAppend(chars: string, a: string, b: string)
    ensures StringTo(chars, a + b) == StringTo(chars, a) + b
  {
    CharsAppend(chars, a, b);
    assert ['"'] + (CharsTo(chars, a) + b) == ['"'] + CharsTo(chars, a) + b;
  }

  /** A value's text is the same whatever follows it. */
  lemma {:induction false} ValueAppend(v: Json, a: string, b: string)
    ensures ValueTo(v, a + b) == ValueTo(v, a) + b
    decreases v, 0
  {
    match v
    case Null => assert "null" + (a + b) == "null" + a + b;
    case Bool(x) => assert (if x then "true" else "false") + (a + b) == (if x then "true" else "false") + a + b;
    case Number(token) => assert token + (a + b) == token + a + b;
    case Str(chars) => StringAppend(chars, a, b);
    case Arr(items) =>
      if items == [] {
        assert ['['] + ([']'] + (a + b)) == ['['] + ([']'] + a) + b;
      } else {
        ItemsAppend(items, a, b);
        assert ['['] + (ItemsTo(items, a) + b) == ['['] + ItemsTo(items, a) + b;
      }
    case Obj(members) =>
      if members == [] {
        assert ['{'] + (['}'] + (a + b)) == ['{'] + (['}'] + a) + b;
      } else {
        MembersAppend(members, a, b);
        assert ['{'] + (MembersTo(members, a) + b) == ['{'] + MembersTo(members, a) + b;
      }
  }

  lemma {:induction false} ItemsAppend(items: seq<Json>, a: string, b: string)
    requires items != []
    ensures ItemsTo(items, a + b) == ItemsTo(items, a) + b
    decreases items, 1
  {
    if |items| == 1 {
      assert [']'] + (a + b) == ([']'] + a) + b;
      ValueAppend(items[0], [']'] + a, b);
    } else {
      ItemsAppend(items[1..], a, b);
      assert [','] + (ItemsTo(items[1..], a) + b) == ([','] + ItemsTo(items[1..], a)) + b;
      ValueAppend(items[0], [','] + ItemsTo(items[1..], a), b);
    }
  }

  lemma {:induction false} MembersAppend(members: seq<Member>, a: string, b: string)
    requires members != []
    ensures MembersTo(members, a + b) == MembersTo(members, a) + b
    decreases members, 1
  {
    var m := members[0];
    if |members| == 1 {
      assert ['}'] + (a + b) == (['}'] + a) + b;
      MemberAppend(m, ['}'] + a, b);
    } else {
      MembersAppend(members[1..], a, b);
      assert [','] + (MembersTo(members[1..], a) + b) == ([','] + MembersTo(members[1..], a)) + b;
      MemberAppend(m, [','] + MembersTo(members[1..], a), b);
    }
  }

  lemma {:induction false} MemberAppend(m: Member, a: string, b: string)
    ensures StringTo(m.key, [':'] + ValueTo(m.value, a + b)) == StringTo(m.key, [':'] + ValueTo(m.value, a)) + b
    decreases m, 0
  {
    ValueAppend(m.value, a, b);
    assert [':'] + (ValueTo(m.value, a) + b) == ([':'] + ValueTo(m.value, a)) + b;
    StringAppend(m.key, [':'] + ValueTo(m.value, a), b);
  }

  lemma ValueThen(v: Json, rest: string)
    ensures ValueTo(v, rest) == Stringified(v) + rest
  {
    ValueAppend(v, "", rest);
    assert "" + rest == rest;
  }

  lemma MemberThen(m: Member, rest: string)
    ensures StringTo(m.key, [':'] + ValueTo(m.value, rest)) == MemberText(m) + rest
  {
    MemberAppend(m, "", rest);
    assert "" + rest == rest;
  }

  lemma {:induction false} ItemsJoined(items: seq<Json>, rest: string)
    requires items != []
    ensures ItemsTo(items, rest) == Joined(items) + ([']'] + rest)
  {
    if |items| == 1 {
      ValueThen(items[0], [']'] + rest);
    } else {
      ItemsJoined(items[1..], rest);
      ValueThen(items[0], [','] + ItemsTo(items[1..], rest));
      var first, more, end := Stringified(items[0]), Joined(items[1..]), [']'] + rest;
      assert first + ([','] + (more + end)) == first + [','] + more + end;
    }
  }

  lemma {:induction false} MembersJoined(members: seq<Member>, rest: string)
    requires members != []
    ensures MembersTo(members, rest) == JoinedMembers(members) + (['}'] + rest)
  {
    if |members| == 1 {
      MemberThen(members[0], ['}'] + rest);
    } else {
      MembersJoined(members[1..], rest);
      MemberThen(members[0], [','] + MembersTo(members[1..], rest));
      var first, more, end := MemberText(members[0]), JoinedMembers(members[1..]), ['}'] + rest;
      assert first + ([','] + (more + end)) == first + [','] + more + end;
    }
  }

  lemma {:induction false} JoinedNext(items: seq<Json>, i: nat)
    requires 0 < i < |items|
    ensures Joined(items[..i + 1]) == Joined(items[..i]) + [','] + Stringified(items[i])
  {
    if i > 1 {
      assert items[..i + 1][1..] == items[1..][..i] && items[..i][1..] == items[1..][..i - 1];
      JoinedNext(items[1..], i - 1);
      var first, more, last := Stringified(items[0]), Joined(items[1..][..i - 1]), Stringified(items[i]);
      assert first + [','] + (more + [','] + last) == first + [','] + more + [','] + last;
    } else {
      assert items[..2][1..] == [items[1]] && items[..1] == [items[0]];
    }
  }

  lemma {:induction false} JoinedMembersNext(members: seq<Member>, i: nat)
    requires 0 < i < |members|
    ensures JoinedMembers(members[..i + 1]) == JoinedMembers(members[..i]) + [','] + MemberText(members[i])
  {
    if i > 1 {
      assert members[..i + 1][1..] == members[1..][..i] && members[..i][1..] == members[1..][..i - 1];
      JoinedMembersNext(members[1..], i - 1);
      var first, more, last := MemberText(members[0]), JoinedMembers(members[1..][..i - 1]), MemberText(members[i]);
      assert first + [','] + (more + [','] + last) == first + [','] + more + [','] + last;
    } else {
      assert members[..2][1..] == [members[1]] && members[..1] == [members[0]];
    }
  }

  lemma Regroup(s: string, a: string, b: string, c: string)
    ensures s + a + b + c == s + (a + b + c)
  {
  }

  class StringBuilder {
    var text: string

    constructor ()
      ensures text == ""
    {
      text := "";
    }

    method Append(more: string)
      modifies this
      ensures text == old(text) + more
    {
      text := text + more;
    }
  }

  /** `WriteString`. */
  method WriteString(builder: StringBuilder, value: string)
    modifies builder
    ensures builder.text == old(builder.text) + StringTo(value, "")
  {
    ghost var before := builder.text;
    builder.Append(['"']);
    for i := 0 to |value|
      invariant builder.text == before + ['"'] + Escapes(value[..i])
    {
      assert value[..i + 1][..i] == value[..i];
      Regroup(before + ['"'], Escapes(value[..i]), CharTo(value[i], ""), "");
      builder.Append(CharTo(value[i], ""));
    }
    assert value[..|value|] == value;
    builder.Append(['"']);
    Regroup(before, ['"'], Escapes(value), ['"']);
    EscapesClose(value);
  }

  /** The escaped characters, without the closing quote. */
  function Escapes(chars: string): string {
    if chars == "" then "" else Escapes(chars[..|chars| - 1]) + CharTo(chars[|chars| - 1], "")
  }

  lemma {:induction false} EscapesClose(value: string)
    ensures StringTo(value, "") == ['"'] + Escapes(value) + ['"']
  {
    EscapesThen(value, ['"']);
    assert ['"'] + "" == ['"'];
    CharsAre(value);
    assert ['"'] + (Escapes(value) + ['"']) == ['"'] + Escapes(value) + ['"'];
  }

  /** Escaping from the front, as the loop's text is read, and from the back, as it is written. */
  function EscapesTo(chars: string, rest: string): string {
    if chars == "" then rest else CharTo(chars[0], EscapesTo(chars[1..], rest))
  }

  lemma {:induction false} CharsAre(chars: string)
    ensures CharsTo(chars, "") == EscapesTo(chars, ['"'])
  {
    if chars != "" { CharsAre(chars[1..]); }
  }

  lemma {:induction false} EscapesToSnoc(chars: string, c: char, rest: string)
    ensures EscapesTo(chars + [c], rest) == EscapesTo(chars, CharTo(c, rest))
  {
    if chars == "" {
      assert chars + [c] == [c] && [c][1..] == "";
    } else {
      assert (chars + [c])[1..] == chars[1..] + [c];
      EscapesToSnoc(chars[1..], c, rest);
    }
  }

  lemma {:induction false} EscapesThen(chars: string, rest: string)
    ensures EscapesTo(chars, rest) == Escapes(chars) + rest
  {
    if chars != "" {
      var init, last := chars[..|chars| - 1], chars[|chars| - 1];
      assert chars == init + [last];
      EscapesToSnoc(init, last, rest);
      EscapesThen(init, CharTo(last, rest));
      CharAppend(last, "", rest);
      assert "" + rest == rest;
      assert Escapes(init) + (CharTo(last, "") + rest) == Escapes(init) + CharTo(last, "") + rest;
    }
  }

  /** `Write`. */
  method Write(builder: StringBuilder, value: Json)
    modifies builder
    ensures builder.text == old(builder.text) + Stringified(value)
    decreases value, 0
  {
    match value
    case Obj(members) => WriteMembers(builder, value, members);
    case Arr(items) => WriteItems(builder, value, items);
    case Str(chars) => WriteString(builder, chars);
    case Number(token) =>
      builder.Append(token);
      assert token + "" == token;
    case Bool(b) =>
      builder.Append(if b then "true" else "false");
      assert (if b then "true" else "false") + "" == if b then "true" else "false";
    case Null =>
      builder.Append("null");
      assert "null" + "" == "null";
  }

  method WriteItems(builder: StringBuilder, ghost value: Json, items: seq<Json>)
    requires value == Arr(items)
    modifies builder
    ensures builder.text == old(builder.text) + Stringified(value)
    decreases items, 1
  {
    ghost var start := builder.text + ['['];
    builder.Append(['[']);
    var firstItem := true;
    for i := 0 to |items|
      invariant firstItem <==> i == 0
      invariant builder.text == start + if i == 0 then "" else Joined(items[..i])
    {
      if !firstItem {
        builder.Append([',']);
        JoinedNext(items, i);
      }
      firstItem := false;
      Write(builder, items[i]);
      if i == 0 {
        assert items[..1] == [items[0]];
      } else {
        Regroup(start, Joined(items[..i]), [','], Stringified(items[i]));
      }
    }
    builder.Append([']']);
    assert items[..|items|] == items;
    Regroup(start[..|start| - 1], ['['], if items == [] then "" else Joined(items), [']']);
    if items != [] { ItemsJoined(items, ""); }
    ItemsWritten(value, items);
  }

  lemma ItemsWritten(value: Json, items: seq<Json>)
    requires value == Arr(items)
    requires items != [] ==> ItemsTo(items, "") == Joined(items) + ([']'] + "")
    ensures Stringified(value) == ['['] + (if items == [] then "" else Joined(items)) + [']']
  {
    assert [']'] + "" == [']'];
    if items != [] {
      assert ['['] + (Joined(items) + [']']) == ['['] + Joined(items) + [']'];
    } else {
      assert ['['] + "" + [']'] == ['['] + [']'];
    }
  }

  method WriteMembers(builder: StringBuilder, ghost value: Json, members: seq<Member>)
    requires value == Obj(members)
    modifies builder
    ensures builder.text == old(builder.text) + Stringified(value)
    decreases members, 1
  {
    ghost var start := builder.text + ['{'];
    builder.Append(['{']);
    var firstMember := true;
    for i := 0 to |members|
      invariant firstMember <==> i == 0
      invariant builder.text == start + if i == 0 then "" else JoinedMembers(members[..i])
    {
      if !firstMember {
        builder.Append([',']);
        JoinedMembersNext(members, i);
      }
      firstMember := false;
      WriteMember(builder, members[i]);
      if i == 0 {
        assert members[..1] == [members[0]];
      } else {
        Regroup(start, JoinedMembers(members[..i]), [','], MemberText(members[i]));
      }
    }
    builder.Append(['}']);
    assert members[..|members|] == members;
    Regroup(start[..|start| - 1], ['{'], if members == [] then "" else JoinedMembers(members), ['}']);
    if members != [] { MembersJoined(members, ""); }
    MembersWritten(value, members);
  }

  method WriteMember(builder: StringBuilder, m: Member)
    modifies builder
    ensures builder.text == old(builder.text) + MemberText(m)
    decreases m, 1
  {
    ghost var before := builder.text;
    WriteString(builder, m.key);
    builder.Append([':']);
    Write(builder, m.value);
    Regroup(before, StringTo(m.key, ""), [':'], Stringified(m.value));
    MemberParts(m, Stringified(m.value));
  }

  lemma MemberParts(m: Member, value: string)
    requires value == Stringified(m.value)
    ensures MemberText(m) == StringTo(m.key, "") + [':'] + value
  {
    StringAppend(m.key, "", [':'] + value);
    assert "" + ([':'] + value) == [':'] + value;
    assert StringTo(m.key, "") + ([':'] + value) == StringTo(m.key, "") + [':'] + value;
  }

  lemma MembersWritten(value: Json, members: seq<Member>)
    requires value == Obj(members)
    requires members != [] ==> MembersTo(members, "") == JoinedMembers(members) + (['}'] + "")
    ensures Stringified(value) == ['{'] + (if members == [] then "" else JoinedMembers(members)) + ['}']
  {
    assert ['}'] + "" == ['}'];
    if members != [] {
      assert ['{'] + (JoinedMembers(members) + ['}']) == ['{'] + JoinedMembers(members) + ['}'];
    } else {
      assert ['{'] + "" + ['}'] == ['{'] + ['}'];
    }
  }

  /** `Stringify`. */
  method Stringify(value: Json) returns (text: string)
    ensures text == Stringified(value)
  {
    var builder := new StringBuilder();
    Write(builder, value);
    assert "" + Stringified(value) == Stringified(value);
    text := builder.text;
  }
}
