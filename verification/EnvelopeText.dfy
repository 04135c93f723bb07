/** The sizes that budgets are kept by are the octets of the JSON texts that are sent. */
module EnvelopeText {
  import opened Utf8Text
  import opened JsonText
  import opened JsonWriter
  import opened PayloadBudget
  import opened ToolErrors

  /** Characters as a JSON string holds them. */
  function Text(characters: Characters): string {
    if characters == [] then "" else [characters[0] as char] + Text(characters[1..])
  }

  function CharactersOf(s: string): Characters {
    if s == "" then [] else [s[0] as int] + CharactersOf(s[1..])
  }

  /** `Buffer.byteLength` of a text. */
  function Size(s: string): nat {
    if s == "" then 0 else |CharBytes(s[0] as int)| + Size(s[1..])
  }

  lemma EncodeSnoc(text: Characters, c: Scalar)
    ensures |Encode(text + [c])| == |Encode(text)| + |CharBytes(c)|
  {
    assert (text + [c])[..|text|] == text;
  }

  lemma {:induction false} EncodeFront(c: Scalar, rest: Characters)
    ensures |Encode([c] + rest)| == |CharBytes(c)| + |Encode(rest)|
  {
    if rest == [] {
      EncodeSnoc([], c);
      assert [c] + rest == [] + [c];
    } else {
      var init, last := rest[..|rest| - 1], rest[|rest| - 1];
      EncodeFront(c, init);
      EncodeSnoc(init, last);
      EncodeSnoc([c] + init, last);
      assert rest == init + [last] && [c] + rest == [c] + init + [last];
    }
  }

  /** It is the number of the text's UTF-8 octets. */
  lemma {:induction false} SizeIsEncoded(s: string)
    ensures Size(s) == |Encode(CharactersOf(s))|
  {
    if s != "" {
      SizeIsEncoded(s[1..]);
      EncodeFront(s[0] as int, CharactersOf(s[1..]));
    }
  }

  lemma {:induction false} SizeAppend(a: string, b: string)
    ensures Size(a + b) == Size(a) + Size(b)
  {
    if a == "" {
      assert a + b == b;
    } else {
      assert (a + b)[0] == a[0] && (a + b)[1..] == a[1..] + b;
      SizeAppend(a[1..], b);
    }
  }

  lemma {:induction false} SizePlain(s: string)
    requires forall c :: c in s ==> c as int < 0x80
    ensures Size(s) == |s|
  {
    if s != "" {
      assert s[0] in s && forall c :: c in s[1..] ==> c in s;
      SizePlain(s[1..]);
    }
  }

  lemma PlainBefore(s: string, rest: string)
    requires forall c :: c in s ==> c as int < 0x80
    ensures Size(s + rest) == |s| + Size(rest)
  {
    SizePlain(s);
    SizeAppend(s, rest);
  }

  /** One character in a JSON string. */
  lemma SizeCharTo(c: Scalar, rest: string)
    ensures Size(CharTo(c as char, rest)) == EscapedSize(c) + Size(rest)
  {
    var written := CharTo(c as char, "");
    SizeAppend(written, rest);
    CharToAppend(c as char, rest);
    if EscapedSize(c) == |CharBytes(c)| && c >= 0x20 && c != 0x22 && c != 0x5C {
      assert written == [c as char] && written[1..] == "";
    } else {
      EscapePlain(c as char);
      SizePlain(written);
    }
  }

  lemma CharToAppend(c: char, rest: string)
    ensures CharTo(c, rest) == CharTo(c, "") + rest
  {
  }

  lemma EscapePlain(c: char)
    requires c < ' ' || c == '"' || c == '\\'
    ensures forall x :: x in CharTo(c, "") ==> x as int < 0x80
    ensures |CharTo(c, "")| == EscapedSize(c as int)
  {
  }

  lemma {:induction false} TextSizeFront(c: Scalar, rest: Characters)
    ensures TextSize([c] + rest) == EscapedSize(c) + TextSize(rest)
  {
    if rest == [] {
      assert [c] + rest == [c] && [c][..0] == [];
    } else {
      TextSizeFront(c, rest[..|rest| - 1]);
      assert ([c] + rest)[..|rest|] == [c] + rest[..|rest| - 1];
    }
  }

  lemma {:induction false} SizeCharsTo(text: Characters, rest: string)
    ensures Size(CharsTo(Text(text), rest)) == TextSize(text) + 1 + Size(rest)
  {
    if text == [] {
      PlainBefore(['"'], rest);
    } else {
      assert Text(text)[1..] == Text(text[1..]) && text == [text[0]] + text[1..];
      SizeCharsTo(text[1..], rest);
      SizeCharTo(text[0], CharsTo(Text(text[1..]), rest));
      TextSizeFront(text[0], text[1..]);
    }
  }

  /** A JSON string has the size that its text is measured by, and two quotes. */
  lemma SizeString(text: Characters, rest: string)
    ensures Size(StringTo(Text(text), rest)) == TextSize(text) + 2 + Size(rest)
  {
    SizeCharsTo(text, rest);
    PlainBefore(['"'], CharsTo(Text(text), rest));
  }

  // Objects whose members are texts.

  datatype Field = Field(key: string, text: Characters)

  predicate PlainKey(key: string) {
    forall c :: c in key ==> ' ' <= c < '~' && c != '"' && c != '\\'
  }

  function Members(fields: seq<Field>): (r: seq<Member>)
    ensures |r| == |fields|
  {
    if fields == [] then [] else [Member(fields[0].key, Str(Text(fields[0].text)))] + Members(fields[1..])
  }

  function FieldsSize(fields: seq<Field>): nat {
    if fields == [] then 0 else |fields[0].key| + 6 + TextSize(fields[0].text) + FieldsSize(fields[1..])
  }

  lemma KeyWritten(key: string, rest: string)
    requires PlainKey(key)
    ensures CharsTo(key, rest) == key + (['"'] + rest)
    decreases |key|
  {
    if key == "" {
      assert "" + (['"'] + rest) == ['"'] + rest;
    } else {
      assert key[0] in key && key == [key[0]] + key[1..] && forall c :: c in key[1..] ==> c in key;
      KeyWritten(key[1..], rest);
      assert [key[0]] + (key[1..] + (['"'] + rest)) == key + (['"'] + rest);
    }
  }

  /** A member that holds a text: its key, a colon, and the text. */
  lemma SizeMember(key: string, text: Characters, rest: string)
    requires PlainKey(key)
    ensures Size(StringTo(key, [':'] + ValueTo(Str(Text(text)), rest))) == |key| + 5 + TextSize(text) + Size(rest)
  {
    var value := StringTo(Text(text), rest);
    SizeString(text, rest);
    KeyWritten(key, [':'] + value);
    PlainBefore([':'], value);
    PlainBefore(['"'], [':'] + value);
    PlainBefore(key, ['"'] + ([':'] + value));
    PlainBefore(['"'], key + (['"'] + ([':'] + value)));
  }

  /** The members, the commas between them, and the closing brace. */
  lemma {:induction false} SizeMembers(fields: seq<Field>)
    requires fields != [] && forall f :: f in fields ==> PlainKey(f.key)
    ensures Size(MembersTo(Members(fields), "")) == FieldsSize(fields)
  {
    var f, members := fields[0], Members(fields);
    assert f in fields && members[1..] == Members(fields[1..]) && ['}'] + "" == "}";
    if |fields| == 1 {
      SizePlain("}");
      SizeMember(f.key, f.text, "}");
    } else {
      assert forall x :: x in fields[1..] ==> x in fields;
      SizeMembers(fields[1..]);
      var tail := MembersTo(Members(fields[1..]), "");
      PlainBefore([','], tail);
      SizeMember(f.key, f.text, [','] + tail);
    }
  }

  // The error envelope.

  function EnvelopeFields(e: Envelope): seq<Field> {
    [Field("error", e.error), Field("message", e.message)]
    + if e.recovery.Some? then [Field("recovery", e.recovery.value)] else []
  }

  /** `errorResult`: the envelope as the text of its one block. */
  function EnvelopeJson(e: Envelope): Json {
    Obj(Members(EnvelopeFields(e)))
  }

  /** The size of an envelope is the number of octets of its JSON text. */
  lemma EnvelopeIsMeasured(e: Envelope)
    ensures Size(Stringified(EnvelopeJson(e))) == EnvelopeSize(e)
  {
    var fields := EnvelopeFields(e);
    EnvelopeSum(e);
    SizeMembers(fields);
    PlainBefore(['{'], MembersTo(Members(fields), ""));
  }

  lemma EnvelopeSum(e: Envelope)
    ensures 1 + FieldsSize(EnvelopeFields(e)) == EnvelopeSize(e)
    ensures forall f :: f in EnvelopeFields(e) ==> PlainKey(f.key)
  {
    var fields := EnvelopeFields(e);
    var first, second := Field("error", e.error), Field("message", e.message);
    assert PlainKey("error") && PlainKey("message") && PlainKey("recovery");
    if e.recovery.Some? {
      var third := Field("recovery", e.recovery.value);
      assert fields[1..] == [second, third] && fields[1..][1..] == [third] && [third][1..] == [];
      assert FieldsSize([third]) == 14 + TextSize(e.recovery.value);
    } else {
      assert fields == [first, second] && fields[1..] == [second] && [second][1..] == [];
      assert FieldsSize([second]) == 13 + TextSize(e.message);
    }
  }

  // A page of items.

  function Sizes(items: seq<Json>): (r: seq<nat>)
    ensures |r| == |items|
  {
    if items == [] then [] else [Size(Stringified(items[0]))] + Sizes(items[1..])
  }

  lemma {:induction false} ValueAfter(v: Json, rest: string)
    ensures Size(ValueTo(v, rest)) == Size(Stringified(v)) + Size(rest)
  {
    ValueAppend(v, "", rest);
    assert "" + rest == rest;
    SizeAppend(Stringified(v), rest);
  }

  lemma {:induction false} CostFront(first: nat, rest: seq<nat>)
    ensures PageCost([first] + rest) == first + (if rest == [] then 0 else 1 + PageCost(rest))
  {
    if rest == [] {
      assert [first] + rest == [first] && [first][..0] == [];
    } else {
      CostFront(first, rest[..|rest| - 1]);
      assert ([first] + rest)[..|rest|] == [first] + rest[..|rest| - 1];
    }
  }

  lemma {:induction false} ItemsCost(items: seq<Json>)
    requires items != []
    ensures Size(ItemsTo(items, "")) == PageCost(Sizes(items)) + 1
  {
    CostFront(Size(Stringified(items[0])), Sizes(items[1..]));
    assert [']'] + "" == "]";
    if |items| == 1 {
      SizePlain("]");
      ValueAfter(items[0], "]");
    } else {
      ItemsCost(items[1..]);
      PlainBefore([','], ItemsTo(items[1..], ""));
      ValueAfter(items[0], [','] + ItemsTo(items[1..], ""));
    }
  }

  /** What a page is charged for its items is the JSON text of their array, without its brackets. */
  lemma PageIsMeasured(items: seq<Json>)
    ensures Size(Stringified(Arr(items))) == PageCost(Sizes(items)) + 2
  {
    if items == [] {
      assert ['['] + ([']'] + "") == "[]";
      SizePlain("[]");
    } else {
      ItemsCost(items);
      PlainBefore(['['], ItemsTo(items, ""));
    }
  }
}
