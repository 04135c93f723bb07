/** What a reader gets back from a form body: every value of every slot, under a key that is its own. */
module FormReading {
  import opened Wrappers
  import opened PercentCoding
  import opened MultipartText
  import opened InlineFiles
  import opened FormFields
  import opened QueryText

  // Nothing lost, nothing doubled: a slot holds what its field wrote.

  function Under(entries: seq<Entry>, slot: Slot): seq<Content> {
    if entries == [] then [] else
      (if entries[0].slot == slot then [entries[0].content] else []) + Under(entries[1..], slot)
  }

  lemma {:induction false} UnderAppend(a: seq<Entry>, b: seq<Entry>, slot: Slot)
    ensures Under(a + b, slot) == Under(a, slot) + Under(b, slot)
  {
    if a == [] {
      assert a + b == b;
    } else {
      UnderAppend(a[1..], b, slot);
      assert (a + b)[0] == a[0] && (a + b)[1..] == a[1..] + b;
      Regroup(if a[0].slot == slot then [a[0].content] else [], Under(a[1..], slot), Under(b, slot));
    }
  }

  ghost predicate AllIn(entries: seq<Entry>, name: Octets) {
    forall e :: e in entries ==> e.slot.name == name
  }

  ghost predicate AllAt(entries: seq<Entry>, slot: Slot) {
    forall e :: e in entries ==> e.slot == slot
  }

  lemma {:induction false} UnderOther(entries: seq<Entry>, slot: Slot)
    requires forall e :: e in entries ==> e.slot != slot
    ensures Under(entries, slot) == []
  {
    if entries != [] {
      assert entries[0] in entries;
      UnderOther(entries[1..], slot);
    }
  }

  lemma {:induction false} TextsAt(slot: Slot, kind: Kind, items: seq<Value>)
    ensures Scalars(slot, kind, items).Ok? ==> AllAt(Scalars(slot, kind, items).value, slot)
  {
    if items != [] {
      TextsAt(slot, kind, items[1..]);
    }
  }

  lemma {:induction false} UploadsAt(slot: Slot, files: Files, items: seq<Value>)
    ensures Uploads(slot, files, items).Ok? ==> AllAt(Uploads(slot, files, items).value, slot)
  {
    if items != [] {
      UploadsAt(slot, files, items[1..]);
    }
  }

  lemma MemberAt(group: Octets, m: FieldMember, members: map<Octets, Value>)
    ensures MemberTexts(group, m, members).Ok? ==>
      AllAt(MemberTexts(group, m, members).value, Slot(group, Some(m.name)))
  {
    if m.name in members && !members[m.name].Null? && Elements(members[m.name], m.isArray).Ok? {
      TextsAt(Slot(group, Some(m.name)), m.kind, Elements(members[m.name], m.isArray).value);
    }
  }

  lemma {:induction false} GroupIn(group: Octets, declared: seq<FieldMember>, members: map<Octets, Value>)
    ensures GroupTexts(group, declared, members).Ok? ==> AllIn(GroupTexts(group, declared, members).value, group)
  {
    if declared != [] {
      GroupIn(group, declared[1..], members);
      MemberAt(group, declared[0], members);
    }
  }

  lemma FieldIn(f: Field, files: Files, value: map<Octets, Value>)
    ensures FieldEntries(f, files, value).Ok? ==> AllIn(FieldEntries(f, files, value).value, f.name)
  {
    if f.name in value && !value[f.name].Null? {
      match f
      case Group(name, declared) => if value[name].Object? { GroupIn(name, declared, value[name].members); }
      case File(name, isArray) =>
        if Elements(value[name], isArray).Ok? {
          UploadsAt(Slot(name, None), files, Elements(value[name], isArray).value);
        }
      case Plain(name, kind, isArray) =>
        if Elements(value[name], isArray).Ok? { TextsAt(Slot(name, None), kind, Elements(value[name], isArray).value); }
    }
  }

  ghost predicate NamesOnce(fields: seq<Field>) {
    forall i, j :: 0 <= i < j < |fields| ==> fields[i].name != fields[j].name
  }

  ghost predicate MembersOnce(declared: seq<FieldMember>) {
    forall i, j :: 0 <= i < j < |declared| ==> declared[i].name != declared[j].name
  }

  lemma {:induction false} FieldsIn(fields: seq<Field>, files: Files, value: map<Octets, Value>, slot: Slot)
    requires AllEntries(fields, files, value).Ok?
    requires forall i :: 0 <= i < |fields| ==> fields[i].name != slot.name
    ensures Under(AllEntries(fields, files, value).value, slot) == []
  {
    if fields != [] {
      var first := FieldEntries(fields[0], files, value).value;
      FieldIn(fields[0], files, value);
      UnderOther(first, slot);
      FieldsIn(fields[1..], files, value, slot);
      UnderAppend(first, AllEntries(fields[1..], files, value).value, slot);
    }
  }

  /** Under a field's slots there is what the field wrote, and nothing from any other. */
  lemma {:induction false} FieldHolds(fields: seq<Field>, files: Files, value: map<Octets, Value>, i: nat, slot: Slot)
    requires NamesOnce(fields) && AllEntries(fields, files, value).Ok? && i < |fields| && slot.name == fields[i].name
    ensures FieldEntries(fields[i], files, value).Ok?
    ensures Under(AllEntries(fields, files, value).value, slot)
      == Under(FieldEntries(fields[i], files, value).value, slot)
  {
    var first := FieldEntries(fields[0], files, value).value;
    var rest := AllEntries(fields[1..], files, value).value;
    UnderAppend(first, rest, slot);
    if i == 0 {
      FieldsIn(fields[1..], files, value, slot);
    } else {
      FieldIn(fields[0], files, value);
      UnderOther(first, slot);
      FieldHolds(fields[1..], files, value, i - 1, slot);
    }
  }

  lemma {:induction false} OtherMembers(group: Octets, declared: seq<FieldMember>, members: map<Octets, Value>,
        m: Octets)
    requires GroupTexts(group, declared, members).Ok?
    requires forall i :: 0 <= i < |declared| ==> declared[i].name != m
    ensures Under(GroupTexts(group, declared, members).value, Slot(group, Some(m))) == []
  {
    if declared != [] {
      var slot := Slot(group, Some(m));
      var first := MemberTexts(group, declared[0], members).value;
      MemberAt(group, declared[0], members);
      UnderOther(first, slot);
      OtherMembers(group, declared[1..], members, m);
      UnderAppend(first, GroupTexts(group, declared[1..], members).value, slot);
    }
  }

  /** Under a member's slot there is what the member wrote, and nothing from any other. */
  lemma {:induction false} MemberHolds(group: Octets, declared: seq<FieldMember>, members: map<Octets, Value>, i: nat)
    requires MembersOnce(declared) && GroupTexts(group, declared, members).Ok? && i < |declared|
    ensures MemberTexts(group, declared[i], members).Ok?
    ensures Under(GroupTexts(group, declared, members).value, Slot(group, Some(declared[i].name)))
      == Contents(MemberTexts(group, declared[i], members).value)
  {
    var slot := Slot(group, Some(declared[i].name));
    var first := MemberTexts(group, declared[0], members).value;
    var rest := GroupTexts(group, declared[1..], members).value;
    UnderAppend(first, rest, slot);
    MemberAt(group, declared[0], members);
    if i == 0 {
      UnderAll(first, slot);
      OtherMembers(group, declared[1..], members, declared[0].name);
    } else {
      UnderOther(first, slot);
      MemberHolds(group, declared[1..], members, i - 1);
    }
  }

  function Contents(entries: seq<Entry>): seq<Content> {
    if entries == [] then [] else [entries[0].content] + Contents(entries[1..])
  }

  lemma {:induction false} UnderAll(entries: seq<Entry>, slot: Slot)
    requires AllAt(entries, slot)
    ensures Under(entries, slot) == Contents(entries)
  {
    if entries != [] {
      assert entries[0] in entries;
      UnderAll(entries[1..], slot);
    }
  }

  // Keys.

  /** The two spellings of a name: percent-encoded, and as it is. */
  datatype Spelling = Encoded | Raw

  function Spell(s: Spelling, v: Octets): string {
    if s == Encoded then Encode(v) else CharsOf(v)
  }

  /** The key of a slot. */
  function KeyOf(s: Spelling, notation: Notation, slot: Slot): string {
    if slot.member.None? then Spell(s, slot.name)
    else Spell(s, slot.name) + [Opening(notation)] + Spell(s, slot.member.value) + Closing(notation)
  }

  /** Percent-encoded, the key of a member is that of a grouped query argument. */
  lemma EncodedKey(notation: Notation, slot: Slot)
    requires slot.member.Some?
    ensures KeyOf(Encoded, notation, slot) == MemberKey(slot.name, slot.member.value, notation)
  {
  }

  function Opening(notation: Notation): char {
    if notation == Dot then '.' else '['
  }

  function Closing(notation: Notation): string {
    if notation == Dot then "" else "]"
  }

  /** A member name that the notation does not read as structure. */
  predicate Flat(v: Octets) {
    forall b :: b in v ==> b != 46 && b != 91 && b != 93
  }

  lemma {:induction false} RawInjective(a: Octets, b: Octets)
    requires CharsOf(a) == CharsOf(b)
    ensures a == b
  {
    if a != [] && b != [] {
      assert CharsOf(a)[0] == CharOf(a[0]) && CharsOf(b)[0] == CharOf(b[0]);
      assert CharsOf(a)[1..] == CharsOf(a[1..]) && CharsOf(b)[1..] == CharsOf(b[1..]);
      RawInjective(a[1..], b[1..]);
      assert a == [a[0]] + a[1..] && b == [b[0]] + b[1..];
    }
  }

  lemma SpellInjective(s: Spelling, a: Octets, b: Octets)
    requires Spell(s, a) == Spell(s, b)
    ensures a == b
  {
    if s == Raw {
      RawInjective(a, b);
    } else {
      DecodeEncode(a);
      DecodeEncode(b);
    }
  }

  lemma {:induction false} FlatSpelled(s: Spelling, v: Octets)
    requires Flat(v)
    ensures '.' !in Spell(s, v) && '[' !in Spell(s, v)
  {
    if v != [] {
      forall b | b in v[1..] ensures b in v {}
      FlatSpelled(s, v[1..]);
      assert v[0] in v;
      if s == Encoded {
        HexPlain(v[0] as int / 16);
        HexPlain(v[0] as int % 16);
      }
    }
  }

  lemma HexPlain(n: int)
    requires 0 <= n < 16
    ensures Hex(n) != '.' && Hex(n) != '['
  {
  }

  lemma DropLast(a: string, b: string, x: char)
    requires a + [x] == b + [x]
    ensures a == b
  {
    assert (a + [x])[..|a|] == a && (b + [x])[..|b|] == b;
  }

  /** Two members share a key only when they are the same. */
  lemma MemberKeysApart(s: Spelling, notation: Notation, a: Slot, b: Slot)
    requires a.member.Some? && b.member.Some? && Flat(a.member.value) && Flat(b.member.value)
    requires KeyOf(s, notation, a) == KeyOf(s, notation, b)
    ensures a == b
  {
    var c := Opening(notation);
    var x, y := Spell(s, a.member.value), Spell(s, b.member.value);
    var p, q := Spell(s, a.name) + [c] + x, Spell(s, b.name) + [c] + y;
    FlatSpelled(s, a.member.value);
    FlatSpelled(s, b.member.value);
    if notation == Dot {
      assert p + "" == p && q + "" == q;
    } else {
      DropLast(p, q, ']');
    }
    CutLastAt(Spell(s, a.name), x, c);
    CutLastAt(Spell(s, b.name), y, c);
    SpellInjective(s, a.name, b.name);
    SpellInjective(s, a.member.value, b.member.value);
  }

  function MemberSlots(group: Octets, declared: seq<FieldMember>): seq<Slot> {
    if declared == [] then [] else [Slot(group, Some(declared[0].name))] + MemberSlots(group, declared[1..])
  }

  function Slots(fields: seq<Field>): seq<Slot> {
    if fields == [] then [] else
      SlotsOf(fields[0]) + Slots(fields[1..])
  }

  function SlotsOf(f: Field): seq<Slot> {
    if f.Group? then MemberSlots(f.name, f.members) else [Slot(f.name, None)]
  }

  ghost predicate FlatMembers(slots: seq<Slot>) {
    forall s :: s in slots && s.member.Some? ==> Flat(s.member.value)
  }

  /** The name that spells a member: `group.member`, or `group[member]`. */
  function Spelled(notation: Notation, group: Octets, member: Octets): Octets {
    if notation == Dot then group + [46] + member else group + [91] + member + [93]
  }

  /** A field whose name spells the member. Percent-encoding hides brackets, so it keeps those names apart. */
  predicate Clashes(s: Spelling, notation: Notation, field: Slot, member: Slot) {
    && field.member.None? && member.member.Some?
    && (notation == Dot || s == Raw)
    && field.name == Spelled(notation, member.name, member.member.value)
  }

  ghost predicate Clash(s: Spelling, notation: Notation, slots: seq<Slot>) {
    exists a, b :: a in slots && b in slots && Clashes(s, notation, a, b)
  }

  lemma {:induction false} RawAppend(a: Octets, b: Octets)
    ensures CharsOf(a + b) == CharsOf(a) + CharsOf(b)
  {
    if a == [] {
      assert a + b == b;
    } else {
      assert (a + b)[0] == a[0] && (a + b)[1..] == a[1..] + b;
      RawAppend(a[1..], b);
    }
  }

  lemma SpellAppend(s: Spelling, a: Octets, b: Octets)
    ensures Spell(s, a + b) == Spell(s, a) + Spell(s, b)
  {
    if s == Raw { RawAppend(a, b); } else { EncodeAppend(a, b); }
  }

  /** Where a mark is written as it is, the key of a member is the spelling of its name. */
  lemma KeySpelled(s: Spelling, notation: Notation, group: Octets, member: Octets)
    requires notation == Dot || s == Raw
    ensures KeyOf(s, notation, Slot(group, Some(member))) == Spell(s, Spelled(notation, group, member))
  {
    var mark := if notation == Dot then [46] else [91];
    SpellAppend(s, group, mark);
    SpellAppend(s, group + mark, member);
    MarkSpelled(s, if notation == Dot then 46 else 91);
    if notation == Bracket {
      MarkSpelled(s, 93);
      SpellAppend(s, group + [91] + member, [93]);
    } else {
      var key := Spell(s, group) + ['.'] + Spell(s, member);
      assert key + "" == key;
    }
  }

  lemma MarkSpelled(s: Spelling, mark: Octet)
    requires mark == 46 || (s == Raw && (mark == 91 || mark == 93))
    ensures Spell(s, [mark]) == [CharOf(mark)]
  {
    assert [mark][1..] == [] && CharsOf([]) == "" && Encode([]) == "";
    assert [CharOf(mark)] + "" == [CharOf(mark)];
  }

  /** A field and a member share a key exactly when the field's name spells the member. */
  lemma ClashIsKey(s: Spelling, notation: Notation, a: Slot, b: Slot)
    requires a.member.None? && b.member.Some?
    ensures KeyOf(s, notation, a) == KeyOf(s, notation, b) <==> Clashes(s, notation, a, b)
  {
    if notation == Dot || s == Raw {
      KeySpelled(s, notation, b.name, b.member.value);
      if KeyOf(s, notation, a) == KeyOf(s, notation, b) {
        SpellInjective(s, a.name, Spelled(notation, b.name, b.member.value));
      }
    } else {
      EncodedChars(a.name);
      HoldsMiddle(Encode(b.name), '[', Encode(b.member.value), "]");
    }
  }

  ghost predicate KeysApart(s: Spelling, notation: Notation, slots: seq<Slot>) {
    forall a, b :: a in slots && b in slots && KeyOf(s, notation, a) == KeyOf(s, notation, b) ==> a == b
  }

  /**
   * With member names that are no structure, each slot has its own key exactly when no field's name spells a
   * member.
   */
  lemma KeysApartExactly(s: Spelling, notation: Notation, slots: seq<Slot>)
    requires FlatMembers(slots)
    ensures KeysApart(s, notation, slots) <==> !Clash(s, notation, slots)
  {
    if !Clash(s, notation, slots) {
      forall a, b | a in slots && b in slots && KeyOf(s, notation, a) == KeyOf(s, notation, b) ensures a == b {
        if a.member.Some? && b.member.Some? {
          MemberKeysApart(s, notation, a, b);
        } else if a.member.None? && b.member.None? {
          SpellInjective(s, a.name, b.name);
        } else if a.member.None? {
          ClashIsKey(s, notation, a, b);
        } else {
          ClashIsKey(s, notation, b, a);
        }
      }
    }
    if a, b :| a in slots && b in slots && Clashes(s, notation, a, b) { ClashIsKey(s, notation, a, b); }
  }

  lemma HoldsMiddle(x: string, c: char, y: string, z: string)
    ensures c in x + [c] + y + z
  {
    assert (x + [c] + y + z)[|x|] == c;
  }

  /** Percent-encoded names never hold a bracket, so bracketed keys are always apart. */
  lemma BracketsNeverClash(slots: seq<Slot>)
    requires FlatMembers(slots)
    ensures KeysApart(Encoded, Bracket, slots)
  {
    KeysApartExactly(Encoded, Bracket, slots);
  }

  /** A dot is written raw: the field `a.b` has the key of member `b` of `a`. */
  lemma DotsClash(a: Octets, b: Octets)
    ensures KeyOf(Encoded, Dot, Slot(a + [46] + b, None)) == KeyOf(Encoded, Dot, Slot(a, Some(b)))
  {
    ClashIsKey(Encoded, Dot, Slot(a + [46] + b, None), Slot(a, Some(b)));
  }

  lemma {:induction false} EncodeAppend(a: Octets, b: Octets)
    ensures Encode(a + b) == Encode(a) + Encode(b)
  {
    if a == [] {
      assert a + b == b;
    } else {
      EncodeAppend(a[1..], b);
      assert (a + b)[0] == a[0] && (a + b)[1..] == a[1..] + b;
      var head := if Unreserved(CharOf(a[0])) then [CharOf(a[0])] else Escape(a[0]);
      Regroup(head, Encode(a[1..]), Encode(b));
    }
  }

  // The urlencoded body.

  function TextOf(c: Content): Octets {
    if c.Said? then c.value else []
  }

  function PairsOf(notation: Notation, entries: seq<Entry>): seq<Pair> {
    if entries == [] then [] else
      [Pair(KeyOf(Encoded, notation, entries[0].slot), Encode(TextOf(entries[0].content)))]
        + PairsOf(notation, entries[1..])
  }

  /** `encodeBody` for a urlencoded form, after the walk. */
  function UrlEncoded(notation: Notation, entries: seq<Entry>): string {
    Render(PairsOf(notation, entries))
  }

  function ValuesUnder(pairs: seq<Pair>, key: string): seq<string> {
    if pairs == [] then [] else (if pairs[0].key == key then [pairs[0].value] else []) + ValuesUnder(pairs[1..], key)
  }

  function EncodedTexts(contents: seq<Content>): seq<string> {
    if contents == [] then [] else [Encode(TextOf(contents[0]))] + EncodedTexts(contents[1..])
  }

  lemma KeyClean(notation: Notation, slot: Slot)
    ensures '&' !in KeyOf(Encoded, notation, slot) && '=' !in KeyOf(Encoded, notation, slot)
  {
    if slot.member.Some? {
      EncodedKey(notation, slot);
      MemberKeyClean(slot.name, slot.member.value, notation);
    } else {
      EncodedChars(slot.name);
    }
  }

  lemma {:induction false} PairsAreClean(notation: Notation, entries: seq<Entry>)
    ensures Clean(PairsOf(notation, entries))
  {
    if entries != [] {
      var pairs := PairsOf(notation, entries);
      KeyClean(notation, entries[0].slot);
      EncodedChars(TextOf(entries[0].content));
      PairsAreClean(notation, entries[1..]);
      forall p | p in pairs ensures p == pairs[0] || p in PairsOf(notation, entries[1..]) {}
    }
  }

  lemma {:induction false} PairsUnder(notation: Notation, slots: seq<Slot>, entries: seq<Entry>, slot: Slot)
    requires KeysApart(Encoded, notation, slots) && slot in slots && forall e :: e in entries ==> e.slot in slots
    ensures ValuesUnder(PairsOf(notation, entries), KeyOf(Encoded, notation, slot))
      == EncodedTexts(Under(entries, slot))
  {
    if entries != [] {
      assert entries[0] in entries;
      PairsUnder(notation, slots, entries[1..], slot);
      var e, rest, under := entries[0], PairsOf(notation, entries[1..]), Under(entries[1..], slot);
      var key := KeyOf(Encoded, notation, slot);
      assert PairsOf(notation, entries)[1..] == rest;
      if e.slot == slot {
        assert ([e.content] + under)[1..] == under;
      } else {
        assert KeyOf(Encoded, notation, e.slot) != key;
        assert Under(entries, slot) == under;
        assert ValuesUnder(PairsOf(notation, entries), key) == ValuesUnder(rest, key);
      }
    }
  }

  /** Reading the body back: under each slot's key stand the texts of that slot, in order, and no others. */
  lemma UrlEncodedReadsBack(notation: Notation, slots: seq<Slot>, entries: seq<Entry>, slot: Slot)
    requires FlatMembers(slots) && !Clash(Encoded, notation, slots)
    requires slot in slots && forall e :: e in entries ==> e.slot in slots
    ensures ValuesUnder(Read(UrlEncoded(notation, entries)), KeyOf(Encoded, notation, slot))
      == EncodedTexts(Under(entries, slot))
  {
    KeysApartExactly(Encoded, notation, slots);
    PairsAreClean(notation, entries);
    ReadRender(PairsOf(notation, entries));
    PairsUnder(notation, slots, entries, slot);
  }

  // From the argument to the reader.

  lemma {:induction false} GroupSlots(group: Octets, declared: seq<FieldMember>, members: map<Octets, Value>, e: Entry)
    requires GroupTexts(group, declared, members).Ok? && e in GroupTexts(group, declared, members).value
    ensures e.slot in MemberSlots(group, declared)
  {
    var first := MemberTexts(group, declared[0], members).value;
    MemberAt(group, declared[0], members);
    if e !in first {
      GroupSlots(group, declared[1..], members, e);
    }
  }

  lemma FieldSlots(f: Field, files: Files, value: map<Octets, Value>, e: Entry)
    requires FieldEntries(f, files, value).Ok? && e in FieldEntries(f, files, value).value
    ensures e.slot in SlotsOf(f)
  {
    match f
    case Group(name, declared) => GroupSlots(name, declared, value[name].members, e);
    case File(name, isArray) => UploadsAt(Slot(name, None), files, Elements(value[name], isArray).value);
    case Plain(name, kind, isArray) => TextsAt(Slot(name, None), kind, Elements(value[name], isArray).value);
  }

  /** The walk writes to declared slots only. */
  lemma {:induction false} EntrySlots(fields: seq<Field>, files: Files, value: map<Octets, Value>, e: Entry)
    requires AllEntries(fields, files, value).Ok? && e in AllEntries(fields, files, value).value
    ensures e.slot in Slots(fields)
  {
    var first := FieldEntries(fields[0], files, value).value;
    if e in first {
      FieldSlots(fields[0], files, value, e);
    } else {
      EntrySlots(fields[1..], files, value, e);
    }
  }

  lemma {:induction false} SlotsHold(fields: seq<Field>, i: nat, slot: Slot)
    requires i < |fields| && slot in SlotsOf(fields[i])
    ensures slot in Slots(fields)
  {
    if i > 0 {
      SlotsHold(fields[1..], i - 1, slot);
    }
  }

  /**
   * A urlencoded body, end to end: under the key of a slot a reader finds the texts that the slot's own
   * field wrote from its argument, in order, and nothing else.
   */
  lemma BodyReadsBack(notation: Notation, fields: seq<Field>, files: Files, value: map<Octets, Value>, i: nat,
        slot: Slot)
    requires NamesOnce(fields) && FlatMembers(Slots(fields)) && !Clash(Encoded, notation, Slots(fields))
    requires AllEntries(fields, files, value).Ok? && i < |fields| && slot in SlotsOf(fields[i])
      && slot.name == fields[i].name
    ensures FieldEntries(fields[i], files, value).Ok?
    ensures ValuesUnder(Read(UrlEncoded(notation, AllEntries(fields, files, value).value)),
      KeyOf(Encoded, notation, slot))
      == EncodedTexts(Under(FieldEntries(fields[i], files, value).value, slot))
  {
    var entries := AllEntries(fields, files, value).value;
    forall e | e in entries ensures e.slot in Slots(fields) { EntrySlots(fields, files, value, e); }
    SlotsHold(fields, i, slot);
    UrlEncodedReadsBack(notation, Slots(fields), entries, slot);
    FieldHolds(fields, files, value, i, slot);
  }


  // The two encodings of a form.

  /** A urlencoded body: the walk's error, or its entries as one text. */
  method EncodeUrlEncoded(notation: Notation, fields: seq<Field>, files: Files, value: map<Octets, Value>)
    returns (r: Result<string, Problem>)
    ensures var written := AllEntries(fields, files, value);
      r == if written.Err? then Err(written.error) else Ok(UrlEncoded(notation, written.value))
    ensures r.Ok? ==> Read(r.value) == PairsOf(notation, AllEntries(fields, files, value).value)
  {
    var emitted := EmitFields(fields, files, value);
    if emitted.Err? {
      return Err(emitted.error);
    }
    PairsAreClean(notation, emitted.value);
    ReadRender(PairsOf(notation, emitted.value));
    r := Ok(UrlEncoded(notation, emitted.value));
  }

  function FilesOf(entries: seq<Entry>): seq<FileContent> {
    if entries == [] then [] else
      (if entries[0].content.Carried? then [entries[0].content.file] else []) + FilesOf(entries[1..])
  }

  predicate AllMeasured(entries: seq<Entry>) {
    forall e :: e in entries && e.content.Carried? ==> Measured(e.content.file)
  }

  lemma {:induction false} ScalarsMeasured(slot: Slot, kind: Kind, items: seq<Value>)
    ensures Scalars(slot, kind, items).Ok? ==> AllMeasured(Scalars(slot, kind, items).value)
  {
    if items != [] {
      ScalarsMeasured(slot, kind, items[1..]);
    }
  }

  lemma {:induction false} UploadsMeasured(slot: Slot, files: Files, items: seq<Value>)
    ensures Uploads(slot, files, items).Ok? ==> AllMeasured(Uploads(slot, files, items).value)
  {
    if items != [] {
      UploadsMeasured(slot, files, items[1..]);
    }
  }

  lemma {:induction false} GroupMeasured(group: Octets, declared: seq<FieldMember>, members: map<Octets, Value>)
    ensures GroupTexts(group, declared, members).Ok? ==> AllMeasured(GroupTexts(group, declared, members).value)
  {
    if declared != [] {
      GroupMeasured(group, declared[1..], members);
      var m := declared[0];
      if m.name in members && Elements(members[m.name], m.isArray).Ok? {
        ScalarsMeasured(Slot(group, Some(m.name)), m.kind, Elements(members[m.name], m.isArray).value);
      }
    }
  }

  lemma FieldMeasured(f: Field, files: Files, value: map<Octets, Value>)
    ensures FieldEntries(f, files, value).Ok? ==> AllMeasured(FieldEntries(f, files, value).value)
  {
    if f.name in value && !value[f.name].Null? {
      match f
      case Group(name, declared) => if value[name].Object? { GroupMeasured(name, declared, value[name].members); }
      case File(name, isArray) =>
        if Elements(value[name], isArray).Ok? {
          UploadsMeasured(Slot(name, None), files, Elements(value[name], isArray).value);
        }
      case Plain(name, kind, isArray) =>
        if Elements(value[name], isArray).Ok? {
          ScalarsMeasured(Slot(name, None), kind, Elements(value[name], isArray).value);
        }
    }
  }

  lemma {:induction false} EntriesMeasured(fields: seq<Field>, files: Files, value: map<Octets, Value>)
    ensures AllEntries(fields, files, value).Ok? ==> AllMeasured(AllEntries(fields, files, value).value)
  {
    if fields != [] {
      FieldMeasured(fields[0], files, value);
      EntriesMeasured(fields[1..], files, value);
    }
  }

  lemma {:induction false} FilesAreMeasured(entries: seq<Entry>)
    requires AllMeasured(entries)
    ensures forall f :: f in FilesOf(entries) ==> Measured(f)
  {
    if entries != [] {
      assert entries[0] in entries;
      forall e | e in entries[1..] ensures e in entries {}
      FilesAreMeasured(entries[1..]);
    }
  }

  /**
   * A multipart body's parts: the walk's error, or its entries unless their inline files decode to more
   * than the limit.
   */
  method EncodeMultipart(fields: seq<Field>, files: Files, value: map<Octets, Value>, limit: int) returns (r: Written)
    ensures var written := AllEntries(fields, files, value);
      r == if written.Ok? && InlineBytes(FilesOf(written.value)) > limit then Err(FileTooLarge) else written
  {
    r := EmitFields(fields, files, value);
    if r.Err? {
      return;
    }
    EntriesMeasured(fields, files, value);
    FilesAreMeasured(r.value);
    var fits := AssertInlineBudget(FilesOf(r.value), limit);
    if !fits {
      r := Err(FileTooLarge);
    }
  }
}
