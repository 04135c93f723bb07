/** Form bodies: the typed walk that both encodings share, and what a reader gets back from it. */
module FormFields {
  import opened Wrappers
  import opened PercentCoding
  import opened InlineFiles

  datatype Kind = StringKind | IntegerKind | NumberKind | BooleanKind

  datatype FieldMember = FieldMember(name: Octets, kind: Kind, isArray: bool)

  datatype Field =
    | Plain(name: Octets, kind: Kind, isArray: bool)
    | Group(name: Octets, members: seq<FieldMember>)
    | File(name: Octets, isArray: bool)

  datatype Content = Said(value: Octets) | Carried(file: FileContent)

  /** Where on the wire a value goes: a field, or a member of a group. */
  datatype Slot = Slot(name: Octets, member: Option<Octets>)

  datatype Entry = Entry(slot: Slot, content: Content)

  datatype Files = Files(sources: set<Source>, grammar: Grammar)

  /** `formatScalar`. */
  function FormatScalar(v: Value, kind: Kind): Result<Octets, Problem> {
    match (kind, v)
    case (StringKind, Str(chars)) => Ok(chars)
    case (IntegerKind, Num(text, safeInteger)) => if safeInteger then Ok(text) else Err(InvalidType)
    case (NumberKind, Num(text, _)) => Ok(text)
    case (BooleanKind, Flag(on)) => Ok(if on then [116, 114, 117, 101] else [102, 97, 108, 115, 101])
    case _ => Err(InvalidType)
  }

  function Ascii(text: string): Octets
    requires forall i :: 0 <= i < |text| ==> text[i] as int < 128
  {
    if text == "" then [] else [text[0] as Octet] + Ascii(text[1..])
  }

  /** A scalar is written exactly when it is of its field's kind, a text or a number as it is. */
  lemma ScalarsAre(v: Value, kind: Kind)
    ensures FormatScalar(v, kind) == Err(InvalidType) || FormatScalar(v, kind).Ok?
    ensures FormatScalar(v, kind).Ok? <==>
      || (kind == StringKind && v.Str?) || (kind == BooleanKind && v.Flag?)
      || (kind == NumberKind && v.Num?) || (kind == IntegerKind && v.Num? && v.safeInteger)
    ensures FormatScalar(v, kind).Ok? && v.Str? ==> FormatScalar(v, kind).value == v.chars
    ensures FormatScalar(v, kind).Ok? && v.Num? ==> FormatScalar(v, kind).value == v.text
  {
  }

  /** A flag is written as its word. */
  lemma FlagsAre(on: bool)
    ensures FormatScalar(Flag(on), BooleanKind) == Ok(if on then Ascii("true") else Ascii("false"))
  {
    assert Ascii("true") == [116, 114, 117, 101];
    assert Ascii("false") == [102, 97, 108, 115, 101];
  }

  // What each part of the walk writes, or the first error it meets.

  type Written = Result<seq<Entry>, Problem>

  function Then(a: Written, b: Written): Written {
    if a.Err? then a else if b.Err? then b else Ok(a.value + b.value)
  }

  function Scalars(slot: Slot, kind: Kind, items: seq<Value>): Written {
    if items == [] then Ok([]) else
      var text := FormatScalar(items[0], kind);
      if text.Err? then Err(text.error) else Then(Ok([Entry(slot, Said(text.value))]), Scalars(slot, kind, items[1..]))
  }

  function Uploads(slot: Slot, files: Files, items: seq<Value>): Written {
    if items == [] then Ok([]) else
      var file := ReadFile(items[0], files.sources, files.grammar);
      if file.Err? then Err(file.error)
        else Then(Ok([Entry(slot, Carried(file.value))]), Uploads(slot, files, items[1..]))
  }

  /** The elements of an argument: itself, or its items when it is an array. */
  function Elements(v: Value, isArray: bool): Result<seq<Value>, Problem> {
    if !isArray then Ok([v]) else if v.Items? then Ok(v.items) else Err(InvalidType)
  }

  function MemberTexts(group: Octets, m: FieldMember, members: map<Octets, Value>): Written {
    if m.name !in members then Ok([])
    else if members[m.name].Null? then Err(NullNotAllowed)
    else
      var elements := Elements(members[m.name], m.isArray);
      if elements.Err? then Err(elements.error) else Scalars(Slot(group, Some(m.name)), m.kind, elements.value)
  }

  function GroupTexts(group: Octets, declared: seq<FieldMember>, members: map<Octets, Value>): Written {
    if declared == [] then Ok([])
      else Then(MemberTexts(group, declared[0], members), GroupTexts(group, declared[1..], members))
  }

  function MemberNames(declared: seq<FieldMember>): set<Octets> {
    if declared == [] then {} else {declared[0].name} + MemberNames(declared[1..])
  }

  function FieldEntries(f: Field, files: Files, value: map<Octets, Value>): Written {
    if f.name !in value then Ok([])
    else if value[f.name].Null? then Err(NullNotAllowed)
    else match f
      case Group(name, declared) =>
        if !value[name].Object? then Err(InvalidType)
        else if !(value[name].members.Keys <= MemberNames(declared)) then Err(UnknownArgument)
        else GroupTexts(name, declared, value[name].members)
      case File(name, isArray) =>
        var elements := Elements(value[name], isArray);
        if elements.Err? then Err(elements.error) else Uploads(Slot(name, None), files, elements.value)
      case Plain(name, kind, isArray) =>
        var elements := Elements(value[name], isArray);
        if elements.Err? then Err(elements.error) else Scalars(Slot(name, None), kind, elements.value)
  }

  function AllEntries(fields: seq<Field>, files: Files, value: map<Octets, Value>): Written {
    if fields == [] then Ok([]) else Then(FieldEntries(fields[0], files, value), AllEntries(fields[1..], files, value))
  }

  // The walk.

  lemma ThenTwice(a: seq<Entry>, b: seq<Entry>, c: Written)
    ensures Then(Ok(a), Then(Ok(b), c)) == Then(Ok(a + b), c)
  {
    if c.Ok? { assert a + (b + c.value) == (a + b) + c.value; }
  }

  lemma ThenNothing(a: seq<Entry>)
    ensures Then(Ok(a), Ok([])) == Ok(a)
  {
    assert a + [] == a;
  }

  method EmitTexts(slot: Slot, kind: Kind, items: seq<Value>) returns (r: Written)
    ensures r == Scalars(slot, kind, items)
  {
    var out: seq<Entry> := [];
    ghost var goal := Scalars(slot, kind, items);
    assert items[0..] == items && Then(Ok([]), goal) == goal by {
      if goal.Ok? { assert [] + goal.value == goal.value; }
    }
    for i := 0 to |items|
      invariant Then(Ok(out), Scalars(slot, kind, items[i..])) == goal
    {
      assert items[i..][0] == items[i] && items[i..][1..] == items[i + 1..];
      var text := FormatScalar(items[i], kind);
      if text.Err? {
        return Err(text.error);
      }
      ThenTwice(out, [Entry(slot, Said(text.value))], Scalars(slot, kind, items[i + 1..]));
      out := out + [Entry(slot, Said(text.value))];
    }
    ThenNothing(out);
    r := Ok(out);
  }

  method EmitUploads(slot: Slot, files: Files, items: seq<Value>) returns (r: Written)
    ensures r == Uploads(slot, files, items)
  {
    var out: seq<Entry> := [];
    ghost var goal := Uploads(slot, files, items);
    assert items[0..] == items && Then(Ok([]), goal) == goal by {
      if goal.Ok? { assert [] + goal.value == goal.value; }
    }
    for i := 0 to |items|
      invariant Then(Ok(out), Uploads(slot, files, items[i..])) == goal
    {
      assert items[i..][0] == items[i] && items[i..][1..] == items[i + 1..];
      var file := ReadFile(items[i], files.sources, files.grammar);
      if file.Err? {
        return Err(file.error);
      }
      ThenTwice(out, [Entry(slot, Carried(file.value))], Uploads(slot, files, items[i + 1..]));
      out := out + [Entry(slot, Carried(file.value))];
    }
    ThenNothing(out);
    r := Ok(out);
  }

  method EmitGroup(group: Octets, declared: seq<FieldMember>, members: map<Octets, Value>) returns (r: Written)
    ensures r == GroupTexts(group, declared, members)
  {
    var out: seq<Entry> := [];
    ghost var goal := GroupTexts(group, declared, members);
    assert declared[0..] == declared && Then(Ok([]), goal) == goal by {
      if goal.Ok? { assert [] + goal.value == goal.value; }
    }
    for i := 0 to |declared|
      invariant Then(Ok(out), GroupTexts(group, declared[i..], members)) == goal
    {
      var m := declared[i];
      ghost var rest := GroupTexts(group, declared[i + 1..], members);
      assert declared[i..][0] == m && declared[i..][1..] == declared[i + 1..];
      var made: Written := Ok([]);
      if m.name in members {
        if members[m.name].Null? {
          return Err(NullNotAllowed);
        }
        var elements := Elements(members[m.name], m.isArray);
        if elements.Err? {
          return Err(elements.error);
        }
        made := EmitTexts(Slot(group, Some(m.name)), m.kind, elements.value);
        if made.Err? {
          return made;
        }
      }
      ThenTwice(out, made.value, rest);
      out := out + made.value;
    }
    ThenNothing(out);
    r := Ok(out);
  }

  method EmitField(f: Field, files: Files, value: map<Octets, Value>) returns (r: Written)
    ensures r == FieldEntries(f, files, value)
  {
    if f.name !in value {
      return Ok([]);
    }
    if value[f.name].Null? {
      return Err(NullNotAllowed);
    }
    match f
    case Group(name, declared) =>
      if !value[name].Object? {
        return Err(InvalidType);
      }
      if !(value[name].members.Keys <= MemberNames(declared)) {
        return Err(UnknownArgument);
      }
      r := EmitGroup(name, declared, value[name].members);
    case File(name, isArray) =>
      var elements := Elements(value[name], isArray);
      if elements.Err? {
        return Err(elements.error);
      }
      r := EmitUploads(Slot(name, None), files, elements.value);
    case Plain(name, kind, isArray) =>
      var elements := Elements(value[name], isArray);
      if elements.Err? {
        return Err(elements.error);
      }
      r := EmitTexts(Slot(name, None), kind, elements.value);
  }

  /** `emitFields`. */
  method EmitFields(fields: seq<Field>, files: Files, value: map<Octets, Value>) returns (r: Written)
    ensures r == AllEntries(fields, files, value)
  {
    var out: seq<Entry> := [];
    ghost var goal := AllEntries(fields, files, value);
    assert fields[0..] == fields && Then(Ok([]), goal) == goal by {
      if goal.Ok? { assert [] + goal.value == goal.value; }
    }
    for i := 0 to |fields|
      invariant Then(Ok(out), AllEntries(fields[i..], files, value)) == goal
    {
      assert fields[i..][0] == fields[i] && fields[i..][1..] == fields[i + 1..];
      var made := EmitField(fields[i], files, value);
      if made.Err? {
        return made;
      }
      ThenTwice(out, made.value, AllEntries(fields[i + 1..], files, value));
      out := out + made.value;
    }
    ThenNothing(out);
    r := Ok(out);
  }
}
