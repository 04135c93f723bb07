/** Path parameters: how each style writes a value, and how it is read back. */
module PathSegments {
  import opened Wrappers
  import opened PercentCoding
  import opened QueryText
  import opened RoutePlaceholders

  datatype Style = Simple | Label | Matrix

  datatype PathValue = One(value: Octets) | Many(items: seq<Octets>)

  /** An exploded matrix array: the key before every item. */
  function MatrixItems(key: string, items: seq<string>): string {
    if items == [] then "" else [';'] + (key + ['='] + items[0]) + MatrixItems(key, items[1..])
  }

  /** `pathSegment`. */
  function Segment(style: Style, explode: bool, name: Octets, value: PathValue): string {
    var key := Encode(name);
    match value
    case One(v) =>
      (match style
       case Simple => Encode(v)
       case Label => ['.'] + Encode(v)
       case Matrix => [';'] + (key + ['='] + Encode(v)))
    case Many(items) =>
      var texts := EncodeItems(items, false, Comma);
      (match style
       case Simple => Join(texts, ',')
       case Label => ['.'] + Join(texts, if explode then '.' else ',')
       case Matrix => if explode then MatrixItems(key, texts) else [';'] + (key + ['='] + Join(texts, ',')))
  }

  /** What stands behind a parameter's own key. */
  function Behind(name: Octets, text: string): Option<string> {
    var cut := Cut(text, '=');
    if '=' in text && Decode(cut.0) == Some(name) then Some(cut.1) else None
  }

  function Values(name: Octets, texts: seq<string>): Option<seq<string>> {
    if texts == [] then Some([])
    else
      var first, rest := Behind(name, texts[0]), Values(name, texts[1..]);
      if first.None? || rest.None? then None else Some([first.value] + rest.value)
  }

  predicate Starts(segment: string, mark: char) {
    segment != "" && segment[0] == mark
  }

  function DecodeSome(texts: Option<seq<string>>): Option<seq<Octets>> {
    if texts.None? then None else DecodeAll(texts.value)
  }

  /** What a server that knows the parameter and its style reads from a segment of items. */
  function ReadItems(style: Style, explode: bool, name: Octets, segment: string): Option<seq<Octets>> {
    match style
    case Simple => DecodeAll(Split(segment, ','))
    case Label =>
      if !Starts(segment, '.') then None else DecodeAll(Split(segment[1..], if explode then '.' else ','))
    case Matrix =>
      if !Starts(segment, ';') then None
      else if explode then DecodeSome(Values(name, Split(segment[1..], ';')))
      else
        var items := Behind(name, segment[1..]);
        if items.None? then None else DecodeAll(Split(items.value, ','))
  }

  function ReadOne(style: Style, name: Octets, segment: string): Option<Octets> {
    match style
    case Simple => Decode(segment)
    case Label => if !Starts(segment, '.') then None else Decode(segment[1..])
    case Matrix =>
      var value := if Starts(segment, ';') then Behind(name, segment[1..]) else None;
      if value.None? then None else Decode(value.value)
  }

  lemma BehindKey(name: Octets, text: string)
    ensures Behind(name, Encode(name) + ['='] + text) == Some(text)
  {
    EncodedChars(name);
    DecodeEncode(name);
    CutAt(Encode(name), text, '=');
    assert (Encode(name) + ['='] + text)[|Encode(name)|] == '=';
  }

  /** A single value is read back in every style. */
  lemma OneReadsBack(style: Style, explode: bool, name: Octets, v: Octets)
    ensures ReadOne(style, name, Segment(style, explode, name, One(v))) == Some(v)
  {
    DecodeEncode(v);
    match style
    case Simple =>
    case Label => assert (['.'] + Encode(v))[1..] == Encode(v);
    case Matrix =>
      assert ([';'] + (Encode(name) + ['='] + Encode(v)))[1..] == Encode(name) + ['='] + Encode(v);
      BehindKey(name, Encode(v));
  }

  lemma ValuesNext(name: Octets, value: string, rest: seq<string>, values: seq<string>)
    requires Values(name, rest) == Some(values)
    ensures Values(name, [Encode(name) + ['='] + value] + rest) == Some([value] + values)
  {
    BehindKey(name, value);
    var texts := [Encode(name) + ['='] + value] + rest;
    assert texts[1..] == rest;
  }

  lemma KeyedClean(name: Octets, item: string)
    requires ';' !in item
    ensures ';' !in Encode(name) + ['='] + item
  {
    EncodedChars(name);
  }

  lemma MatrixHead(key: string, items: seq<string>)
    requires items != []
    ensures Starts(MatrixItems(key, items), ';')
    ensures MatrixItems(key, items)[1..] == key + ['='] + items[0] + MatrixItems(key, items[1..])
  {
  }

  lemma {:induction false} MatrixSplits(name: Octets, items: seq<string>)
    requires items != [] && forall x :: x in items ==> ';' !in x
    ensures Values(name, Split(MatrixItems(Encode(name), items)[1..], ';')) == Some(items)
  {
    var key, rest := Encode(name), items[1..];
    var first := key + ['='] + items[0];
    assert items[0] in items;
    KeyedClean(name, items[0]);
    MatrixHead(key, items);
    if rest == [] {
      assert first + MatrixItems(key, rest) == first;
      SplitNone(first, ';');
      ValuesNext(name, items[0], [], []);
      assert [first] + [] == [first] && [items[0]] + [] == items;
    } else {
      var behind := MatrixItems(key, rest);
      forall x | x in rest ensures ';' !in x { assert x in items; }
      MatrixSplits(name, rest);
      MatrixHead(key, rest);
      assert behind == [';'] + behind[1..];
      assert first + behind == first + [';'] + behind[1..];
      SplitHead(first, behind[1..], ';');
      ValuesNext(name, items[0], Split(behind[1..], ';'), rest);
      assert [items[0]] + rest == items;
    }
  }

  /** Items are read back in every style but the exploded label, whose dots encoding leaves raw. */
  lemma ManyReadBack(style: Style, explode: bool, name: Octets, items: seq<Octets>)
    requires items != [] && !(style == Label && explode)
    ensures ReadItems(style, explode, name, Segment(style, explode, name, Many(items))) == Some(items)
  {
    var texts := EncodeItems(items, false, Comma);
    EncodedChars(name);
    ItemsChars(items, false, Comma);
    ItemsDecode(items, false, Comma);
    SplitJoin(texts, ',');
    match style
    case Simple =>
    case Label => assert (['.'] + Join(texts, ','))[1..] == Join(texts, ',');
    case Matrix =>
      if explode {
        MatrixHead(Encode(name), texts);
        MatrixSplits(name, texts);
      } else {
        assert ([';'] + (Encode(name) + ['='] + Join(texts, ',')))[1..] == Encode(name) + ['='] + Join(texts, ',');
        BehindKey(name, Join(texts, ','));
      }
  }

  lemma {:induction false} DecodeAllLength(texts: seq<string>)
    ensures DecodeAll(texts).Some? ==> |DecodeAll(texts).value| == |texts|
  {
    if texts != [] { DecodeAllLength(texts[1..]); }
  }

  /** An exploded label is read back exactly when no item is written with a dot. */
  lemma ExplodedLabelExactly(name: Octets, items: seq<Octets>)
    requires items != []
    ensures ReadItems(Label, true, name, Segment(Label, true, name, Many(items))) == Some(items)
      <==> forall v :: v in items ==> '.' !in Encode(v)
  {
    var texts := EncodeItems(items, false, Comma);
    assert (['.'] + Join(texts, '.'))[1..] == Join(texts, '.');
    ItemsDecode(items, false, Comma);
    if forall v :: v in items ==> '.' !in Encode(v) {
      forall x | x in texts ensures '.' !in x { EncodedItem(items, x); }
      SplitJoin(texts, '.');
    } else {
      var v :| v in items && '.' in Encode(v);
      ItemEncoded(items, v);
      JoinCounts(texts, '.', Encode(v));
      OccursIn(Encode(v), '.');
      SplitCounts(Join(texts, '.'), '.');
      DecodeAllLength(Split(Join(texts, '.'), '.'));
    }
  }

  lemma {:induction false} EncodedItem(items: seq<Octets>, x: string)
    requires x in EncodeItems(items, false, Comma)
    ensures exists v :: v in items && Encode(v) == x
  {
    if x == Encode(items[0]) {
      assert items[0] in items;
    } else {
      EncodedItem(items[1..], x);
      var v :| v in items[1..] && Encode(v) == x;
      assert v in items;
    }
  }

  lemma {:induction false} ItemEncoded(items: seq<Octets>, v: Octets)
    requires v in items
    ensures Encode(v) in EncodeItems(items, false, Comma)
  {
    if v != items[0] {
      assert v in items[1..];
      ItemEncoded(items[1..], v);
    }
  }

  // The characters of a segment.

  lemma {:induction false} JoinWire(items: seq<string>, sep: char)
    requires forall x, c :: x in items && c in x ==> WireChar(c, false)
    ensures forall c :: c in Join(items, sep) ==> WireChar(c, false) || c == sep
  {
    if |items| > 1 {
      JoinWire(items[1..], sep);
      assert items[0] in items;
    } else if |items| == 1 {
      assert items[0] in items;
    }
  }

  /** The characters of a segment: encoded text, and the delimiters of its style. */
  lemma SegmentChars(style: Style, explode: bool, name: Octets, value: PathValue)
    ensures forall c :: c in Segment(style, explode, name, value) ==>
      WireChar(c, false) || c == '.' || c == ',' || c == ';' || c == '='
  {
    EncodedChars(name);
    if value.One? {
      EncodedChars(value.value);
    } else {
      var texts := EncodeItems(value.items, false, Comma);
      ItemsChars(value.items, false, Comma);
      JoinWire(texts, ',');
      JoinWire(texts, '.');
      MatrixChars(Encode(name), texts);
    }
  }

  /** Every segment that `pathSegment` writes holds no brace, and no dollar sign. */
  lemma SegmentBraceless(style: Style, explode: bool, name: Octets, value: PathValue)
    ensures Braceless(Segment(style, explode, name, value)) && '$' !in Segment(style, explode, name, value)
  {
    SegmentChars(style, explode, name, value);
  }

  lemma {:induction false} MatrixChars(key: string, items: seq<string>)
    requires forall c :: c in key ==> WireChar(c, false)
    requires forall x, c :: x in items && c in x ==> WireChar(c, false)
    ensures forall c :: c in MatrixItems(key, items) ==> WireChar(c, false) || c == ';' || c == '='
  {
    if items != [] {
      MatrixChars(key, items[1..]);
      assert items[0] in items;
    }
  }
}
