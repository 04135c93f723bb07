/** Text as Unicode scalar values, its UTF-8 octets (RFC 3629 section 3), and cutting it at character boundaries. */
module Utf8Text {
  import opened Wrappers

  type Scalar = c: int | 0 <= c < 0xD800 || 0xE000 <= c < 0x110000

  type Characters = seq<Scalar>

  predicate Continuation(b: int) {
    0x80 <= b < 0xC0
  }

  /** The octets of one character. */
  function CharBytes(c: Scalar): (r: seq<int>)
    ensures 1 <= |r| <= 4 && !Continuation(r[0])
    ensures forall i :: 1 <= i < |r| ==> Continuation(r[i])
  {
    if c < 0x80 then [c]
    else if c < 0x800 then [0xC0 + c / 0x40, 0x80 + c % 0x40]
    else if c < 0x10000 then [0xE0 + c / 0x40 / 0x40, 0x80 + c / 0x40 % 0x40, 0x80 + c % 0x40]
    else [0xF0 + c / 0x40 / 0x40 / 0x40, 0x80 + c / 0x40 / 0x40 % 0x40, 0x80 + c / 0x40 % 0x40, 0x80 + c % 0x40]
  }

  function Encode(text: Characters): seq<int> {
    if text == [] then [] else Encode(text[..|text| - 1]) + CharBytes(text[|text| - 1])
  }

  /** Where the first `k` characters end. */
  function Offset(text: Characters, k: nat): nat
    requires k <= |text|
  {
    |Encode(text[..k])|
  }

  lemma OffsetNext(text: Characters, k: nat)
    requires k < |text|
    ensures Encode(text[..k + 1]) == Encode(text[..k]) + CharBytes(text[k])
    ensures Offset(text, k + 1) == Offset(text, k) + |CharBytes(text[k])|
  {
    assert text[..k + 1][..k] == text[..k];
  }

  lemma {:induction false} OffsetsGrow(text: Characters, j: nat, k: nat)
    requires j <= k <= |text|
    ensures Offset(text, j) + (k - j) <= Offset(text, k)
  {
    if j < k {
      OffsetsGrow(text, j, k - 1);
      OffsetNext(text, k - 1);
    }
  }

  lemma {:induction false} EncodePrefix(text: Characters, k: nat)
    requires k <= |text|
    ensures Offset(text, k) <= |Encode(text)| && Encode(text)[..Offset(text, k)] == Encode(text[..k])
    decreases |text|
  {
    if k == |text| {
      assert text[..k] == text;
    } else {
      var rest := text[..|text| - 1];
      assert rest[..k] == text[..k];
      EncodePrefix(rest, k);
    }
  }

  /** The octets of one character, as marks: only the first does not continue. */
  ghost predicate Marked(b: seq<int>) {
    forall i :: 0 <= i < |b| ==> (Continuation(b[i]) <==> i != 0)
  }

  lemma CharMarked(c: Scalar)
    ensures Marked(CharBytes(c))
  {
  }

  lemma MarkAt(before: seq<int>, b: seq<int>, whole: seq<int>, at: nat)
    requires |before| + |b| <= |whole| && whole[..|before| + |b|] == before + b
    requires Marked(b) && |before| <= at < |before| + |b|
    ensures Continuation(whole[at]) <==> at != |before|
  {
    assert whole[..|before| + |b|][at] == b[at - |before|];
  }

  /** Among the octets of a character only the first does not continue one. */
  lemma StartsWithin(text: Characters, k: nat, at: nat)
    requires k < |text| && Offset(text, k) <= at < Offset(text, k + 1)
    ensures at < |Encode(text)| && (Continuation(Encode(text)[at]) <==> at != Offset(text, k))
  {
    OffsetNext(text, k);
    EncodePrefix(text, k + 1);
    CharMarked(text[k]);
    MarkAt(Encode(text[..k]), CharBytes(text[k]), Encode(text), at);
  }

  /** An octet continues a character exactly when no character starts at it. */
  lemma {:induction false} StartsAt(text: Characters, at: nat) returns (k: nat)
    requires at < |Encode(text)|
    ensures k < |text| && Offset(text, k) <= at < Offset(text, k + 1)
    ensures Continuation(Encode(text)[at]) <==> Offset(text, k) != at
  {
    k := 0;
    assert text[..0] == [];
    while Offset(text, k + 1) <= at
      invariant k < |text| && Offset(text, k) <= at
      decreases |text| - k
    {
      assert text[..|text|] == text;
      k := k + 1;
    }
    StartsWithin(text, k, at);
  }

  /** The length of the character a leading octet announces. */
  function LeadLength(b: int): nat {
    if b < 0x80 then 1 else if b < 0xE0 then 2 else if b < 0xF0 then 3 else 4
  }

  function ValueOf(bytes: seq<int>): int
    requires 1 <= |bytes| <= 4
  {
    if |bytes| == 1 then bytes[0]
    else if |bytes| == 2 then (bytes[0] - 0xC0) * 0x40 + (bytes[1] - 0x80)
    else if |bytes| == 3 then ((bytes[0] - 0xE0) * 0x40 + (bytes[1] - 0x80)) * 0x40 + (bytes[2] - 0x80)
    else (((bytes[0] - 0xF0) * 0x40 + (bytes[1] - 0x80)) * 0x40 + (bytes[2] - 0x80)) * 0x40 + (bytes[3] - 0x80)
  }

  predicate IsScalar(c: int) {
    0 <= c < 0xD800 || 0xE000 <= c < 0x110000
  }

  const REPLACEMENT: Scalar := 0xFFFD

  /** `toString("utf8")`; what is not UTF-8 is read as the replacement character. */
  function Decode(bytes: seq<int>): Characters {
    if bytes == [] then []
    else
      var n := LeadLength(bytes[0]);
      if n <= |bytes| && IsScalar(ValueOf(bytes[..n])) then [ValueOf(bytes[..n])] + Decode(bytes[n..])
      else [REPLACEMENT] + Decode(bytes[1..])
  }

  lemma Sextets(n: int)
    requires n >= 0
    ensures n / 0x40 * 0x40 + n % 0x40 == n
  {
  }

  lemma CharBack(c: Scalar)
    ensures LeadLength(CharBytes(c)[0]) == |CharBytes(c)| && ValueOf(CharBytes(c)) == c
  {
    Sextets(c);
    Sextets(c / 0x40);
    Sextets(c / 0x40 / 0x40);
  }

  lemma DecodeChar(c: Scalar, rest: seq<int>)
    ensures Decode(CharBytes(c) + rest) == [c] + Decode(rest)
  {
    CharBack(c);
    var n := |CharBytes(c)|;
    var s := CharBytes(c) + rest;
    assert s[..n] == CharBytes(c) && s[n..] == rest;
  }

  lemma {:induction false} DecodeThen(text: Characters, rest: seq<int>)
    ensures Decode(Encode(text) + rest) == text + Decode(rest)
  {
    if text == [] {
      assert [] + rest == rest;
      assert text + Decode(rest) == Decode(rest);
    } else {
      var init, last := text[..|text| - 1], text[|text| - 1];
      DecodeThen(init, CharBytes(last) + rest);
      DecodeChar(last, rest);
      Regroup(Encode(init), CharBytes(last), rest);
      Regroup(init, [last], Decode(rest));
      assert text == init + [last];
    }
  }

  lemma DecodeEncode(text: Characters)
    ensures Decode(Encode(text)) == text
  {
    DecodeThen(text, []);
    assert Encode(text) + [] == Encode(text) && text + [] == text;
  }

  /** A text is its longest prefix that fits. */
  ghost predicate LongestPrefix(text: Characters, k: nat, maxBytes: int) {
    k <= |text| && Offset(text, k) <= maxBytes && (k < |text| ==> Offset(text, k + 1) > maxBytes)
  }

  /** `truncateUtf8`: no character is cut, and no shorter prefix is given than fits. */
  method TruncateUtf8(text: Characters, maxBytes: int) returns (r: Characters, ghost k: nat)
    ensures maxBytes <= 0 ==> r == [] && k == 0
    ensures maxBytes > 0 ==> LongestPrefix(text, k, maxBytes)
    ensures k <= |text| && r == text[..k]
  {
    if maxBytes <= 0 { return [], 0; }
    var encoded := Encode(text);
    assert text[..|text|] == text;
    if |encoded| <= maxBytes { return text, |text|; }
    var end := maxBytes;
    k := StartsAt(text, maxBytes);
    while end > 0 && Continuation(encoded[end])
      invariant Offset(text, k) <= end <= maxBytes < Offset(text, k + 1)
    {
      StartsWithin(text, k, end);
      end := end - 1;
    }
    StartsWithin(text, k, end);
    EncodePrefix(text, k);
    r := Decode(encoded[..end]);
    DecodeEncode(text[..k]);
  }

  /** The offsets of all prefixes. */
  function Offsets(text: Characters, n: nat): (r: seq<int>)
    requires n <= |text|
    ensures |r| == n + 1
  {
    if n == 0 then [0] else Offsets(text, n - 1) + [Offset(text, n)]
  }

  lemma {:induction false} OffsetsAt(text: Characters, n: nat, k: nat)
    requires k <= n <= |text|
    ensures Offsets(text, n)[k] == Offset(text, k)
  {
    assert text[..0] == [];
    if k < n { OffsetsAt(text, n - 1, k); }
  }

  /** `boundaries`: just the places where characters start or the text ends. */
  method Boundaries(ghost text: Characters, encoded: seq<int>) returns (cuts: seq<int>)
    requires encoded == Encode(text)
    ensures cuts == Offsets(text, |text|)
  {
    cuts := [0];
    ghost var k: nat := 0;
    forall j | 0 <= j <= |text| ensures Offset(text, j) <= |encoded| { EncodePrefix(text, j); }
    assert text[..0] == [] && text[..|text|] == text;
    for index := 1 to |encoded| + 1
      invariant k <= |text| && cuts == Offsets(text, k)
      invariant Offset(text, k) <= index - 1 && (k < |text| ==> index - 1 < Offset(text, k + 1))
        && (k == |text| ==> index - 1 == |encoded|)
    {
      BoundaryNext(text, k, index);
      if index == |encoded| || !Continuation(encoded[index]) {
        cuts := cuts + [index];
        k := k + 1;
      }
    }
  }

  lemma BoundaryNext(text: Characters, k: nat, index: nat)
    requires k < |text| && 1 <= index <= |Encode(text)| && Offset(text, k) <= index - 1 < Offset(text, k + 1)
    ensures (index == |Encode(text)| || !Continuation(Encode(text)[index])) <==> index == Offset(text, k + 1)
    ensures index == Offset(text, k + 1) && k + 1 < |text| ==> index < Offset(text, k + 2)
    ensures index == Offset(text, k + 1) && k + 1 == |text| ==> index == |Encode(text)|
  {
    assert text[..|text|] == text;
    assert k + 1 == |text| ==> text[..k + 1] == text;
    OffsetsGrow(text, k + 1, |text|);
    if index < Offset(text, k + 1) {
      StartsWithin(text, k, index);
    } else if k + 1 < |text| {
      OffsetNext(text, k + 1);
      StartsWithin(text, k + 1, index);
    }
  }
}
