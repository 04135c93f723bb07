/** Byte budgets: how large a JSON field is, clamping it to fit, and admitting items to a page. */
module PayloadBudget {
  import opened Utf8Text

  /** The octets of one character inside a JSON string. */
  function EscapedSize(c: Scalar): (n: nat)
    ensures n >= |CharBytes(c)|
  {
    if c == 0x22 || c == 0x5C || c == 8 || c == 9 || c == 10 || c == 12 || c == 13 then 2
    else if c < 0x20 then 6
    else |CharBytes(c)|
  }

  /** The size of a JSON string, without its quotes. */
  function TextSize(text: Characters): (n: nat)
    ensures n >= |Encode(text)|
  {
    if text == [] then 0 else TextSize(text[..|text| - 1]) + EscapedSize(text[|text| - 1])
  }

  lemma {:induction false} TextSizeGrows(text: Characters, j: nat, k: nat)
    requires j <= k <= |text|
    ensures TextSize(text[..j]) <= TextSize(text[..k])
  {
    if j < k {
      assert text[..k][..k - 1] == text[..k - 1];
      TextSizeGrows(text, j, k - 1);
    }
  }

  /**
   * What `measureJson(build(value))` gives: it grows with the value's prefixes, and is no less than the
   * value itself.
   */
  ghost predicate Measures(size: Characters -> int, text: Characters) {
    && (forall j, k :: 0 <= j <= k <= |text| ==> size(text[..j]) <= size(text[..k]))
    && (forall k :: 0 <= k <= |text| ==> size(text[..k]) >= Offset(text, k))
  }

  /** The longest prefix that fits; nothing when not even that fits. */
  ghost predicate LongestFitting(text: Characters, maxBytes: int, size: Characters -> int, k: nat) {
    && k <= |text| && (k > 0 ==> size(text[..k]) <= maxBytes)
    && (forall j :: k < j <= |text| ==> size(text[..j]) > maxBytes)
  }

  /** `clampJsonField`. */
  method ClampJsonField(text: Characters, maxBytes: int, size: Characters -> int) returns (r: Characters, ghost k: nat)
    requires Measures(size, text)
    ensures LongestFitting(text, maxBytes, size, k) && r == text[..k]
  {
    assert text[..|text|] == text;
    if size(text) <= maxBytes { return text, |text|; }
    var shorter, most := TruncateUtf8(text, if maxBytes > 0 then maxBytes else 0);
    var encoded := Encode(shorter);
    var cuts := Boundaries(shorter, encoded);
    Beyond(text, maxBytes, size, most);
    var low := 0;
    var high := |cuts| - 1;
    while low < high
      invariant 0 <= low <= high < |cuts| == |shorter| + 1
      invariant low > 0 ==> size(text[..low]) <= maxBytes
      invariant forall j :: high < j <= |text| ==> size(text[..j]) > maxBytes
    {
      var mid := (low + high + 1) / 2;
      PrefixAt(text, shorter, most, mid);
      var candidate := Decode(encoded[..cuts[mid]]);
      if size(candidate) <= maxBytes {
        low := mid;
      } else {
        TooLarge(text, maxBytes, size, mid);
        high := mid - 1;
      }
    }
    PrefixAt(text, shorter, most, low);
    k := low;
    r := Decode(encoded[..cuts[low]]);
  }

  /** Decoding the octets up to a cut gives the prefix that ends there. */
  lemma PrefixAt(text: Characters, shorter: Characters, most: nat, k: nat)
    requires most <= |text| && shorter == text[..most] && k <= most
    ensures 0 <= Offsets(shorter, |shorter|)[k] <= |Encode(shorter)|
    ensures Decode(Encode(shorter)[..Offsets(shorter, |shorter|)[k]]) == text[..k]
  {
    OffsetsAt(shorter, |shorter|, k);
    EncodePrefix(shorter, k);
    assert shorter[..k] == text[..k];
    DecodeEncode(text[..k]);
  }

  lemma TooLarge(text: Characters, maxBytes: int, size: Characters -> int, k: nat)
    requires Measures(size, text) && k <= |text| && size(text[..k]) > maxBytes
    ensures forall j :: k <= j <= |text| ==> size(text[..j]) > maxBytes
  {
    forall j | k <= j <= |text| ensures size(text[..j]) > maxBytes { assert size(text[..k]) <= size(text[..j]); }
  }

  /** No prefix longer than the octets allow can fit once it is escaped. */
  lemma Beyond(text: Characters, maxBytes: int, size: Characters -> int, most: nat)
    requires Measures(size, text)
    requires if maxBytes > 0 then LongestPrefix(text, most, maxBytes) else most == 0
    ensures most <= |text| && forall j :: most < j <= |text| ==> size(text[..j]) > maxBytes
  {
    forall j | most < j <= |text| ensures size(text[..j]) > maxBytes {
      OffsetsGrow(text, most + 1, j);
      OffsetsGrow(text, most, most + 1);
      assert size(text[..j]) >= Offset(text, j);
    }
  }

  /** What a page has cost: its items, with a comma between each two. */
  function PageCost(costs: seq<nat>): nat {
    if costs == [] then 0 else PageCost(costs[..|costs| - 1]) + costs[|costs| - 1] + if |costs| == 1 then 0 else 1
  }

  function PartsCost(parts: seq<nat>): nat {
    if parts == [] then 0 else PartsCost(parts[..|parts| - 1]) + parts[|parts| - 1]
  }

  /** `createPageBudget`; a part is given by its measured size. */
  class PageBudget {
    const maxBytes: int
    const reserveBytes: int
    var admitted: nat
    var usedBytes: int
    var refused: bool
    ghost var costs: seq<nat>
    ghost var offered: seq<nat>

    /** The page holds the longest run of the offered items, from the first on, that fits the budget. */
    ghost predicate Valid()
      reads this
    {
      && admitted == |costs| <= |offered| && costs == offered[..admitted]
      && usedBytes == reserveBytes + PageCost(costs)
      && (admitted > 0 ==> usedBytes <= maxBytes)
      && (if refused then admitted < |offered| && reserveBytes + PageCost(offered[..admitted + 1]) > maxBytes
         else admitted == |offered|)
    }

    constructor (maxBytes: int, reserveBytes: int)
      ensures Valid() && offered == [] && this.maxBytes == maxBytes && this.reserveBytes == reserveBytes
    {
      this.maxBytes := maxBytes;
      this.reserveBytes := reserveBytes;
      admitted := 0;
      usedBytes := reserveBytes;
      refused := false;
      costs := [];
      offered := [];
    }

    method Admit(parts: seq<nat>) returns (admits: bool)
      requires Valid()
      modifies this
      ensures Valid() && offered == old(offered) + [PartsCost(parts)]
      ensures admits <==> admitted == old(admitted) + 1
      ensures !admits ==> refused && costs == old(costs)
    {
      ghost var before := offered;
      offered := offered + [PartsCost(parts)];
      assert offered[..|before|] == before;
      if refused {
        assert offered[..admitted] == before[..admitted] && offered[..admitted + 1] == before[..admitted + 1];
        return false;
      }
      assert before[..admitted] == before && offered[..admitted + 1] == offered;
      var cost := if admitted == 0 then 0 else 1;
      for i := 0 to |parts|
        invariant cost == (if admitted == 0 then 0 else 1) + PartsCost(parts[..i])
      {
        assert parts[..i + 1][..i] == parts[..i];
        cost := cost + parts[i];
      }
      assert parts[..|parts|] == parts;
      if usedBytes + cost > maxBytes {
        refused := true;
        return false;
      }
      usedBytes := usedBytes + cost;
      admitted := admitted + 1;
      costs := offered;
      admits := true;
    }
  }
}
