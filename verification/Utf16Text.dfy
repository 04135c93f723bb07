/** UTF-16 text cut without splitting a surrogate pair. */
module Utf16Text {
  type Unit = u: int | 0 <= u < 0x10000

  predicate High(u: Unit) {
    0xD800 <= u <= 0xDBFF
  }

  predicate Low(u: Unit) {
    0xDC00 <= u <= 0xDFFF
  }

  /** Every surrogate stands in a pair. */
  predicate WellFormed(s: seq<Unit>) {
    s == [] ||
    if High(s[0]) then |s| > 1 && Low(s[1]) && WellFormed(s[2..])
    else !Low(s[0]) && WellFormed(s[1..])
  }

  /** `truncateWellFormed`. */
  function Truncated(text: seq<Unit>, limit: nat): seq<Unit> {
    if |text| <= limit then text
    else text[..if limit > 0 && High(text[limit - 1]) then limit - 1 else limit]
  }

  /** A cut between two whole characters leaves both sides well formed. */
  lemma {:induction false} WellFormedCut(s: seq<Unit>, n: nat)
    requires WellFormed(s) && n <= |s|
    ensures WellFormed(s[..n]) <==> n == 0 || !High(s[n - 1])
  {
    if n > 0 {
      assert s[..n][0] == s[0];
      if High(s[0]) {
        if n > 1 {
          assert s[..n][2..] == s[2..][..n - 2];
          WellFormedCut(s[2..], n - 2);
        }
      } else {
        assert s[..n][1..] == s[1..][..n - 1];
        WellFormedCut(s[1..], n - 1);
      }
    }
  }

  /** The result is the longest well-formed prefix within the limit. */
  lemma TruncatedIsLongest(text: seq<Unit>, limit: nat)
    requires WellFormed(text)
    ensures WellFormed(Truncated(text, limit)) && |Truncated(text, limit)| <= limit && Truncated(text, limit) <= text
    ensures forall n :: |Truncated(text, limit)| < n <= limit && n <= |text| ==> !WellFormed(text[..n])
  {
    if |text| > limit {
      WellFormedCut(text, limit);
      if limit > 0 && High(text[limit - 1]) {
        WellFormedCut(text, limit - 1);
        HighAlone(text, limit - 1);
      }
    }
  }

  lemma {:induction false} HighAlone(s: seq<Unit>, n: nat)
    requires WellFormed(s) && n < |s| && High(s[n])
    ensures n == 0 || !High(s[n - 1])
  {
    if High(s[0]) {
      if n > 1 { HighAlone(s[2..], n - 2); }
    } else if n > 0 {
      HighAlone(s[1..], n - 1);
    }
  }
}
