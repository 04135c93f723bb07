/** Rankings: the order of results, its uniqueness, and how tags and limits cut it. */
module SearchRanking {
  import opened Wrappers
  import opened Ordering
  import opened SearchCorpus

  type Order = (int, int) -> bool

  ghost predicate Transitive(o: Order) {
    forall a: int, b: int, c: int :: o(a, b) && o(b, c) ==> o(a, c)
  }

  ghost predicate Irreflexive(o: Order) {
    forall a: int :: !o(a, a)
  }

  ghost predicate StrictlySorted(o: Order, s: seq<int>) {
    s == [] || ((forall k :: k in s[1..] ==> o(s[0], k)) && StrictlySorted(o, s[1..]))
  }

  /** Inserting by `before` keeps a list sorted by a finer order that agrees with it on the new element. */
  lemma {:induction false} InsertStrict(before: Order, o: Order, x: int, s: seq<int>)
    requires Transitive(o) && StrictlySorted(o, s)
    requires forall y :: y in s ==> (if before(y, x) then o(y, x) else o(x, y))
    ensures StrictlySorted(o, Insert(before, x, s))
  {
    if s == [] {
    } else if before(s[0], x) {
      InsertStrict(before, o, x, s[1..]);
      var rest := Insert(before, x, s[1..]);
      InsertMembers(before, x, s[1..]);
      assert ([s[0]] + rest)[1..] == rest;
      var first := s[0];
      assert first in s;
      assert before(first, x) && o(first, x);
      forall k | k in rest ensures o(first, k) {
        if k != x { assert k in s[1..]; }
      }
    } else {
      assert ([x] + s)[1..] == s;
      forall k | k in s ensures o(x, k) {
        if k != s[0] {
          assert s == [s[0]] + s[1..];
          assert o(x, s[0]) && o(s[0], k);
        }
      }
    }
  }

  ghost predicate Asymmetric(o: Order) {
    forall a: int, b: int :: o(a, b) ==> !o(b, a)
  }

  /** A set of ids has one strictly sorted listing. */
  lemma {:induction false} StrictlySortedUnique(o: Order, a: seq<int>, b: seq<int>)
    requires Asymmetric(o) && StrictlySorted(o, a) && StrictlySorted(o, b)
    requires multiset(a) == multiset(b)
    ensures a == b
  {
    if a == [] {
      assert |multiset(b)| == 0;
    } else {
      SameHead(o, a, b);
      TailsPermute(a, b);
      assert a == [a[0]] + a[1..] && b == [b[0]] + b[1..];
      StrictlySortedUnique(o, a[1..], b[1..]);
    }
  }

  lemma HeadsMeet(a: seq<int>, b: seq<int>)
    requires multiset(a) == multiset(b) && a != []
    ensures b != [] && (a[0] == b[0] || (a[0] in b[1..] && b[0] in a[1..]))
  {
    assert a[0] in multiset(b);
    assert b != [] && b[0] in multiset(a);
    assert a == [a[0]] + a[1..] && b == [b[0]] + b[1..];
  }

  lemma SameHead(o: Order, a: seq<int>, b: seq<int>)
    requires Asymmetric(o) && StrictlySorted(o, a) && StrictlySorted(o, b)
    requires multiset(a) == multiset(b) && a != []
    ensures b != [] && a[0] == b[0]
  {
    HeadsMeet(a, b);
  }

  function IdsFrom(low: nat, n: nat): seq<int>
    decreases n - low
  {
    if low >= n then [] else [low] + IdsFrom(low + 1, n)
  }

  function Ids(n: nat): seq<int> {
    IdsFrom(0, n)
  }

  /** Document order: by name, then by registration. */
  function OrdinalOrder(corpus: seq<Doc>): Order {
    (a: int, b: int) => 0 <= a < |corpus| && 0 <= b < |corpus| &&
      (Precedes(corpus[a].name, corpus[b].name) || (corpus[a].name == corpus[b].name && a < b))
  }

  /** Result order: by score downwards, then document order. */
  function ScoreOrder(log: real -> real, corpus: seq<Doc>, terms: seq<Text>): Order {
    (a: int, b: int) => 0 <= a < |corpus| && 0 <= b < |corpus| &&
      (Score(log, corpus, terms, a) > Score(log, corpus, terms, b)
       || (Score(log, corpus, terms, a) == Score(log, corpus, terms, b) && OrdinalOrder(corpus)(a, b)))
  }

  lemma OrdinalOrderStrict(corpus: seq<Doc>)
    ensures Transitive(OrdinalOrder(corpus)) && Irreflexive(OrdinalOrder(corpus)) && Asymmetric(OrdinalOrder(corpus))
  {
    var o := OrdinalOrder(corpus);
    forall a: int, b: int, c: int | o(a, b) && o(b, c) ensures o(a, c) {
      if Precedes(corpus[a].name, corpus[b].name) && Precedes(corpus[b].name, corpus[c].name) {
        LessTransitive(corpus[a].name.chars, corpus[b].name.chars, corpus[c].name.chars);
      }
    }
    forall a: int ensures !o(a, a) {
      if 0 <= a < |corpus| { LessIrreflexive(corpus[a].name.chars); }
    }
    forall a: int, b: int | o(a, b) ensures !o(b, a) { assert o(b, a) ==> o(a, a); }
  }

  lemma OrdinalOrderTotal(corpus: seq<Doc>, a: int, b: int)
    requires 0 <= a < |corpus| && 0 <= b < |corpus| && a != b
    ensures OrdinalOrder(corpus)(a, b) || OrdinalOrder(corpus)(b, a)
  {
    LessTotal(corpus[a].name.chars, corpus[b].name.chars);
    assert corpus[a].name == Text(corpus[a].name.chars) && corpus[b].name == Text(corpus[b].name.chars);
  }

  lemma ScoreOrderStrict(log: real -> real, corpus: seq<Doc>, terms: seq<Text>)
    ensures Transitive(ScoreOrder(log, corpus, terms)) && Asymmetric(ScoreOrder(log, corpus, terms))
  {
    OrdinalOrderStrict(corpus);
    var o := ScoreOrder(log, corpus, terms);
    var names := OrdinalOrder(corpus);
    forall a: int, b: int, c: int | o(a, b) && o(b, c) ensures o(a, c) {
      assert names(a, b) && names(b, c) ==> names(a, c);
    }
    forall a: int, b: int | o(a, b) ensures !o(b, a) { assert names(a, b) ==> !names(b, a); }
  }

  /** The ids below `n` whose document scores. */
  function ScoredIds(log: real -> real, corpus: seq<Doc>, terms: seq<Text>, n: nat): seq<int>
    requires n <= |corpus|
  {
    if n == 0 then []
    else
      var d := n - 1;
      ScoredIds(log, corpus, terms, d) + if Score(log, corpus, terms, d) > 0.0 then [d] else []
  }

  /** The plain ranking: every document that scores, best first. Tags and the index play no part. */
  function Ranking(log: real -> real, corpus: seq<Doc>, terms: seq<Text>): seq<int> {
    if terms == [] then Sort(OrdinalOrder(corpus), Ids(|corpus|))
    else Sort(ScoreOrder(log, corpus, terms), ScoredIds(log, corpus, terms, |corpus|))
  }

  ghost predicate Once(s: seq<int>) {
    forall d: int {:trigger multiset(s)[d]} :: multiset(s)[d] <= 1
  }

  lemma OnceTail(s: seq<int>, x: int)
    requires Once(s) && s != [] && x == s[0]
    ensures Once(s[1..]) && x !in s[1..]
  {
    var rest := s[1..];
    assert s == [x] + rest;
    assert multiset(s) == multiset{x} + multiset(rest);
    forall d: int ensures multiset(rest)[d] <= 1 { assert multiset(rest)[d] <= multiset(s)[d]; }
    assert multiset(s)[x] == 1 + multiset(rest)[x];
    assert x in rest ==> x in multiset(rest);
  }

  /** Sorting distinct ids by a comparison that agrees with a strict order on them sorts them by that order. */
  lemma {:induction false} SortStrict(before: Order, o: Order, s: seq<int>)
    requires Transitive(o)
    requires Once(s)
    requires forall a, b :: a in s && b in s && a != b ==> if before(a, b) then o(a, b) else o(b, a)
    ensures StrictlySorted(o, Sort(before, s))
  {
    if s != [] {
      var x, rest := s[0], s[1..];
      assert s == [x] + rest;
      OnceTail(s, x);
      SortStrict(before, o, rest);
      SortMembers(before, rest);
      forall y | y in Sort(before, rest) ensures if before(y, x) then o(y, x) else o(x, y) {
        assert y in s && x in s && y != x;
      }
      InsertStrict(before, o, x, Sort(before, rest));
    }
  }

  lemma {:induction false} IdsHold(low: nat, n: nat, d: int)
    ensures multiset(IdsFrom(low, n))[d] == if low <= d < n then 1 else 0
    decreases n - low
  {
    if low < n { IdsHold(low + 1, n, d); }
  }

  lemma {:induction false} IdsMembers(low: nat, n: nat)
    ensures forall y :: y in IdsFrom(low, n) <==> low <= y < n
    decreases n - low
  {
    if low < n { IdsMembers(low + 1, n); }
  }

  lemma CountSnoc(s: seq<int>, x: int, d: int)
    ensures multiset(s + [x])[d] == multiset(s)[d] + if d == x then 1 else 0
  {
  }

  lemma {:induction false} ScoredIdsHold(log: real -> real, corpus: seq<Doc>, terms: seq<Text>, n: nat, d: int)
    requires n <= |corpus|
    ensures multiset(ScoredIds(log, corpus, terms, n))[d] == if 0 <= d < n && Score(log, corpus, terms, d) > 0.0 then 1
      else 0
  {
    if n > 0 {
      var last := n - 1;
      var rest := ScoredIds(log, corpus, terms, last);
      ScoredIdsHold(log, corpus, terms, last, d);
      if Score(log, corpus, terms, last) > 0.0 {
        CountSnoc(rest, last, d);
      } else {
        assert rest + [] == rest;
      }
    }
  }

  /** The plain ranking holds exactly the scoring documents, each once, in strict result order. */
  lemma RankingMeans(log: real -> real, corpus: seq<Doc>, terms: seq<Text>)
    requires terms != []
    ensures StrictlySorted(ScoreOrder(log, corpus, terms), Ranking(log, corpus, terms))
    ensures forall d: int {:trigger multiset(Ranking(log, corpus, terms))[d]} ::
      multiset(Ranking(log, corpus, terms))[d] == if 0 <= d < |corpus| && Score(log, corpus, terms, d) > 0.0 then 1
        else 0
  {
    var o := ScoreOrder(log, corpus, terms);
    var ids := ScoredIds(log, corpus, terms, |corpus|);
    ScoreOrderStrict(log, corpus, terms);
    forall d: int ensures multiset(ids)[d] == if 0 <= d < |corpus| && Score(log, corpus, terms, d) > 0.0 then 1 else 0 {
      ScoredIdsHold(log, corpus, terms, |corpus|, d);
    }
    forall a, b | a in ids && b in ids && a != b ensures if o(a, b) then o(a, b) else o(b, a) {
      assert a in multiset(ids) && b in multiset(ids);
      assert multiset(ids)[a] > 0 && multiset(ids)[b] > 0;
      OrdinalOrderTotal(corpus, a, b);
    }
    SortStrict(o, o, ids);
    SortPermutes(o, ids);
  }

  lemma OrdinalRankingMeans(log: real -> real, corpus: seq<Doc>)
    ensures StrictlySorted(OrdinalOrder(corpus), Ranking(log, corpus, []))
    ensures multiset(Ranking(log, corpus, [])) == multiset(Ids(|corpus|))
  {
    var o := OrdinalOrder(corpus);
    var ids := Ids(|corpus|);
    OrdinalOrderStrict(corpus);
    forall d: int ensures multiset(ids)[d] <= 1 { IdsHold(0, |corpus|, d); }
    forall a, b | a in ids && b in ids && a != b ensures if o(a, b) then o(a, b) else o(b, a) {
      IdsHold(0, |corpus|, a);
      IdsHold(0, |corpus|, b);
      OrdinalOrderTotal(corpus, a, b);
    }
    SortStrict(o, o, ids);
    SortPermutes(o, ids);
  }

  predicate Carries(d: Doc, tags: set<Text>) {
    tags <= d.tags
  }

  predicate CarriesAt(corpus: seq<Doc>, d: int, tags: set<Text>) {
    0 <= d < |corpus| && Carries(corpus[d], tags)
  }

  function Carrying(corpus: seq<Doc>, ids: seq<int>, tags: set<Text>): seq<int> {
    if ids == [] then []
    else (if CarriesAt(corpus, ids[0], tags) then [ids[0]] else []) + Carrying(corpus, ids[1..], tags)
  }

  lemma {:induction false} CarryingSplit(corpus: seq<Doc>, a: seq<int>, b: seq<int>, tags: set<Text>)
    ensures Carrying(corpus, a + b, tags) == Carrying(corpus, a, tags) + Carrying(corpus, b, tags)
  {
    if a == [] {
      assert a + b == b;
    } else {
      assert (a + b)[1..] == a[1..] + b;
      CarryingSplit(corpus, a[1..], b, tags);
    }
  }

  function Take(ids: seq<int>, limit: nat): seq<int> {
    if |ids| <= limit then ids else ids[..limit]
  }

  function NameOf(corpus: seq<Doc>, d: int): Text {
    if 0 <= d < |corpus| then corpus[d].name else Text("")
  }

  function Names(corpus: seq<Doc>, ids: seq<int>): (names: seq<Text>)
    ensures |names| == |ids|
  {
    if ids == [] then [] else [NameOf(corpus, ids[0])] + Names(corpus, ids[1..])
  }

  lemma {:induction false} NamesSplit(corpus: seq<Doc>, a: seq<int>, b: seq<int>)
    ensures Names(corpus, a + b) == Names(corpus, a) + Names(corpus, b)
  {
    if a == [] {
      assert a + b == b;
    } else {
      assert (a + b)[1..] == a[1..] + b;
      NamesSplit(corpus, a[1..], b);
    }
  }

  /** Dropping documents keeps a listing sorted, and keeps just the ones that carry the tags. */
  lemma {:induction false} CarryingKeeps(o: Order, corpus: seq<Doc>, ids: seq<int>, tags: set<Text>)
    ensures StrictlySorted(o, ids) ==> StrictlySorted(o, Carrying(corpus, ids, tags))
    ensures forall d :: d in Carrying(corpus, ids, tags) ==> d in ids
    ensures forall d: int {:trigger multiset(Carrying(corpus, ids, tags))[d]} ::
      multiset(Carrying(corpus, ids, tags))[d] == if CarriesAt(corpus, d, tags) then multiset(ids)[d] else 0
  {
    if ids != [] {
      CarryingKeeps(o, corpus, ids[1..], tags);
      var rest := Carrying(corpus, ids[1..], tags);
      assert ids == [ids[0]] + ids[1..];
      assert multiset(ids) == multiset(ids[1..]) + multiset{ids[0]};
      assert ([ids[0]] + rest)[1..] == rest;
      assert [] + rest == rest;
    }
  }
}
