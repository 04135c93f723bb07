/** The XML worker's table of resident documents, as a state and the steps its messages take. */
module Residency {
  import opened Wrappers
  import opened RecencyMaps

  /** A document of the library's, known by how many it had made before. */
  datatype Document = Document(number: nat)

  /**
   * The worker's two maps, and what has happened to documents so far: `made` holds the stamp each was
   * made for, `disposed` the documents in the order of their disposal, `uses` the stamps in the order of use.
   */
  datatype State = State(documents: seq<Slot<Document>>, byLogical: map<Text, Text>,
                         made: seq<Text>, disposed: seq<Document>, uses: seq<Text>)

  /** What the library makes of some bytes. */
  datatype Outcome = Malformed | Doctype | Unreadable | Sound

  datatype Message = Parse(stamp: Text, logical: Text, outcome: Outcome) | Use(stamp: Text) | Diagnose | Release

  /** A document in a reply is the one the answer was read from. */
  datatype Reply =
    | Facts(document: Document) | Worked(document: Document) | UnknownResidency | Failed
    | Resident(count: nat) | Released

  const Started := State([], map[], [], [], [])

  // The steps.

  function Forgotten(s: State, stamp: Text): State {
    var held := Find(s.documents, stamp);
    if held.None? then s else s.(documents := Without(s.documents, stamp), disposed := s.disposed + [held.value])
  }

  function Superseded(s: State, logical: Text, stamp: Text): State {
    var t := if logical in s.byLogical && s.byLogical[logical] != stamp then Forgotten(s, s.byLogical[logical]) else s;
    t.(byLogical := t.byLogical[logical := stamp])
  }

  function Touched(s: State, stamp: Text): State {
    var held := Find(s.documents, stamp);
    if held.None? then s else s.(documents := Renewed(s.documents, stamp, held.value), uses := s.uses + [stamp])
  }

  predicate AmongKeys<V>(m: seq<Slot<V>>, k: Text) {
    Find(m, k).Some?
  }

  function Unnamed(byLogical: map<Text, Text>, gone: seq<Slot<Document>>): map<Text, Text> {
    map l | l in byLogical && !AmongKeys(gone, byLogical[l]) :: byLogical[l]
  }

  function Excess(s: State, capacity: nat): nat {
    if |s.documents| > capacity then |s.documents| - capacity else 0
  }

  /** Eviction outright: the excess at the front goes, with its names. */
  function Evicted(s: State, capacity: nat): State {
    var n := Excess(s, capacity);
    s.(documents := s.documents[n..], byLogical := Unnamed(s.byLogical, s.documents[..n]),
       disposed := s.disposed + Values(s.documents[..n]))
  }

  /** A document just made takes its place, last and used. */
  function Placed(s: State, stamp: Text, logical: Text): State {
    var t := Superseded(s.(made := s.made + [stamp]), logical, stamp);
    t.(documents := With(t.documents, stamp, Document(|s.made|)), uses := t.uses + [stamp])
  }

  function Adopted(s: State, capacity: nat, stamp: Text, logical: Text, outcome: Outcome): (State, Reply) {
    var held := Find(s.documents, stamp);
    if held.Some? then (Touched(s, stamp), Facts(held.value))
    else if outcome.Malformed? then (s, Failed)
    else if !outcome.Sound? then (s.(made := s.made + [stamp], disposed := s.disposed + [Document(|s.made|)]), Failed)
    else (Evicted(Placed(s, stamp, logical), capacity), Facts(Document(|s.made|)))
  }

  function ReleasedAll(s: State): State {
    s.(documents := [], byLogical := map[], disposed := s.disposed + Values(s.documents))
  }

  function Handled(s: State, capacity: nat, m: Message): (State, Reply) {
    match m
    case Parse(stamp, logical, outcome) => Adopted(s, capacity, stamp, logical, outcome)
    case Use(stamp) =>
      var held := Find(s.documents, stamp);
      (Touched(s, stamp), if held.None? then UnknownResidency else Worked(held.value))
    case Diagnose => (s, Resident(|s.documents|))
    case Release => (ReleasedAll(s), Released)
  }

  /** The state after a run of messages. */
  function Run(messages: seq<Message>, capacity: nat): State {
    if messages == [] then Started
      else Handled(Run(messages[..|messages| - 1], capacity), capacity, messages[|messages| - 1]).0
  }

  // What every message keeps.

  /** A resident document was made for the stamp it is resident under. */
  ghost predicate Owned(s: State) {
    forall e :: e in s.documents ==> e.value.number < |s.made| && s.made[e.value.number] == e.key
  }

  function Numbered(n: nat): seq<Document> {
    if n == 0 then [] else Numbered(n - 1) + [Document(n - 1)]
  }

  /** Of each document ever made, one: resident or disposed of, and not twice. */
  ghost predicate Accounted(s: State) {
    multiset(s.disposed) + multiset(Values(s.documents)) == multiset(Numbered(|s.made|))
  }

  ghost predicate HasName(byLogical: map<Text, Text>, stamp: Text) {
    exists l :: l in byLogical && byLogical[l] == stamp
  }

  ghost predicate OneName(byLogical: map<Text, Text>) {
    forall l, m :: l in byLogical && m in byLogical && byLogical[l] == byLogical[m] ==> l == m
  }

  /** The table of names is a bijection onto the resident stamps. */
  ghost predicate Named(s: State) {
    OneName(s.byLogical)
    && (forall l :: l in s.byLogical ==> AmongKeys(s.documents, s.byLogical[l]))
    && (forall e :: e in s.documents ==> HasName(s.byLogical, e.key))
  }

  ghost predicate Ordered(s: State) {
    Distinct(s.documents) && ByRecency(s.documents, s.uses)
  }

  ghost predicate Kept(s: State) {
    Ordered(s) && Owned(s) && Accounted(s) && Named(s)
  }

  lemma {:induction false} OnceEach(n: nat, d: Document)
    ensures multiset(Numbered(n))[d] == if d.number < n then 1 else 0
  {
    if n > 0 {
      OnceEach(n - 1, d);
    }
  }

  /** Being accounted for, document by document. */
  lemma AccountedEach(s: State, d: Document)
    requires Accounted(s)
    ensures d.number < |s.made| ==> multiset(s.disposed)[d] + multiset(Values(s.documents))[d] == 1
    ensures d in s.disposed ==> d.number < |s.made| && multiset(s.disposed)[d] == 1
  {
    OnceEach(|s.made|, d);
    assert (multiset(s.disposed) + multiset(Values(s.documents)))[d] == multiset(Numbered(|s.made|))[d];
  }


  // Forgetting and superseding.

  function Balance(s: State): multiset<Document> {
    multiset(s.disposed) + multiset(Values(s.documents))
  }

  lemma ForgottenBalance(s: State, stamp: Text)
    ensures Balance(Forgotten(s, stamp)) == Balance(s)
  {
    if Find(s.documents, stamp).Some? {
      ValuesWithout(s.documents, stamp);
    }
  }

  lemma ForgottenKeeps(s: State, stamp: Text)
    requires Ordered(s) && Owned(s)
    ensures Ordered(Forgotten(s, stamp)) && Owned(Forgotten(s, stamp))
  {
    WithoutKeeps(s.documents, stamp);
    WithoutByRecency(s.documents, s.uses, stamp);
  }

  /** What superseding leaves resident: all but the stamp that the logical name had. */
  lemma SupersededMembers(s: State, logical: Text, stamp: Text)
    requires Ordered(s) && Owned(s)
    ensures var t := Superseded(s, logical, stamp);
      Ordered(t) && Owned(t) && Balance(t) == Balance(s) && t.made == s.made && t.uses == s.uses
      && t.byLogical == s.byLogical[logical := stamp]
      && forall e :: e in t.documents <==>
           e in s.documents
           && !(logical in s.byLogical && s.byLogical[logical] != stamp && e.key == s.byLogical[logical])
  {
    if logical in s.byLogical && s.byLogical[logical] != stamp {
      var previous := s.byLogical[logical];
      ForgottenBalance(s, previous);
      ForgottenKeeps(s, previous);
      WithoutKeeps(s.documents, previous);
      Absent(s.documents, previous);
    }
  }

  lemma Among<V>(m: seq<Slot<V>>, k: Text)
    ensures AmongKeys(m, k) <==> exists i :: 0 <= i < |m| && m[i].key == k
  {
    Absent(m, k);
  }

  lemma AmongMember<V>(m: seq<Slot<V>>, e: Slot<V>)
    requires e in m
    ensures AmongKeys(m, e.key)
  {
    Absent(m, e.key);
  }

  lemma Appended(m: seq<Slot<Document>>, log: seq<Text>, k: Text, d: Document)
    requires Distinct(m) && ByRecency(m, log) && Find(m, k).None?
    ensures With(m, k, d) == m + [Slot(k, d)] && Distinct(With(m, k, d)) && ByRecency(With(m, k, d), log + [k])
  {
    WithAbsent(m, k, d);
    WithoutAbsent(m, k);
    RenewedByRecency(m, log, k, d);
  }

  /** A fresh stamp displaces nothing but the old one of its logical name. */
  lemma PlacedDocuments(s: State, stamp: Text, logical: Text)
    requires Kept(s) && Find(s.documents, stamp).None?
    ensures var t := Superseded(s.(made := s.made + [stamp]), logical, stamp);
      var p := Placed(s, stamp, logical);
      Find(t.documents, stamp).None? && p.documents == t.documents + [Slot(stamp, Document(|s.made|))] && Ordered(p)
        && Owned(t)
  {
    var u := s.(made := s.made + [stamp]);
    assert Owned(u);
    SupersededMembers(u, logical, stamp);
    var t := Superseded(u, logical, stamp);
    Absent(s.documents, stamp);
    Absent(t.documents, stamp);
    forall i | 0 <= i < |t.documents| ensures t.documents[i].key != stamp { assert t.documents[i] in s.documents; }
    Appended(t.documents, t.uses, stamp, Document(|s.made|));
  }

  lemma GrownBalance(disposed: seq<Document>, m: seq<Slot<Document>>, e: Slot<Document>)
    ensures multiset(disposed) + multiset(Values(m + [e]))
      == multiset(disposed) + multiset(Values(m)) + multiset{e.value}
  {
    ValuesAppend(m, [e]);
    assert Values([e]) == [e.value];
  }

  lemma PlacedAccounted(s: State, stamp: Text, logical: Text)
    requires Kept(s) && Find(s.documents, stamp).None?
    ensures Accounted(Placed(s, stamp, logical))
  {
    var u := s.(made := s.made + [stamp]);
    var t := Superseded(u, logical, stamp);
    PlacedDocuments(s, stamp, logical);
    SupersededMembers(u, logical, stamp) by { assert Owned(u); }
    GrownBalance(t.disposed, t.documents, Slot(stamp, Document(|s.made|)));
    assert Balance(t) == Balance(s);
  }

  lemma PlacedOwned(s: State, stamp: Text, logical: Text)
    requires Kept(s) && Find(s.documents, stamp).None?
    ensures Owned(Placed(s, stamp, logical))
  {
    PlacedDocuments(s, stamp, logical);
  }

  /** Naming one more resident keeps the bijection, when the name's old stamp went. */
  lemma NamedGrown(s: State, t: seq<Slot<Document>>, e: Slot<Document>, logical: Text)
    requires Named(s) && Find(s.documents, e.key).None?
    requires forall x :: x in t <==> x in s.documents && !(logical in s.byLogical && x.key == s.byLogical[logical])
    ensures Named(s.(documents := t + [e], byLogical := s.byLogical[logical := e.key]))
  {
    var p := s.(documents := t + [e], byLogical := s.byLogical[logical := e.key]);
    Absent(s.documents, e.key);
    forall l | l in s.byLogical ensures s.byLogical[l] != e.key { FoundMember(s.documents, s.byLogical[l]); }
    forall l | l in p.byLogical ensures AmongKeys(p.documents, p.byLogical[l]) {
      if l == logical {
        AmongMember(p.documents, e);
      } else {
        FoundMember(s.documents, s.byLogical[l]);
        AmongMember(p.documents, Slot(s.byLogical[l], Find(s.documents, s.byLogical[l]).value));
      }
    }
    forall x | x in p.documents ensures HasName(p.byLogical, x.key) {
      if x in t {
        var l :| l in s.byLogical && s.byLogical[l] == x.key;
        assert l in p.byLogical && p.byLogical[l] == x.key;
      } else {
        assert logical in p.byLogical && p.byLogical[logical] == x.key;
      }
    }
  }

  lemma NamedFresh(s: State, stamp: Text)
    requires Named(s) && Find(s.documents, stamp).None?
    ensures forall l :: l in s.byLogical ==> s.byLogical[l] != stamp
  {
  }

  lemma PlacedNamed(s: State, stamp: Text, logical: Text)
    requires Kept(s) && Find(s.documents, stamp).None?
    ensures Named(Placed(s, stamp, logical))
  {
    var u := s.(made := s.made + [stamp]);
    PlacedDocuments(s, stamp, logical);
    SupersededMembers(u, logical, stamp) by { assert Owned(u); }
    NamedFresh(s, stamp);
    NamedGrown(s, Superseded(u, logical, stamp).documents, Slot(stamp, Document(|s.made|)), logical);
  }

  // Evicting.

  lemma CutAmong(m: seq<Slot<Document>>, n: nat, k: Text)
    requires n <= |m| && AmongKeys(m, k)
    ensures AmongKeys(m[..n], k) || AmongKeys(m[n..], k)
  {
    Among(m, k);
    var i :| 0 <= i < |m| && m[i].key == k;
    if i < n { AmongMember(m[..n], m[..n][i]); } else { AmongMember(m[n..], m[n..][i - n]); }
  }

  lemma CutDistinct(m: seq<Slot<Document>>, n: nat, e: Slot<Document>)
    requires n <= |m| && Distinct(m) && e in m[n..]
    ensures e in m && !AmongKeys(m[..n], e.key)
  {
    var j :| 0 <= j < |m[n..]| && m[n..][j] == e;
    assert m[n + j] == e;
    Among(m[..n], e.key);
  }

  lemma EvictedNamed(s: State, capacity: nat)
    requires Ordered(s) && Named(s)
    ensures Named(Evicted(s, capacity))
  {
    var n := Excess(s, capacity);
    var rest := s.documents[n..];
    var t := Evicted(s, capacity);
    forall l | l in t.byLogical ensures AmongKeys(rest, s.byLogical[l]) {
      CutAmong(s.documents, n, s.byLogical[l]);
    }
    forall e | e in rest ensures HasName(t.byLogical, e.key) {
      CutDistinct(s.documents, n, e);
      var l :| l in s.byLogical && s.byLogical[l] == e.key;
      assert l in t.byLogical && t.byLogical[l] == e.key;
    }
  }

  lemma EvictedOrdered(s: State, capacity: nat)
    requires Ordered(s) && Owned(s)
    ensures Ordered(Evicted(s, capacity)) && Owned(Evicted(s, capacity))
  {
    var n := Excess(s, capacity);
    forall e | e in s.documents[n..] ensures e in s.documents {}
  }

  lemma EvictedBalance(s: State, capacity: nat)
    ensures Balance(Evicted(s, capacity)) == Balance(s)
  {
    var n := Excess(s, capacity);
    ValuesAppend(s.documents[..n], s.documents[n..]);
    assert s.documents[..n] + s.documents[n..] == s.documents;
  }

  lemma EvictedKeeps(s: State, capacity: nat)
    requires Kept(s)
    ensures Kept(Evicted(s, capacity)) && |Evicted(s, capacity).documents| <= capacity
  {
    EvictedNamed(s, capacity);
    EvictedOrdered(s, capacity);
    EvictedBalance(s, capacity);
    assert Balance(Evicted(s, capacity)) == Balance(s);
  }

  /** Eviction takes no more than the excess, and only what was used less recently than all it leaves. */
  lemma EvictsLeastRecent(s: State, capacity: nat, i: nat)
    requires Ordered(s) && i < |s.documents|
    ensures var t := Evicted(s, capacity);
      if s.documents[i] in t.documents then i >= Excess(s, capacity)
      else i < Excess(s, capacity) && |t.documents| == capacity
           && forall e :: e in t.documents ==> LastUse(s.uses, s.documents[i].key) < LastUse(s.uses, e.key)
  {
    var n := Excess(s, capacity);
    var rest := s.documents[n..];
    forall j | 0 <= j < |rest| ensures rest[j] == s.documents[n + j] {}
    if i >= n { assert rest[i - n] == s.documents[i]; }
  }

  // Every message.

  lemma TouchedKeeps(s: State, stamp: Text)
    requires Kept(s)
    ensures Kept(Touched(s, stamp)) && |Touched(s, stamp).documents| == |s.documents|
  {
    var held := Find(s.documents, stamp);
    if held.Some? {
      var t := Touched(s, stamp);
      var rest := Without(s.documents, stamp);
      RenewedByRecency(s.documents, s.uses, stamp, held.value);
      ValuesWithout(s.documents, stamp);
      ValuesAppend(rest, [Slot(stamp, held.value)]);
      assert Values([Slot(stamp, held.value)]) == [held.value];
      assert Balance(t) == Balance(s);
      TouchedMembers(s, stamp);
      var i := Place(s.documents, stamp);
    }
  }

  lemma TouchedMembers(s: State, stamp: Text)
    requires Kept(s) && Find(s.documents, stamp).Some?
    ensures Owned(Touched(s, stamp)) && Named(Touched(s, stamp))
  {
    var t := Touched(s, stamp);
    WithoutKeeps(s.documents, stamp);
    FoundMember(s.documents, stamp);
    forall e ensures e in t.documents <==> e in s.documents {
      if e in s.documents { FindMember(s.documents, e); }
    }
    forall l | l in t.byLogical ensures AmongKeys(t.documents, t.byLogical[l]) {
      FoundMember(s.documents, s.byLogical[l]);
      AmongMember(t.documents, Slot(s.byLogical[l], Find(s.documents, s.byLogical[l]).value));
    }
  }

  lemma RefusedBalance(disposed: seq<Document>, m: seq<Slot<Document>>, d: Document)
    ensures multiset(disposed + [d]) + multiset(Values(m)) == multiset(disposed) + multiset(Values(m)) + multiset{d}
  {
  }

  lemma RefusedKeeps(s: State, stamp: Text)
    requires Kept(s)
    ensures Kept(s.(made := s.made + [stamp], disposed := s.disposed + [Document(|s.made|)]))
  {
    RefusedBalance(s.disposed, s.documents, Document(|s.made|));
  }

  lemma ReleasedKeeps(s: State)
    requires Kept(s)
    ensures Kept(ReleasedAll(s))
  {
    assert Balance(ReleasedAll(s)) == Balance(s);
  }

  lemma HandledKeeps(s: State, capacity: nat, m: Message)
    requires Kept(s) && |s.documents| <= capacity
    ensures Kept(Handled(s, capacity, m).0) && |Handled(s, capacity, m).0.documents| <= capacity
  {
    match m
    case Parse(stamp, logical, outcome) =>
      if Find(s.documents, stamp).Some? {
        TouchedKeeps(s, stamp);
      } else if outcome.Sound? {
        PlacedDocuments(s, stamp, logical);
        PlacedAccounted(s, stamp, logical);
        PlacedOwned(s, stamp, logical);
        PlacedNamed(s, stamp, logical);
        EvictedKeeps(Placed(s, stamp, logical), capacity);
      } else if !outcome.Malformed? {
        RefusedKeeps(s, stamp);
      }
    case Use(stamp) => TouchedKeeps(s, stamp);
    case Diagnose =>
    case Release => ReleasedKeeps(s);
  }

  /**
   * After every run of messages: the names a bijection, the order that of use, every document accounted
   * for, and room kept.
   */
  lemma {:induction false} RunKeeps(messages: seq<Message>, capacity: nat)
    ensures Kept(Run(messages, capacity)) && |Run(messages, capacity).documents| <= capacity
  {
    if messages == [] {
      assert Values(Started.documents) == [] && Numbered(0) == [];
    } else {
      RunKeeps(messages[..|messages| - 1], capacity);
      HandledKeeps(Run(messages[..|messages| - 1], capacity), capacity, messages[|messages| - 1]);
    }
  }

  /** Each document ever made in a run is resident and undisposed, or was disposed of exactly once. */
  lemma DisposedOnce(messages: seq<Message>, capacity: nat, d: Document)
    ensures var s := Run(messages, capacity);
      d.number < |s.made| ==> multiset(s.disposed)[d] + multiset(Values(s.documents))[d] == 1
  {
    RunKeeps(messages, capacity);
    AccountedEach(Run(messages, capacity), d);
  }

  /** No answer is read from a document already disposed of, nor from one made for another stamp. */
  lemma AnswersAreLive(messages: seq<Message>, capacity: nat, stamp: Text, d: Document)
    requires Handled(Run(messages, capacity), capacity, Use(stamp)).1 == Worked(d)
    ensures var s := Run(messages, capacity); d !in s.disposed && d.number < |s.made| && s.made[d.number] == stamp
  {
    var s := Run(messages, capacity);
    RunKeeps(messages, capacity);
    FoundMember(s.documents, stamp);
    ValuesWithout(s.documents, stamp);
    assert d in multiset(Values(s.documents));
    AccountedEach(s, d);
  }

  /** A document that is gone: not resident, and disposed of. */
  predicate Gone(s: State, t: State, stamp: Text) {
    Find(t.documents, stamp).None? && Find(s.documents, stamp).Some? && Find(s.documents, stamp).value in t.disposed
  }

  /**
   * A parse that succeeds with room for it leaves its stamp resident, and the older document of its
   * logical name gone.
   */
  lemma ParseTakesName(messages: seq<Message>, capacity: nat, stamp: Text, logical: Text)
    requires capacity > 0 && Find(Run(messages, capacity).documents, stamp).None?
    ensures var s := Run(messages, capacity);
      var t := Run(messages + [Parse(stamp, logical, Sound)], capacity);
      Find(t.documents, stamp) == Some(Document(|s.made|)) && logical in t.byLogical && t.byLogical[logical] == stamp
      && (logical in s.byLogical ==> Gone(s, t, s.byLogical[logical]))
  {
    var s := Run(messages, capacity);
    var all := messages + [Parse(stamp, logical, Sound)];
    assert all[..|all| - 1] == messages;
    RunKeeps(messages, capacity);
    PlacedStays(s, capacity, stamp, logical);
    if logical in s.byLogical {
      Superseding(s, capacity, stamp, logical);
    }
  }

  lemma PlacedStays(s: State, capacity: nat, stamp: Text, logical: Text)
    requires Kept(s) && capacity > 0 && Find(s.documents, stamp).None?
    ensures var t := Evicted(Placed(s, stamp, logical), capacity);
      Find(t.documents, stamp) == Some(Document(|s.made|)) && logical in t.byLogical && t.byLogical[logical] == stamp
  {
    var u := s.(made := s.made + [stamp]);
    PlacedDocuments(s, stamp, logical);
    SupersededMembers(u, logical, stamp) by { assert Owned(u); }
    LastStays(Placed(s, stamp, logical), capacity, logical);
  }

  /** Eviction leaves the last document, and its name. */
  lemma LastStays(p: State, capacity: nat, logical: Text)
    requires Ordered(p) && capacity > 0 && p.documents != []
    requires logical in p.byLogical && p.byLogical[logical] == p.documents[|p.documents| - 1].key
    ensures var e := p.documents[|p.documents| - 1];
      var t := Evicted(p, capacity);
      Find(t.documents, e.key) == Some(e.value) && logical in t.byLogical && t.byLogical[logical] == e.key
  {
    var e := p.documents[|p.documents| - 1];
    var n := Excess(p, capacity);
    var rest := p.documents[n..];
    assert rest[|rest| - 1] == e;
    FindMember(rest, e);
    Absent(p.documents[..n], e.key);
  }

  lemma Superseding(s: State, capacity: nat, stamp: Text, logical: Text)
    requires Kept(s) && Find(s.documents, stamp).None? && logical in s.byLogical
    ensures var t := Evicted(Placed(s, stamp, logical), capacity);
      Gone(s, t, s.byLogical[logical])
  {
    var previous := s.byLogical[logical];
    var u := s.(made := s.made + [stamp]);
    var p := Placed(s, stamp, logical);
    var t := Evicted(p, capacity);
    PlacedDocuments(s, stamp, logical);
    SupersededMembers(u, logical, stamp);
    FoundMember(s.documents, previous);
    Absent(s.documents, stamp);
    forall i | 0 <= i < |t.documents| ensures t.documents[i].key != previous { assert t.documents[i] in p.documents; }
    Absent(t.documents, previous);
  }
}
