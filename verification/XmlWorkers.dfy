/** The XML worker itself: its two maps updated in place, step for step as the specified states are. */
module XmlWorkers {
  import opened Wrappers
  import opened RecencyMaps
  import opened Residency

  lemma ForgetFirst(m: seq<Slot<Document>>)
    requires m != []
    ensures Find(m, m[0].key) == Some(m[0].value) && Without(m, m[0].key) == m[1..]
  {
  }

  lemma OneKey(m: seq<Slot<Document>>, k: Text)
    requires |m| == 1
    ensures AmongKeys(m, k) <==> m[0].key == k
  {
    assert Find(m[1..], k).None?;
  }

  /** Evicting the excess is evicting the first, then the excess of what is left. */
  lemma EvictFirst(s: State, capacity: nat)
    requires |s.documents| > capacity
    ensures var one := s.(documents := s.documents[1..], byLogical := Unnamed(s.byLogical, s.documents[..1]),
                          disposed := s.disposed + [s.documents[0].value]);
      Evicted(one, capacity) == Evicted(s, capacity)
  {
    var n := Excess(s, capacity);
    var rest := s.documents[1..];
    assert s.documents[..n][1..] == rest[..n - 1] && rest[n - 1..] == s.documents[n..];
    assert (s.disposed + [s.documents[0].value]) + Values(rest[..n - 1])
      == s.disposed + ([s.documents[0].value] + Values(rest[..n - 1]));
    forall l | l in s.byLogical
      ensures AmongKeys(s.documents[..n], s.byLogical[l])
        <==> s.documents[0].key == s.byLogical[l] || AmongKeys(rest[..n - 1], s.byLogical[l])
    {
    }
    forall k: Text ensures AmongKeys(s.documents[..1], k) <==> s.documents[0].key == k { OneKey(s.documents[..1], k); }
  }

  lemma EvictNone(s: State, capacity: nat)
    requires |s.documents| <= capacity
    ensures Evicted(s, capacity) == s
  {
    assert s.documents[..0] == [];
  }

  /** Setting a key that was just deleted appends it. */
  lemma SetAgain(m: seq<Slot<Document>>, stamp: Text, d: Document)
    requires Distinct(m)
    ensures With(Without(m, stamp), stamp, d) == Renewed(m, stamp, d) && Distinct(Renewed(m, stamp, d))
  {
    WithoutKeeps(m, stamp);
    WithAbsent(Without(m, stamp), stamp, d);
    Absent(Without(m, stamp), stamp);
  }

  lemma SetFresh(m: seq<Slot<Document>>, stamp: Text, d: Document)
    requires Distinct(m)
    ensures Distinct(With(m, stamp, d))
  {
    if Find(m, stamp).None? {
      WithAbsent(m, stamp, d);
      Absent(m, stamp);
    } else {
      SetInPlace(m, stamp, d);
    }
  }

  lemma {:induction false} SetInPlace(m: seq<Slot<Document>>, stamp: Text, d: Document)
    requires Find(m, stamp).Some?
    ensures |With(m, stamp, d)| == |m| && forall i :: 0 <= i < |m| ==> With(m, stamp, d)[i].key == m[i].key
  {
    if m[0].key != stamp {
      SetInPlace(m[1..], stamp, d);
    }
  }

  class XmlWorker {
    const capacity: nat
    var documents: seq<Slot<Document>>
    var byLogical: map<Text, Text>
    var made: seq<Text>
    var disposed: seq<Document>
    ghost var uses: seq<Text>

    ghost function Now(): State
      reads this
    {
      State(documents, byLogical, made, disposed, uses)
    }

    /** A map holds a key once. */
    ghost predicate Valid()
      reads this
    {
      Distinct(documents)
    }

    constructor (capacity: nat)
      ensures Valid()
      ensures this.capacity == capacity && Now() == Started
    {
      this.capacity := capacity;
      documents, byLogical, made, disposed, uses := [], map[], [], [], [];
    }

    method Dispose(document: Document)
      modifies this`disposed
      ensures Now() == old(Now()).(disposed := old(disposed) + [document])
    {
      disposed := disposed + [document];
    }

    /** `forget`. */
    method Forget(stamp: Text)
      requires Valid()
      modifies this
      ensures Valid()
      ensures Now() == Forgotten(old(Now()), stamp)
    {
      var held := Find(documents, stamp);
      if held.None? {
        return;
      }
      Dispose(held.value);
      WithoutDistinct(documents, stamp);
      documents := Without(documents, stamp);
    }

    /** `supersede`. */
    method Supersede(logical: Text, stamp: Text)
      requires Valid()
      modifies this
      ensures Valid()
      ensures Now() == Superseded(old(Now()), logical, stamp)
    {
      if logical in byLogical && byLogical[logical] != stamp {
        Forget(byLogical[logical]);
      }
      byLogical := byLogical[logical := stamp];
    }

    /** The inner loop of `evict`: every logical name of the stamp is deleted. */
    method Unname(gone: seq<Slot<Document>>)
      requires |gone| == 1
      modifies this`byLogical
      ensures Now() == old(Now()).(byLogical := Unnamed(old(byLogical), gone))
    {
      ghost var before := byLogical;
      var names := byLogical.Keys;
      while names != {}
        invariant names <= before.Keys
        invariant forall l :: l in byLogical <==> l in before && (l in names || before[l] != gone[0].key)
        invariant forall l :: l in byLogical ==> byLogical[l] == before[l]
        invariant Now() == old(Now()).(byLogical := byLogical)
        decreases names
      {
        var logical :| logical in names;
        if byLogical[logical] == gone[0].key {
          byLogical := byLogical - {logical};
        }
        names := names - {logical};
      }
      forall l | l in before ensures AmongKeys(gone, before[l]) <==> gone[0].key == before[l] {
        OneKey(gone, before[l]);
      }
      assert byLogical == Unnamed(before, gone);
    }

    /** `evict`: from the front until the rest fits. */
    method Evict()
      requires Valid()
      modifies this
      ensures Valid()
      ensures Now() == Evicted(old(Now()), capacity)
    {
      while |documents| > capacity
        invariant Valid()
        invariant Evicted(Now(), capacity) == Evicted(old(Now()), capacity)
        decreases |documents|
      {
        var oldest := documents[0].key;
        EvictFirst(Now(), capacity);
        ForgetFirst(documents);
        Unname(documents[..1]);
        Forget(oldest);
      }
      EvictNone(Now(), capacity);
    }

    /** `touch`: a resident document is moved last. */
    method Touch(stamp: Text) returns (held: Option<Document>)
      requires Valid()
      modifies this
      ensures Valid()
      ensures held == Find(old(documents), stamp) && Now() == Touched(old(Now()), stamp)
    {
      held := Find(documents, stamp);
      if held.None? {
        return;
      }
      SetAgain(documents, stamp, held.value);
      documents := Without(documents, stamp);
      documents := With(documents, stamp, held.value);
      uses := uses + [stamp];
    }

    /** `adopt`: whatever is made and not kept is disposed of on the way out. */
    method Adopt(stamp: Text, logical: Text, outcome: Outcome) returns (reply: Reply)
      requires Valid()
      modifies this
      ensures Valid()
      ensures (Now(), reply) == Adopted(old(Now()), capacity, stamp, logical, outcome)
    {
      var existing := Touch(stamp);
      if existing.Some? {
        return Facts(existing.value);
      }
      if outcome.Malformed? {
        return Failed;
      }
      var document := Document(|made|);
      made := made + [stamp];
      var adopted := false;
      reply := Failed;
      if outcome.Sound? {
        Supersede(logical, stamp);
        SetFresh(documents, stamp, document);
        documents := With(documents, stamp, document);
        uses := uses + [stamp];
        adopted := true;
        Evict();
        reply := Facts(document);
      }
      if !adopted {
        Dispose(document);
      }
    }

    /** `releaseAll`. */
    method ReleaseAll()
      requires Valid()
      modifies this
      ensures Valid()
      ensures Now() == ReleasedAll(old(Now()))
    {
      assert documents[..0] == [];
      for i := 0 to |documents|
        invariant documents == old(documents)
        invariant Now() == old(Now()).(disposed := old(disposed) + Values(documents[..i]))
      {
        ValuesAppend(documents[..i], [documents[i]]);
        assert documents[..i] + [documents[i]] == documents[..i + 1];
        assert Values([documents[i]]) == [documents[i].value];
        Dispose(documents[i].value);
      }
      assert documents[..|documents|] == documents;
      documents, byLogical := [], map[];
    }

    /** `handle`, as far as the tables are concerned. */
    method Handle(m: Message) returns (reply: Reply)
      requires Valid()
      modifies this
      ensures Valid()
      ensures (Now(), reply) == Handled(old(Now()), capacity, m)
    {
      match m
      case Parse(stamp, logical, outcome) => reply := Adopt(stamp, logical, outcome);
      case Use(stamp) =>
        var document := Touch(stamp);
        reply := if document.None? then UnknownResidency else Worked(document.value);
      case Diagnose => reply := Resident(|documents|);
      case Release =>
        ReleaseAll();
        reply := Released;
    }

    /** A worker fed a run of messages is in the state of that run. */
    method Serve(messages: seq<Message>)
      requires Valid() && Now() == Started
      modifies this
      ensures Now() == Run(messages, capacity) && Kept(Now()) && |documents| <= capacity
    {
      for i := 0 to |messages|
        invariant Valid() && Now() == Run(messages[..i], capacity)
      {
        assert messages[..i + 1][..i] == messages[..i];
        var reply := Handle(messages[i]);
      }
      assert messages[..|messages|] == messages;
      RunKeeps(messages, capacity);
    }
  }
}
