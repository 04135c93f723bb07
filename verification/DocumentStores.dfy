/** The document store: parsed files kept for the keys last loaded, and handed out only for unchanged bytes. */
module DocumentStores {
  import opened Wrappers
  import opened RecencyMaps

  // What a bounded map of recent keys holds.

  function LastOf<V>(m: seq<Slot<V>>, n: nat): seq<Slot<V>> {
    if |m| <= n then m else m[|m| - n..]
  }

  /** Remembering outright: the key last, and then no more than the limit from the end. */
  function Remembered<V>(m: seq<Slot<V>>, n: nat, k: Text, v: V): seq<Slot<V>> {
    LastOf(Renewed(m, k, v), n)
  }

  /** The map after a history of rememberings. */
  function Bounded<V>(history: seq<Slot<V>>, n: nat): seq<Slot<V>> {
    if history == [] then [] else
      var last := history[|history| - 1];
      Remembered(Bounded(history[..|history| - 1], n), n, last.key, last.value)
  }

  /** The same with no limit. */
  function Unbounded<V>(history: seq<Slot<V>>): seq<Slot<V>> {
    if history == [] then [] else
      var last := history[|history| - 1];
      Renewed(Unbounded(history[..|history| - 1]), last.key, last.value)
  }

  function KeysOf<V>(history: seq<Slot<V>>): seq<Text> {
    if history == [] then [] else KeysOf(history[..|history| - 1]) + [history[|history| - 1].key]
  }

  /** The value last remembered for a key. */
  function Latest<V>(history: seq<Slot<V>>, k: Text): Option<V> {
    if history == [] then None
    else if history[|history| - 1].key == k then Some(history[|history| - 1].value)
    else Latest(history[..|history| - 1], k)
  }

  lemma {:induction false} FindAppend<V>(m: seq<Slot<V>>, e: Slot<V>, k: Text)
    ensures Find(m + [e], k) == if Find(m, k).Some? then Find(m, k) else if e.key == k then Some(e.value) else None
  {
    if m == [] {
      assert [] + [e] == [e] && Find([e][1..], k).None?;
    } else {
      FindAppend(m[1..], e, k);
      assert (m + [e])[1..] == m[1..] + [e];
    }
  }

  lemma {:induction false} FindWithout<V>(m: seq<Slot<V>>, k: Text, x: Text)
    requires x != k
    ensures Find(Without(m, k), x) == Find(m, x)
  {
    if m != [] && m[0].key != k {
      FindWithout(m[1..], k, x);
      assert ([m[0]] + Without(m[1..], k))[1..] == Without(m[1..], k);
    }
  }

  /** With no limit: each key once, in the order of last use, with the value last remembered for it. */
  lemma {:induction false} UnboundedMeans<V>(history: seq<Slot<V>>, k: Text)
    ensures Distinct(Unbounded(history)) && ByRecency(Unbounded(history), KeysOf(history))
    ensures Find(Unbounded(history), k) == Latest(history, k)
  {
    if history != [] {
      var last, before := history[|history| - 1], history[..|history| - 1];
      UnboundedMeans(before, k);
      RenewedByRecency(Unbounded(before), KeysOf(before), last.key, last.value);
      FindAppend(Without(Unbounded(before), last.key), last, k);
      WithoutKeeps(Unbounded(before), last.key);
      if k != last.key {
        FindWithout(Unbounded(before), last.key, k);
      }
    }
  }

  lemma {:induction false} WithoutSplit<V>(a: seq<Slot<V>>, c: seq<Slot<V>>, k: Text)
    ensures Without(a + c, k) == if Find(a, k).Some? then Without(a, k) + c else a + Without(c, k)
  {
    if a == [] {
      assert a + c == c && a + Without(c, k) == Without(c, k);
    } else {
      var head, rest := [a[0]], a[1..];
      assert (a + c)[0] == a[0] && (a + c)[1..] == rest + c;
      WithoutSplit(rest, c, k);
      Regroup(head, Without(rest, k), c);
      Regroup(head, rest, Without(c, k));
      assert head + rest == a;
    }
  }

  lemma {:induction false} WithoutLength<V>(m: seq<Slot<V>>, k: Text)
    ensures |Without(m, k)| == if Find(m, k).Some? then |m| - 1 else |m|
  {
    if m != [] {
      WithoutLength(m[1..], k);
    }
  }

  lemma LastOfAppend<V>(a: seq<Slot<V>>, c: seq<Slot<V>>, n: nat)
    requires |c| >= n
    ensures LastOf(a + c, n) == LastOf(c, n)
  {
  }

  /** Remembering commutes with dropping what is beyond the limit. */
  lemma LimitLater<V>(a: seq<Slot<V>>, c: seq<Slot<V>>, n: nat, k: Text, v: V)
    requires Distinct(a + c) && |c| == n
    ensures Remembered(a + c, n, k, v) == Remembered(c, n, k, v)
  {
    WithoutSplit(a, c, k);
    WithoutLength(c, k);
    if Find(a, k).Some? {
      var i := Place(a, k);
      assert (a + c)[i].key == k;
      forall j | 0 <= j < |c| ensures c[j].key != k { assert (a + c)[|a| + j] == c[j]; }
      Absent(c, k);
      WithoutAbsent(c, k);
      assert Without(a + c, k) + [Slot(k, v)] == Without(a, k) + (c + [Slot(k, v)]);
      LastOfAppend(Without(a, k), c + [Slot(k, v)], n);
    } else {
      assert Without(a + c, k) + [Slot(k, v)] == a + (Without(c, k) + [Slot(k, v)]);
      LastOfAppend(a, Without(c, k) + [Slot(k, v)], n);
    }
  }

  /** A bounded history keeps the keys last used, up to the limit, and for each its latest value. */
  lemma {:induction false} BoundedIsLast<V>(history: seq<Slot<V>>, n: nat)
    ensures Bounded(history, n) == LastOf(Unbounded(history), n)
  {
    if history != [] {
      var last, before := history[|history| - 1], history[..|history| - 1];
      var m := Unbounded(before);
      BoundedIsLast(before, n);
      UnboundedMeans(before, last.key);
      if |m| > n {
        assert m[..|m| - n] + m[|m| - n..] == m;
        LimitLater(m[..|m| - n], m[|m| - n..], n, last.key, last.value);
      }
    }
  }

  /** What a key finds: the latest value remembered for it, while fewer than the limit of other keys were used since. */
  lemma FoundIsLatest<V>(history: seq<Slot<V>>, n: nat, k: Text)
    requires Find(Bounded(history, n), k).Some?
    ensures Find(Bounded(history, n), k) == Latest(history, k)
  {
    var all, kept := Unbounded(history), Bounded(history, n);
    BoundedIsLast(history, n);
    UnboundedMeans(history, k);
    FoundMember(kept, k);
    FindMember(all, Slot(k, Find(kept, k).value));
  }

  lemma NotInTail<V>(all: seq<Slot<V>>, n: nat, i: nat, k: Text)
    requires i < |all| && all[i].key == k && Find(LastOf(all, n), k).None?
    ensures i < |all| - |LastOf(all, n)|
  {
    var kept := LastOf(all, n);
    if i >= |all| - |kept| {
      assert kept[i - (|all| - |kept|)] == all[i];
    }
    Absent(kept, k);
  }

  /** A key that is not kept was used before every key that is, and the map is full. */
  lemma DroppedIsOlder<V>(history: seq<Slot<V>>, n: nat, k: Text, e: Slot<V>)
    requires Latest(history, k).Some? && Find(Bounded(history, n), k).None?
    ensures |Bounded(history, n)| == n
    ensures e in Bounded(history, n) ==> LastUse(KeysOf(history), k) < LastUse(KeysOf(history), e.key)
  {
    var all, kept := Unbounded(history), Bounded(history, n);
    BoundedIsLast(history, n);
    UnboundedMeans(history, k);
    var i := Place(all, k);
    NotInTail(all, n, i, k);
    if e in kept {
      var j :| 0 <= j < |kept| && kept[j] == e;
      assert all[|all| - |kept| + j] == e;
    }
  }

  // The store.

  datatype Stamp = Stamp(path: Text, bytes: seq<bv8>, variant: Text)
  datatype Mode = Resident | Chunked
  datatype Opened = Opened(stamp: Stamp, sizeBytes: nat, modifiedAt: Text, mode: Mode)
  datatype Document<+L> = Document(loaded: L, file: Opened)

  /** What a parser is given. */
  datatype Context = Context(file: Opened, path: Text, displayPath: Text, source: seq<bv8>)

  /** A file as read: or that there is no root, or that reading failed. */
  datatype Read = NoRoot | Unreadable | Snapshot(bytes: seq<bv8>, modifiedAt: Text)

  datatype Problem = InvalidArgument | ReadFailed | InvalidSnapshot | ParseFailed

  /** What a store is created with; parsing depends on the options through their variant key only. */
  datatype Settings<!L> = Settings(maxEntries: nat, residentMaxBytes: nat, maxBytes: (Text, Text) -> nat,
                                   display: Text -> Text, parse: (Context, Text) -> Option<L>)

  function KeyOf(path: Text, variant: Text): Text {
    Text(path.chars + "\0" + variant.chars)
  }

  function OpenedOf<L>(s: Settings<L>, path: Text, variant: Text, bytes: seq<bv8>, modifiedAt: Text): Opened {
    Opened(Stamp(path, bytes, variant), |bytes|, modifiedAt, if |bytes| > s.residentMaxBytes then Chunked else Resident)
  }

  /** A parse of some bytes, as a load with nothing kept would make it. */
  function Fresh<L>(s: Settings<L>, path: Text, variant: Text, bytes: seq<bv8>,
        modifiedAt: Text): Result<Document<L>, Problem> {
    var file := OpenedOf(s, path, variant, bytes, modifiedAt);
    var parsed := s.parse(Context(file, path, s.display(path), bytes), variant);
    if parsed.None? then Err(ParseFailed) else Ok(Document(parsed.value, file))
  }

  /** What a load answers, whatever was loaded before. */
  function Answer<L>(s: Settings<L>, path: Text, variant: Text, read: Read): Result<Document<L>, Problem> {
    match read
    case NoRoot => Err(InvalidArgument)
    case Unreadable => Err(ReadFailed)
    case Snapshot(bytes, modifiedAt) =>
      if |bytes| > s.maxBytes(path, variant) then Err(InvalidSnapshot) else Fresh(s, path, variant, bytes, modifiedAt)
  }

  /** A kept document is what a parse of the bytes in its stamp makes. */
  ghost predicate Genuine<L>(s: Settings<L>, d: Document<L>) {
    var o := d.file;
    Fresh(s, o.stamp.path, o.stamp.variant, o.stamp.bytes, o.modifiedAt) == Ok(d)
  }

  /** An equal stamp and time make a kept document as good as a fresh one. */
  lemma KeptIsFresh<L>(s: Settings<L>, d: Document<L>, path: Text, variant: Text, bytes: seq<bv8>, modifiedAt: Text)
    requires Genuine(s, d) && d.file.stamp == Stamp(path, bytes, variant) && d.file.modifiedAt == modifiedAt
    ensures Fresh(s, path, variant, bytes, modifiedAt) == Ok(d)
  {
  }

  /** A load between reading its file and having parsed it: other loads may run meanwhile. */
  datatype Pending = Pending(key: Text, context: Context, variant: Text)

  datatype Begun<+L> = Done(document: Document<L>) | Refused(problem: Problem) | Parsing(pending: Pending)

  /** The load that a pending parse belongs to. */
  ghost predicate PendingFor<L>(s: Settings<L>, p: Pending, path: Text, variant: Text, read: Read) {
    read.Snapshot? && |read.bytes| <= s.maxBytes(path, variant) && p.key == KeyOf(path, variant) && p.variant == variant
    && p.context == Context(OpenedOf(s, path, variant, read.bytes, read.modifiedAt), path, s.display(path), read.bytes)
  }

  class DocumentStore<L> {
    const settings: Settings<L>
    var cache: seq<Slot<Document<L>>>
    /** What was remembered since the store was made or cleared. */
    ghost var history: seq<Slot<Document<L>>>

    ghost predicate Valid()
      reads this
    {
      Distinct(cache) && cache == Bounded(history, settings.maxEntries)
      && forall e :: e in cache ==> Genuine(settings, e.value)
    }

    constructor (settings: Settings<L>)
      ensures this.settings == settings && Valid() && history == []
    {
      this.settings := settings;
      cache, history := [], [];
    }

    /** The loop of `remember`: the oldest is deleted until the rest fits. */
    method Trim()
      modifies this`cache
      ensures cache == LastOf(old(cache), settings.maxEntries)
    {
      while |cache| > settings.maxEntries
        invariant LastOf(cache, settings.maxEntries) == LastOf(old(cache), settings.maxEntries)
        decreases |cache|
      {
        DeleteFirst(cache);
        LastOfRest(cache, settings.maxEntries);
        cache := Without(cache, cache[0].key);
      }
    }

    static lemma LastOfRest(m: seq<Slot<Document<L>>>, n: nat)
      requires |m| > n
      ensures LastOf(m[1..], n) == LastOf(m, n)
    {
    }

    /** `remember`: set last, then the oldest deleted until the rest fits. */
    method Remember(key: Text, document: Document<L>)
      requires Valid() && Genuine(settings, document)
      modifies this
      ensures Valid() && history == old(history) + [Slot(key, document)]
    {
      RememberedKeeps(cache, key, document);
      cache := Without(cache, key);
      cache := With(cache, key, document);
      LastKeeps(cache, settings.maxEntries);
      Trim();
      history := history + [Slot(key, document)];
      assert history[..|history| - 1] == old(history);
    }

    static lemma LastKeeps(m: seq<Slot<Document<L>>>, n: nat)
      requires Distinct(m)
      ensures Distinct(LastOf(m, n)) && forall e :: e in LastOf(m, n) ==> e in m
    {
    }

    static lemma DeleteFirst(m: seq<Slot<Document<L>>>)
      requires m != []
      ensures Without(m, m[0].key) == m[1..]
    {
    }

    static lemma RememberedKeeps(m: seq<Slot<Document<L>>>, key: Text, d: Document<L>)
      requires Distinct(m)
      ensures With(Without(m, key), key, d) == Renewed(m, key, d) && Distinct(Renewed(m, key, d))
      ensures forall e :: e in Renewed(m, key, d) ==> e in m || e == Slot(key, d)
    {
      WithoutKeeps(m, key);
      Absent(Without(m, key), key);
      WithAbsent(Without(m, key), key, d);
      RenewedHolds(m, key, d);
    }

    static lemma RenewedHolds(m: seq<Slot<Document<L>>>, key: Text, d: Document<L>)
      requires Distinct(m)
      ensures forall e :: e in Renewed(m, key, d) ==> e in m || e == Slot(key, d)
    {
      forall e | e in Renewed(m, key, d) ensures e in m || e == Slot(key, d) {
        WithoutMembers(m, key, e);
        assert e in Without(m, key) || e in [Slot(key, d)];
      }
    }

    /** `load` up to its parse: a hit is answered at once, and anything else needs parsing. */
    method Begin(path: Text, variant: Text, read: Read) returns (r: Begun<L>)
      requires Valid()
      modifies this
      ensures Valid()
      ensures history == if r.Done? then old(history) + [Slot(KeyOf(path, variant), r.document)] else old(history)
      ensures r.Done? ==> Answer(settings, path, variant, read) == Ok(r.document)
      ensures r.Refused? ==> Answer(settings, path, variant, read) == Err(r.problem)
      ensures r.Parsing? ==> PendingFor(settings, r.pending, path, variant, read)
    {
      var key := KeyOf(path, variant);
      if read.NoRoot? {
        return Refused(InvalidArgument);
      }
      if read.Unreadable? {
        return Refused(ReadFailed);
      }
      if |read.bytes| > settings.maxBytes(path, variant) {
        return Refused(InvalidSnapshot);
      }
      var stamp := Stamp(path, read.bytes, variant);
      var cached := Find(cache, key);
      if cached.Some? {
        var kept := cached.value;
        if kept.file.stamp == stamp && kept.file.modifiedAt == read.modifiedAt {
          FoundMember(cache, key);
          KeptIsFresh(settings, kept, path, variant, read.bytes, read.modifiedAt);
          Remember(key, kept);
          return Done(kept);
        }
      }
      var file := OpenedOf(settings, path, variant, read.bytes, read.modifiedAt);
      r := Parsing(Pending(key, Context(file, path, settings.display(path), read.bytes), variant));
    }

    /** `load` after its parse: what was parsed is remembered, whatever was remembered meanwhile. */
    method Finish(p: Pending, ghost path: Text, ghost variant: Text, ghost read: Read)
      returns (r: Result<Document<L>, Problem>)
      requires Valid() && PendingFor(settings, p, path, variant, read)
      modifies this
      ensures Valid() && r == Answer(settings, path, variant, read)
      ensures history == if r.Ok? then old(history) + [Slot(KeyOf(path, variant), r.value)] else old(history)
    {
      var parsed := settings.parse(p.context, p.variant);
      if parsed.None? {
        return Err(ParseFailed);
      }
      var document := Document(parsed.value, p.context.file);
      Remember(p.key, document);
      r := Ok(document);
    }

    /** `load` with nothing between: the answer is that of a fresh parse of the bytes just read. */
    method Load(path: Text, variant: Text, read: Read) returns (r: Result<Document<L>, Problem>)
      requires Valid()
      modifies this
      ensures Valid() && r == Answer(settings, path, variant, read)
      ensures history == if r.Ok? then old(history) + [Slot(KeyOf(path, variant), r.value)] else old(history)
    {
      var begun := Begin(path, variant, read);
      match begun
      case Done(document) => r := Ok(document);
      case Refused(problem) => r := Err(problem);
      case Parsing(pending) => r := Finish(pending, path, variant, read);
    }

    method Clear()
      modifies this
      ensures Valid() && history == []
    {
      cache, history := [], [];
    }
  }
}
