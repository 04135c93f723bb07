/** The scan job: its counters, its entries, and what they say once the scan ends. */
module ScanJob {
  import opened Wrappers
  import opened PathText
  import opened FileTree
  import opened PathResolution
  import opened TreeScan

  /** Names left to read and directories left to close, which bounds the turns that visit nothing. */
  function Remaining(stack: seq<Frame>): nat {
    if stack == [] then 0 else Remaining(stack[..|stack| - 1]) + |stack[|stack| - 1].names| + 1
  }

  lemma RemainingTop(stack: seq<Frame>, f: Frame)
    ensures Remaining(stack + [f]) == Remaining(stack) + |f.names| + 1
  {
    assert (stack + [f])[..|stack|] == stack;
  }

  /** The listing of one place agrees with the outcome of the scan. */
  ghost predicate ListedRight(root: Root, base: Place, limit: nat, entries: seq<Entry>, reason: Option<Reason>,
        unreadable: nat, place: Place) {
    InTree(root.tree, place) && Strictly(base, place) ==>
      && Listed(entries, place) <= 1
      && (Listed(entries, place) == 1 ==> Wanted(root, base, limit, place))
      && (reason != Some(Time) && reason != Some(Entries) ==>
         (Listed(entries, place) == 1 <==> Wanted(root, base, limit, place)))
      && (reason == None && unreadable == 0 ==> Listed(entries, place) == 1)
  }

  /** What a scan that did not fail reports. */
  ghost predicate Reports(root: Root, base: Place, limit: nat, budget: nat, visited: nat, unreadable: nat,
        entries: seq<Entry>, reason: Option<Reason>) {
    && visited == |entries| + unreadable <= budget
    && (forall e :: e in entries ==> Genuine(root, base, limit, e))
    && (forall place {:trigger ListedRight(root, base, limit, entries, reason, unreadable, place)} ::
          ListedRight(root, base, limit, entries, reason, unreadable, place))
  }

  /** A name beneath the base that does not resolve, in this way if one is given. */
  ghost predicate Unresolved(root: Root, base: Place, place: Place) {
    InTree(root.tree, place) && Strictly(base, place) && Meaning(root, Join(place)).Err?
  }

  ghost predicate Fatal(root: Root, base: Place, place: Place) {
    Unresolved(root, base, place) && Meaning(root, Join(place)) == Err(InternalError)
  }

  /** A directory that the depth does not allow to be opened. */
  ghost predicate TooDeep(root: Root, base: Place, limit: nat, place: Place) {
    Strictly(base, place) && IsDirectory(root.tree, place) && |place| == |base| + limit + 1
  }

  /** Nothing is cut off, and nothing called unreadable, without a cause. */
  ghost predicate Caused(root: Root, base: Place, limit: nat, budget: nat, visited: nat, unreadable: nat,
        reason: Option<Reason>, late: bool) {
    && (reason == Some(Time) ==> late)
    && (reason == Some(Entries) ==> visited == budget)
    && (reason == Some(Depth) ==> exists place {:trigger TooDeep(root, base, limit, place)} ::
          TooDeep(root, base, limit, place))
    && (unreadable > 0 ==> exists place {:trigger Unresolved(root, base, place)} :: Unresolved(root, base, place))
  }

  /** The clock stood at the limit at some turn. */
  ghost predicate Late(elapsed: nat -> nat, ms: nat) {
    exists turn: nat :: elapsed(turn) >= ms
  }

  ghost predicate Failed(root: Root, base: Place) {
    exists place {:trigger Fatal(root, base, place)} :: Fatal(root, base, place)
  }

  lemma Finished(root: Root, base: Place, limit: nat, stack: seq<Frame>, entries: seq<Entry>, whole: bool,
                 budget: nat, visited: nat, unreadable: nat, reason: Option<Reason>)
    requires Scanning(root, base, limit, stack, entries, whole) && visited == |entries| + unreadable <= budget
    requires stack == [] || reason == Some(Time) || reason == Some(Entries)
    requires reason == None && unreadable == 0 ==> whole
    ensures Reports(root, base, limit, budget, visited, unreadable, entries, reason)
  {
    assert Asked(true);
    forall place ensures ListedRight(root, base, limit, entries, reason, unreadable, place) {
      assert Covered(root, base, limit, stack, entries, whole, place);
    }
  }

  class Job {
    const budget: nat
    const depth: nat
    const ms: nat
    var visited: nat
    var unreadable: nat
    var entries: seq<Entry>
    var reason: Option<Reason>

    constructor (budget: nat, depth: nat, ms: nat)
      ensures this.budget == budget && this.depth == depth && this.ms == ms
      ensures visited == 0 && unreadable == 0 && entries == [] && reason == None
    {
      this.budget := budget;
      this.depth := depth;
      this.ms := ms;
      visited := 0;
      unreadable := 0;
      entries := [];
      reason := None;
    }

    ghost predicate Counts()
      reads this
    {
      visited == |entries| + unreadable <= budget && reason != Some(Time) && reason != Some(Entries)
    }

    /** `elapsed` stands for the clock: the milliseconds read at each turn. */
    method Scan(root: Root, listing: Listing, elapsed: nat -> nat, base: Resolved, ghost place: Place)
      returns (error: Option<Failure>)
      requires root.tree.Directory? && RealNames(root.tree) && ReadsAll(listing)
      requires Ends(root, place) && AllReal(place) && base.path == Join(place)
        && At(root.tree, place) == Some(base.handle)
      requires visited == 0 && unreadable == 0 && entries == [] && reason == None
      modifies this
      ensures if base.handle.Directory? then error == None || error == Some(InternalError) else error == Some(NotAFile)
      ensures base.handle.Directory? && error == Some(InternalError) ==> Failed(root, place)
      ensures error == None ==> Reports(root, place, depth, budget, visited, unreadable, entries, reason)
      ensures error == None ==>
        Caused(root, place, depth, budget, visited, unreadable, reason, Late(elapsed, ms))
    {
      error := None;
      if !base.handle.Directory? { return Some(NotAFile); }
      var stack := [Frame(base.path, 0, listing(base.handle), place)];
      Opening(root, listing, place, depth);
      var turn := 0;
      ghost var whole := true;
      while stack != []
        invariant Counts() && error == None
        invariant Caused(root, place, depth, budget, visited, unreadable, reason, Late(elapsed, ms))
        invariant whole == (reason == None && unreadable == 0) && Scanning(root, place, depth, stack, entries, whole)
        decreases budget - visited, Remaining(stack)
      {
        turn := turn + 1;
        if elapsed(turn) >= ms {
          reason := Some(Time);
          break;
        }
        if visited >= budget {
          reason := Some(Entries);
          break;
        }
        var rest, top := stack[..|stack| - 1], stack[|stack| - 1];
        assert stack == rest + [top];
        if top.names == [] {
          Popped(root, place, depth, rest, top, entries, whole);
          stack := rest;
          continue;
        }
        var name := top.names[0];
        stack := rest + [Advanced(top)];
        RemainingTop(rest, top);
        RemainingTop(rest, Advanced(top));
        if name == DOT || name == DOT_DOT {
          DotSkipped(root, listing, place, depth, rest, top, entries, whole);
          continue;
        }
        stack, error := Visit(root, listing, rest, top, place, Late(elapsed, ms));
        if error.Some? { return; }
        whole := reason == None && unreadable == 0;
      }
      Finished(root, place, depth, stack, entries, whole, budget, visited, unreadable, reason);
    }

    /** The `scan` operation: the path is resolved, then scanned from where it leads. */
    method Execute(root: Root, listing: Listing, elapsed: nat -> nat, path: string) returns (error: Option<Failure>)
      requires root.tree.Directory? && RealNames(root.tree) && ReadsAll(listing)
      requires visited == 0 && unreadable == 0 && entries == [] && reason == None
      modifies this
      ensures Meaning(root, path).Err? ==> error == Some(Meaning(root, path).error)
      ensures Meaning(root, path).Ok? ==>
        var place := Components(Meaning(root, path).value.path);
        if Meaning(root, path).value.handle.Directory? then
          error == None || (error == Some(InternalError) && Failed(root, place))
        else error == Some(NotAFile)
      ensures error == None ==>
        var place := Components(Meaning(root, path).value.path);
        && Reports(root, place, depth, budget, visited, unreadable, entries, reason)
        && Caused(root, place, depth, budget, visited, unreadable, reason, Late(elapsed, ms))
    {
      var base := Resolve(root, path);
      if base.Err? { return Some(base.error); }
      ResolvedWithin(root, path);
      error := Scan(root, listing, elapsed, base.value, Components(base.value.path));
    }

    /** The rest of one turn: a name that is not a dot. */
    method Visit(root: Root, listing: Listing, rest: seq<Frame>, top: Frame, ghost base: Place, ghost late: bool)
      returns (stack: seq<Frame>, error: Option<Failure>)
      requires Grounds(root, listing, base) && Counts() && visited < budget
      requires Scanning(root, base, depth, rest + [top], entries, reason == None && unreadable == 0)
      requires top.names != [] && top.names[0] != DOT && top.names[0] != DOT_DOT
      requires Caused(root, base, depth, budget, visited, unreadable, reason, late)
      modifies this
      ensures error == None || (error == Some(InternalError) && Failed(root, base))
      ensures error == None ==> Caused(root, base, depth, budget, visited, unreadable, reason, late)
      ensures error == None ==>
        && Counts() && visited == old(visited) + 1
        && Scanning(root, base, depth, stack, entries, reason == None && unreadable == 0)
    {
      error := None;
      stack := rest + [Advanced(top)];
      visited := visited + 1;
      ghost var whole := reason == None && unreadable == 0;
      ghost var here := top.place + [top.names[0]];
      var path := Beneath(top.path, top.names[0]);
      var child := Resolve(root, path);
      HereIs(root, listing, base, depth, rest, top, entries, whole);
      if child.Err? {
        assert Unresolved(root, base, here);
        assert child.error == InternalError ==> Fatal(root, base, here);
        if child.error == InternalError { return stack, Some(InternalError); }
        Unreadable(root, listing, base, depth, rest, top, entries, whole);
        unreadable := unreadable + 1;
        return;
      }
      TopResolves(root, listing, base, depth, rest, top, entries, whole);
      var node := child.value.handle;
      if node.Directory? && !child.value.viaLink {
        if top.depth >= depth {
          ListedOnly(root, listing, base, depth, rest, top, entries, whole, true);
          assert TooDeep(root, base, depth, here);
          reason := Some(Depth);
        } else {
          Entered(root, listing, base, depth, rest, top, entries, whole);
          stack := stack + [Frame(path, top.depth + 1, listing(node), here)];
        }
      } else {
        ListedOnly(root, listing, base, depth, rest, top, entries, whole, false);
      }
      entries := entries + [Entry(path, node)];
    }
  }

  /** The name being read, and where it stands. */
  lemma HereIs(root: Root, listing: Listing, base: Place, limit: nat, stack: seq<Frame>, f: Frame,
        entries: seq<Entry>, whole: bool)
    requires Grounds(root, listing, base) && Scanning(root, base, limit, stack + [f], entries, whole)
    requires f.names != [] && f.names[0] != DOT && f.names[0] != DOT_DOT
    ensures var here := f.place + [f.names[0]];
      && InTree(root.tree, here) && Strictly(base, here) && Join(here) == Beneath(f.path, f.names[0])
      && |here| == |base| + f.depth + 1 && f.depth <= limit
  {
    assert Asked(true);
    assert f == (stack + [f])[|stack|];
    NameHolds(root, listing, base, limit, f);
  }

  /** A resolved name is a directory or a file, and is reached through a link unless it is the name's own node. */
  lemma TopResolves(root: Root, listing: Listing, base: Place, limit: nat, stack: seq<Frame>, f: Frame,
        entries: seq<Entry>, whole: bool)
    requires Grounds(root, listing, base) && Scanning(root, base, limit, stack + [f], entries, whole)
    requires f.names != [] && f.names[0] != DOT && f.names[0] != DOT_DOT
    requires Meaning(root, Beneath(f.path, f.names[0])).Ok?
    ensures var r := Meaning(root, Beneath(f.path, f.names[0])).value;
      && (r.handle.Directory? || r.handle.File?)
      && (IsDirectory(root.tree, f.place + [f.names[0]]) <==> r.handle.Directory? && !r.viaLink)
  {
    assert Asked(true);
    assert f == (stack + [f])[|stack|];
    NameHolds(root, listing, base, limit, f);
    ResolveUnder(root, f.place, f.names[0]);
    ResolvedWithin(root, Join(f.place + [f.names[0]]));
  }
}
