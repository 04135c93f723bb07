/** The budgeted depth-first scan, and exactly which names it lists. */
module TreeScan {
  import opened Wrappers
  import opened PathText
  import opened FileTree
  import opened PathResolution

  datatype Reason = Time | Entries | Depth

  datatype Entry = Entry(path: string, info: Node)

  /** The order in which a directory's names are read, dots among them. */
  type Listing = Node -> seq<Text>

  const DOT := Text(".")
  const DOT_DOT := Text("..")

  ghost predicate ReadsAll(listing: Listing) {
    forall node: Node {:trigger listing(node)} :: node.Directory? ==>
      multiset(listing(node)) == multiset(node.children.Keys) + multiset{DOT, DOT_DOT}
  }

  ghost predicate InTree(tree: Node, place: Place) {
    At(tree, place).Some?
  }

  /** Every name in the tree is one that a directory can hold. */
  ghost predicate RealNames(tree: Node) {
    forall place {:trigger InTree(tree, place)} :: InTree(tree, place) ==> AllReal(place)
  }

  predicate Under(above: Place, place: Place) {
    |above| <= |place| && place[..|above|] == above
  }

  predicate Strictly(above: Place, place: Place) {
    |above| < |place| && Under(above, place)
  }

  /** A name the scan is to list: within the depth, and resolvable. */
  predicate Wanted(root: Root, base: Place, limit: nat, place: Place) {
    |place| <= |base| + limit + 1 && Meaning(root, Join(place)).Ok?
  }

  /** An open directory: the names still to be read from it, and where it is. */
  datatype Frame = Frame(path: string, depth: nat, names: seq<Text>, ghost place: Place)

  /** Whether a place is still to come from a frame: its next name is among those to be read. */
  ghost function Coming(f: Frame, place: Place): nat {
    if Strictly(f.place, place) then multiset(f.names)[place[|f.place|]] else 0
  }

  ghost function StillComing(stack: seq<Frame>, place: Place): nat {
    if stack == [] then 0 else StillComing(stack[..|stack| - 1], place) + Coming(stack[|stack| - 1], place)
  }

  /** How often a place has been listed. */
  function Listed(entries: seq<Entry>, place: Place): nat {
    if entries == [] then 0
    else Listed(entries[..|entries| - 1], place) + if entries[|entries| - 1].path == Join(place) then 1 else 0
  }

  /** Each wanted place has been listed or is still to come; while nothing was cut off, so has every place. */
  ghost predicate Covered(root: Root, base: Place, limit: nat, stack: seq<Frame>, entries: seq<Entry>, whole: bool,
        place: Place) {
    InTree(root.tree, place) && Strictly(base, place) ==>
      && (whole || Wanted(root, base, limit, place) ==> Listed(entries, place) + StillComing(stack, place) == 1)
      && (!Wanted(root, base, limit, place) ==> Listed(entries, place) == 0)
  }

  ghost predicate Covers(root: Root, base: Place, limit: nat, stack: seq<Frame>, entries: seq<Entry>, whole: bool) {
    forall place {:trigger Covered(root, base, limit, stack, entries, whole, place)} ::
      Covered(root, base, limit, stack, entries, whole, place)
  }

  ghost predicate FrameHolds(root: Root, base: Place, limit: nat, f: Frame) {
    && IsDirectory(root.tree, f.place) && Under(base, f.place) && f.path == Join(f.place)
    && f.depth == |f.place| - |base| && f.depth <= limit && |f.place| <= MAX_NAMES && AllReal(f.place)
    && forall n :: n in f.names ==> n == DOT || n == DOT_DOT || InTree(root.tree, f.place + [n])
  }

  ghost predicate StackHolds(root: Root, base: Place, limit: nat, stack: seq<Frame>) {
    forall i {:trigger stack[i]} :: 0 <= i < |stack| ==> FrameHolds(root, base, limit, stack[i])
  }

  /** An entry is a wanted place beneath the base, and what its path resolves to. */
  ghost predicate Genuine(root: Root, base: Place, limit: nat, e: Entry) {
    var place := Components(e.path);
    && InTree(root.tree, place) && Strictly(base, place) && |place| <= |base| + limit + 1
    && e.path == Join(place) && Meaning(root, e.path).Ok? && Meaning(root, e.path).value.handle == e.info
  }

  lemma JoinInjective(a: Place, b: Place)
    requires AllReal(a) && AllReal(b) && Join(a) == Join(b)
    ensures a == b
  {
    ComponentsOfJoin(a);
    ComponentsOfJoin(b);
  }

  lemma ListedNext(entries: seq<Entry>, here: Place, info: Node, place: Place)
    requires AllReal(here) && AllReal(place)
    ensures Listed(entries + [Entry(Join(here), info)], place) == Listed(entries, place) + if here == place then 1
      else 0
  {
    assert (entries + [Entry(Join(here), info)])[..|entries|] == entries;
    if Join(here) == Join(place) { JoinInjective(here, place); }
  }

  lemma StillComingTop(stack: seq<Frame>, f: Frame, place: Place)
    ensures StillComing(stack + [f], place) == StillComing(stack, place) + Coming(f, place)
  {
    assert (stack + [f])[..|stack|] == stack;
  }

  /** Reading one name takes from what is to come just what lies under that name. */
  lemma ComingRead(f: Frame, place: Place)
    requires f.names != []
    ensures Coming(f, place) == Coming(f.(names := f.names[1..]), place) + if Under(f.place + [f.names[0]], place)
      then 1 else 0
  {
    assert f.names == [f.names[0]] + f.names[1..];
    UnderNext(f.place, f.names[0], place);
  }

  lemma UnderNext(above: Place, name: Text, place: Place)
    ensures Under(above + [name], place) <==> Strictly(above, place) && place[|above|] == name
  {
    if Strictly(above, place) && place[|above|] == name {
      assert place[..|above| + 1] == above + [name];
    }
    if Under(above + [name], place) {
      assert place[..|above|] == (above + [name])[..|above|];
      assert place[|above|] == (above + [name])[|above|];
    }
  }

  /** A place in the tree passes through each of its prefixes. */
  lemma {:induction false} PrefixInTree(tree: Node, place: Place, n: nat)
    requires InTree(tree, place) && n <= |place|
    ensures InTree(tree, place[..n])
  {
    if n < |place| {
      var last := |place| - 1;
      PrefixInTree(tree, place[..last], n);
      assert place[..last][..n] == place[..n];
    } else {
      assert place[..n] == place;
    }
  }

  /** A newly opened directory brings every place beneath it, once. */
  lemma ComingOpened(root: Root, f: Frame, listing: Listing, place: Place)
    requires RealNames(root.tree) && ReadsAll(listing) && InTree(root.tree, place)
    requires IsDirectory(root.tree, f.place) && f.names == listing(At(root.tree, f.place).value)
    ensures Coming(f, place) == if Strictly(f.place, place) then 1 else 0
  {
    if Strictly(f.place, place) {
      var n := |f.place|;
      PrefixInTree(root.tree, place, n + 1);
      assert place[..n + 1][..n] == f.place;
      assert place[n] in place && Real(place[n]);
      var children := At(root.tree, f.place).value.children;
      assert place[n] in children.Keys;
      assert multiset(f.names)[place[n]] == multiset(children.Keys)[place[n]];
    }
  }

  lemma OpenedHolds(root: Root, base: Place, limit: nat, f: Frame, listing: Listing)
    requires ReadsAll(listing) && IsDirectory(root.tree, f.place) && f.names == listing(At(root.tree, f.place).value)
    requires Under(base, f.place) && f.path == Join(f.place) && f.depth == |f.place| - |base| <= limit
    requires |f.place| <= MAX_NAMES && AllReal(f.place)
    ensures FrameHolds(root, base, limit, f)
  {
    var node := At(root.tree, f.place).value;
    forall n | n in f.names ensures n == DOT || n == DOT_DOT || InTree(root.tree, f.place + [n]) {
      assert n in multiset(listing(node));
      assert (f.place + [n])[..|f.place|] == f.place;
    }
  }

  /** Resolving a name under an open directory is one step from there. */
  lemma MeaningUnder(root: Root, above: Place, name: Text)
    requires root.tree.Directory? && IsDirectory(root.tree, above) && |above| <= MAX_NAMES && AllReal(above)
      && Real(name)
    ensures Meaning(root, Join(above + [name])) == Answer(root, Step(root, above, name, MAX_LINKS))
  {
    ComponentsOfJoin(above + [name]);
    JoinRelative(above + [name]);
    WalkStraight(root, above, MAX_LINKS);
    WalkSplits(root, [], above, [name], MAX_LINKS);
    WalkOne(root, above, name, MAX_LINKS);
  }

  lemma WalkOne(root: Root, here: Place, name: Text, left: nat)
    ensures Walk(root, here, [name], left) == Step(root, here, name, left)
  {
    assert [name][0] == name && [name][1..] == [];
  }

  /** What that step gives. */
  lemma ResolveUnder(root: Root, above: Place, name: Text)
    requires root.tree.Directory? && IsDirectory(root.tree, above) && |above| <= MAX_NAMES && AllReal(above)
      && Real(name)
    ensures var node := At(root.tree, above + [name]);
      var r := Meaning(root, Join(above + [name]));
      && (r.Ok? ==> |above| < MAX_NAMES && node.Some?)
      && (r.Ok? && node.Some? && !node.value.Link? ==> r.value.handle == node.value && !r.value.viaLink)
      && (r.Ok? && node.Some? && node.value.Link? ==> r.value.viaLink)
      && (|above| < MAX_NAMES && node.Some? && (node.value.Directory? || node.value.File?) ==> r.Ok?)
  {
    MeaningUnder(root, above, name);
    var node := At(root.tree, above + [name]);
    if LinkAt(root, above, name).None? {
      assert Step(root, above, name, MAX_LINKS)
          == var entered := Enter(root, above, name); if entered.Err? then Err(entered.error)
            else Ok(Walked(entered.value, MAX_LINKS));
    } else {
      StepCrosses(root, above, name, MAX_LINKS);
    }
  }

  lemma StepCrosses(root: Root, here: Place, name: Text, left: nat)
    requires LinkAt(root, here, name).Some? && name.chars != ".."
    ensures var r := Step(root, here, name, left); r.Ok? ==> r.value.left < left
  {
  }

  /** What the loop keeps between turns. */
  ghost predicate Scanning(root: Root, base: Place, limit: nat, stack: seq<Frame>, entries: seq<Entry>, whole: bool) {
    forall q {:trigger Asked(q)} :: Asked(q) ==>
      && StackHolds(root, base, limit, stack) && Covers(root, base, limit, stack, entries, whole)
      && forall e :: e in entries ==> Genuine(root, base, limit, e)
  }

  /** What never changes during a scan. */
  ghost predicate Grounds(root: Root, listing: Listing, base: Place) {
    && root.tree.Directory? && RealNames(root.tree) && ReadsAll(listing)
    && IsDirectory(root.tree, base) && |base| <= MAX_NAMES && AllReal(base)
  }

  lemma Opening(root: Root, listing: Listing, base: Place, limit: nat)
    requires Grounds(root, listing, base)
    ensures Scanning(root, base, limit, [Frame(Join(base), 0, listing(At(root.tree, base).value), base)], [], true)
  {
    var f := Frame(Join(base), 0, listing(At(root.tree, base).value), base);
    assert base[..|base|] == base;
    OpenedHolds(root, base, limit, f, listing);
    forall place ensures Covered(root, base, limit, [f], [], true, place) {
      if InTree(root.tree, place) {
        ComingOpened(root, f, listing, place);
        StillComingTop([], f, place);
        assert [] + [f] == [f];
      }
    }
  }

  lemma Popped(root: Root, base: Place, limit: nat, stack: seq<Frame>, f: Frame, entries: seq<Entry>, whole: bool)
    requires Scanning(root, base, limit, stack + [f], entries, whole) && f.names == []
    ensures Scanning(root, base, limit, stack, entries, whole)
  {
    assert Asked(true);
    forall i | 0 <= i < |stack| ensures FrameHolds(root, base, limit, stack[i]) {
      assert FrameHolds(root, base, limit, (stack + [f])[i]);
    }
    forall place ensures Covered(root, base, limit, stack, entries, whole, place) {
      assert Covered(root, base, limit, stack + [f], entries, whole, place);
      StillComingTop(stack, f, place);
    }
  }

  /** The top frame with its first name read. */
  function Advanced(f: Frame): Frame
    requires f.names != []
  {
    f.(names := f.names[1..])
  }

  lemma AdvancedHolds(root: Root, base: Place, limit: nat, stack: seq<Frame>, f: Frame)
    requires StackHolds(root, base, limit, stack + [f]) && f.names != []
    ensures FrameHolds(root, base, limit, f) && StackHolds(root, base, limit, stack + [Advanced(f)])
  {
    assert f == (stack + [f])[|stack|];
    forall i | 0 <= i < |stack| + 1 ensures FrameHolds(root, base, limit, (stack + [Advanced(f)])[i]) {
      assert FrameHolds(root, base, limit, (stack + [f])[i]);
    }
  }

  lemma Read(stack: seq<Frame>, f: Frame, place: Place)
    requires f.names != []
    ensures StillComing(stack + [f], place)
         == StillComing(stack + [Advanced(f)], place) + if Under(f.place + [f.names[0]], place) then 1 else 0
  {
    StillComingTop(stack, f, place);
    StillComingTop(stack, Advanced(f), place);
    ComingRead(f, place);
  }

  lemma DotSkipped(root: Root, listing: Listing, base: Place, limit: nat, stack: seq<Frame>, f: Frame,
        entries: seq<Entry>, whole: bool)
    requires Grounds(root, listing, base) && Scanning(root, base, limit, stack + [f], entries, whole)
    requires f.names != [] && (f.names[0] == DOT || f.names[0] == DOT_DOT)
    ensures Scanning(root, base, limit, stack + [Advanced(f)], entries, whole)
  {
    assert Asked(true);
    AdvancedHolds(root, base, limit, stack, f);
    forall place ensures Covered(root, base, limit, stack + [Advanced(f)], entries, whole, place) {
      assert Covered(root, base, limit, stack + [f], entries, whole, place);
      if InTree(root.tree, place) {
        Read(stack, f, place);
        UnderNext(f.place, f.names[0], place);
        assert Under(f.place + [f.names[0]], place) ==> f.names[0] in place && Real(f.names[0]);
      }
    }
  }

  /** The name being read, and what is known of it. */
  lemma NameHolds(root: Root, listing: Listing, base: Place, limit: nat, f: Frame)
    requires Grounds(root, listing, base) && FrameHolds(root, base, limit, f)
    requires f.names != [] && f.names[0] != DOT && f.names[0] != DOT_DOT
    ensures var here := f.place + [f.names[0]];
      && InTree(root.tree, here) && AllReal(here) && Real(f.names[0]) && Strictly(base, here)
         && |here| <= |base| + limit + 1
      && Components(Join(here)) == here && Join(here) == Beneath(f.path, f.names[0])
  {
    var here := f.place + [f.names[0]];
    assert f.names[0] in f.names;
    assert f.names[0] in here;
    assert here[..|base|] == f.place[..|base|];
    assert here[..|f.place|] == f.place;
    ComponentsOfJoin(here);
  }

  /** A name that does not resolve is wanted no more than anything beneath it. */
  lemma UnreadableUnwanted(root: Root, base: Place, limit: nat, above: Place, name: Text, place: Place)
    requires root.tree.Directory? && IsDirectory(root.tree, above) && |above| <= MAX_NAMES && AllReal(above)
      && Real(name)
    requires RealNames(root.tree) && Meaning(root, Join(above + [name])).Err?
    requires InTree(root.tree, place) && Under(above + [name], place)
    ensures !Wanted(root, base, limit, place)
  {
    var here := above + [name];
    ResolveUnder(root, above, name);
    if |here| < |place| {
      AboveIsDirectory(root.tree, place, |here|);
      ResolveTooDeep(root, place);
    } else {
      assert place == here;
    }
  }

  lemma ResolveTooDeep(root: Root, place: Place)
    requires root.tree.Directory? && InTree(root.tree, place) && AllReal(place) && |place| > MAX_NAMES
    ensures Meaning(root, Join(place)).Err?
  {
    var above, rest := place[..MAX_NAMES], place[MAX_NAMES..];
    assert place == above + rest;
    AboveIsDirectory(root.tree, place, MAX_NAMES);
    ComponentsOfJoin(place);
    WalkStraight(root, above, MAX_LINKS);
    WalkSplits(root, [], above, rest, MAX_LINKS);
    assert rest[0] in place && Real(rest[0]);
    assert LinkAt(root, above, rest[0]).None?;
  }

  lemma Unreadable(root: Root, listing: Listing, base: Place, limit: nat, stack: seq<Frame>, f: Frame,
        entries: seq<Entry>, whole: bool)
    requires Grounds(root, listing, base) && Scanning(root, base, limit, stack + [f], entries, whole)
    requires f.names != [] && f.names[0] != DOT && f.names[0] != DOT_DOT
    requires Meaning(root, Beneath(f.path, f.names[0])).Err?
    ensures Scanning(root, base, limit, stack + [Advanced(f)], entries, false)
  {
    assert Asked(true);
    AdvancedHolds(root, base, limit, stack, f);
    NameHolds(root, listing, base, limit, f);
    forall place ensures Covered(root, base, limit, stack + [Advanced(f)], entries, false, place) {
      assert Covered(root, base, limit, stack + [f], entries, whole, place);
      Read(stack, f, place);
      if InTree(root.tree, place) && Under(f.place + [f.names[0]], place) {
        UnreadableUnwanted(root, base, limit, f.place, f.names[0], place);
      }
    }
  }

  /** The entry for the name being read. */
  lemma EntryHolds(root: Root, listing: Listing, base: Place, limit: nat, f: Frame)
    requires Grounds(root, listing, base) && FrameHolds(root, base, limit, f)
    requires f.names != [] && f.names[0] != DOT && f.names[0] != DOT_DOT
    requires Meaning(root, Beneath(f.path, f.names[0])).Ok?
    ensures var path := Beneath(f.path, f.names[0]);
      Genuine(root, base, limit, Entry(path, Meaning(root, path).value.handle))
        && Wanted(root, base, limit, f.place + [f.names[0]])
  {
    NameHolds(root, listing, base, limit, f);
  }

  /** Listed and not entered: it is no directory, or the depth is reached and nothing beneath it is wanted. */
  lemma ListedOnly(root: Root, listing: Listing, base: Place, limit: nat, stack: seq<Frame>, f: Frame,
        entries: seq<Entry>, whole: bool, deep: bool)
    requires Grounds(root, listing, base) && Scanning(root, base, limit, stack + [f], entries, whole)
    requires f.names != [] && f.names[0] != DOT && f.names[0] != DOT_DOT
    requires Meaning(root, Beneath(f.path, f.names[0])).Ok?
    requires if deep then f.depth >= limit else !IsDirectory(root.tree, f.place + [f.names[0]])
    ensures var path := Beneath(f.path, f.names[0]);
      Scanning(root, base, limit, stack + [Advanced(f)], entries
        + [Entry(path, Meaning(root, path).value.handle)], whole && !deep)
  {
    assert Asked(true);
    AdvancedHolds(root, base, limit, stack, f);
    NameHolds(root, listing, base, limit, f);
    EntryHolds(root, listing, base, limit, f);
    var here := f.place + [f.names[0]];
    var info := Meaning(root, Join(here)).value.handle;
    var still := whole && !deep;
    forall place ensures Covered(root, base, limit, stack + [Advanced(f)], entries
      + [Entry(Join(here), info)], still, place) {
      assert Covered(root, base, limit, stack + [f], entries, whole, place);
      if InTree(root.tree, place) {
        Read(stack, f, place);
        ListedNext(entries, here, info, place);
        UnderIsHere(root, here, place);
      }
    }
  }

  lemma UnderIsHere(root: Root, here: Place, place: Place)
    requires InTree(root.tree, place)
    ensures Under(here, place) <==> place == here || Strictly(here, place)
    ensures Strictly(here, place) ==> IsDirectory(root.tree, here)
  {
    if Strictly(here, place) { AboveIsDirectory(root.tree, place, |here|); }
    assert here[..|here|] == here;
    assert place[..|place|] == place;
  }

  lemma Entered(root: Root, listing: Listing, base: Place, limit: nat, stack: seq<Frame>, f: Frame,
        entries: seq<Entry>, whole: bool)
    requires Grounds(root, listing, base) && Scanning(root, base, limit, stack + [f], entries, whole)
    requires f.names != [] && f.names[0] != DOT && f.names[0] != DOT_DOT && f.depth < limit
    requires Meaning(root, Beneath(f.path, f.names[0])).Ok? && IsDirectory(root.tree, f.place + [f.names[0]])
    ensures var path := Beneath(f.path, f.names[0]);
      var here := f.place + [f.names[0]];
      var node := At(root.tree, here).value;
      && Meaning(root, path).value.handle == node
      && Scanning(root, base, limit, stack + [Advanced(f)] + [Frame(path, f.depth + 1, listing(node), here)], entries
         + [Entry(path, node)], whole)
  {
    assert Asked(true);
    AdvancedHolds(root, base, limit, stack, f);
    NameHolds(root, listing, base, limit, f);
    EntryHolds(root, listing, base, limit, f);
    ResolveUnder(root, f.place, f.names[0]);
    var here := f.place + [f.names[0]];
    var node := At(root.tree, here).value;
    var g := Frame(Join(here), f.depth + 1, listing(node), here);
    OpenedHolds(root, base, limit, g, listing);
    var more := stack + [Advanced(f)] + [g];
    forall i | 0 <= i < |more| ensures FrameHolds(root, base, limit, more[i]) {
      assert i < |more| - 1 ==> more[i] == (stack + [Advanced(f)])[i];
    }
    forall place ensures Covered(root, base, limit, more, entries + [Entry(Join(here), node)], whole, place) {
      assert Covered(root, base, limit, stack + [f], entries, whole, place);
      if InTree(root.tree, place) {
        Read(stack, f, place);
        ListedNext(entries, here, node, place);
        StillComingTop(stack + [Advanced(f)], g, place);
        ComingOpened(root, g, listing, place);
        UnderIsHere(root, here, place);
      }
    }
  }
}
