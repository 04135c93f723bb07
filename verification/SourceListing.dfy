/** Listing a sandbox's sources: the scan, the glob and the extension together, and what an exact total means. */
module SourceListing {
  import opened Wrappers
  import opened Ordering
  import opened PathText
  import opened FileTree
  import opened PathResolution
  import opened TreeScan
  import opened ScanJob
  import opened GlobPatterns

  const MAX_PATTERN := 256
  const MAX_SCAN := 5000
  const MAX_DEPTH := 64
  const MAX_MS := 1000

  /** What a listing depends on beside the tree: which paths have a format, and how text is folded. */
  datatype Rules = Rules(hasFormat: string -> bool, fold: string -> string)

  datatype Problem = InvalidArgument | ScanFailed(failure: Failure)

  datatype SourceListing = SourceListing(files: seq<Entry>, total: nat, totalExact: bool, truncated: bool,
                                         reason: Option<Reason>, unreadable: nat)

  function Basename(path: string): string {
    if '/' !in path then path else Basename(path[1..])
  }

  /** A path's last name: what holds no slash and ends the path, all of it or behind a slash. */
  lemma {:induction false} BasenameIs(path: string)
    ensures '/' !in Basename(path) && |Basename(path)| <= |path|
    ensures var k := |path| - |Basename(path)|; path[k..] == Basename(path) && (k > 0 ==> path[k - 1] == '/')
  {
    if '/' in path {
      BasenameIs(path[1..]);
      var k := |path[1..]| - |Basename(path[1..])|;
      assert path[1..][k..] == path[k + 1..];
      if k > 0 {
        assert path[k] == path[1..][k - 1];
      } else {
        assert path[1..][0..] == path[1..];
        assert path == [path[0]] + path[1..];
      }
    }
  }

  lemma SlashlessHoldsNone(s: string)
    requires Slashless(s)
    ensures '/' !in s
  {
    RunSlashless(s);
    assert s[..|s|] == s;
  }

  lemma {:induction false} RunSlashless(s: string)
    ensures '/' !in s[..Run(s)]
  {
    if s != "" && s[0] != '/' {
      RunSlashless(s[1..]);
      assert s[..Run(s)] == [s[0]] + s[1..][..Run(s[1..])];
    }
  }

  /** The last name of a joined place is the place's own. */
  lemma BasenameOfPlace(place: Place)
    requires place != [] && AllReal(place)
    ensures Basename(Join(place)) == place[|place| - 1].chars
  {
    var rest, last := place[..|place| - 1], place[|place| - 1];
    assert Real(last);
    SlashlessHoldsNone(last.chars);
    if Join(rest) != "" { BasenameBehind(Join(rest), last.chars); }
  }

  lemma {:induction false} BasenameBehind(a: string, b: string)
    requires '/' !in b
    ensures Basename(a + "/" + b) == b
  {
    var s := a + "/" + b;
    assert s[|a|] == '/';
    if a == "" {
      assert s[1..] == b;
    } else {
      assert s[1..] == a[1..] + "/" + b;
      BasenameBehind(a[1..], b);
    }
  }

  /** The pattern is matched against the whole path, and against its last name. */
  ghost predicate Selected(rules: Rules, pattern: string, path: string) {
    rules.hasFormat(path)
    && (Accepts(Tokens(pattern, true), rules.fold(path)) || Accepts(Tokens(pattern, true), rules.fold(Basename(path))))
  }

  /** A place to be listed: it resolves to a file, and its path is selected. */
  ghost predicate Chosen(root: Root, rules: Rules, pattern: string, place: Place) {
    var path := Join(place);
    Meaning(root, path).Ok? && !Meaning(root, path).value.handle.Directory? && Selected(rules, pattern, path)
  }

  ghost predicate AscendingPaths(s: seq<Entry>) {
    forall i, j :: 0 <= i < j < |s| ==> Less(s[i].path, s[j].path)
  }

  ghost predicate DistinctPaths(s: seq<Entry>) {
    forall i, j :: 0 <= i < j < |s| ==> s[i].path != s[j].path
  }

  /** The listing is right about one place beneath the base. */
  ghost predicate ChosenRight(root: Root, base: Place, rules: Rules, pattern: string, chosen: seq<Entry>, exact: bool,
        place: Place) {
    InTree(root.tree, place) && Strictly(base, place) ==>
      && Listed(chosen, place) <= 1
      && (Listed(chosen, place) == 1 ==> Chosen(root, rules, pattern, place))
      && (exact ==> (Listed(chosen, place) == 1 <==> Chosen(root, rules, pattern, place)))
  }

  // Sorting by path.

  predicate PathBefore(a: Entry, b: Entry) {
    Less(a.path, b.path)
  }

  lemma {:induction false} InsertAscends(x: Entry, s: seq<Entry>)
    requires AscendingPaths(s) && forall e :: e in s ==> e.path != x.path
    ensures AscendingPaths(Insert(PathBefore, x, s))
  {
    if s != [] {
      assert s == [s[0]] + s[1..];
      if PathBefore(s[0], x) {
        InsertAscends(x, s[1..]);
        InsertMembers(PathBefore, x, s[1..]);
        var rest := Insert(PathBefore, x, s[1..]);
        forall j | 0 <= j < |rest| ensures Less(s[0].path, rest[j].path) {
          assert rest[j] in rest;
          if rest[j] != x {
            var i :| 0 <= i < |s[1..]| && s[1..][i] == rest[j];
            assert s[i + 1] == rest[j];
          }
        }
      } else {
        LessTotal(s[0].path, x.path);
        forall j | 0 <= j < |s| ensures Less(x.path, s[j].path) {
          if j > 0 { LessTransitive(x.path, s[0].path, s[j].path); }
        }
      }
    }
  }

  lemma {:induction false} SortAscends(s: seq<Entry>)
    requires DistinctPaths(s)
    ensures AscendingPaths(Sort(PathBefore, s))
  {
    if s != [] {
      SortAscends(s[1..]);
      SortMembers(PathBefore, s[1..]);
      forall e | e in s[1..] ensures e.path != s[0].path {
        var i :| 0 <= i < |s[1..]| && s[1..][i] == e;
        assert s[i + 1] == e;
      }
      InsertAscends(s[0], Sort(PathBefore, s[1..]));
    }
  }

  // How often a place is listed.

  lemma {:induction false} ListedMember(entries: seq<Entry>, place: Place)
    ensures Listed(entries, place) > 0 <==> exists i :: 0 <= i < |entries| && entries[i].path == Join(place)
  {
    if entries != [] {
      var n := |entries| - 1;
      ListedMember(entries[..n], place);
      if i :| 0 <= i < |entries| && entries[i].path == Join(place) && i < n {
        assert entries[..n][i] == entries[i];
      }
    }
  }

  lemma {:induction false} ListedOnce(entries: seq<Entry>, place: Place)
    requires DistinctPaths(entries)
    ensures Listed(entries, place) <= 1
  {
    if entries != [] {
      ListedOnce(entries[..|entries| - 1], place);
      ListedMember(entries[..|entries| - 1], place);
    }
  }

  lemma {:induction false} ListedTwice(entries: seq<Entry>, i: nat, j: nat, place: Place)
    requires i < j < |entries| && entries[i].path == entries[j].path == Join(place)
    ensures Listed(entries, place) >= 2
  {
    var n := |entries| - 1;
    if j < n {
      ListedTwice(entries[..n], i, j, place);
    } else {
      ListedMember(entries[..n], place);
      assert entries[..n][i] == entries[i];
    }
  }

  /** A scan's entries have distinct paths. */
  lemma EntriesDistinct(root: Root, base: Place, limit: nat, budget: nat, visited: nat, unreadable: nat,
        entries: seq<Entry>, reason: Option<Reason>)
    requires Reports(root, base, limit, budget, visited, unreadable, entries, reason)
    ensures DistinctPaths(entries)
  {
    forall i, j | 0 <= i < j < |entries| ensures entries[i].path != entries[j].path {
      var place := Components(entries[i].path);
      assert Genuine(root, base, limit, entries[i]);
      assert ListedRight(root, base, limit, entries, reason, unreadable, place);
      if entries[i].path == entries[j].path { ListedTwice(entries, i, j, place); }
    }
  }

  /** What was picked out of the first entries. */
  ghost predicate Picked(rules: Rules, pattern: string, entries: seq<Entry>, candidates: seq<Entry>) {
    DistinctPaths(candidates)
    && forall e :: e in candidates <==> e in entries && !e.info.Directory? && Selected(rules, pattern, e.path)
  }

  /** From the entries of a scan to the chosen, place by place. */
  lemma PickedRight(root: Root, base: Place, rules: Rules, pattern: string, scan: Job, n: nat, chosen: seq<Entry>,
        exact: bool, place: Place)
    requires Reports(root, base, scan.depth, scan.budget, scan.visited, scan.unreadable, scan.entries, scan.reason)
    requires n <= |scan.entries| && Picked(rules, pattern, scan.entries[..n], chosen)
    requires exact ==> n == |scan.entries| && scan.reason == None && scan.unreadable == 0
    ensures ChosenRight(root, base, rules, pattern, chosen, exact, place)
  {
    var entries := scan.entries;
    ListedOnce(chosen, place);
    ListedMember(chosen, place);
    ListedMember(entries, place);
    assert ListedRight(root, base, scan.depth, entries, scan.reason, scan.unreadable, place);
    if i :| 0 <= i < |chosen| && chosen[i].path == Join(place) {
      assert chosen[i] in entries[..n];
      assert Genuine(root, base, scan.depth, chosen[i]);
    }
    if exact && InTree(root.tree, place) && Strictly(base, place) && Chosen(root, rules, pattern, place) {
      var i :| 0 <= i < |entries| && entries[i].path == Join(place);
      assert Genuine(root, base, scan.depth, entries[i]);
      assert entries[i] in entries[..n];
      var j :| 0 <= j < |chosen| && chosen[j] == entries[i];
    }
  }

  /** The loop over the entries, which the clock may stop. */
  method Pick(rules: Rules, pattern: string, entries: seq<Entry>, expired: nat -> bool)
    returns (candidates: seq<Entry>, n: nat)
    requires DistinctPaths(entries)
    ensures n <= |entries| && Picked(rules, pattern, entries[..n], candidates)
    ensures n < |entries| ==> expired(n)
  {
    candidates, n := [], 0;
    while n < |entries|
      invariant n <= |entries| && Picked(rules, pattern, entries[..n], candidates)
    {
      if expired(n) {
        return;
      }
      var entry := entries[n];
      var byPath := GlobMatches(pattern, rules.fold(entry.path));
      var byName := GlobMatches(pattern, rules.fold(Basename(entry.path)));
      assert entries[..n + 1] == entries[..n] + [entry];
      forall e | e in entries[..n] ensures e.path != entry.path {}
      if !entry.info.Directory? && rules.hasFormat(entry.path) && (byPath || byName) {
        forall i | 0 <= i < |candidates| ensures candidates[i].path != entry.path {
          assert candidates[i] in candidates;
        }
        candidates := candidates + [entry];
      }
      n := n + 1;
    }
  }

  lemma SortedPicked(rules: Rules, pattern: string, entries: seq<Entry>, candidates: seq<Entry>)
    requires Picked(rules, pattern, entries, candidates)
    ensures AscendingPaths(Sort(PathBefore, candidates))
      && Picked(rules, pattern, entries, Sort(PathBefore, candidates))
    ensures |Sort(PathBefore, candidates)| == |candidates|
  {
    var sorted := Sort(PathBefore, candidates);
    SortAscends(candidates);
    SortMembers(PathBefore, candidates);
    SortPermutes(PathBefore, candidates);
    assert |multiset(sorted)| == |sorted| && |multiset(candidates)| == |candidates|;
    forall i, j | 0 <= i < j < |sorted| ensures sorted[i].path != sorted[j].path { LessIrreflexive(sorted[i].path); }
  }

  /** What is said of a listing: what it holds, what its total means, and why anything is missing. */
  ghost predicate ListsRightly(root: Root, base: Place, rules: Rules, pattern: string, maxResults: nat, budget: nat,
        late: bool, listed: SourceListing, chosen: seq<Entry>, seen: seq<Entry>) {
    && AscendingPaths(chosen) && listed.total == |chosen|
    && listed.files == (if |chosen| > maxResults then chosen[..maxResults] else chosen)
    && (listed.truncated <==> |chosen| > maxResults)
    && (listed.totalExact <==> listed.reason == None && listed.unreadable == 0)
    && DistinctPaths(seen) && (forall e :: e in seen ==> Genuine(root, base, MAX_DEPTH, e))
    && Caused(root, base, MAX_DEPTH, budget, |seen| + listed.unreadable, listed.unreadable, listed.reason, late)
    && forall place {:trigger ChosenRight(root, base, rules, pattern, chosen, listed.totalExact, place)} ::
         ChosenRight(root, base, rules, pattern, chosen, listed.totalExact, place)
  }

  /** The clock ran out during the scan, or while its entries were gone through. */
  ghost predicate RanOut(elapsed: nat -> nat, expired: nat -> bool) {
    Late(elapsed, MAX_MS) || exists n: nat :: expired(n)
  }

  lemma CausedLater(root: Root, base: Place, limit: nat, budget: nat, visited: nat, unreadable: nat,
        reason: Option<Reason>, late: bool, later: bool)
    requires Caused(root, base, limit, budget, visited, unreadable, reason, late) && (late ==> later)
    ensures Caused(root, base, limit, budget, visited, unreadable, reason, later)
    ensures later ==> Caused(root, base, limit, budget, visited, unreadable, Some(Time), later)
  {
  }

  /**
   * `listSources` under a base within the root: every file listed is chosen, in ascending order of path and
   * once; when the total is called exact, every chosen place beneath the base is counted; and it is called inexact
   * only with cause.
   */
  method ListSources(root: Root, listing: Listing, rules: Rules, path: string, given: string, maxResults: int,
        maxScan: nat, elapsed: nat -> nat, expired: nat -> bool)
    returns (r: Result<SourceListing, Problem>, ghost chosen: seq<Entry>, ghost seen: seq<Entry>)
    requires root.tree.Directory? && RealNames(root.tree) && ReadsAll(listing)
    ensures |rules.fold(given)| > MAX_PATTERN || maxResults < 0 ==> r == Err(InvalidArgument)
    ensures |rules.fold(given)| <= MAX_PATTERN && maxResults >= 0 ==>
      match Meaning(root, path)
      case Err(error) => r == Err(ScanFailed(error))
      case Ok(base) =>
        var place := Components(base.path);
        if !base.handle.Directory? then r == Err(ScanFailed(NotAFile))
        else if r.Err? then r == Err(ScanFailed(InternalError)) && Failed(root, place)
        else ListsRightly(root, place, rules, rules.fold(given), maxResults,
          if maxScan < MAX_SCAN then maxScan else MAX_SCAN, RanOut(elapsed, expired), r.value, chosen, seen)
  {
    chosen, seen := [], [];
    var pattern := rules.fold(given);
    if |pattern| > MAX_PATTERN || maxResults < 0 {
      return Err(InvalidArgument), chosen, seen;
    }
    var scan := new Job(if maxScan < MAX_SCAN then maxScan else MAX_SCAN, MAX_DEPTH, MAX_MS);
    var error := scan.Execute(root, listing, elapsed, path);
    if error.Some? {
      return Err(ScanFailed(error.value)), chosen, seen;
    }
    ghost var base := Components(Meaning(root, path).value.path);
    EntriesDistinct(root, base, scan.depth, scan.budget, scan.visited, scan.unreadable, scan.entries, scan.reason);
    var candidates, n := Pick(rules, pattern, scan.entries, expired);
    SortedPicked(rules, pattern, scan.entries[..n], candidates);
    var reason := if n < |scan.entries| then Some(Time) else scan.reason;
    var sorted := Sort(PathBefore, candidates);
    var files := if |sorted| > maxResults then sorted[..maxResults] else sorted;
    var exact := reason == None && scan.unreadable == 0;
    chosen, seen := sorted, scan.entries;
    forall place ensures ChosenRight(root, base, rules, pattern, chosen, exact, place) {
      PickedRight(root, base, rules, pattern, scan, n, chosen, exact, place);
    }
    CausedLater(root, base, scan.depth, scan.budget, scan.visited, scan.unreadable, scan.reason,
      Late(elapsed, MAX_MS), RanOut(elapsed, expired));
    r := Ok(SourceListing(files, |candidates|, exact, |candidates| > |files|, reason, scan.unreadable));
  }
}
