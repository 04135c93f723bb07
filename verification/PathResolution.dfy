/** The native resolver: a work queue of components, a chain of open directories, and their names. */
module PathResolution {
  import opened Wrappers
  import opened PathText
  import opened FileTree

  datatype Resolved = Resolved(handle: Node, path: string, viaLink: bool)

  /** The answer a walk gives. */
  function Answer(root: Root, walked: Result<Walked, Failure>): Result<Resolved, Failure> {
    if walked.Err? then Err(walked.error)
    else
      var node := At(root.tree, walked.value.place);
      if node.None? then Err(FileNotFound)
      else Ok(Resolved(node.value, Join(walked.value.place), walked.value.left != MAX_LINKS))
  }

  /** What resolving a path means. */
  function Meaning(root: Root, input: string): Result<Resolved, Failure> {
    if Absolute(input) then Err(PathOutsideRoot) else Answer(root, Walk(root, [], Components(input), MAX_LINKS))
  }

  /** Each open directory is the node at its prefix of the names. */
  ghost predicate Chained(tree: Node, chain: seq<Node>, names: seq<Text>) {
    |chain| == |names| + 1 &&
    forall i {:trigger chain[i]} :: 0 <= i <= |names| ==> chain[i].Directory? && At(tree, names[..i]) == Some(chain[i])
  }

  lemma ChainedPop(tree: Node, chain: seq<Node>, names: seq<Text>)
    requires Chained(tree, chain, names) && names != []
    ensures Chained(tree, chain[..|chain| - 1], names[..|names| - 1])
  {
    forall i | 0 <= i < |names| ensures names[..|names| - 1][..i] == names[..i] {}
  }

  lemma ChainedPush(tree: Node, chain: seq<Node>, names: seq<Text>, name: Text, child: Node)
    requires Chained(tree, chain, names) && Child(chain[|names|], name) == Some(child) && child.Directory?
    ensures Chained(tree, chain + [child], names + [name])
  {
    assert names[..|names|] == names;
    assert (names + [name])[..|names|] == names;
    forall i | 0 <= i <= |names| ensures (names + [name])[..i] == names[..i] {}
    assert (names + [name])[..|names| + 1] == names + [name];
  }

  lemma ChainedTop(tree: Node, chain: seq<Node>, names: seq<Text>, name: Text)
    requires Chained(tree, chain, names)
    ensures At(tree, names) == Some(chain[|names|])
    ensures At(tree, names + [name]) == Child(chain[|names|], name)
  {
    assert names[..|names|] == names;
    assert (names + [name])[..|names|] == names;
  }

  /** What can be waiting: real names and steps up. */
  ghost predicate Waiting(todo: seq<Text>) {
    forall n :: n in todo ==> Real(n) || n.chars == ".."
  }

  lemma {:induction false} SplitWaits(s: string, part: string)
    requires Slashless(part)
    ensures Waiting(Split(s, part))
  {
    if s != "" {
      if s[0] != '/' { SlashlessSnoc(part, s[0]); }
      SplitWaits(s[1..], if s[0] == '/' then "" else part + [s[0]]);
    }
  }

  lemma {:induction false} SlashlessSnoc(part: string, c: char)
    requires Slashless(part) && c != '/'
    ensures Slashless(part + [c])
  {
    if part != "" {
      assert (part + [c])[1..] == part[1..] + [c];
      SlashlessSnoc(part[1..], c);
    }
  }

  /** `openat2` beneath the root, following no link. */
  function OpenBeneath(tree: Node, path: string): Result<Node, Failure> {
    match At(tree, Components(path))
    case None => Err(FileNotFound)
    case Some(Link(_, _)) => Err(PathOutsideRoot)
    case Some(Denied(_)) => Err(PathOutsideRoot)
    case Some(node) => Ok(node)
  }

  /** The final answer: what the second opening finds must be what the first one did. */
  function Reopened(child: Node, atomic: Result<Node, Failure>, path: string,
        viaLink: bool): Result<Resolved, Failure> {
    if atomic.Err? then Err(atomic.error)
    else if atomic.value.id != child.id then Err(FileChanged)
    else Ok(Resolved(atomic.value, path, viaLink))
  }

  /** `openat` of a component that is not a link; a directory is demanded while components wait. */
  function OpenChild(parent: Node, name: Text, more: bool): Result<Node, Failure> {
    match Child(parent, name)
    case None => Err(FileNotFound)
    case Some(Denied(_)) => Err(PathOutsideRoot)
    case Some(node) =>
      if !node.Directory? && !node.File? then Err(NotAFile)
      else if more && node.File? then Err(NotAFile)
      else Ok(node)
  }

  /** What the loop keeps of its chain, names and queue: the walk that remains is the walk that was asked for. */
  ghost predicate Underway(root: Root, goal: Result<Walked, Failure>, chain: seq<Node>, names: seq<Text>,
        pending: seq<Text>, left: nat) {
    && |chain| == |names| + 1
    && forall q {:trigger Asked(q)} :: Asked(q) ==>
      && Chained(root.tree, chain, names) && AllReal(names) && |names| <= MAX_NAMES && Waiting(pending)
      && goal == Walk(root, names, pending, left)
  }

  lemma Begin(root: Root, input: string)
    requires root.tree.Directory?
    ensures Underway(root, Walk(root, [], Components(input), MAX_LINKS), [root.tree], [], Components(input), MAX_LINKS)
  {
    SplitWaits(input, "");
  }

  lemma StepUp(root: Root, goal: Result<Walked, Failure>, chain: seq<Node>, names: seq<Text>, pending: seq<Text>,
        left: nat)
    requires Underway(root, goal, chain, names, pending, left) && pending != [] && pending[0].chars == ".."
    ensures names == [] ==> goal == Err(PathOutsideRoot)
    ensures names != [] ==> Underway(root, goal, chain[..|chain| - 1], names[..|names| - 1], pending[1..], left)
  {
    assert Asked(true);
    assert goal == Walk(root, names, pending, left);
    ChainedTop(root.tree, chain, names, pending[0]);
    if names != [] { ChainedPop(root.tree, chain, names); }
  }

  lemma StepTooDeep(root: Root, goal: Result<Walked, Failure>, chain: seq<Node>, names: seq<Text>, pending: seq<Text>,
        left: nat)
    requires Underway(root, goal, chain, names, pending, left) && pending != [] && pending[0].chars != ".."
      && |names| >= MAX_NAMES
    ensures goal == Err(ResourceLimit)
  {
    assert Asked(true);
    assert goal == Walk(root, names, pending, left);
    ChainedTop(root.tree, chain, names, pending[0]);
    assert LinkAt(root, names, pending[0]).None?;
  }

  lemma StepLink(root: Root, goal: Result<Walked, Failure>, chain: seq<Node>, names: seq<Text>, pending: seq<Text>,
        left: nat, target: string)
    requires Underway(root, goal, chain, names, pending, left) && pending != [] && pending[0].chars != ".."
      && |names| < MAX_NAMES
    requires var seen := Child(chain[|names|], pending[0]);
      seen.Some? && seen.value.Link? && seen.value.target == target
    ensures |target| > MAX_TARGET ==> goal == Err(ResourceLimit)
    ensures |target| <= MAX_TARGET && left == 0 ==> goal == Err(PathOutsideRoot)
    ensures |target| <= MAX_TARGET && left > 0 ==>
      var lead := Follow(root, names, target);
      goal == if lead.Err? then Err(lead.error)
        else Walk(root, lead.value.start, lead.value.todo + pending[1..], left - 1)
  {
    assert Asked(true);
    assert goal == Walk(root, names, pending, left);
    ChainedTop(root.tree, chain, names, pending[0]);
    assert LinkAt(root, names, pending[0]) == Some(target);
    if |target| <= MAX_TARGET && left > 0 && Follow(root, names, target).Ok? {
      var lead := Follow(root, names, target).value;
      WalkSplits(root, lead.start, lead.todo, pending[1..], left - 1);
    }
  }

  lemma StepEnter(root: Root, goal: Result<Walked, Failure>, chain: seq<Node>, names: seq<Text>, pending: seq<Text>,
        left: nat)
    requires Underway(root, goal, chain, names, pending, left) && pending != [] && pending[0].chars != ".."
      && |names| < MAX_NAMES
    requires var seen := Child(chain[|names|], pending[0]); !(seen.Some? && seen.value.Link?)
    ensures var child := OpenChild(chain[|names|], pending[0], pending[1..] != []);
      && (child.Err? ==> goal == Err(child.error))
      && (child.Ok? && pending[1..] == [] ==> goal == Ok(Walked(names + [pending[0]], left)))
      && (child.Ok? && pending[1..] != [] ==>
         Underway(root, goal, chain + [child.value], names + [pending[0]], pending[1..], left))
  {
    assert Asked(true);
    assert goal == Walk(root, names, pending, left);
    ChainedTop(root.tree, chain, names, pending[0]);
    WalkFile(root, names + [pending[0]], pending[1..], left);
    var child := OpenChild(chain[|names|], pending[0], pending[1..] != []);
    assert Real(pending[0]) by { assert pending[0] in pending; }
    if child.Ok? && child.value.Directory? { ChainedPush(root.tree, chain, names, pending[0], child.value); }
  }

  lemma End(root: Root, goal: Result<Walked, Failure>, chain: seq<Node>, names: seq<Text>, left: nat)
    requires Underway(root, goal, chain, names, [], left)
    ensures At(root.tree, names) == Some(chain[|names|]) && goal == Ok(Walked(names, left))
  {
    assert Asked(true);
    assert goal == Walk(root, names, [], left);
    ChainedTop(root.tree, chain, names, Text(""));
  }

  lemma WalkFile(root: Root, place: Place, rest: seq<Text>, left: nat)
    ensures rest != [] && At(root.tree, place).Some? && At(root.tree, place).value.File?
      ==> Walk(root, place, rest, left) == Err(NotAFile)
  {
  }

  /** The link branch: the queue gains the target's components, and an absolute target starts from the root again. */
  method Expand(root: Root, ghost goal: Result<Walked, Failure>, chain: seq<Node>, names: seq<Text>,
        pending: seq<Text>, target: string, ghost left: nat)
    returns (r: Result<(seq<Node>, seq<Text>, seq<Text>), Failure>)
    requires Underway(root, goal, chain, names, pending, left) && pending != [] && pending[0].chars != ".."
      && |names| < MAX_NAMES
    requires var seen := Child(chain[|names|], pending[0]);
      seen.Some? && seen.value.Link? && seen.value.target == target
    requires |target| <= MAX_TARGET && left > 0
    ensures r.Err? ==> goal == Err(r.error)
    ensures r.Ok? ==> Underway(root, goal, r.value.0, r.value.1, r.value.2, left - 1)
  {
    StepLink(root, goal, chain, names, pending, left, target);
    assert Asked(true);
    if Absolute(target) {
      var relative := RelativeTarget(root, target);
      if relative.Err? { return Err(relative.error); }
      var expanded := Parts(relative.value);
      SplitWaits(relative.value, "");
      return Ok((chain[..1], [], expanded + pending[1..]));
    }
    var expanded := Parts(target);
    SplitWaits(target, "");
    r := Ok((chain, names, expanded + pending[1..]));
  }

  /** The last component: its directory or file, opened again from the root by its joined names. */
  method Finish(root: Root, ghost goal: Result<Walked, Failure>, chain: seq<Node>, names: seq<Text>, name: Text,
        child: Node, links: int)
    returns (r: Result<Resolved, Failure>)
    requires 0 <= links <= MAX_LINKS && Underway(root, goal, chain, names, [name], MAX_LINKS - links)
      && name.chars != ".."
    requires OpenChild(chain[|names|], name, false) == Ok(child)
    ensures r == Answer(root, Ok(Walked(names + [name], MAX_LINKS - links)))
  {
    assert Asked(true);
    assert name in [name];
    var canonical := Joined(names + [name]);
    ComponentsOfJoin(names + [name]);
    ChainedTop(root.tree, chain, names, name);
    r := Reopened(child, OpenBeneath(root.tree, canonical), canonical, links != 0);
  }

  /** `resolve`. */
  method Resolve(root: Root, input: string) returns (r: Result<Resolved, Failure>)
    requires root.tree.Directory?
    ensures r == Meaning(root, input)
  {
    if Absolute(input) { return Err(PathOutsideRoot); }
    var pending := Parts(input);
    Begin(root, input);
    r := Unwind(root, Walk(root, [], Components(input), MAX_LINKS), pending);
  }

  /** The loop of `resolve`: it ends on any tree of links, with the answer of the plain walk. */
  method Unwind(root: Root, ghost goal: Result<Walked, Failure>, todo: seq<Text>) returns (r: Result<Resolved, Failure>)
    requires Underway(root, goal, [root.tree], [], todo, MAX_LINKS)
    ensures r == Answer(root, goal)
  {
    var pending := todo;
    var chain := [root.tree];
    var names: seq<Text> := [];
    var links := 0;
    while pending != []
      invariant 0 <= links <= MAX_LINKS && Underway(root, goal, chain, names, pending, MAX_LINKS - links)
      decreases MAX_LINKS - links, |pending|
    {
      var name := pending[0];
      if name.chars == ".." {
        StepUp(root, goal, chain, names, pending, MAX_LINKS - links);
        if |chain| == 1 { return Err(PathOutsideRoot); }
        chain := chain[..|chain| - 1];
        names := names[..|names| - 1];
        pending := pending[1..];
        continue;
      }
      if |names| >= MAX_NAMES {
        StepTooDeep(root, goal, chain, names, pending, MAX_LINKS - links);
        return Err(ResourceLimit);
      }
      var seen := Child(chain[|chain| - 1], name);
      if seen.Some? && seen.value.Link? {
        StepLink(root, goal, chain, names, pending, MAX_LINKS - links, seen.value.target);
        if |seen.value.target| > MAX_TARGET { return Err(ResourceLimit); }
        if links + 1 > MAX_LINKS { return Err(PathOutsideRoot); }
        var expanded := Expand(root, goal, chain, names, pending, seen.value.target, MAX_LINKS - links);
        if expanded.Err? { return Err(expanded.error); }
        links := links + 1;
        chain, names, pending := expanded.value.0, expanded.value.1, expanded.value.2;
        continue;
      }
      StepEnter(root, goal, chain, names, pending, MAX_LINKS - links);
      var child := OpenChild(chain[|chain| - 1], name, |pending| > 1);
      if child.Err? { return Err(child.error); }
      if |pending| == 1 {
        assert pending == [name];
        r := Finish(root, goal, chain, names, name, child.value, links);
        return;
      }
      pending := pending[1..];
      names := names + [name];
      chain := chain + [child.value];
    }
    End(root, goal, chain, names, MAX_LINKS - links);
    var path := Joined(names);
    r := Ok(Resolved(chain[|chain| - 1], path, links != 0));
  }

  /** The answer lies in the root: its path names it from there, through directories only. */
  lemma ResolvedWithin(root: Root, input: string)
    requires root.tree.Directory? && Meaning(root, input).Ok?
    ensures var first := Meaning(root, input).value;
      var place := Components(first.path);
      && At(root.tree, place) == Some(first.handle) && (first.handle.Directory? || first.handle.File?)
      && AllReal(place) && |place| <= MAX_NAMES && Join(place) == first.path
      && forall n :: 0 <= n < |place| ==> IsDirectory(root.tree, place[..n])
  {
    var place := Walk(root, [], Components(input), MAX_LINKS).value.place;
    SplitWaits(input, "");
    WalkEnds(root, [], Components(input), MAX_LINKS);
    WalkNames(root, [], Components(input), MAX_LINKS);
    ComponentsOfJoin(place);
    forall n | 0 <= n < |place| ensures IsDirectory(root.tree, place[..n]) { AboveIsDirectory(root.tree, place, n); }
  }

  /** An absolute link spelled with the root's own path leads where the rest of it does from the root. */
  lemma AbsoluteLinkLeads(root: Root, here: Place, rest: string)
    requires Absolute(root.path) && root.path != "/"
    ensures Follow(root, here, root.path + "/" + rest) == Ok(Lead([], Components(rest)))
    ensures Follow(root, here, root.path) == Ok(Lead([], []))
  {
    var target := root.path + "/" + rest;
    assert target[..|root.path|] == root.path;
    assert target[|root.path| + 1..] == rest;
    assert root.path <= root.path;
  }

  /** The same beneath the root of all files, where every absolute path lies. */
  lemma SlashLinkLeads(root: Root, here: Place, rest: string)
    requires root.path == "/"
    ensures Follow(root, here, "/" + rest) == Ok(Lead([], Components(rest)))
  {
    var target := "/" + rest;
    assert root.path <= target && target[1..] == rest;
    if rest == "" { assert target == "/"; }
  }

  /** A step up undoes the last step down, and does not leave the root. */
  lemma UpUndoes(root: Root, place: Place, rest: seq<Text>, left: nat)
    requires AllReal(place) && IsDirectory(root.tree, place) && |place| <= MAX_NAMES
    ensures Walk(root, [], place + ([Text("..")] + rest), left) ==
      if place == [] then Err(PathOutsideRoot) else Walk(root, [], place[..|place| - 1] + rest, left)
  {
    var todo := [Text("..")] + rest;
    assert todo[0] == Text("..") && todo[1..] == rest;
    WalkFrom(root, place, todo, left);
    if place != [] {
      var above := place[..|place| - 1];
      AboveIsDirectory(root.tree, place, |above|);
      assert forall n :: n in above ==> n in place;
      WalkFrom(root, above, rest, left);
    }
  }

  /** A walk that may cross one link less: it ends at the same place, unless it crossed as many as it could. */
  ghost predicate OneLess(w: Result<Walked, Failure>, v: Result<Walked, Failure>) {
    match w
    case Ok(end) => v == if end.left > 0 then Ok(Walked(end.place, end.left - 1)) else Err(PathOutsideRoot)
    case Err(e) => v == w || v == Err(PathOutsideRoot)
  }

  lemma {:induction false} FewerLinks(root: Root, here: Place, todo: seq<Text>, left: nat)
    requires left > 0
    ensures OneLess(Walk(root, here, todo, left), Walk(root, here, todo, left - 1))
    decreases left, |todo|
  {
    if todo != [] {
      FewerLinksStep(root, here, todo[0], left);
      var step := Step(root, here, todo[0], left);
      if step.Ok? && step.value.left > 0 {
        FewerLinks(root, step.value.place, todo[1..], step.value.left);
      } else if step.Ok? {
        assert OneLess(step, Err(PathOutsideRoot));
      }
    }
  }

  lemma {:induction false} FewerLinksStep(root: Root, here: Place, name: Text, left: nat)
    requires left > 0
    ensures OneLess(Step(root, here, name, left), Step(root, here, name, left - 1))
    decreases left, 0
  {
    if IsDirectory(root.tree, here) && name.chars != ".." && LinkAt(root, here, name).Some? {
      var lead := Follow(root, here, LinkAt(root, here, name).value);
      if lead.Ok? && left > 1 { FewerLinks(root, lead.value.start, lead.value.todo, left - 1); }
    }
  }

  /** A link that a walk comes upon, with what it leads to. */
  ghost predicate LinkStands(root: Root, place: Place, name: Text, target: string, lead: Lead) {
    && AllReal(place) && Real(name) && |place| < MAX_NAMES && IsDirectory(root.tree, place)
    && (exists id :: At(root.tree, place + [name]) == Some(Link(id, target)))
    && |target| <= MAX_TARGET && Follow(root, place, target) == Ok(lead)
  }

  lemma WalkFrom(root: Root, place: Place, todo: seq<Text>, left: nat)
    requires AllReal(place) && IsDirectory(root.tree, place) && |place| <= MAX_NAMES
    ensures Walk(root, [], place + todo, left) == Walk(root, place, todo, left)
  {
    WalkStraight(root, place, left);
    WalkSplits(root, [], place, todo, left);
  }

  lemma WalkBehind(root: Root, place: Place, parts: seq<Text>, rest: seq<Text>, left: nat)
    requires AllReal(place) && IsDirectory(root.tree, place) && |place| < MAX_NAMES
    ensures Walk(root, [], place + parts + rest, left) == Walk(root, place, parts + rest, left)
  {
    assert place + parts + rest == place + (parts + rest);
    WalkFrom(root, place, parts + rest, left);
  }

  /** Coming upon a link is walking from where it leads, with one link less to cross. */
  lemma WalkLink(root: Root, place: Place, name: Text, target: string, lead: Lead, rest: seq<Text>, left: nat)
    requires LinkStands(root, place, name, target, lead) && left > 0
    ensures Walk(root, [], place + [name] + rest, left) == Walk(root, lead.start, lead.todo + rest, left - 1)
  {
    var todo := [name] + rest;
    assert place + [name] + rest == place + todo;
    assert todo[0] == name && todo[1..] == rest;
    WalkFrom(root, place, todo, left);
    WalkSplits(root, lead.start, lead.todo, rest, left - 1);
  }

  /** What one answer is when another crosses one link more: the same node and path, until the links run out. */
  ghost predicate OneMoreLink(root: Root, todo: seq<Text>, first: Result<Resolved, Failure>,
                              second: Result<Resolved, Failure>)
  {
    match second
    case Err(e) => first == second || first == Err(PathOutsideRoot)
    case Ok(node) =>
      var walked := Walk(root, [], todo, MAX_LINKS);
      walked.Ok? &&
      first == if walked.value.left > 0 then Ok(node.(viaLink := true)) else Err(PathOutsideRoot)
  }

  lemma AnswerOneLess(root: Root, todo: seq<Text>, v: Result<Walked, Failure>)
    requires OneLess(Walk(root, [], todo, MAX_LINKS), v)
    ensures OneMoreLink(root, todo, Answer(root, v), Answer(root, Walk(root, [], todo, MAX_LINKS)))
  {
  }

  lemma LinkAnswers(root: Root, place: Place, name: Text, target: string, lead: Lead, rest: seq<Text>, p: string,
        q: string)
    requires LinkStands(root, place, name, target, lead)
    requires !Absolute(p) && Components(p) == place + [name] + rest && !Absolute(q)
    requires Walk(root, [], Components(q), MAX_LINKS - 1)
      == Walk(root, lead.start, lead.todo + rest, MAX_LINKS - 1)
    ensures OneMoreLink(root, Components(q), Meaning(root, p), Meaning(root, q))
  {
    WalkLink(root, place, name, target, lead, rest, MAX_LINKS);
    FewerLinks(root, [], Components(q), MAX_LINKS);
    AnswerOneLess(root, Components(q), Walk(root, [], Components(q), MAX_LINKS - 1));
  }

  /**
   * A relative link leads from the directory it stands in: what is behind its name resolves as what is behind its
   * target there, with one link more crossed, and fails where that fails.
   */
  lemma RelativeLinkLeads(root: Root, place: Place, name: Text, target: string, id: int, rest: seq<Text>, p: string,
        q: string)
    requires AllReal(place) && Real(name) && |place| < MAX_NAMES && IsDirectory(root.tree, place)
    requires At(root.tree, place + [name]) == Some(Link(id, target)) && |target| <= MAX_TARGET && !Absolute(target)
    requires !Absolute(p) && Components(p) == place + [name] + rest
    requires !Absolute(q) && Components(q) == place + Components(target) + rest
    ensures OneMoreLink(root, Components(q), Meaning(root, p), Meaning(root, q))
  {
    WalkBehind(root, place, Components(target), rest, MAX_LINKS - 1);
    LinkAnswers(root, place, name, target, Lead(place, Components(target)), rest, p, q);
  }

  /** An absolute link leads from the root, by what its target says beneath the root's path. */
  lemma RootedLinkLeads(root: Root, place: Place, name: Text, target: string, beneath: string, id: int,
        rest: seq<Text>, p: string, q: string)
    requires AllReal(place) && Real(name) && |place| < MAX_NAMES && IsDirectory(root.tree, place)
    requires At(root.tree, place + [name]) == Some(Link(id, target)) && |target| <= MAX_TARGET && Absolute(target)
    requires RelativeTarget(root, target) == Ok(beneath)
    requires !Absolute(p) && Components(p) == place + [name] + rest
    requires !Absolute(q) && Components(q) == Components(beneath) + rest
    ensures OneMoreLink(root, Components(q), Meaning(root, p), Meaning(root, q))
  {
    LinkAnswers(root, place, name, target, Lead([], Components(beneath)), rest, p, q);
  }

  /** The path of something beneath a place. */
  function PathIn(place: Place, path: string): string {
    if place == [] then path else Join(place) + "/" + path
  }

  lemma PathInParts(place: Place, path: string, rest: string)
    requires AllReal(place) && path != "" && !Absolute(path)
    ensures Components(PathIn(place, path + "/" + rest)) == place + Components(path) + Components(rest)
    ensures !Absolute(PathIn(place, path + "/" + rest))
  {
    var all := path + "/" + rest;
    SplitSlash(path, rest, "");
    assert place + (Components(path) + Components(rest)) == place + Components(path) + Components(rest);
    if place != [] {
      ComponentsOfJoin(place);
      SplitSlash(Join(place), all, "");
      JoinRelative(place);
      JoinNonEmpty(place);
      assert PathIn(place, all)[0] == Join(place)[0];
    } else {
      assert all[0] == path[0];
      assert place + Components(path) == Components(path);
    }
  }

  /** In the directory at a place, `l/rest` resolves as `t/rest` does where `l` is a link to `t`. */
  lemma RelativeLinkPath(root: Root, place: Place, name: Text, target: string, id: int, rest: string)
    requires AllReal(place) && Real(name) && |place| < MAX_NAMES && IsDirectory(root.tree, place)
    requires At(root.tree, place + [name]) == Some(Link(id, target)) && |target| <= MAX_TARGET && !Absolute(target)
    requires target != ""
    ensures var p, q := PathIn(place, name.chars + "/" + rest), PathIn(place, target + "/" + rest);
      OneMoreLink(root, Components(q), Meaning(root, p), Meaning(root, q))
  {
    RealComponent(name);
    RealRelative(name);
    PathInParts(place, name.chars, rest);
    PathInParts(place, target, rest);
    RelativeLinkLeads(root, place, name, target, id, Components(rest), PathIn(place, name.chars + "/" + rest),
      PathIn(place, target + "/" + rest));
  }

  lemma RealRelative(name: Text)
    requires Real(name)
    ensures name.chars != "" && !Absolute(name.chars)
  {
  }

  /** A resolved path resolves to the same node again, and crosses no link the second time. */
  lemma ResolvedAgain(root: Root, input: string)
    requires root.tree.Directory? && Meaning(root, input).Ok?
    ensures var first := Meaning(root, input).value;
      Meaning(root, first.path) == Ok(Resolved(first.handle, first.path, false))
  {
    var walked := Walk(root, [], Components(input), MAX_LINKS).value;
    SplitWaits(input, "");
    WalkEnds(root, [], Components(input), MAX_LINKS);
    WalkNames(root, [], Components(input), MAX_LINKS);
    PlaceResolves(root, walked.place);
  }

  /** The joined path of a place resolves to the node there. */
  lemma PlaceResolves(root: Root, place: Place)
    requires root.tree.Directory? && Ends(root, place) && AllReal(place)
    ensures Meaning(root, Join(place)) == Ok(Resolved(At(root.tree, place).value, Join(place), false))
  {
    ComponentsOfJoin(place);
    WalkStraight(root, place, MAX_LINKS);
    JoinRelative(place);
  }

  lemma {:induction false} JoinRelative(place: Place)
    requires AllReal(place)
    ensures !Absolute(Join(place))
  {
    if place != [] {
      var rest, last := place[..|place| - 1], place[|place| - 1];
      assert Real(last) && last in place;
      JoinRelative(rest);
    }
  }

  lemma {:induction false} WalkNames(root: Root, here: Place, todo: seq<Text>, left: nat)
    requires AllReal(here) && Waiting(todo) && Walk(root, here, todo, left).Ok?
    ensures AllReal(Walk(root, here, todo, left).value.place)
    decreases left, |todo|
  {
    if todo != [] {
      var step := Step(root, here, todo[0], left).value;
      assert todo[0] in todo;
      StepNames(root, here, todo[0], left);
      WalkNames(root, step.place, todo[1..], step.left);
    }
  }

  lemma {:induction false} StepNames(root: Root, here: Place, name: Text, left: nat)
    requires AllReal(here) && (Real(name) || name.chars == "..") && Step(root, here, name, left).Ok?
    ensures AllReal(Step(root, here, name, left).value.place)
    decreases left, 0
  {
    if name.chars != ".." && LinkAt(root, here, name).Some? {
      var target := LinkAt(root, here, name).value;
      var lead := Follow(root, here, target).value;
      SplitWaits(if Absolute(target) then RelativeTarget(root, target).value else target, "");
      WalkNames(root, lead.start, lead.todo, left - 1);
    }
  }
}
