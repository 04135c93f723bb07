/** A static file tree and the plain, recursive meaning of a rooted path in it. */
module FileTree {
  import opened Wrappers
  import opened PathText

  /** `id` stands for the device and inode. `Denied` is anything that may be seen but not opened. */
  datatype Node =
    | Directory(id: int, children: map<Text, Node>)
    | File(id: int)
    | Link(id: int, target: string)
    | Special(id: int)
    | Denied(id: int)

  datatype Failure = PathOutsideRoot | FileNotFound | NotAFile | ResourceLimit | FileChanged | InternalError

  const MAX_NAMES := 256
  const MAX_LINKS := 40
  const MAX_TARGET := 32768

  /** A root directory, its path, and the machine's `realpath`. */
  datatype Root = Root(tree: Node, path: string, realpath: string -> Result<string, Failure>)

  type Place = seq<Text>

  function Child(node: Node, name: Text): Option<Node> {
    if node.Directory? && name in node.children then Some(node.children[name]) else None
  }

  /** The node at a place, reached through directories only. */
  function At(tree: Node, place: Place): Option<Node> {
    if place == [] then Some(tree)
    else
      var parent := At(tree, place[..|place| - 1]);
      if parent.Some? then Child(parent.value, place[|place| - 1]) else None
  }

  predicate IsDirectory(tree: Node, place: Place) {
    At(tree, place).Some? && At(tree, place).value.Directory?
  }

  predicate Absolute(path: string) {
    path != "" && path[0] == '/'
  }

  /** What is behind the root's path in an absolute path, which must be the root's or lie beneath it. */
  function WithinRoot(root: string, target: string): Result<string, Failure> {
    if !(root <= target) then Err(PathOutsideRoot)
    else if |target| == |root| then Ok("")
    else if root != "/" && target[|root|] != '/' then Err(PathOutsideRoot)
    else Ok(target[|root| + (if root == "/" then 0 else 1)..])
  }

  /** `relativeTarget`: an absolute target spelled under another prefix is made canonical first. */
  function RelativeTarget(root: Root, target: string): Result<string, Failure> {
    if !Absolute(target) then Ok(target)
    else if root.path <= target then WithinRoot(root.path, target)
    else
      var canonical := root.realpath(target);
      if canonical.Err? then canonical else WithinRoot(root.path, canonical.value)
  }

  /** Where a link leads: a place to start from and components to walk. */
  datatype Lead = Lead(start: Place, todo: seq<Text>)

  function Follow(root: Root, here: Place, target: string): Result<Lead, Failure> {
    if !Absolute(target) then Ok(Lead(here, Components(target)))
    else
      var relative := RelativeTarget(root, target);
      if relative.Err? then Err(relative.error) else Ok(Lead([], Components(relative.value)))
  }

  /** Where a walk ends, and how many links may still be crossed. */
  datatype Walked = Walked(place: Place, left: nat)

  function Up(place: Place): Result<Place, Failure> {
    if place == [] then Err(PathOutsideRoot) else Ok(place[..|place| - 1])
  }

  /** What one component that is not a link leads to. */
  function Enter(root: Root, here: Place, name: Text): Result<Place, Failure> {
    if |here| >= MAX_NAMES then Err(ResourceLimit)
    else
      match At(root.tree, here + [name])
      case None => Err(FileNotFound)
      case Some(Special(_)) => Err(NotAFile)
      case Some(Denied(_)) => Err(PathOutsideRoot)
      case Some(_) => Ok(here + [name])
  }

  /** The link that a component names, when the walk may look at it. */
  function LinkAt(root: Root, here: Place, name: Text): Option<string> {
    match At(root.tree, here + [name])
    case Some(Link(_, target)) => if |here| < MAX_NAMES then Some(target) else None
    case _ => None
  }

  /**
   * The meaning of a path: each component is taken from where the last one ended, a link as the walk of its
   * target. Nothing but a directory is walked from, and no step leaves the root.
   */
  function Walk(root: Root, here: Place, todo: seq<Text>, left: nat): (r: Result<Walked, Failure>)
    ensures r.Ok? ==> r.value.left <= left
    decreases left, |todo|
  {
    if todo == [] then Ok(Walked(here, left))
    else
      var step := Step(root, here, todo[0], left);
      if step.Err? then step else Walk(root, step.value.place, todo[1..], step.value.left)
  }

  function Step(root: Root, here: Place, name: Text, left: nat): (r: Result<Walked, Failure>)
    ensures r.Ok? ==> r.value.left <= left
    decreases left, 0
  {
    if !IsDirectory(root.tree, here) then Err(NotAFile)
    else if name.chars == ".." then
      var up := Up(here);
      if up.Err? then Err(up.error) else Ok(Walked(up.value, left))
    else if LinkAt(root, here, name).Some? then
      var target := LinkAt(root, here, name).value;
      if |target| > MAX_TARGET then Err(ResourceLimit)
      else if left == 0 then Err(PathOutsideRoot)
      else
        var lead := Follow(root, here, target);
        if lead.Err? then Err(lead.error) else Walk(root, lead.value.start, lead.value.todo, left - 1)
    else
      var entered := Enter(root, here, name);
      if entered.Err? then Err(entered.error) else Ok(Walked(entered.value, left))
  }

  /** Walking a list is walking its first part and then its second. */
  lemma {:induction false} WalkSplits(root: Root, here: Place, a: seq<Text>, b: seq<Text>, left: nat)
    ensures Walk(root, here, a + b, left) ==
      var first := Walk(root, here, a, left);
      if first.Err? then first else Walk(root, first.value.place, b, first.value.left)
    decreases |a|
  {
    if a == [] {
      assert a + b == b;
    } else {
      assert (a + b)[0] == a[0] && (a + b)[1..] == a[1..] + b;
      var step := Step(root, here, a[0], left);
      if step.Ok? { WalkSplits(root, step.value.place, a[1..], b, step.value.left); }
    }
  }

  /** A place a walk can end at: a directory or a file, all of it beneath directories. */
  predicate Ends(root: Root, place: Place) {
    var node := At(root.tree, place);
    |place| <= MAX_NAMES && node.Some? && (node.value.Directory? || node.value.File?)
  }

  lemma {:induction false} WalkEnds(root: Root, here: Place, todo: seq<Text>, left: nat)
    requires Ends(root, here) && root.tree.Directory?
    requires Walk(root, here, todo, left).Ok?
    ensures Ends(root, Walk(root, here, todo, left).value.place)
    decreases left, |todo|
  {
    if todo != [] {
      var step := Step(root, here, todo[0], left).value;
      StepEnds(root, here, todo[0], left);
      WalkEnds(root, step.place, todo[1..], step.left);
    }
  }

  lemma {:induction false} StepEnds(root: Root, here: Place, name: Text, left: nat)
    requires Ends(root, here) && root.tree.Directory?
    requires Step(root, here, name, left).Ok?
    ensures Ends(root, Step(root, here, name, left).value.place)
    decreases left, 0
  {
    if name.chars == ".." {
    } else if LinkAt(root, here, name).Some? {
      var lead := Follow(root, here, LinkAt(root, here, name).value).value;
      WalkEnds(root, lead.start, lead.todo, left - 1);
    } else {
      assert (here + [name])[..|here|] == here;
    }
  }

  /** Every place above one in the tree is a directory. */
  lemma {:induction false} AboveIsDirectory(tree: Node, place: Place, n: nat)
    requires At(tree, place).Some? && n < |place|
    ensures IsDirectory(tree, place[..n])
  {
    var last := |place| - 1;
    if n < last {
      AboveIsDirectory(tree, place[..last], n);
      assert place[..last][..n] == place[..n];
    }
  }

  /** The path to a place walks straight to it, crossing no link: an answer, asked again, is itself. */
  lemma {:induction false} WalkStraight(root: Root, place: Place, left: nat)
    requires Ends(root, place) && AllReal(place)
    ensures Walk(root, [], place, left) == Ok(Walked(place, left))
  {
    if place != [] {
      var last := |place| - 1;
      var above, name := place[..last], place[last];
      assert place == above + [name];
      AboveIsDirectory(root.tree, place, last);
      WalkStraight(root, above, left);
      WalkSplits(root, [], above, [name], left);
      assert Real(name) && At(root.tree, above + [name]) == At(root.tree, place);
      assert [name][1..] == [];
    }
  }
}
