/** Slash-separated paths and their components. */
module PathText {
  import opened Wrappers

  predicate Counts(part: string) {
    part != "" && part != "."
  }

  function Part(part: string): seq<Text> {
    if Counts(part) then [Text(part)] else []
  }

  /** The parts of `s` when `part` has been read since the last slash. */
  function Split(s: string, part: string): seq<Text> {
    if s == "" then Part(part)
    else if s[0] == '/' then Part(part) + Split(s[1..], "")
    else Split(s[1..], part + [s[0]])
  }

  /** The parts between slashes, without the empty ones and the dots. */
  function Components(s: string): seq<Text> {
    Split(s, "")
  }

  /** The length of the run before the next slash. */
  function Run(s: string): (n: nat)
    ensures n <= |s|
  {
    if s == "" || s[0] == '/' then 0 else 1 + Run(s[1..])
  }

  lemma {:induction false} SplitRun(s: string, part: string)
    ensures Split(s, part) == Split(s[Run(s)..], part + s[..Run(s)])
  {
    if s == "" || s[0] == '/' {
      assert s[0..] == s && part + s[..0] == part;
    } else {
      var n := Run(s[1..]);
      SplitRun(s[1..], part + [s[0]]);
      assert s[1..][n..] == s[n + 1..];
      assert part + [s[0]] + s[1..][..n] == part + s[..n + 1];
    }
  }

  lemma {:induction false} RunEnds(s: string)
    requires Run(s) < |s|
    ensures s[Run(s)] == '/'
  {
    if s[0] != '/' { RunEnds(s[1..]); }
  }

  /** One turn of the loop: a run, and what is behind its slash. */
  lemma ComponentsStep(s: string)
    ensures Components(s) == Part(s[..Run(s)]) + if Run(s) < |s| then Components(s[Run(s) + 1..]) else []
  {
    var n := Run(s);
    SplitRun(s, "");
    assert "" + s[..n] == s[..n];
    if n < |s| {
      RunEnds(s);
      assert s[n..][1..] == s[n + 1..];
    } else {
      assert Part(s[..n]) + [] == Part(s[..n]);
    }
  }

  /** `parts`. */
  method Parts(input: string) returns (result: seq<Text>)
    ensures result == Components(input)
  {
    result := [];
    var rest := input;
    while rest != ""
      invariant Components(input) == result + Components(rest)
      decreases |rest|
    {
      ComponentsStep(rest);
      var end := Run(rest);
      var part := rest[..end];
      if Counts(part) {
        result := result + [Text(part)];
      }
      rest := if end < |rest| then rest[end + 1..] else "";
    }
  }

  function Join(names: seq<Text>): string {
    if names == [] then "" else Beneath(Join(names[..|names| - 1]), names[|names| - 1])
  }

  function Beneath(path: string, name: Text): string {
    if path == "" then name.chars else path + "/" + name.chars
  }

  /** `joined`. */
  method Joined(components: seq<Text>) returns (out: string)
    ensures out == Join(components)
  {
    out := "";
    for i := 0 to |components|
      invariant out == Join(components[..i])
    {
      assert components[..i + 1][..i] == components[..i];
      out := if out != "" then out + "/" + components[i].chars else components[i].chars;
    }
    assert components[..|components|] == components;
  }

  predicate Slashless(s: string) {
    Run(s) == |s|
  }

  /** A name a directory can hold. */
  predicate Real(name: Text) {
    Counts(name.chars) && name.chars != ".." && Slashless(name.chars)
  }

  ghost predicate AllReal(names: seq<Text>) {
    forall n :: n in names ==> Real(n)
  }

  lemma RealComponent(name: Text)
    requires Real(name)
    ensures Components(name.chars) == [name]
  {
    var s := name.chars;
    ComponentsStep(s);
    assert s[..|s|] == s;
    assert [name] + [] == [Text(s)];
  }

  /** A slash separates what is before it from what is behind it. */
  lemma {:induction false} SplitSlash(a: string, b: string, part: string)
    ensures Split(a + "/" + b, part) == Split(a, part) + Components(b)
  {
    var s := a + "/" + b;
    if a == "" {
      assert s[1..] == b;
    } else {
      assert s[0] == a[0] && s[1..] == a[1..] + "/" + b;
      SplitSlash(a[1..], b, if a[0] == '/' then "" else part + [a[0]]);
    }
  }

  lemma JoinNonEmpty(names: seq<Text>)
    requires names != [] && AllReal(names)
    ensures Join(names) != ""
  {
    assert Real(names[|names| - 1]);
  }

  /** Splitting a joined path gives its components back. */
  lemma {:induction false} ComponentsOfJoin(names: seq<Text>)
    requires AllReal(names)
    ensures Components(Join(names)) == names
  {
    if names != [] {
      var rest, last := names[..|names| - 1], names[|names| - 1];
      assert names == rest + [last];
      ComponentsOfJoin(rest);
      RealComponent(last);
      if rest != [] {
        JoinNonEmpty(rest);
        SplitSlash(Join(rest), last.chars, "");
      }
    }
  }
}
