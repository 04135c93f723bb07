/** What a whole query says to a server that knows how each of its parameters is written. */
module QueryMeaning {
  import opened Wrappers
  import opened PercentCoding
  import opened QueryText
  import opened BlankDelimiter

  /** One pair's meaning: a value, the items of a joined array, or a member of a group. */
  datatype Said =
    | Value(name: Octets, value: Octets)
    | Items(name: Octets, items: seq<Octets>)
    | MemberValue(group: Octets, member: Octets, value: Octets)

  /** How a pair was written. */
  datatype Kind = Whole | Joined(separator: Separator) | Grouped(notation: Notation)

  function ValuesSaid(name: Octets, values: seq<Octets>): (r: seq<Said>)
    ensures |r| == |values|
  {
    if values == [] then [] else [Value(name, values[0])] + ValuesSaid(name, values[1..])
  }

  function MemberSaid(group: Octets, member: Octets, values: seq<Octets>): (r: seq<Said>)
    ensures |r| == |values|
  {
    if values == [] then [] else [MemberValue(group, member, values[0])] + MemberSaid(group, member, values[1..])
  }

  function GroupSaid(group: Octets, members: seq<Member>): seq<Said> {
    if members == [] then []
    else MemberSaid(group, members[0].name, members[0].values) + GroupSaid(group, members[1..])
  }

  /** What one argument says, one item for each pair it writes. */
  function ArgumentSaid(a: Argument): seq<Said> {
    match a
    case Plain(name, _, Single(value)) => [Value(name, value)]
    case Plain(name, _, Repeated(items)) => ValuesSaid(name, items)
    case Plain(name, _, Delimited(items, _)) => if items == [] then [] else [Items(name, items)]
    case Group(name, _, members) => GroupSaid(name, members)
  }

  function AllSaid(arguments: seq<Argument>): seq<Said> {
    if arguments == [] then [] else AllSaid(arguments[..|arguments| - 1]) + ArgumentSaid(arguments[|arguments| - 1])
  }

  function KindOf(a: Argument): Kind {
    match a
    case Plain(_, _, Delimited(_, separator)) => Joined(separator)
    case Plain(_, _, _) => Whole
    case Group(_, notation, _) => Grouped(notation)
  }

  /** The kind of each pair. */
  function AllKinds(arguments: seq<Argument>): seq<Kind> {
    if arguments == [] then []
    else
      var last := arguments[|arguments| - 1];
      AllKinds(arguments[..|arguments| - 1]) + seq(|ArgumentPairs(last)|, _ => KindOf(last))
  }

  function SplitItems(text: string, separator: Separator): seq<string> {
    match separator
    case Comma => Split(text, ',')
    case Pipe => Split(text, '|')
    case Blank => SplitBlank(text)
  }

  /** One pair, decoded by its kind. */
  function Hear(kind: Kind, p: Pair): Option<Said> {
    match kind
    case Whole =>
      if Decode(p.key).None? || Decode(p.value).None? then None
      else Some(Value(Decode(p.key).value, Decode(p.value).value))
    case Joined(separator) =>
      var items := DecodeAll(SplitItems(p.value, separator));
      if Decode(p.key).None? || items.None? then None else Some(Items(Decode(p.key).value, items.value))
    case Grouped(notation) =>
      var key := ReadMemberKey(p.key, notation);
      if Decode(key.0).None? || Decode(key.1).None? || Decode(p.value).None? then None
      else Some(MemberValue(Decode(key.0).value, Decode(key.1).value, Decode(p.value).value))
  }

  function HearAll(kinds: seq<Kind>, pairs: seq<Pair>): Option<seq<Said>>
    requires |kinds| == |pairs|
  {
    if pairs == [] then Some([])
    else
      var n := |pairs| - 1;
      var earlier, last := HearAll(kinds[..n], pairs[..n]), Hear(kinds[n], pairs[n]);
      if earlier.None? || last.None? then None else Some(earlier.value + [last.value])
  }

  /** Each pair is heard as what it says. */
  ghost predicate Heard(kinds: seq<Kind>, pairs: seq<Pair>, said: seq<Said>) {
    && |kinds| == |pairs| == |said|
    && forall i :: 0 <= i < |pairs| ==> Hear(kinds[i], pairs[i]) == Some(said[i])
  }

  lemma {:induction false} HeardAll(kinds: seq<Kind>, pairs: seq<Pair>, said: seq<Said>)
    requires |kinds| == |pairs| == |said|
    ensures HearAll(kinds, pairs) == Some(said) <==> Heard(kinds, pairs, said)
  {
    if pairs != [] {
      var n := |pairs| - 1;
      HeardAll(kinds[..n], pairs[..n], said[..n]);
      assert said == said[..n] + [said[n]];
      if HearAll(kinds, pairs) == Some(said) {
        var earlier := HearAll(kinds[..n], pairs[..n]).value;
        assert (earlier + [Hear(kinds[n], pairs[n]).value])[..n] == earlier by { HeardLength(kinds[..n], pairs[..n]); }
      }
    }
  }

  lemma {:induction false} HeardLength(kinds: seq<Kind>, pairs: seq<Pair>)
    requires |kinds| == |pairs|
    ensures HearAll(kinds, pairs).Some? ==> |HearAll(kinds, pairs).value| == |pairs|
  {
    if pairs != [] { HeardLength(kinds[..|pairs| - 1], pairs[..|pairs| - 1]); }
  }

  lemma HeardAppend(kinds: seq<Kind>, pairs: seq<Pair>, said: seq<Said>, more: seq<Kind>, rest: seq<Pair>,
        also: seq<Said>)
    requires |kinds| == |pairs| == |said| && |more| == |rest| == |also|
    ensures Heard(kinds + more, pairs + rest, said + also) <==> Heard(kinds, pairs, said) && Heard(more, rest, also)
  {
    if Heard(kinds + more, pairs + rest, said + also) {
      forall i | 0 <= i < |pairs| ensures Hear(kinds[i], pairs[i]) == Some(said[i]) {
        assert (kinds + more)[i] == kinds[i] && (pairs + rest)[i] == pairs[i] && (said + also)[i] == said[i];
      }
      forall i | 0 <= i < |rest| ensures Hear(more[i], rest[i]) == Some(also[i]) {
        var j := |pairs| + i;
        assert (kinds + more)[j] == more[i] && (pairs + rest)[j] == rest[i] && (said + also)[j] == also[i];
      }
    }
  }

  // One argument.

  /** A joined array that its separator keeps apart, by BlankReadsBackExactly. */
  predicate Clear(a: Argument) {
    a.Plain? && a.rendering.Delimited? && a.rendering.separator == Blank ==>
      forall v :: v in a.rendering.items ==> Blanks(v) == 0
  }

  /** Members as templates have them: no name holds a dot. */
  ghost predicate NoDots(a: Argument) {
    a.Group? ==> forall m :: m in a.members ==> '.' !in Encode(m.name)
  }

  lemma {:induction false} ValuesHeard(name: Octets, keep: bool, values: seq<Octets>, i: nat)
    requires i < |values|
    ensures Hear(Whole, Pairs(Encode(name), values, keep)[i]) == Some(ValuesSaid(name, values)[i])
  {
    if i == 0 { PairDecodes(name, values[0], keep); } else { ValuesHeard(name, keep, values[1..], i - 1); }
  }

  lemma {:induction false} MemberHeard(group: Octets, member: Octets, notation: Notation, values: seq<Octets>, i: nat)
    requires i < |values| && '.' !in Encode(member)
    ensures Hear(Grouped(notation), Pairs(MemberKey(group, member, notation), values, false)[i])
      == Some(MemberSaid(group, member, values)[i])
  {
    if i == 0 {
      MemberKeyReadsBack(group, member, notation);
      PairDecodes(group, values[0], false);
      DecodeEncode(member);
    } else {
      MemberHeard(group, member, notation, values[1..], i - 1);
    }
  }

  function Kinds(kind: Kind, n: nat): (r: seq<Kind>)
    ensures |r| == n && forall i :: 0 <= i < n ==> r[i] == kind
  {
    seq(n, _ => kind)
  }

  lemma {:induction false} GroupHeard(group: Octets, notation: Notation, members: seq<Member>)
    requires forall m :: m in members ==> '.' !in Encode(m.name)
    ensures var pairs := GroupPairs(group, notation, members);
      Heard(Kinds(Grouped(notation), |pairs|), pairs, GroupSaid(group, members))
  {
    if members != [] {
      var m, kind := members[0], Grouped(notation);
      var first := Pairs(MemberKey(group, m.name, notation), m.values, false);
      var rest := GroupPairs(group, notation, members[1..]);
      assert m in members && forall x :: x in members[1..] ==> x in members;
      GroupHeard(group, notation, members[1..]);
      forall i | 0 <= i < |first| ensures Hear(kind, first[i]) == Some(MemberSaid(group, m.name, m.values)[i]) {
        MemberHeard(group, m.name, notation, m.values, i);
      }
      HeardAppend(Kinds(kind, |first|), first, MemberSaid(group, m.name, m.values),
        Kinds(kind, |rest|), rest, GroupSaid(group, members[1..]));
      assert Kinds(kind, |first|) + Kinds(kind, |rest|) == Kinds(kind, |first + rest|);
    }
  }

  lemma JoinedHeard(name: Octets, keep: bool, items: seq<Octets>, separator: Separator)
    requires items != []
    ensures Hear(Joined(separator), Pair(Encode(name), JoinWith(EncodeItems(items, keep, separator), separator)))
        == Some(Items(name, items))
      <==> (separator == Blank ==> forall v :: v in items ==> Blanks(v) == 0)
  {
    DecodeEncode(name);
    if separator == Blank { BlankReadsBackExactly(items, keep); } else { DelimitedReadsBack(items, keep, separator); }
  }

  lemma ArgumentHeard(a: Argument)
    requires NoDots(a)
    ensures |ArgumentPairs(a)| == |ArgumentSaid(a)|
    ensures Heard(Kinds(KindOf(a), |ArgumentPairs(a)|), ArgumentPairs(a), ArgumentSaid(a)) <==> Clear(a)
  {
    match a
    case Plain(name, keep, Single(value)) => PairDecodes(name, value, keep);
    case Plain(name, keep, Repeated(items)) =>
      forall i | 0 <= i < |items|
        ensures Hear(Whole, Pairs(Encode(name), items, keep)[i]) == Some(ValuesSaid(name, items)[i])
      {
        ValuesHeard(name, keep, items, i);
      }
    case Plain(name, keep, Delimited(items, separator)) =>
      if items != [] { JoinedHeard(name, keep, items, separator); }
    case Group(name, notation, members) => GroupHeard(name, notation, members);
  }

  lemma {:induction false} AllHeard(arguments: seq<Argument>)
    requires forall a :: a in arguments ==> NoDots(a)
    ensures |AllKinds(arguments)| == |AllPairs(arguments)| == |AllSaid(arguments)|
    ensures Heard(AllKinds(arguments), AllPairs(arguments), AllSaid(arguments))
      <==> forall a :: a in arguments ==> Clear(a)
  {
    if arguments != [] {
      var rest, last := arguments[..|arguments| - 1], arguments[|arguments| - 1];
      assert arguments == rest + [last];
      AllHeard(rest);
      ArgumentHeard(last);
      assert seq(|ArgumentPairs(last)|, _ => KindOf(last)) == Kinds(KindOf(last), |ArgumentPairs(last)|);
      HeardAppend(AllKinds(rest), AllPairs(rest), AllSaid(rest),
        Kinds(KindOf(last), |ArgumentPairs(last)|), ArgumentPairs(last), ArgumentSaid(last));
    }
  }

  /**
   * The whole query text, split, cut and decoded, says what the arguments said, in template order: exactly when no
   * item of a space-delimited array holds a space.
   */
  lemma QuerySaysExactly(arguments: seq<Argument>)
    requires forall a :: a in arguments ==> NoDots(a)
    ensures var pairs := Read(Render(AllPairs(arguments)));
      && |pairs| == |AllKinds(arguments)|
      && (HearAll(AllKinds(arguments), pairs) == Some(AllSaid(arguments)) <==> forall a :: a in arguments ==> Clear(a))
  {
    QueryReadsBack(arguments);
    AllHeard(arguments);
    HeardAll(AllKinds(arguments), AllPairs(arguments), AllSaid(arguments));
  }
}
