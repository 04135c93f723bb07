/** Curation: an endpoint's arguments renamed or hidden, and the checks that keep the names apart. */
module Curation {
  import opened Wrappers

  datatype Value = Null | List(items: seq<Value>) | Atom(id: int)

  datatype Fill = Omit | Constant(value: Value) | Deferred(source: Text)

  /** A declaration: a new name, or a value that is filled in and hidden. */
  datatype ArgumentRecord = ArgumentRecord(name: Text, rename: Option<Text>, hidden: Option<Fill>)

  datatype Resolved = Resolved(argument: Option<Text>, fill: Option<Fill>)

  datatype TemplateError = DuplicateArgument | CurationUnresolved | HiddenRequiredOmitted | ArgumentCollision

  /** The names curation is resolved against. */
  datatype CurationShape = CurationShape(
    parameterNames: seq<Text>, bodyFieldNames: seq<Text>, bodyRoot: Option<Text>, requiredWireNames: set<Text>)

  type ByWireName = map<Text, Resolved>

  /** Every wire name, parameters first. */
  function WireNames(shape: CurationShape): seq<Text> {
    shape.parameterNames + if shape.bodyRoot.Some? then [shape.bodyRoot.value] else shape.bodyFieldNames
  }

  predicate Hidden(curated: ByWireName, wire: Text) {
    wire in curated && curated[wire].fill.Some?
  }

  predicate Renamed(curated: ByWireName, wire: Text) {
    wire in curated && curated[wire].argument.Some?
  }

  function AgentName(curated: ByWireName, wire: Text): Text {
    if Renamed(curated, wire) then curated[wire].argument.value else wire
  }

  /** No element occurs twice. */
  predicate Unique(s: seq<Text>) {
    s == [] || (s[|s| - 1] !in s[..|s| - 1] && Unique(s[..|s| - 1]))
  }

  lemma {:induction false} UniqueAppend(a: seq<Text>, b: seq<Text>)
    requires Unique(a + b)
    ensures Unique(a) && Unique(b) && forall x :: x in a ==> x !in b
  {
    if b == [] {
      assert a + b == a;
    } else {
      var last := |b| - 1;
      assert (a + b)[..|a + b| - 1] == a + b[..last];
      UniqueAppend(a, b[..last]);
      assert b == b[..last] + [b[last]];
    }
  }

  /** `merged.set`: a record takes the place of the one with its name, or comes last. */
  function SetRecord(records: seq<ArgumentRecord>, record: ArgumentRecord): seq<ArgumentRecord> {
    if records == [] then [record]
    else if records[0].name == record.name then [record] + records[1..]
    else [records[0]] + SetRecord(records[1..], record)
  }

  function SetAll(records: seq<ArgumentRecord>, more: seq<ArgumentRecord>): seq<ArgumentRecord> {
    if more == [] then records else SetRecord(SetAll(records, more[..|more| - 1]), more[|more| - 1])
  }

  function RecordNames(records: seq<ArgumentRecord>): (r: seq<Text>)
    ensures |r| == |records|
  {
    if records == [] then [] else RecordNames(records[..|records| - 1]) + [records[|records| - 1].name]
  }

  /** `declarations`. */
  function Declarations(own: seq<ArgumentRecord>,
        variant: seq<ArgumentRecord>): Result<seq<ArgumentRecord>, TemplateError> {
    if !Unique(RecordNames(own)) || !Unique(RecordNames(variant)) then Err(DuplicateArgument)
      else Ok(SetAll(own, variant))
  }

  function Lookup(records: seq<ArgumentRecord>, name: Text): Option<ArgumentRecord> {
    if records == [] then None
    else if records[0].name == name then Some(records[0])
    else Lookup(records[1..], name)
  }

  lemma {:induction false} SetRecordLooks(records: seq<ArgumentRecord>, record: ArgumentRecord, name: Text)
    ensures Lookup(SetRecord(records, record), name) == if record.name == name then Some(record)
      else Lookup(records, name)
  {
    if records != [] && records[0].name != record.name {
      assert SetRecord(records, record)[1..] == SetRecord(records[1..], record);
      SetRecordLooks(records[1..], record, name);
    } else if records != [] {
      assert SetRecord(records, record)[1..] == records[1..];
    }
  }

  lemma {:induction false} LookupSnoc(records: seq<ArgumentRecord>, record: ArgumentRecord, name: Text)
    ensures Lookup(records + [record], name)
         == if Lookup(records, name).Some? then Lookup(records, name) else if record.name == name then Some(record)
           else None
  {
    if records != [] {
      assert (records + [record])[1..] == records[1..] + [record];
      LookupSnoc(records[1..], record, name);
    }
  }

  lemma {:induction false} NoLookup(records: seq<ArgumentRecord>, name: Text)
    requires name !in RecordNames(records)
    ensures Lookup(records, name).None?
  {
    if records != [] {
      var last := |records| - 1;
      assert records == records[..last] + [records[last]];
      NoLookup(records[..last], name);
      LookupSnoc(records[..last], records[last], name);
    }
  }

  /** A variant's record replaces the endpoint's whole: nothing of the two is mixed. */
  lemma {:induction false} VariantReplaces(own: seq<ArgumentRecord>, variant: seq<ArgumentRecord>, name: Text)
    requires Unique(RecordNames(variant))
    ensures Lookup(SetAll(own, variant), name) == if Lookup(variant, name).Some? then Lookup(variant, name)
      else Lookup(own, name)
  {
    if variant != [] {
      var last := |variant| - 1;
      var rest := variant[..last];
      assert variant == rest + [variant[last]];
      VariantReplaces(own, rest, name);
      SetRecordLooks(SetAll(own, rest), variant[last], name);
      LookupSnoc(rest, variant[last], name);
      if variant[last].name == name { NoLookup(rest, name); }
    }
  }

  /** `slotOf`: whether the operation has an argument of that name. */
  predicate HasSlot(name: Text, shape: CurationShape) {
    name in WireNames(shape)
  }

  /** One record resolved, or why it cannot be; `None` when only a folded-away route had the argument. */
  function ResolveRecord(record: ArgumentRecord, shape: CurationShape,
        folded: set<Text>): Result<Option<Resolved>, TemplateError> {
    if !HasSlot(record.name, shape) then
      if record.name in folded then Ok(None) else Err(CurationUnresolved)
    else if record.hidden == Some(Omit) && record.name in shape.requiredWireNames then Err(HiddenRequiredOmitted)
    else
      Ok(Some(Resolved(if record.rename == Some(record.name) then None else record.rename, record.hidden)))
  }

  function ResolveAll(records: seq<ArgumentRecord>, shape: CurationShape,
        folded: set<Text>): Result<ByWireName, TemplateError> {
    if records == [] then Ok(map[])
    else
      var earlier := ResolveAll(records[..|records| - 1], shape, folded);
      if earlier.Err? then earlier
      else
        var record := records[|records| - 1];
        var resolved := ResolveRecord(record, shape, folded);
        if resolved.Err? then Err(resolved.error)
        else if resolved.value.None? then earlier
        else Ok(earlier.value[record.name := resolved.value.value])
  }

  /** The names the agent sees, in wire order. */
  function VisibleNames(curated: ByWireName, wires: seq<Text>): seq<Text> {
    if wires == [] then []
    else
      var last := wires[|wires| - 1];
      VisibleNames(curated, wires[..|wires| - 1]) + if Hidden(curated, last) then [] else [AgentName(curated, last)]
  }

  /** `resolveCuration`. */
  function Resolution(records: seq<ArgumentRecord>, shape: CurationShape,
        folded: set<Text>): Result<ByWireName, TemplateError> {
    var curated := ResolveAll(records, shape, folded);
    if curated.Err? || records == [] then curated
    else if !Unique(VisibleNames(curated.value, WireNames(shape))) then Err(ArgumentCollision)
    else curated
  }

  /** A declaration of an argument that the operation does not have, on a route kept or folded. */
  predicate Misplaced(r: ArgumentRecord, shape: CurationShape, folded: set<Text>) {
    r.name !in WireNames(shape) && r.name !in folded
  }

  /** A declaration that leaves out what the operation requires. */
  predicate Bereft(r: ArgumentRecord, shape: CurationShape) {
    r.name in WireNames(shape) && r.hidden == Some(Omit) && r.name in shape.requiredWireNames
  }

  predicate Sane(r: ArgumentRecord, shape: CurationShape, folded: set<Text>) {
    !Misplaced(r, shape, folded) && !Bereft(r, shape)
  }

  /** The first of the declarations that cannot be is the one complained of. */
  ghost predicate FirstFault(records: seq<ArgumentRecord>, shape: CurationShape, folded: set<Text>,
                             error: TemplateError, n: nat)
  {
    && n < |records| && (forall i :: 0 <= i < n ==> Sane(records[i], shape, folded))
    && if error == CurationUnresolved then Misplaced(records[n], shape, folded)
       else error == HiddenRequiredOmitted && Bereft(records[n], shape)
  }

  lemma {:induction false} FaultIsFirst(records: seq<ArgumentRecord>, shape: CurationShape, folded: set<Text>)
    ensures var all := ResolveAll(records, shape, folded);
      if all.Err? then exists n: nat :: FirstFault(records, shape, folded, all.error, n)
      else forall i :: 0 <= i < |records| ==> Sane(records[i], shape, folded)
  {
    if records != [] {
      var rest, last := records[..|records| - 1], records[|records| - 1];
      FaultIsFirst(rest, shape, folded);
      var earlier, all := ResolveAll(rest, shape, folded), ResolveAll(records, shape, folded);
      if earlier.Err? {
        var n: nat :| FirstFault(rest, shape, folded, earlier.error, n);
        assert FirstFault(records, shape, folded, all.error, n);
      } else {
        forall i | 0 <= i < |rest| ensures Sane(records[i], shape, folded) { assert records[i] == rest[i]; }
        if all.Err? { assert FirstFault(records, shape, folded, all.error, |rest|); }
      }
    }
  }

  /** Where each argument is declared once, it is hidden and named as its declaration says, and no other is. */
  lemma {:induction false} ResolvedAsDeclared(records: seq<ArgumentRecord>, shape: CurationShape, folded: set<Text>,
        r: ArgumentRecord)
    requires Unique(RecordNames(records)) && ResolveAll(records, shape, folded).Ok?
    ensures r in records && r.name in WireNames(shape) ==>
      var c := ResolveAll(records, shape, folded).value;
      && r.name in c && c[r.name].fill == r.hidden
      && AgentName(c, r.name) == (if r.rename.Some? then r.rename.value else r.name)
    ensures r.name in ResolveAll(records, shape, folded).value ==>
      r.name in RecordNames(records) && r.name in WireNames(shape)
  {
    if records != [] {
      var rest, last := records[..|records| - 1], records[|records| - 1];
      assert records == rest + [last];
      assert RecordNames(records)[..|rest|] == RecordNames(rest);
      ResolvedAsDeclared(rest, shape, folded, r);
      if r in rest { RecordNamed(rest, r); }
    }
  }

  lemma {:induction false} RecordNamed(records: seq<ArgumentRecord>, r: ArgumentRecord)
    requires r in records
    ensures r.name in RecordNames(records)
  {
    var rest, last := records[..|records| - 1], records[|records| - 1];
    assert records == rest + [last];
    if r != last { RecordNamed(rest, r); }
  }

  lemma {:induction false} ResolvedHaveSlots(records: seq<ArgumentRecord>, shape: CurationShape, folded: set<Text>)
    requires ResolveAll(records, shape, folded).Ok?
    ensures forall w :: w in ResolveAll(records, shape, folded).value ==> w in WireNames(shape)
  {
    if records != [] { ResolvedHaveSlots(records[..|records| - 1], shape, folded); }
  }

  lemma {:induction false} UncuratedVisible(wires: seq<Text>)
    ensures VisibleNames(map[], wires) == wires
  {
    if wires != [] {
      UncuratedVisible(wires[..|wires| - 1]);
      assert wires == wires[..|wires| - 1] + [wires[|wires| - 1]];
    }
  }

  /** Curation that succeeds on distinct wire names leaves the visible names distinct. */
  lemma ResolutionApart(records: seq<ArgumentRecord>, shape: CurationShape, folded: set<Text>)
    requires Resolution(records, shape, folded).Ok? && Unique(WireNames(shape))
    ensures Unique(VisibleNames(Resolution(records, shape, folded).value, WireNames(shape)))
  {
    if records == [] { UncuratedVisible(WireNames(shape)); }
  }

  lemma {:induction false} VisibleMembers(curated: ByWireName, wires: seq<Text>, name: Text)
    ensures name in VisibleNames(curated, wires) <==>
      exists w :: w in wires && !Hidden(curated, w) && AgentName(curated, w) == name
  {
    if wires != [] {
      var last := wires[|wires| - 1];
      var rest := wires[..|wires| - 1];
      assert wires == rest + [last];
      VisibleMembers(curated, rest, name);
    }
  }

  /** Unique names: two visible arguments with one name are one argument. */
  lemma {:induction false} VisibleApart(curated: ByWireName, wires: seq<Text>, a: Text, b: Text)
    requires Unique(VisibleNames(curated, wires)) && a in wires && b in wires
    requires !Hidden(curated, a) && !Hidden(curated, b) && AgentName(curated, a) == AgentName(curated, b)
    ensures a == b
  {
    var last := wires[|wires| - 1];
    var rest := wires[..|wires| - 1];
    assert wires == rest + [last];
    var names := VisibleNames(curated, rest);
    if !Hidden(curated, last) {
      assert VisibleNames(curated, wires)[..|names|] == names;
      VisibleMembers(curated, rest, AgentName(curated, last));
    } else {
      assert names + [] == names;
    }
    if a in rest && b in rest { VisibleApart(curated, rest, a, b); }
  }

  /** The record loop of `resolveCuration`. */
  method ResolveRecords(records: seq<ArgumentRecord>, shape: CurationShape, folded: set<Text>)
    returns (r: Result<ByWireName, TemplateError>)
    ensures r == ResolveAll(records, shape, folded)
  {
    var curated: ByWireName := map[];
    for i := 0 to |records|
      invariant ResolveAll(records[..i], shape, folded) == Ok(curated)
    {
      assert records[..i + 1][..i] == records[..i];
      var resolved := ResolveRecord(records[i], shape, folded);
      if resolved.Err? {
        ResolveFails(records, shape, folded, i + 1);
        return Err(resolved.error);
      }
      if resolved.value.Some? {
        curated := curated[records[i].name := resolved.value.value];
      }
    }
    assert records[..|records|] == records;
    r := Ok(curated);
  }

  lemma {:induction false} ResolveFails(records: seq<ArgumentRecord>, shape: CurationShape, folded: set<Text>, n: nat)
    requires n <= |records| && ResolveAll(records[..n], shape, folded).Err?
    ensures ResolveAll(records, shape, folded) == ResolveAll(records[..n], shape, folded)
    decreases |records|
  {
    if n == |records| {
      assert records[..n] == records;
    } else {
      assert records[..|records| - 1][..n] == records[..n];
      ResolveFails(records[..|records| - 1], shape, folded, n);
    }
  }

  lemma VisibleNext(curated: ByWireName, wires: seq<Text>, i: nat)
    requires i < |wires|
    ensures var names := VisibleNames(curated, wires[..i]);
      var more := VisibleNames(curated, wires[..i + 1]);
      if Hidden(curated, wires[i]) then more == names
      else
        && more == names + [AgentName(curated, wires[i])]
        && (Unique(more) <==> Unique(names) && AgentName(curated, wires[i]) !in names)
  {
    var names := VisibleNames(curated, wires[..i]);
    assert wires[..i + 1][..i] == wires[..i];
    assert names + [] == names;
    assert (names + [AgentName(curated, wires[i])])[..|names|] == names;
  }

  /** `assertAgentNamesUnique`: each visible name is new. */
  method AgentNamesUnique(curated: ByWireName, wires: seq<Text>) returns (unique: bool)
    ensures unique == Unique(VisibleNames(curated, wires))
  {
    var seen: set<Text> := {};
    for i := 0 to |wires|
      invariant Unique(VisibleNames(curated, wires[..i]))
      invariant forall n :: n in seen <==> n in VisibleNames(curated, wires[..i])
    {
      VisibleNext(curated, wires, i);
      if Hidden(curated, wires[i]) {
        continue;
      }
      var agentName := AgentName(curated, wires[i]);
      if agentName in seen {
        RepeatStays(curated, wires, i + 1);
        return false;
      }
      seen := seen + {agentName};
    }
    assert wires[..|wires|] == wires;
    unique := true;
  }

  lemma {:induction false} RepeatStays(curated: ByWireName, wires: seq<Text>, n: nat)
    requires n <= |wires| && !Unique(VisibleNames(curated, wires[..n]))
    ensures !Unique(VisibleNames(curated, wires))
    decreases |wires|
  {
    if n == |wires| {
      assert wires[..n] == wires;
    } else {
      var rest := wires[..|wires| - 1];
      assert rest[..n] == wires[..n];
      RepeatStays(curated, rest, n);
      var names := VisibleNames(curated, rest);
      assert names + [] == names;
      assert forall x :: (names + [x])[..|names|] == names;
    }
  }

  method ResolveCuration(records: seq<ArgumentRecord>, shape: CurationShape, folded: set<Text>)
    returns (r: Result<ByWireName, TemplateError>)
    ensures r == Resolution(records, shape, folded)
  {
    r := ResolveRecords(records, shape, folded);
    if r.Ok? && |records| != 0 {
      var unique := AgentNamesUnique(r.value, WireNames(shape));
      if !unique { r := Err(ArgumentCollision); }
    }
  }
}
