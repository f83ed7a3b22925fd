/** The task's input dictionary (`new Dictionary<string, string>(StringComparer.OrdinalIgnoreCase)`)
    and how TaskRunner.RunAsync fills it: declared defaults, then the instance's values
    (TaskRunner.cs:99-120), then variable and environment expansion (TaskRunner.cs:122-125). */
module Inputs {
  import opened Base

  /** A case-insensitive dictionary: each folded key maps to the key as first inserted
      and its current value. */
  datatype CiDict = CiDict(entries: map<string, (string, string)>)

  const Empty: CiDict := CiDict(map[])

  /** Every stored key folds to the slot it is stored under. */
  ghost predicate WellKeyed(d: CiDict) {
    forall f :: f in d.entries ==> Fold(d.entries[f].0) == f
  }

  /** `d.TryGetValue(key, out v)`. */
  function Get(d: CiDict, key: string): Option<string> {
    if Fold(key) in d.entries then Some(d.entries[Fold(key)].1) else None
  }

  /** `d[key] = value`: an existing key (compared ignoring case) keeps its spelling and
      takes the new value; otherwise the key is added as given. */
  function Put(d: CiDict, key: string, value: string): (r: CiDict)
    ensures Get(r, key) == Some(value)
    ensures forall n :: Fold(n) != Fold(key) ==> Get(r, n) == Get(d, n)
    ensures r.entries.Keys == d.entries.Keys + {Fold(key)}
    ensures WellKeyed(d) ==> WellKeyed(r)
  {
    var f := Fold(key);
    if f in d.entries then CiDict(d.entries[f := (d.entries[f].0, value)])
    else CiDict(d.entries[f := (key, value)])
  }

  /** `foreach (k in keys) d[k] = expand(d[k])`: the values rewritten, the keys kept. */
  function ExpandValues(d: CiDict, expand: string -> string): (r: CiDict)
    ensures r.entries.Keys == d.entries.Keys
    ensures forall n :: Get(r, n) == if Get(d, n).Some? then Some(expand(Get(d, n).value)) else None
    ensures WellKeyed(d) ==> WellKeyed(r)
  {
    CiDict(map f | f in d.entries :: (d.entries[f].0, expand(d.entries[f].1)))
  }

  // ---------------------------------------------------------------------------
  // Filling the dictionary

  /** A declared input (`TaskInputDefinition`): name, default value and input type, each
      possibly null. */
  datatype TaskInputDefinition = TaskInputDefinition(name: NString, defaultValue: NString, inputType: NString)

  /** A key/value pair to store: the key already trimmed and non-empty. */
  datatype Entry = Entry(key: string, value: string)

  /** TaskRunner.cs:104-108: a null declaration or one whose trimmed name is empty stores nothing. */
  function DefaultEntry(input: Option<TaskInputDefinition>): Option<Entry> {
    var key := if input.None? then "" else TrimOrEmpty(input.value.name);
    if key == "" then None else Some(Entry(key, TrimOrEmpty(input.value.defaultValue)))
  }

  /** TaskRunner.cs:115-119 */
  function InstanceEntry(input: (NString, NString)): Option<Entry> {
    var key := TrimOrEmpty(input.0);
    if key == "" then None else Some(Entry(key, TrimOrEmpty(input.1)))
  }

  /** A declaration stores an entry exactly when it is non-null and its name has a
      character other than white space; the key is the name and the value the default,
      each stripped of surrounding white space, a null default giving "". */
  lemma DefaultEntryTrims(input: Option<TaskInputDefinition>)
    ensures DefaultEntry(input).Some? <==> input.Some? && HasNonSpace(input.value.name)
    ensures DefaultEntry(input).Some? ==>
      Stripped(input.value.name, DefaultEntry(input).value.key)
      && Stripped(input.value.defaultValue, DefaultEntry(input).value.value)
  {
    if input.Some? {
      TrimOrEmptyStrips(input.value.name);
      TrimOrEmptyStrips(input.value.defaultValue);
    }
  }

  /** An instance input stores an entry exactly when its name has a character other
      than white space; key and value are stripped of surrounding white space, a null
      value giving "". */
  lemma InstanceEntryTrims(input: (NString, NString))
    ensures InstanceEntry(input).Some? <==> HasNonSpace(input.0)
    ensures InstanceEntry(input).Some? ==>
      Stripped(input.0, InstanceEntry(input).value.key) && Stripped(input.1, InstanceEntry(input).value.value)
  {
    TrimOrEmptyStrips(input.0);
    TrimOrEmptyStrips(input.1);
  }

  function DefaultEntries(defs: seq<Option<TaskInputDefinition>>): (es: seq<Option<Entry>>)
    ensures |es| == |defs| && forall i :: 0 <= i < |defs| ==> es[i] == DefaultEntry(defs[i])
  {
    seq(|defs|, i requires 0 <= i < |defs| => DefaultEntry(defs[i]))
  }

  function InstanceEntries(inst: seq<(NString, NString)>): (es: seq<Option<Entry>>)
    ensures |es| == |inst| && forall i :: 0 <= i < |inst| ==> es[i] == InstanceEntry(inst[i])
  {
    seq(|inst|, i requires 0 <= i < |inst| => InstanceEntry(inst[i]))
  }

  function PutEntry(d: CiDict, e: Option<Entry>): CiDict {
    if e.Some? then Put(d, e.value.key, e.value.value) else d
  }

  /** The entries stored one after the other, in order. */
  function PutAll(d: CiDict, es: seq<Option<Entry>>): CiDict
    decreases |es|
  {
    if es == [] then d else PutEntry(PutAll(d, es[..|es| - 1]), es[|es| - 1])
  }

  /** Reference lookup on the raw entries: the value of the LAST entry whose key equals
      `name` ignoring case. */
  function LastValue(es: seq<Option<Entry>>, name: string): Option<string>
    decreases |es|
  {
    if es == [] then None
    else
      var e := es[|es| - 1];
      if e.Some? && Fold(e.value.key) == Fold(name) then Some(e.value.value)
      else LastValue(es[..|es| - 1], name)
  }

  function Or(a: Option<string>, b: Option<string>): Option<string> {
    if a.Some? then a else b
  }

  /** Storing entries one by one leaves, for every name, the value of the last entry with
      that name, or the earlier value when there is none. */
  lemma {:induction false} GetPutAll(d: CiDict, es: seq<Option<Entry>>, name: string)
    ensures Get(PutAll(d, es), name) == Or(LastValue(es, name), Get(d, name))
    decreases |es|
  {
    if es != [] {
      GetPutAll(d, es[..|es| - 1], name);
    }
  }

  lemma {:induction false} PutAllWellKeyed(d: CiDict, es: seq<Option<Entry>>)
    requires WellKeyed(d)
    ensures WellKeyed(PutAll(d, es))
    decreases |es|
  {
    if es != [] {
      PutAllWellKeyed(d, es[..|es| - 1]);
    }
  }

  /** The dictionary after TaskRunner.cs:99-120. */
  function MergedInputs(defs: seq<Option<TaskInputDefinition>>, inst: seq<(NString, NString)>): CiDict {
    PutAll(PutAll(Empty, DefaultEntries(defs)), InstanceEntries(inst))
  }

  /** A name's value after the merge is the trimmed value of the last instance input with
      that name, else the trimmed default of the last declaration with that name, else absent. */
  lemma MergedInputsLookup(defs: seq<Option<TaskInputDefinition>>, inst: seq<(NString, NString)>, name: string)
    ensures Get(MergedInputs(defs, inst), name)
         == Or(LastValue(InstanceEntries(inst), name), LastValue(DefaultEntries(defs), name))
  {
    GetPutAll(PutAll(Empty, DefaultEntries(defs)), InstanceEntries(inst), name);
    GetPutAll(Empty, DefaultEntries(defs), name);
  }

  lemma {:induction false} LastValueFindsEntry(es: seq<Option<Entry>>, i: nat, name: string)
    requires i < |es| && es[i].Some? && Fold(es[i].value.key) == Fold(name)
    ensures LastValue(es, name).Some?
    decreases |es|
  {
    if i < |es| - 1 {
      var e := es[|es| - 1];
      if !(e.Some? && Fold(e.value.key) == Fold(name)) {
        LastValueFindsEntry(es[..|es| - 1], i, name);
      }
    }
  }

  /** Every declared input with a non-empty trimmed name has a value after the merge. */
  lemma DeclaredDefaultsPresent(defs: seq<Option<TaskInputDefinition>>, inst: seq<(NString, NString)>, i: nat)
    requires i < |defs| && defs[i].Some? && TrimOrEmpty(defs[i].value.name) != ""
    ensures Get(MergedInputs(defs, inst), TrimOrEmpty(defs[i].value.name)).Some?
  {
    var name := TrimOrEmpty(defs[i].value.name);
    MergedInputsLookup(defs, inst, name);
    LastValueFindsEntry(DefaultEntries(defs), i, name);
  }

  /** An instance input whose trimmed key equals a declared name ignoring case overrides
      the default: the last such instance input's trimmed value is what is stored. */
  lemma InstanceValueWins(defs: seq<Option<TaskInputDefinition>>, inst: seq<(NString, NString)>, j: nat)
    requires j < |inst| && TrimOrEmpty(inst[j].0) != ""
    requires forall k :: j < k < |inst| ==> Fold(TrimOrEmpty(inst[k].0)) != Fold(TrimOrEmpty(inst[j].0))
    ensures Get(MergedInputs(defs, inst), TrimOrEmpty(inst[j].0)) == Some(TrimOrEmpty(inst[j].1))
  {
    var name := TrimOrEmpty(inst[j].0);
    MergedInputsLookup(defs, inst, name);
    LastValueIsLastMatch(InstanceEntries(inst), j, name);
  }

  lemma {:induction false} LastValueIsLastMatch(es: seq<Option<Entry>>, j: nat, name: string)
    requires j < |es| && es[j].Some? && Fold(es[j].value.key) == Fold(name)
    requires forall k :: j < k < |es| ==> !(es[k].Some? && Fold(es[k].value.key) == Fold(name))
    ensures LastValue(es, name) == Some(es[j].value.value)
    decreases |es|
  {
    if j < |es| - 1 {
      LastValueIsLastMatch(es[..|es| - 1], j, name);
    }
  }

  lemma PutAllSnoc(d: CiDict, es: seq<Option<Entry>>, k: nat)
    requires k < |es|
    ensures PutAll(d, es[..k + 1]) == PutEntry(PutAll(d, es[..k]), es[k])
  {
    assert es[..k + 1][..k] == es[..k];
  }

  /** The loop of TaskRunner.cs:101-109. */
  method LoadDefaults(defs: seq<Option<TaskInputDefinition>>) returns (inputs: CiDict)
    ensures inputs == PutAll(Empty, DefaultEntries(defs))
  {
    ghost var es := DefaultEntries(defs);
    inputs := Empty;
    var i := 0;
    while i < |defs|
      invariant 0 <= i <= |defs|
      invariant inputs == PutAll(Empty, es[..i])
    {
      var input := defs[i];
      var key := if input.None? then "" else TrimOrEmpty(input.value.name);
      if key != "" {
        inputs := Put(inputs, key, TrimOrEmpty(input.value.defaultValue));
      }
      PutAllSnoc(Empty, es, i);
      i := i + 1;
    }
    assert es[..i] == es;
  }

  /** The loop of TaskRunner.cs:113-120. */
  method MergeInstanceInputs(seeded: CiDict, inst: seq<(NString, NString)>) returns (inputs: CiDict)
    ensures inputs == PutAll(seeded, InstanceEntries(inst))
  {
    ghost var es := InstanceEntries(inst);
    inputs := seeded;
    var j := 0;
    while j < |inst|
      invariant 0 <= j <= |inst|
      invariant inputs == PutAll(seeded, es[..j])
    {
      var key := TrimOrEmpty(inst[j].0);
      if key != "" {
        inputs := Put(inputs, key, TrimOrEmpty(inst[j].1));
      }
      PutAllSnoc(seeded, es, j);
      j := j + 1;
    }
    assert es[..j] == es;
  }

  /** TaskRunner.cs:99-120: the dictionary the later steps start from. */
  method LoadInputs(defs: seq<Option<TaskInputDefinition>>, inst: seq<(NString, NString)>) returns (inputs: CiDict)
    ensures inputs == MergedInputs(defs, inst)
    ensures WellKeyed(inputs)
  {
    var seeded := LoadDefaults(defs);
    inputs := MergeInstanceInputs(seeded, inst);
    PutAllWellKeyed(Empty, DefaultEntries(defs));
    PutAllWellKeyed(seeded, InstanceEntries(inst));
  }
}
