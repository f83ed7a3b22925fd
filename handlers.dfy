/** The handler variants a task declares for one stage, the legacy PowerShell unpin rule
    (TaskRunner.cs:80-87) and the choice of the handler to run (TaskRunner.cs:89-97). */
module Handlers {
  import opened Base
  import opened Platform

  /** The HandlerData subclass. PowerShell3HandlerData and PowerShellHandlerData are
      distinct classes; every other variant is carried by its type name. */
  datatype HandlerKind = PowerShell3 | PowerShell | OtherHandler(typeName: string)

  /** One handler variant: its subclass, its tie-break priority, its optional platform
      pinning (`None` is a null `Platforms`) and its handler-specific inputs. */
  datatype HandlerData = HandlerData(
    kind: HandlerKind,
    priority: int,
    platforms: Option<seq<string>>,
    inputs: map<string, string>)

  const WindowsPlatform: string := "windows"

  /** `platforms != null && platforms.Contains(name, StringComparer.OrdinalIgnoreCase)` */
  predicate ListsPlatform(platforms: Option<seq<string>>, name: string) {
    platforms.Some? && exists i :: 0 <= i < |platforms.value| && EqualsIgnoreCase(platforms.value[i], name)
  }

  /** `PreferredOnCurrentPlatform()`: the handler is pinned to the platform the agent
      runs on. Windows is the only platform a pin can name here, and an unpinned
      handler is preferred nowhere. */
  predicate PreferredOnCurrentPlatform(h: HandlerData, os: Os)
    ensures PreferredOnCurrentPlatform(h, os) ==> os.isWindows && h.platforms.Some?
  {
    os.isWindows && ListsPlatform(h.platforms, WindowsPlatform)
  }

  // ---------------------------------------------------------------------------
  // Legacy PowerShell unpin rule

  predicate HasPowerShell3(all: seq<HandlerData>) {
    exists i :: 0 <= i < |all| && all[i].kind.PowerShell3?
  }

  predicate HasWindowsPinnedPowerShell(all: seq<HandlerData>) {
    exists i :: 0 <= i < |all| && all[i].kind.PowerShell? && ListsPlatform(all[i].platforms, WindowsPlatform)
  }

  predicate LegacyRuleApplies(all: seq<HandlerData>) {
    HasPowerShell3(all) && HasWindowsPinnedPowerShell(all)
  }

  /** `All.Where(x => x is PowerShellHandlerData).FirstOrDefault()`, as an index. */
  function FirstPowerShell(all: seq<HandlerData>): (i: nat)
    requires exists j :: 0 <= j < |all| && all[j].kind.PowerShell?
    ensures i < |all| && all[i].kind.PowerShell?
    ensures forall j :: 0 <= j < i ==> !all[j].kind.PowerShell?
  {
    if all[0].kind.PowerShell? then 0
    else
      assert exists j :: 0 <= j < |all[1..]| && all[1..][j].kind.PowerShell? by {
        var j :| 0 <= j < |all| && all[j].kind.PowerShell?;
        assert all[1..][j - 1] == all[j];
      }
      1 + FirstPowerShell(all[1..])
  }

  /** The stage's handler list after the legacy rule. */
  function LegacyUnpinned(all: seq<HandlerData>): (r: seq<HandlerData>)
    ensures |r| == |all|
    ensures forall k :: 0 <= k < |all| ==> r[k] == all[k].(platforms := r[k].platforms)
    ensures r != all <==> LegacyRuleApplies(all) && all[FirstPowerShell(all)].platforms.Some?
  {
    if LegacyRuleApplies(all) then
      var i := FirstPowerShell(all);
      all[i := all[i].(platforms := None)]
    else all
  }

  /** The rule touches at most the platforms of the first PowerShell handler, and touches
      them exactly when the stage also has a PowerShell3 handler and some PowerShell
      handler pinned to windows; that handler is then preferred on no platform. */
  lemma LegacyRuleChangesOnlyFirstPowerShell(all: seq<HandlerData>, os: Os)
    ensures var r := LegacyUnpinned(all);
      && |r| == |all|
      && (forall k :: 0 <= k < |all| ==>
            r[k].kind == all[k].kind && r[k].priority == all[k].priority && r[k].inputs == all[k].inputs)
      && (forall k :: 0 <= k < |all| && r[k] != all[k] ==>
            LegacyRuleApplies(all) && k == FirstPowerShell(all))
      && (LegacyRuleApplies(all) ==>
            r[FirstPowerShell(all)].platforms.None? && !PreferredOnCurrentPlatform(r[FirstPowerShell(all)], os))
  {
  }

  /** Applying the rule a second time changes nothing. */
  lemma LegacyRuleIdempotent(all: seq<HandlerData>)
    ensures LegacyUnpinned(LegacyUnpinned(all)) == LegacyUnpinned(all)
  {
    var r := LegacyUnpinned(all);
    if LegacyRuleApplies(all) {
      var i := FirstPowerShell(all);
      assert r[i].kind.PowerShell?;
      assert forall j :: 0 <= j < i ==> r[j] == all[j];
      assert FirstPowerShell(r) == i by {
        FirstPowerShellUnique(r, i);
      }
      if LegacyRuleApplies(r) {
        assert r[i := r[i].(platforms := None)] == r;
      }
    } else {
      assert r == all;
    }
  }

  lemma FirstPowerShellUnique(all: seq<HandlerData>, i: nat)
    requires i < |all| && all[i].kind.PowerShell?
    requires forall j :: 0 <= j < i ==> !all[j].kind.PowerShell?
    ensures FirstPowerShell(all) == i
  {
  }

  // ---------------------------------------------------------------------------
  // Handler selection

  /** The ordering key is a total preorder, so "the least key" is well defined. */
  lemma KeyLeIsTotalPreorder(a: HandlerData, b: HandlerData, c: HandlerData, os: Os)
    ensures KeyLe(a, a, os)
    ensures KeyLe(a, b, os) || KeyLe(b, a, os)
    ensures KeyLe(a, b, os) && KeyLe(b, c, os) ==> KeyLe(a, c, os)
  {
  }

  /** The ordering key `(!PreferredOnCurrentPlatform(), Priority)`: `a` sorts no later than `b`. */
  predicate KeyLe(a: HandlerData, b: HandlerData, os: Os) {
    var pa := PreferredOnCurrentPlatform(a, os);
    var pb := PreferredOnCurrentPlatform(b, os);
    (pa && !pb) || (pa == pb && a.priority <= b.priority)
  }

  /** `All.OrderBy(x => !x.PreferredOnCurrentPlatform()).ThenBy(x => x.Priority).FirstOrDefault()`,
      as the index of the chosen handler: the first handler with the least key. */
  function SelectHandler(all: seq<HandlerData>, os: Os): (r: Option<nat>)
    ensures r.None? <==> all == []
    ensures r.Some? ==> r.value < |all|
    ensures r.Some? ==> forall j :: 0 <= j < |all| ==> KeyLe(all[r.value], all[j], os)
    ensures r.Some? ==> forall j :: 0 <= j < r.value ==> !KeyLe(all[j], all[r.value], os)
    decreases |all|
  {
    if all == [] then None
    else
      var rest := SelectHandler(all[1..], os);
      if rest.None? || KeyLe(all[0], all[1 + rest.value], os) then Some(0) else Some(1 + rest.value)
  }

  /** A handler preferred on the current platform beats every handler that is not,
      whatever their priorities. */
  lemma PreferredHandlerWins(all: seq<HandlerData>, os: Os, k: nat)
    requires k < |all| && PreferredOnCurrentPlatform(all[k], os)
    ensures SelectHandler(all, os).Some?
    ensures PreferredOnCurrentPlatform(all[SelectHandler(all, os).value], os)
  {
    var i := SelectHandler(all, os).value;
    assert KeyLe(all[i], all[k], os);
  }

  /** With a PowerShell3 handler and a windows-pinned PowerShell handler, and no other
      handler, the PowerShell3 handler runs on every platform in either declaration order,
      provided its priority is the smaller one. */
  lemma LegacyRuleMakesPowerShell3Win(ps3: HandlerData, ps: HandlerData, os: Os, ps3First: bool)
    requires ps3.kind.PowerShell3? && ps3.platforms.None?
    requires ps.kind.PowerShell? && ListsPlatform(ps.platforms, WindowsPlatform)
    requires ps3.priority < ps.priority
    ensures var all := if ps3First then [ps3, ps] else [ps, ps3];
      var r := LegacyUnpinned(all);
      SelectHandler(r, os).Some? && r[SelectHandler(r, os).value] == ps3
  {
    var all := if ps3First then [ps3, ps] else [ps, ps3];
    assert LegacyRuleApplies(all) by {
      if ps3First {
        assert all[0].kind.PowerShell3? && all[1].kind.PowerShell?;
      } else {
        assert all[1].kind.PowerShell3? && all[0].kind.PowerShell?;
      }
    }
    var r := LegacyUnpinned(all);
    assert !PreferredOnCurrentPlatform(r[0], os) && !PreferredOnCurrentPlatform(r[1], os);
  }

  // ---------------------------------------------------------------------------
  // Reference: LINQ's stable sort, as an insertion sort that places an element before
  // every later element with an equal key.

  function Insert(h: HandlerData, sorted: seq<HandlerData>, os: Os): seq<HandlerData> {
    if sorted == [] || KeyLe(h, sorted[0], os) then [h] + sorted
    else [sorted[0]] + Insert(h, sorted[1..], os)
  }

  function StableSort(all: seq<HandlerData>, os: Os): seq<HandlerData> {
    if all == [] then [] else Insert(all[0], StableSort(all[1..], os), os)
  }

  predicate SortedByKey(s: seq<HandlerData>, os: Os) {
    forall i :: 0 <= i < |s| - 1 ==> KeyLe(s[i], s[i + 1], os)
  }

  lemma {:induction false} InsertProperties(h: HandlerData, sorted: seq<HandlerData>, os: Os)
    requires SortedByKey(sorted, os)
    ensures multiset(Insert(h, sorted, os)) == multiset(sorted) + multiset{h}
    ensures SortedByKey(Insert(h, sorted, os), os)
    ensures Insert(h, sorted, os)[0] == if sorted == [] || KeyLe(h, sorted[0], os) then h else sorted[0]
    decreases |sorted|
  {
    if sorted == [] || KeyLe(h, sorted[0], os) {
    } else {
      var tail := sorted[1..];
      assert SortedByKey(tail, os);
      InsertProperties(h, tail, os);
      assert sorted == [sorted[0]] + tail;
      var r := Insert(h, sorted, os);
      assert r == [sorted[0]] + Insert(h, tail, os);
    }
  }

  /** The stable sort is ordered by the key and is a permutation of the handlers. */
  lemma {:induction false} StableSortProperties(all: seq<HandlerData>, os: Os)
    ensures SortedByKey(StableSort(all, os), os)
    ensures multiset(StableSort(all, os)) == multiset(all)
    ensures |StableSort(all, os)| == |all|
    decreases |all|
  {
    if all != [] {
      StableSortProperties(all[1..], os);
      InsertProperties(all[0], StableSort(all[1..], os), os);
      assert all == [all[0]] + all[1..];
      assert |StableSort(all, os)| == |multiset(StableSort(all, os))|;
    }
  }

  /** The chosen handler is the head of the stable sort of the stage's handlers. */
  lemma {:induction false} SelectionIsHeadOfStableSort(all: seq<HandlerData>, os: Os)
    requires all != []
    ensures StableSort(all, os) != []
    ensures StableSort(all, os)[0] == all[SelectHandler(all, os).value]
    decreases |all|
  {
    StableSortProperties(all, os);
    var rest := StableSort(all[1..], os);
    StableSortProperties(all[1..], os);
    InsertProperties(all[0], rest, os);
    if all[1..] != [] {
      SelectionIsHeadOfStableSort(all[1..], os);
    }
  }

  /** The stage's handler list, which the legacy rule and the handler-input expansion
      update in place. */
  class ExecutionData {
    var all: seq<HandlerData>

    constructor (handlers: seq<HandlerData>)
      ensures all == handlers
    {
      all := handlers;
    }

    /** TaskRunner.cs:80-87, on a stage whose ExecutionData is not null. */
    method ApplyLegacyRule()
      modifies this
      ensures all == LegacyUnpinned(old(all))
    {
      var hasPs3 := exists i :: 0 <= i < |all| && all[i].kind.PowerShell3?;
      var hasPinnedPs := exists i :: 0 <= i < |all| && all[i].kind.PowerShell? && ListsPlatform(all[i].platforms, WindowsPlatform);
      if hasPs3 && hasPinnedPs {
        var legacy := FirstPowerShell(all);
        all := all[legacy := all[legacy].(platforms := None)];
      }
    }

    /** Replaces the inputs of the handler at index `i` (TaskRunner.cs:140-141). */
    method SetHandlerInputs(i: nat, inputs: map<string, string>)
      requires i < |all|
      modifies this
      ensures all == old(all)[i := old(all)[i].(inputs := inputs)]
    {
      all := all[i := all[i].(inputs := inputs)];
    }
  }
}
