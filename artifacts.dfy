/** The artifacts a release job declares, the filter that drops custom artifacts of a
    non-Build sub-type (ReleaseJobExtension.cs:376-404), and the classification of a
    retrieval failure (ReleaseJobExtension.cs:360-374). */
module Artifacts {
  import opened Base
  import opened Context

  /** AgentArtifactType: only `Custom` is singled out by the code. */
  datatype ArtifactType = Custom | OtherArtifactType(name: string)

  /** AgentArtifactDefinition as fetched from the release service. */
  datatype AgentArtifactDefinition = AgentArtifactDefinition(
    alias: NString,
    artifactType: ArtifactType,
    details: NString,           // JSON text
    name: NString,
    version: NString)

  /** ArtifactDefinition handed to an artifact extension's download. */
  datatype ArtifactDefinition = ArtifactDefinition(
    artifactType: ArtifactType,
    name: NString,
    version: NString,
    details: string)            // what the extension's GetArtifactDetails made of the payload

  /** `JsonConvert.DeserializeObject<Dictionary<string, string>>` on non-null text:
      `None` when it throws or yields null. */
  type JsonParser = string -> Option<map<string, NString>>

  const ArtifactTypeKey: string := "ArtifactType"
  const BuildSubType: string := "Build"

  /** ReleaseJobExtension.cs:389-399 on parsed details: kept unless the `ArtifactType`
      key is present with a non-null value other than "Build" (ignoring case). */
  predicate KeepsCustomDetails(details: map<string, NString>) {
    ArtifactTypeKey !in details
    || details[ArtifactTypeKey].None?
    || EqualsIgnoreCase(details[ArtifactTypeKey].value, BuildSubType)
  }

  /** The verdict of the filter on one artifact, or the exception the parse raises. */
  function Keep(d: AgentArtifactDefinition, parse: JsonParser): (r: Result<bool, Exn>)
    ensures r.Err? <==> d.artifactType == Custom && (d.details.None? || parse(d.details.value).None?)
    ensures d.artifactType != Custom ==> r == Ok(true)
    ensures r.Ok? && d.artifactType == Custom ==> (r.value <==> KeepsCustomDetails(parse(d.details.value).value))
  {
    if d.artifactType != Custom then Ok(true)
    else if d.details.None? then Err(ArgumentError("value"))
    else
      var parsed := parse(d.details.value);
      if parsed.None? then Err(MalformedJson) else Ok(KeepsCustomDetails(parsed.value))
  }

  /** The filtered list, or the first exception the filter meets. */
  function Filtered(defs: seq<AgentArtifactDefinition>, parse: JsonParser): Result<seq<AgentArtifactDefinition>, Exn>
    decreases |defs|
  {
    if defs == [] then Ok([])
    else
      var k := Keep(defs[0], parse);
      if k.Err? then Err(k.error)
      else
        var rest := Filtered(defs[1..], parse);
        if rest.Err? then rest
        else if k.value then Ok([defs[0]] + rest.value) else rest
  }

  /** The filter fails exactly when some custom artifact's details cannot be parsed. */
  lemma {:induction false} FilteredFailsIffUnparsable(defs: seq<AgentArtifactDefinition>, parse: JsonParser)
    ensures Filtered(defs, parse).Err? <==> exists i :: 0 <= i < |defs| && Keep(defs[i], parse).Err?
    decreases |defs|
  {
    if defs != [] {
      FilteredFailsIffUnparsable(defs[1..], parse);
      if exists i :: 0 <= i < |defs[1..]| && Keep(defs[1..][i], parse).Err? {
        var i :| 0 <= i < |defs[1..]| && Keep(defs[1..][i], parse).Err?;
        assert Keep(defs[i + 1], parse).Err?;
      }
      if exists i :: 0 <= i < |defs| && Keep(defs[i], parse).Err? {
        var i :| 0 <= i < |defs| && Keep(defs[i], parse).Err?;
        if i > 0 {
          assert Keep(defs[1..][i - 1], parse).Err?;
        }
      }
    }
  }

  /** A successful filter keeps the input order and keeps exactly the artifacts whose
      verdict is "keep": every non-custom artifact, and every custom artifact whose
      details lack the `ArtifactType` key, hold null there, or name "Build". Each
      kept artifact is kept as often as it occurs, and each dropped one not at all. */
  lemma {:induction false} FilteredKeepsExactly(defs: seq<AgentArtifactDefinition>, parse: JsonParser)
    requires Filtered(defs, parse).Ok?
    ensures IsSubsequence(Filtered(defs, parse).value, defs)
    ensures forall d :: d in Filtered(defs, parse).value <==> d in defs && Keep(d, parse) == Ok(true)
    ensures forall d :: d in defs && d.artifactType != Custom ==> d in Filtered(defs, parse).value
    ensures forall d :: multiset(Filtered(defs, parse).value)[d]
                        == (if Keep(d, parse) == Ok(true) then multiset(defs)[d] else 0)
    decreases |defs|
  {
    if defs != [] {
      var out := Filtered(defs, parse).value;
      var rest := Filtered(defs[1..], parse);
      FilteredKeepsExactly(defs[1..], parse);
      assert forall d :: d in defs <==> d == defs[0] || d in defs[1..];
      assert defs == [defs[0]] + defs[1..];
      assert multiset(defs) == multiset{defs[0]} + multiset(defs[1..]);
      if Keep(defs[0], parse) == Ok(true) {
        assert out == [defs[0]] + rest.value;
        assert out[1..] == rest.value;
        assert multiset(out) == multiset{defs[0]} + multiset(rest.value);
      } else {
        assert out == rest.value;
      }
    }
  }

  /** `kept + r` when `r` succeeded. */
  function Prepend(kept: seq<AgentArtifactDefinition>, r: Result<seq<AgentArtifactDefinition>, Exn>)
    : Result<seq<AgentArtifactDefinition>, Exn>
  {
    if r.Err? then r else Ok(kept + r.value)
  }

  /** The loop of ReleaseJobExtension.cs:376-404. */
  method FilterArtifactDefinitions(defs: seq<AgentArtifactDefinition>, parse: JsonParser)
    returns (r: Result<seq<AgentArtifactDefinition>, Exn>)
    ensures r == Filtered(defs, parse)
  {
    var definitions: seq<AgentArtifactDefinition> := [];
    var i := 0;
    assert defs[0..] == defs;
    assert Filtered(defs, parse).Ok? ==> [] + Filtered(defs, parse).value == Filtered(defs, parse).value;
    while i < |defs|
      invariant 0 <= i <= |defs|
      invariant Filtered(defs, parse) == Prepend(definitions, Filtered(defs[i..], parse))
    {
      var d := defs[i];
      assert defs[i..][0] == d && defs[i..][1..] == defs[i + 1..];
      var keep := true;
      if d.artifactType == Custom {
        if d.details.None? {
          return Err(ArgumentError("value"));
        }
        var details := parse(d.details.value);
        if details.None? {
          return Err(MalformedJson);
        }
        if ArtifactTypeKey in details.value {
          var artifactType := details.value[ArtifactTypeKey];
          keep := artifactType.None? || EqualsIgnoreCase(artifactType.value, BuildSubType);
        }
      }
      assert Keep(d, parse) == Ok(keep);
      ghost var rest := Filtered(defs[i + 1..], parse);
      if keep {
        if rest.Ok? {
          assert definitions + ([d] + rest.value) == (definitions + [d]) + rest.value;
        }
        definitions := definitions + [d];
      }
      i := i + 1;
    }
    assert defs[i..] == [];
    assert definitions + [] == definitions;
    return Ok(definitions);
  }

  // ---------------------------------------------------------------------------
  // Failure classification

  const DownloadArtifactsFailureUserError: string := "DownloadArtifactsFailureUserError"
  const DownloadArtifactsFailureSystemError: string := "DownloadArtifactsFailureSystemError"
  /** `DownloadArtifactsTaskId.ToString()`: a Guid prints in lower case. */
  const DownloadArtifactsTaskId: string := "b152feaa-7e65-43c9-bcc4-07f6883ee793"

  /** The two exceptions blamed on the user rather than on the agent. */
  predicate IsUserError(e: Exn) {
    e.ArtifactDownloadFailed? || e.ArtifactCleanupFailed?
  }

  /** The issue LogDownloadFailureTelemetry records for a failed retrieval. */
  function FailureIssue(e: Exn, agentVersion: string): (issue: Issue)
    ensures issue.issueType == Error && issue.error == e
    ensures issue.data.Keys == {"AgentVersion", "code", "TaskId"}
    ensures issue.data["AgentVersion"] == agentVersion && issue.data["TaskId"] == DownloadArtifactsTaskId
    ensures issue.data["code"] == DownloadArtifactsFailureUserError <==> IsUserError(e)
    ensures issue.data["code"] in {DownloadArtifactsFailureUserError, DownloadArtifactsFailureSystemError}
  {
    var code := if IsUserError(e) then DownloadArtifactsFailureUserError else DownloadArtifactsFailureSystemError;
    Issue(Error, "DownloadArtifactsFailed", e,
      map["AgentVersion" := agentVersion, "code" := code, "TaskId" := DownloadArtifactsTaskId])
  }
}
