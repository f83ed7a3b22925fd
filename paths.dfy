/** TaskRunner.TranslateFilePathInput (TaskRunner.cs:164-218): turning a file-path input
    into a local rooted path — the input itself when it is already rooted, else the root
    the first applicable job extension offers, else the input unchanged. */
module FilePaths {
  import opened Base
  import opened Platform
  import opened Release

  /** A job extension as the path chain sees it: the release extension, whose
      GetRootedPath is modelled, or another extension given by its host type and its
      rooting function. */
  datatype JobExtension =
    | ReleaseExtension
    | OtherJobExtension(hostType: HostTypes, getRootedPath: string -> NString)

  function ExtensionHostType(e: JobExtension): HostTypes {
    match e
    case ReleaseExtension => {HostFlag.Release}
    case OtherJobExtension(h, _) => h
  }

  /** `extension.GetRootedPath(ExecutionContext, value)`; the release extension reads the
      artifacts-directory variable. */
  function ExtensionRoot(e: JobExtension, os: Os, artifactsDirectory: NString, value: string): NString {
    match e
    case ReleaseExtension => GetRootedPath(os, artifactsDirectory, Some(value))
    case OtherJobExtension(_, f) => f(value)
  }

  /** `s.Replace(from, to)` on characters. */
  function ReplaceChar(s: string, from: char, to: char): (r: string)
    ensures |r| == |s|
    ensures forall i :: 0 <= i < |s| ==> r[i] == if s[i] == from then to else s[i]
  {
    seq(|s|, i requires 0 <= i < |s| => if s[i] == from then to else s[i])
  }

  /** TaskRunner.cs:168-177: on Windows a non-empty input loses its surrounding double
      quotes and has every '/' turned into '\'. */
  function Normalized(os: Os, input: string): (r: string)
    ensures !os.isWindows || input == "" ==> r == input
    ensures os.isWindows && input != "" ==>
      (forall i :: 0 <= i < |r| ==> r[i] != AltDirectorySeparatorChar)
      && (r != [] ==> r[0] != '"' && r[|r| - 1] != '"')
      && |r| <= |input|
  {
    if os.isWindows && input != "" then
      var trimmed := TrimChars(input, {'"'});
      ReplaceChar(trimmed, AltDirectorySeparatorChar, DirectorySeparatorChar)
    else input
  }

  /** On Windows a non-empty input becomes the input stripped of its surrounding double
      quotes, with every '/' turned into '\'. */
  lemma NormalizedContents(os: Os, input: string)
    ensures os.isWindows && input != "" ==>
      exists t :: StrippedOf(input, t, {'"'})
        && Normalized(os, input) == ReplaceChar(t, AltDirectorySeparatorChar, DirectorySeparatorChar)
  {
    if os.isWindows && input != "" {
      var t := TrimChars(input, {'"'});
      TrimCharsStrips(input, {'"'});
      assert Normalized(os, input) == ReplaceChar(t, AltDirectorySeparatorChar, DirectorySeparatorChar);
    }
  }

  /** TaskRunner.cs:200-203: the extensions whose host type has every flag of the job's. */
  function Matching(extensions: seq<JobExtension>, hostType: HostTypes): (r: seq<JobExtension>)
    ensures IsSubsequence(r, extensions)
    ensures forall e :: e in r <==> e in extensions && HasFlag(ExtensionHostType(e), hostType)
    ensures (forall k :: 0 <= k < |extensions| ==> !HasFlag(ExtensionHostType(extensions[k]), hostType)) ==> r == []
    decreases |extensions|
  {
    if extensions == [] then []
    else
      var rest := Matching(extensions[1..], hostType);
      assert extensions == [extensions[0]] + extensions[1..];
      if HasFlag(ExtensionHostType(extensions[0]), hostType) then
        var r := [extensions[0]] + rest;
        assert r[0] == extensions[0] && r[1..] == rest;
        r
      else rest
  }

  /** Each applicable extension is kept as often as it occurs in the list, and no
      other extension is kept. */
  lemma {:induction false} MatchingCounts(extensions: seq<JobExtension>, hostType: HostTypes)
    ensures forall e :: multiset(Matching(extensions, hostType))[e]
                        == (if HasFlag(ExtensionHostType(e), hostType) then multiset(extensions)[e] else 0)
    decreases |extensions|
  {
    if extensions != [] {
      MatchingCounts(extensions[1..], hostType);
      assert extensions == [extensions[0]] + extensions[1..];
      assert multiset(extensions) == multiset{extensions[0]} + multiset(extensions[1..]);
      if HasFlag(ExtensionHostType(extensions[0]), hostType) {
        var rest := Matching(extensions[1..], hostType);
        assert multiset([extensions[0]] + rest) == multiset{extensions[0]} + multiset(rest);
      }
    }
  }

  /** TaskRunner.cs:204-213: the index of the first extension that offers a non-empty root. */
  function FirstRooting(extensions: seq<JobExtension>, os: Os, artifactsDirectory: NString, value: string): (r: Option<nat>)
    ensures r.None? <==> forall k :: 0 <= k < |extensions| ==> IsNullOrEmpty(ExtensionRoot(extensions[k], os, artifactsDirectory, value))
    ensures r.Some? ==>
      (r.value < |extensions| && !IsNullOrEmpty(ExtensionRoot(extensions[r.value], os, artifactsDirectory, value))
       && forall k :: 0 <= k < r.value ==> IsNullOrEmpty(ExtensionRoot(extensions[k], os, artifactsDirectory, value)))
    decreases |extensions|
  {
    if extensions == [] then None
    else if !IsNullOrEmpty(ExtensionRoot(extensions[0], os, artifactsDirectory, value)) then Some(0)
    else
      var rest := FirstRooting(extensions[1..], os, artifactsDirectory, value);
      if rest.None? then
        assert forall k :: 1 <= k < |extensions| ==> extensions[k] == extensions[1..][k - 1];
        None
      else Some(1 + rest.value)
  }

  /** What TranslateFilePathInput returns for `input`. */
  function TranslatedPath(os: Os, extensions: seq<JobExtension>, hostType: HostTypes,
                          artifactsDirectory: NString, input: string): (r: string)
    ensures var v := Normalized(os, input);
      IsValidRooted(os, v) ==> r == FullPathOrSelf(os, v)
    ensures var v := Normalized(os, input);
      var m := Matching(extensions, hostType);
      !IsValidRooted(os, v) && FirstRooting(m, os, artifactsDirectory, v).None? ==> r == v
  {
    var v := Normalized(os, input);
    if IsValidRooted(os, v) then FullPathOrSelf(os, v)
    else
      var m := Matching(extensions, hostType);
      var i := FirstRooting(m, os, artifactsDirectory, v);
      if i.None? then v else ExtensionRoot(m[i.value], os, artifactsDirectory, v).value
  }

  /** A path that is not already rooted takes the root of the first applicable extension
      that offers one, ahead of every later extension. */
  lemma FirstApplicableExtensionWins(os: Os, extensions: seq<JobExtension>, hostType: HostTypes,
                                     artifactsDirectory: NString, input: string, k: nat)
    requires var v := Normalized(os, input); !IsValidRooted(os, v)
    requires var m := Matching(extensions, hostType);
      k < |m| && !IsNullOrEmpty(ExtensionRoot(m[k], os, artifactsDirectory, Normalized(os, input)))
      && forall j :: 0 <= j < k ==> IsNullOrEmpty(ExtensionRoot(m[j], os, artifactsDirectory, Normalized(os, input)))
    ensures TranslatedPath(os, extensions, hostType, artifactsDirectory, input)
         == ExtensionRoot(Matching(extensions, hostType)[k], os, artifactsDirectory, Normalized(os, input)).value
  {
    var v := Normalized(os, input);
    var m := Matching(extensions, hostType);
    FirstRootingIs(m, os, artifactsDirectory, v, k);
  }

  /** The first extension offering a root is the one before which none offers one. */
  lemma FirstRootingIs(extensions: seq<JobExtension>, os: Os, artifactsDirectory: NString, value: string, k: nat)
    requires k < |extensions| && !IsNullOrEmpty(ExtensionRoot(extensions[k], os, artifactsDirectory, value))
    requires forall j :: 0 <= j < k ==> IsNullOrEmpty(ExtensionRoot(extensions[j], os, artifactsDirectory, value))
    ensures FirstRooting(extensions, os, artifactsDirectory, value) == Some(k)
  {
    var i := FirstRooting(extensions, os, artifactsDirectory, value);
    if i.None? || i.value < k {
      assert false;
    }
  }

  /** In a release job served by the release extension, a relative input is rooted
      against the artifacts directory. */
  lemma ReleaseJobRootsRelativeInput(os: Os, others: seq<JobExtension>, artifactsDirectory: string, input: string)
    requires CanonicalFullPaths(os)
    requires artifactsDirectory != "" && HasValidPathChars(os, artifactsDirectory)
    requires var v := Normalized(os, input);
      !IsValidRooted(os, v) && HasValidPathChars(os, v) && os.isPathRooted(os.combine(artifactsDirectory, v))
    ensures TranslatedPath(os, [ReleaseExtension] + others, {HostFlag.Release}, Some(artifactsDirectory), input)
         == FullPathOrSelf(os, os.combine(artifactsDirectory, Normalized(os, input)))
  {
    var v := Normalized(os, input);
    var exts := [ReleaseExtension] + others;
    var m := Matching(exts, {HostFlag.Release});
    assert m[0] == ReleaseExtension;
    RootedPathIsRooted(os, Some(artifactsDirectory), Some(v));
  }

  /** The handler's file-path root (the translation of the empty input) in a release job
      is the full path of the artifacts directory. */
  lemma ReleaseJobFilePathRoot(os: Os, artifactsDirectory: string)
    requires CanonicalFullPaths(os)
    requires IsValidRooted(os, artifactsDirectory)
    requires os.combine(artifactsDirectory, "") == artifactsDirectory
    ensures TranslatedPath(os, [ReleaseExtension], {HostFlag.Release}, Some(artifactsDirectory), "")
         == FullPathOrSelf(os, artifactsDirectory)
  {
    var m := Matching([ReleaseExtension], {HostFlag.Release});
    assert m == [ReleaseExtension];
    RootedPathIsRooted(os, Some(artifactsDirectory), Some(""));
  }

  /** A job whose host type no extension covers gets every non-rooted input back
      unchanged (after the Windows normalisation). */
  lemma NoApplicableExtensionKeepsInput(os: Os, extensions: seq<JobExtension>, hostType: HostTypes,
                                        artifactsDirectory: NString, input: string)
    requires forall e :: e in extensions ==> !HasFlag(ExtensionHostType(e), hostType)
    requires !IsValidRooted(os, Normalized(os, input))
    ensures TranslatedPath(os, extensions, hostType, artifactsDirectory, input) == Normalized(os, input)
  {

  }
}
