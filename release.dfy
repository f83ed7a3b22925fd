/** ReleaseJobExtension: rooting of artifact-relative paths, and the retrieval of a
    release's artifacts — fetch, filter, reset the working folder, then download each
    artifact in turn under a retry policy (ReleaseJobExtension.cs:48-254). */
module Release {
  import opened Base
  import opened Platform
  import opened Context
  import opened Artifacts
  import opened Workspace
  import opened RetryExecutor

  // ---------------------------------------------------------------------------
  // GetRootedPath (ReleaseJobExtension.cs:48-96)

  /** The artifacts directory is set, non-empty and valid, `path` has only valid
      characters, and the two combined make a rooted path. */
  predicate RootsAgainst(os: Os, artifactsDirectory: NString, path: string) {
    && artifactsDirectory.Some? && artifactsDirectory.value != "" && HasValidPathChars(os, artifactsDirectory.value)
    && HasValidPathChars(os, path) && os.isPathRooted(os.combine(artifactsDirectory.value, path))
  }

  /** `path` rooted as the release extension roots it, against the value of the
      artifacts-directory variable; `None` is the null the extension returns when it
      cannot root the path. */
  function GetRootedPath(os: Os, artifactsDirectory: NString, path: NString): (r: NString)
    ensures path.None? ==> r.None?
    ensures path.Some? && IsValidRooted(os, path.value) ==> r == Some(FullPathOrSelf(os, path.value))
    ensures path.Some? && !IsValidRooted(os, path.value) && RootsAgainst(os, artifactsDirectory, path.value) ==>
      r == Some(FullPathOrSelf(os, os.combine(artifactsDirectory.value, path.value)))
    ensures r.None? <==> path.None? || (!IsValidRooted(os, path.value) && !RootsAgainst(os, artifactsDirectory, path.value))
    ensures r.Some? && !(path.Some? && IsValidRooted(os, path.value)) ==>
      artifactsDirectory.Some? && artifactsDirectory.value != "" && HasValidPathChars(os, artifactsDirectory.value)
  {
    if path.Some? && IsValidRooted(os, path.value) then Some(FullPathOrSelf(os, path.value))
    else
      var root := artifactsDirectory.GetOr("");
      if root != "" && HasValidPathChars(os, root) && path.Some? && HasValidPathChars(os, path.value) then
        var combined := os.combine(root, path.value);
        if os.isPathRooted(combined) then Some(FullPathOrSelf(os, combined)) else None
      else None
  }

  /** Whatever the extension returns is a valid rooted path. */
  lemma RootedPathIsRooted(os: Os, artifactsDirectory: NString, path: NString)
    requires CanonicalFullPaths(os)
    ensures var r := GetRootedPath(os, artifactsDirectory, path);
      r.Some? ==> IsValidRooted(os, r.value)
  {
    var r := GetRootedPath(os, artifactsDirectory, path);
    if r.Some? && !(path.Some? && IsValidRooted(os, path.value)) {
      var combined := os.combine(artifactsDirectory.value, path.value);
      assert HasValidPathChars(os, combined);
    }
  }

  /** Rooting a path the extension has already rooted gives it back unchanged. */
  lemma RootedPathIdempotent(os: Os, artifactsDirectory: NString, path: NString)
    requires CanonicalFullPaths(os)
    ensures var r := GetRootedPath(os, artifactsDirectory, path);
      r.Some? ==> GetRootedPath(os, artifactsDirectory, r) == r
  {
    var r := GetRootedPath(os, artifactsDirectory, path);
    RootedPathIsRooted(os, artifactsDirectory, path);
    if r.Some? {
      var p := r.value;
      var full := os.getFullPath(p);
      if full.Some? {
        var src := if path.Some? && IsValidRooted(os, path.value) then path.value
                   else os.combine(artifactsDirectory.value, path.value);
        assert p == FullPathOrSelf(os, src);
        if os.getFullPath(src).Some? {
          assert full == os.getFullPath(src);
        }
      }
    }
  }

  // ---------------------------------------------------------------------------
  // Artifact extensions (ReleaseJobExtension.cs:161-171, 342-358)

  /** An IArtifactExtension: the type it serves and its `GetArtifactDetails`, which
      gives the details text or the exception it throws. */
  datatype ArtifactExtension = ArtifactExtension(
    artifactType: ArtifactType,
    getArtifactDetails: AgentArtifactDefinition -> Result<string, Exn>)

  /** `GetExtensions<IArtifactExtension>().FirstOrDefault(x => type == x.ArtifactType)` */
  function FindExtension(registry: seq<ArtifactExtension>, t: ArtifactType): (r: Option<nat>)
    ensures r.None? <==> forall k :: 0 <= k < |registry| ==> registry[k].artifactType != t
    ensures r.Some? ==>
      (r.value < |registry| && registry[r.value].artifactType == t
       && forall k :: 0 <= k < r.value ==> registry[k].artifactType != t)
    decreases |registry|
  {
    if registry == [] then None
    else if registry[0].artifactType == t then Some(0)
    else
      var rest := FindExtension(registry[1..], t);
      if rest.None? then
        assert forall k :: 1 <= k < |registry| ==> registry[k] == registry[1..][k - 1];
        None
      else Some(1 + rest.value)
  }

  /** The definition handed to the extension's download: the agent definition's type,
      name and version, and the details the extension makes of it; an exception of
      `GetArtifactDetails` escapes unchanged. */
  function ConvertToArtifactDefinition(d: AgentArtifactDefinition, extension: ArtifactExtension): (r: Result<ArtifactDefinition, Exn>)
    ensures r.Err? <==> extension.getArtifactDetails(d).Err?
    ensures r.Err? ==> r.error == extension.getArtifactDetails(d).error
    ensures r.Ok? ==>
      && r.value.artifactType == d.artifactType && r.value.name == d.name && r.value.version == d.version
      && r.value.details == extension.getArtifactDetails(d).value
  {
    var details := extension.getArtifactDetails(d);
    if details.Err? then Err(details.error)
    else Ok(ArtifactDefinition(d.artifactType, d.name, d.version, details.value))
  }

  // ---------------------------------------------------------------------------
  // Downloading (ReleaseJobExtension.cs:152-218)

  /** The fixed collaborators of one retrieval: the extension registry, the path
      primitives and the retry executor's attempt bound. */
  datatype Env = Env(registry: seq<ArtifactExtension>, os: Os, maxAttempts: nat)

  /** The folder an artifact is downloaded into, or the exception computing it raises. */
  function DownloadFolder(os: Os, workingFolder: NString, alias: string): (r: Result<string, Exn>)
    ensures r.Err? <==> workingFolder.None? || os.getFullPath(os.combine(workingFolder.value, alias)).None?
    ensures CanonicalFullPaths(os) && r.Ok? ==> IsValidRooted(os, r.value)
  {
    if workingFolder.None? then Err(ArgumentError("path1"))     // Path.Combine(null, ...)
    else
      var full := os.getFullPath(os.combine(workingFolder.value, alias));
      if full.None? then Err(InvalidPath) else Ok(full.value)
  }

  /** One iteration of the loop of ReleaseJobExtension.cs:156-215. */
  function ProcessArtifact(w: World, d: AgentArtifactDefinition, workingFolder: NString, env: Env): (s: Step)
    requires env.maxAttempts >= 1
    ensures Extends(w, s.world) && NoBatchFinishSince(w, s.world)
    ensures DownloadsCleaned(w.ops) ==> DownloadsCleaned(s.world.ops)
    ensures IsNullOrEmpty(d.alias) ==> s == Step(w, Some(ArgumentError("Alias")))
    ensures !IsNullOrEmpty(d.alias) && FindExtension(env.registry, d.artifactType).None? ==>
      s == Step(w, Some(ArtifactTypeNotSupported))
    ensures !IsNullOrEmpty(d.alias) && FindExtension(env.registry, d.artifactType).Some? ==>
      var artifact := ConvertToArtifactDefinition(d, env.registry[FindExtension(env.registry, d.artifactType).value]);
      artifact.Err? ==> s == Step(w, Some(artifact.error))
    ensures s.error.Some? ==> NoOutputSince(w, s.world)
    ensures s.error.None? ==> !IsNullOrEmpty(d.alias) && OnlyOutputLast(w, s.world, ArtifactDownloadFinished(d.alias.value))
  {
    if IsNullOrEmpty(d.alias) then Step(w, Some(ArgumentError("Alias")))
    else
      var ext := FindExtension(env.registry, d.artifactType);
      if ext.None? then Step(w, Some(ArtifactTypeNotSupported))
      else
        var artifact := ConvertToArtifactDefinition(d, env.registry[ext.value]);
        if artifact.Err? then Step(w, Some(artifact.error))
        else
          var folder := DownloadFolder(env.os, workingFolder, d.alias.value);
          if folder.Err? then Step(w, Some(folder.error))
          else
            var r := Retry(w, CleanAndDownload(folder.value, artifact.value), DownloadRetry, env.maxAttempts);
            RetryKeepsLog(w, CleanAndDownload(folder.value, artifact.value), DownloadRetry, env.maxAttempts);
            if r.error.Some? then Step(r.world, r.error)
            else
              EmitAfterSilent(w, r.world, ArtifactDownloadFinished(d.alias.value));
              Step(Emit(r.world, ArtifactDownloadFinished(d.alias.value)), None)
  }

  /** A successful artifact was cleaned and then downloaded, as the definition its
      extension builds, into the full path of the working folder combined with its alias;
      the finished message follows. */
  lemma ProcessArtifactTarget(w: World, d: AgentArtifactDefinition, workingFolder: NString, env: Env)
    requires env.maxAttempts >= 1
    ensures var s := ProcessArtifact(w, d, workingFolder, env);
      s.error.None? ==>
        && workingFolder.Some? && !IsNullOrEmpty(d.alias)
        && FindExtension(env.registry, d.artifactType).Some?
        && ConvertToArtifactDefinition(d, env.registry[FindExtension(env.registry, d.artifactType).value]).Ok?
        && env.os.getFullPath(env.os.combine(workingFolder.value, d.alias.value)).Some?
        && var folder := env.os.getFullPath(env.os.combine(workingFolder.value, d.alias.value)).value;
           var artifact := ConvertToArtifactDefinition(d, env.registry[FindExtension(env.registry, d.artifactType).value]).value;
           && |s.world.ops| >= 3
           && s.world.ops[|s.world.ops| - 3] == CleanupDirectory(folder)
           && s.world.ops[|s.world.ops| - 2] == Download(artifact, folder)
           && s.world.ops[|s.world.ops| - 1] == Output(ArtifactDownloadFinished(d.alias.value))
  {
    var s := ProcessArtifact(w, d, workingFolder, env);
    if s.error.None? {
      var ext := FindExtension(env.registry, d.artifactType);
      var artifact := ConvertToArtifactDefinition(d, env.registry[ext.value]).value;
      var folder := DownloadFolder(env.os, workingFolder, d.alias.value);
      RetriedDownloadEndsWithDownload(w, folder.value, artifact, DownloadRetry, env.maxAttempts);
    }
  }

  /** Between `w` and `w2` exactly one message was written, `m`, and it was the last entry. */
  predicate OnlyOutputLast(w: World, w2: World, m: Message) {
    |w.ops| < |w2.ops| && Last(w2.ops) == Output(m)
    && forall i :: |w.ops| <= i < |w2.ops| - 1 ==> !w2.ops[i].Output?
  }

  lemma EmitAfterSilent(w: World, r: World, m: Message)
    requires Extends(w, r) && NoOutputSince(w, r)
    ensures Extends(w, Emit(r, m)) && OnlyOutputLast(w, Emit(r, m), m)
    ensures DownloadsCleaned(r.ops) ==> DownloadsCleaned(Emit(r, m).ops)
    ensures m != ArtifactsDownloadFinished ==> NoBatchFinishSince(w, Emit(r, m))
  {
    var w' := Emit(r, m);
    assert w'.ops[..|w.ops|] == r.ops[..|w.ops|];
  }

  /** The whole loop: the artifacts in order, stopping at the first exception. */
  function ProcessAll(w: World, defs: seq<AgentArtifactDefinition>, workingFolder: NString, env: Env): (s: Step)
    requires env.maxAttempts >= 1
    ensures Extends(w, s.world) && NoBatchFinishSince(w, s.world)
    ensures DownloadsCleaned(w.ops) ==> DownloadsCleaned(s.world.ops)
    decreases |defs|
  {
    if defs == [] then Step(w, None)
    else
      var s := ProcessArtifact(w, defs[0], workingFolder, env);
      if s.error.Some? then s
      else
        var rest := ProcessAll(s.world, defs[1..], workingFolder, env);
        Chain(w, s.world, rest.world);
        rest
  }

  /** ReleaseJobExtension.cs:152-218: the loop, then the batch-finished message. */
  function DownloadAll(w: World, defs: seq<AgentArtifactDefinition>, workingFolder: NString, env: Env): (s: Step)
    requires env.maxAttempts >= 1
    ensures Extends(w, s.world)
    ensures DownloadsCleaned(w.ops) ==> DownloadsCleaned(s.world.ops)
  {
    var s := ProcessAll(w, defs, workingFolder, env);
    if s.error.Some? then s else Step(Emit(s.world, ArtifactsDownloadFinished), None)
  }

  /** ReleaseJobExtension.cs:144-149, from the fetched list on: filter, reset the working
      folder, download. `fetched` is what the release service answered. */
  function Retrieve(w: World, fetched: Result<seq<AgentArtifactDefinition>, Exn>, parse: JsonParser,
                    workingFolder: NString, env: Env): (s: Step)
    requires env.maxAttempts >= 1
    ensures Extends(w, s.world)
    ensures DownloadsCleaned(w.ops) ==> DownloadsCleaned(s.world.ops)
  {
    if fetched.Err? then Step(w, Some(fetched.error))
    else
      var filtered := Filtered(fetched.value, parse);
      if filtered.Err? then Step(w, Some(filtered.error))
      else
        var reset := Retry(w, ResetWorkingFolder(workingFolder), CleanupRetry, env.maxAttempts);
        RetryKeepsLog(w, ResetWorkingFolder(workingFolder), CleanupRetry, env.maxAttempts);
        if reset.error.Some? then Step(reset.world, reset.error)
        else
          var s := DownloadAll(reset.world, filtered.value, workingFolder, env);
          Chain(w, reset.world, s.world);
          s
  }

  // ---------------------------------------------------------------------------
  // Properties of a retrieval

  /** The aliases whose download-finished message appears in a log, in order. */
  function Finished(ops: seq<Op>): seq<string>
    decreases |ops|
  {
    if ops == [] then []
    else
      var rest := Finished(ops[..|ops| - 1]);
      match Last(ops)
      case Output(ArtifactDownloadFinished(alias)) => rest + [alias]
      case _ => rest
  }

  lemma {:induction false} FinishedAppend(a: seq<Op>, b: seq<Op>)
    ensures Finished(a + b) == Finished(a) + Finished(b)
    decreases |b|
  {
    if b == [] {
      assert a + b == a;
    } else {
      assert (a + b)[..|a + b| - 1] == a + b[..|b| - 1];
      FinishedAppend(a, b[..|b| - 1]);
    }
  }

  lemma {:induction false} FinishedSilent(ops: seq<Op>)
    requires forall i :: 0 <= i < |ops| ==> !ops[i].Output?
    ensures Finished(ops) == []
    decreases |ops|
  {
    if ops != [] {
      FinishedSilent(ops[..|ops| - 1]);
    }
  }

  /** The part of `w2`'s log written since `w`. */
  function Since(w: World, w2: World): seq<Op>
    requires Extends(w, w2)
  {
    w2.ops[|w.ops|..]
  }

  lemma SinceSplit(w1: World, w2: World, w3: World)
    requires Extends(w1, w2) && Extends(w2, w3)
    ensures Extends(w1, w3) && Since(w1, w3) == Since(w1, w2) + Since(w2, w3)
  {
    Chain(w1, w2, w3);
    assert w3.ops[..|w2.ops|] == w2.ops;
    assert w3.ops[|w1.ops|..] == w3.ops[|w1.ops|..|w2.ops|] + w3.ops[|w2.ops|..];
  }

  lemma ProcessArtifactFinished(w: World, d: AgentArtifactDefinition, workingFolder: NString, env: Env)
    requires env.maxAttempts >= 1
    ensures var s := ProcessArtifact(w, d, workingFolder, env);
      Finished(Since(w, s.world)) == if s.error.None? then [d.alias.value] else []
  {
    var s := ProcessArtifact(w, d, workingFolder, env);
    var added := Since(w, s.world);
    if s.error.None? {
      var n := |added|;
      assert added == added[..n - 1] + [added[n - 1]];
      FinishedSilent(added[..n - 1]);
      FinishedAppend(added[..n - 1], [added[n - 1]]);
    } else {
      FinishedSilent(added);
    }
  }

  function Aliases(defs: seq<AgentArtifactDefinition>): (r: seq<string>)
    ensures |r| == |defs| && forall i :: 0 <= i < |defs| ==> r[i] == defs[i].alias.GetOr("")
  {
    seq(|defs|, i requires 0 <= i < |defs| => defs[i].alias.GetOr(""))
  }

  /** The finished messages of two consecutive stretches of a log. */
  lemma FinishedConcat(w1: World, w2: World, w3: World)
    requires Extends(w1, w2) && Extends(w2, w3)
    ensures Extends(w1, w3)
    ensures Finished(Since(w1, w3)) == Finished(Since(w1, w2)) + Finished(Since(w2, w3))
  {
    SinceSplit(w1, w2, w3);
    FinishedAppend(Since(w1, w2), Since(w2, w3));
  }

  /** The finished messages of one artifact followed by those of the rest of the list. */
  lemma FinishedCons(w1: World, w2: World, w3: World, defs: seq<AgentArtifactDefinition>)
    requires Extends(w1, w2) && Extends(w2, w3) && defs != [] && defs[0].alias.Some?
    requires Finished(Since(w1, w2)) == [defs[0].alias.value]
    requires Finished(Since(w2, w3)) == Aliases(defs[1..])
    ensures Extends(w1, w3) && Finished(Since(w1, w3)) == Aliases(defs)
  {
    FinishedConcat(w1, w2, w3);
    assert Aliases(defs) == [defs[0].alias.value] + Aliases(defs[1..]);
  }

  /** One turn of the loop: the first artifact, then the rest unless it failed. */
  lemma ProcessAllCons(w: World, defs: seq<AgentArtifactDefinition>, workingFolder: NString, env: Env)
    requires env.maxAttempts >= 1 && defs != []
    ensures var first := ProcessArtifact(w, defs[0], workingFolder, env);
      ProcessAll(w, defs, workingFolder, env)
        == if first.error.Some? then first else ProcessAll(first.world, defs[1..], workingFolder, env)
  {
  }

  /** When every artifact succeeds, each one's finished message appears once, in list order. */
  lemma {:induction false} ProcessAllFinishesInOrder(w: World, defs: seq<AgentArtifactDefinition>, workingFolder: NString, env: Env)
    requires env.maxAttempts >= 1
    ensures var s := ProcessAll(w, defs, workingFolder, env);
      s.error.None? ==> Finished(Since(w, s.world)) == Aliases(defs)
    decreases |defs|
  {
    var s := ProcessAll(w, defs, workingFolder, env);
    if defs == [] {
      assert Since(w, s.world) == [];
    } else {
      var first := ProcessArtifact(w, defs[0], workingFolder, env);
      ProcessAllCons(w, defs, workingFolder, env);
      if first.error.None? && s.error.None? {
        assert s == ProcessAll(first.world, defs[1..], workingFolder, env);
        ProcessArtifactFinished(w, defs[0], workingFolder, env);
        ProcessAllFinishesInOrder(first.world, defs[1..], workingFolder, env);
        FinishedCons(w, first.world, s.world, defs);
      }
    }
  }

  /** The run `s` is the successful run of `defs[..k]` followed by the attempt at `defs[k]`. */
  predicate FailsAt(w: World, defs: seq<AgentArtifactDefinition>, workingFolder: NString, env: Env, k: int, s: Step)
    requires env.maxAttempts >= 1
  {
    && 0 <= k < |defs|
    && ProcessAll(w, defs[..k], workingFolder, env).error.None?
    && ProcessArtifact(ProcessAll(w, defs[..k], workingFolder, env).world, defs[k], workingFolder, env) == s
  }

  /** A failure in the rest of the list is a failure of the whole list one place later. */
  lemma FailsAtCons(w: World, defs: seq<AgentArtifactDefinition>, workingFolder: NString, env: Env, k: int, s: Step)
    requires env.maxAttempts >= 1 && defs != []
    requires var first := ProcessArtifact(w, defs[0], workingFolder, env);
      first.error.None? && FailsAt(first.world, defs[1..], workingFolder, env, k, s)
    ensures FailsAt(w, defs, workingFolder, env, k + 1, s)
  {
    var first := ProcessArtifact(w, defs[0], workingFolder, env);
    var pre := defs[..k + 1];
    assert pre[0] == defs[0] && pre[1..] == defs[1..][..k];
    ProcessAllCons(w, pre, workingFolder, env);
    assert defs[k + 1] == defs[1..][k];
  }

  /** When some artifact fails, the run is exactly the successful run of the artifacts
      before it followed by the failing attempt at it. */
  lemma {:induction false} ProcessAllStopsAtFailure(w: World, defs: seq<AgentArtifactDefinition>, workingFolder: NString, env: Env)
    requires env.maxAttempts >= 1
    ensures var s := ProcessAll(w, defs, workingFolder, env);
      s.error.Some? ==> exists k :: FailsAt(w, defs, workingFolder, env, k, s)
    decreases |defs|
  {
    var s := ProcessAll(w, defs, workingFolder, env);
    if defs != [] && s.error.Some? {
      var first := ProcessArtifact(w, defs[0], workingFolder, env);
      ProcessAllCons(w, defs, workingFolder, env);
      if first.error.Some? {
        assert defs[..0] == [];
        assert FailsAt(w, defs, workingFolder, env, 0, s);
      } else {
        assert s == ProcessAll(first.world, defs[1..], workingFolder, env);
        ProcessAllStopsAtFailure(first.world, defs[1..], workingFolder, env);
        var k :| FailsAt(first.world, defs[1..], workingFolder, env, k, s);
        FailsAtCons(w, defs, workingFolder, env, k, s);
      }
    }
  }

  /** The artifacts are processed strictly in list order. When artifact `k` fails, the
      artifacts before it were downloaded and finished in order, and nothing after `k`
      is attempted. */
  lemma ProcessAllInOrder(w: World, defs: seq<AgentArtifactDefinition>, workingFolder: NString, env: Env)
    requires env.maxAttempts >= 1
    ensures var s := ProcessAll(w, defs, workingFolder, env);
      s.error.None? ==> Finished(Since(w, s.world)) == Aliases(defs)
    ensures var s := ProcessAll(w, defs, workingFolder, env);
      s.error.Some? ==> exists k :: (FailsAt(w, defs, workingFolder, env, k, s)
        && Finished(Since(w, s.world)) == Aliases(defs[..k]))
  {
    var s := ProcessAll(w, defs, workingFolder, env);
    ProcessAllFinishesInOrder(w, defs, workingFolder, env);
    ProcessAllStopsAtFailure(w, defs, workingFolder, env);
    if s.error.Some? {
      var k :| FailsAt(w, defs, workingFolder, env, k, s);
      var pre := ProcessAll(w, defs[..k], workingFolder, env);
      ProcessAllFinishesInOrder(w, defs[..k], workingFolder, env);
      ProcessArtifactFinished(pre.world, defs[k], workingFolder, env);
      FinishedConcat(w, pre.world, s.world);
    }
  }

  /** "RMArtifactsDownloadFinished" is written exactly when every artifact succeeded. */
  lemma BatchFinishedIffAllSucceeded(w: World, defs: seq<AgentArtifactDefinition>, workingFolder: NString, env: Env)
    requires env.maxAttempts >= 1
    ensures var s := DownloadAll(w, defs, workingFolder, env);
      s.error.None? <==> exists i :: |w.ops| <= i < |s.world.ops| && s.world.ops[i] == Output(ArtifactsDownloadFinished)
  {
    var p := ProcessAll(w, defs, workingFolder, env);
    var s := DownloadAll(w, defs, workingFolder, env);
    if s.error.None? {
      assert s.world.ops[|p.world.ops|] == Output(ArtifactsDownloadFinished);
    }
  }

  /** Between `w` and `w2` the folder `f` was created before any download started. */
  predicate CreatedBeforeDownloads(w: World, w2: World, f: string) {
    exists j :: |w.ops| <= j < |w2.ops| && w2.ops[j] == CreateDirectory(f)
      && forall i :: |w.ops| <= i < j ==> !w2.ops[i].Download?
  }

  /** A stretch that ends with the creation of `f` and downloads nothing, followed by
      anything at all, creates `f` before its first download. */
  lemma CreationThenAnything(w: World, reset: World, s: World, f: string)
    requires Extends(w, reset) && Extends(reset, s) && NoDownloadSince(w, reset)
    requires |w.ops| < |reset.ops| && Last(reset.ops) == CreateDirectory(f)
    ensures CreatedBeforeDownloads(w, s, f)
  {
    var j := |reset.ops| - 1;
    assert s.ops[j] == reset.ops[j] by { assert s.ops[..|reset.ops|] == reset.ops; }
    forall i | |w.ops| <= i < j
      ensures !s.ops[i].Download?
    {
      assert s.ops[i] == s.ops[..|reset.ops|][i];
    }
  }

  /** No artifact is downloaded before the working folder has been created afresh: a
      retrieval either downloads nothing, or its log holds a creation of the working
      folder before the first download. */
  lemma ResetPrecedesDownloads(w: World, fetched: Result<seq<AgentArtifactDefinition>, Exn>, parse: JsonParser,
                               workingFolder: NString, env: Env)
    requires env.maxAttempts >= 1
    ensures var s := Retrieve(w, fetched, parse, workingFolder, env);
      NoDownloadSince(w, s.world) || (workingFolder.Some? && CreatedBeforeDownloads(w, s.world, workingFolder.value))
  {
    if fetched.Ok? && Filtered(fetched.value, parse).Ok? {
      var reset := Retry(w, ResetWorkingFolder(workingFolder), CleanupRetry, env.maxAttempts);
      RetryKeepsLog(w, ResetWorkingFolder(workingFolder), CleanupRetry, env.maxAttempts);
      if reset.error.None? {
        var s := DownloadAll(reset.world, Filtered(fetched.value, parse).value, workingFolder, env);
        CreationThenAnything(w, reset.world, s.world, workingFolder.value);
      }
    }
  }

  /** Every download in a retrieval's log follows right after the clean-up of the folder
      it downloads into. */
  lemma CleanupPrecedesEveryDownload(w: World, fetched: Result<seq<AgentArtifactDefinition>, Exn>, parse: JsonParser,
                                     workingFolder: NString, env: Env)
    requires env.maxAttempts >= 1
    requires DownloadsCleaned(w.ops)
    ensures var s := Retrieve(w, fetched, parse, workingFolder, env);
      forall i :: 0 <= i < |s.world.ops| && s.world.ops[i].Download? ==>
        0 < i && s.world.ops[i - 1] == CleanupDirectory(s.world.ops[i].folder)
  {
  }

  // ---------------------------------------------------------------------------
  // Failure scenarios

  /** A working folder whose deletion is refused on every attempt: the clean-up predicate
      keeps retrying, and the wrapped permission error escapes once the attempts run out. */
  lemma {:induction false} ResetPermissionDenied(w: World, f: string, n: nat)
    requires n >= 1 && f in w.dirs && |w.faults| >= n
    requires forall k :: 0 <= k < n ==> w.faults[k] == Some(UnauthorizedAccess)
    ensures var r := Retry(w, ResetWorkingFolder(Some(f)), CleanupRetry, n);
      r.error == Some(ArtifactCleanupFailed(f, UnauthorizedAccess)) && r.attempts == n
      && r.world.dirs == w.dirs && r.world.faults == w.faults[n..]
    decreases n
  {
    var s := Attempt(w, ResetWorkingFolder(Some(f)));
    assert s.world.faults == w.faults[1..];
    if n > 1 {
      ResetPermissionDenied(s.world, f, n - 1);
      assert w.faults[1..][n - 1..] == w.faults[n..];
    }
  }

  /** ... so the whole retrieval stops with a user error and downloads nothing. */
  lemma PermissionDeniedAbortsRetrieval(w: World, defs: seq<AgentArtifactDefinition>, parse: JsonParser, f: string, env: Env)
    requires env.maxAttempts >= 1 && f in w.dirs && |w.faults| >= env.maxAttempts
    requires forall k :: 0 <= k < env.maxAttempts ==> w.faults[k] == Some(UnauthorizedAccess)
    requires Filtered(defs, parse).Ok?
    ensures var s := Retrieve(w, Ok(defs), parse, Some(f), env);
      s.error == Some(ArtifactCleanupFailed(f, UnauthorizedAccess)) && IsUserError(s.error.value)
      && NoDownloadSince(w, s.world)
  {
    ResetPermissionDenied(w, f, env.maxAttempts);
    RetryKeepsLog(w, ResetWorkingFolder(Some(f)), CleanupRetry, env.maxAttempts);
  }

  /** A clean-up of an artifact's folder that fails twice with a transient error and then
      succeeds: the executor retries until it succeeds and the download goes ahead. */
  lemma TransientCleanupRecovers(dirs: set<string>, folder: string, artifact: ArtifactDefinition, e: Exn)
    requires !e.DirectoryNotFound? && !e.UnauthorizedAccess? && !e.ArtifactDownloadFailed?
    ensures var w := World(dirs, [Some(e), Some(e), None, None], []);
      var r := Retry(w, CleanAndDownload(folder, artifact), DownloadRetry, 3);
      r.error.None? && r.attempts == 3
      && r.world.ops == [CleanupDirectory(folder), CleanupDirectory(folder), CleanupDirectory(folder), Download(artifact, folder)]
  {
    var w := World(dirs, [Some(e), Some(e), None, None], []);
    var s1 := Attempt(w, CleanAndDownload(folder, artifact));
    assert s1.error == Some(e) && s1.world.faults == [Some(e), None, None];
    var s2 := Attempt(s1.world, CleanAndDownload(folder, artifact));
    assert s2.error == Some(e) && s2.world.faults == [None, None];
    var s3 := Attempt(s2.world, CleanAndDownload(folder, artifact));
    assert s3.error.None?;
  }

  /** Three artifacts where the second download raises the download exception: the first
      is downloaded and finished, the second fails at once, the third is never touched,
      and the failure is a user error. */
  lemma SecondDownloadFails(a: AgentArtifactDefinition, b: AgentArtifactDefinition, c: AgentArtifactDefinition,
                            env: Env, folderA: string, folderB: string, reason: string)
    requires env.maxAttempts >= 1
    requires !IsNullOrEmpty(a.alias) && !IsNullOrEmpty(b.alias)
    requires FindExtension(env.registry, a.artifactType).Some? && FindExtension(env.registry, b.artifactType).Some?
    requires ConvertToArtifactDefinition(a, env.registry[FindExtension(env.registry, a.artifactType).value]).Ok?
    requires ConvertToArtifactDefinition(b, env.registry[FindExtension(env.registry, b.artifactType).value]).Ok?
    requires DownloadFolder(env.os, Some("w"), a.alias.value) == Ok(folderA)
    requires DownloadFolder(env.os, Some("w"), b.alias.value) == Ok(folderB)
    ensures var w := World({}, [None, None, None, Some(ArtifactDownloadFailed(reason))], []);
      var s := DownloadAll(w, [a, b, c], Some("w"), env);
      s.error == Some(ArtifactDownloadFailed(reason)) && IsUserError(s.error.value)
      && |s.world.ops| == 5
      && s.world.ops[0] == CleanupDirectory(folderA) && s.world.ops[1].Download?
      && s.world.ops[2] == Output(ArtifactDownloadFinished(a.alias.value))
      && s.world.ops[3] == CleanupDirectory(folderB) && s.world.ops[4].Download?
  {
    var w := World({}, [None, None, None, Some(ArtifactDownloadFailed(reason))], []);
    var s1 := ProcessArtifact(w, a, Some("w"), env);
    var artA := ConvertToArtifactDefinition(a, env.registry[FindExtension(env.registry, a.artifactType).value]).value;
    var d1 := Attempt(w, CleanAndDownload(folderA, artA));
    assert d1.error.None? && d1.world.faults == [None, Some(ArtifactDownloadFailed(reason))];
    assert d1.world.ops == [CleanupDirectory(folderA), Download(artA, folderA)];
    var r1 := Retry(w, CleanAndDownload(folderA, artA), DownloadRetry, env.maxAttempts);
    assert r1.world == d1.world && r1.error.None?;
    assert s1 == Step(Emit(d1.world, ArtifactDownloadFinished(a.alias.value)), None);
    var artB := ConvertToArtifactDefinition(b, env.registry[FindExtension(env.registry, b.artifactType).value]).value;
    var d2 := Attempt(s1.world, CleanAndDownload(folderB, artB));
    assert d2.error == Some(ArtifactDownloadFailed(reason));
    assert d2.world.ops == s1.world.ops + [CleanupDirectory(folderB), Download(artB, folderB)];
    var r2 := Retry(s1.world, CleanAndDownload(folderB, artB), DownloadRetry, env.maxAttempts);
    assert r2.world == d2.world && r2.error == d2.error;
    var s2 := ProcessArtifact(s1.world, b, Some("w"), env);
    assert s2 == Step(d2.world, d2.error);
    assert [a, b, c][1..] == [b, c];
    assert ProcessAll(w, [a, b, c], Some("w"), env) == ProcessAll(s1.world, [b, c], Some("w"), env);
    assert ProcessAll(s1.world, [b, c], Some("w"), env) == s2;
  }
}
