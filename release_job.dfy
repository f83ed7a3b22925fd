/** The ReleaseJobExtension object: the four fields InitializeJobExtension sets and
    GetArtifactsAsync reads, and the methods that drive a retrieval step by step
    (ReleaseJobExtension.cs:26-29, 105-340). */
module ReleaseJob {
  import opened Base
  import opened Platform
  import opened Context
  import opened Artifacts
  import opened Workspace
  import opened RetryExecutor
  import opened Release

  /** `Guid.Empty.ToString()` */
  const EmptyGuid: string := "00000000-0000-0000-0000-000000000000"

  /** `ReleaseServer.GetReleaseArtifactsFromService`, given the team project and the
      release: the artifacts it lists, or the exception the call raises. */
  type ReleaseService = (string, int) -> Result<seq<AgentArtifactDefinition>, Exn>

  /** `Variables.GetInt`, `GetGuid` and `GetBoolean` on a variable's text: `None` when the
      text does not parse. */
  datatype VariableParsers = VariableParsers(
    getInt: string -> Option<int>,
    getGuid: string -> Option<string>,
    getBoolean: string -> Option<bool>)

  /** A typed variable read: null when the variable is unset or does not parse, and then
      replaced by the default (`?? default`). */
  function ParsedOr<T>(value: NString, parse: string -> Option<T>, default: T): (r: T)
    ensures value.Some? && parse(value.value).Some? ==> r == parse(value.value).value
    ensures value.None? || parse(value.value).None? ==> r == default
  {
    if value.None? then default else parse(value.value).GetOr(default)
  }

  /** The work folder, `IReleaseDirectoryManager.PrepareArtifactsDirectory` as a map from
      the release-definition key to the release directory it assigns, and the name of
      the artifacts sub-directory. */
  datatype ReleaseDirectories = ReleaseDirectories(
    workPath: string,
    prepare: string -> string,
    artifactsDirectoryName: string)

  /** `regex.Replace(name, "")` with the character class of every invalid file-name and
      path character: those characters removed, every other one kept in order. */
  function RemoveChars(s: string, removed: set<char>): (r: string)
    ensures IsSubsequence(r, s)
    ensures forall c :: c in r <==> c in s && c !in removed
    ensures forall c :: c !in removed ==> multiset(r)[c] == multiset(s)[c]
    decreases |s|
  {
    if s == [] then []
    else
      var rest := RemoveChars(s[1..], removed);
      assert s == [s[0]] + s[1..];
      if s[0] in removed then
        rest
      else
        var r := [s[0]] + rest;
        assert r[0] == s[0] && r[1..] == rest;
        r
  }

  /** ReleaseJobExtension.cs:272-278: the key the release directory is prepared under:
      the definition id when set, else the definition name with the invalid characters
      removed. A null name makes `Regex.Replace` throw. */
  function DefinitionKey(os: Os, definitionId: NString, definitionName: NString): (r: Result<string, Exn>)
    ensures !IsNullOrEmpty(definitionId) ==> r == Ok(definitionId.value)
    ensures IsNullOrEmpty(definitionId) && definitionName.None? ==> r == Err(ArgumentError("input"))
    ensures IsNullOrEmpty(definitionId) && definitionName.Some? ==>
      (r.Ok? && IsSubsequence(r.value, definitionName.value)
       && (forall c :: c in r.value <==> c in definitionName.value && c !in os.invalidFileNameChars && c !in os.invalidPathChars)
       && forall c :: c !in os.invalidFileNameChars && c !in os.invalidPathChars ==>
            multiset(r.value)[c] == multiset(definitionName.value)[c])
  {
    if !IsNullOrEmpty(definitionId) then Ok(definitionId.value)
    else if definitionName.None? then Err(ArgumentError("input"))
    else Ok(RemoveChars(definitionName.value, os.invalidFileNameChars + os.invalidPathChars))
  }

  /** ReleaseJobExtension.cs:286-289 */
  function WorkingFolder(os: Os, dirs: ReleaseDirectories, key: string): string {
    os.combine(os.combine(dirs.workPath, dirs.prepare(key)), dirs.artifactsDirectoryName)
  }

  /** The variables after SetLocalVariables (ReleaseJobExtension.cs:316-320). */
  function LocalVariables(vars: map<Var, NString>, path: string): (r: map<Var, NString>)
    ensures r.Keys == vars.Keys + {AgentReleaseDirectory, ArtifactsDirectory, DefaultWorkingDirectory}
    ensures r[AgentReleaseDirectory] == r[ArtifactsDirectory] == r[DefaultWorkingDirectory] == Some(path)
    ensures forall v :: v in vars && v !in {AgentReleaseDirectory, ArtifactsDirectory, DefaultWorkingDirectory} ==> r[v] == vars[v]
  {
    vars[AgentReleaseDirectory := Some(path)][ArtifactsDirectory := Some(path)][DefaultWorkingDirectory := Some(path)]
  }

  /** CreateWorkingFolderIfRequired (ReleaseJobExtension.cs:332-340). */
  function CreateIfMissing(w: World, folder: string): (s: Step)
    ensures folder in w.dirs ==> s == Step(w, None)
    ensures folder !in w.dirs ==> s.world.ops == w.ops + [CreateDirectory(folder)]
    ensures s.error.None? ==> folder in s.world.dirs
  {
    if folder in w.dirs then Step(w, None) else Call(w, CreateDirectory(folder))
  }

  class ReleaseJobExtension {
    var releaseId: int
    var teamProjectId: string
    var artifactsWorkingFolder: NString
    var skipArtifactsDownload: bool

    constructor ()
      ensures releaseId == 0 && teamProjectId == EmptyGuid
      ensures artifactsWorkingFolder.None? && !skipArtifactsDownload
    {
      releaseId := 0;
      teamProjectId := EmptyGuid;
      artifactsWorkingFolder := None;
      skipArtifactsDownload := false;
    }

    /** One pass of the loop of ReleaseJobExtension.cs:156-215. */
    method DownloadArtifact(w: World, d: AgentArtifactDefinition, workingFolder: NString, env: Env)
      returns (world: World, error: Option<Exn>)
      requires env.maxAttempts >= 1
      ensures Step(world, error) == ProcessArtifact(w, d, workingFolder, env)
    {
      if IsNullOrEmpty(d.alias) {
        return w, Some(ArgumentError("Alias"));
      }
      var ext := FindExtension(env.registry, d.artifactType);
      if ext.None? {
        return w, Some(ArtifactTypeNotSupported);
      }
      var artifact := ConvertToArtifactDefinition(d, env.registry[ext.value]);
      if artifact.Err? {
        return w, Some(artifact.error);
      }
      var folder := DownloadFolder(env.os, workingFolder, d.alias.value);
      if folder.Err? {
        return w, Some(folder.error);
      }
      var attempts;
      world, error, attempts := Execute(w, CleanAndDownload(folder.value, artifact.value), DownloadRetry, env.maxAttempts);
      if error.None? {
        world := Emit(world, ArtifactDownloadFinished(d.alias.value));
      }
    }

    /** `DownloadArtifacts(executionContext, agentArtifactDefinitions, artifactsWorkingFolder)`
        (ReleaseJobExtension.cs:152-218). */
    method DownloadArtifacts(w: World, defs: seq<AgentArtifactDefinition>, workingFolder: NString, env: Env)
      returns (world: World, error: Option<Exn>)
      requires env.maxAttempts >= 1
      ensures Step(world, error) == DownloadAll(w, defs, workingFolder, env)
    {
      world := w;
      var i := 0;
      assert defs[0..] == defs;
      while i < |defs|
        invariant 0 <= i <= |defs|
        invariant ProcessAll(w, defs, workingFolder, env) == ProcessAll(world, defs[i..], workingFolder, env)
      {
        assert defs[i..][0] == defs[i] && defs[i..][1..] == defs[i + 1..];
        var e;
        world, e := DownloadArtifact(world, defs[i], workingFolder, env);
        if e.Some? {
          return world, e;
        }
        i := i + 1;
      }
      assert defs[i..] == [];
      world := Emit(world, ArtifactsDownloadFinished);
      error := None;
    }

    /** ReleaseJobExtension.cs:220-254 */
    method CleanUpArtifactsFolder(w: World, workingFolder: NString, maxAttempts: nat)
      returns (world: World, error: Option<Exn>)
      requires maxAttempts >= 1
      ensures var r := Retry(w, ResetWorkingFolder(workingFolder), CleanupRetry, maxAttempts);
        world == r.world && error == r.error
      ensures error.None? ==> workingFolder.Some? && workingFolder.value in world.dirs
      ensures error.Some? ==> !error.value.DirectoryNotFound? && !error.value.UnauthorizedAccess?
    {
      var attempts;
      world, error, attempts := Execute(w, ResetWorkingFolder(workingFolder), CleanupRetry, maxAttempts);
      RetryKeepsLog(w, ResetWorkingFolder(workingFolder), CleanupRetry, maxAttempts);
      if error.Some? {
        ResetErrorsWrapped(w, workingFolder, maxAttempts);
      }
    }

    /** `DownloadArtifacts(executionContext, teamProjectId, artifactsWorkingFolder, releaseId)`
        from the service call on (ReleaseJobExtension.cs:144-149). */
    method DownloadReleaseArtifacts(w: World, service: ReleaseService, parse: JsonParser,
                                    teamProject: string, release: int, workingFolder: NString, env: Env)
      returns (world: World, error: Option<Exn>)
      requires env.maxAttempts >= 1
      ensures Step(world, error) == Retrieve(w, service(teamProject, release), parse, workingFolder, env)
    {
      var fetched := service(teamProject, release);
      if fetched.Err? {
        return w, Some(fetched.error);
      }
      var filtered := FilterArtifactDefinitions(fetched.value, parse);
      if filtered.Err? {
        return w, Some(filtered.error);
      }
      world, error := CleanUpArtifactsFolder(w, workingFolder, env.maxAttempts);
      if error.Some? {
        return;
      }
      world, error := DownloadArtifacts(world, filtered.value, workingFolder, env);
    }

    /** ReleaseJobExtension.cs:105-126: nothing at all when downloads are skipped;
        otherwise the retrieval, with one failure issue recorded before the exception is
        rethrown. */
    method GetArtifactsAsync(ctx: ExecutionContext, w: World, service: ReleaseService, parse: JsonParser,
                             env: Env, agentVersion: string)
      returns (world: World, error: Option<Exn>)
      requires env.maxAttempts >= 1
      modifies ctx
      ensures skipArtifactsDownload ==> world == w && error.None? && ctx.issues == old(ctx.issues)
      ensures !skipArtifactsDownload ==>
        Step(world, error) == Retrieve(w, service(teamProjectId, releaseId), parse, artifactsWorkingFolder, env)
      ensures ctx.issues == old(ctx.issues) + if error.Some? then [FailureIssue(error.value, agentVersion)] else []
      ensures ctx.variables == old(ctx.variables) && ctx.hostType == old(ctx.hostType)
      ensures ctx.outputVariables == old(ctx.outputVariables)
    {
      if skipArtifactsDownload {
        return w, None;
      }
      world, error := DownloadReleaseArtifacts(w, service, parse, teamProjectId, releaseId, artifactsWorkingFolder, env);
      if error.Some? {
        ctx.AddIssue(FailureIssue(error.value, agentVersion));
      }
    }

    /** ReleaseJobExtension.cs:311-321 */
    method SetLocalVariables(ctx: ExecutionContext, path: string)
      modifies ctx
      ensures ctx.variables == LocalVariables(old(ctx.variables), path)
      ensures ctx.hostType == old(ctx.hostType) && ctx.outputVariables == old(ctx.outputVariables)
      ensures ctx.issues == old(ctx.issues)
    {
      ctx.Set(AgentReleaseDirectory, Some(path));
      ctx.Set(ArtifactsDirectory, Some(path));
      ctx.Set(DefaultWorkingDirectory, Some(path));
    }

    /** ReleaseJobExtension.cs:256-309: read the release variables into the fields, work
        out the artifacts folder, publish it, and create it when downloads are skipped. */
    method InitializeJobExtension(ctx: ExecutionContext, os: Os, parsers: VariableParsers,
                                  dirs: ReleaseDirectories, w: World)
      returns (world: World, error: Option<Exn>)
      modifies this, ctx
      ensures releaseId == ParsedOr(old(ctx.Get(Var.ReleaseId)), parsers.getInt, 0)
      ensures teamProjectId == ParsedOr(old(ctx.Get(TeamProjectId)), parsers.getGuid, EmptyGuid)
      ensures skipArtifactsDownload == ParsedOr(old(ctx.Get(SkipArtifactsDownload)), parsers.getBoolean, false)
      ensures var key := DefinitionKey(os, old(ctx.Get(ReleaseDefinitionId)), old(ctx.Get(ReleaseDefinitionName)));
        key.Err? ==>
          (error == Some(key.error) && world == w
           && ctx.variables == old(ctx.variables) && artifactsWorkingFolder == old(artifactsWorkingFolder))
      ensures var key := DefinitionKey(os, old(ctx.Get(ReleaseDefinitionId)), old(ctx.Get(ReleaseDefinitionName)));
        key.Ok? ==>
          var folder := WorkingFolder(os, dirs, key.value);
          && artifactsWorkingFolder == Some(folder)
          && ctx.variables == LocalVariables(old(ctx.variables), folder)
          && (skipArtifactsDownload ==> Step(world, error) == CreateIfMissing(w, folder))
          && (!skipArtifactsDownload ==> world == w && error.None?)
      ensures ctx.hostType == old(ctx.hostType) && ctx.outputVariables == old(ctx.outputVariables)
      ensures ctx.issues == old(ctx.issues)
    {
      releaseId := ParsedOr(ctx.Get(Var.ReleaseId), parsers.getInt, 0);
      teamProjectId := ParsedOr(ctx.Get(TeamProjectId), parsers.getGuid, EmptyGuid);
      skipArtifactsDownload := ParsedOr(ctx.Get(SkipArtifactsDownload), parsers.getBoolean, false);
      var releaseDefinitionName := ctx.Get(ReleaseDefinitionName);
      var key := DefinitionKey(os, ctx.Get(ReleaseDefinitionId), releaseDefinitionName);
      if key.Err? {
        return w, Some(key.error);
      }
      var folder := WorkingFolder(os, dirs, key.value);
      artifactsWorkingFolder := Some(folder);
      SetLocalVariables(ctx, folder);
      world, error := w, None;
      if skipArtifactsDownload {
        var s := CreateIfMissing(w, folder);
        world, error := s.world, s.error;
      }
    }
  }

  /** A failed working-folder reset never lets a missing-directory or permission error
      through unwrapped. */
  lemma {:induction false} ResetErrorsWrapped(w: World, workingFolder: NString, maxAttempts: nat)
    requires maxAttempts >= 1
    ensures var r := Retry(w, ResetWorkingFolder(workingFolder), CleanupRetry, maxAttempts);
      r.error.Some? ==> !r.error.value.DirectoryNotFound? && !r.error.value.UnauthorizedAccess?
    decreases maxAttempts
  {
    var s := Attempt(w, ResetWorkingFolder(workingFolder));
    if s.error.Some? && maxAttempts > 1 {
      ResetErrorsWrapped(s.world, workingFolder, maxAttempts - 1);
    }
  }
}
