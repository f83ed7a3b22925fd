/** The environment the release job extension acts on: the directories that exist, the
    answers the filesystem and the artifact extensions will give to the next fallible
    calls, and the log of every call made and every message the model tracks. One
    attempt of each retried operation (ReleaseJobExtension.cs:198-212 and 236-250) is a
    function of this environment. */
module Workspace {
  import opened Base
  import opened Artifacts

  /** The job-output messages whose order the properties talk about. */
  datatype Message = ArtifactDownloadFinished(alias: string) | ArtifactsDownloadFinished

  /** A filesystem call, an extension download, or a message written to the job output. */
  datatype Op =
    | DeleteDirectory(path: string)               // IOUtil.DeleteDirectory
    | CreateDirectory(path: string)               // Directory.CreateDirectory
    | CleanupDirectory(path: string)              // IReleaseFileSystemManager.CleanupDirectory
    | Download(artifact: ArtifactDefinition, folder: string)  // IArtifactExtension.DownloadAsync
    | Output(message: Message)

  /** `faults` scripts the environment: the k-th fallible call made from now on fails
      with `faults[k]` when that is `Some`, and succeeds when it is `None` or when the
      script has run out. */
  datatype World = World(dirs: set<string>, faults: seq<Option<Exn>>, ops: seq<Op>)

  /** The world after a call, and the exception the call threw, if any. */
  datatype Step = Step(world: World, error: Option<Exn>)

  /** What a successful call does to the directories. */
  function Effect(dirs: set<string>, op: Op): set<string> {
    match op
    case DeleteDirectory(p) => dirs - {p}
    case CreateDirectory(p) => dirs + {p}
    case CleanupDirectory(p) => dirs + {p}
    case _ => dirs
  }

  /** One fallible call: logged, then failing or taking effect as the script says. */
  function Call(w: World, op: Op): (s: Step)
    ensures s.world.ops == w.ops + [op]
    ensures s.error.None? ==> s.world.dirs == Effect(w.dirs, op)
    ensures s.error.Some? ==> s.world.dirs == w.dirs
    ensures s.error.Some? <==> w.faults != [] && w.faults[0].Some?
  {
    var fault := if w.faults == [] then None else w.faults[0];
    var rest := if w.faults == [] then [] else w.faults[1..];
    if fault.Some? then Step(World(w.dirs, rest, w.ops + [op]), fault)
    else Step(World(Effect(w.dirs, op), rest, w.ops + [op]), None)
  }

  /** `executionContext.Output(...)` for a tracked message. */
  function Emit(w: World, m: Message): (w': World)
    ensures w'.ops == w.ops + [Output(m)] && w'.dirs == w.dirs && w'.faults == w.faults
  {
    w.(ops := w.ops + [Output(m)])
  }

  /** A missing directory or a refused access during a clean-up is rethrown as a clean-up
      failure of `path` carrying the original exception; any other exception passes
      through as it is. */
  function Wrap(path: string, e: Exn): (r: Exn)
    ensures !r.DirectoryNotFound? && !r.UnauthorizedAccess?
    ensures (e.DirectoryNotFound? || e.UnauthorizedAccess?) <==> r == ArtifactCleanupFailed(path, e)
    ensures !(e.DirectoryNotFound? || e.UnauthorizedAccess?) ==> r == e
  {
    if e.DirectoryNotFound? || e.UnauthorizedAccess? then ArtifactCleanupFailed(path, e) else e
  }

  // ---------------------------------------------------------------------------
  // Properties of call logs

  /** `w2` was reached from `w` by appending to the log. */
  predicate Extends(w: World, w2: World) {
    |w.ops| <= |w2.ops| && w2.ops[..|w.ops|] == w.ops
  }

  /** Every download in the log comes right after the clean-up of its own folder. */
  ghost predicate DownloadsCleaned(ops: seq<Op>) {
    && (ops != [] ==> !ops[0].Download?)
    && forall i, j {:trigger ops[i], ops[j]} :: 0 <= i && j == i + 1 && j < |ops| && ops[j].Download? ==>
         ops[i] == CleanupDirectory(ops[j].folder)
  }

  /** No message was written between `w` and `w2`. */
  predicate NoOutputSince(w: World, w2: World) {
    forall i :: |w.ops| <= i < |w2.ops| ==> !w2.ops[i].Output?
  }

  /** No download was started between `w` and `w2`. */
  predicate NoDownloadSince(w: World, w2: World) {
    forall i :: |w.ops| <= i < |w2.ops| ==> !w2.ops[i].Download?
  }

  /** The batch-finished message was not written between `w` and `w2`. */
  predicate NoBatchFinishSince(w: World, w2: World) {
    forall i :: |w.ops| <= i < |w2.ops| ==> w2.ops[i] != Output(ArtifactsDownloadFinished)
  }

  /** Log properties of two consecutive stretches hold of their concatenation. */
  lemma Chain(w1: World, w2: World, w3: World)
    requires Extends(w1, w2) && Extends(w2, w3)
    ensures Extends(w1, w3)
    ensures NoOutputSince(w1, w2) && NoOutputSince(w2, w3) ==> NoOutputSince(w1, w3)
    ensures NoDownloadSince(w1, w2) && NoDownloadSince(w2, w3) ==> NoDownloadSince(w1, w3)
    ensures NoBatchFinishSince(w1, w2) && NoBatchFinishSince(w2, w3) ==> NoBatchFinishSince(w1, w3)
  {
    assert w3.ops[..|w1.ops|] == w3.ops[..|w2.ops|][..|w1.ops|];
    forall i | |w1.ops| <= i < |w2.ops|
      ensures w3.ops[i] == w2.ops[i]
    {
      assert w3.ops[..|w2.ops|][i] == w3.ops[i];
    }
  }

  function Last(ops: seq<Op>): Op
    requires ops != []
  {
    ops[|ops| - 1]
  }

  /** The log ends with the clean-up of `folder` followed by the download into it. */
  predicate EndsWithDownload(ops: seq<Op>, folder: string, artifact: ArtifactDefinition) {
    |ops| >= 2 && ops[|ops| - 2] == CleanupDirectory(folder) && ops[|ops| - 1] == Download(artifact, folder)
  }

  // ---------------------------------------------------------------------------
  // One attempt of a retried operation

  datatype Action =
    | ResetWorkingFolder(path: NString)                       // ReleaseJobExtension.cs:236-250
    | CleanAndDownload(folder: string, artifact: ArtifactDefinition)  // ReleaseJobExtension.cs:200-211

  /** ReleaseJobExtension.cs:240-249: delete the folder if it exists, then create it.
      A null folder is refused by `Directory.CreateDirectory` before any call is made. */
  function ResetAttempt(w: World, path: NString): (s: Step)
    ensures Extends(w, s.world) && NoOutputSince(w, s.world) && NoDownloadSince(w, s.world)
    ensures s.error.Some? ==> !s.error.value.DirectoryNotFound? && !s.error.value.UnauthorizedAccess?
    ensures s.error.None? ==>
      (path.Some? && path.value in s.world.dirs && s.world.ops != [] && Last(s.world.ops) == CreateDirectory(path.value))
    ensures path.Some? && path.value !in w.dirs ==> s.world.ops == w.ops + [CreateDirectory(path.value)]
  {
    if path.None? then Step(w, Some(ArgumentError("path")))
    else
      var f := path.value;
      var deleted := if f in w.dirs then Call(w, DeleteDirectory(f)) else Step(w, None);
      if deleted.error.Some? then Step(deleted.world, Some(Wrap(f, deleted.error.value)))
      else
        var created := Call(deleted.world, CreateDirectory(f));
        if created.error.Some? then Step(created.world, Some(Wrap(f, created.error.value)))
        else created
  }

  /** One reset attempt deletes the folder only when it exists, and creates it whenever
      that deletion (if any) succeeded. */
  lemma ResetDeletesOnlyExisting(w: World, f: string)
    ensures var s := ResetAttempt(w, Some(f));
      && (f !in w.dirs ==> s.world.ops == w.ops + [CreateDirectory(f)])
      && (f in w.dirs ==>
            s.world.ops == w.ops + [DeleteDirectory(f)]
            || s.world.ops == w.ops + [DeleteDirectory(f), CreateDirectory(f)])
      && (s.error.None? ==> Last(s.world.ops) == CreateDirectory(f) && f in s.world.dirs)
      && (f in w.dirs && s.error.None? ==> s.world.ops == w.ops + [DeleteDirectory(f), CreateDirectory(f)])
  {
  }

  /** ReleaseJobExtension.cs:201-211: clean the artifact's folder, then download into it. */
  function DownloadAttempt(w: World, folder: string, artifact: ArtifactDefinition): (s: Step)
    ensures Extends(w, s.world) && NoOutputSince(w, s.world)
    ensures DownloadsCleaned(w.ops) ==> DownloadsCleaned(s.world.ops)
    ensures s.world.ops == w.ops + [CleanupDirectory(folder)]
         || s.world.ops == w.ops + [CleanupDirectory(folder), Download(artifact, folder)]
    ensures s.error.None? ==> s.world.ops == w.ops + [CleanupDirectory(folder), Download(artifact, folder)]
  {
    var cleaned := Call(w, CleanupDirectory(folder));
    if cleaned.error.Some? then Step(cleaned.world, Some(Wrap(folder, cleaned.error.value)))
    else Call(cleaned.world, Download(artifact, folder))
  }

  /** An attempt is the clean-up, then the download only after a clean-up that worked;
      a failed clean-up ends the attempt with its exception wrapped. */
  lemma DownloadAttemptSteps(w: World, folder: string, artifact: ArtifactDefinition)
    ensures var c := Call(w, CleanupDirectory(folder));
      var s := DownloadAttempt(w, folder, artifact);
      && (c.error.Some? ==> s.error == Some(Wrap(folder, c.error.value)) && s.world == c.world)
      && (c.error.None? ==> s == Call(c.world, Download(artifact, folder)))
  {
  }

  /** One attempt of either retried action. */
  function Attempt(w: World, a: Action): Step {
    match a
    case ResetWorkingFolder(path) => ResetAttempt(w, path)
    case CleanAndDownload(folder, artifact) => DownloadAttempt(w, folder, artifact)
  }

  /** An attempt of either action only appends to the log, writes no message and keeps
      each download right after its folder's clean-up; a reset downloads nothing, and a
      successful one leaves the folder existing with its creation appended last. */
  lemma AttemptKeepsLog(w: World, a: Action)
    ensures var s := Attempt(w, a);
      && Extends(w, s.world) && NoOutputSince(w, s.world)
      && (DownloadsCleaned(w.ops) ==> DownloadsCleaned(s.world.ops))
      && (a.ResetWorkingFolder? ==> NoDownloadSince(w, s.world))
      && (a.ResetWorkingFolder? && s.error.None? ==>
            a.path.Some? && a.path.value in s.world.dirs && |w.ops| < |s.world.ops|
            && Last(s.world.ops) == CreateDirectory(a.path.value))
  {
    if a.ResetWorkingFolder? && a.path.Some? {
      ResetDeletesOnlyExisting(w, a.path.value);
    }
  }
}
