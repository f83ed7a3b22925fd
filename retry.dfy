/** RetryExecutor as the release job extension uses it: run an attempt; on an exception
    ask the caller's predicate; retry while it says so and attempts remain, otherwise let
    the exception propagate (ReleaseJobExtension.cs:178-212 and 224-251). Backoff delays
    and cancellation are not modelled; `maxAttempts` stands for the executor's bound. */
module RetryExecutor {
  import opened Base
  import opened Artifacts
  import opened Workspace

  /** The two `ShouldRetryAction` predicates the extension installs. */
  datatype Policy =
    | DownloadRetry   // ReleaseJobExtension.cs:179-195
    | CleanupRetry    // ReleaseJobExtension.cs:225-231

  predicate ShouldRetry(p: Policy, e: Exn) {
    match p
    case DownloadRetry => !e.ArtifactDownloadFailed?
    case CleanupRetry => true
  }

  /** The download predicate refuses exactly the download exception; the clean-up
      predicate refuses nothing. */
  lemma PoliciesDecide(e: Exn)
    ensures !ShouldRetry(DownloadRetry, e) <==> e.ArtifactDownloadFailed?
    ensures ShouldRetry(CleanupRetry, e)
    ensures !ShouldRetry(DownloadRetry, e) ==> IsUserError(e)
  {
  }

  /** The world when the executor returns, the exception it lets through, and the number
      of attempts it made. */
  datatype RetryOutcome = RetryOutcome(world: World, error: Option<Exn>, attempts: nat)

  function Retry(w: World, a: Action, p: Policy, maxAttempts: nat): (r: RetryOutcome)
    requires maxAttempts >= 1
    ensures 1 <= r.attempts <= maxAttempts
    ensures r.error.Some? && r.attempts < maxAttempts ==> !ShouldRetry(p, r.error.value)
    decreases maxAttempts
  {
    var s := Attempt(w, a);
    if s.error.None? then RetryOutcome(s.world, None, 1)
    else if maxAttempts == 1 || !ShouldRetry(p, s.error.value) then RetryOutcome(s.world, s.error, 1)
    else
      var r := Retry(s.world, a, p, maxAttempts - 1);
      RetryOutcome(r.world, r.error, r.attempts + 1)
  }

  /** Every attempt only appends to the log and writes no message, so the executor's run
      does the same, and keeps each download right after its folder's clean-up. A reset
      downloads nothing, and a successful one leaves the folder existing with its
      creation last. */
  lemma {:induction false} RetryKeepsLog(w: World, a: Action, p: Policy, maxAttempts: nat)
    requires maxAttempts >= 1
    ensures var r := Retry(w, a, p, maxAttempts);
      && Extends(w, r.world) && NoOutputSince(w, r.world)
      && (DownloadsCleaned(w.ops) ==> DownloadsCleaned(r.world.ops))
      && (a.ResetWorkingFolder? ==> NoDownloadSince(w, r.world))
      && (a.ResetWorkingFolder? && r.error.None? ==>
            a.path.Some? && a.path.value in r.world.dirs && |w.ops| < |r.world.ops| && Last(r.world.ops) == CreateDirectory(a.path.value))
    decreases maxAttempts
  {
    var s := Attempt(w, a);
    AttemptKeepsLog(w, a);
    if s.error.Some? && maxAttempts > 1 && ShouldRetry(p, s.error.value) {
      var r := Retry(s.world, a, p, maxAttempts - 1);
      RetryKeepsLog(s.world, a, p, maxAttempts - 1);
      Chain(w, s.world, r.world);
    }
  }

  /** `r` with `n` earlier attempts counted in. */
  function After(r: RetryOutcome, n: nat): RetryOutcome {
    r.(attempts := r.attempts + n)
  }

  /** One step of the executor: after `n` attempts with `left` to go, run an attempt;
      then either the executor stops with it, or it goes on with one attempt fewer. */
  lemma RetryStep(w: World, a: Action, p: Policy, left: nat, n: nat)
    requires left >= 1
    ensures var s := Attempt(w, a);
      var stop := s.error.None? || left == 1 || !ShouldRetry(p, s.error.value);
      && (stop ==> After(Retry(w, a, p, left), n) == RetryOutcome(s.world, s.error, n + 1))
      && (!stop ==> After(Retry(w, a, p, left), n) == After(Retry(s.world, a, p, left - 1), n + 1))
  {
  }

  /** `RetryExecutor.Execute`/`ExecuteAsync` as a loop. */
  method Execute(w: World, a: Action, p: Policy, maxAttempts: nat) returns (world: World, error: Option<Exn>, attempts: nat)
    requires maxAttempts >= 1
    ensures RetryOutcome(world, error, attempts) == Retry(w, a, p, maxAttempts)
  {
    ghost var whole := Retry(w, a, p, maxAttempts);
    assert whole == After(whole, 0);
    world := w;
    attempts := 1;
    while true
      invariant 1 <= attempts <= maxAttempts
      invariant whole == After(Retry(world, a, p, maxAttempts - attempts + 1), attempts - 1)
      decreases maxAttempts - attempts
    {
      RetryStep(world, a, p, maxAttempts - attempts + 1, attempts - 1);
      var s := Attempt(world, a);
      if s.error.None? || attempts == maxAttempts || !ShouldRetry(p, s.error.value) {
        return s.world, s.error, attempts;
      }
      world := s.world;
      attempts := attempts + 1;
    }
  }

  /** A retried clean-then-download that succeeds ends its log with the clean-up of the
      folder and the download into it. */
  lemma {:induction false} RetriedDownloadEndsWithDownload(w: World, folder: string, artifact: ArtifactDefinition,
                                                           p: Policy, maxAttempts: nat)
    requires maxAttempts >= 1
    ensures var r := Retry(w, CleanAndDownload(folder, artifact), p, maxAttempts);
      r.error.None? ==> EndsWithDownload(r.world.ops, folder, artifact)
    decreases maxAttempts
  {
    var s := Attempt(w, CleanAndDownload(folder, artifact));
    assert s == DownloadAttempt(w, folder, artifact);
    if s.error.Some? && maxAttempts > 1 && ShouldRetry(p, s.error.value) {
      RetriedDownloadEndsWithDownload(s.world, folder, artifact, p, maxAttempts - 1);
    }
  }

  /** Under the clean-up predicate an exception escapes only once every attempt has been
      made. */
  lemma CleanupGivesUpOnlyWhenExhausted(w: World, a: Action, maxAttempts: nat)
    requires maxAttempts >= 1
    ensures var r := Retry(w, a, CleanupRetry, maxAttempts);
      r.error.Some? ==> r.attempts == maxAttempts
  {
  }

  /** Under the download predicate an exception that escapes before the last attempt is
      a download exception, and is therefore reported as a user error. */
  lemma DownloadGivesUpEarlyOnlyOnDownloadError(w: World, a: Action, maxAttempts: nat)
    requires maxAttempts >= 1
    ensures var r := Retry(w, a, DownloadRetry, maxAttempts);
      r.error.Some? && r.attempts < maxAttempts ==> r.error.value.ArtifactDownloadFailed? && IsUserError(r.error.value)
  {
  }
}
