# Task planning and release artifact retrieval in the agent worker

This project is a Dafny model of two decision engines in the build/release agent's worker.

**`TaskRunner`** prepares one task step of a job:
- It applies the legacy PowerShell "unpin" rule to the stage's handler variants.
- It chooses the handler: the earliest handler with the least `(not preferred on this platform, priority)` key.
- It merges the declared input defaults with the task instance's inputs in a case-insensitive dictionary, trimming keys and values.
- It expands the merged values.
- It rewrites every input declared as a file path through `TranslateFilePathInput`. That rooting chain tries, in order: the path itself when it is already rooted, then the first job extension for the job's host type that can root it, then the input itself. On Windows every step sees the input with its surrounding double quotes removed and `/` turned into `\`.
- It expands the chosen handler's own inputs and registers the declared output variables.
- It hands all of this to the handler factory.

**`ReleaseJobExtension`** fetches the artifacts of a release:
- It reads the release variables into its fields and works out the artifacts working folder.
- It publishes that folder in three variables.
- On download, it filters out custom artifacts of a non-Build sub-type.
- It resets the working folder (delete if it exists, then create), under a retry that retries every exception.
- It downloads each artifact in list order. Each artifact's folder is cleaned and then downloaded into, under a retry that gives up at once on a download exception.
- A failure is recorded once as a user or system error issue and then rethrown.

## How the model is built

**The environment is a value.** The release side acts on `Workspace.World`, which holds three things:
- The set of existing directories.
- A script of what the next fallible calls will raise: filesystem calls and extension downloads.
- The log of every call made and of the two tracked job-output messages.

An exhausted script means every later call succeeds.

**Retries are bounded.** `RetryExecutor.Retry` stands for the executor, bounded by `maxAttempts`.

**Specification functions, proved methods.** Each imperative routine of the source is a `method` with the source's loop, proved equal to a specification function:
- `Inputs.LoadInputs`
- `Artifacts.FilterArtifactDefinitions`
- `RetryExecutor.Execute`
- The methods of `ReleaseJob.ReleaseJobExtension`
- The methods of `Tasks.TaskRunner`

The properties are proved about those functions.

**Mutable state.**
- The execution context, a stage's `ExecutionData`, a `TaskRunner` and a `ReleaseJobExtension` are classes whose methods update their fields.
- The input dictionary is a value (`Inputs.CiDict`). The variable and environment expanders that rewrite it in place (TaskRunner.cs:124-125) are functions from the dictionary to the rewritten one, and so is the file-path translation.

**Behaviour worth noting:**
- Custom-artifact details that are null or not valid JSON make the filter throw.
- A failed clean-up of one artifact's folder is retried like any exception other than a download exception.
- A null or empty alias throws.
- A stage without `ExecutionData` throws at the nullable `.Value`.
- A working-folder reset refused by permissions is retried until the attempts run out.
- An exception of an extension's `GetArtifactDetails` escapes before any retry and ends the retrieval.

## Model

| member | source | states |
|---|---|---|
| Tasks.TaskRunner.constructor | src/Agent.Worker/TaskRunner.cs:29-41 | a runner holds the stage, the task instance and the execution context it is given |
| Tasks.TaskRunner.ContinueOnError | src/Agent.Worker/TaskRunner.cs:33 | true exactly when there is a task instance and it continues on error; false without an instance |
| Tasks.TaskRunner.DisplayName | src/Agent.Worker/TaskRunner.cs:35 | the instance's display name, null without an instance |
| Tasks.TaskRunner.Enabled | src/Agent.Worker/TaskRunner.cs:37 | true exactly when there is a task instance and it is enabled; false without an instance |
| Tasks.TaskRunner.Timeout | src/Agent.Worker/TaskRunner.cs:43 | a timeout exists exactly when the instance sets a positive number of minutes, and is that number |
| Tasks.TaskRunner.RunAsync | src/Agent.Worker/TaskRunner.cs:45-158 | each argument and definition error in source order: no context, no instance, no definition, no data, no execution data for the stage (the nullable `.Value`), no handler. The display-name variable is set once there is an instance. The stage's handlers become the legacy-unpinned list. The chosen handler is the selection over that list and gets its inputs expanded against the resolved inputs. The resolved inputs are the merged, expanded inputs after the file-path rewrite, and a rewrite error is returned as is. The declared output names are appended, and the file-path root is the translation of the empty input |
| Tasks.TaskRunner.TranslateFilePathInput | src/Agent.Worker/TaskRunner.cs:164-218 | the loop with early return computes `FilePaths.TranslatedPath` for the context's host type and artifacts directory |
| Tasks.TaskRunner.TranslateFilePathInputs | src/Agent.Worker/TaskRunner.cs:128-136 | the loop over the declared inputs computes `Tasks.TranslateAll` with the runner's own translation, including its exceptions |
| Tasks.TaskRunner.AddOutputVariables | src/Agent.Worker/TaskRunner.cs:144-150 | the context's output variables grow by exactly `Tasks.DeclaredOutputNames`, and nothing else in the context changes |
| Tasks.TranslateOne | src/Agent.Worker/TaskRunner.cs:130-134 | a null declaration throws. A declaration of type filePath (compared ignoring case) needs a non-null name present in the dictionary, and that entry alone gets the translation of its value. Any other declaration leaves the dictionary unchanged. It fails iff one of those lookups fails |
| Tasks.TranslateAll | src/Agent.Worker/TaskRunner.cs:128-136 | the declarations in order, each translated by `Tasks.TranslateOne`, stopping at the first exception; its properties are stated by `Tasks.TranslateAllScope`, `Tasks.TranslateAllTranslatesOnce` and `Tasks.TranslateAllStopsAtError` |
| Tasks.StageExecution | src/Agent.Worker/TaskRunner.cs:66-78 | the pre-job, main or post-job execution data of the definition, chosen by the stage |
| Tasks.TranslateAllScope | src/Agent.Worker/TaskRunner.cs:128-136 | a successful rewrite keeps every key and the dictionary's key discipline. A name matching no filePath declaration ignoring case keeps its value, and every filePath declaration's name is present afterwards |
| Tasks.TranslateAllTranslatesOnce | src/Agent.Worker/TaskRunner.cs:128-136 | a filePath input declared once ends up holding the translation of the value it had before the rewrite |
| Tasks.TranslateAllStopsAtError | src/Agent.Worker/TaskRunner.cs:128-136 | the first exception ends the rewrite; later declarations are not looked at |
| Tasks.DeclaredOutputNames | src/Agent.Worker/TaskRunner.cs:144-150 | a name is registered iff some declaration carries it non-null and non-empty; no empty name is registered |
| Tasks.DeclaredOutputNamesInOrder | src/Agent.Worker/TaskRunner.cs:144-150 | the registered names keep declaration order: they are the declared names with the null and empty ones deleted |
| Tasks.DeclaredOutputNamesCounts | src/Agent.Worker/TaskRunner.cs:144-150 | one entry per declaration: every non-empty name is registered exactly as often as it is declared |
| Tasks.ExpandedInputs | src/Agent.Worker/TaskRunner.cs:122-125 | a name has a value after expansion iff it had one after the merge, and that value is expanded by the variables first and then by the environment |
| Tasks.ExpandHandlerInputs | src/Agent.Worker/TaskRunner.cs:138-141 | expanding the handler's inputs keeps exactly its keys, and each value is expanded first against the resolved inputs, then against the variables |
| Handlers.FirstPowerShell | src/Agent.Worker/TaskRunner.cs:85 | the index of a PowerShell handler with no PowerShell handler before it |
| Handlers.PreferredOnCurrentPlatform | src/Agent.Worker/TaskRunner.cs:91 | a preferred handler is pinned (its platform list is non-null) and the agent runs on Windows; an unpinned handler is preferred nowhere |
| Handlers.LegacyUnpinned | src/Agent.Worker/TaskRunner.cs:80-87 | the list keeps its length and every handler keeps everything but its platforms. The list changes iff the stage has a PowerShell3 handler and a windows-pinned PowerShell handler, and the first PowerShell handler is pinned |
| Handlers.LegacyRuleChangesOnlyFirstPowerShell | src/Agent.Worker/TaskRunner.cs:80-87 | the rule changes at most the platform list of the first PowerShell handler. It changes it exactly when the stage has a PowerShell3 handler and a PowerShell handler pinned to "windows" ignoring case. That handler is then unpinned and preferred nowhere, and no kind, priority or inputs change |
| Handlers.LegacyRuleIdempotent | src/Agent.Worker/TaskRunner.cs:80-87 | applying the rule twice is the same as applying it once |
| Handlers.ExecutionData.ApplyLegacyRule | src/Agent.Worker/TaskRunner.cs:80-87 | the stage's handler list becomes `LegacyUnpinned` of the old list |
| Handlers.ExecutionData.SetHandlerInputs | src/Agent.Worker/TaskRunner.cs:140-141 | only the chosen handler's inputs are replaced |
| Handlers.KeyLe | src/Agent.Worker/TaskRunner.cs:89-92 | the ordering key `(not preferred, priority)`, compared lexicographically; its order properties are stated by `Handlers.KeyLeIsTotalPreorder` |
| Handlers.KeyLeIsTotalPreorder | src/Agent.Worker/TaskRunner.cs:89-92 | the key order is reflexive, total and transitive, so a least key exists and ties are possible |
| Handlers.SelectHandler | src/Agent.Worker/TaskRunner.cs:89-97 | there is no handler iff the list is empty. Otherwise the chosen handler's key is no greater than any other, and every earlier handler's key is strictly greater (the stable sort's first element) |
| Handlers.PreferredHandlerWins | src/Agent.Worker/TaskRunner.cs:89-93 | if any handler is preferred on the current platform, the chosen one is, whatever the priorities |
| Handlers.LegacyRuleMakesPowerShell3Win | src/Agent.Worker/TaskRunner.cs:80-93 | with a PowerShell3 handler and a windows-pinned PowerShell handler of larger priority, PowerShell3 is chosen on every platform and in both declaration orders |
| Handlers.InsertProperties | src/Agent.Worker/TaskRunner.cs:89-93 | inserting into a sorted list keeps it sorted by the key and adds exactly that handler |
| Handlers.StableSortProperties | src/Agent.Worker/TaskRunner.cs:89-93 | the reference stable sort is ordered by the key and is a permutation of the handlers |
| Handlers.SelectionIsHeadOfStableSort | src/Agent.Worker/TaskRunner.cs:89-93 | the chosen handler is the first element of the stable sort |
| Inputs.Put | src/Agent.Worker/TaskRunner.cs:101-107 | the key (ignoring case) then maps to the value, and every other key is unchanged |
| Inputs.ExpandValues | src/Agent.Worker/TaskRunner.cs:124-125 | expansion keeps every key and rewrites each value by the expander |
| Inputs.DefaultEntryTrims | src/Agent.Worker/TaskRunner.cs:102-108 | a declaration stores an entry iff it is non-null and its name has a non-white-space character. The key is the name and the value the default, each stripped of white space at both ends; a null default gives "" |
| Inputs.InstanceEntryTrims | src/Agent.Worker/TaskRunner.cs:113-119 | an instance input stores an entry iff its name has a non-white-space character. Key and value are stripped of white space at both ends; a null value gives "" |
| Inputs.MergedInputs | src/Agent.Worker/TaskRunner.cs:99-120 | the dictionary holding the declared defaults, then the instance's values stored over them; its lookups are stated by `Inputs.MergedInputsLookup` |
| Inputs.GetPutAll | src/Agent.Worker/TaskRunner.cs:101-120 | after storing entries in order, each name holds the value of the last entry with that name, else its earlier value |
| Inputs.PutAllWellKeyed | src/Agent.Worker/TaskRunner.cs:101-120 | storing entries keeps every key filed under its case fold |
| Inputs.MergedInputsLookup | src/Agent.Worker/TaskRunner.cs:99-120 | a merged name holds the trimmed value of its last instance input, else the trimmed default of its last declaration, else nothing |
| Inputs.DeclaredDefaultsPresent | src/Agent.Worker/TaskRunner.cs:102-109 | every declaration with a non-empty trimmed name has a value after the merge |
| Inputs.InstanceValueWins | src/Agent.Worker/TaskRunner.cs:113-120 | on a key collision ignoring case, the instance value replaces the default |
| Inputs.LastValueIsLastMatch | src/Agent.Worker/TaskRunner.cs:113-120 | the reference lookup returns the value of the last matching entry |
| Inputs.LoadDefaults | src/Agent.Worker/TaskRunner.cs:99-109 | the defaults loop stores exactly the default entries in order |
| Inputs.MergeInstanceInputs | src/Agent.Worker/TaskRunner.cs:111-120 | the instance loop stores exactly the instance entries in order over the defaults |
| Inputs.LoadInputs | src/Agent.Worker/TaskRunner.cs:99-120 | the dictionary is `MergedInputs` of the declarations and the instance inputs, with every key filed under its case fold |
| Base.TrimCharsIsCore | src/Agent.Worker/TaskRunner.cs:172 | trimming removes only characters of the set and only at the two ends, leaves none at either end, and is idempotent |
| Base.TrimOrEmptyStrips | src/Agent.Worker/TaskRunner.cs:104-119 | null-tolerant trimming gives "" for null, else the text stripped of white space at both ends; the result is "" iff no other character is present |
| FilePaths.ReplaceChar | src/Agent.Worker/TaskRunner.cs:175 | same length; every occurrence of the character is replaced and nothing else changes |
| FilePaths.Normalized | src/Agent.Worker/TaskRunner.cs:168-177 | off Windows, or for the empty input, the input is untouched. On Windows a non-empty input has no '/' left, no '"' at either end, and is no longer than the input |
| FilePaths.NormalizedContents | src/Agent.Worker/TaskRunner.cs:168-177 | on Windows a non-empty input becomes exactly the input stripped of double quotes at both ends, with every '/' replaced by `\` |
| FilePaths.Matching | src/Agent.Worker/TaskRunner.cs:200-203 | the applicable extensions are the subsequence whose host type has every flag of the job's, in order |
| FilePaths.MatchingCounts | src/Agent.Worker/TaskRunner.cs:200-203 | each applicable extension is kept as often as it occurs in the list, and no other extension is kept |
| FilePaths.FirstRooting | src/Agent.Worker/TaskRunner.cs:204-213 | the first extension offering a non-empty root, or none iff no extension offers one |
| FilePaths.TranslatedPath | src/Agent.Worker/TaskRunner.cs:164-218 | an already rooted, valid input yields its full path (or itself when that throws). A non-rooted input that no extension roots comes back as normalised |
| FilePaths.FirstRootingIs | src/Agent.Worker/TaskRunner.cs:204-213 | the search over extensions stops exactly at the first one offering a non-empty root |
| FilePaths.FirstApplicableExtensionWins | src/Agent.Worker/TaskRunner.cs:204-213 | a non-rooted input takes the root of the first applicable extension that offers one, ahead of all later ones |
| FilePaths.ReleaseJobRootsRelativeInput | src/Agent.Worker/TaskRunner.cs:198-213 | in a release job a relative input is rooted against the artifacts directory by the release extension |
| FilePaths.ReleaseJobFilePathRoot | src/Agent.Worker/TaskRunner.cs:153-158 | in a release job the handler's file-path root is the full path of the artifacts directory |
| FilePaths.NoApplicableExtensionKeepsInput | src/Agent.Worker/TaskRunner.cs:215-217 | when no extension serves the job's host type, a non-rooted input comes back as normalised |
| Context.ExecutionContext.Set | src/Agent.Worker/TaskRunner.cs:56 | only the named variable changes |
| Context.ExecutionContext.AddOutputVariable | src/Agent.Worker/TaskRunner.cs:148 | the name is appended and nothing else changes |
| Context.ExecutionContext.AddIssue | src/Agent.Worker/Release/ReleaseJobExtension.cs:373 | the issue is appended and nothing else changes |
| Release.GetRootedPath | src/Agent.Worker/Release/ReleaseJobExtension.cs:48-96 | a null path gives null. A rooted valid path gives its full path (or itself when that throws). Any other path, when the artifacts directory is set, non-empty and valid, the path's characters are valid and the combination is rooted, gives the full path of the combination (or the combination when that throws). In every other case the result is null |
| Release.RootedPathIsRooted | src/Agent.Worker/Release/ReleaseJobExtension.cs:48-96 | whatever the extension returns is a non-empty, valid, rooted path |
| Release.RootedPathIdempotent | src/Agent.Worker/Release/ReleaseJobExtension.cs:48-96 | rooting a returned path again gives it back unchanged |
| Release.FindExtension | src/Agent.Worker/Release/ReleaseJobExtension.cs:161-167 | the first extension serving the artifact's type; none iff no extension serves it |
| Release.ConvertToArtifactDefinition | src/Agent.Worker/Release/ReleaseJobExtension.cs:342-358 | type, name and version are copied, and the details are what the extension makes of the definition. It fails iff the extension's `GetArtifactDetails` throws, with that exception |
| Release.DownloadFolder | src/Agent.Worker/Release/ReleaseJobExtension.cs:174-175 | the folder fails iff the working folder is null or its combination with the alias has no full path. With canonical full paths the folder is a valid rooted path |
| Release.ProcessArtifact | src/Agent.Worker/Release/ReleaseJobExtension.cs:156-215 | a missing alias, then a missing extension, then an exception of `GetArtifactDetails`, throw before anything is done. A failure writes no message. A success writes exactly one message, the artifact's finished message, last |
| Release.ProcessArtifactTarget | src/Agent.Worker/Release/ReleaseJobExtension.cs:171-214 | a successful artifact was cleaned and then downloaded into the full path of the working folder combined with its alias, as its extension's definition, and its finished message follows |
| Release.ProcessAll | src/Agent.Worker/Release/ReleaseJobExtension.cs:156-215 | the loop only appends to the log, never writes the batch-finished message, and keeps every download right after its folder's clean-up |
| Release.DownloadAll | src/Agent.Worker/Release/ReleaseJobExtension.cs:152-218 | the loop plus the batch message only appends to the log and keeps downloads after clean-ups |
| Release.Retrieve | src/Agent.Worker/Release/ReleaseJobExtension.cs:144-149 | fetch, filter, reset, download only append to the log and keep downloads after clean-ups |
| Release.ProcessArtifactFinished | src/Agent.Worker/Release/ReleaseJobExtension.cs:214 | one artifact's step finishes exactly its own alias when it succeeds and nothing when it fails |
| Release.ProcessAllFinishesInOrder | src/Agent.Worker/Release/ReleaseJobExtension.cs:156-215 | when every artifact succeeds, their finished messages appear once each, in list order |
| Release.ProcessAllCons | src/Agent.Worker/Release/ReleaseJobExtension.cs:156-215 | one turn of the loop processes the first artifact and goes on with the rest only when it succeeded |
| Release.ProcessAllStopsAtFailure | src/Agent.Worker/Release/ReleaseJobExtension.cs:156-215 | a failing run is the successful run of the artifacts before some k, followed by the failing step on artifact k and nothing after |
| Release.ProcessAllInOrder | src/Agent.Worker/Release/ReleaseJobExtension.cs:156-217 | artifacts are processed strictly in order. When artifact k fails, exactly the artifacts before k were finished, in order, and none after k was attempted |
| Release.BatchFinishedIffAllSucceeded | src/Agent.Worker/Release/ReleaseJobExtension.cs:152-218 | the batch-finished message is written iff every artifact succeeded |
| Release.CreationThenAnything | src/Agent.Worker/Release/ReleaseJobExtension.cs:148-149 | whatever follows a download-free stretch ending with the folder's creation, the creation comes before the first download |
| Release.ResetPrecedesDownloads | src/Agent.Worker/Release/ReleaseJobExtension.cs:148-149 | a retrieval downloads nothing, or creates the working folder before its first download |
| Release.CleanupPrecedesEveryDownload | src/Agent.Worker/Release/ReleaseJobExtension.cs:197-212 | every download in a retrieval's log comes right after the clean-up of its own folder |
| Release.ResetPermissionDenied | src/Agent.Worker/Release/ReleaseJobExtension.cs:220-251 | a reset refused on every attempt is retried until the attempts run out, then raises the wrapped clean-up failure and leaves the directories as they were |
| Release.PermissionDeniedAbortsRetrieval | src/Agent.Worker/Release/ReleaseJobExtension.cs:144-251 | so the retrieval stops with a user error and downloads nothing |
| Release.TransientCleanupRecovers | src/Agent.Worker/Release/ReleaseJobExtension.cs:178-212 | a folder clean-up that fails twice with a retryable error is retried and the download goes ahead on the third attempt |
| Release.SecondDownloadFails | src/Agent.Worker/Release/ReleaseJobExtension.cs:152-218 | with three artifacts and a download exception on the second: the first is downloaded and finished, the second fails on its first attempt, and the third is never touched. The error is a user error |
| Artifacts.Keep | src/Agent.Worker/Release/ReleaseJobExtension.cs:380-398 | a non-custom artifact is kept. A custom one fails iff its details are null or unparsable, and is otherwise kept iff its parsed details have no `ArtifactType` key, a null one, or "Build" ignoring case |
| Artifacts.Filtered | src/Agent.Worker/Release/ReleaseJobExtension.cs:376-404 | the artifacts `Artifacts.Keep` accepts, in order, or the first exception it raises; its properties are stated by `Artifacts.FilteredFailsIffUnparsable` and `Artifacts.FilteredKeepsExactly` |
| Artifacts.FilteredFailsIffUnparsable | src/Agent.Worker/Release/ReleaseJobExtension.cs:376-404 | the filter throws iff some custom artifact's details are null or unparsable |
| Artifacts.FilteredKeepsExactly | src/Agent.Worker/Release/ReleaseJobExtension.cs:376-404 | the result is an order-preserving subsequence that keeps each kept artifact as many times as it occurs in the input and drops every other. It keeps every non-custom artifact, and a custom one iff its details lack the ArtifactType key, hold null there, or name "Build" ignoring case |
| Artifacts.FilterArtifactDefinitions | src/Agent.Worker/Release/ReleaseJobExtension.cs:376-404 | the loop computes `Artifacts.Filtered`, exceptions included |
| Artifacts.IsUserError | src/Agent.Worker/Release/ReleaseJobExtension.cs:362 | a download exception or a clean-up failure is a user error; every other exception is a system error |
| Artifacts.FailureIssue | src/Agent.Worker/Release/ReleaseJobExtension.cs:360-374 | an Error issue carrying the exception. Its data holds exactly AgentVersion, code and TaskId, and the code is the user-error code iff the exception is a download or clean-up failure, else the system-error code |
| Workspace.Wrap | src/Agent.Worker/Release/ReleaseJobExtension.cs:206-209 | exactly the missing-directory and permission exceptions are wrapped as a clean-up failure; nothing unwrapped of those two escapes |
| Workspace.ResetAttempt | src/Agent.Worker/Release/ReleaseJobExtension.cs:236-250 | one reset only appends to the log and never downloads or writes a message. Its errors are wrapped. A success leaves the folder existing, with its creation last |
| Workspace.ResetDeletesOnlyExisting | src/Agent.Worker/Release/ReleaseJobExtension.cs:240-245 | the folder is deleted only when it exists, and created whenever that deletion (if any) succeeded |
| Workspace.DownloadAttempt | src/Agent.Worker/Release/ReleaseJobExtension.cs:198-212 | one attempt appends the clean-up of the folder, possibly followed by the download into it, and writes no message; a success did both |
| Workspace.DownloadAttemptSteps | src/Agent.Worker/Release/ReleaseJobExtension.cs:201-211 | a failed clean-up ends the attempt with its exception wrapped and no download. After a clean-up that worked, the attempt is exactly the download into the folder |
| Workspace.AttemptKeepsLog | src/Agent.Worker/Release/ReleaseJobExtension.cs:197-250 | an attempt of either retried action only appends to the log, writes no message, and keeps downloads after clean-ups. A reset downloads nothing, and a successful one appends the folder's creation last and leaves it existing |
| RetryExecutor.ShouldRetry | src/Agent.Worker/Release/ReleaseJobExtension.cs:179-195 | the download predicate retries everything but the download exception; the clean-up predicate (lines 225-231) retries everything. Its consequences are stated by `RetryExecutor.PoliciesDecide` |
| RetryExecutor.PoliciesDecide | src/Agent.Worker/Release/ReleaseJobExtension.cs:179-231 | the download predicate refuses exactly the download exception; the clean-up predicate refuses nothing |
| RetryExecutor.Retry | src/Agent.Worker/Release/ReleaseJobExtension.cs:178-212 | between one and the maximum number of attempts are made, and an exception that escapes early is one the predicate refused |
| RetryExecutor.RetryKeepsLog | src/Agent.Worker/Release/ReleaseJobExtension.cs:178-251 | over all its attempts the executor only appends to the log, writes no message and keeps downloads after clean-ups. A retried reset downloads nothing, and a successful one leaves the folder existing with its creation last |
| RetryExecutor.RetryStep | src/Agent.Worker/Release/ReleaseJobExtension.cs:197-212 | one attempt either ends the run with that attempt's outcome, or hands over to a run with one attempt fewer |
| RetryExecutor.Execute | src/Agent.Worker/Release/ReleaseJobExtension.cs:197-212 | the attempt loop returns exactly `RetryExecutor.Retry`'s world, exception and attempt count |
| RetryExecutor.RetriedDownloadEndsWithDownload | src/Agent.Worker/Release/ReleaseJobExtension.cs:197-212 | a successful retried clean-then-download ends with the clean-up of the folder and the download into it |
| RetryExecutor.CleanupGivesUpOnlyWhenExhausted | src/Agent.Worker/Release/ReleaseJobExtension.cs:224-251 | under the clean-up predicate an exception escapes only after the last attempt |
| RetryExecutor.DownloadGivesUpEarlyOnlyOnDownloadError | src/Agent.Worker/Release/ReleaseJobExtension.cs:179-195 | under the download predicate an early escape is a download exception, hence a user error |
| ReleaseJob.ParsedOr | src/Agent.Worker/Release/ReleaseJobExtension.cs:263-265 | an unset or unparsable variable reads as the default; otherwise as its parsed value |
| ReleaseJob.RemoveChars | src/Agent.Worker/Release/ReleaseJobExtension.cs:275-277 | the result is a subsequence holding exactly the characters not removed, each as often as in the input |
| ReleaseJob.DefinitionKey | src/Agent.Worker/Release/ReleaseJobExtension.cs:272-278 | the definition id when set. Otherwise a null name throws, and any other name loses exactly its invalid file-name and path characters, keeping every other character, each as often as it occurs, in order |
| ReleaseJob.WorkingFolder | src/Agent.Worker/Release/ReleaseJobExtension.cs:286-289 | the work path, combined with the release directory prepared for the key, combined with the artifacts directory name |
| ReleaseJob.LocalVariables | src/Agent.Worker/Release/ReleaseJobExtension.cs:316-320 | the three directory variables are all set to the path and every other variable is unchanged |
| ReleaseJob.CreateIfMissing | src/Agent.Worker/Release/ReleaseJobExtension.cs:332-340 | an existing folder is left alone; a missing one gets one creation call, and the folder exists after a success |
| ReleaseJob.ReleaseJobExtension.constructor | src/Agent.Worker/Release/ReleaseJobExtension.cs:26-29 | the fields start at 0, the empty Guid, null and false |
| ReleaseJob.ReleaseJobExtension.DownloadArtifact | src/Agent.Worker/Release/ReleaseJobExtension.cs:156-215 | one loop pass computes `Release.ProcessArtifact` |
| ReleaseJob.ReleaseJobExtension.DownloadArtifacts | src/Agent.Worker/Release/ReleaseJobExtension.cs:152-218 | the artifact loop computes `Release.DownloadAll` |
| ReleaseJob.ReleaseJobExtension.CleanUpArtifactsFolder | src/Agent.Worker/Release/ReleaseJobExtension.cs:220-254 | the retried reset. On success the folder exists; a failure is never an unwrapped missing-directory or permission error |
| ReleaseJob.ReleaseJobExtension.DownloadReleaseArtifacts | src/Agent.Worker/Release/ReleaseJobExtension.cs:128-150 | computes `Release.Retrieve` on the service's answer for the team project and release |
| ReleaseJob.ReleaseJobExtension.GetArtifactsAsync | src/Agent.Worker/Release/ReleaseJobExtension.cs:105-126 | with downloads skipped nothing at all happens. Otherwise it does the retrieval for the fields' release, and records one failure issue exactly when it fails. Variables and output variables are untouched |
| ReleaseJob.ReleaseJobExtension.SetLocalVariables | src/Agent.Worker/Release/ReleaseJobExtension.cs:311-321 | the variables become `LocalVariables` of the old ones |
| ReleaseJob.ReleaseJobExtension.InitializeJobExtension | src/Agent.Worker/Release/ReleaseJobExtension.cs:256-309 | the release id, team project and skip flag are read with their defaults. A key error leaves the folder and variables unchanged. Otherwise the working folder is the artifacts directory of the prepared release directory, it is published, and it is created if missing only when downloads are skipped |
| ReleaseJob.ResetErrorsWrapped | src/Agent.Worker/Release/ReleaseJobExtension.cs:247-250 | a failed retried reset never lets a missing-directory or permission error through unwrapped |

## Left out

- Path and filesystem primitives are parameters: `Path.IsPathRooted`, `GetFullPath` (`None` when it throws), `Combine`, the invalid-character sets, `Directory.*`, `IOUtil.DeleteDirectory` and `CleanupDirectory`. `Platform.CanonicalFullPaths` lists the only facts the rooting lemmas require of them.
- Three-argument `Path.Combine` at ReleaseJobExtension.cs:286-289 is modelled as two nested two-argument combines.
- The release service call and the endpoint lookup (ReleaseJobExtension.cs:136-144) are left out. The service is a function from team project and release to the fetched list or an exception.
- JSON parsing of custom-artifact details is a parameter. A `None` answer stands for both a throw and a null result.
- Variable expansion, environment expansion and `VarUtil.ExpandValues` are parameters, each rewriting one value. Their bodies are not part of this model.
- `IReleaseDirectoryManager.PrepareArtifactsDirectory` is a parameter from the definition key to the release directory. Its collection-id and team-project arguments are dropped.
- `Variables.GetInt`, `GetGuid` and `GetBoolean` are parameters that parse a variable's text.
- Variables are named by role (`Context.Var`), not by their literal names.
- The invalid-character regular expression is modelled as removing exactly the characters of its class.
- `PreferredOnCurrentPlatform` is defined in TaskManager.cs, which is not part of this model. It is taken as "the platform list names the current platform", and Windows is the only platform a pin names here.
- Case-insensitive comparison folds ASCII letters only, and `Trim()` uses a fixed white-space set.
- The retry executor's backoff, delays and cancellation are left out. Its attempt bound is the parameter `maxAttempts`.
- Job output is tracked only for the two messages whose order the properties talk about: an artifact's download finished, and all artifacts finished. Every other `Output` line, tracing and `LogEnvironmentVariables` is logging and is left out.
- `PrintTaskMetaData` is left out apart from its null-data check. `taskManager.Load`, `IHandlerFactory.Create` and the handler's run are foreign services: the loaded definition is an argument, and the factory's arguments are the result of `Tasks.TaskRunner.RunAsync`.
- `GetExtensionPreJobStep`, `GetExtensionPostJobStep` and `ConvertLocalPath` are step plumbing with no decisions, and are left out.
- DockerCommandManager.cs (process invocation of the docker CLI) is not part of this model.
- async/await and concurrency are left out. Only the one `ExecutionData` object that `RunAsync` updates is modelled by reference; other aliasing among definition objects is not.
- Artifacts.Filtered: the fetched list is a sequence of non-null definitions. In the code a null entry makes the filter throw a NullReferenceException at ReleaseJobExtension.cs:381; the `ArgUtil.NotNull` at :346 guards the same case further on. `GetArtifactsAsync` records that as a system-error issue and rethrows it (:122-124). This error path is not modelled.
- Tasks.TaskRunner.RunAsync: the `Condition` property is left out. The message texts of exceptions are not modelled; an exception is its kind and the argument name it carries. In this model the execution context is a non-null `Context.ExecutionContext` reference that always holds a map of variables, so neither null check at TaskRunner.cs:49-50 can fail.
