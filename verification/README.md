# Verification models

Dafny models of the parts of this repository whose behaviour over whole runs is not obvious from any one function: the
circuit breaker and the retries inside it, the developer workflow with its recursive decomposition, the workspace
manager, log rotation and log cleanup, the event reporter, configuration polling, the conversation loop, snapshot
retention, the memory store and the aggregation of pull request checks. `dafny verify dfyconfig.toml` checks them all.

Objects that the source updates in place are classes here. Their methods are proved to compute functions on plain values,
and the results about runs, interleavings and round trips are lemmas about those functions. GitHub, Claude, git, the
disk, the database, the network, the clock and the random source appear as arbitrary outcomes or as inputs.

| file | models |
|---|---|
| `CircuitBreaker.dfy`, `BreakerHistory.dfy` | the breaker one call at a time, and its behaviour as a function of what happened before |
| `BreakerInterleavings.dfy`, `BreakerRaces.dfy` | the breaker as atomic steps of any number of goroutines, and what a fresh one can come to |
| `Retry.dfy` | error classification, the retry loop, and retries as the protected function of a breaker |
| `Workflow.dfy`, `SavedStates.dfy`, `WorkspaceManager.dfy`, `PRChecks.dfy` | one call of `processIssue` with everything below it, the poll loop above it, and what they rely on |
| `LogNames.dfy`, `LogShift.dfy`, `LogRotation.dfy`, `LogDirectory.dfy` | file names, the shift of numbered slots, the plan of a rotation, and its execution with failures |
| `LogRuns.dfy` | rotations in a row: which slots are taken and which logs are lost |
| `LogCleanup.dfy` | the two passes of log cleanup |
| `Reporter.dfy`, `ReporterAgent.dfy` | the bounded channel and its concurrent drainers as a state machine, and the object whose methods are runs of it |
| `ConfigPolling.dfy` | two versioned rows, one entity tag (section 8.8.3 of RFC 9110), server defaults, and the polling agent |
| `Conversation.dfy` | the transcript of a conversation with tools |
| `Snapshots.dfy`, `Memory.dfy` | retention of snapshots, and memory with its prompt budget |
| `Common.dfy`, `Sorting.dfy` | shared definitions |

## Where the code and its comments or intentions differ

The models follow the code.

- The shift loop of log rotation runs from the end of a list that is sorted highest number first, so it renames the lowest
  number first and overwrites neighbours (`ShiftLowestFirst`, `OrdersAgreeIff`). Rotation itself produces them: about
  every second log is lost, below the limit too (`RunEffect`, `FoundIff`).
- Rotated files are recognised by more names than rotation gives, so two files can share a slot (`ReadBackIff`).
- A shutdown is meant to make a claimed issue ready again, but does so with a context that has ended: with a client that
  heeds it the issue stays claimed (`HandleGracefulShutdown`).
- `requests` is not reset when a breaker becomes half-open, but is compared with MaxRequests there. With MaxRequests of 2
  or more a tripped breaker never closes under single calls (`RecoveryIff`), although two goroutines can close it, whatever
  the configuration (`TripsAndClosesIff`, `CrowdCanRecover`).
- Closing resets failures and requests in two stores, so two goroutines can leave more failures than requests
  (`ResetCanLoseRequests`).
- The breaker used while breakers are disabled has MinRequests and FailureRatio of 0 and is closed only as long as nothing
  fails (`DisabledStaysClosedIff`).
- An admitted call adds one to `requests` except when it closes the breaker: the reset comes after the addition. Under
  single calls that is the successful probe of an open breaker with MaxRequests of 1 or less, and nothing else
  (`AddsOneRequestIff`, `ExecuteProtected`).
- The entity tag is the larger of two independent versions, so writes can stay invisible to a polling agent. It is not a
  strong validator in the sense of section 8.8.1 of RFC 9110, and an If-None-Match (section 13.1.2) can be answered with
  304 for a changed configuration (`HiddenIff`, `FirstOverrideIsHidden`, `AfterDeleteHiddenIff`).
- An override is merged section by section, and the defaults are applied afterwards: setting one field of a section in an
  override takes the type's values for the others back to the defaults (`FieldKeptIff`).
- The keyword search that is said to ignore case compares exactly when the text is as long as the keyword
  (`ContainsIgnoresCaseIff`).
- The default retry policy does not list rate limits, so the classifier's own "too many requests" error is not retried
  (`DefaultGivesUpIff`); and the exponential backoff never applies to errors that the classifier makes up
  (`BackoffNeedsStructuredError`).
- Restoring a conversation clears its history and keeps its tool call count (`RestoreConversation`).
- The age pass of log cleanup reuses the listing of the disk pass and fails on files that are already gone
  (`TwoPassesFailIff`).
- Uncompressed rotated files of a ".log" log are not eligible for the disk pass (`RotatedEligibleIff`).

## Model

| member | source | states |
|---|---|---|
| `CircuitBreaker.Breaker.constructor` | internal/errors/circuit_breaker.go:87-97 | a new breaker is closed, with all counters at zero |
| `CircuitBreaker.Breaker.CanExecute` | internal/errors/circuit_breaker.go:140-169 | admission and the open to half-open swap compute `Admit`; `requests` is compared with MaxRequests only while half-open |
| `CircuitBreaker.Breaker.RecordFailure` | internal/errors/circuit_breaker.go:184-218 | one failure changes the five fields as `AfterFailure` says, whatever the state |
| `CircuitBreaker.Breaker.RecordSuccess` | internal/errors/circuit_breaker.go:221-247 | one success changes them as `AfterSuccess` says: the reset of failures and requests comes with closing only |
| `CircuitBreaker.Breaker.RecordResult` | internal/errors/circuit_breaker.go:172-181 | a result adds one request and then counts as success or failure |
| `CircuitBreaker.Breaker.Execute` | internal/errors/circuit_breaker.go:107-137 | a whole call is `AfterCall`; it is refused exactly when `Admit` refuses |
| `CircuitBreaker.RunKeepsInv` | internal/errors/circuit_breaker.go:140-247 | over every sequence of calls: failures never exceed requests, not closed implies at least one request, and half-open at rest implies requests of at least one more than the successes and MaxRequests of 2 or more |
| `CircuitBreaker.StaysTripped` | internal/errors/circuit_breaker.go:161-164 | with MaxRequests of 2 or more no sequence of calls, of any length, closes a breaker that is not closed |
| `CircuitBreaker.RecoveryIff` | internal/errors/circuit_breaker.go:153-164 | after every history that leaves the breaker tripped, some continuation closes it if and only if MaxRequests is at most 1 |
| `CircuitBreaker.DeadForever` | internal/errors/circuit_breaker.go:161-164 | half-open with requests at MaxRequests: every later call is refused and nothing ever changes |
| `CircuitBreaker.SuccessesAfterTrip` | internal/errors/circuit_breaker.go:140-247 | after a trip at most `SuccessesLeft` calls can still succeed, whatever happens; a run that reaches this number leaves the breaker dead |
| `CircuitBreaker.SuccessesAttained` | internal/errors/circuit_breaker.go:140-247 | the bound is exact: probing with successes reaches it, from every tripped state with MaxRequests of 2 or more |
| `CircuitBreaker.AddsOneRequestIff` | internal/errors/circuit_breaker.go:116-137 | an admitted call adds exactly 1 to requests whatever its outcome, if and only if the breaker is not open when it begins or MaxRequests is 2 or more |
| `CircuitBreaker.RunKeepsTripFloor` | internal/errors/circuit_breaker.go:250-268 | while the breaker is not closed, requests stay at or above what was needed to trip it |
| `CircuitBreaker.DefaultBreakerServesOnceAfterTrip` | internal/errors/circuit_breaker.go:50-58 | with the default configuration at most one call succeeds after a trip, ever |
| `CircuitBreaker.DisabledBreakerTrips` | internal/errors/manager.go:131-138 | the breaker handed out while breakers are disabled opens on its first failure, after any number of successes |
| `CircuitBreaker.DisabledStaysClosedIff` | internal/errors/manager.go:131-138 | over any sequence of calls it is closed at every time if and only if no call fails |
| `BreakerHistory.CountersAreHistory` | internal/errors/circuit_breaker.go:172-247 | requests and failures are the calls that have run, and failed, since the breaker was last closed again, and the stored time is the end of the last call that ran and failed; over every history from a new breaker |
| `BreakerHistory.RunsIff` | internal/errors/circuit_breaker.go:140-169 | which calls run, from the history alone: all while closed; while open exactly those that come at least the timeout after the last failure; while half-open exactly as long as fewer than MaxRequests calls have run since it was last closed |
| `BreakerHistory.NextState` | internal/errors/circuit_breaker.go:184-268 | the state after each call, from the history alone: when failures open it, when a success closes it, and the ratio without division |
| `BreakerInterleavings.HistoryIsAPath` | internal/errors/circuit_breaker.go:140-247 | for any number of goroutines and any interleaving of atomic steps, the state moves only along closed, open, half-open and back to open or closed |
| `BreakerInterleavings.DeadIsAbsorbing` | internal/errors/circuit_breaker.go:161-164 | half-open with requests at MaxRequests and no call under way past admission is final under every schedule |
| `BreakerInterleavings.RunKeepsBooks` | internal/errors/circuit_breaker.go:174-187 | until the first reset, failures plus the failures still owed never exceed requests, in every interleaving |
| `BreakerInterleavings.FailuresWithinRequestsUntilReset` | internal/errors/circuit_breaker.go:174-187 | consequence: failures never exceed requests while no reset has happened |
| `BreakerInterleavings.LastFailureIsLastStored` | internal/errors/circuit_breaker.go:187 | under every schedule the stored time is the one stored last, by whichever goroutine |
| `BreakerInterleavings.TimeoutIff` | internal/errors/circuit_breaker.go:151-160 | under every schedule a call that finds the breaker open goes on exactly if the timeout has passed since the failure stored last |
| `BreakerInterleavings.SwapAdmits` | internal/errors/circuit_breaker.go:153-157 | from there it is admitted, whether or not it wins the swap |
| `BreakerInterleavings.SwapIff` | internal/errors/circuit_breaker.go:140-247 | the state changes exactly at a swap whose expected state it is, and a swap that is too late changes nothing |
| `BreakerInterleavings.DecidesOnOwnCounts` | internal/errors/circuit_breaker.go:221-268 | opening is decided by failures loaded before and requests loaded now, closing by the goroutine's own count of successes |
| `BreakerRaces.ResetCanLoseRequests` | internal/errors/circuit_breaker.go:234-237 | because the reset is two stores, a fresh breaker can come to count more failures than requests, for every configuration, if and only if two or more goroutines share it |
| `BreakerRaces.TripsAndClosesIff` | internal/errors/circuit_breaker.go:140-247 | a fresh breaker can trip and close again if and only if two or more goroutines share it, or there is one and MaxRequests is at most 1 |
| `BreakerInterleavings.SoloIsACall` | internal/errors/circuit_breaker.go:107-247 | a call during which no other goroutine moves does exactly what the sequential model says: the two models agree |
| `BreakerInterleavings.CrowdCanRecover` | internal/errors/circuit_breaker.go:148-164 | from every open state, MaxRequests goroutines that probe together close the breaker, which no sequence of single calls can for MaxRequests of 2 or more |
| `WorkspaceManager.Manager.constructor` | internal/workspace/manager.go:406-452 | at start-up every directory found becomes a stale entry |
| `WorkspaceManager.Manager.CountActive` | internal/workspace/manager.go:463-471 | the loop counts exactly the active entries |
| `WorkspaceManager.Manager.CreateWorkspace` | internal/workspace/manager.go:178-223 | succeeds exactly if the entry is active already, or disk and directory are fine and fewer than MaxConcurrent entries are active; then the entry is new, and otherwise nothing changes |
| `WorkspaceManager.Manager.CleanupWorkspace` | internal/workspace/manager.go:226-260 | cleanup removes the entry if the directory could be removed; for an issue that is neither cached nor on disk there is nothing to do, and no error |
| `WorkspaceManager.Manager.UpdateWorkspaceState` | internal/workspace/manager.go:373-390 | sets state and time of a known entry and nothing else, and fails for an unknown one |
| `WorkspaceManager.Manager.CleanupStaleWorkspaces` | internal/workspace/manager.go:263-308 | never touches an active entry, removes nothing that is fresh, and removes everything removable unless cancelled or, without an error, switched off |
| `WorkspaceManager.Manager.GetWorkspaceStats` | internal/workspace/manager.go:311-348 | the counters are the sizes of the three groups of entries |
| `WorkspaceManager.ActiveCountPut` | internal/workspace/manager.go:463-471 | how one entry changes the number of active ones |
| `WorkspaceManager.ApplyKeepsValidIff` | internal/workspace/manager.go:178-390 | an operation keeps the limit, the keys and the counts exactly unless it is an update to Cleaned or one that activates an entry at the limit |
| `WorkspaceManager.RunKeepsValid` | internal/workspace/manager.go:178-390 | every sequence of the workflow's operations keeps the cache valid |
| `WorkspaceManager.CacheInvariant` | internal/workspace/manager.go:131-390 | from start-up on: active entries within the limit, every key its own issue, total equal to active plus stale plus failed |
| `WorkspaceManager.LimitIsReached` | internal/workspace/manager.go:178-223 | the limit is exact: from every cache within it, creations alone lead to exactly that many active entries |
| `WorkspaceManager.StatsAddUp` | internal/workspace/manager.go:311-348 | the three counts add up to the total if and only if no entry is in state Cleaned |
| `WorkspaceManager.CleanupThenCreate` | internal/workspace/manager.go:178-260 | a second cleanup changes nothing, and re-creating an inactive entry takes one place if one is left, and otherwise changes nothing |
| `SavedStates.TraceExtends` | internal/developer/workflow.go:84-503 | how one more save continues a trace |
| `SavedStates.TerminalIsLast` | internal/developer/workflow.go:84-503 | nothing is saved after complete, decompose or failed, and none of those is a checkpoint |
| `SavedStates.TraceClimbs` | internal/developer/workflow.go:84-503 | the states saved in one call never go back, and change only upwards |
| `SavedStates.NoPRBeforeReview` | internal/developer/workflow.go:412-448 | no pull request number is saved before the review state |
| `SavedStates.PRIsStable` | internal/developer/workflow.go:428-503 | from then on it never changes |
| `SavedStates.NoStageSkipped` | internal/developer/workflow.go:84-503 | no stage of the main line is skipped |
| `SavedStates.DecomposeOnlyEarly` | internal/developer/workflow.go:262-366 | decompose follows workspace or implement only, without a pull request |
| `PRChecks.AnalyzeCheckResults` | internal/ghub/pr_validation.go:145-237 | the loops, which overwrite the status as they go, end with the verdict of how many checks failed and how many are pending; all-passing if and only if both are zero |
| `PRChecks.VerdictIs` | internal/ghub/pr_validation.go:145-237 | the verdict outright: failed if any run or status failed, by conclusion or state; else running if any is waited for; else success |
| `PRChecks.FailuresReported` | internal/ghub/pr_validation.go:145-237 | every failed check is reported by name |
| `PRChecks.WaitingReported` | internal/ghub/pr_validation.go:145-237 | every check that is waited for is reported by name, with a remark if somebody has to act |
| `PRChecks.VerdictIgnoresOrder` | internal/ghub/pr_validation.go:145-237 | any permutation of check runs and statuses gives the same verdict |
| `PRChecks.SelectSizeOfPermutation` | internal/ghub/pr_validation.go:145-237 | the numbers of failed and of pending checks do not depend on the order |
| `PRChecks.NextInterval` | internal/ghub/pr_validation.go:107-111 | for any options the next interval is within the cap; with a factor of at least 1 it never falls below the first interval |
| `PRChecks.ValidatePR` | internal/ghub/pr_validation.go:71-112 | for any options and any answers: ends in the first round whose verdict is not running, that fails, or that does not begin because the context or the time is over; reads the status at most 10 times with the default options, and at most MaxWaitTime / PollInterval + 1 times when the interval cannot shrink |
| `PRChecks.EndsOnce` | internal/ghub/pr_validation.go:71-112 | what GitHub answers, when the context ends and how long calls take decide how a validation ends |
| `PRChecks.RoundBounds` | internal/ghub/pr_validation.go:71-112 | the number of reads follows from the time that the rounds before the last take, with growth and cap of the pauses |
| `PRChecks.DefaultFetches` | internal/ghub/pr_validation.go:61-68 | with the default options the tenth pause reaches MaxWaitTime |
| `PRChecks.WaitedAtLeast` | internal/ghub/pr_validation.go:104-111 | pauses that cannot shrink take at least as long as equal ones |
| `PRChecks.ValidatePRChecks` | internal/developer/workflow.go:623-713 | each verdict is how the validation of that attempt ends; passes exactly if the last one succeeded; goes on after every failure unless the repair could not be staged or pushed, or MaxRetries is reached; at most MaxRetries - 1 attempts to fix |
| `Workflow.GitHub.AddLabels` | internal/developer/workflow.go:745-761 | what a label call can do: everything or nothing; nothing once the context has ended, and everything on a reliable service whose context lasts |
| `Workflow.GitHub.RemoveLabel` | internal/developer/workflow.go:745-761 | the same for removing a label |
| `Workflow.GitHub.CreateIssue` | internal/ghub/issues.go:117-141 | new issues are numbered above all earlier ones and carry the given labels; a retried or failing call can leave issues that it does not return; earlier issues do not change |
| `Workflow.GitHub.ListIssues` | internal/ghub/issues.go:12-52 | lists distinct issues with the ready label, at most one page of 50, and all of them if they fit |
| `Workflow.GitHub.OthersAct` | internal/ghub/poller.go:67-84 | others file issues and add or remove labels, any number of times; they claim nothing for this agent and take back no grant of the ready label, and a quiet GitHub stays as it is |
| `Workflow.FileStore.Save` | internal/state/filestore.go:26-45 | one slot: a save replaces what was there, of whatever issue, and succeeds if the file can be written |
| `Workflow.SumUnfolds` | internal/developer/decompose.go:257-281 | a call and its children: the size of a full tree of one level more |
| `Workflow.ChildrenFit` | internal/developer/decompose.go:257-281 | the calls made for at most MaxSubtasks children fit under one root |
| `Workflow.Developer.SaveState` | internal/developer/workflow.go:84-97 | each save continues the trace of its issue and touches no other |
| `Workflow.Developer.Snapshot` | internal/developer/workflow.go:184-195 | a workspace snapshot repeats the last save |
| `Workflow.Developer.FailIssue` | internal/developer/workflow.go:955-977 | failing saves the failed state once, from a state that is not terminal, and labels the issue |
| `Workflow.Developer.ClaimIssue` | internal/developer/workflow.go:745-761 | adds one claim if the claimed label is reported to be on, and none otherwise; with reliable labels and a context that lasts the issue is then claimed and not ready; no other issue changes |
| `Workflow.Developer.ResetIssueToReady` | internal/developer/workflow.go:607-620 | with reliable labels and a context that lasts, ready is on and claimed and in-progress are off; nothing changes if the context has ended; no other issue changes |
| `Workflow.Developer.HandleGracefulShutdown` | internal/developer/workflow.go:507-546 | runs with a context that has ended: saves one checkpoint of the claim, removes the workspace entry if the directory can be removed, and leaves the active workspaces as they were; with a client that heeds the context no label changes, so the issue stays claimed, and with one that does not it is made ready again |
| `Workflow.Developer.CreateChildIssues` | internal/developer/decompose.go:116-127 | the children are new, distinct, numbered above every earlier issue, labelled subtask and ready, and no more than asked for; earlier issues do not change, and whatever else was left behind is new |
| `Workflow.Developer.CreateSubtasks` | internal/developer/decompose.go:140-250 | as many children as subtasks were named, up to MaxSubtasks, and the parent labelled; none if Claude names none; succeeds if GitHub does |
| `Workflow.Developer.DecomposeIssue` | internal/developer/decompose.go:140-250 | saves decompose with exactly these children, or fails the issue; fails only if no subtask was named or GitHub failed |
| `Workflow.Developer.FetchChild` | internal/developer/decompose.go:257-275 | a child is gone on with if it can be fetched and still has the ready label; others may act in between |
| `Workflow.Developer.ProcessChild` | internal/developer/decompose.go:257-281 | one child costs at most a full tree below it, and is processed if it is ready and nothing interferes |
| `Workflow.Developer.ProcessChildIssues` | internal/developer/decompose.go:257-294 | all children together: the bounds on calls and depth, active workspaces as before, and no child left out if nothing interferes |
| `Workflow.Developer.GiveToChildren` | internal/developer/decompose.go:140-294 | both forms of decomposition, with the children worked through and the parent labelled as an epic |
| `Workflow.Developer.Prepare` | internal/developer/workflow.go:148-262 | goes on exactly if clone, branch, size limit and analysis succeed; otherwise the issue has failed |
| `Workflow.Developer.StartImplementation` | internal/developer/workflow.go:300-320 | the in-progress label is on and the implement state is saved before the conversation starts |
| `Workflow.Developer.ImplementIssue` | internal/developer/workflow.go:300-503 | an issue is left at the implement stage exactly if the conversation ran out of iterations and decomposition is enabled; a pull request is validated exactly if implementation, push and creation succeeded; otherwise the issue has failed |
| `Workflow.Developer.CommitAndPush` | internal/developer/workflow.go:370-409 | the commit state is saved before the push, and the issue fails exactly if the push does |
| `Workflow.Developer.OpenPullRequest` | internal/developer/workflow.go:412-448 | the number GitHub gives is saved together with the review state exactly if the pull request was created |
| `Workflow.Developer.CompleteIssue` | internal/developer/workflow.go:470-503 | in-review is on, in-progress is off and complete is saved once, from validation |
| `Workflow.Developer.Validate` | internal/developer/workflow.go:450-503 | complete is saved if and only if the last validation was a success; at least one takes place |
| `Workflow.Developer.Work` | internal/developer/workflow.go:150-503 | what happens outside decides how the work in a workspace ends, in which terminal state, with which labels and with how many validations |
| `Workflow.Developer.Begin` | internal/developer/workflow.go:63-105 | as long as the context lasts the issue is claimed, once, and not ready any more; then the claim is saved and checkpointed |
| `Workflow.Developer.SaveClaim` | internal/developer/workflow.go:85-105 | the first save and its checkpoint |
| `Workflow.Developer.Acquire` | internal/developer/workflow.go:134-146 | a workspace is to be had exactly if the disk allows it and a place is free |
| `Workflow.Developer.WithWorkspace` | internal/developer/workflow.go:109-123 | the deferred release marks the workspace failed or stale according to how the work ended |
| `Workflow.Developer.WorkWithin` | internal/developer/workflow.go:134-146 | what is done in a workspace just taken is bounded by the places left free, one less than before, and gives the place back |
| `Workflow.Developer.WorkOrRefuse` | internal/developer/workflow.go:134-146 | without a place the issue fails; with one the work is bounded by the places still free |
| `Workflow.Developer.TryWorkspace` | internal/developer/workflow.go:134-146 | a workspace is taken exactly if one is to be had, and otherwise the issue fails; either way active workspaces are as before |
| `Workflow.Developer.ProcessIssue` | internal/developer/workflow.go:39-503 | terminates; nests at most F + 1 deep and makes at most the sum of MaxSubtasks^i for i from 0 to F calls of itself, F being the free workspaces at entry; leaves the active workspaces as found; its saves form a trace; as long as the context lasts it claims the issue exactly once and takes it off the ready list; if GitHub does not fail, what happens outside decides whether a workspace is held and which terminal state is reached, and the labels show it; complete means that the last validation succeeded |
| `Workflow.Developer.HandleIssue` | internal/developer/workflow.go:26-36 | whatever others do first, and whether or not it fails, the issue is processed, and claimed once as long as the context lasts; no other is claimed, and the rest of the listing can still be |
| `Workflow.Developer.HandleIssues` | internal/developer/workflow.go:26-36 | every listed issue is processed, in the order of the listing, and claimed exactly once as long as the context lasts; so a failing issue stops none of the others |
| `Workflow.Developer.Poll` | internal/ghub/poller.go:67-84 | every issue listed is claimed as long as the context lasts, and every issue offered is listed if GitHub does not fail and they fit on a page |
| `Workflow.Developer.RunPoller` | internal/ghub/poller.go:37-84 | over any number of polls, with others acting between polls, between a listing and its claims, and between claims, with reliable labels, and with the context ending at any time: no issue is claimed more often than it was given the ready label, by anybody; as long as the context lasts it is claimed at least as often as it was listed, and everything offered at the start is listed if nothing interferes; an issue with the label was given it once more than it was claimed, and at the end of the context this fails for at most one issue |
| `LogNames.ParseName` | internal/observability/rotation.go:219-239 | a generated name is read back exactly if the extension does not end in ".gz" |
| `LogNames.ParseNameIff` | internal/observability/rotation.go:219-239 | that condition is exact |
| `LogNames.NamesDiffer` | internal/observability/rotation.go:265-270 | hence different slots have different names |
| `LogNames.ReadBackIff` | internal/observability/rotation.go:219-239 | the converse: of the names that are read, exactly those are generated names that carry the extension and whose number starts with a digit other than zero; names without the extension, with a sign or with leading zeros are read as well |
| `LogNames.SignIsRead` | internal/observability/rotation.go:227 | a number with a plus sign is read too |
| `LogNames.BareNumberIsRead` | internal/observability/rotation.go:223-227 | and so is a name without the extension |
| `LogNames.LeadingZeroIsRead` | internal/observability/rotation.go:227 | and one with a leading zero; so two files can share a slot |
| `LogShift.ShiftLowestFirst` | internal/observability/rotation.go:258-280 | exact effect of the shift loop: each run a..b of consecutive numbers in one form becomes the single file b+1 with the content of a |
| `LogShift.ShiftHighestFirst` | internal/observability/rotation.go:246-256 | the order of the list would move every file up by one, at once |
| `LogShift.OrdersAgreeIff` | internal/observability/rotation.go:258-280 | the two agree if and only if no two files in one form are neighbours |
| `LogShift.CollapsedSize` | internal/observability/rotation.go:258-280 | files left plus files overwritten make the files there were |
| `LogShift.SizeKeptIff` | internal/observability/rotation.go:258-280 | nothing is lost if and only if there are no neighbours |
| `LogShift.SurvivesIff` | internal/observability/rotation.go:258-280 | a file is found again, in exactly one place, if and only if it was the lowest of its run |
| `LogRotation.RoomFrame` | internal/observability/rotation.go:170-187 | making room, complete or cut short, touches rotated files only |
| `LogRotation.FirstIsFree` | internal/observability/rotation.go:183-191 | before the active log moves, slot 1 is free in both forms, whatever names the directory holds |
| `LogRotation.RoomIsMade` | internal/observability/rotation.go:170-187 | at most MaxFiles - 1 rotated files are left then |
| `LogRotation.RotationKeepsLimit` | internal/observability/rotation.go:156-200 | after a complete rotation the active log is in slot 1 and at most MaxFiles rotated files are left |
| `LogRotation.RotationFrame` | internal/observability/rotation.go:156-200 | no other file is touched |
| `LogRotation.RotationEffect` | internal/observability/rotation.go:156-200 | canonical directories: the slots after a rotation are the collapsed kept slots with the active log, compressed or not, in slot 1 |
| `LogRotation.CanonicalIff` | internal/observability/rotation.go:219-239 | what the exact results ask of a directory, as a condition on the names alone |
| `LogRotation.PlanPossibleIff` | internal/observability/rotation.go:156-200 | whatever the directory holds, every step of a rotation finds its file, if and only if there is an active log |
| `LogRotation.KeptAreLowest` | internal/observability/rotation.go:170-180 | the files given up rank above all that are kept |
| `LogRotation.GivenUpFirst` | internal/observability/rotation.go:245-253 | of two files the one with the higher number is given up first, and with equal numbers the compressed one |
| `LogRotation.KeptSize` | internal/observability/rotation.go:170-180 | how many are kept |
| `LogRotation.RotationSize` | internal/observability/rotation.go:156-200 | how many are left, counting those that neighbours overwrite |
| `LogDirectory.EntriesSorted` | internal/observability/rotation.go:245-253 | sorting gives the same entries in order |
| `LogDirectory.Directory.MoveFile` | internal/observability/rotation.go:283-322 | rename, or copy and remove; on failure only the target may have changed |
| `LogDirectory.Directory.CompressFile` | internal/observability/rotation.go:324-360 | the original goes only after its compressed copy is complete |
| `LogDirectory.Directory.GetRotatedFiles` | internal/observability/rotation.go:203-256 | lists exactly the files whose names are recognised, highest number first |
| `LogDirectory.Directory.ShiftRotatedFiles` | internal/observability/rotation.go:258-280 | carries out the renames from the end of the list, and a prefix of them on an error |
| `LogDirectory.Directory.RemoveExcess` | internal/observability/rotation.go:170-180 | removes the first files of the list, and a prefix of them on an error |
| `LogDirectory.Directory.FreeSlots` | internal/observability/rotation.go:170-187 | both in turn |
| `LogDirectory.Directory.MoveActive` | internal/observability/rotation.go:189-199 | moves and compresses the active log, which is not lost on an error |
| `LogDirectory.Directory.PerformRotation` | internal/observability/rotation.go:156-200 | carries out the plan and leaves at most MaxFiles rotated files, or carries out a prefix of it on an error; in no case loses the active log; on a disk that refuses nothing it completes if and only if there is an active log |
| `LogRuns.RotationKeepsCanonical` | internal/observability/rotation.go:156-200 | rotation gives no names but its own, so the exact effect applies to the next rotation too |
| `LogRuns.Climb` | internal/observability/rotation.go:258-280 | each rotation moves every second slot up by one and makes one file of the pair in slots 1 and 2 |
| `LogRuns.RunEffect` | internal/observability/rotation.go:156-200 | from a directory without rotated files, after n rotations: exactly slot 1 and every second slot up to the highest, and which log is in each |
| `LogRuns.RunSize` | internal/observability/rotation.go:156-200 | the number of rotated files is half the highest slot, rounded down, plus 1 |
| `LogRuns.TopBelowLimit` | internal/observability/rotation.go:170-180 | up to 2 MaxFiles - 2 rotations the highest slot is their number: of n logs, n / 2 + 1 are left although nothing was given up for space |
| `LogRuns.FoundIff` | internal/observability/rotation.go:156-200 | which of the logs are found after a run: with MaxFiles of 3 or more the newest, after an even number of rotations the one before it, and of the others every second one as far up as there is room; with 1 or 2 the newest MaxFiles |
| `LogCleanup.ReclaimedIsLeast` | internal/observability/cleanup.go:236-254 | the disk pass removes an oldest-first prefix of the eligible files that is just long enough, or all of them |
| `LogCleanup.RemoveAllSucceedsIff` | internal/observability/cleanup.go:259-280 | a pass succeeds exactly if every file is there and none falls to an earlier removal, with or without archiving |
| `LogCleanup.TwoPassesSucceedIff` | internal/observability/cleanup.go:118-138 | since both passes use one listing, the second succeeds exactly if the first removed no file past retention |
| `LogCleanup.TwoPassesFailIff` | internal/observability/cleanup.go:118-138 | equivalently: unless the first file that the disk pass removed was past retention |
| `LogCleanup.FailureStopsAtOnce` | internal/observability/cleanup.go:208-220 | when it fails, the age pass has removed active logs at most |
| `LogCleanup.RemovedIff` | internal/observability/cleanup.go:259-280 | what a removal that succeeds leaves, with or without archiving: a file goes exactly if it is in the list or has the name of the archive of one that is |
| `LogCleanup.GoneIff` | internal/observability/cleanup.go:118-138 | what is gone after both passes, with or without archiving: files removed for space, expired files, and files with the name of an archive of one of them |
| `LogCleanup.RotatedEligibleIff` | internal/observability/cleanup.go:244-247 | an uncompressed rotated file of a ".log" log is out of reach of the disk pass unless the log's own name contains ".log." |
| `LogCleanup.Cleaner.GetLogFiles` | internal/observability/cleanup.go:166-205 | lists exactly the log files, oldest first |
| `LogCleanup.Cleaner.RemoveLogFile` | internal/observability/cleanup.go:259-280 | removes the file, and with archiving also whatever had its name plus ".gz" |
| `LogCleanup.Cleaner.ArchiveFile` | internal/observability/cleanup.go:283-333 | the original goes only after the archive is complete |
| `LogCleanup.Cleaner.CleanupByAge` | internal/observability/cleanup.go:208-220 | removes the expired files of the listing in turn |
| `LogCleanup.Cleaner.CleanupByDiskSpace` | internal/observability/cleanup.go:223-256 | removes the reclaimed files in turn; an error if free space cannot be read |
| `LogCleanup.Cleaner.CleanupOldLogs` | internal/observability/cleanup.go:101-139 | both passes over one listing, with or without archiving, the second only after the first; with archiving off, when the call fails, and exactly what is left |
| `Reporter.RunKeepsBooks` | pkg/reporter/reporter.go:100-114 | in every interleaving events leave the channel in the order they were accepted, each to one drainer, and a drainer sends what it took in order; the channel never exceeds its capacity |
| `Reporter.RunConserves` | pkg/reporter/reporter.go:161-235 | every accepted event is as often in channel, loop buffer, call lists and batches together as it was accepted |
| `Reporter.RunKeepsFit` | pkg/reporter/reporter.go:198-235 | no batch is empty, and only the loop's last batch can exceed the buffer size |
| `Reporter.EveryRun` | pkg/reporter/reporter.go:67-235 | all three from the start, for every number of producers and drainers |
| `Reporter.TickSends` | pkg/reporter/reporter.go:228-232 | a tick of the running loop sends what the loop holds as one batch, if it holds anything, and leaves it with nothing |
| `Reporter.NothingHeldAfterTick` | pkg/reporter/reporter.go:205-234 | after any run that ends in a tick of the running loop, everything the loop ever took has been sent, in order |
| `Reporter.WithoutTicksBatchesAreFull` | pkg/reporter/reporter.go:221-227 | in runs without ticks every batch of the loop is exactly as large as the buffer, until it exits |
| `Reporter.LoopRunsUntilClosed` | pkg/reporter/reporter.go:177-219 | the loop runs until somebody calls Close, and nothing else stops it |
| `Reporter.DropsIffFull` | pkg/reporter/reporter.go:107-113 | in every run, exactly those steps drop an event that offer one to a full channel |
| `Reporter.DropsOnlyWhenFull` | pkg/reporter/reporter.go:107-113 | a run that drops an event has a first step that does, and the channel is full just before it |
| `Reporter.CloseDrains` | pkg/reporter/reporter.go:177-196 | when Close returns and nothing was accepted after its own report, channel and loop are empty and every accepted event is sent or in the hands of another call |
| `Reporter.CloseCanReturn` | pkg/reporter/reporter.go:177-196 | from every state of a closing call, also before its own report, some continuation in which nobody else reports lets it return |
| `Reporter.FlushAlone` | pkg/reporter/reporter.go:161-174 | an undisturbed Flush sends what the channel held as one batch, in order |
| `Reporter.LateReportsAreStranded` | pkg/reporter/reporter.go:100-114 | after the loop and all calls have ended, accepted events stay in the channel until another Flush or Close comes |
| `ReporterAgent.Agent.constructor` | pkg/reporter/reporter.go:34-37 | a buffer size that is not positive becomes 100; the object starts in the first state of the machine |
| `ReporterAgent.Agent.ReportEvent` | pkg/reporter/reporter.go:100-114 | is the report step of the machine, and drops exactly when the channel is full, without an error |
| `ReporterAgent.Agent.StepCall` | pkg/reporter/reporter.go:161-196 | one step of a call of Flush or Close is that step of the machine |
| `ReporterAgent.Agent.OthersAct` | pkg/reporter/reporter.go:67-196 | what producers and callers do in between is a step of the machine that is not the loop's |
| `ReporterAgent.Agent.LoopSelects` | pkg/reporter/reporter.go:205-234 | one selection of the loop is a step of the machine: a tick sends what is held, an event is added, and the batch is sent exactly if the buffer is full then |
| `ReporterAgent.Agent.Collect` | pkg/reporter/reporter.go:205-234 | the loop until it is cancelled, with others acting before every selection, is a run of the machine, so all its invariants hold |
| `ReporterAgent.Agent.FlushLoop` | pkg/reporter/reporter.go:198-235 | the whole loop is a run of the machine: everything it took is handed over in order, the channel is found empty at the end, and only the last batch can be larger than the buffer size |
| `ReporterAgent.Agent.FlushEvents` | pkg/reporter/reporter.go:161-174 | an undisturbed Flush is a run of the machine that empties the channel into one batch, or sends nothing |
| `ConfigPolling.ConfigStore.UpsertAgentTypeConfig` | web/store/config_store.go:76-124 | a committed upsert stores the configuration, with version 1 or the version plus 1; otherwise nothing changes |
| `ConfigPolling.ConfigStore.UpsertAgentOverride` | web/store/config_store.go:143-191 | the same for the override row |
| `ConfigPolling.RowsHoldTheLast` | web/store/config_store.go:76-200 | after any operations every row holds the configuration it was given last, a deleted row nothing, and an untouched row what it held |
| `ConfigPolling.PollDelivers` | pkg/reporter/config_fetcher.go:38-81 | a poll that arrives leaves the agent with the larger version as its tag, and gives it the configuration of the moment unless it came with that tag |
| `ConfigPolling.WhoIsAsking` | web/handler/config_handler.go:258-285 | the key decides before the query, the query before the registration, and "developer" is the last resort |
| `ConfigPolling.ConfigStore.DeleteAgentOverride` | web/store/config_store.go:194-200 | removes the override row, and with it its version |
| `ConfigPolling.ConfigStore.GetMergedConfig` | web/store/config_store.go:204-220 | override over type, and the larger version; a missing row counts as empty and 0 |
| `ConfigPolling.ConfigStore.HandleIngestConfig` | web/handler/config_handler.go:251-316 | who is asking, the tag, 304 exactly if the tags are equal, and otherwise the merged configuration with the server's defaults |
| `ConfigPolling.SetOrDefault` | pkg/apitypes/config.go:124-233 | a field that is set is delivered as it is; one that is null or missing, at any depth, has its default |
| `ConfigPolling.CompleteTwice` | pkg/apitypes/config.go:124-233 | applying the defaults once more changes nothing |
| `ConfigPolling.OverrideReplacesSection` | web/store/config_store.go:204-220 | the merge is shallow: for a section in the override, a field not set there has the server's default, whatever the type row says |
| `ConfigPolling.FieldKeptIff` | web/store/config_store.go:204-220 | a field that the override does not set keeps the value it has without the override, if and only if the override lacks the whole section or that value is the default |
| `ConfigPolling.ConfigFetcher.FetchConfig` | pkg/reporter/config_fetcher.go:38-81 | the tag is kept only after an answer that could be decoded |
| `ConfigPolling.NotModifiedIsCurrent` | web/handler/config_handler.go:303-310 | over all interleavings of writes and polls without an override row, a 304 means that the last delivered configuration is the current one |
| `ConfigPolling.NothingHiddenWithoutOverride` | web/store/config_store.go:204-220 | without an override row a 304 comes exactly if the type row was not written since |
| `ConfigPolling.HiddenIff` | web/store/config_store.go:204-220 | while the agent's tag is current, stale or not, any writes without deletion stay hidden exactly as long as neither version passes the larger of the two |
| `ConfigPolling.VersionsCountUpserts` | web/store/config_store.go:94-169 | a row's version grows by the number of its upserts, and by nothing else |
| `ConfigPolling.TypeUpsertHiddenIff` | web/store/config_store.go:94-102 | one upsert of the type row is hidden exactly if its new version does not exceed the override's |
| `ConfigPolling.OverrideUpsertHiddenIff` | web/store/config_store.go:161-169 | one upsert of the override row is hidden exactly if its new version does not exceed the type row's |
| `ConfigPolling.FirstOverrideIsHidden` | web/store/config_store.go:161-169 | an agent whose type is configured never sees its first override |
| `ConfigPolling.StaleUntilPassed` | pkg/reporter/config_fetcher.go:52-64 | a hidden write stays hidden over any number of polls |
| `ConfigPolling.DeleteHiddenIff` | web/store/config_store.go:194-200 | a deletion is hidden exactly if the override's version did not exceed the type row's |
| `ConfigPolling.AfterDeleteHiddenIff` | web/store/config_store.go:194-220 | after a deletion, any further writes are hidden if and only if the larger of the two versions they lead to is the tag again |
| `ConfigPolling.DeletedThenUpserted` | web/store/config_store.go:194-220 | in particular a deletion and an upsert can bring the tag back to a value that stood for something else |
| `ConfigPolling.ChangedIdentityHiddenIff` | web/handler/config_handler.go:258-285 | a poller taken for another agent or type keeps its old configuration exactly if the tags happen to be equal |
| `Retry.ContainsIgnoresCaseIff` | internal/errors/agent_errors.go:257-263 | exactly when the search for a keyword ignores case, as its comment says it does: not for a text as long as the keyword |
| `Retry.BackoffNeedsStructuredError` | internal/errors/retry.go:300-316 | backoff never applies to an error that the classifier itself makes up |
| `Retry.GivenUpIff` | internal/errors/agent_errors.go:172-219 | which unstructured errors are not retried when every kind is listed |
| `Retry.DefaultGivesUpIff` | internal/errors/retry.go:25-39 | and under the default policy, which also gives up on "too many requests" |
| `Retry.JitterAtMost` | internal/errors/retry.go:319-333 | a wait exceeds its delay by the jitter factor at most, for jitter up to 1 and any delay |
| `Retry.TotalWait` | internal/errors/retry.go:141-280 | total waiting is at most (MaxAttempts - 1)(1 + j) times the larger of MaxDelay and the longest RetryAfter |
| `Retry.MultipleIsProduct` | internal/errors/retry.go:141-280 | the repeated sum in that bound is the product |
| `Retry.WholeBackoff` | internal/errors/retry.go:306-313 | with a whole factor the first delay is the base delay and each one the factor times the one before, up to the maximum |
| `Retry.DefaultBackoff` | internal/errors/retry.go:25-39 | by default 1, 2, 4, 8 and 16 seconds, and 30 from then on |
| `Retry.DelayWithoutJitter` | internal/errors/retry.go:300-316 | a delay that comes with the error is used as it is, and the backoff otherwise |
| `Retry.JitterWithin` | internal/errors/retry.go:319-333 | a wait is off by the jitter factor at most, in both directions, and not at all for a sample of 0 |
| `Retry.JitterReaches` | internal/errors/retry.go:319-333 | and the extreme samples reach these limits, up to less than a nanosecond |
| `Retry.JitterFloor` | internal/errors/retry.go:327-330 | no wait is negative, however large the factor: half of the delay is left |
| `Retry.UnstructuredIs` | internal/errors/agent_errors.go:172-255 | kind, retryability and delay of every error that the classifier makes up |
| `Retry.Execute` | internal/errors/retry.go:119-280 | for any outcomes, samples and ends of the context: between 1 and MaxAttempts runs, each but the last followed by another exactly because it failed retryably and its wait was not interrupted; which of four results follows; every wait but the last is the full delay; the bound on waiting |
| `Retry.ExecuteProtected` | internal/errors/circuit_breaker.go:325-337 | one decorated call is one call of the breaker whatever the attempts: it adds 1 to requests, except that a success resets them to 0 when the state before the call is not closed and it completes the successes needed |
| `Conversation.KeptUses` | internal/claude/conversation.go:340-350 | the history keeps every tool use of a response in order, and no result |
| `Conversation.KeptBack` | internal/claude/conversation.go:340-350 | the history keeps text, identifiers and names of a response, in order: it can be read back from there |
| `Conversation.ExtractsFirst` | internal/claude/client.go:191-198 | the text of an answer is that of its first text block, and empty if there is none |
| `Conversation.AssistantMessage` | internal/claude/conversation.go:340-350 | text and tool use blocks are kept, others are dropped |
| `Conversation.ProcessToolCalls` | internal/claude/conversation.go:146-173 | one result for every tool use, in order, each with the output of its own tool, cut after 20000 bytes, or with its error |
| `Conversation.AppendTurn` | internal/claude/conversation.go:81-134 | a round with tools keeps the transcript well formed and adds its results to the count |
| `Conversation.AppendRole` | internal/claude/conversation.go:60-64 | what one more message does to the alternation of roles |
| `Conversation.Conversation.constructor` | internal/claude/conversation.go:44-56 | a budget that is not positive becomes 20 |
| `Conversation.Conversation.TakeResponse` | internal/claude/conversation.go:76-134 | a response goes into the history whole; if it uses tools, each use is answered in the next message, in order, with nothing else, and otherwise its first text is the answer |
| `Conversation.Conversation.Round` | internal/claude/conversation.go:65-134 | one request, of the history as it is; it ends the exchange exactly if it fails or its response uses no tool |
| `Conversation.Conversation.Rounds` | internal/claude/conversation.go:65-138 | the first reply that fails or uses no tool decides the outcome and is the last one asked for; the budget is exhausted exactly if maxIter replies all used tools |
| `Conversation.Conversation.Send` | internal/claude/conversation.go:60-139 | over any number of calls: roles alternate if and only if all calls but the last were answered; every request sent was well formed; history only grows; the replies decide the outcome and the text |
| `Conversation.Conversation.RestoreConversation` | internal/claude/conversation.go:258-317 | clears the history but not the count, which then no longer is the number of results, unless there were none |
| `Snapshots.SortByTime` | internal/workspace/persistence.go:480-486 | the exchange sort leaves a sorted permutation |
| `Snapshots.ExchangeStep` | internal/workspace/persistence.go:480-486 | what one exchange keeps |
| `Snapshots.PrefixIsOldest` | internal/workspace/persistence.go:489-494 | the first entries are the oldest, and as many as counted |
| `Snapshots.KeptCount` | internal/workspace/persistence.go:470-506 | how many are kept: as many as there is room for, or as many as are not expired |
| `Snapshots.NewestIsKeptIff` | internal/workspace/persistence.go:448-467 | with room for one, the newest time survives if and only if it is not expired; otherwise nothing does |
| `Snapshots.Persistence.GetSnapshots` | internal/workspace/persistence.go:225-251 | the readable files of the issue in the configured form, each once |
| `Snapshots.Persistence.DeleteSnapshot` | internal/workspace/persistence.go:254-269 | removes only files with that identifier, and all of them on a reliable disk |
| `Snapshots.VisibleIs` | internal/workspace/persistence.go:225-251 | which files count as snapshots of an issue |
| `Snapshots.CleanedUp` | internal/workspace/persistence.go:470-506 | nothing expired and no more than MaxSnapshots can be found afterwards, on a reliable disk; the newest keeps its time |
| `Snapshots.Persistence.CleanupOldSnapshots` | internal/workspace/persistence.go:470-506 | what is left is all but the oldest in excess and the expired; other issues are untouched; the newest keeps its time |
| `Snapshots.Persistence.FindLatestSnapshot` | internal/workspace/persistence.go:448-467 | finds a newest snapshot, or none exactly if there is none |
| `Snapshots.Persistence.CreateSnapshot` | internal/workspace/persistence.go:102-156 | a snapshot later than all others of its issue survives the cleanup that follows, which leaves nothing expired and no more than MaxSnapshots on a reliable disk |
| `Memory.LeastUsedIs` | internal/memory/memory.go:122-131 | the entry evicted is the first of the least used |
| `Memory.RunKeepsValid` | internal/memory/memory.go:87-173 | over any adds and marks, contents stay distinct and within the limit |
| `Memory.AddedIs` | internal/memory/memory.go:87-131 | a known content changes nothing; a new entry goes to the end, and if there are too many then, the first of the least used goes |
| `Memory.MarkedIs` | internal/memory/memory.go:157-173 | exactly the entries with these identifiers are counted once more, and nothing else changes |
| `Memory.ForgottenAtOnceIff` | internal/memory/memory.go:104-131 | a new entry is evicted at once exactly if the memory is full and all others were used more often |
| `Memory.OversizeNeverShrinks` | internal/memory/memory.go:104-131 | a memory loaded with too many entries never gets smaller |
| `Memory.FittingIsMost` | internal/memory/memory.go:236-244 | the lines shown fit, and the first left out does not |
| `Memory.AllShownIff` | internal/memory/memory.go:218-247 | every entry of every listed category is shown if and only if they all fit |
| `Memory.LeftOutDoesNotFit` | internal/memory/memory.go:218-234 | sections come in the order of the categories, none is passed over, and the first heading left out does not fit |
| `Memory.PromptFits` | internal/memory/memory.go:215-247 | a prompt exceeds the budget by one byte at most |
| `Memory.PromptBoundIsTight` | internal/memory/memory.go:245-246 | and can exceed it by one, for every layout with room for a line |
| `Memory.NoneShownTwice` | internal/memory/memory.go:218-247 | no memory is shown twice |
| `Memory.InTurnShowPrefixes` | internal/memory/memory.go:218-247 | sections are of different categories, each showing a beginning of its category |
| `Memory.Store.AddEntry` | internal/memory/memory.go:87-113 | duplicates are skipped; a failing save is reported but the entry is remembered |
| `Memory.Store.Evict` | internal/memory/memory.go:116-132 | the loop finds that entry and removes it |
| `Memory.Store.MarkEntries` | internal/memory/memory.go:157-173 | adds one use to exactly the entries with these identifiers |
| `Memory.Store.FormatForPrompt` | internal/memory/memory.go:184-256 | the nested loops write `Prompt`, of at most 8001 bytes, and report the entries shown |
| `Memory.AppendLines` | internal/memory/memory.go:236-244 | the inner loop |
| `Sorting.SortSorts` | internal/observability/rotation.go:245-253 | sorting by an order with ties gives a sorted rearrangement |

## Left out

- Counter overflow: the breaker's counters, issue numbers, row versions and rotation numbers are unbounded integers; wrap-around at 64 bits is not modelled, nor is `strconv.Atoi` failing on a numeral beyond 64 bits.
- Floating point: ratio, backoff and jitter are computed over the reals and truncated where the source converts; rounding and the overflow of durations beyond 64 bits are not modelled.
- Panics: a panic in a protected function, a tool or a handler is not modelled.
- ReporterAgent.Agent.FlushLoop: the calls of others while the loop runs are single steps of the machine; heartbeats, which `Close` also waits for, are not modelled.
- ConfigPolling.ConfigStore.HandleIngestConfig: a missing organisation, a failing query and a configuration that cannot be decoded are one failing outcome; keys that the typed configuration does not know are kept here and dropped by the source.
- ConfigPolling.ConfigStore.GetMergedConfig: rows of one organisation; a configuration is an object of objects and scalars, and lists count as scalars.
- The configuration audit log: written in the same transaction, never read by the polling path.
- Workflow.Developer.ProcessIssue: the branch for a missing workspace manager, which construction rules out; others acting on GitHub act before each claim and not in the middle of one issue's own steps, except for taking issue numbers; what the state store's slot holds after a decomposition, where the last child's state replaces the parent's.
- Workflow.Developer.RunPoller: one process; a later one starts with the labels that an interrupted claim has left. Claims are bounded by grants of the ready label, which covers the absence of resets and outsiders as the case of one grant; MaxSubtasks is taken as not negative.
- Workflow.GitHub.ListIssues: closed issues, and pull requests with the label, which the source filters out after they have taken up places of the page.
- Workflow.Developer.CreateChildIssues: the regular expressions that parse subtasks, estimates and parent references; only the number of subtasks matters.
- Workflow.Developer.Validate: the merge that follows is only reported by the source and changes nothing here.
- Recovery from saved states and checkpoints, resume risk scoring and rejection caches: branch tables over what is saved.
- WorkspaceManager.Manager.CreateWorkspace: workspace sizes, disk figures and the sharing of entries through pointers; the map has no lock in the source and is used by one goroutine here.
- LogDirectory.Directory.PerformRotation: MaxFiles of at least 1, as a validated configuration has it; forcing a rotation skips validation, and with MaxFiles of 0 or less it indexes past the list. Directory entries whose metadata cannot be read are passed over by the source and do not occur here; the active log's own name must not read as a rotated name.
- LogRotation.RotationEffect: directories whose rotated files carry the names that rotation gives; for any other names the capacity, the frame and the free first slot are proved.
- LogRuns.RunEffect: complete rotations in a row, with nobody else renaming files in the directory; one that fails half way is `LogDirectory.Directory.PerformRotation`.
- LogCleanup.Cleaner.GetLogFiles: directory entries whose metadata cannot be read are passed over by the source and do not occur here.
- Deciding when to rotate by size and age, and the timers of rotation and cleanup.
- LogCleanup.Cleaner.CleanupOldLogs: exact for a disk where operations fail only on missing files; whether each pass fails is `RemoveAllSucceedsIff`, and what is gone `GoneIff`.
- Retry.ContainsIgnoresCaseIff: letters outside ASCII, whose lower case can change the length of a text.
- Retry.Execute: metrics, logging and correlation identifiers.
- Conversation.Conversation.Send: the text of tool summaries, the choice between the two request functions, and cutting a tool result inside a character.
- Snapshots.Persistence.CreateSnapshot: file hashes, git state and the implementation hash, which depends on map order; MaxSnapshots of at least 0, below which the source indexes past its list.
- Memory.Store.MarkEntries: runs after the prompt is built, in a goroutine of its own, and `LastUsed` is not modelled; entries are values, so a caller's changes through shared pointers are not seen.
- Command line, web handlers other than the polled one, router, authentication, tunnels, frontend and configuration tables: code without state or recursion worth a proof.
