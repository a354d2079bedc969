# Executions, credential overwrites and activation in n8n's main process

A Dafny model of the parts of `packages/cli/src` in which several things happen to one piece of
state, and proofs of what holds throughout.

- `resume_protocol.dfy`, `waiting_epochs.dfy`, `child_results.dfy`: a parent execution waits while
  its children finish concurrently. Each child's resume reads and patches the parent's row, loads it,
  and claims it by a compare-and-swap on the row status; every step may fail and be retried, and a resume without a
  child (timer, webhook, chat) takes part as well. A transition system over the database rows and
  one program counter per resume.
- `active_executions.dfy`: the in-process registry, with the incarnations of an id, their
  post-execute promises and pending settlement callbacks, and the capacity reservations of `add`.
- `concurrency_queue.dfy`: the queue the reservations are taken from.
- `wait_tracker.dfy`: timers of waiting executions, and `withRetry`.
- `credential_types.dfy`, `credentials_overwrites.dfy`: the ancestor list built by a loop over a
  growing array, and the memoised resolver that rewrites the map it iterates.
- `credential_repair.dfy`: the two-cache pass over a workflow's credential references.
- `webhooks.dfy`, `activation_queue.dfy`, `deadlines.dfy`: webhook registration with rollback, the
  retry timers of activations, and deadlines of nested executions.

Objects whose methods update fields are classes; each method is proved against a function on values
(`Next`, `SetPlain`, `Pass`, ...) and the properties are lemmas about these functions and their runs.
Key orders that the JavaScript engine chooses, clock readings, database contents, outcomes of
operations and faults are parameters, so the results hold for all of them.

## Where the code does not do what one would expect

Each of these is a proved statement about the model; the exact condition is proved where one is given.

- A failure after a won claim is not recovered, although the comment at `wait-tracker.ts:187-191`
  promises that a transient failure recovers and that otherwise the parent stays `waiting`: the retry
  finds the row running, takes it for another process's claim, and ends silently
  (`RetryAfterClaimNeverRuns`, `RetryRecoversIff`).
- The patch of a parent is written without a status condition, so a child that read in one waiting
  epoch can overwrite the data of the next (`StaleWriteCrossesEpochs`), and a child that patched in one
  epoch can win the next without delivering anything (`LateLoadDeliversNothing`). An epoch is safe from
  the reports made before it began exactly if every resume that has one is over or cannot try again
  (`EpochIsSafeIff`).
- Stopping or taking over a waiting entry whose promise has not settled puts the promise out of
  reach and keeps its capacity reservation for good (`LosesAPromiseIff`, `LostStaysLost`,
  `StopLosesAPromise`).
- Runs finalize by execution id, so the run of an earlier incarnation can end a resumed one: it is
  safe exactly if all earlier ones are done with when it is taken over (`ResumedStaysIff`).
- A running execution that starts to wait during a plain `shutdown` is kept by its callback, and the
  shutdown waits for good (`TurningWaitingBlocks`, `LeftWaitingBlocksIff`).
- Removing a queued execution, which holds no slot, lets the next one through: the limit is exceeded
  exactly when others wait with it (`LimitHoldsIff`).
- `stopTracking` clears timers but keeps the entries, so later polls skip these executions
  (`StepDownStrands`, `StrandedThroughRuns`).
- While a type is resolved later parents win, in `get` earlier ones do: for a type the two agree on
  all inputs exactly when neither it nor an ancestor has two parents (`FollowsTheListIffSingleLine`,
  `LastParentWins`).
- A reference with an unknown id is cached under that id with its own name, and a later reference with
  the same id and another name gets that name or misses its own fallback (`AgreesIffNoStaleName`).
- An attempt that fails after its workflow was queued again arms a second timer (`TimersOwnedIff`), which
  outlives the removal of the workflow and calls `add` for it (`RemovedIsGoneIff`).
- A retry that returns without activating (the workflow is archived, or no longer active) leaves its
  workflow queued without a timer: it is never tried again (`AtomicTimersIff`, `ForgottenIsNeverRetried`).
- A failing `saveStaticData` at `active-workflow-manager.ts:218` is not rolled back; the rows stay
  (`AddWebhooks`, `NothingIsLeftIff`). In init and leadershipChange only a raw database error is
  tolerated: a path taken by another workflow still throws, unless the lookup of its owner fails that
  way (`TakenPathIsFatalIff`).
- The comment at `workflow-execute-additional-data.ts:251-254` says that the clamping mirrors the
  main path; with a maximum of zero or less it does not, since there the main run has no deadline
  (`DeadlinesAgreeIff`).
- `shutdown` disables concurrency control before it calls `removeAll`, which then returns at once, so
  the ids collected for cancelling are not used; the model has the loop, the callbacks and the wait.

## Model

| member | source | states |
|---|---|---|
| ResumeProtocol.ClaimsNeverExceedWaits | packages/cli/src/active-executions.ts:114-148 | In every run of any number of resumes, with any interleaving and any retries, the claims of a row never exceed the times it entered `waiting`, and the ancestor resumes scheduled for it never exceed its claims |
| ResumeProtocol.StepKeepsClaims | packages/cli/src/active-executions.ts:129-139 | Every step keeps "claims, plus one if the row waits, do not exceed entries into `waiting`" |
| ResumeProtocol.StepKeepsScheduled | packages/cli/src/wait-tracker.ts:153-181 | Every step keeps "scheduled ancestor resumes plus claimed runs still in progress do not exceed claims", so only a claim that won can schedule one |
| ResumeProtocol.LosingClaimIsSilent | packages/cli/src/wait-tracker.ts:159-168 | A claim that finds the row no longer waiting changes no row, count or other resume, and ends its own resume normally |
| ResumeProtocol.SilentNeverResumes | packages/cli/src/wait-tracker.ts:200-202 | A child that settles without a result, or waiting, ends its resume and does nothing to its parent in any continuation |
| ResumeProtocol.FinishedIsNeverResumed | packages/cli/src/wait-tracker.ts:130-135 | While its row is missing or finished, a resume that has yet to load it never gets to run, in any continuation |
| ResumeProtocol.FinishSchedulesIff | packages/cli/src/wait-tracker.ts:173-181 | After `run`, a resume is scheduled exactly if the execution has a parent whose `shouldResume` is not false, for that parent and for this child |
| ResumeProtocol.EveryClaimIsAccountedFor | packages/cli/src/wait-tracker.ts:153-181 | In every run each claim is still running, was completed or was broken off by a failure, and the ancestor resumes scheduled are exactly the completed runs that ask for one |
| ResumeProtocol.ThirdFailureGivesUp | packages/cli/src/wait-tracker.ts:204-222 | The patch phase and the start phase of a child's resume each survive two retryable failures and end with the third |
| ResumeProtocol.FailureStartsThePhaseOver | packages/cli/src/wait-tracker.ts:238-252 | Where a failure in any step of a phase leads: to the start of its phase if it may be retried and an attempt is left, otherwise to the end |
| ResumeProtocol.AgentsAfter | packages/cli/src/wait-tracker.ts:194-229 | Every step of a resume changes that resume only, keeps whom it is for and what it reports, uses up some of its bounded work, and adds at most one resume, and that only when `run` returned |
| ResumeProtocol.EveryResumeEnds | packages/cli/src/wait-tracker.ts:204-222 | Each own step of a resume shrinks its work and no other step touches it |
| ResumeProtocol.OwnStepsAreBounded | packages/cli/src/wait-tracker.ts:204-222 | Over any run, the own steps of a resume plus its remaining work never exceed the work it started with |
| ResumeProtocol.ResumeTakesAtMost | packages/cli/src/wait-tracker.ts:204-222 | In every run a resume scheduled for a child takes at most 17 steps of its own, a direct one at most 9, whatever the others do |
| ResumeProtocol.RetryAfterClaimNeverRuns | packages/cli/src/wait-tracker.ts:216-222 | A failure after the claim took effect is never recovered: unless the row is made to wait again, that resume never gets to run the parent, in any continuation |
| ResumeProtocol.RetryRecoversIff | packages/cli/src/wait-tracker.ts:216-222 | A retry left alone gets to run the execution if and only if the failed step left the row waiting; otherwise it reports a lost claim and ends |
| ResumeProtocol.UninterruptedPatch | packages/cli/src/workflow-helpers.ts:541-618 | The read and the write step with nothing in between are the patch as one operation on the rows |
| ResumeProtocol.ExecutionRows.UpdateParentExecutionWithChildResults | packages/cli/src/workflow-helpers.ts:534-619 | In place, for every result: the final output becomes the data of the waiting parent's stack head, an error instead becomes its resume error with the child, and nothing else changes; without either, or without such a parent, no row changes |
| WaitingEpochs.EpochIsSafeIff | packages/cli/src/workflow-helpers.ts:534-619 | For any state of a run in which the parent waits, unfinished, with a stack: all wins of reporting children, in all continuations of this epoch, restart it on the epoch's data with a report made since on the stack head, if and only if every resume of it that already has something to report is done, or has claimed with no attempt left |
| WaitingEpochs.SafeWinDelivers | packages/cli/src/workflow-helpers.ts:534-619 | The "if" of it over all runs: whatever the interleaving of reads, writes, loads, claims and retries |
| WaitingEpochs.WinInEpochDelivers | packages/cli/src/workflow-helpers.ts:534-619 | The same for any set of resumes regarded as past: the report delivered is never one of theirs |
| WaitingEpochs.WinnerFinishedSince | packages/cli/src/wait-tracker.ts:204-222 | In a safe epoch the winner itself is a child that finished since it began |
| WaitingEpochs.ActiveResumeWins | packages/cli/src/wait-tracker.ts:204-222 | The "only if": every leftover resume with something to report has a run of one to four steps of its own that wins without any report made since |
| WaitingEpochs.RunIsSane | packages/cli/src/workflow-helpers.ts:599-618 | In every run the data a resume is about to write carries its own child's report |
| WaitingEpochs.WinnerDeliversAChild | packages/cli/src/workflow-helpers.ts:534-619 | An epoch that begins before any child finishes is safe: a winning child restarts the parent on the data the epoch began with, changed on the stack head only, by reports of children that finished since, and by at least one of them |
| WaitingEpochs.WinnerRestartsOnOneOutput | packages/cli/src/workflow-helpers.ts:519-528 | In a safe epoch in which every child that finished since reported an output, the claimed row equals the data the epoch began with except that the stack head holds exactly one such child's output |
| WaitingEpochs.WinnerHasOneOutput | packages/cli/src/workflow-helpers.ts:608-613 | Epoch data that delivers a report, when all reports are outputs, differs from the first data only in one child's output on the stack head |
| WaitingEpochs.StaysInEpoch | packages/cli/src/workflow-helpers.ts:543-557 | Every run in which the parent goes on waiting keeps the epoch invariant over the row and over the data each resume holds between its read and its write, and its load and its claim |
| WaitingEpochs.StepStaysInEpoch | packages/cli/src/workflow-helpers.ts:543-557 | Every single step keeps the epoch invariant while the parent waits |
| WaitingEpochs.PatchStaysInEpoch | packages/cli/src/workflow-helpers.ts:599-613 | Patching epoch data with a report that was made gives epoch data that carries that report |
| WaitingEpochs.StaleWriteCrossesEpochs | packages/cli/src/workflow-helpers.ts:615-618 | Unsafe epochs are reached: a child that reads in a fresh epoch and writes in the next wins it with the data of the first, whatever the data of the two |
| WaitingEpochs.FirstEpochIsLost | packages/cli/src/wait-tracker.ts:206-210 | The first part of that run: the child has read and patched, another resume has won the epoch |
| WaitingEpochs.SecondEpochIsOverwritten | packages/cli/src/workflow-helpers.ts:615-618 | Its second part: the parent waits on new data, which the stale write replaces and the child's claim confirms |
| WaitingEpochs.PatchedEpochIsLost | packages/cli/src/wait-tracker.ts:206-214 | The first part of the other way in: the child has patched, another resume has won the epoch |
| WaitingEpochs.SecondEpochIsTaken | packages/cli/src/wait-tracker.ts:216-222 | Its second part: the parent waits again, the child loads and claims |
| WaitingEpochs.LateLoadDeliversNothing | packages/cli/src/wait-tracker.ts:216-222 | A child that patched in a fresh epoch and loads in the next wins with the row unchanged, which delivers nothing even when its output happens to be on the stack head |
| ChildResults.ReportMeaning | packages/cli/src/workflow-helpers.ts:81-114 | Iff for each case: a child reports its error; without one the data of the last run of its last node, or its pinned data in manual mode; and otherwise nothing |
| ActiveExecutions.CapacityIsConserved | packages/cli/src/active-executions.ts:68-148 | In every reachable state the reservations held are those of non-evaluation `add` calls between reserve and outcome plus those of non-evaluation incarnations whose callback has not run; never negative, so none is released twice |
| ActiveExecutions.StepConserves | packages/cli/src/active-executions.ts:163-171 | Every step keeps that count |
| ActiveExecutions.SupersededNeverRemoves | packages/cli/src/active-executions.ts:150-179 | In every run that takes over only absent, waiting or finished entries, the callback of a superseded incarnation leaves the entries and response modes as they are |
| ActiveExecutions.TakeOverGuardIsExact | packages/cli/src/active-executions.ts:150-161 | Taking over an entry keeps that invariant if and only if the local entry is absent, waiting, or its callback has run |
| ActiveExecutions.StartTimeCarriesOver | packages/cli/src/active-executions.ts:153-161 | While an id stays registered its start time is that of its first incarnation, through any number of resumes |
| ActiveExecutions.AddedIncarnation | packages/cli/src/active-executions.ts:150-161 | `add` registers a new incarnation that is running, unsettled and not attached, with the start time and response promise of the one it replaces, or the time of the call |
| ActiveExecutions.StaysRunning | packages/cli/src/active-executions.ts:313-315 | Until somebody changes its status it stays running, in every run |
| ActiveExecutions.PlainShutdownKeepsRunning | packages/cli/src/active-executions.ts:345-348 | A plain shutdown keeps an execution whose status nobody changed since it was added |
| ActiveExecutions.LosesAPromiseIff | packages/cli/src/active-executions.ts:216-243 | A step leaves every unsettled promise reachable if and only if it does not stop or take over an entry whose promise is unsettled and which is then dropped |
| ActiveExecutions.LostStaysLost | packages/cli/src/active-executions.ts:245-265 | A promise that is out of reach is never settled in any continuation, so its reservation is held for good |
| ActiveExecutions.StopLosesAPromise | packages/cli/src/active-executions.ts:232-238 | A five-step run from the empty registry that loses one: an execution starts to wait and is stopped before its run finalizes it |
| ActiveExecutions.ForeignMeansOvertaken | packages/cli/src/active-executions.ts:150-161 | In every run from the empty registry, the run of an incarnation can settle another one only if the id was taken over while it was going on |
| ActiveExecutions.ForeignFinalizeIff | packages/cli/src/active-executions.ts:246-263 | It then does so exactly when the registered incarnation has not settled |
| ActiveExecutions.StaysRegisteredIff | packages/cli/src/active-executions.ts:163-179 | An unfinished incarnation that nobody stops or takes over stays registered in every continuation until its own run returns if and only if all other incarnations of its id are done with: run ended, and no removing callback to come |
| ActiveExecutions.ResumedStaysIff | packages/cli/src/active-executions.ts:150-179 | A resumed execution is safe from its earlier incarnations if and only if all of them are done with when it is taken over |
| ActiveExecutions.LateFinalizeRemoves | packages/cli/src/active-executions.ts:246-263 | Otherwise the earlier run's finalization settles the new incarnation, whose callback removes its entry |
| ActiveExecutions.RecordAfter | packages/cli/src/active-executions.ts:163-179 | What any step may do to an incarnation: promises settle once and while registered, statuses change while registered, start times never |
| ActiveExecutions.ShutdownEffect | packages/cli/src/active-executions.ts:338-349 | What the loop over the ids has done after any prefix: which entries are gone and which promises are settled, everything else unchanged |
| ActiveExecutions.DrainEffect | packages/cli/src/active-executions.ts:163-179 | What running a list of pending callbacks in any order leaves: exactly the entries of settled, non-waiting incarnations are gone |
| ActiveExecutions.CancelAllEmptiesIff | packages/cli/src/active-executions.ts:330-363 | Cancelling everything empties the registry, once the pending callbacks ran in any order, if and only if no registered entry is past its callback without being waiting |
| ActiveExecutions.PlainShutdownDrops | packages/cli/src/active-executions.ts:345-348 | Without cancelling, exactly the waiting and new entries are dropped at once and no promise is touched |
| ActiveExecutions.PlainShutdownEmptiesIff | packages/cli/src/active-executions.ts:338-362 | A plain shutdown empties the registry, once pending callbacks ran, if and only if every entry was waiting, new, or about to be removed by one of them |
| ActiveExecutions.LeftWaitingBlocksIff | packages/cli/src/active-executions.ts:353-362 | An entry left waiting with its callback run keeps the registry non-empty in every continuation that does not stop, restatus or take over that execution, if and only if no other incarnation of its id has a removing callback to come |
| ActiveExecutions.TurningWaitingBlocks | packages/cli/src/active-executions.ts:345-362 | A running execution that starts to wait during a plain shutdown ends in that state, so the wait never ends |
| ActiveExecutions.WaitUntilEmpty | packages/cli/src/active-executions.ts:353-362 | Over any run of the registry the polling loop ends exactly when it first sees no entries, and never while an execution that blocks the shutdown is left alone |
| ActiveExecutions.KeptThroughout | packages/cli/src/active-executions.ts:353-362 | Such an execution is registered in every state of the run |
| ActiveExecutions.ActiveExecutions.BeginAdd | packages/cli/src/active-executions.ts:62-103 | A call of `add` begins |
| ActiveExecutions.ActiveExecutions.Reserve | packages/cli/src/active-executions.ts:118-120 | The whole state after the reservation; evaluation executions skip it |
| ActiveExecutions.ActiveExecutions.FailAdd | packages/cli/src/active-executions.ts:145-148 | The whole state after a failed call: the reservation, if taken, is given back and no entry appears |
| ActiveExecutions.ActiveExecutions.FinishAdd | packages/cli/src/active-executions.ts:150-183 | Field by field: the id points to one more incarnation, running and unsettled, with inherited start time and response promise; all other entries and incarnations stay |
| ActiveExecutions.ActiveExecutions.StopExecution | packages/cli/src/active-executions.ts:216-243 | The whole state after a stop: a waiting entry is removed, any other is rejected, none is a no-op |
| ActiveExecutions.ActiveExecutions.FinalizeExecution | packages/cli/src/active-executions.ts:246-265 | The whole state after finalizing: the registered incarnation settles, once |
| ActiveExecutions.ActiveExecutions.RunReturns | packages/cli/src/workflow-runner.ts:465-484 | The whole state after a run calls finalize by its execution id |
| ActiveExecutions.ActiveExecutions.SetStatus | packages/cli/src/active-executions.ts:313-315 | The status of a registered entry changes; an unknown id is reported |
| ActiveExecutions.ActiveExecutions.RunCallback | packages/cli/src/active-executions.ts:169-179 | The whole state after the settlement callback of one incarnation |
| ActiveExecutions.ActiveExecutions.ShutDownEntries | packages/cli/src/active-executions.ts:330-349 | The loop over the enumerated ids is the shutdown the lemmas speak of |
| ConcurrencyQueues.LimitHoldsIff | packages/cli/src/concurrency/concurrency-queue.ts:44-54 | In every run the number of admitted executions stays within the limit if and only if no queued execution is ever removed while others wait with it |
| ConcurrencyQueues.StepExceedsIff | packages/cli/src/concurrency/concurrency-queue.ts:44-73 | A single step exceeds the limit exactly when it is such a removal |
| ConcurrencyQueues.RunIsSound | packages/cli/src/concurrency/concurrency-queue.ts:21-54 | In every run the capacity is the limit less admitted and waiting executions, and nobody waits while there is room |
| ConcurrencyQueues.FirstInFirstOut | packages/cli/src/concurrency/concurrency-queue.ts:21-42 | Without removals, admitted followed by waiting executions are the arrivals in order |
| ConcurrencyQueues.ConcurrencyQueue.Remove | packages/cli/src/concurrency/concurrency-queue.ts:44-54 | In place: the first item of the id leaves, capacity grows, the first of the rest is let through; without such an item nothing changes |
| WaitTracker.PollArmsIff | packages/cli/src/wait-tracker.ts:98-109 | After a poll a returned execution has a timer iff it was not tracked before or its timer was still armed |
| WaitTracker.PollTracks | packages/cli/src/wait-tracker.ts:98-109 | A returned execution that is not tracked gets a timer that is due when its row says |
| WaitTracker.PollKeeps | packages/cli/src/wait-tracker.ts:98-109 | A poll changes nothing that was tracked or armed |
| WaitTracker.EveryPollArms | packages/cli/src/wait-tracker.ts:82-110 | In every run without a step-down, every poll leaves every returned execution with a timer |
| WaitTracker.StepDownStrands | packages/cli/src/wait-tracker.ts:255-264 | After a step-down a tracked execution has no timer left iff its only timer was the recorded one |
| WaitTracker.StrandedThroughRuns | packages/cli/src/wait-tracker.ts:98-109 | Such an execution stays tracked without a timer through any run of polls, leadership changes, and stops and starts of others |
| WaitTracker.StrandedStays | packages/cli/src/wait-tracker.ts:112-122 | Only stopping or starting that very execution ends this state |
| WaitTracker.WaitingExecutions.GetWaitingExecutions | packages/cli/src/wait-tracker.ts:98-109 | The loop arms one timer for each returned execution that is not tracked, in place |
| WaitTracker.WaitingExecutions.StopAllTimers | packages/cli/src/wait-tracker.ts:255-264 | The loop clears the timer of every entry and keeps the entries |
| WaitTracker.WithRetry | packages/cli/src/wait-tracker.ts:238-252 | For every outcome sequence: the calls made end at the first success, non-retryable error or last allowed attempt; the last error is rethrown; k calls have slept 100 * (2^(k-1) - 1) ms |
| WaitTracker.RetryResumeStep | packages/cli/src/wait-tracker.ts:204-222 | A resume step makes 1 to 3 calls and sleeps at most 300 ms; a retryable error is rethrown only after all three |
| CredentialTypes.GetParentTypes | packages/cli/src/credential-types.ts:26-38 | The loop that pushes onto the array it iterates terminates on every acyclic relation and returns the level list |
| CredentialTypes.MembersAreTheAncestors | packages/cli/src/credential-types.ts:26-38 | A name is in the result if and only if it is a strict ancestor |
| CredentialTypes.DirectParentsFirst | packages/cli/src/credential-types.ts:27-31 | The result begins with the direct parents in their order |
| CredentialTypes.AncestorHasSmallerRank | packages/cli/src/credential-types.ts:33-35 | The measure of termination: an ancestor has strictly fewer ancestors |
| CredentialTypes.SearchesNearestFirst | packages/cli/src/credential-types.ts:26-38 | On a single line of inheritance, searching the list for any set of names finds what searching the ancestors nearest first finds |
| CredentialTypes.NearestFirst | packages/cli/src/credential-types.ts:26-38 | On a single line, first occurrences appear nearest first |
| Overwrites.GetIsNearest | packages/cli/src/credentials-overwrites.ts:110-123 | On a single line of inheritance, for any raw map and any key order, `get` after `setPlainData` maps each field to the raw value of the nearest type that defines it |
| Overwrites.GetIsInherited | packages/cli/src/credentials-overwrites.ts:178-223 | For any inheritance: `get` has exactly the fields the type or an ancestor defines, each with a value one of them gives it, and a type's own value always wins |
| Overwrites.FollowsTheListIffSingleLine | packages/cli/src/credentials-overwrites.ts:197-222 | For each type: `get` follows the order of `[t, ...parents]` for all raw maps, key orders and fields if and only if neither the type nor any ancestor has two parents |
| Overwrites.FollowsTheListIffSingleParents | packages/cli/src/credentials-overwrites.ts:197-222 | For the whole registry: it does so for all types if and only if no type has two parents |
| Overwrites.TwoParentsBreak | packages/cli/src/credentials-overwrites.ts:197-222 | For every type with such an ancestor, an input on which it does not |
| Overwrites.LastParentWins | packages/cli/src/credentials-overwrites.ts:197-199 | For every type with two parents, an input for which the stored merge takes the last parent's value although the list names the first parent's |
| Overwrites.ReloadIsIdentity | packages/cli/src/credentials-overwrites.ts:64-138 | For any inheritance, persisting the merged map and merging it again in the same key order changes neither the map nor the resolved list |
| Overwrites.ReloadKeepsGet | packages/cli/src/credentials-overwrites.ts:64-138 | On a single line, any number of reloads in any key orders leaves `get` unchanged |
| Overwrites.ResolveIsFaithful | packages/cli/src/credentials-overwrites.ts:178-208 | Whatever was resolved or stored before, a resolution keeps the type's raw fields and holds inherited values only, although a type resolved by recursion is cached without its merge |
| Overwrites.SetPlainIsFaithful | packages/cli/src/credentials-overwrites.ts:110-123 | Every stored entry keeps that property through all turns of the loop |
| Overwrites.ResolveDependsOn | packages/cli/src/credentials-overwrites.ts:178-208 | A resolution depends only on the entries of the types it leaves resolved |
| Overwrites.ResolvedKeepTheirEntries | packages/cli/src/credentials-overwrites.ts:116-122 | A resolved type's entry is never changed by later turns |
| Overwrites.CachedTypeKeepsItsRawEntry | packages/cli/src/credentials-overwrites.ts:178-182 | A type that recursion resolved before its own turn keeps its raw entry for good |
| Overwrites.VisitedTypeStoresItsMerge | packages/cli/src/credentials-overwrites.ts:116-122 | A type whose own turn comes first stores its own fields over the merge of its parents |
| Overwrites.ResolveCaches | packages/cli/src/credentials-overwrites.ts:178-207 | A known type is cached after it was asked for, an unknown one is not and gives nothing |
| Overwrites.GetFindsTheFirst | packages/cli/src/credentials-overwrites.ts:210-223 | The reversed merge gives each field the value of the first type of the list that stores it, and is undefined iff none is stored |
| Overwrites.ApplyTwiceIsOnce | packages/cli/src/credentials-overwrites.ts:140-176 | Applying overwrites is idempotent, for skip-list and ordinary types |
| Overwrites.ApplyMeaning | packages/cli/src/credentials-overwrites.ts:140-176 | Field by field: an undefined, null or empty field gets the value of its overwrite, unless a skip-list credential has a value of its own that differs; every other field stays |
| Overwrites.ApplyKeepsUserValues | packages/cli/src/credentials-overwrites.ts:166-173 | A non-empty stored value, or one that is not overwritten, is never changed |
| Overwrites.AppliedIsNotManaged | packages/cli/src/credentials-overwrites.ts:233-241 | `usesManagedAuth` is false on the output of `applyOverwrite` |
| Overwrites.ManagedIff | packages/cli/src/credentials-overwrites.ts:233-241 | A credential is managed iff it is no customized skip-list one and some empty field has an overwrite that differs from what is stored |
| Overwrites.CredentialsOverwrites.GetOverwrites | packages/cli/src/credentials-overwrites.ts:178-208 | The recursive, memoised resolver in place |
| Overwrites.CredentialsOverwrites.SetPlainData | packages/cli/src/credentials-overwrites.ts:110-123 | The loop that rewrites the map it iterates, in place |
| Overwrites.CredentialsOverwrites.SetData | packages/cli/src/credentials-overwrites.ts:125-138 | The map saved is the one already merged |
| Overwrites.CredentialsOverwrites.LoadOverwriteDataFromDB | packages/cli/src/credentials-overwrites.ts:64-84 | A reload merges the saved map again; without one nothing changes |
| Overwrites.CredentialsOverwrites.ApplyOverwrite | packages/cli/src/credentials-overwrites.ts:140-176 | The loop over a copy gives the applied fields in any key order |
| CredentialRepair.AgreesIffNoStaleName | packages/cli/src/workflow-helpers.ts:362-483 | With a fixed database, every reference gets the result of an uncached lookup if and only if no reference follows an unresolvable one of the same type and id under another name |
| CredentialRepair.OldStyleAgrees | packages/cli/src/workflow-helpers.ts:376-428 | Old-style references always agree; disabled nodes, empty and gateway-managed references are untouched |
| CredentialRepair.StaleResult | packages/cli/src/workflow-helpers.ts:471-478 | Otherwise the reference is given the details of the first unresolvable one with its type and id |
| CredentialRepair.CachesAreGood | packages/cli/src/workflow-helpers.ts:369-371 | What both caches hold after any prefix of the workflow |
| CredentialRepair.LooksUpOnce | packages/cli/src/workflow-helpers.ts:402-452 | An old-style (type, name) is queried at most once, and so is the id of an existing row |
| CredentialRepair.RepairNode | packages/cli/src/workflow-helpers.ts:382-479 | The inner loop over one node in place |
| CredentialRepair.FindByNameExactly | packages/cli/src/workflow-helpers.ts:403-407 | The query by name returns the usable rows of that name and type, each as often as it occurs |
| CredentialRepair.FindByIdExactly | packages/cli/src/workflow-helpers.ts:440-443 | The query by id returns a row of that id and type, and none iff there is none |
| CredentialRepair.CachedIffQueried | packages/cli/src/workflow-helpers.ts:402-452 | A name is cached iff it was queried, and every cached id goes back to a query |
| CredentialRepair.PositionIsRepaired | packages/cli/src/workflow-helpers.ts:376-479 | Each single result of the pass, in terms of rows instead of caches |
| CredentialRepair.ReplaceInvalidCredentials | packages/cli/src/workflow-helpers.ts:362-483 | In place, for every entry of every node: a name that exactly one usable row has becomes that row, an existing id gets the name of its row, a dangling id falls back to its name unless an unresolvable one was cached for it, and disabled, unsafe, empty and gateway-managed ones stay |
| Webhooks.WebhookRegistration.AddWebhooks | packages/cli/src/active-workflow-manager.ts:143-225 | For any webhooks and faults: it succeeds iff some webhook is chosen and no error but a tolerated one occurs, and then every chosen webhook is owned under its path and method except tolerated ones; it does nothing iff none is chosen; a throw names the first fatal failure and, when clearing works, leaves no row of the workflow; rows of other workflows never change |
| Webhooks.AllOwnedUnlessTolerated | packages/cli/src/active-workflow-manager.ts:181-192 | After success every selected webhook is owned, except one whose store step failed in the database in init or leadershipChange |
| Webhooks.SelectedMeaning | packages/cli/src/active-workflow-manager.ts:150-156 | The selection is all webhooks, or with node ids exactly those of these nodes, in order and as often |
| Webhooks.NormalizeMeaning | packages/cli/src/webhooks/webhook.service.ts:263-268 | A path loses the space around it, then one slash at its start, then one at its end |
| Webhooks.ErrorAtMeaning | packages/cli/src/active-workflow-manager.ts:174-193 | Which error a webhook gets, given the rows the earlier ones left |
| Webhooks.TakenPathIsFatalIff | packages/cli/src/webhooks/webhook.service.ts:222-235 | A path taken by another workflow fails fatally, except in init or leadershipChange when the lookup of its owner already fails in the database |
| Webhooks.RegisteredOwns | packages/cli/src/active-workflow-manager.ts:159-180 | Which keys the workflow owns after any prefix of the webhooks, and that other workflows keep all rows |
| Webhooks.NothingIsLeftIff | packages/cli/src/active-workflow-manager.ts:194-218 | Clearing leaves no row; a throw without clearing leaves none iff there was none and none was stored |
| Webhooks.WebhookRegistration.StoreWebhook | packages/cli/src/webhooks/webhook.service.ts:218-242 | Insert, refresh of the own row, rejection of a path of another workflow, or the error of the insert, the lookup or the refresh |
| Webhooks.WebhookRegistration.ClearWebhooks | packages/cli/src/active-workflow-manager.ts:231-268 | Deletes exactly the rows of the workflow, unless the workflow or its active version is missing, or deregistering or deleting throws |
| ActivationQueue.DelayIsCappedDoubling | packages/cli/src/active-workflow-manager.ts:851-868 | In every run, overlapping attempts included, the delay after m non-isolate failures since queueing is min(1000 * 2^m, 86400000) |
| ActivationQueue.DelayNeverShrinks | packages/cli/src/active-workflow-manager.ts:851-868 | No step but queueing again shortens the delay of a queued workflow |
| ActivationQueue.AtomicTimersIff | packages/cli/src/active-workflow-manager.ts:830-897 | With atomic attempts, in every run each armed timer is the one of its workflow's entry, no workflow has two, and a queued workflow has none if and only if its last retry was skipped |
| ActivationQueue.AtMostOneTimer | packages/cli/src/active-workflow-manager.ts:877-887 | When every armed timer is the one of its workflow's entry, no workflow has two |
| ActivationQueue.SkippedIsForgottenIff | packages/cli/src/active-workflow-manager.ts:539-572 | A retry that returns without activating leaves its workflow queued with no timer and no attempt iff no other timer or attempt of it was under way |
| ActivationQueue.ForgottenIsNeverRetried | packages/cli/src/active-workflow-manager.ts:837-875 | Such a workflow stays queued and is never tried again, in every run that does not queue or remove it |
| ActivationQueue.TimersOwnedIff | packages/cli/src/active-workflow-manager.ts:867-868 | With overlapping attempts a step arms a second timer if and only if an attempt fails whose workflow was queued again meanwhile |
| ActivationQueue.TimersStayOwned | packages/cli/src/active-workflow-manager.ts:877-887 | In every run without such a step each armed timer is the one recorded for its workflow |
| ActivationQueue.RemovedIsNeverRearmed | packages/cli/src/active-workflow-manager.ts:845-849 | From any state: after a workflow is removed and not queued again, it has no entry and no timer is armed for it that was not armed before |
| ActivationQueue.RemovedIsGoneIff | packages/cli/src/active-workflow-manager.ts:892-897 | It has no timer left if and only if every orphaned timer it had has fired |
| ActivationQueue.OrphansRemain | packages/cli/src/active-workflow-manager.ts:867-868 | The timers armed for it are exactly the orphans it had that have not fired |
| ActivationQueue.RunIsWellTimed | packages/cli/src/active-workflow-manager.ts:867-887 | In every run timer ids are fresh and an entry's timer, if armed, is armed for it |
| ActivationQueue.QueuedActivations.AddQueuedWorkflowActivation | packages/cli/src/active-workflow-manager.ts:877-887 | Queueing replaces any earlier entry and timer |
| ActivationQueue.QueuedActivations.RemoveQueuedWorkflowActivation | packages/cli/src/active-workflow-manager.ts:892-897 | Removing clears the recorded timer |
| ActivationQueue.QueuedActivations.AttemptThrows | packages/cli/src/active-workflow-manager.ts:844-869 | A failing attempt backs off and re-arms its entry, or does nothing without one |
| ActivationQueue.QueuedActivations.AttemptReturns | packages/cli/src/active-workflow-manager.ts:655-656 | An attempt that activated the workflow leaves no entry |
| ActivationQueue.QueuedActivations.RemoveAllQueuedWorkflowActivations | packages/cli/src/active-workflow-manager.ts:902-906 | The loop empties the queue, and disarms every timer when timers are owned |
| ActivationQueue.DelayDoubles | packages/cli/src/constants.ts:90-91 | One failure doubles the delay up to the cap of one day; an isolate failure keeps it |
| ActivationQueue.QueuedIff | packages/cli/src/active-workflow-manager.ts:877-897 | In every run a workflow is queued exactly if it was queued and has since neither been removed nor activated by an attempt |
| ActivationQueue.LeavesIff | packages/cli/src/active-workflow-manager.ts:655-656 | Firing a timer and failing or skipped attempts leave the queue as it is; an attempt that activated the workflow removes it |
| Deadlines.DeadlineIsLeastOnPath | packages/cli/src/workflow-execute-additional-data.ts:275-287 | For any nesting the deadline is the least of all own deadlines since the last detached call and the inherited root one, and undefined exactly when there is none |
| Deadlines.WaitedCallEndsWithItsParent | packages/cli/src/workflow-execute-additional-data.ts:591-597 | A waited-for sub-workflow never outlives its parent; a detached one starts from its own deadline |
| Deadlines.OnPathStep | packages/cli/src/workflow-execute-additional-data.ts:591-597 | Which deadlines one more call adds to the path or cuts off |
| Deadlines.DeadlinesAgreeIff | packages/cli/src/workflow-execute-additional-data.ts:242-270 | The main run's soft deadline equals `determineWorkflowDeadline` if and only if the maximum is positive or no timeout applies |
| Deadlines.OwnDeadlineMeaning | packages/cli/src/workflow-execute-additional-data.ts:242-270 | The own setting counts before the default, neither gives a deadline if not positive, and a positive maximum caps either |
| Deadlines.RunMainProcess | packages/cli/src/workflow-runner.ts:348-463 | With T the capped timeout: a soft deadline T from now; stopped at once exactly if T has passed since the start time; otherwise a timer that fires T after the start time, or after now without one; nothing if T is not positive |
| Deadlines.ResumesNeverExtend | packages/cli/src/workflow-runner.ts:441-463 | With a constant start time every resume is stopped at start plus timeout, or at once exactly if that has passed |
| Deadlines.HardStopWithinSoft | packages/cli/src/workflow-runner.ts:371-376 | With two clock readings the hard stop is within the soft deadline iff at most the timeout passes between them |

## Left out

- ResumeProtocol.RetryAfterClaimNeverRuns: assumes that the row is not made to wait again in between; if it is, the retry competes in the new epoch like any other resume.
- WaitingEpochs.WinnerDeliversAChild: is about winners that act for a child with something to report; a timer, webhook or empty-handed child that wins finds whatever is in the row.
- Overwrites.ReloadKeepsGet: covers single lines of inheritance, where key orders may differ between reloads; ReloadIsIdentity covers any inheritance with the order the saved JSON keeps.
- Overwrites.FollowsTheListIffSingleLine: is, like FollowsTheListIffSingleParents, about registries in which every listed parent is known and none is listed twice by one type.
- ActiveExecutions.SupersededNeverRemoves: is about runs that take over absent, waiting or finished entries only; TakeOverGuardIsExact shows that this condition cannot be weakened.
- Deadlines.ResumesNeverExtend: assumes a start time that is not in the future, as does HardStopWithinSoft.
- ActiveExecutions.CancelAllEmptiesIff: assumes that no execution is added and no status changes between the loop and the callbacks, and, like LosesAPromiseIff, starts from a state in which superseded incarnations are waiting or done (SupersededNeverRemoves).
- CredentialRepair.AgreesIffNoStaleName: assumes, like the entry-wise part of ReplaceInvalidCredentials, that row ids are unique and the database does not change during the pass.
- WaitingEpochs.EpochIsSafeIff: counts as this epoch's the reports of children whose promise settles after it began, so a child that finished just before and patches after makes the epoch unsafe in this sense; it is about rows that are not finished and have a stack, and data to be written that carries its child's report, as in every run (RunIsSane).
- ResumeProtocol.ExecutionRows.UpdateParentExecutionWithChildResults: does not stamp the dynamic-credential flags (`workflow-helpers.ts:559-597`), because with overlapping reads and writes these flags need not accumulate; the sub-execution link is the child of the resume error, and every resume knows its child.
- ActiveExecutions.LeftWaitingBlocksIff: says nothing about executions that are stopped, given another status or taken over during the shutdown.
- ActivationQueue.RemovedIsGoneIff: starts from a state in which an entry's timer, if armed, is armed for it, as in every run (RunIsWellTimed).
- Webhooks.WebhookRegistration.ClearWebhooks: the steps before the deletion appear by what they throw only, and so do externals in AddWebhooks; the table does not change between the steps of one call.
- The compare-and-swap on the row status is one atomic step; its realisation in the execution store is not modelled. The rest of the environment may write any row at any time, but never `waiting` over `waiting`.
- `establishExecutionContext` may fail and empty the stack before the claim (`workflow-runner.ts:223-236`); the model claims with the data that was loaded.
- A node in the run data always has at least one run.
- Release during shutdown, when concurrency control is off, and the routing of execution modes to queues in `ConcurrencyControlService`.
- Response promises and workflow executions are kept as references only: what resolving, rejecting or cancelling them triggers is not modelled. `add` is cut at its await points; creation of the row is part of its first step.
- Enqueueing to workers and crash recovery.
- Known and loaded credential types are one registry, and its relation is acyclic; on a cycle `getParentTypes` does not return.
- Field values are null, text, numbers or flags; names of built-in object properties as keys of plain objects; encryption and JSON are the identity; the `reloading` flag.
- A credential reference whose id is undefined rather than null.
- Dynamic webhook paths; the webhook cache. Trimming of paths covers space, tab, newline and carriage return.
- Overlong and negative timer delays; a null `executionTimeout`.
- Logging, telemetry, push, pubsub, streaming, isolates, error reporting, HTTP and CLI wiring.
- The workflow engine, expression evaluation, and the credential descriptions in `packages/nodes-base`.
