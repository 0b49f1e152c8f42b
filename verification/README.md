# A verified model of the software delivery services

A Dafny model of the stateful core of `asdlc-service` and `git-service`: the scheduler that
dispatches coding-agent tasks along a design's dependencies, the reconciliation of API traits,
the versioned artifact store with its diffs, and the chat and progress services built on them.
Everything is proved for all inputs, all runs and all interleavings of the modelled steps.

    dafny verify dfyconfig.toml

Code that changes state step by step is a class or a method with loops, proved against a
specification function or a relation; code made of expressions is functions. The main results
are lemmas about those specifications. Constants, statuses, error cases and which of two values wins are
also stated without the functions that decide them.

## What the modules cover

**Scheduling.** `TaskLifecycle` is the transition table. `Scheduler` gives every step that
writes the task table (lifecycle events, dispatch passes, operator retries, new batches, design
reconciliation, disconnect cascades, and saves of whole rows) as a function of the table, and
`DispatchService` proves the service methods against these steps. `SchedulerSafety` proves deploy
gating over all runs, `SchedulerProgress` progress and its converse, `RoundRuns` that its rounds are runs of
these steps, `DispatchAccounting` start counts, `Deferral` the deferral window over all runs, `Disconnect`
what a cascade leaves. `InterleavedPass` takes a pass apart: rows listed and indexed once, then saved one
by one with every other writer in between. `Graph` holds walks and cycles; `ComponentOrder` is the
topological sort.

Most writers load a row, wait for a network call and save the row whole
(`asdlc-service/repositories/task_repository.go:141-143`): the detail stream and the issue edits behind it
(`asdlc-service/services/task_stream.go:512-600`, `698-731`), issue creation, reconciliation, and the
disconnect loops. Such a save is the step `SaveRow`, and may carry what the row was at any earlier moment
(`FromReadings`). The steps `Cascade` and `Reconcile` are those loops with no other writer in between.

The scheduler rests on these assumptions:
- `dispatch.success` is produced only by `dispatchOne`; no event source raises it.
- Dispatch passes are serialised. The step `DispatchPass` is a pass without interruption; gating and start
  counts also hold for interrupted ones (`InterleavedIsGated`, `InterleavedStarts`), and the two agree on
  a pass left alone (`UninterruptedIsPass`).
- A retry is atomic with respect to other writers, and so is an event through the projector, which runs in a
  transaction under the task's lock.
- Database updates succeed, and rows are deleted only by the administrative reset.
- The rows of a batch are created in one step; their issues may also be recorded later, by `SaveRow`.
- Each external call in a dispatch has an arbitrary outcome, and each clock reading is a parameter.

**Trait synchronisation.** `TraitSync` is a machine of any number of threads that write or remove
components and then reconcile the external object under a mutex per component; reads and external
calls may fail. The configuration calls of one sync are one action. Creating components or bindings is
an outside action that marks the component as unsynced, and so is a change of the design that no sync
follows: regeneration, deleting a single file, discarding changes
(`asdlc-service/services/design_service.go:366-372`, `470-475`, `567-577`).

**Retries.** `ConflictRetry` is the token bucket and the interleaving of any number of saves.

**Diffs.** `OpenApi` is the canonicaliser on parsed trees, `OperationDiff` the comparison of
operations, `LineDiff` the text diff, `DesignDiff` the component diff. Iterating over a Go map is an
arbitrary choice, so what is proved holds for every order.

**Artifacts.** `Frontmatter`, `DesignFiles` and `DesignRoundTrip` cover the design as files; the
YAML codec is a parameter, assumed lossless on its trimmed text and to emit no line that starts with
`---` for the components at hand (`Faithful`). `Tags` and `SaveHistory` cover version tags;
numbers are 64-bit. `RequirementsDir`, `RequirementsLock` and `RequirementsChat` cover the requirements
directory, its snapshots, the directory lock and the chat turn; the size of a text counts its characters as bytes.
Snapshots are stored as JSON, so `UndoExactIff` and the results beside it are for files whose content and
names are valid UTF-8; other bytes come back replaced.

**Progress.** `Progress` covers sorting, deduplication, the cursor and build-step deltas; `ProgressPaging`
the pages of an agent's log, which is filtered by the time a line was received while the cursor comes from
the time written inside it.

`Strings`, `Sequences`, `Design` and `Wrappers` hold what several modules share. Letter case is
ASCII; the white space trimmed is Unicode's. `{:induction false}` marks the lemmas proved by an induction of
their own and those on which the verifier would otherwise try one.

## What the proofs found

- **Retry from any status.** `RetryTask` calls `ApplyBuildResult`, which returns no error for a
  refused transition (`asdlc-service/services/webhook/projector.go:213-221`), and `dispatchOne` does
  not look at the status. A retry therefore dispatches a task that waits for a dependency, or
  redeploys a deployed one, and gating can fail (`RetryCanBreakGating`). `RetryGatedIff` is the exact
  condition. The comment at `asdlc-service/services/dispatch_service.go:463-466` says a second retry is a
  no-op; the code starts another agent exactly when the dispatch goes through (`RetryInProgressStartsIff`,
  and `SecondRetryStartsAgain` for a run).
- **Late saves.** A whole row saved with an earlier status can take a deployment back, so that gating fails
  without any retry (`LateSaveBreaksGating`), or put a started task back among the pending ones, so that its
  agent is started twice (`LateSaveStartsTwice`). `SaveGatedIff` and `SaveKeepsBudgetIff` are the exact
  conditions, which a caller can test before saving; a save of the current status always meets them.
- **A pass goes by its listing.** A row that another writer ended after the pass listed it is saved over as
  listed: a task abandoned in between is started (`AbandonedIsStarted`; `TreatRevives` says when a finished
  row stays finished). Gating and start counts survive this.
- **Disconnect leaves tasks.** The comment at `asdlc-service/services/task_state.go:112-115` says every
  non-terminal status is abandoned; the table covers `pending`, `in_progress` and `ready_for_review`
  only. `CascadeFinishesIff` says when a cascade leaves finished tasks only, `HeldTaskSurvives` gives one
  that survives.
- **A deadline outlives its failure.** `RetryTask` does not clear the time of the first deferral, so a task
  failed by the deadline fails again at the first retry that still finds an endpoint missing
  (`RetryAfterDeadlineIff`, `DeadlineFailureIsFinal`).
- **Traits after a regeneration.** A design change that no sync follows unsettles a component exactly when it
  changes what the component asks for (`UnsyncedChangeIff`), until the next sync; and an object whose
  component the design lost stays until its directory is removed (`OnlyRemovalDeletes`).
- **Names equal ignoring case.** `topoSortComponents` keeps one component per lower-cased name.
- **Mixed map keys.** A map with the keys `200` and `"200"` has two canonical forms, depending on
  iteration order, also under `responses` (`TwiceTheStatusCode`); `DeterminedIff` is the exact condition,
  for trees of any depth.
- **Empty texts.** `computeSpecDiff("", "")` reports an added empty line, and the signs of a diff swap
  with its arguments only when neither text is empty.
- **Headings accumulate.** Each round of `SplitDesign` and `AssembleDesign` prepends another
  `# name` heading to a component's instructions.
- **Backslashes in names.** A file whose name holds a backslash is listed and captured, but a restore
  skips it. A restore also removes files that a listing never shows.
- **Stale design parents.** A design save that overlaps a requirements save can tag a revision
  that is not the latest design (`StaleParentRun`; exactly when, `LastSavedIsLatestIff`); under the project
  lock it cannot.
- **Log lines that come twice, or never.** A line is kept out of all later polls exactly when it was received
  before the cursor of its page (`KeptOutIff`). An event stamped before its line is received can be
  delivered twice (`DeliveredTwice`), and a line of the cursor's last millisecond that a full page cut off is
  lost (`SecondIsLost`). A cursor ahead of the service's clock makes the next poll ask for the last thirty
  days (`NextFetchesIff`, `AheadOfClock`).
- **Completed builds repeat untimed steps.** A completed run's phases are forgotten after each poll, so the
  next poll reports exactly the steps without a readable time again (`CompletedRunRepeatsIff`).
- **A release that does not arrive.** When the unlock of a chat turn fails, its pooled connection keeps the
  directory's key: every other connection finds it busy (`NextAcquireIff`), however often the connection is
  used (`LeftBehind`), until it is closed (`ClosedFrees`).
- **Reverting the main file.** A revert gives a file back as captured, except that a main file that was
  missing then is emptied (`RevertGivesCaptured`).

## Model

| member | source | states |
|---|---|---|
| `SchedulerSafety.GatedInEveryRun` | asdlc-service/services/dispatch_service.go:205-263 | Deploy gating over every run: after any interleaving of lifecycle events, passes, retries, new batches, reconciliations, cascades and whole-row saves whose retries and saves are admissible, each dispatched task has a deployed task for every component it depends on |
| `SchedulerSafety.SaveGatedIff` | asdlc-service/repositories/task_repository.go:141-143 | Saving a whole row keeps a gated table gated exactly when the saved row is active only with its dependencies deployed and no other active task leans on a deployment it takes back |
| `SchedulerSafety.LateSaveAdmissible` | asdlc-service/services/task_stream.go:512-600 | A row read in an earlier gated state may be saved later unless that takes back its deployment, while what was deployed then still is |
| `SchedulerSafety.LateSaveBreaksGating` | asdlc-service/services/task_stream.go:698-731 | A three-step run without retries, its one save carrying what was read at its start, leaves a started task without its deployed dependency |
| `SchedulerSafety.IntendedRunIsGated` | asdlc-service/services/dispatch_service.go:467-515 | With retries only from `verification_failed` and saves that work on a current reading, gating holds after every run and deployed rows stay deployed |
| `SchedulerSafety.RetryGatedIff` | asdlc-service/services/dispatch_service.go:467-515 | A retry keeps a gated table gated under every outcome exactly when the gate it skips would let the task through and no other active task leans on this one being deployed |
| `SchedulerSafety.RetryCanBreakGating` | asdlc-service/services/webhook/projector.go:213-221 | Because a refused retry event is swallowed, a two-step run dispatches a task whose dependency is not deployed |
| `SchedulerSafety.VerificationFailedAdmissible` | asdlc-service/services/task_state.go:143-148 | The status the retry is meant for always satisfies the condition |
| `SchedulerSafety.StepKeepsGated` | asdlc-service/services/task_state.go:103-171 | Every single step of the model keeps gating, a retry or a whole-row save if it is admissible |
| `SchedulerProgress.BlockedNeverDispatched` | asdlc-service/services/dispatch_service.go:248-263 | A set of components each of which depends on one of the set has no task dispatched, in any run whose retries would pass the gate they skip, with no condition on saves beyond carrying an earlier reading |
| `SchedulerProgress.DoomedNeverDispatched` | asdlc-service/services/dispatch_service.go:248-263 | From an empty table, in any run whose retries would pass the gate and whose batches follow one dependency graph, with no condition on saves beyond carrying an earlier reading, no task whose dependencies lead into a cycle or to an unknown name is ever dispatched |
| `SchedulerProgress.SomeTaskReady` | asdlc-service/services/dispatch_service.go:205-246 | While a deliverable task is not deployed, one of them has all its dependencies deployed |
| `SchedulerProgress.RoundProgress` | asdlc-service/services/dispatch_service.go:205-246 | A pass over an unfinished project starts a run, in this pass, of a task that was not deployed, and takes its name off the waiting ones |
| `SchedulerProgress.TrajectoryShrinks` | asdlc-service/services/dispatch_service.go:205-246 | After k passes, with dispatched tasks deployed between them, the number of waiting components has dropped by k or is zero |
| `SchedulerProgress.RoundsDeployExactly` | asdlc-service/services/dispatch_service.go:205-263 | With one task per component and dispatched tasks deployed between passes, after as many passes as there are tasks exactly the tasks whose dependencies reach neither a cycle nor an unknown name are deployed |
| `RoundRuns.TrajectoryIsRun` | asdlc-service/services/task_state.go:103-171 | What such passes and deliveries reach, a run of dispatch passes and lifecycle events of the table reaches |
| `InterleavedPass.InterleavedIsGated` | asdlc-service/services/dispatch_service.go:179-246 | With a pass taken row by row under the index built at its start, and events, batches, reconciliations, cascades, saves of current readings and intended retries in between, gating holds after every move and deployed rows stay deployed |
| `InterleavedPass.InterleavedStarts` | asdlc-service/services/dispatch_service.go:210-246 | In such runs a task is started at most once more often than it is retried |
| `InterleavedPass.UninterruptedIsPass` | asdlc-service/services/dispatch_service.go:179-246 | A pass that nothing interrupts is the atomic pass |
| `InterleavedPass.TreatRevives` | asdlc-service/services/dispatch_service.go:210-246 | A finished row that was listed as waiting stays finished exactly when its dispatch fails |
| `InterleavedPass.AbandonedIsStarted` | asdlc-service/services/org_disconnect_service.go:110-133 | A run in which the organisation disconnects between listing and dispatch, and the abandoned task is started |
| `Scheduler.PassRowAt` | asdlc-service/services/dispatch_service.go:205-246 | A pass treats each listed task once, by what the table said when the pass began |
| `DispatchAccounting.StartsAtMostOncePerRetry` | asdlc-service/services/dispatch_service.go:210-246 | Agent starts of a task never exceed what it was budgeted plus one per retry and per save that puts it back among the waiting, in any run from any state |
| `DispatchAccounting.SaveKeepsBudgetIff` | asdlc-service/repositories/task_repository.go:141-143 | A save keeps every bound on a task's starts exactly when it does not put a started task back among the waiting |
| `DispatchAccounting.IntendedReopensNothing` | asdlc-service/repositories/task_repository.go:141-143 | Saves that work on a current reading put no task back |
| `DispatchAccounting.LateSaveStartsTwice` | asdlc-service/services/task_stream.go:512-600 | A run without retries, its one save carrying what was read at its start, starts a task twice |
| `DispatchAccounting.RetryInProgressStartsIff` | asdlc-service/services/dispatch_service.go:463-515 | A retry of a task in progress starts another run exactly when every call of the dispatch succeeds |
| `DispatchAccounting.SecondRetryStartsAgain` | asdlc-service/services/dispatch_service.go:463-515 | Two retries in a row of a task in progress start two more runs |
| `DispatchAccounting.StartsFromEmptyTable` | asdlc-service/services/dispatch_service.go:210-246 | From an empty table, a task is started at most once plus once per retry and per save that puts it back |
| `DispatchAccounting.NoPendingAfterPass` | asdlc-service/services/dispatch_service.go:210-246 | No task is pending after a pass |
| `Deferral.RecordsFirstDeferral` | asdlc-service/services/dispatch_service.go:313-349 | In every run the row records the time of the first deferral since its endpoints were last found, retries, holds and saved readings included |
| `Deferral.DeferralWindow` | asdlc-service/services/dispatch_service.go:313-344 | After any run, an attempt that finds an endpoint missing holds the task exactly when it comes within two minutes of that first deferral, and fails it otherwise |
| `Deferral.SinceEndpointsFound` | asdlc-service/services/dispatch_service.go:313-349 | The recorded time is the stamp of the first unresolved attempt after the last one that found the endpoints |
| `Deferral.RetryAfterDeadlineIff` | asdlc-service/services/dispatch_service.go:467-515 | A retry changes the deferral of a task failed by the deadline exactly when it finds the endpoints; otherwise the task fails again |
| `Deferral.DeadlineFailureIsFinal` | asdlc-service/services/dispatch_service.go:313-325 | Once the deadline has failed a task, no run brings it back or starts it unless a retry finds the endpoints or an earlier reading of the row is saved |
| `Disconnect.CascadeOne` | asdlc-service/services/task_state.go:112-122 | A cascade abandons a task that is pending, in progress or in review and leaves every other as it is |
| `Disconnect.CascadeFinishesIff` | asdlc-service/services/task_state.go:112-122 | A cascade leaves finished tasks only exactly when none was on hold, merged, building or failed in verification |
| `Disconnect.HeldTaskSurvives` | asdlc-service/services/org_disconnect_service.go:110-133 | A table with a task on hold is left as it was |
| `DispatchService.TaskService.DispatchOne` | asdlc-service/services/dispatch_service.go:266-409 | The row and the agent run one dispatch leaves, for every outcome of its calls |
| `Scheduler.DispatchedRow` | asdlc-service/services/dispatch_service.go:266-409 | Started exactly when every call succeeds, put off exactly when only the endpoints are missing within two minutes, failed otherwise; and the fields of each outcome |
| `Scheduler.RetriedRow` | asdlc-service/services/dispatch_service.go:467-515 | What a retry leaves from any status: only a task that failed in verification is moved first |
| `Deferral.FailedTaskStays` | asdlc-service/services/dispatch_service.go:417-430 | A task marked failed stays as it is and is not started in any run that neither retries nor saves it |
| `DispatchService.TaskService.CheckDeps` | asdlc-service/services/dispatch_service.go:252-263 | True exactly when every listed dependency is indexed as deployed |
| `DispatchService.TaskService.BuildIndex` | asdlc-service/services/dispatch_service.go:205-208 | A component is indexed exactly when a listed row has it, and by the status of the last such row |
| `Scheduler.IndexIsLast` | asdlc-service/services/dispatch_service.go:205-208 | For every listing, with any number of rows to a component, the index is that of the last rows |
| `Scheduler.GateIff` | asdlc-service/services/dispatch_service.go:248-263 | The gate is open exactly when for each dependency the last listed row of that component is deployed |
| `SchedulerSafety.LaterRowCounts` | asdlc-service/services/dispatch_service.go:205-208 | A failed row of an earlier batch holds nobody back once a later row of its component is deployed |
| `DispatchService.TaskService.DispatchTasks` | asdlc-service/services/dispatch_service.go:179-246 | The loop is one pass of the scheduler model: a waiting row is dispatched exactly when for each dependency the last listed row of that component is deployed, and is on hold otherwise; other rows stay |
| `DispatchService.TaskService.RetryTask` | asdlc-service/services/dispatch_service.go:467-515 | Retry event, cleared fields, and a dispatch from any status; no dispatch when a lookup fails |
| `DispatchService.TaskService.ApplyEvent` | asdlc-service/services/webhook/projector.go:193-236 | A refused event leaves the row alone and is no error |
| `DispatchService.TaskService.MarkBuilding` | asdlc-service/services/webhook/projector.go:162-181 | Only a merged task starts building |
| `DispatchService.TaskService.CascadeAll` | asdlc-service/services/org_disconnect_service.go:110-133 | Of the listed rows exactly those the event moves are saved, as listed and moved, over whatever the table holds by then; that is the cascade step when nothing changed since the listing |
| `DispatchService.TaskService.SaveTask` | asdlc-service/repositories/task_repository.go:141-143 | The whole row is overwritten: one save step |
| `DispatchService.TaskService.ReconcilePending` | asdlc-service/services/task_stream.go:652-695 | Exactly the rows listed as pending whose component left the design are saved as rejected, over whatever the table holds by then; that is the reconcile step when nothing changed since the listing |
| `DispatchService.TaskService.PersistBatch` | asdlc-service/services/task_stream.go:405-507 | A batch stops at the first component with a dependency that names no component letter for letter, and keeps the rows before it; otherwise every row has its dependencies and ends pending, or failed without an issue |
| `Scheduler.DepsOfLast` | asdlc-service/services/task_stream.go:415-430 | A planned row has the dependencies of the last component whose name reads so in lower case |
| `Scheduler.ReconciledRow` | asdlc-service/services/task_stream.go:652-695 | A pending row is rejected exactly when no component of the design names its component, whatever the letter case |
| `TaskLifecycle.LifecycleBound` | asdlc-service/services/task_state.go:103-171 | Any event sequence with r retries has at most 5 + 2r effective transitions |
| `TaskLifecycle.AllowedIff` | asdlc-service/services/task_state.go:103-147 | The transitions by event: what each event may start from and where it leads |
| `TaskLifecycle.EndHasCause` | asdlc-service/services/task_state.go:103-171 | A task comes to be deployed, rejected, failed or abandoned only through an event that stands for this end |
| `TaskLifecycle.BoundIsAttained` | asdlc-service/services/task_state.go:103-171 | For every r some history uses the whole bound and ends deployed |
| `TaskLifecycle.TerminalAbsorbs` | asdlc-service/models/component_task.go:64-70 | Nothing follows a terminal status |
| `TaskLifecycle.TransitionRank` | asdlc-service/services/task_state.go:103-147 | Every transition but the retry lowers the rank; the retry only leaves `verification_failed` |
| `ComponentOrder.TopoSortComponents` | asdlc-service/services/task_service.go:204-253 | Terminates; a permutation exactly when names differ ignoring case, and then each component before the tail comes after its known dependencies and the tail is the components that reach a cycle, in design order |
| `ComponentOrder.AcyclicFullySorted` | asdlc-service/services/task_service.go:204-253 | An acyclic design comes out fully in dependency order |
| `ComponentOrder.PermutationIffDistinct` | asdlc-service/services/task_service.go:204-253 | Components whose names agree ignoring case are dropped down to one |
| `ComponentOrder.LeftReachesCycle` | asdlc-service/services/task_service.go:211-243 | What the passes leave can reach a dependency cycle |
| `ComponentOrder.EmittedIsAcyclic` | asdlc-service/services/task_service.go:211-243 | What the passes emit cannot |
| `ComponentOrder.EmitPass` | asdlc-service/services/task_service.go:212-239 | A pass that emits nothing leaves only components with an unemitted known dependency |
| `ComponentOrder.IsReady` | asdlc-service/services/task_service.go:218-233 | A dependency holds a component back only if the design knows it |
| `ComponentOrder.AppendRest` | asdlc-service/services/task_service.go:245-251 | The left-over components follow in design order |
| `ConflictRetry.RetryAmplification` | git-service/services/conflict_retry.go:71-124 | However saves interleave, together they re-run their write at most 6 + floor(T/10s) times per key and each calls it at most four times |
| `ConflictRetry.GrantsBound` | git-service/services/conflict_retry.go:71-102 | Grants never exceed the starting tokens plus whole periods since the last refill, even if the clock steps back |
| `ConflictRetry.PollingIsServed` | git-service/services/conflict_retry.go:80-94 | Claims with gaps of at most d get at least floor(T/(10s+d)) grants although refills drop the fraction |
| `ConflictRetry.OverdueClaimGranted` | git-service/services/conflict_retry.go:80-101 | A claim ten seconds after the last refill is granted |
| `ConflictRetry.ConflictRetrier.ClaimToken` | git-service/services/conflict_retry.go:71-102 | Six tokens at first and at most, one more for every whole ten seconds since the refill, one less for a grant; other keys stay |
| `ConflictRetry.ConflictRetrier.RetryOnCasConflict` | git-service/services/conflict_retry.go:104-148 | Every call but the last met a SHA mismatch or a ref that did not fast-forward and was followed by a granted claim and a full wait; the loop ends early only with another outcome, a refused claim or a broken wait, and otherwise with the fourth outcome. It takes the moves of the interleaved model, so the bound covers it |
| `ConflictRetry.RetryOnTagCollision` | git-service/services/conflict_retry.go:126-144 | Up to four calls while the tag is taken, and no bucket |
| `TraitSync.Convergence` | asdlc-service/services/trait_sync.go:108-199 | After any interleaving, a component nobody is at work on, and whose external objects and design were not changed without a sync since its last completed one, carries exactly the traits and configuration of the current design |
| `TraitSync.UnsyncedChangeIff` | asdlc-service/services/design_service.go:366-372 | A design change without a sync leaves a settled component settled exactly when it asks for the same protection |
| `TraitSync.OnlyRemovalDeletes` | asdlc-service/services/design_service.go:470-475 | An object goes only when its directory is removed, even if the design lost the component |
| `TraitSync.ActKeepsInv` | asdlc-service/services/trait_sync.go:108-250 | One atomic action of any thread, or of a writer that does not sync, keeps the mutual exclusion and convergence invariant |
| `TraitSync.DeletedStaysGone` | asdlc-service/services/trait_sync.go:226-250 | After a delete no sync brings the object back |
| `TraitSync.SweepSettles` | asdlc-service/services/trait_sync.go:108-199 | One undisturbed sync settles a component whatever happened before |
| `TraitSync.MergeSettles` | asdlc-service/services/trait_sync.go:298-339 | A merge settles its instance and keeps the other keys |
| `TraitSync.LockKeyInjective` | asdlc-service/services/trait_sync.go:252-262 | Two components share a mutex only if they are the same |
| `TraitSync.LockTable.LockFor` | asdlc-service/services/trait_sync.go:252-262 | One mutex per key, created once and never replaced |
| `TraitSync.TraitSyncService.SyncComponentTraits` | asdlc-service/services/trait_sync.go:108-199 | On its own it takes the actions of the model, and success leaves a protected component with its one trait and its settings in every environment, an open one without either |
| `TraitSync.SettledMeans` | asdlc-service/services/trait_sync.go:290-339 | Settled means: the one api-configuration ClusterTrait, with CORS and JWT on, the given issuers and no audience in every binding, when the design protects the API; no trait and no instance key when it does not |
| `TraitSync.ConvergesProtected` | asdlc-service/services/trait_sync.go:108-199 | Convergence in these terms |
| `TraitSync.SweepProtects` | asdlc-service/services/trait_sync.go:108-199 | One undisturbed sync in these terms |
| `TraitSync.TraitSyncService.DeleteComponentCascade` | asdlc-service/services/trait_sync.go:226-250 | On its own it takes the actions of the model, and success removes the object and its bindings |
| `OpenApi.CanonicalIffSame` | asdlc-service/services/openapi_normalize.go:96-160 | Two trees have the same canonical form exactly when they differ only in key typing and empty required, parameters, tags and security lists, at any depth |
| `OpenApi.NoiseVanishes` | asdlc-service/services/openapi_normalize.go:79-131 | An empty list under required, parameters, tags or security is as if it were not there |
| `OpenApi.FieldStays` | asdlc-service/services/openapi_normalize.go:79-131 | Every other field stays in the canonical form |
| `OpenApi.EntryNoiseVanishes` | asdlc-service/services/openapi_normalize.go:108-118 | The same for entries of maps with keys of any type, wherever the visit meets them |
| `OpenApi.EntryStays` | asdlc-service/services/openapi_normalize.go:108-118 | A key under which an entry says something stays |
| `OpenApi.KeysRead` | asdlc-service/services/openapi_normalize.go:137-160 | Strings, numbers, booleans and null as the text of a key |
| `OpenApi.CanonicalizeIdempotent` | asdlc-service/services/openapi_normalize.go:96-160 | Canonicalising twice changes nothing |
| `OpenApi.SameAsCanonical` | asdlc-service/services/openapi_normalize.go:96-160 | A document is the same as its canonical form |
| `OpenApi.DeterminedIff` | asdlc-service/services/openapi_normalize.go:96-118 | The canonical form is the same for every order in which the maps of a tree, at any depth, are visited exactly when no map holds two entries with content that are spelled alike and differ |
| `OpenApi.DeterminedOrderFree` | asdlc-service/services/openapi_normalize.go:96-118 | The direction a caller uses: a determined tree has one canonical form |
| `OpenApi.TwiceTheStatusCode` | asdlc-service/services/openapi_normalize.go:137-160 | Responses under 200 and under the string 200 that differ come out either way |
| `OperationDiff.CompareOperations` | asdlc-service/services/task_diff.go:155-187 | An error when a document does not decode into a map; otherwise the sorted added, removed and changed operations, and none for two spellings of one document that gives no operation twice |
| `OperationDiff.ExtractOperations` | asdlc-service/services/task_diff.go:192-222 | An error when the document does not decode into a map; otherwise every operation of the paths object under its method and path |
| `OperationDiff.OperationFound` | asdlc-service/services/task_diff.go:205-221 | An operation is found under paths, its path and its method in any letter case, and named by both |
| `OperationDiff.MethodNames` | asdlc-service/services/task_diff.go:224-230 | The eight methods |
| `OperationDiff.SignsSay` | asdlc-service/services/task_diff.go:165-186 | Plus for an operation only the current side has, minus for one only the previous has, tilde for one they have differently |
| `OperationDiff.NoiseIsSilent` | asdlc-service/services/task_diff.go:155-222 | A specification and a noisy spelling of it give no line, whatever order their operations are collected in |
| `OperationDiff.NoLinesIffEqual` | asdlc-service/services/task_diff.go:165-187 | No line exactly when the operations are equal |
| `OperationDiff.NoDiffIffFunctional` | asdlc-service/services/task_diff.go:206-221 | Equal operations never show a difference exactly when no method and path stands for two operations |
| `OperationDiff.SameDocumentSameOperations` | asdlc-service/services/task_diff.go:155-222 | Two spellings of one document have the same operations |
| `OperationDiff.DistinctMethodsFunctional` | asdlc-service/services/task_diff.go:212-219 | Methods distinct ignoring case suffice for that |
| `LineDiff.ComputeSpecDiff` | asdlc-service/services/task_diff.go:252-296 | The text is the rendered surplus of each side, computed with decremented counters |
| `LineDiff.DiffReads` | asdlc-service/services/task_diff.go:276-294 | The text line by line: the added lines behind a plus sign, then the removed ones behind a minus sign |
| `LineDiff.DiffIsPatch` | asdlc-service/services/task_diff.go:264-295 | Removing the `-` lines and adding the `+` lines turns prev into curr, as multisets |
| `LineDiff.DiffIsMinimal` | asdlc-service/services/task_diff.go:264-295 | Every patch contains the diff, and no line is both added and removed |
| `LineDiff.DiffKeepsOrder` | asdlc-service/services/task_diff.go:276-294 | `+` lines are a subsequence of curr and `-` lines of prev |
| `LineDiff.EmptyIffPermutation` | asdlc-service/services/task_diff.go:252-295 | Empty exactly for a non-empty prev whose lines are a permutation of curr's; two empty texts differ |
| `LineDiff.SwapIffNonEmpty` | asdlc-service/services/task_diff.go:252-295 | Swapping the texts swaps the signs exactly when neither is empty |
| `LineDiff.ParseRender` | asdlc-service/services/task_diff.go:276-294 | The written diff determines its entries |
| `DesignDiff.ComputeDesignDiff` | asdlc-service/services/task_diff.go:73-118 | Added, removed and modified entries by lower-cased name, each name once, sorted by name, the last component of a name standing for it |
| `DesignDiff.DiffTellsWhatBecame` | asdlc-service/services/task_diff.go:79-110 | A diff lists a name as added, removed or modified exactly when it is new, gone, or common with other dependencies or readable, different operations |
| `DesignDiff.DiffIsStable` | asdlc-service/services/task_diff.go:112-116 | Whatever order the maps are walked in, designs that give no operation twice have one diff |
| `DesignDiff.ModifiedIffChanged` | asdlc-service/services/task_diff.go:93-110 | Modified exactly when the dependency sets differ or both specifications can be read and their operations differ |
| `DesignDiff.EveryComponentOnce` | asdlc-service/services/task_diff.go:73-118 | Added or removed and common names add up to each design's names, which are its components when distinct |
| `DesignDiff.SwapDesigns` | asdlc-service/services/task_diff.go:79-110 | Swapping the designs swaps the added and the removed names and keeps the modified ones |
| `DesignDiff.SwapDependencies` | asdlc-service/services/task_diff.go:93-97 | Swapping the designs swaps the dependencies each modified component gained and lost |
| `DesignDiff.TrivialIffNothingNew` | asdlc-service/services/task_diff.go:53-63 | Trivial exactly when Added and Modified are empty |
| `DesignDiff.IndexIsLast` | asdlc-service/services/task_diff.go:120-126 | A name stands for the last component that has it |
| `DesignDiff.StringSetDiff` | asdlc-service/services/task_diff.go:130-150 | The items of each list the other lacks, in order |
| `DesignRoundTrip.RoundTripIff` | asdlc-service/services/artifact_store.go:310-491 | Split then assemble gives the normal form, sorted by name, exactly when names are distinct, non-empty and slash-free and the overview opens no fence |
| `DesignRoundTrip.NormalTwice` | asdlc-service/services/artifact_store.go:349-406 | Every field but the instructions is stable from the first round on |
| `DesignRoundTrip.HeadingAccumulates` | asdlc-service/services/artifact_store.go:484-485 | Each round puts another heading before the instructions |
| `DesignRoundTrip.ComponentReads` | asdlc-service/services/artifact_store.go:349-406 | A component's files read back as its normal form |
| `DesignFiles.SplitDesign` | asdlc-service/services/artifact_store.go:435-491 | The files of the whole design, or the first error |
| `DesignFiles.ComponentFiles` | asdlc-service/services/artifact_store.go:435-491 | The paths and texts written for a component, and that other files stay |
| `DesignFiles.FieldsRead` | asdlc-service/services/artifact_store.go:349-406 | Which key and which file each field is read from, the .yml file when there is no other |
| `DesignFiles.CompleteHas` | asdlc-service/services/artifact_store.go:455-475 | Dependent APIs without a name or an address are left out |
| `DesignFiles.AssembleDesign` | asdlc-service/services/artifact_store.go:310-347 | The design read from any file map, or the first error |
| `DesignFiles.ComponentNamesIn` | asdlc-service/services/artifact_store.go:410-429 | The directory names, each once, sorted |
| `Frontmatter.SplitJoinIff` | asdlc-service/services/artifact_store.go:268-305 | A block and body come back exactly when no line of the block starts with a fence |
| `Frontmatter.FenceOpens` | asdlc-service/services/artifact_store.go:268-281 | Three dashes alone on the first line that is not blank open a fence, after a byte order mark or not |
| `Frontmatter.SmallRead` | asdlc-service/services/artifact_store.go:281-291 | One line break after the closing fence belongs to it |
| `Frontmatter.SmallUnclosed` | asdlc-service/services/artifact_store.go:281-287 | A block that is not closed is an error |
| `Frontmatter.AllBodyIff` | asdlc-service/services/artifact_store.go:268-281 | A text is all body exactly when it opens no fence |
| `Tags.ParseRequirementsPrinted` | git-service/services/artifact_versioning.go:25-47 | A printed version is read back exactly when positive and not wrapped around |
| `Tags.ParseDesignPrinted` | git-service/services/artifact_versioning.go:31-65 | A printed design tag gives back both numbers exactly when both are in range |
| `Tags.PrintRequirementsParsed` | git-service/services/artifact_versioning.go:37-47 | A readable name is the printed one exactly when it is not zero-padded |
| `Tags.OneKind` | git-service/services/artifact_versioning.go:18-65 | No name is read as both kinds |
| `Tags.RequirementsReadIff` | git-service/services/artifact_versioning.go:37-47 | A requirements name is a v and a decimal from 1 to the largest 64-bit number |
| `Tags.DesignReadIff` | git-service/services/artifact_versioning.go:49-65 | A design name is a v and two such numbers with a dash between them |
| `Tags.IncrementWraps` | git-service/services/artifact_versioning.go:80-83 | Adding one wraps around at the largest 64-bit number only |
| `Tags.LatestRequirementsVersion` | git-service/services/artifact_versioning.go:69-77 | The greatest readable version, or 0 |
| `Tags.LatestDesignRevision` | git-service/services/artifact_versioning.go:87-99 | The greatest revision under the parent, or 0 |
| `Tags.LatestDesign` | git-service/services/artifact_versioning.go:120-130 | The greatest (N, M), or none |
| `Tags.LatestRequirementsTag` | git-service/services/artifact_versioning.go:110-116 | The name printed for the greatest version, or the empty name |
| `Tags.LatestDesignTag` | git-service/services/artifact_versioning.go:120-135 | The name printed for the greatest (N, M), or the empty name |
| `Tags.NextRequirementsTag` | git-service/services/artifact_versioning.go:80-83 | One above the greatest version, wrapping around at the largest int |
| `Tags.NextDesignTag` | git-service/services/artifact_versioning.go:103-106 | One above the greatest revision under the parent |
| `Tags.NextVersionIsNew` | git-service/services/artifact_versioning.go:80-83 | Short of the largest int the next version name is not in the list, whatever the list holds |
| `Tags.NextRevisionIsNew` | git-service/services/artifact_versioning.go:103-106 | Likewise for the next design tag |
| `Tags.RequirementsVersions` | git-service/services/artifact_versioning.go:156-172 | A descending permutation of the readable tags |
| `Tags.DesignVersions` | git-service/services/artifact_versioning.go:176-198 | A descending permutation of the readable design tags |
| `Tags.HeadIsLatestVersion` | git-service/services/artifact_versioning.go:69-77 | The head of the list carries the scan's number, and the list is empty when the scan finds none |
| `Tags.HeadIsLatestDesign` | git-service/services/artifact_versioning.go:120-135 | The head of the design list is the scan's (N, M) |
| `SaveHistory.LatestUnique` | git-service/services/artifact_versioning.go:69-106 | The scans determine the numbers the history is built from |
| `SaveHistory.VersionsAreConsecutive` | git-service/services/save_via_api.go:510-562 | After any run of overlapping saves, however stale their tag lists, versions are 1..n and each parent's revisions 1..m, in creation order, all names distinct |
| `SaveHistory.RequirementsKeepsInv` | git-service/services/save_via_api.go:436-445 | An attempt is refused exactly when its list was out of date |
| `SaveHistory.NewestIffNoLaterParent` | git-service/services/save_via_api.go:218-227 | A new design tag is the strict maximum exactly when no design has a later parent |
| `SaveHistory.LastSavedIsLatestIff` | git-service/services/save_via_api.go:218-227 | In any run the design just saved is the latest exactly when no design has a later parent than the version it read |
| `SaveHistory.StaleParentRun` | git-service/services/save_via_api.go:218-227 | A run of four saves whose latest design is not the last one saved |
| `SaveHistory.LatestDesignIsLastSaved` | git-service/services/artifact_service.go:535-544 | With saves one at a time the latest design is the one saved last |
| `SaveHistory.SerialDesign` | git-service/services/save_via_api.go:76-79 | One at a time, a design save after the first requirements version always gets its tag, the latest one |
| `RequirementsDir.UndoExactIff` | git-service/services/artifact_service.go:1235-1327 | A restore after any calls that spare the snapshot leaves its restorable files; that is the captured listing exactly when no listed name held a backslash |
| `RequirementsDir.UnlistedFilesLost` | git-service/services/artifact_service.go:1305-1323 | Files the listing does not show are gone after a restore |
| `RequirementsDir.SnapshotKept` | git-service/services/artifact_service.go:1235-1327 | Only a capture under the same id or a delete touches a snapshot |
| `RequirementsDir.ArtifactService.RestoreSnapshot` | git-service/services/artifact_service.go:1276-1327 | The directory holds the valid files of the snapshot and nothing else |
| `RequirementsDir.ArtifactService.CaptureSnapshot` | git-service/services/artifact_service.go:1235-1271 | The listing is stored under the id and returned |
| `RequirementsDir.ArtifactService.PutFile` | git-service/services/artifact_service.go:378-423 | Path, size and if-match errors in order: a put under a hash takes effect exactly when the file is there and has this hash; then the content is there and its hash returned |
| `RequirementsDir.SecondPutIff` | git-service/services/artifact_service.go:400-411 | Of two puts under the hash of one reading the second takes effect exactly when the first left the hash as it was |
| `RequirementsDir.PutOverReading` | git-service/services/artifact_service.go:400-411 | After any calls a put under the hash of a reading takes effect only over a file that has this hash |
| `RequirementsDir.ValidNameIff` | git-service/services/artifact_service.go:241-267 | Valid names have no separator of either kind and one of the three extensions in any letter case |
| `RequirementsDir.PathSegments` | git-service/services/artifact_service.go:197-218 | A path has no empty, dot or dot-dot segment |
| `RequirementsDir.ArtifactService.DeleteRequirementFile` | git-service/services/artifact_service.go:473-502 | The main file and invalid or missing names are refused |
| `RequirementsDir.ReadAfterCapture` | git-service/services/artifact_service.go:1337-1373 | After a capture and any calls that spare it, reading a file from the snapshot gives what the file was then, or that it was missing |
| `RequirementsDir.ArtifactService.DeleteSnapshot` | git-service/services/artifact_service.go:1376-1396 | Removes the snapshot; a missing one is no error |
| `RequirementsChat.NoDrift` | asdlc-service/services/requirements_chat_service.go:113-131 | While a turn holds the lock no one else's call runs and the files are its start plus its own edits |
| `RequirementsChat.CapturesWhatTheAgentSaw` | asdlc-service/services/requirements_chat_service.go:133-147 | The undo snapshot is the listing the agent was given |
| `RequirementsChat.TurnSeesOwnEdits` | asdlc-service/services/requirements_chat_service.go:235-260 | During the turn the files are the agent's files with the turn's edits |
| `RequirementsChat.UndoGivesBackWhatTheAgentSaw` | asdlc-service/services/requirements_chat_service.go:378-400 | Undo returns the pre-turn listing exactly when no listed name held a backslash |
| `RequirementsChat.ApplyToolResult` | asdlc-service/services/requirements_chat_service.go:314-374 | Write, delete or write and render; a failed render leaves the primary write |
| `RequirementsChat.CanvasKindIff` | asdlc-service/services/requirements_chat_service.go:335-357 | Canvas documents end in .dsl and start with the name of their kind in any letter case |
| `RequirementsChat.SiblingReads` | asdlc-service/services/requirements_chat_service.go:357 | The rendered file replaces a lower-case .dsl by .excalidraw |
| `RequirementsChat.RevertFile` | asdlc-service/services/requirements_chat_service.go:428-466 | The snapshot's file is read, and under the transaction's lock the file is put back, deleted, or emptied if it is the main file; refused exactly without a snapshot, with the lock taken or an oversized baseline |
| `RequirementsChat.RevertGivesCaptured` | asdlc-service/services/requirements_chat_service.go:428-466 | After a capture and any calls that spare it, a revert leaves the other files alone and gives the file back as captured, exactly unless it is the main file and was missing |
| `RequirementsLock.AcquireSession` | asdlc-service/services/requirements_lock.go:111-139 | The handle's connection holds the key once more, or another connection holds it and nothing changed |
| `RequirementsLock.SessionLock.Release` | asdlc-service/services/requirements_lock.go:94-109 | Gives back one level of its own hold if the unlock reached the database; a second call changes nothing |
| `RequirementsLock.NextAcquireIff` | asdlc-service/services/requirements_lock.go:94-139 | After one session another connection gets the key exactly when the unlock reached the database, the same connection in any case |
| `RequirementsLock.LeftBehind` | asdlc-service/services/requirements_lock.go:94-109 | A key left behind stays with its connection through any balanced use, and no other connection can acquire it |
| `RequirementsLock.ClosedFrees` | asdlc-service/services/requirements_lock.go:94-109 | Closing that connection frees the key for every other |
| `Progress.DedupOnTsSeq` | asdlc-service/services/progress_service.go:297-311 | Compacting in the array's own prefix equals the functional deduplication; the rest stays |
| `Progress.DedupKeepsFirst` | asdlc-service/services/progress_service.go:294-311 | On sorted events exactly the first of each numbered key survives and every unnumbered event |
| `Progress.DeliveredOnce` | asdlc-service/services/progress_service.go:268-292 | Whatever the order of the lines, numbered events are delivered once and in order |
| `Progress.SortIsStable` | asdlc-service/services/progress_service.go:285-292 | Sorted, a permutation, and events of one key keep their order |
| `Progress.SortedByTime` | asdlc-service/services/progress_service.go:285-292 | An earlier event has the earlier timestamp text, or the same and no greater number |
| `Progress.LastPhase` | asdlc-service/services/progress_service.go:313-320 | The phase of the last event of kind phase that has one |
| `Progress.NextCursor` | asdlc-service/services/progress_service.go:322-341 | The greatest delivered millisecond plus one, or the old cursor |
| `ProgressPaging.KeptOutIff` | asdlc-service/clients/observer/client.go:30-36 | Whatever the line, all later polls made in time leave it out exactly when it was received before the cursor the last page returned |
| `ProgressPaging.NextFetchesIff` | asdlc-service/clients/observer/client.go:109-122 | The next poll, whatever its clock says, can fetch exactly the lines received between its start and now |
| `ProgressPaging.StartCases` | asdlc-service/services/progress_service.go:343-351 | The start of a poll: the cursor, a second before the dispatch, or thirty days back |
| `ProgressPaging.KeptOut` | asdlc-service/services/progress_service.go:120-135 | No later poll made in time fetches a line received before an earlier cursor |
| `ProgressPaging.NeverFetchedAgain` | asdlc-service/services/progress_service.go:267-341 | A delivered line that was not received after its timestamp is not fetched again |
| `ProgressPaging.NeverRepeated` | asdlc-service/services/progress_service.go:120-135 | When no line of a later poll was received after its timestamp, it delivers later milliseconds only |
| `ProgressPaging.DeliveredTwice` | asdlc-service/services/progress_service.go:267-283 | Two polls in a row deliver an event stamped at 100 ms on a line received at 105 ms |
| `ProgressPaging.AheadOfClock` | asdlc-service/clients/observer/client.go:114-122 | With the cursor ahead of the clock the next poll delivers the line again |
| `ProgressPaging.SecondIsLost` | asdlc-service/services/progress_service.go:124-135 | A line of the page's last millisecond cut off by the limit is in no later poll made in time |
| `ProgressPaging.AgentProgress` | asdlc-service/services/progress_service.go:123-135 | The stamped, sorted, deduplicated lines up to the limit, whether more were there, and the cursor after them |
| `ProgressPaging.ParseAndSort` | asdlc-service/services/progress_service.go:267-283 | Events without a timestamp take their line's; then sorting and deduplication |
| `Progress.ProgressService.DiffBuildSteps` | asdlc-service/services/progress_service.go:178-216 | Reports exactly the steps whose phase changed and that are not older than the cursor, numbered on |
| `Progress.ProgressService.EvictStepSeen` | asdlc-service/services/progress_service.go:218-222 | Forgets the phases of one task only |
| `Progress.ReportedIff` | asdlc-service/services/progress_service.go:190-200 | Of distinct steps exactly those in a new phase that are not older than the cursor are reported |
| `Progress.TooOldIff` | asdlc-service/services/progress_service.go:194-200 | A step is passed over when its end, or else its start, can be read and lies before a positive cursor |
| `Progress.UnchangedRunIsQuiet` | asdlc-service/services/progress_service.go:190-200 | Polling an unchanged run whose phases were kept reports nothing |
| `Progress.CompletedRunRepeatsIff` | asdlc-service/services/progress_service.go:162-175 | After a poll of a completed run forgot its phases, the next one reports a step again exactly when it has a phase and no readable time, or the cursor is not positive |
| `Progress.ProgressService.GetBuildProgress` | asdlc-service/services/progress_service.go:137-175 | Reports and numbers the changed steps, advances the cursor, and forgets the phases of a completed run |

## Left out

- HTTP routes, middleware, configuration, the console and every client (GitHub, OpenChoreo, Thunder, agents, Kubernetes): input and output with no state of their own.
- Unserialised dispatch passes: start counts are claimed only for one pass at a time. Progress and deferral are stated for passes without interruption.
- Issue creation, board moves, comments, prompts, tokens and error messages of the dispatch path.
- TraitSync.Convergence: claims nothing for a component whose external object changed, whose design changed without a sync, or whose last read or call failed, since its last completed sync; `SweepSettles` says that the next undisturbed sync repairs it.
- Trait configuration of the organisation's identity provider is constant during a run; two component names with one cluster name are not modelled.
- The feature flag, argument checks and audit lines around a trait sync, and `normalizeDesignJSON`, which applies the canonicaliser to each component in place.
- TraitSync.LockKeyInjective: assumes organisation and project names without a slash.
- YAML and JSON parsing and printing: a document is its tree, and equal texts stand for equal trees.
- OpenAPI meaning: dropping an empty `security` list is a syntactic quotient and not claimed to be neutral.
- DesignDiff.DiffIsStable: sufficient only; an operation that one specification gives twice need not show in the lines.
- DesignFiles.SplitDesign: removing files of components that left the design is the caller's step and not modelled.
- Conflicts between a file and a directory of the same name, partial writes and other file system errors.
- SaveHistory.VersionsAreConsecutive: runs are no longer than the largest 64-bit int; `Increment` models the wrap-around beyond it.
- Commits, trees and the working-tree diff of a save: only its tag is modelled; a save that finds nothing to do leaves the tags alone.
- Tags.RequirementsVersions: the order of two tags with the same number is not specified, as in the unstable sort it models.
- RequirementsChat: server-sent frames and their forwarding; the turn is its lock, captures and calls. The FNV hash of the lock key is a parameter, and a collision only serialises two projects.
- ProgressPaging.KeptOutIff: is for one viewer and one run of the agent; results shared between concurrent polls are not modelled.
- Component name helpers for Kubernetes, board routing, database provisioning, the collaboration server: easy, or dominated by external systems.
