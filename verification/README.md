# Proofs about the Prow AI dashboard

A Dafny model of the parts of the dashboard whose correctness is hardest to see from the code: the
protocols in front of irreversible GitHub writes, the checks on an untrusted source workspace, and the
bounded pipelines that turn model output into published results. Where the code changes state in steps,
a class or a method with loops follows it and is proved equal to a function of the old state; the
promises are then proved of those functions, over every input and every run. Where the code and the
wish differ, the exact condition under which they agree is proved, with a concrete input for the rest.

`dafny verify dfyconfig.toml` checks everything.

| files | what they model |
|---|---|
| `Previews`, `PreviewStore`, `PreviewFitting`, `PreviewProtocol`, `PreviewMigration` | the persisted previews: every locked update with eviction and size fitting; mutual exclusion and separation of writes over all interleavings, and the one update that breaks the separation |
| `PreviewLifecycle`, `PreviewOutcomes`, `PreviewDrafts` | what each operation makes of a record and for whom, that success is final, and that what was previewed is what is confirmed |
| `WriteAudit`, `ConfirmProtocol` | the audit of bot writes, and confirmations racing over store and audit with crashes between any two steps |
| `RequestLifecycle`, `RequestAdmission` | the life of one action request, and who may confirm it |
| `RequestAdmitted`, `RequestIdentity` | the same over executions: only admitted owners write, and a request keeps its identity |
| `Requests`, `RequestService`, `RequestProtocol`, `RequestRuns`, `RequestCleanup`, `RequestBound` | the asynchronous action requests: memory and disk copies, failed saves, generations, cleaners, confirmations, shutdown and restarts as one system of critical sections |
| `SourceGraph` | the cycle check over directories and directory symlinks |
| `SymlinkResolver`, `SymlinkMeaning`, `SymlinkWalk`, `SymlinkClimb` | the bounded symlink resolver over an abstract file system, against a component-by-component walk |
| `EvidenceIndex`, `EvidenceHandles`, `EvidenceBuilder`, `EvidenceBuild`, `EvidenceOrder` | the sparse line index, and the construction of evidence handles with its two validators and its bounds |
| `ResultValidation`, `Citations`, `WorkspaceAnalysis` | canonicalization of an analysis, run by executor and host, and its validation outcomes |
| `QuoteText`, `AnalysisMeaning`, `AnalysisOutcome` | the same in terms of the cited files and the text written |
| `CandidateScanner`, `CandidateQuoting`, `CandidateBalance`, `CandidateSelection` | the JSON object scanner (string quoting as in section 7 of RFC 8259), what it takes for strings and objects, and the choice of a reply |
| `Ledger`, `LedgerRuns`, `LedgerRecords` | the retention-bounded comparison ledger and its claims |
| `Flakiness`, `FlakinessReport`, `FlakinessCases`, `FlakinessNumbers` | test outcomes, classification, error patterns and the report, also in terms of test cases and runs |
| `SpaRoutes` | the pair of scripts that carry a deep link through the not-found page |
| `Order`, `Wrappers` | string order, sorting, and shared result types |

Conventions. Clock readings, fresh tokens and ids, the fate of each write and the answers of GitHub,
the model and the runtime are arguments or nondeterministic steps. A durable write succeeds, fails
leaving the old file, or fails after replacing it. Preview and ledger instants are nanoseconds, request
and flakiness instants seconds. A `char` in `EvidenceIndex`, `Citations` and `CandidateScanner` is one
byte.


Where the code falls short of the wish:

- The preview store skips eviction in an update whose load dropped a stale ready fix
  (backend/internal/actions/preview_store.go:400). A confirming preview whose lease has run out can then
  begin a second write at once. `PreviewProtocol.WriteWhileHeld` is the exact condition,
  `PreviewMigration.MigrationMayWriteTwice` and `ConfirmProtocol.MigrationMayCallTwice` are runs of it,
  `PreviewMigration.CurrentWritesAreSeparated` the guarantee for stores without stale fixes.
- A request without a failure id is not marked unknown before its write
  (backend/internal/actions/requests.go:1612): `RequestRuns.UnnamedRequestMayWriteTwice`,
  `RequestCleanup.UnnamedRequestMaySkipCleanup`.
- The symlink resolver rewrites lexically: it follows the file system exactly where link texts climb
  before they name anything, `SymlinkClimb.ClimbingFirstIsExact`.

## Model

| member | source | states |
|---|---|---|
| `PreviewStore.Store.Load` | backend/internal/actions/preview_store.go:415-460 | what loading keeps of the file, and that it reports a change exactly when it dropped a stale ready fix |
| `PreviewStore.Store.Evict` | backend/internal/actions/preview_store.go:537-586 | the eviction loop leaves exactly the per-record effect of lease expiry and time to live, and reports a change exactly when something changed |
| `PreviewStore.Store.Open` | backend/internal/actions/preview_store.go:395-400 | the state an operation sees and the change flag: eviction is the right operand of a short-circuit "or", so an update whose load dropped a record does not evict |
| `PreviewStore.Store.Collect` | backend/internal/actions/preview_store.go:588-612 | the removable records in (created, key) order, whatever order the map yields them in |
| `PreviewStore.Store.Fit` | backend/internal/actions/preview_store.go:588-632 | the fitting loop ends in the fitted state, with the error that belongs to it |
| `PreviewStore.Store.Commit` | backend/internal/actions/preview_store.go:380-413 | what is on disk after an update, and the error reported, for every way the write can end |
| `PreviewStore.Store.Stash` | backend/internal/actions/preview_store.go:76-105 | the new disk state and result of stash |
| `PreviewStore.Store.StashIdempotent` | backend/internal/actions/preview_store.go:107-135 | the new disk state and result of stashIdempotent |
| `PreviewStore.Store.ReserveIdempotent` | backend/internal/actions/preview_store.go:137-181 | the new disk state and result of reserveIdempotent, for every status of an existing record, expired leases included |
| `PreviewStore.Store.CompleteIdempotent` | backend/internal/actions/preview_store.go:183-201 | the new disk state and result of completeIdempotent |
| `PreviewStore.Store.CancelIdempotent` | backend/internal/actions/preview_store.go:203-220 | the new disk state and result of cancelIdempotent |
| `PreviewStore.Store.Revoke` | backend/internal/actions/preview_store.go:222-245 | the new disk state and result of revoke |
| `PreviewStore.Store.Begin` | backend/internal/actions/preview_store.go:252-306 | the new disk state and result of begin: refusal, write mode (also of a confirming record whose lease ran out) or reconcile mode |
| `PreviewStore.Store.Finish` | backend/internal/actions/preview_store.go:308-341 | the new disk state and result of finish for success, definite error and unknown outcome; what they mean for the record is `PreviewOutcomes.FinishSettlesRecord` |
| `PreviewStore.Store.Take` | backend/internal/actions/preview_store.go:343-361 | the new disk state and result of take |
| `PreviewStore.Store.Discard` | backend/internal/actions/preview_store.go:363-374 | the new disk state and result of discard |
| `PreviewOutcomes.FinishSettlesRecord` | backend/internal/actions/preview_store.go:308-341 | after a written finish by the holder of the current attempt the record on disk is confirmed with the URL it was given, and unknown if the outcome was a failure or had no URL, with its draft and without an attempt |
| `PreviewOutcomes.FinishNeedsAttempt` | backend/internal/actions/preview_store.go:308-341 | finish reports success only to the holder of the current attempt |
| `PreviewOutcomes.ConfirmedAnswersBegin` | backend/internal/actions/preview_store.go:252-306 | a later begin by the owner of a confirmed record answers with the recorded URL and changes nothing; by anyone else it finds nothing |
| `PreviewOutcomes.ConfirmedIsFinal` | backend/internal/actions/preview_store.go:76-413 | over every run a confirmed record stays as it is for as long as it is kept, and no attempt starts through it |
| `PreviewOutcomes.SuccessIsFinal` | backend/internal/actions/preview_store.go:252-413 | so once a finish has reported success with a URL, nothing writes or reconciles through that record again while it is kept |
| `PreviewLifecycle.OpActsExactly` | backend/internal/actions/preview_store.go:76-374 | the exact condition under which each operation acts, in terms of owner, status, attempt, hashes, lease and conflict, and that it then touches only its own record |
| `PreviewLifecycle.OthersRecordsAreSafe` | backend/internal/actions/preview_store.go:76-374 | nobody changes another owner's record, or is told anything about it but an error |
| `PreviewLifecycle.ActingMakes` | backend/internal/actions/preview_store.go:76-374 | what an operation that acts makes of its record, field by field |
| `PreviewLifecycle.ErrorsAreExact` | backend/internal/actions/preview_store.go:76-374 | which error an operation reports when it does not act, and that it reports none when it does, but for a finish without a URL |
| `PreviewDrafts.StoredDraftComesBack` | backend/internal/actions/preview_store.go:462-521 | a draft that is stored is handed out again as it was, initiated by its owner |
| `PreviewDrafts.PreviewIsWhatIsConfirmed` | backend/internal/actions/preview_store.go:76-413 | over every run a record that is kept and not stored anew hands out the same entry at the end as at the start: what was previewed is what is confirmed |
| `PreviewDrafts.LoadingIsExact` | backend/internal/actions/preview_store.go:445-459 | loading drops exactly the ready fixes of another verification version than 5, or without a failure id or pattern hash |
| `PreviewDrafts.ExpiryDeletesExactly` | backend/internal/actions/preview_store.go:537-586 | the exact condition under which eviction deletes a record |
| `PreviewDrafts.ExpiryChangesExactly` | backend/internal/actions/preview_store.go:537-586 | and under which it changes one, and into what: a lapsed attempt into an unknown outcome, an old unknown outcome into a ready draft |
| `PreviewDrafts.LimitsAreExact` | backend/internal/actions/preview_store.go:588-632 | a state fits with at most 128 records and the configured size, 64 MiB if none is configured |
| `PreviewFitting.SortedItemsAreUnique` | backend/internal/actions/preview_store.go:588-612 | the removal order does not depend on map iteration |
| `PreviewFitting.RemovableItemsMeaning` | backend/internal/actions/preview_store.go:588-612 | the candidates for removal are exactly the records that are not protected, confirming, confirmed or unknown, each once and oldest first |
| `PreviewFitting.FittingRemovesOldestPrefix` | backend/internal/actions/preview_store.go:588-632 | fitting deletes exactly the shortest oldest-first prefix of removable records that brings count and size within limits, and touches nothing else |
| `PreviewFitting.CommitIsAllOrNothing` | backend/internal/actions/preview_store.go:380-413 | a commit leaves the old file, or the fitted new state within limits; an update that cannot fit leaves the file alone |
| `PreviewProtocol.SameActionIsEqualAction` | backend/internal/actions/preview_store.go:523-535 | two records conflict exactly when they carry the same nonempty action key |
| `PreviewProtocol.OpenedLeasesAreLive` | backend/internal/actions/preview_store.go:395-402 | an operation meets a lease that has run out, and so the expired-lease branches of begin and reserve, exactly when one is on disk and loading dropped a stale fix |
| `PreviewProtocol.OpKeepsExclusive` | backend/internal/actions/preview_store.go:76-374 | every operation keeps at most one confirming or unknown record per action |
| `PreviewProtocol.AfterKeepsInvariants` | backend/internal/actions/preview_store.go:380-413 | so does a whole locked update, with eviction or without, fitting and any write outcome |
| `PreviewProtocol.RunStaysExclusive` | backend/internal/actions/preview_store.go:76-413 | mutual exclusion in every reachable state of every interleaving of the operations |
| `PreviewProtocol.WriteWhileHeld` | backend/internal/actions/preview_store.go:252-306 | while an attempt on an action is unsettled and not lapsed, begin enters write mode on that action exactly through the held record itself, and exactly when loading dropped a stale ready fix, the record is confirming with its lease run out, its draft restores, the owner asks and no other record of the action is active |
| `PreviewProtocol.HeldStaysHeld` | backend/internal/actions/preview_store.go:252-413 | each update keeps an unsettled attempt unsettled with its unknown-since time, unless it settles it, finds it lapsed, or restarts it after a load that dropped a stale fix |
| `PreviewProtocol.HeldUntilReleased` | backend/internal/actions/preview_store.go:550-577 | over a run, an attempt is released only by settling, by such a restart, or by an unknown outcome whose starting time stood still for strictly more than the time to live; reconcile attempts never move it |
| `PreviewProtocol.WritesAreSeparated` | backend/internal/actions/preview_store.go:252-413 | between two write-mode begins on one action the earlier record was confirmed, discarded or taken, or had been unknown for strictly more than the time to live, or an update whose load dropped a stale fix restarted it after its lease ran out |
| `PreviewMigration.AfterKeepsCurrent` | backend/internal/actions/preview_store.go:445-459 | an update that stores no stale fix keeps every record current, so loading never drops one later |
| `PreviewMigration.WritesAreSeparatedInTime` | backend/internal/actions/preview_store.go:252-413 | without an update that drops a stale fix in between, only a settlement or the time to live separates two writes |
| `PreviewMigration.CurrentWritesAreSeparated` | backend/internal/actions/preview_store.go:252-413 | so it is in every run that starts from current records and stores only current ones |
| `PreviewMigration.MigrationMayWriteTwice` | backend/internal/actions/preview_store.go:400 | a concrete run in which a stale fix becomes ready, the next update drops it and skips eviction, and a second write begins on one issue a nanosecond after the first, whose lease was that short, with nothing settled and the time to live not over |
| `WriteAudit.Store.Record` | backend/internal/actions/bot_write_audit.go:75-120 | the audit after a record call, and whether it reports success, for every load and write outcome |
| `WriteAudit.RecordedMeansOnRecord` | backend/internal/actions/bot_write_audit.go:75-120 | when record reports success, a complete audit record of the same write is in the audit under its key |
| `ConfirmProtocol.NextKeepsInvariant` | backend/internal/actions/actions.go:1193-1271 | every move of the joint system of confirmations, store and audit, crashes included, keeps the invariant |
| `ConfirmProtocol.ConfirmedImpliesAudited` | backend/internal/actions/actions.go:1223-1271 | in every reachable state each confirmed preview has an audit record under its key that names its result URL, its initiator and confirmer, and its draft's kind, failure and repository |
| `ConfirmProtocol.AuditIsPermanent` | backend/internal/actions/bot_write_audit.go:75-120 | an audit record is never changed or removed along an execution |
| `ConfirmProtocol.EachAttemptWritesOnce` | backend/internal/actions/actions.go:1193-1271 | one begin leads to at most one call of confirmEntry |
| `ConfirmProtocol.WriteCallsAreSeparated` | backend/internal/actions/actions.go:1193-1271 | two calls of confirmEntry for one action come from different begins with a release in between: a settlement, the time to live, or a restart by an update that dropped a stale fix |
| `ConfirmProtocol.CurrentCallsAreSeparated` | backend/internal/actions/actions.go:1193-1271 | among current records the release is a settlement or the time to live |
| `ConfirmProtocol.MigrationMayCallTwice` | backend/internal/actions/actions.go:1193-1271 | among others it need not be: a concrete execution ends with two processes inside confirmEntry for one issue |
| `ConfirmProtocol.OnlyCurrentAttemptSettles` | backend/internal/actions/preview_store.go:308-374 | a finish or discard changes a record only if the caller holds its current attempt id, and no other process holds that id |
| `RequestService.Service.ExpireDue` | backend/internal/actions/requests.go:1761-1809 | the expiry loop leaves exactly the per-record effect of expiry, skipping requests being confirmed |
| `RequestService.Service.Prune` | backend/internal/actions/requests.go:1810-1826 | the prune drops only completed requests, oldest first, and only down to the limit |
| `RequestLifecycle.ExpiredRecord` | backend/internal/actions/requests.go:1761-1809 | an expired request that may own runtime work goes into cleanup with its work on record; any other ends with nothing private left |
| `RequestLifecycle.PruningIsExact` | backend/internal/actions/requests.go:1810-1826 | a prune drops nothing from up to 200 requests, and from more the oldest completed ones down to 200 or until none is left |
| `RequestLifecycle.ExpiryIsSaved` | backend/internal/actions/requests.go:1761-1826 | whatever expiry or pruning changed in memory is saved, and a failed save is reported |
| `RequestService.Service.ObserveWork` | backend/internal/actions/requests.go:264-282 | recording reported work, undone in memory when the save fails |
| `RequestService.Service.AddNote` | backend/internal/actions/requests.go:139-262 | saving the stage, the warning or the verification of a pending request, undone when the save fails, and the mail status of a ready one, kept in memory |
| `RequestLifecycle.NoteIsExact` | backend/internal/actions/requests.go:139-262 | a note changes the warning or the mail error and the time of change, and nothing else; which notes are taken, and what a failed save leaves |
| `RequestService.Service.CompleteGeneration` | backend/internal/actions/requests.go:1288-1434 | publishing what generation produced, only while still pending |
| `RequestLifecycle.DraftMakesReady` | backend/internal/actions/requests.go:1288-1434 | a generated draft makes a pending request ready, an analysis fix for fifteen more minutes, with exactly the draft and what it was verified against |
| `RequestLifecycle.FailureMakesFailed` | backend/internal/actions/requests.go:1288-1434 | any other result makes it failed with a code |
| `RequestLifecycle.LateResultIsDropped` | backend/internal/actions/requests.go:1288-1434 | a result for a request that is no longer pending changes nothing |
| `RequestService.Service.TransitionToCleanup` | backend/internal/actions/requests.go:796-827 | a pending or ready request goes into cleanup; a failed save puts it back |
| `RequestService.Service.MarkCleanupBlocked` | backend/internal/actions/requests.go:631-659 | marking a blocked cleanup, undone when the save fails |
| `RequestService.Service.FinalizeCleanup` | backend/internal/actions/requests.go:734-790 | the final record of a cleaned request, and the old one back when the save fails |
| `RequestLifecycle.FinalizedRecord` | backend/internal/actions/requests.go:734-790 | a finalized request ends in the status its cleanup recorded, bare of drafts, words and work; only a failed one keeps a reason |
| `RequestService.Service.StopActive` | backend/internal/actions/requests.go:890-920 | shutdown puts every pending request into cleanup and refuses new ones |
| `RequestLifecycle.ShutdownIsExact` | backend/internal/actions/requests.go:890-920 | shutdown puts exactly the pending requests into cleanup that will end as failed, their work on record |
| `RequestService.Service.ConfirmEnter` | backend/internal/actions/requests.go:1531-1628 | the admission of a confirmation: refusal, answer, reconcile, or a write with the unknown mark saved first; any answer but a refusal is given to the owner of the request |
| `RequestAdmission.VerdictIsExact` | backend/internal/actions/requests.go:1536-1617 | the exact condition of each answer: owner, status, draft, fix actions enabled, verification version 5 with failure and pattern for a fix, and a current snapshot where there is a failure id; refusal is what is left |
| `RequestAdmission.OthersAreRefused` | backend/internal/actions/requests.go:1541-1544 | nobody but the owner gets any answer but a refusal |
| `RequestAdmitted.OnlyAdmittedOwnersWrite` | backend/internal/actions/requests.go:1531-1648 | in every execution confirmEntry is called for a request only after a confirmation by its owner that met every condition |
| `RequestIdentity.IdentityNeverChanges` | backend/internal/actions/requests.go:284-441 | owner, failure, kind and hashes of a request stay what they were through every step of every execution in which it is not created anew |
| `RequestIdentity.WritesAreAskedByOwner` | backend/internal/actions/requests.go:1531-1648 | so the user a request has belonged to all along is the one who asked for each call of confirmEntry |
| `RequestIdentity.CreatorOwns` | backend/internal/actions/requests.go:1053-1081 | and a request starts out as its creator's |
| `RequestLifecycle.MarkIsWrittenAhead` | backend/internal/actions/requests.go:1612-1628 | the unknown mark is on disk before the call, and a failed save takes it back in memory |
| `RequestLifecycle.OutcomeIsRecorded` | backend/internal/actions/requests.go:1649-1674 | what each outcome of a confirmation leaves of the request, in memory and on disk |
| `RequestService.Service.ConfirmRefused` | backend/internal/actions/requests.go:1649-1658 | a definite error makes the request confirmable again |
| `RequestService.Service.ConfirmWritten` | backend/internal/actions/requests.go:1661-1673 | a result URL settles the request |
| `RequestService.Service.FindBlocking` | backend/internal/actions/requests.go:1011-1037 | a blocking request is found exactly when an open duplicate or an unresolved write exists |
| `RequestService.Service.Count` | backend/internal/actions/requests.go:1038-1050 | the two counters are the numbers of waiting and of active requests outside the exempt ones |
| `RequestService.Service.Install` | backend/internal/actions/requests.go:1059-1093 | insertion of the new request and cleanup of the one it replaces, with both undone when the save fails |
| `RequestService.Service.Create` | backend/internal/actions/requests.go:947-1108 | what CreateRequest leaves and answers: a new request exactly when admitted and saved |
| `RequestLifecycle.AdmissionIsExact` | backend/internal/actions/requests.go:947-1052 | a request is admitted exactly under the conditions on supersession, duplicates, unknown outcomes, three waiting per owner, fifty open, and the draft a refinement starts from |
| `RequestLifecycle.CreationAddsOne` | backend/internal/actions/requests.go:1053-1108 | a saved creation adds one pending request of the caller for a day, and puts the one it replaces into cleanup |
| `RequestService.Service.CreateAnalysis` | backend/internal/actions/requests.go:1112-1229 | what CreateAnalysisFixRequest leaves and answers |
| `RequestLifecycle.AnalysisAdmissionIsExact` | backend/internal/actions/requests.go:1112-1217 | the exact condition of admission for an analysis fix |
| `RequestLifecycle.AnalysisCreationAddsOne` | backend/internal/actions/requests.go:1218-1229 | what a saved creation of one adds |
| `RequestService.Service.Load` | backend/internal/actions/requests.go:284-441 | what a start makes of the state file |
| `RequestLifecycle.PassingDraftIsKept` | backend/internal/actions/requests.go:342-394 | a persisted draft that still passes is kept with the preview it has now |
| `RequestLifecycle.FailingDraftIsWithdrawn` | backend/internal/actions/requests.go:342-394 | a ready request whose draft fails, or whose fix is not of verification version 5, fails without any draft |
| `RequestLifecycle.InterruptedWorkIsCleaned` | backend/internal/actions/requests.go:395-430 | a generation cut short goes into cleanup if it had work |
| `RequestLifecycle.InterruptedDraftFails` | backend/internal/actions/requests.go:395-430 | and fails otherwise, with the draft it was refining if that still passes |
| `RequestProtocol.Recovery` | backend/internal/actions/requests.go:342-441 | what expiry and recovery make of any persisted request: no pending one is left, nothing sealed is unsealed, and recorded work keeps a request in cleanup |
| `RequestProtocol.StepKeepsWriteGuard` | backend/internal/actions/requests.go:284-441 | every step of the server (API calls, generations, cleaners, confirmations, failed saves, shutdown, restart) keeps the write guard of every request with a failure id |
| `RequestRuns.AtMostOneUnresolvedWrite` | backend/internal/actions/requests.go:1531-1674 | between two calls of confirmEntry for one request with a failure id, anywhere in an execution, the earlier returned a definite error |
| `RequestRuns.WriteStartsWithUnknownOnDisk` | backend/internal/actions/requests.go:1612-1648 | confirmEntry is called only with the request unknown in the state file and no unsettled call before it |
| `RequestRuns.WriteModeIsMarked` | backend/internal/actions/requests.go:1612-1628 | a confirmation enters write mode only from ready, after the unknown mark was saved |
| `RequestRuns.UnnamedRequestMayWriteTwice` | backend/internal/actions/requests.go:1612-1648 | the guarantee needs the failure id: from every world in which a confirmation of a request with a blank one is admitted, an execution writes twice with no refusal in between, the first call only ending with its outcome unknown |
| `RequestRuns.UnnamedIsConfirmable` | backend/internal/actions/requests.go:1540-1617 | and every ready issue draft with a blank failure id is admitted so to its owner |
| `RequestCleanup.StepIsCalm` | backend/internal/actions/requests.go:594-827 | a step that does not act on a request cannot take it out of cleanup or lose its recorded work |
| `RequestCleanup.StepKeepsCleanup` | backend/internal/actions/requests.go:594-790 | every step keeps what cleaners and generations rely on |
| `RequestCleanup.LeavingCleanupIsJustified` | backend/internal/actions/requests.go:734-790 | only a finalize takes a request out of cleanup, with its recorded work cleaned, or no work and none to come, or a detected change of identity |
| `RequestCleanup.FinalizeIsJustified` | backend/internal/actions/requests.go:661-723 | every finalize of a request in cleanup is justified when it happens, saved or not |
| `RequestCleanup.RestartNeverSkipsCleanup` | backend/internal/actions/requests.go:395-430 | a restart takes a request out of cleanup only after a justified finalize, or when no work was ever recorded and the restart ended every generation |
| `RequestCleanup.CleanupIsNeverSkipped` | backend/internal/actions/requests.go:594-790 | the same for every step of every execution of requests with failure ids, expiry, supersession and shutdown included |
| `RequestCleanup.UnnamedRequestMaySkipCleanup` | backend/internal/actions/requests.go:1649-1658 | this needs the failure id too: from every world in which a confirmation of a request with a blank one is admitted, a cancellation during the call and a refusal make it ready again out of its cleanup |
| `RequestBound.AdmittedMapIsBounded` | backend/internal/actions/requests.go:1038-1082 | admission leaves at most one active request above the maximum, the one being replaced |
| `RequestBound.ActiveRequestsStayBounded` | backend/internal/actions/requests.go:1038-1093 | in every execution of requests with failure ids memory and disk hold at most 51 active requests |
| `RequestBound.RequestsStayKept` | backend/internal/actions/requests.go:1038-1093 | in every execution at all, blank failure ids included, memory and disk hold at most 201 requests, active or not |
| `RequestBound.FailedCreationIsUndone` | backend/internal/actions/requests.go:1082-1093 | a creation whose save fails admits nothing, restores the request it would have replaced and starts no generation |
| `SourceGraph.BuildGraph` | backend/internal/agentanalysis/workspace.go:639-670 | the adjacency lists hold exactly the parent-to-child and symlink-to-target edges |
| `SourceGraph.EdgeMeaning` | backend/internal/agentanalysis/workspace.go:639-670 | an edge leads from a directory to one directly below it outside the Git metadata, or from the directory holding a link to the link's target |
| `SourceGraph.Visitor.Visit` | backend/internal/agentanalysis/workspace.go:671-689 | one search: the node is finished after all its successors, or the graph has a cycle |
| `SourceGraph.TrailDescends` | backend/internal/agentanalysis/workspace.go:671-689 | along any path the finishing position falls with every step |
| `SourceGraph.FinishedIsAcyclic` | backend/internal/agentanalysis/workspace.go:671-689 | a graph whose nodes were all finished has no cycle |
| `SourceGraph.Validate` | backend/internal/agentanalysis/workspace.go:639-695 | the check terminates and accepts exactly when the walk succeeded and the directory graph is acyclic, for every order of visiting nodes |
| `SymlinkResolver.CleanStaysInside` | backend/internal/agentanalysis/workspace.go:585-593 | a lexically cleaned path either starts with ".." or is below the root |
| `SymlinkResolver.Resolver.ResolveWithinRoot` | backend/internal/agentanalysis/workspace.go:585-632 | the resolver terminates with the answer of one bounded, remembering rewriting of links |
| `SymlinkResolver.Resolver.ValidateSymlink` | backend/internal/agentanalysis/workspace.go:570-583 | validateSourceSymlink, including the Git metadata refusal |
| `SymlinkMeaning.ResolvedIsPhysical` | backend/internal/agentanalysis/workspace.go:585-632 | an answer is inside the root; an existing target is reached through no link, an absent one fails at a prefix before which there is none |
| `SymlinkMeaning.ValidatedSymlinkIsSafe` | backend/internal/agentanalysis/workspace.go:570-583 | so is a validated symlink target, and it is not Git metadata |
| `SymlinkMeaning.LookIsExact` | backend/internal/agentanalysis/workspace.go:594-625 | what one look at a path answers or follows, by the first name that is absent, unreadable or a link; only nonempty relative texts without NUL are followed |
| `SymlinkMeaning.ValidatedIsExact` | backend/internal/agentanalysis/workspace.go:570-583 | a symlink passes exactly when it is one, at most 64 distinct links lead to an answer, and that is not Git metadata |
| `SymlinkMeaning.BoundsAreExact` | backend/internal/agentanalysis/workspace.go:585-625 | the depth bound and the set of seen links refuse exactly the chains of more than 64 links or with a repeated link; all others get the unbounded answer |
| `SymlinkMeaning.LoopIsRefused` | backend/internal/agentanalysis/workspace.go:586-625 | a chain that returns to an earlier path is always refused |
| `SymlinkMeaning.LongChainIsRefused` | backend/internal/agentanalysis/workspace.go:586-588 | so is every chain of more than 64 links |
| `SymlinkMeaning.EndlessChainIsRefused` | backend/internal/agentanalysis/workspace.go:585-632 | and every chain that never answers, whether or not a path recurs |
| `SymlinkWalk.RewritingIsWalking` | backend/internal/agentanalysis/workspace.go:585-632 | where link texts climb before they name anything, lexical rewriting ends exactly where a component-by-component walk ends |
| `SymlinkWalk.ResolverAgreesWithWalk` | backend/internal/agentanalysis/workspace.go:585-632 | the resolver, bounds included, against that walk |
| `SymlinkWalk.RevisitedLinkIsRefused` | backend/internal/agentanalysis/workspace.go:612-615 | the seen set also refuses some chains that are no loop: a concrete tree |
| `SymlinkWalk.ClimbingTextDiffers` | backend/internal/agentanalysis/workspace.go:616-625 | without the condition on link texts the rewriting and the walk can end at different files: a concrete tree |
| `SymlinkClimb.ClimbingTextEndsApart` | backend/internal/agentanalysis/workspace.go:616-632 | and so for every usable text that climbs after a name: some tree, all its other texts harmless, has a link of that text at which resolver and walk reach two different targets |
| `SymlinkClimb.ClimbingFirstIsExact` | backend/internal/agentanalysis/workspace.go:585-632 | resolver and walk agree in every tree whose other texts climb first, from every path, exactly when the text climbs first too |
| `EvidenceIndex.LinesAreTheSplit` | backend/internal/agentanalysis/workspace_analysis.go:658-662 | the lines are the newline split less one trailing empty piece |
| `EvidenceIndex.LineAtStart` | backend/internal/agentanalysis/workspace_evidence_handles.go:355-372 | the k-th line is the text from its start to the next newline |
| `EvidenceIndex.IndexFile` | backend/internal/agentanalysis/workspace_evidence_handles.go:328-353 | the index has the exact line count of the split and the start of every 1024th line |
| `EvidenceIndex.LineOf` | backend/internal/agentanalysis/workspace_evidence_handles.go:355-372 | a line served from the sparse index is that line of the split |
| `EvidenceIndex.ServeLine` | backend/internal/agentanalysis/workspace_analysis.go:658-671 | the citation check accepts a line served by the index, with the same text, exactly when the line is usable |
| `EvidenceHandles.IdIsValid` | backend/internal/agentanalysis/workspace_evidence_handles.go:437-451 | every id issued has the form the id validator demands |
| `EvidenceHandles.ValidIdMeaning` | backend/internal/agentanalysis/workspace_evidence_handles.go:437-451 | the valid ids are exactly the root's prefix and a number from 001 to 999 |
| `EvidenceHandles.IdsIncrease` | backend/internal/agentanalysis/workspace_evidence_handles.go:296-302 | numbering upwards keeps ids in string order |
| `EvidenceHandles.ValidateHandles` | backend/internal/agentanalysis/workspace_evidence_handles.go:408-431 | the handle validator accepts exactly the bounded lists of valid handles with strictly increasing ids and distinct lines |
| `EvidenceHandles.CanonicalMeaning` | backend/internal/agentanalysis/workspace_evidence_handles.go:408-431 | what those lists are: at most 128 handles, rising ids, no line twice |
| `EvidenceHandles.DiagnosticsAreExact` | backend/internal/agentanalysis/workspace_analysis.go:929-973 | the diagnostics validator accepts exactly counts within 513 ranges and 64 handles per root, with known codes in string order, none exactly when accepted without warnings |
| `EvidenceHandles.FinishCodes` | backend/internal/agentanalysis/workspace_evidence_handles.go:93-99 | the codes of the diagnostics are exactly those gathered, distinct and in string order |
| `EvidenceBuilder.Builder.OpenFile` | backend/internal/agentanalysis/workspace_evidence_handles.go:217-256 | a file comes from the cache or is read and indexed within the cache bound of 64 MiB; otherwise the range is dropped with a code, for a file that does not fit or is no text, or construction fails |
| `EvidenceBuilder.Builder.TakeLines` | backend/internal/agentanalysis/workspace_evidence_handles.go:262-289 | one range adds exactly its usable lines unless its root has its 64, and leaves a code for every other line and if it adds none |
| `EvidenceBuilder.Builder.TakeRanges` | backend/internal/agentanalysis/workspace_evidence_handles.go:194-290 | the second loop takes the ranges in order: each supported line is kept unless its root was full of lines of earlier ranges or its file did not fit; every flaw leaves its code |
| `EvidenceBuilder.Builder.SelectRanges` | backend/internal/agentanalysis/workspace_evidence_handles.go:112-167 | the first loop keeps of each root exactly the first 512 ranges worth opening, accounts for every other as dropped, and names what is wrong with it |
| `EvidenceBuild.Number` | backend/internal/agentanalysis/workspace_evidence_handles.go:286-303 | ids are given per root in order, artifacts first |
| `EvidenceBuild.NumberedIsCanonical` | backend/internal/agentanalysis/workspace_evidence_handles.go:286-303 | sorted and numbered handles always pass the handle validator, at most 64 per root |
| `EvidenceBuild.Diagnose` | backend/internal/agentanalysis/workspace_analysis.go:929-973 | the diagnostics always pass their validator, with dropped at most observed |
| `EvidenceBuild.Build` | backend/internal/agentanalysis/workspace_evidence_handles.go:85-326 | for all ranges, files and deadlines: the handles pass their validator, in reading order with consecutive numbers, and stand for exactly the usable observed lines unless truncated; the codes are exactly those of the flaws there are; a truncated build took the ranges in order as far as there was room; a refusal has its reason; the validator's rejection branch is never taken |
| `EvidenceOrder.MissingLineHasReason` | backend/internal/agentanalysis/workspace_evidence_handles.go:112-290 | a usable line of an observed range has a handle unless 512 ranges of its root came before, 64 lines of observed ranges no wider than its own took all the places, or its file did not fit into 64 MiB beside those opened |
| `EvidenceOrder.ArrangementIsExact` | backend/internal/agentanalysis/workspace_evidence_handles.go:168-187 | artifact ranges are taken first, and of one root the narrower, then by path and line |
| `EvidenceOrder.HandlesStandForText` | backend/internal/agentanalysis/workspace_evidence_handles.go:262-285 | every handle stands for one line of text of at most 2048 bytes inside an observed range that its file has in full |
| `EvidenceOrder.FlawsAreNamed` | backend/internal/agentanalysis/workspace_evidence_handles.go:123-155 | a complete build names every range without lines, file or text, and every line that cannot be quoted |
| `EvidenceOrder.OnlyFlawsAreNamed` | backend/internal/agentanalysis/workspace_evidence_handles.go:93-99 | and nothing else, besides repetitions and cuts |
| `ResultValidation.AcceptResult` | backend/internal/agentanalysis/workspace_result_validation.go:70-80 | the accepted outcome lists exactly the warnings in string order, whatever order the map yields |
| `ResultValidation.Merge` | backend/internal/agentanalysis/workspace_result_validation.go:82-90 | merging is accepting the union of both lists of codes |
| `ResultValidation.AcceptedIsValid` | backend/internal/agentanalysis/workspace_result_validation.go:92-127 | every accepted outcome passes the outcome validator, its code bound included |
| `ResultValidation.RejectedIsValid` | backend/internal/agentanalysis/workspace_result_validation.go:62-68 | every rejected outcome passes it too |
| `ResultValidation.ValidMeansProduced` | backend/internal/agentanalysis/workspace_result_validation.go:92-127 | the outcome validator accepts exactly the outcomes a validation can have |
| `ResultValidation.NamesKeepCodes` | backend/internal/agentanalysis/workspace_result_validation.go:10-30 | the warnings can be read back from an outcome: no two codes share a name |
| `ResultValidation.MergeIsUnion` | backend/internal/agentanalysis/workspace_result_validation.go:82-90 | merging two accepted outcomes is accepting both sets of warnings at once |
| `Citations.VerifyCitations` | backend/internal/agentanalysis/workspace_analysis.go:550-656 | the artifact and source loops compute the ordered greedy selection, or the first error; what is selected, quoted and refused is stated in the rows of `QuoteText` and `AnalysisMeaning` |
| `QuoteText.QuoteIsFileText` | backend/internal/agentanalysis/workspace_analysis.go:658-673 | a range has a quote exactly when it is at most 200 lines of the file whose text is not blank and no longer than 2048 bytes, and the quote is then the contiguous file text from the start of its first line to the newline that ends its last, or the end of the file |
| `QuoteText.AcceptedCitationsQuoteFiles` | backend/internal/agentanalysis/workspace_analysis.go:550-656 | every accepted citation quotes its file so |
| `AnalysisMeaning.PassingIsExact` | backend/internal/agentanalysis/workspace_analysis.go:563-594 | a citation passes exactly when its trimmed path is a known file that has the quoted lines, and, in strict mode, carries that quote and for a source the verified mark |
| `AnalysisMeaning.RefusalIsExact` | backend/internal/agentanalysis/workspace_analysis.go:563-576 | one that does not pass is refused for its path if there is no such file, and for its lines otherwise |
| `AnalysisMeaning.AcceptanceIsExact` | backend/internal/agentanalysis/workspace_analysis.go:550-656 | the check accepts exactly when every citation passes and, for artifacts, there is one |
| `AnalysisMeaning.RefusalNamesTheFirst` | backend/internal/agentanalysis/workspace_analysis.go:550-656 | otherwise the first citation that does not pass decides the code |
| `AnalysisMeaning.AcceptedIsVerified` | backend/internal/agentanalysis/workspace_analysis.go:550-656 | the list accepted holds, in reading order, each citation that shares no line of a file with one picked before it, up to the limit; the warnings are exactly the repeated lines and the ones left out |
| `Citations.NothingDroppedSilently` | backend/internal/agentanalysis/workspace_analysis.go:577-590 | a citation left out clashes with a kept one of the same file, or the list was full |
| `Citations.VerifiedIsCanonical` | backend/internal/agentanalysis/workspace_analysis.go:550-656 | whatever is accepted is checked against the files, within bounds, sorted, and pairwise disjoint per file identity |
| `Citations.CanonicalIsFixedPoint` | backend/internal/agentanalysis/workspace_analysis.go:550-656 | strict verification returns a list unchanged and without warnings exactly when it is canonical |
| `Citations.SortIsForced` | backend/internal/agentanalysis/workspace_analysis.go:595-603 | the unstable sort has only one possible result |
| `WorkspaceAnalysis.CanonicalizeText` | backend/internal/agentanalysis/workspace_analysis.go:363-396 | the text part of canonicalization, its warnings and errors |
| `AnalysisOutcome.TextIsExact` | backend/internal/agentanalysis/workspace_analysis.go:363-396 | the text published: trimmed, an unusable fix left out, the transient mark following the severity, the first twenty usable details; with the exact warnings |
| `WorkspaceAnalysis.CanonicalTextIsFixed` | backend/internal/agentanalysis/workspace_analysis.go:363-396 | text passes unchanged and unwarned exactly when it is canonical |
| `WorkspaceAnalysis.FindRelevantFiles` | backend/internal/agentanalysis/workspace_analysis.go:682-714 | the relevant files kept, warnings and errors |
| `AnalysisOutcome.RelevantFilesAreExact` | backend/internal/agentanalysis/workspace_analysis.go:682-714 | kept are exactly the files that a source citation quotes, each once under whatever name, up to twenty, in byte order; a warning exactly when one is left out |
| `WorkspaceAnalysis.RelevantFilesAreFixed` | backend/internal/agentanalysis/workspace_analysis.go:682-714 | relevant files pass unchanged exactly when they are grounded, distinct by identity, few and sorted |
| `WorkspaceAnalysis.CanonicalizeAnalysis` | backend/internal/agentanalysis/workspace_analysis.go:339-361 | the composition of the four parts, with the outcome reported |
| `AnalysisOutcome.AcceptanceNeeds` | backend/internal/agentanalysis/workspace_analysis.go:339-361 | the exact condition under which an analysis is accepted, with every limit written out |
| `AnalysisOutcome.RefusalHasReason` | backend/internal/agentanalysis/workspace_analysis.go:339-361 | the code of a refusal is that of the first thing missing |
| `AnalysisOutcome.AcceptedIsExplained` | backend/internal/agentanalysis/workspace_analysis.go:339-361 | what an accepted analysis says of the one written, and that its warnings tell everything that was changed or left out, and nothing else |
| `WorkspaceAnalysis.AcceptedIsCanonical` | backend/internal/agentanalysis/workspace_analysis.go:339-361 | every accepted analysis, with or without warnings, is canonical |
| `WorkspaceAnalysis.FixedPointsAreCanonical` | backend/internal/agentanalysis/workspace_analysis.go:331-361 | strict canonicalization is the identity without warnings exactly on canonical analyses |
| `WorkspaceAnalysis.RevalidationChangesNothing` | backend/internal/agentanalysis/workspace_analysis.go:331-333 | the host's strict check returns the executor's accepted analysis as it is, with no warnings |
| `WorkspaceAnalysis.MergeKeepsFirstOutcome` | backend/internal/agentanalysis/workspace_result_validation.go:82-90 | so merging the two outcomes keeps the first run's |
| `CandidateScanner.Scan` | backend/internal/ai/analysis_chat_response.go:489-572 | for every text: the last 256 objects closed under fewer than 256 open braces, sorted by start, the first 256 unclosed braces, and the exact condition for truncation |
| `CandidateQuoting.QuotedMeansInString` | backend/internal/ai/analysis_chat_response.go:497-528 | the scanner takes a byte for quoted exactly when an odd number of delimiting quotes stand before it, a quote inside a string delimiting exactly after an even run of backslashes counted from the opening quote |
| `CandidateQuoting.DelimitersMeaning` | backend/internal/ai/analysis_chat_response.go:497-528 | which bytes are delimiting quotes |
| `CandidateQuoting.ScanReadsOutsideStrings` | backend/internal/ai/analysis_chat_response.go:489-572 | every candidate starts and ends at braces outside strings, and a complete scan accounts for exactly those opening braces |
| `CandidateBalance.MatchIsBalanced` | backend/internal/ai/analysis_chat_response.go:530-560 | a brace is closed by the first one at which opening and closing braces outside strings balance |
| `CandidateBalance.CandidatesCloseLast` | backend/internal/ai/analysis_chat_response.go:530-572 | at most 256 candidates, in reading order; an object opened under fewer than 256 others is missing only if 256 close after it |
| `CandidateBalance.IncompleteOpenFirst` | backend/internal/ai/analysis_chat_response.go:561-572 | at most 256 unclosed braces, outermost first; one is missing only if 256 stand before it |
| `CandidateBalance.TruncationIsExact` | backend/internal/ai/analysis_chat_response.go:530-572 | a scan is truncated exactly when a brace is opened under 256 others or such an object is missing |
| `CandidateScanner.MatchesAreLaminar` | backend/internal/ai/analysis_chat_response.go:489-572 | two matched objects are nested or disjoint |
| `CandidateScanner.OpensAreUnmatched` | backend/internal/ai/analysis_chat_response.go:561-564 | the braces left on the stack are exactly those nothing closes |
| `CandidateScanner.ClosedMeaning` | backend/internal/ai/analysis_chat_response.go:530-560 | the objects closed are exactly the matched pairs opened under fewer than 256 others |
| `CandidateScanner.CompleteScanIsExact` | backend/internal/ai/analysis_chat_response.go:489-572 | when not truncated, candidates are exactly the matched pairs and incomplete entries exactly the unmatched braces |
| `CandidateScanner.CandidatesAreLaminar` | backend/internal/ai/analysis_chat_response.go:489-572 | in any scan every candidate is a matched pair, and any two are nested or disjoint |
| `CandidateScanner.EveryBraceIsAccountedFor` | backend/internal/ai/analysis_chat_response.go:489-572 | when not truncated every brace read outside strings starts exactly one candidate or is exactly one incomplete entry |
| `CandidateSelection.WrappedObjectIsOutermost` | backend/internal/ai/analysis_chat_response.go:489-572 | one object surrounded by prose comes out first and outermost, with nothing incomplete, even from a truncated scan |
| `CandidateSelection.Select` | backend/internal/ai/analysis_chat_response.go:62-157 | a reply is selected exactly when one candidate is valid and nothing around it casts doubt; otherwise the exact failure: an unusable scan or several valid candidates, the highest-ranked category when none is valid, or the doubt, an unclosed brace first and then the doubtful candidate that starts first |
| `CandidateSelection.ChoiceIsExact` | backend/internal/ai/analysis_chat_response.go:62-157 | the reply chosen is the valid object that no other object of the text speaks against, in a text that leaves no brace open |
| `CandidateSelection.BestIsClosest` | backend/internal/ai/analysis_chat_response.go:62-157 | when none is valid the failure is that of the closest attempt: citation check, reference, contract, then JSON |
| `CandidateSelection.ScannableMeaning` | backend/internal/ai/analysis_chat_response.go:62-100 | an answer of at most 1 MiB whose objects together have at most 4 MiB |
| `CandidateSelection.ChosenReplyEndsTheAnswer` | backend/internal/ai/analysis_chat_response.go:116-151 | a selected reply leaves no unmatched brace anywhere and no object after it |
| `Ledger.ShadowLedger.Prune` | backend/internal/agentanalysis/ledger.go:383-399 | pruning in place keeps exactly the active attempts and records, in order |
| `Ledger.ShadowLedger.UpsertAttempt` | backend/internal/agentanalysis/ledger.go:413-421 | the first attempt with the hash is replaced, or one is added |
| `Ledger.ShadowLedger.UpsertRecord` | backend/internal/agentanalysis/ledger.go:423-431 | the first record with the id is replaced, or one is added |
| `Ledger.ShadowLedger.Trim` | backend/internal/agentanalysis/ledger.go:433-474 | the trimming loop terminates in the fitted ledger, or fails |
| `Ledger.LedgerFile.Claim` | backend/internal/agentanalysis/ledger.go:312-352 | a claim is granted exactly when no attempt or record of its hash still counts and the write succeeds: for 720 hours after its creation, or one hour while it is pending |
| `Ledger.RetentionIsExact` | backend/internal/agentanalysis/ledger.go:401-411 | the last instant at which an attempt still counts: one hour after its creation while pending, 720 hours after it once it has ended in whatever way |
| `Ledger.ClaimableExactlyWhenUnblocked` | backend/internal/agentanalysis/ledger.go:312-352 | a hash can be claimed exactly when nothing of it counts any more |
| `Ledger.LedgerFile.Append` | backend/internal/agentanalysis/ledger.go:355-373 | what an append leaves on disk |
| `LedgerRecords.UpdatedIsExact` | backend/internal/agentanalysis/ledger.go:312-399 | attempts and records that still count stay, but for those of the same hash or id, which the new ones replace |
| `LedgerRecords.EventIsExact` | backend/internal/agentanalysis/ledger.go:312-474 | what is on disk after an event, entry by entry; the new ones are missing only if all that is kept is newer |
| `LedgerRecords.WriteKeepsNewestAttempts` | backend/internal/agentanalysis/ledger.go:433-461 | a write keeps the newest 4096 attempts, oldest first |
| `LedgerRecords.WriteKeepsNewestRecords` | backend/internal/agentanalysis/ledger.go:433-461 | and the newest records, at most 100 |
| `LedgerRecords.WriteDropsNoMore` | backend/internal/agentanalysis/ledger.go:463-474 | in at most 4 MiB, and one more record would have been too many or too much |
| `LedgerRuns.ByteLoopKeepsNewestRecords` | backend/internal/agentanalysis/ledger.go:463-474 | the byte loop keeps the longest newest-first run of records that fits, never drops an attempt, and fails exactly when not even the newest record fits |
| `LedgerRuns.EventKeepsLedger` | backend/internal/agentanalysis/ledger.go:312-373 | every claim and append keeps hashes and ids unique and the bounds, and never turns the update time back |
| `LedgerRuns.RunKeepsLedger` | backend/internal/agentanalysis/ledger.go:312-381 | the same along every run, for arbitrary writer clocks |
| `LedgerRuns.EventKeepsAttempt` | backend/internal/agentanalysis/ledger.go:383-461 | an attempt is lost only to an event that replaces the file, more than an hour after its creation if pending and else more than 720, or because 4096 attempts no older are kept instead |
| `LedgerRuns.SecondClaimIsExplained` | backend/internal/agentanalysis/ledger.go:312-461 | a hash is granted again only if in between an event replaced the file that late at the ledger's time, or with 4096 attempts no older kept instead |
| `Flakiness.OutcomesForTest` | backend/internal/aggregator/flakiness.go:30-53 | the scan for one test gives one outcome for each run that has a case of it outside build rows whose first such case is not skipped, in order: passed exactly when that case has status passed, with its message and duration and the run's build and start |
| `Flakiness.CollectTestOutcomes` | backend/internal/aggregator/flakiness.go:55-80 | one pass gives every test exactly what a scan for it alone gives, the same in terms of cases, and no empty entry |
| `FlakinessCases.StreakMeansCases` | backend/internal/aggregator/flakiness.go:107-113 | a streak of three is three cases that did not pass in the newest three runs of the test |
| `Flakiness.ClassifyOutcomes` | backend/internal/aggregator/aggregator.go:135-172 | the classification in terms of newest streak, failures and passes |
| `Flakiness.EveryRunCounts` | backend/internal/aggregator/flakiness.go:88-95 | passes plus failures are the runs |
| `Flakiness.FlakyMeaning` | backend/internal/aggregator/aggregator.go:160-171 | a flaky test failed at least twice, passed at least once, is not failing three times running, and flipped at least once |
| `Flakiness.FindPatterns` | backend/internal/aggregator/flakiness.go:132-159 | one pattern per error hash with the exact number of its failures, quoting the newest of them, most frequent first, together counting every failure once |
| `FlakinessReport.ComputeTestFlakiness` | backend/internal/aggregator/flakiness.go:82-169 | every published field in terms of the outcomes |
| `FlakinessReport.PublishedCountsAgree` | backend/internal/aggregator/flakiness.go:82-169 | passes plus failures equal runs, pattern counts sum to failures, a flaky test has a positive flip rate |
| `FlakinessNumbers.PublishedCounts` | backend/internal/aggregator/flakiness.go:82-94 | the published counts are numbers of runs |
| `FlakinessNumbers.PublishedFailRate` | backend/internal/aggregator/flakiness.go:95 | the fail rate times the runs is the number of failures |
| `FlakinessNumbers.PublishedFlipRate` | backend/internal/aggregator/flakiness.go:97-105 | the flip rate times the pairs of neighbouring runs is the number of pairs that differ |
| `FlakinessNumbers.PublishedDates` | backend/internal/aggregator/flakiness.go:107-130 | broken since the oldest of the newest unbroken failures, last failed in the newest failure |
| `FlakinessNumbers.PublishedClass` | backend/internal/aggregator/aggregator.go:135-172 | the class in terms of outcomes: persistent if the newest three failed, flaky with two failures and a pass, else a one-off |
| `FlakinessNumbers.PublishedPatterns` | backend/internal/aggregator/flakiness.go:132-159 | each pattern counts exactly the failures with its error and quotes the newest |
| `FlakinessReport.CollectAll` | backend/internal/aggregator/flakiness.go:174-205 | one entry for every failing test of every job, and nothing else |
| `FlakinessReport.ComputeReport` | backend/internal/aggregator/flakiness.go:174-271 | the three lists: the 50 flakiest, every test failing three times running, every test newly failing in 48 hours, each in order and each test of a job once |
| `FlakinessCases.PersistentMeansThreeFailedCases` | backend/internal/aggregator/flakiness.go:231-244 | the persistent list names exactly the tests whose newest three runs all failed |
| `FlakinessNumbers.FlakyListMeaning` | backend/internal/aggregator/flakiness.go:207-230 | the flaky list names at most 50 tests, all flaky, and every flaky test if there are fewer |
| `FlakinessNumbers.RecentListMeaning` | backend/internal/aggregator/flakiness.go:246-270 | the recent list names exactly the tests whose newest unbroken failures began no more than 48 hours ago |
| `FlakinessNumbers.ListsAreOrdered` | backend/internal/aggregator/flakiness.go:207-270 | most flips first, longest streak first, latest break first, and by name where these are equal |
| `FlakinessReport.ListsAreDisjoint` | backend/internal/aggregator/flakiness.go:210-244 | no test is on both the most-flaky and the persistent list |
| `SpaRoutes.AmpersandsRoundTrip` | frontend/public/spa-index-redirect.js:4-10 | coding and decoding ampersands gives text back exactly when it contains neither "~and~" nor "~and&" |
| `SpaRoutes.RedirectOf` | frontend/public/spa-404-redirect.js:1-19 | the redirect for a path below one segment |
| `SpaRoutes.DeepLinksRoundTrip` | frontend/public/spa-index-redirect.js:1-20 | a deep link comes back exactly as it was if and only if neither its route nor its query contains "~and~" or "~and&" |
| `SpaRoutes.SegmentGainsSlash` | frontend/public/spa-404-redirect.js:1-22 | the first segment alone comes back with a slash, exactly when its query is not ambiguous |
| `SpaRoutes.LinksWithoutTildeRoundTrip` | frontend/public/spa-404-redirect.js:1-22 | every deep link free of "~" comes back as it was |

## Left out

- Hashing: `tokenHash` and owner hashes are the identity, new tokens and request ids are fresh, a path key is the pair it joins; error and content hashes are arbitrary functions.
- Encoding: the JSON size of a preview state or ledger is an arbitrary function; a file that does not parse is a flag. Text trimming, UTF-8 checks and safe-path checks are arbitrary functions, trimming an idempotent one.
- Locks and file mechanics: each locked update is one atomic step; temporary files, permissions and directory syncs are not modelled.
- Migrations of older state versions, reason-code normalisation, the text of request stages and verifications (their saves are modelled), email notification itself and its cancellation.
- Draft rules, eligibility, remediation policy, repository access and failure categories: their verdicts are inputs.
- Owner normalisation: owners are taken as already normalised.
- Generations and cleaners: `registerCleanupLocked` and the retry timers are replaced by letting a cleaner start at any time, so the results hold for more schedules than the code has.
- Cleanup of a generation assumes, as the runtime contract does, that a generator which reported a work UID reports no other work after it.
- RequestCleanup.CleanupIsNeverSkipped: assumes nonblank failure ids, which it needs (`RequestCleanup.UnnamedRequestMaySkipCleanup`); a restart from an unreadable state file is not covered, because the code then starts from an empty map.
- RequestBound.ActiveRequestsStayBounded: assumes nonblank failure ids; without them `RequestBound.RequestsStayKept` bounds the whole map, and whether that bound on active requests is reached is not stated.
- RequestRuns.AtMostOneUnresolvedWrite: assumes a nonblank failure id, which the code needs too; `RequestRuns.UnnamedRequestMayWriteTwice` shows why.
- The order in which `expireRequestsLocked` drops completed requests with equal update times is left open, as the unstable sort leaves it.
- Confirm: `Confirm` is modelled by its steps in `ConfirmProtocol` rather than as one method, because a crash can fall between any two; a result URL that comes with an error is the case of a URL, unless the error is a changed target, and a reconciliation that fails has none.
- A final status in a cleanup record is failed, cancelled or expired, the only ones the code writes.
- The walk of the source tree is given as the list of entries it reports; the rest of source verification (index modes, digests, Git metadata) is not modelled.
- Path cleaning works on split components; `filepath.Join` and string separators are not modelled character by character.
- SymlinkWalk.ResolverAgreesWithWalk: agreement is stated for whole trees of texts that climb first; `SymlinkClimb.ClimbingFirstIsExact` shows the condition exact text by text, but a tree in which a climbing text is never reached may agree too, and those trees are not characterised.
- The cache of path checks in `buildWorkspaceEvidenceHandles` is dropped: the files do not change during one construction.
- `ParseWorkspaceAnalysis`, handle selection by id and the telemetry validators other than the one for handle diagnostics.
- The manifest check and the artifact list behind it: one flag and one lookup.
- Decoding and judging one chat candidate: a verdict per span.
- `decodeAnalysisChatReplyCandidate`, citation and reference checks of a chat reply, retries and prompts.
- Ledger.LedgerFile.Claim: record validation and path checks come before the modelled part; a record is its id, hash, time, status and an opaque rest.
- `LedgerAttemptHashes` and lookups that only read.
- Rates in `FlakinessReport` are exact fractions where the code divides floats; job names, build failure summaries and durations beyond the copied history are not modelled.
- URL parsing in the route scripts: addresses are split at "#" and "?" only; percent-encoding, dot segments and origins are not modelled, and neither is the effect on the browser history.
