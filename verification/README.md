# QuillFrame protocols and kernels in Dafny

This project models the parts of QuillFrame whose correctness is not visible from one body, and proves
what they are for. `dafny verify dfyconfig.toml` checks all of it.

## What is modelled

**Project versions, pointers and collection** (`CoordinatorState`, `CoordinatorSteps`, `CoordinatorInvariant`,
`CoordinatorHistory`, `PreparationLog`, `Coordinator`). The state of one workspace maps each project to its pointer,
version records and three operation logs. Each coordinator call is one storage transaction: a function from the project
to its new value and the answer, and a method of the class `WorkspaceCoordinator` that updates the stored maps step by
step and is proved to compute that function. A transaction that answers with a failure keeps the writes it had made; one that
throws keeps none. The driving invariant is that a live pointer's version is its record's expected pointer version
plus one.

**Encrypted object store and request handlers** (`ProjectStore`, `ProjectHandlers`, `ProjectPresence`,
`ProjectOverlap`, `ProjectRetry`, `ProjectService`). A handler in flight is the data it has read and the step it takes
next; a step is one transaction or one bucket call. A run starts handlers, steps them in any order, lets the object service refuse a
removal, and stops any handler between two steps for good. Every request brings its own keys. SHA-256, sealing and key
material are abstract: a content hash is a function, and an envelope records the key version and the identity it was
sealed under. Repeating a request is shown to finish what a stopped handler left. The methods of `ProjectService` run one handler to its end.

**Core nonces** (`NonceLedger`). A bounded index beside a record store. A call that fails has already deleted expired
records without rewriting the index, so the two agree only above the latest clock value, which the invariant carries.

**Secret leases** (`SecretStore`, `SessionVault`). Leases, the global and per-session index, bindings, tombstones and
one alarm. A read is two transactions; the world of `SecretStore` interleaves them with everything else.

**Corpus study runner** (`StudyRunner`, `StudyInvariant`, `CorpusStudy`). One study as a row of stages. A confirmation
commits and then advances its stage by writes of its own, and may stop in between. The work units of each stage are a
parameter, the `plan`; `ChapterUnits` computes it and shows when it is what the runner relies on.

**Kernels.** Cohort selection (`CohortSelection`), chapter indexing and grouping (`ChapterBoundaries`,
`ChapterUnits`), canonical JSON (`CanonicalJson`, `CanonicalRoundTrip`, `CanonicalAcceptance`, `CanonicalBytes`,
`JsonParser`, over `Utf8`), the event-stream reader (`EventStream`), the plan ledger (`PlanLedger`) and the scene
receipts of a release (`SceneReceipts`).

Code that runs in place is a method, proved equal to a specification function; what the code promises is proved about
that function.

## Findings

Where the code promises less than one might expect, the exact condition is proved, and a failing run where there is one.

- Overlapping handlers can lose a live project's object. `ProjectPresence.PresenceExactly` says which steps do it:
  activating a version whose object is gone, or removing the object of a live version. Three runs from the empty system
  do so: an upload over the collection of its version (`ProjectOverlap.UploadOverCollectionLoses`), a collection that
  pauses before its removal while its retry and an upload pass it (`ProjectOverlap.RemovalAfterUploadLoses`), and a
  deletion that does so while the project goes on (`ProjectOverlap.ErasureAfterUploadLoses`). Keeping collections and
  deletions of a project alone, while its uploads may overlap, rules this out (`ProjectPresence.LiveProjectReads`), and
  so does one handler per project at a time (`ProjectPresence.OneAtATimeIsByRule`).
- A fresh preparation is refused and yet logged, so that its replay answers with a receipt, exactly when new bytes come
  with another version than the pointer's (`CoordinatorHistory.RefusedIsLoggedExactly`).
- A deleted version can be prepared again only with the pointer version its record expects, two behind, and then no
  compare-and-swap activates it (`CoordinatorHistory.PrepareDeletedExactly`, `DeletedIsNotActivated`). It cannot be
  collected until another version was activated (`CoordinatorHistory.DeletedIsCollectableOnceReplaced`).
- A preparation for a version already recorded stays in the log for ever (`PreparationLog.ExistingIsLoggedOnly`,
  `LoggedOnlyForGood`). A full log of a project can lose an entry in some run exactly when the project has a second record
  that can be collected (`PreparationLog.FullLogFreesExactly`); otherwise every new preparation is refused for good
  (`FullLogIsForGood`). Preparing one version 256 times and activating it once gets there (`LogFillsForGood`).
- A study can come to a halt before it is complete, and no later event changes it: exactly when extraction has its last
  answer and was not advanced, or the outcome of a call is unknown (`StudyInvariant.HaltedExactly`). The one comes of a
  process that stops between committing that answer and advancing the stage, the other of a call marked after a failed
  transport, and nothing else leads there (`HaltedByExactly`, `HaltedForGood`; the runs are `StoppedAtLastHalts` and
  `FailedTransportHalts`). The other stages recover from such a stop with the next dispatch (`DispatchMakesProgress`).
- A nonce is accepted once more exactly at its replay expiry, within the allowed clock skew
  (`NonceLedger.ReplayAtExpiry`).
- Saving a proposal under a used id replaces the stored one before the duplicate is reported; a later replay can then
  return another target's plan (`PlanLedgers.ReusedIdMisleadsReplay`, `PlanLedgers.ReplayExactly`).
- Asking the cohort selection for no work from a non-empty pool still yields one (`CohortSelection.SelectsFromPool`).
- From ten thousand scenes on no release can pass the scene check, because the five-digit key of scene 10000 sorts
  before that of scene 1000 (`SceneReceipts.CheckExactly`).

## Model

| member | source | states |
|---|---|---|
| CoordinatorInvariant.PrepareKeepsInv | cloud/src/workspace-coordinator.ts:454-520 | preparing a version, fresh or existing, accepted or refused, keeps the project invariant |
| CoordinatorInvariant.BeginGcKeepsInv | cloud/src/workspace-coordinator.ts:522-581 | starting a collection keeps it, pruning of completed operations included |
| CoordinatorInvariant.FinishGcKeepsInv | cloud/src/workspace-coordinator.ts:583-618 | finishing a collection keeps it, even on behalf of another operation |
| CoordinatorInvariant.CasKeepsInv | cloud/src/workspace-coordinator.ts:760-817 | a compare-and-swap keeps it, in the stale branch that orphans a record too |
| CoordinatorInvariant.TombstoneKeepsInv | cloud/src/workspace-coordinator.ts:819-874 | deleting a project keeps it |
| CoordinatorInvariant.EligibleIsUnnamed | cloud/src/workspace-coordinator.ts:766-780 | a version that a compare-and-swap may newly activate is not the current one |
| CoordinatorInvariant.ApplyKeepsInv | cloud/src/workspace-coordinator.ts:454-874 | every transaction on one project keeps the invariant of all projects, and the workspace binding once set |
| CoordinatorInvariant.RunKeepsInv | cloud/src/workspace-coordinator.ts:454-874 | in every reachable state the pointer's record exists with its key and fingerprint, exactly the named record is active, live pointer version is its expected version plus one, pending records have a pending operation, and each log and the records stay within 256 |
| CoordinatorHistory.PointerMovesByOne | cloud/src/workspace-coordinator.ts:781-815 | a transaction leaves the pointer or raises its version by exactly one, and then it consumed the version before |
| CoordinatorHistory.VersionCountsWrites | cloud/src/workspace-coordinator.ts:760-874 | over any run the pointer version is the start version plus the number of pointer writes |
| CoordinatorHistory.WritesFormOneChain | cloud/src/workspace-coordinator.ts:760-874 | no two pointer writes of a run consume the same expected version; later ones consume greater |
| CoordinatorHistory.RecordIsFixed | cloud/src/workspace-coordinator.ts:473-516 | a version record that stays keeps its identity, size, expected pointer version, creation and operation under every transaction |
| CoordinatorHistory.NoReturn | cloud/src/workspace-coordinator.ts:760-817 | once the pointer has left a version, no later state of the run names it again while its record lives |
| CoordinatorHistory.CasSucceedsExactly | cloud/src/workspace-coordinator.ts:760-817 | for a matching record not pending collection, a compare-and-swap succeeds iff the version is live or the expected version is current; then it is live at expected plus one |
| CoordinatorHistory.RefusedCasSparesLive | cloud/src/workspace-coordinator.ts:777-780 | the stale branch never orphans the live version: a refusal leaves pointer and live record as they were |
| CoordinatorHistory.CasReplay | cloud/src/workspace-coordinator.ts:775-780 | repeating a successful compare-and-swap answers the same pointer and changes nothing |
| CoordinatorHistory.PrepareReplay | cloud/src/workspace-coordinator.ts:458-516 | a logged preparation is answered with its logged receipt ever after, and the replay changes nothing |
| CoordinatorHistory.RefusedIsLoggedExactly | cloud/src/workspace-coordinator.ts:458-516 | a fresh preparation is refused and yet logged iff the workspace is bound and owns the pointer, the expected version is not the pointer's, the bytes are new and the logs have room; an accepted one is always logged |
| CoordinatorHistory.PrepareForCurrentExactly | cloud/src/workspace-coordinator.ts:473-516 | at the current pointer version a preparation succeeds iff no record of the version stands in the way; the named version always conflicts |
| CoordinatorHistory.PrepareDeletedExactly | cloud/src/workspace-coordinator.ts:473-516 | with a fresh operation id and room in the log, a deleted version is prepared again iff the request is for the same bytes with the record's own expected version, which is the pointer's minus two |
| CoordinatorHistory.DeletedIsNotActivated | cloud/src/workspace-coordinator.ts:760-817 | while the pointer is a tombstone of a version, no compare-and-swap to that version succeeds, before or after any preparation |
| CoordinatorHistory.BeginGcExactly | cloud/src/workspace-coordinator.ts:522-581 | a fresh collection begins iff its version is an unnamed orphan, old enough, and the log has room or a completed operation to drop |
| CoordinatorHistory.DeletedIsCollectableOnceReplaced | cloud/src/workspace-coordinator.ts:522-581 | a deleted version is not collectable while its tombstone stands, and is as soon as another version was activated |
| PreparationLog.RunKeepsLog | cloud/src/workspace-coordinator.ts:454-874 | in every reachable state each record has a logged preparation of its own, a log with an entry has a record, a record still prepared expects no version ahead of the pointer, and a full collection log holds a completed operation or one that can finish |
| PreparationLog.FullLogFreesExactly | cloud/src/workspace-coordinator.ts:473-618 | in a reachable state with a full preparation log, some run drops an entry iff there are two records and one that is not the named one can be orphaned; up to the last pointer version a compare-and-swap may expect, iff there are two records |
| PreparationLog.FullLogIsForGood | cloud/src/workspace-coordinator.ts:473-516 | a full log without such a record stays entry by entry as it is over any run, and every later preparation with a new operation id is refused |
| PreparationLog.LogFillsForGood | cloud/src/workspace-coordinator.ts:473-495 | the run from the empty workspace that prepares and activates one version and prepares it 255 times more, and ends so |
| PreparationLog.ExistingIsLoggedOnly | cloud/src/workspace-coordinator.ts:473-495 | an accepted preparation of a recorded version logs an entry that created no record |
| PreparationLog.LoggedOnlyForGood | cloud/src/workspace-coordinator.ts:473-495 | a preparation entry that created no record stays in the log over any run |
| CoordinatorHistory.PendingIsOutOfReach | cloud/src/workspace-coordinator.ts:522-618 | a record pending collection stands in no pointer, is tracked by a pending operation, and no transaction changes it but a completed collection of that version |
| CoordinatorHistory.TombstonesPersist | cloud/src/workspace-coordinator.ts:819-874 | a logged deletion stays in the log over any run, and the binding stays |
| CoordinatorHistory.TombstoneReplay | cloud/src/workspace-coordinator.ts:819-874 | whatever ran in between, replaying a deletion returns the first receipt and changes nothing |
| CoordinatorSteps.OldestExists | cloud/src/workspace-coordinator.ts:522-581 | a non-empty set of completed collections has one that sorts first by creation and id |
| Coordinator.FindOldest | cloud/src/workspace-coordinator.ts:522-581 | the scan finds that first completed collection |
| Coordinator.PruneOldest | cloud/src/workspace-coordinator.ts:522-581 | the loop removes exactly the oldest completed collections, as many as needed |
| Coordinator.PruneForNext | cloud/src/workspace-coordinator.ts:522-581 | room for one more collection is made, or found impossible |
| Coordinator.WorkspaceCoordinator.EnsureWorkspaceBinding | cloud/src/workspace-coordinator.ts:236-248 | binds the workspace once and refuses another one |
| Coordinator.WorkspaceCoordinator.PrepareProjectVersion | cloud/src/workspace-coordinator.ts:454-520 | computes the preparation transaction on the stored maps, invariant kept |
| Coordinator.WorkspaceCoordinator.BeginProjectVersionGc | cloud/src/workspace-coordinator.ts:522-581 | computes the start of a collection, invariant kept |
| Coordinator.WorkspaceCoordinator.FinishProjectVersionGc | cloud/src/workspace-coordinator.ts:583-618 | computes the end of a collection, invariant kept |
| Coordinator.WorkspaceCoordinator.CasProjectPointer | cloud/src/workspace-coordinator.ts:760-817 | computes the compare-and-swap, invariant kept |
| Coordinator.WorkspaceCoordinator.CasProjectTombstone | cloud/src/workspace-coordinator.ts:819-874 | computes the deletion, invariant kept |
| ProjectStore.ObjectKeyInjective | cloud/src/project-store.ts:217 | distinct project and version pairs have distinct object keys |
| ProjectStore.OpenExactly | cloud/src/project-store.ts:182-214 | in a bucket filled by uploads, opening succeeds iff the object is there and its key version is in the ring, and then yields bytes of that version |
| ProjectStore.PutThenOpen | cloud/src/project-store.ts:116-142 | what a successful upload stored is read back byte for byte, also when the object was there before |
| ProjectStore.PutKeepsInv | cloud/src/project-store.ts:116-142 | a put never replaces an object and keeps the bucket content-addressed |
| ProjectStore.EncryptedProjectStore.UploadVerified | cloud/src/project-store.ts:116-142 | computes put-if-absent with read-back |
| ProjectStore.EncryptedProjectStore.ReadVerified | cloud/src/project-store.ts:144-156 | reads only through a live, well-formed pointer |
| ProjectStore.EncryptedProjectStore.OpenObject | cloud/src/project-store.ts:182-210 | opens an envelope and checks it against its identity and hash |
| ProjectStore.EncryptedProjectStore.DeleteVerified | cloud/src/project-store.ts:158-166 | removes the object iff the pointer is well formed and the bucket accepts |
| ProjectStore.EncryptedProjectStore.DeleteGcObject | cloud/src/project-store.ts:168-174 | removes the object iff the receipt is a pending, well-formed one of this project and the bucket accepts |
| ProjectPresence.AfterIsSound | cloud/src/index.ts:176-291 | in every interleaved run the coordinator invariant holds, the bucket is content-addressed and every record names its own project's object |
| ProjectPresence.PresenceExactly | cloud/src/index.ts:176-291 | in every interleaved run with stops anywhere, all live objects are present throughout iff no step activates a version whose object is gone and none removes a live version's object |
| ProjectPresence.FlightIsHarmless | cloud/src/index.ts:247-291 | a handler whose reliance still holds (object stored, collection pending, pointer a tombstone) takes no such step |
| ProjectPresence.OtherStaysOk | cloud/src/index.ts:176-291 | a step disturbs no handler of another project, and uploads of one project do not disturb each other |
| ProjectPresence.RuleKeepsInv | cloud/src/index.ts:176-291 | in every run in which a collection or deletion is in flight alone among the handlers of its project, presence holds and every handler finds what it relies on |
| ProjectPresence.OneAtATimeIsByRule | cloud/src/index.ts:176-291 | runs with at most one handler of a project in flight are such runs |
| ProjectPresence.LiveProjectReads | cloud/src/index.ts:211-245 | after any such run a live project's object is present, a read under any keys succeeds iff they include the sealing key, and the bytes hash to the pointer's version |
| ProjectPresence.CompleteKeepsInv | cloud/src/index.ts:176-291 | a handler run to its end undisturbed keeps presence |
| ProjectOverlap.UploadOverCollectionLoses | cloud/src/index.ts:176-267 | the run from the empty system in which an upload overlaps the collection of its version and activates it without an object |
| ProjectOverlap.RemovalAfterUploadLoses | cloud/src/index.ts:247-267 | the run from the empty system in which a paused collection removes the object of a version that its retry had collected and an upload made live again |
| ProjectOverlap.ErasureAfterUploadLoses | cloud/src/index.ts:269-291 | the run from the empty system in which a paused deletion removes the object of a version that was collected and uploaded anew after it |
| ProjectRetry.UploadLandsExactly | cloud/src/index.ts:176-205 | from a state that keeps presence, an upload that runs alone ends with its version live iff it was live, or the pointer is readable, an object there holds the same bytes under one of the keys, the inputs are valid, and log and records have room and no other request or version in the way |
| ProjectRetry.RetriedUploadLands | cloud/src/index.ts:176-205 | such an upload, stopped after any number of steps and repeated alone under keys that open its object, ends with its version live |
| ProjectRetry.CollectionCompletesExactly | cloud/src/index.ts:247-267 | a collection that runs alone with its removal accepted ends logged as completed, record and object gone, iff that was so, its operation was pending, or its version was an unnamed orphan old enough and the log had room |
| ProjectRetry.RetriedCollectionCompletes | cloud/src/index.ts:247-267 | such a collection, stopped after any number of steps with its removal accepted or refused and repeated alone later, completes |
| ProjectRetry.DeletionRemovesExactly | cloud/src/index.ts:269-291 | a deletion that runs alone with its removal accepted ends with the project deleted and its object gone iff that was so, the project is live, or its tombstone is the one this operation wrote |
| ProjectRetry.RetriedDeletionRemoves | cloud/src/index.ts:269-291 | such a deletion, stopped after any number of steps with its removal accepted or refused and repeated alone, ends so |
| ProjectService.UploadIsDone | cloud/src/index.ts:200-203 | an upload on its own is a put, a preparation and a compare-and-swap |
| ProjectService.ProjectService.HandleUpload | cloud/src/index.ts:176-205 | runs the upload steps on the live objects; an answered pointer is live and names the bytes' hash |
| ProjectService.ProjectService.HandleReadProject | cloud/src/index.ts:211-245 | answers the verified bytes of the live pointer or an error |
| ProjectService.ProjectService.HandleGcProject | cloud/src/index.ts:247-267 | runs the collection steps on the live objects |
| ProjectService.ProjectService.HandleDeleteProject | cloud/src/index.ts:269-291 | runs the deletion steps on the live objects, first time or retry |
| NonceLedger.SweepKeepsLive | cloud/src/workspace-coordinator.ts:399-448 | on an agreeing store the sweep succeeds and keeps exactly the unexpired entries and records |
| NonceLedger.ConsumeExactly | cloud/src/workspace-coordinator.ts:399-448 | a well-formed call consumes iff no unexpired record has the nonce and there is room; the record-invalid answers are unreachable; the exact new index and records |
| NonceLedger.ConsumeKeepsInv | cloud/src/workspace-coordinator.ts:399-448 | every call keeps: at most 256 index entries without repeats, every record indexed, every live entry backed by an equal record |
| NonceLedger.RunKeepsInv | cloud/src/workspace-coordinator.ts:399-448 | so after any run with a clock that does not go back |
| NonceLedger.RecordOutlives | cloud/src/workspace-coordinator.ts:399-448 | an unexpired record survives every later call made before its expiry |
| NonceLedger.NoReplay | cloud/src/workspace-coordinator.ts:399-448 | over any run no nonce is consumed a second time before the first consumption's replay expiry |
| NonceLedger.ReplayAtExpiry | cloud/src/workspace-coordinator.ts:399-448 | the bound is exact: at the replay expiry it is accepted again |
| NonceLedger.CoreNonceLedger.SweepIndex | cloud/src/workspace-coordinator.ts:399-448 | the loop that builds the live index while deleting records is the sweep |
| NonceLedger.CoreNonceLedger.ConsumeCoreNonce | cloud/src/workspace-coordinator.ts:399-448 | computes a consumption and, when the clock does not go back, keeps the agreement of index and records |
| SecretStore.StoredIffIndexed | cloud/src/session-vault.ts:315-324 | a lease is stored iff it is in the global index iff some session lists it, and never for a tombstoned session |
| SecretStore.RemoveIsRestrict | cloud/src/session-vault.ts:315-324 | removing one lease from both indexes equals keeping all the others everywhere |
| SecretStore.NextAlarmIsEarliest | cloud/src/session-vault.ts:326-351 | after a purge the computed alarm is the least expiry of the stored leases, or unset when there is none |
| SecretStore.StepKeepsInv | cloud/src/session-vault.ts:121-288 | every transaction, the halves of a read included, keeps the vault invariant |
| SecretStore.RunKeepsInv | cloud/src/session-vault.ts:121-288 | so does every interleaved run; only a read must take its time no earlier than the last access of its lease |
| SecretStore.LeaseOnlyAges | cloud/src/session-vault.ts:165-219 | across any step a lease keeps its secret, creation and absolute expiry, and its last access never decreases |
| SecretStore.InterleavedRead | cloud/src/session-vault.ts:165-219 | a read that commits, whatever fell between, found its session undestroyed and the lease it had probed, and leaves it expiring later than now and at most eight hours after creation |
| SecretStore.DestroyedSessionUnreadable | cloud/src/session-vault.ts:221-264 | once a destruction of its session committed, no read in flight commits |
| SessionVault.SessionVault.RemoveLease | cloud/src/session-vault.ts:315-324 | removes a lease from the map and both indexes |
| SessionVault.SessionVault.ScheduleNextAlarm | cloud/src/session-vault.ts:326-351 | the loop drops expired leases and sets the alarm to the earliest expiry |
| SessionVault.SessionVault.LeaseSecret | cloud/src/session-vault.ts:121-163 | computes a lease, alarm included |
| SessionVault.SessionVault.ReadProbe | cloud/src/session-vault.ts:165-196 | computes the first transaction of a read |
| SessionVault.SessionVault.ReadCommit | cloud/src/session-vault.ts:197-219 | computes the second |
| SessionVault.SessionVault.ReadSecret | cloud/src/session-vault.ts:165-219 | both in a row, with the plaintext iff the lease is there, owned and unexpired |
| SessionVault.SessionVault.CollectOwned | cloud/src/session-vault.ts:221-264 | finds every lease of the session once, from both indexes |
| SessionVault.SessionVault.DestroySession | cloud/src/session-vault.ts:221-264 | removes all leases of a session, buries it and counts them |
| SessionVault.SessionVault.Alarm | cloud/src/session-vault.ts:266-288 | the alarm pass removes exactly the expired leases and schedules the next |
| StudyInvariant.DispatchKeepsInv | native/quillframe-core/src/corpus_store.rs:508-632 | a dispatch keeps: one call per stage and unit, at most one unsettled, calls and queue within the plan, and extraction with a unit to send or its last answer |
| StudyInvariant.CommitKeepsInv | native/quillframe-core/src/corpus_store.rs:634-769 | the transaction of a confirmation keeps it, settles the only open call, and reports its last answer iff the stage is now due |
| StudyInvariant.ConfirmKeepsInv | native/quillframe-core/src/corpus_store.rs:634-783 | so does the whole confirmation, stage step included |
| StudyInvariant.MarkKeepsInv | native/quillframe-core/src/corpus_store.rs:785-806 | so does marking a call unconfirmed |
| StudyInvariant.ContinueKeepsInv | native/quillframe-core/src/corpus_store.rs:808-848 | so does continuing after Golden Three |
| StudyInvariant.RunKeepsInv | native/quillframe-core/src/corpus_store.rs:508-848 | so does every run, with confirmations that stop after their commit |
| StudyInvariant.SentAtMostOnce | native/quillframe-core/src/corpus_store.rs:508-632 | over a run no two dispatches are for the same unit of the same stage |
| StudyInvariant.SentOnlyWhenSettled | native/quillframe-core/src/corpus_store.rs:532-587 | a call goes out only when every earlier one is settled |
| StudyInvariant.StageMoves | native/quillframe-core/src/corpus_store.rs:1093-1119 | the stage stays or moves to the next; Golden Three is left only by a continuation with the current paused checkpoint and an authorization |
| StudyInvariant.DispatchMakesProgress | native/quillframe-core/src/corpus_store.rs:532-587 | with no open call a dispatch sends a unit iff the stage is not due; a due stage it advances, except extraction, which it leaves unchanged |
| StudyInvariant.StuckExactly | native/quillframe-core/src/corpus_store.rs:769-778 | extraction has its last answer and is not advanced iff some confirmation of the run stopped between its commit and the stage step |
| StudyInvariant.HaltedExactly | native/quillframe-core/src/corpus_store.rs:508-848 | with an unused call id to draw, no event changes a study iff it is complete, its extraction is answered and not advanced, or a call is marked unconfirmed |
| StudyInvariant.HaltedByExactly | native/quillframe-core/src/corpus_store.rs:634-806 | a run has come to one of the two halts short of completion iff one of its confirmations stopped at the last answer of extraction or one of its marks hit an open call |
| StudyInvariant.HaltedForGood | native/quillframe-core/src/corpus_store.rs:532-587 | and then no later event of the run changes the study |
| StudyInvariant.FailedTransportHalts | native/quillframe-core/src/corpus_store.rs:785-806 | for every plan, the run of one dispatch and its mark ends in a study that no event changes |
| StudyInvariant.StoppedAtLastHalts | native/quillframe-core/src/corpus_store.rs:769-783 | for every plan with one preview unit, the run of five events that stops at the last answer of extraction ends in a study that no event changes |
| StudyInvariant.ConfirmationCounts | native/quillframe-core/src/corpus_store.rs:655-783 | each accepted confirmation adds one unit, never beyond the plan; unless it stops, the last one ends the stage, a refused pack aside; while extraction stays a unit without call is left |
| CorpusStudy.CorpusStudy.AdvanceStage | native/quillframe-core/src/corpus_store.rs:1093-1119 | computes the stage step |
| CorpusStudy.CorpusStudy.FindPending | native/quillframe-core/src/corpus_store.rs:532-587 | the loop finds the first unit without call, or the one that blocks |
| CorpusStudy.CorpusStudy.DispatchNextStage | native/quillframe-core/src/corpus_store.rs:508-632 | computes a dispatch, invariant kept |
| CorpusStudy.CorpusStudy.CommitStage | native/quillframe-core/src/corpus_store.rs:634-769 | computes the committed part of a confirmation, invariant kept |
| CorpusStudy.CorpusStudy.ConfirmStage | native/quillframe-core/src/corpus_store.rs:634-783 | computes the commit and the stage step, invariant kept |
| CorpusStudy.CorpusStudy.MarkStageUnconfirmed | native/quillframe-core/src/corpus_store.rs:785-806 | computes the mark, invariant kept |
| CorpusStudy.CorpusStudy.ContinueAfterGoldenThree | native/quillframe-core/src/corpus_store.rs:808-848 | computes the continuation, invariant kept |
| CohortSelection.SelectionIsNearOptimal | native/quillframe-core/src/corpus_store.rs:1282-1329 | if any other works, no more of them, cover the pool within r, the selection covers it within 2r + 2 |
| CohortSelection.NearTriangle | native/quillframe-core/src/corpus_store.rs:1307-1311 | the floored distance satisfies the triangle inequality up to two |
| CohortSelection.SelectsFromPool | native/quillframe-core/src/corpus_store.rs:1282-1329 | the selection takes distinct places of the pool, and exactly how many |
| CohortSelection.OrderDoesNotMatter | native/quillframe-core/src/corpus_store.rs:1282-1329 | with unique ids, when a selection is needed, it does not depend on the order of the pool |
| CohortSelection.CoverageStratifiedSelection | native/quillframe-core/src/corpus_store.rs:1282-1329 | the loop computes the selection these results are about |
| CohortSelection.FindFarthest | native/quillframe-core/src/corpus_store.rs:1299-1325 | the scan finds the farthest work, the least id and then the latest among equals |
| CohortSelection.FarthestIsFarthest | native/quillframe-core/src/corpus_store.rs:1299-1325 | no other work left is farther from those chosen |
| ChapterBoundaries.IndexExactly | native/quillframe-core/src/corpus_store.rs:1418-1454 | indexing fails only on the empty text; otherwise the boundaries run between heading lines by byte offset, numbered from one, meeting without gap, ending with the text, each titled by its heading |
| ChapterBoundaries.SlicesAreLineRuns | native/quillframe-core/src/corpus_store.rs:1418-1454 | the bytes of a slice are its heading line and the non-heading lines after it, so no character is split |
| ChapterBoundaries.SlicesRebuildText | native/quillframe-core/src/corpus_store.rs:1418-1454 | the slices joined give the text from the first heading on, or all of it |
| ChapterBoundaries.IndexPassesCheck | native/quillframe-core/src/corpus.rs:251-271 | the index of a text within the size limit always passes the separate checker |
| ChapterBoundaries.ChapterBoundaries | native/quillframe-core/src/corpus_store.rs:1418-1454 | the two loops compute that index |
| ChapterBoundaries.ValidateBoundaries | native/quillframe-core/src/corpus.rs:251-271 | the checker accepts iff every boundary is in order, titled, non-empty, of the source, and after the one before |
| ChapterUnits.StageUnits | native/quillframe-core/src/corpus_store.rs:909-950 | computes the unit keys of any stage, with the nested loops of the greedy grouping |
| ChapterUnits.UnitKeyInjective | native/quillframe-core/src/corpus_store.rs:945 | a unit is determined by its key, whatever characters the work id has |
| ChapterUnits.UnitsNeverRepeat | native/quillframe-core/src/corpus_store.rs:909-950 | distinct works give no unit twice |
| ChapterUnits.PlanIsOkExactly | native/quillframe-core/src/corpus_store.rs:909-950 | every stage has units and none twice, as the study runner relies on, iff the works are distinct and some work has a chapter |
| ChapterUnits.IndexedWorksGiveAPlan | native/quillframe-core/src/corpus_store.rs:909-950 | so for distinct works indexed from their texts |
| ChapterUnits.RunsPartition | native/quillframe-core/src/corpus_store.rs:934-948 | for any boundaries, the runs cover the chapters once and in order, each one chapter or at most 192 KiB |
| ChapterUnits.ExactlyOneRun | native/quillframe-core/src/corpus_store.rs:934-948 | every chapter lies in exactly one run |
| ChapterUnits.FewestRuns | native/quillframe-core/src/corpus_store.rs:934-948 | for chapters in text order no such partition uses fewer runs |
| ChapterUnits.IndexedWorkUsesFewestRuns | native/quillframe-core/src/corpus_store.rs:922-950 | so for every work whose boundaries come from the index |
| ChapterUnits.ChapterInOneUnit | native/quillframe-core/src/corpus_store.rs:922-950 | each chapter of each studied work belongs to exactly one unit of the study |
| CanonicalAcceptance.SerializedTextParses | cloud/src/core-provenance.ts:147-216 | printing any valid value and parsing the text gives the value, fields in key order |
| CanonicalAcceptance.AcceptedExactly | cloud/src/core-provenance.ts:210-216 | a text is accepted iff some valid value prints as it |
| CanonicalBytes.BytesAcceptedExactly | cloud/src/core-provenance.ts:210-216 | octets are accepted iff they are those of some printed valid value; what is not UTF-8 or starts with a byte order mark is refused |
| CanonicalBytes.SerializedBytesParse | cloud/src/core-provenance.ts:147-216 | printing any valid value to octets and parsing them gives the value, fields in key order |
| CanonicalBytes.SerializeHasNoLone | cloud/src/core-provenance.ts:147-164 | a printed valid value has no lone surrogates, so it encodes |
| Utf8.BytesInjective | cloud/src/core-provenance.ts:164 | octets encode at most one text |
| CanonicalAcceptance.PrintAlikeExactly | cloud/src/core-provenance.ts:147-158 | two valid values print alike iff they are the same up to the order of fields |
| CanonicalAcceptance.ParsedIsProper | cloud/src/core-provenance.ts:178-187 | every parsed value, of any text, has each key once in every object |
| CanonicalAcceptance.LoneSurrogateExactly | cloud/src/core-provenance.ts:119-130 | the surrogate check finds exactly the code unit sequences that encode no character sequence |
| CanonicalRoundTrip.WrittenValueParses | cloud/src/core-provenance.ts:172-208 | a printed value before a delimiter or the end is parsed back, leaving what follows |
| CanonicalRoundTrip.SerializeWritesCanon | cloud/src/core-provenance.ts:147-158 | sorting keys while printing equals sorting the fields of every object first |
| CanonicalRoundTrip.CanonIsCanonical | cloud/src/core-provenance.ts:147-158 | the sorted form has strictly ascending keys in every object and is as valid as the value |
| JsonParsers.JsonParser.String | cloud/src/core-provenance.ts:192-203 | the loop over the index reads what the suffix grammar reads, or fails where it fails |
| JsonParsers.JsonParser.Number | cloud/src/core-provenance.ts:204-207 | so does the number reader |
| JsonParsers.JsonParser.Array | cloud/src/core-provenance.ts:188-191 | so does the array loop |
| JsonParsers.JsonParser.Object | cloud/src/core-provenance.ts:178-187 | so does the object loop with its seen keys |
| JsonParsers.JsonParser.Value | cloud/src/core-provenance.ts:172-176 | so does the dispatch on the first character |
| JsonParsers.JsonParser.ParseAll | cloud/src/core-provenance.ts:170 | so does the parse of a whole text, which therefore ends on every text |
| JsonParsers.HasLoneSurrogate | cloud/src/core-provenance.ts:119-130 | the index loop computes the surrogate check |
| JsonParsers.ValidateJsonValue | cloud/src/core-provenance.ts:132-145 | the recursive loops accept iff the value is valid throughout |
| JsonParsers.ParseCanonicalText | cloud/src/core-provenance.ts:210-216 | parsing, validating and comparing computes canonical acceptance |
| EventStream.SseDataEvents | native/quillframe-core/src/model.rs:599-619 | the nested loops compute the events of a stream |
| EventStream.EventsAreDispatched | native/quillframe-core/src/model.rs:599-619 | splitting at double line feeds equals a one-pass line machine that dispatches at blank lines, plus the event still held at the end |
| EventStream.WrittenEventsReadBack | native/quillframe-core/src/model.rs:599-619 | events written as data lines are read back iff none holds a carriage return |
| PlanLedgers.ActivatedAtMostOnce | native/quillframe-core/src/planning.rs:801-865 | over any run no proposal content is activated twice and no key is used twice, repeated saves included |
| PlanLedgers.VersionsCountActivations | native/quillframe-core/src/planning.rs:832-865 | a target's active version is the number of its activations, and the n-th makes version n |
| PlanLedgers.StepRaisesOneVersion | native/quillframe-core/src/planning.rs:832-865 | one call raises one target's version by one, or none |
| PlanLedgers.ReplayChangesNothing | native/quillframe-core/src/planning.rs:803-821 | a call with a used key never changes the ledger |
| PlanLedgers.ReplayExactly | native/quillframe-core/src/planning.rs:803-821 | a replay that succeeds returns the plan its key activated, except precisely when the stored proposal was replaced by one for another target |
| PlanLedgers.ReplayWhileCurrent | native/quillframe-core/src/planning.rs:803-821 | without that, a replay succeeds iff it is for the same proposal and the activation is still the target's latest |
| PlanLedgers.FreshIdsReplayFaithfully | native/quillframe-core/src/planning.rs:786-865 | with fresh ids an id is activated at most once and every successful replay returns exactly its plan |
| PlanLedgers.ReusedIdMisleadsReplay | native/quillframe-core/src/planning.rs:786-799 | a run in which a reused id makes a replay return another target's plan |
| PlanLedgers.PlanLedger.SaveProposal | native/quillframe-core/src/planning.rs:786-799 | stores before it reports a duplicate, invariant kept |
| PlanLedgers.PlanLedger.Activate | native/quillframe-core/src/planning.rs:801-865 | computes an activation or replay; every lookup it relies on is present |
| SceneReceipts.CheckExactly | native/quillframe-core/src/production.rs:396-414 | the check passes iff there are 1 to 9999 scene keys, every ordinal up to their number has one, and all are canonical |
| SceneReceipts.OneKeyPerOrdinal | native/quillframe-core/src/production.rs:396-414 | accepted receipts hold each ordinal exactly once |
| SceneReceipts.MarksOrdered | native/quillframe-core/src/production.rs:407 | zero-padded keys sort in numeric order up to 9999 |
| SceneReceipts.TenThousandFails | native/quillframe-core/src/production.rs:407 | from ten thousand scenes on the check fails |
| SceneReceipts.ValidateScenes | native/quillframe-core/src/production.rs:396-414 | the filter and the loop compute the check, with its first error |

## Left out

- CoordinatorSteps.OldestExists: among collections logged at the same time the source orders by `localeCompare`; the model orders by code units, which may drop another of the equally old ones.
- Coordinator.FindOldest: breaks ties by code units, as above.
- Coordinator.PruneOldest: breaks ties by code units, as above.
- ProjectStore.EncryptedProjectStore.UploadVerified: the checks of the verification receipt against the bytes are part of the flag that says Core verified the request.
- ProjectService.ProjectService.HandleUpload: authentication, the proof to Core, the nonce it consumes and Core's answer are one flag, read before the first write.
- ProjectService.ProjectService.HandleReadProject: Core's verification of the bytes that were read is not modelled; the store's own checks are.
- Sessions, sign-in transactions and `destroyAll` of the coordinator: simple records without interplay with the project maps.
- The shape checks on stored coordinator records: the types rule out damaged records. The two branches of the nonce ledger that find damage are modelled and shown unreachable.
- More than one workspace: distinct workspaces share no storage, and their object keys differ if SHA-256 does not collide.
- HTTP parsing, headers and CSRF.
- SHA-256, HMAC and AES-GCM: abstract functions; opening an envelope under the right key and identity yields what was sealed. Key configuration is not checked.
- Storage faults in the middle of a transaction: transactions are atomic. A handler or a confirmation that stops between two of its steps is modelled.
- Random ids (leases, calls): fresh values are an assumption of the runs that draw them.
- Reading clocks: times are parameters. The nonce runs assume a clock that does not go back.
- Study cancellation, and confirming a cohort again after dispatch: outside what the runner claims.
- The text sent to and received from the model in a study: an output is its kind, its evidence and the units it requests; acceptance of inputs and packs are flags; an authorization is compared after trimming, so blank is the empty string.
- CanonicalAcceptance.AcceptedExactly: is about code units; CanonicalBytes.BytesAcceptedExactly adds the octets. The size limit of a body is not modelled.
- JsonParsers.ParseCanonicalText: works on code units; decoding and encoding are specified in CanonicalBytes, not run.
- The error code that replaces all others when claims are parsed: a renaming of the result.
- CanonicalJson.ParseNumber: what a lexeme with a fraction or exponent denotes is a parameter; no accepted text has one. Minus zero is the integer zero, which prints as `0`, so the text `-0` is not accepted.
- CanonicalJson.Printed: escapes for lone surrogates are left out; printing runs only after validation has refused them.
- Stack depth of the recursive JSON parser: recursion is unbounded.
- PlanLedgers.PlanLedger.Activate: versions are unbounded naturals, not 64-bit; a receipt's own field and fingerprint checks are one flag.
- Plan bodies and the checks on their fields, and the story graph: inserting nodes below a parent of the fitting kind and listing the ancestors of a node.
- The other checks of a production release, which look up named stage receipts, and the pipeline that carries a candidate from draft to release.
- SQL text, file-system guards, directory scanning, provider calls and the user interface.
