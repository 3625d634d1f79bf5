# Verified model of the table workspace's transactional core

A Dafny model of those parts of the backend whose correctness depends on interleaving, partial failure or
whole runs, with the properties they exist for. `dafny verify dfyconfig.toml` checks everything.

**Attachments** (`Attachment*.dfy`, `ObjectStorage.dfy`). Object bytes live in an object store; a registry row and a
JSON cell that lists it live in the database. Upload and delete handlers, cleanup workers, reconcilers, other record
writers, field changes, soft delete, restore and purge take steps in any order, and any of them may fail or die
between two steps. `AttachmentProtocol` is the state machine with a clock, `AttachmentSafety` the inductive
invariant and the safety theorem, `AttachmentAssumptions` the proof that full safety holds exactly under seven
assumptions on the environment, `ObjectStorage` the proof that two of them decide alone whether an object can be
leaked and two whether an ACTIVE row can lose its object, `AttachmentLifecycle` what a row and a record go through,
`AttachmentRestore` when a deleted record can be restored with the links its deletion removed, `AttachmentWorker`
the worker's methods and how fast they drain the backlog, `AttachmentValidation` the flush hook's and the handlers'
judgement of a cell value.

**AI action plans** (`ActionPlan*.dfy`, `ChangeUndo.dfy`, `DependencyCycle.dfy`, `Graphs.dfy`, `AutoNumber.dfy`).
`ActionPlan` holds preview and the apply service as it works on its session; `ActionPlanModel` says what the
transaction of one apply call may do; `ActionPlanWriters` and `ActionPlanRaces` say how other writers must treat
versions, and hold the runs that a plan does not withstand; the remaining files prove what any sequence of calls
does: each action at most once, versions that count changes, when the status is right, any split of a plan ending in
the same place, numbers that never repeat, a change log that can be played in both directions, and the undo that
plays it back as far as the guard on attachment cells lets it.

**Schedulers** (`StepScheduler.dfy`, `ExecutionBatches.dfy`). The agent workflow's step choice and routing, and the
batch planner.

**Exactly-once and single-credential protocols** (`ClipperReceipts.dfy`, `ResetTokens.dfy`, `ConfirmManager.dfy`).

**Bounded-rate state machines** (`RateLimiter.dfy`, `ToolRouter.dfy`).

Code that updates objects in place is a class with methods proved against functions of the old state; protocols of
concurrent requests are state machines over their steps, with theorems about every run.

## Assumptions

- Attachments: the safety theorem needs seven assumptions, which are the fields of `Env`;
  `SafetyNeedsExactlyTheAssumptions` proves that dropping any one of them admits an unsafe run. The code does not
  enforce them, and breaks several:
  - an upload finishes before `created_at` plus the grace period (`uploadsInTime`), which nothing bounds;
  - `update_record` returns committed or raises uncommitted (`updateIsAtomic`): it refreshes the row after its commit
    (app/services/smart_table_store/db_backend.py:770-843), and an error there makes the handler remove an object
    that a record lists;
  - record ids are never reused (`recordIdsFresh`);
  - a put has no effect once it has raised or its handler has stopped (`putsSettle`): a cancelled request leaves the
    thread of its put running (app/services/attachment_storage.py:148-161);
  - whoever writes a record's data has loaded it under its row lock (`writersLockRows`): deleting a field
    (app/services/smart_table_store/db_backend.py:1163-1193), migrating relation values
    (app/services/relation_store.py:237-267) and merging a task plan (app/services/task_planning.py:873-901) load
    rows without a lock and write the whole JSON back; an automation keeps the row it has loaded without one while the
    patch selects it again FOR UPDATE, which does not refresh it (app/services/automation/executor.py:345-365); and
    the flush hook compares with what was loaded;
  - an attachment field is neither deleted nor given another type (`fieldsStay`): the code does both
    (app/services/smart_table_store/db_backend.py:1163-1193 and :1075-1161) and leaves ACTIVE rows no cell lists;
  - a field becomes an attachment field only while no record holds a list in it (`fieldsComeEmpty`), which
    `update_field` does not check either.

  Registry ids are fresh.
- Action plans: `Run` allows anybody else to write between two calls, and the lemmas say where they assume otherwise.
  A request's row and field locks make the transaction of one apply call one step. A call that fails rolls back,
  which lets go of the locks, reads the plan again and marks it in a second transaction
  (app/services/ai_action_plan.py:1475-1489); so the mark is a step of its own, by a status that may be out of date.
  Ids of new records are fresh.
- Versions: a record's version does not identify its data. Deleting a field, the auto-number backfill of adding or
  changing one (app/services/smart_table_store/db_backend.py:1015-1193) and migrating relation values change data
  without a new version, and the unlocked merge of a task plan and an automation write the next version of what they
  had loaded over data they have not seen. The lemmas on overwriting say which rules writers have to keep, and
  `NothingIsOverwrittenExactlyWhen` that no fewer would do. Preview reads records and versions in two statements
  (app/services/ai_action_plan.py:280-308); the plan's first state is the one in which it reads the versions, and what
  it shows of the data may be older.
- Reset tokens: token hashes are drawn at random and never come twice; locks are row locks held to the end of the
  transaction. Clipper: record ids are fresh.
- Rate limiter: the clock does not run backwards, and it is the same clock for memory and Redis. Redis drops a key
  when its deadline has passed, not at the deadline.
- Database answers other than the worker's two queries, clocks, object-store answers and random ids are parameters; answers of services outside the
  model (permissions, record access, member and dependency checks, whether a date or relation value still parses,
  whether a commit goes through) are sets and flags of a call.

Where the code is narrower than one may expect, the model follows the code: each action of a plan is checked for
cycles against the stored dependencies of the records its user sees, alone (`TwoAcceptedActionsCanClose`,
`HiddenRecordCloses`), the batch planner returns one batch at most and marks all waiting steps as circular
(`ChainIsCalledCircular`), the scheduler runs a step whose dependency was skipped (`SkippedDependencyIsRunOver`), a
failed call's late mark can hide that everything was applied (`LateMarkHidesCommit`), a deleted record is lost for
good once a record that linked to it has been edited (`EditBlocksRestore`), an upload cannot be undone
(`UploadCannotBeUndone`), and clearing a field a record does not have leaves a stored null or none depending on how
a plan is split (`PaddedNullDiffers`).

## Model

| member | source | states |
|---|---|---|
| AttachmentSafety.StepKeepsInv | app/services/attachment_storage.py:287-348 | under the seven assumptions every step of every actor, at any point of its work, keeps the bookkeeping of both stores, what each writer holds loaded, and the soundness of every live cell and every recycled snapshot |
| AttachmentSafety.EveryReachableStateIsSafe | app/api/attachments.py:251-358 | under the seven assumptions, in every state any interleaving can reach, what an attachment cell of a live record lists is ACTIVE in that cell with its object stored, every stored object has a row with its key, the ACTIVE row of a live record is listed in its cell, once, and no other cell has any |
| AttachmentAssumptions.LateUploadDangles | app/services/attachment_storage.py:320-331 | an upload that outlives the grace period can be activated over a worker's stale pick, and its object is then removed |
| AttachmentAssumptions.RaiseAfterCommitDangles | app/services/smart_table_store/db_backend.py:770-843 | an error raised after update_record's commit makes the failed-upload cleanup remove an object a record lists |
| AttachmentAssumptions.ReusedRecordIdDrifts | app/services/attachment_invariants.py:198-258 | a new record under a purged record's id passes the hook with empty cells although ACTIVE rows are bound to them |
| AttachmentAssumptions.UnlockedWriterDropsReference | app/services/attachment_invariants.py:53-70 | a writer that loaded a record without its lock writes it back over an upload activated since; the hook sees no change and an ACTIVE row is lost from its cell |
| AttachmentAssumptions.UnlockedWriterRevivesReference | app/services/attachment_invariants.py:53-70 | or it puts a reference back whose row and object are gone |
| AttachmentAssumptions.RemovedFieldStrandsRows | app/services/smart_table_store/db_backend.py:1163-1193 | deleting an attachment field, stripped from the records or not, leaves ACTIVE rows no cell lists |
| AttachmentAssumptions.RetypedFieldDangles | app/services/smart_table_store/db_backend.py:1075-1161 | a list written while the field had another type is never checked when it becomes an attachment field |
| AttachmentAssumptions.LatePutLeaks | app/services/attachment_storage.py:148-161 | a put that raised and lands after its cleanup leaves an object without a row |
| AttachmentAssumptions.SafetyNeedsExactlyTheAssumptions | app/core/config.py:109 | for every grace period that may be configured: all runs are safe if and only if the seven assumptions hold |
| ObjectStorage.NothingLeaksExactlyWhen | app/services/attachment_storage.py:306-348 | no run ever stores an object without a row of its key if and only if uploads end in time and puts settle, whatever record writers, field changes, reused ids and failing updates do |
| ObjectStorage.LatePutOutlivesItsRow | app/services/attachment_storage.py:320-331 | an input on which a put outlives the row a worker has cleaned up |
| ObjectStorage.ActiveRowsAreStoredExactlyWhen | app/api/attachments.py:296-358 | no run ever has an ACTIVE row without its object if and only if uploads end in time and update_record is atomic, whatever else happens |
| AttachmentLifecycle.DoomedStaysDoomed | app/services/attachment_storage.py:320-347 | whatever the environment does, a row marked for deletion or purge is never ACTIVE again |
| AttachmentLifecycle.UploadPassesHook | app/api/attachments.py:296-344 | an upload whose put has returned can activate its row, while it has the time, whenever the row is pending, the record live, its field an attachment field and no writer at work on that very record: the flush hook never refuses it |
| AttachmentLifecycle.DetachPassesHook | app/api/attachments.py:427-487 | a delete of an ACTIVE attachment of a live record no writer is at work on always goes through, hook included, and leaves the cell without it |
| AttachmentLifecycle.WriterWaitsForItsRowOnly | app/api/attachments.py:296-344 | a writer that locks its row waits if and only if another is at work on that very record |
| AttachmentLifecycle.RemovedFieldLeaves | app/services/smart_table_store/db_backend.py:1163-1193 | deleting a field takes it out of the records of its own table, if it strips them, and leaves all other data and the registry alone |
| AttachmentLifecycle.RecycledRecordIsKept | app/services/attachment_storage.py:240-284 | through any events but its own restore or purge a recycled record keeps its snapshot and all its ACTIVE rows |
| AttachmentRestore.DeletedIsKept | app/services/smart_table_store/db_backend.py:1195-1272 | through anything but its own restore or purge, for any length of time, a deleted record keeps its snapshot, and its deletion what it noted of the records it took links out of |
| AttachmentRestore.HookLetsRestore | app/services/attachment_invariants.py:53-70 | the flush hook never refuses a recycled record, nor what its deletion changed elsewhere as long as that is untouched: restoring is refused if and only if some of that has been touched |
| AttachmentRestore.RestorableExactlyWhen | app/services/change_history.py:304-376 | after deletion and anything else for any length of time the record can be restored if and only if no record whose link the deletion removed has been edited with a new version, deleted, restored, or changed by a further deletion since |
| AttachmentRestore.RestoreBringsBack | app/services/change_history.py:378-450 | as soon as no writer is at work on those it then goes through: the record and they are back as they were, and the state is safe |
| AttachmentRestore.OnceTouchedNeverRestorable | app/services/change_history.py:367-376 | once such a record has been touched the deleted one can never be restored again, whatever happens |
| AttachmentRestore.OneTouchIsEnough | app/services/change_history.py:367-376 | one step that touches such a record is enough, deleting another record it links to included |
| AttachmentRestore.EditBlocksRestore | app/services/change_history.py:367-376 | a run in which an edit of a linked record makes restoring impossible |
| AttachmentRestore.ReachableIsSound | app/services/smart_table_store/db_backend.py:1245-1255 | what those results start from holds in every state any interleaving reaches under the seven assumptions |
| AttachmentLifecycle.PurgeIsFinal | app/services/attachment_storage.py:223-284 | a purged record never returns and gains no ACTIVE row, and each one left can be picked by the reconciler |
| AttachmentWorker.Session.CleanupAttachmentObject | app/services/attachment_storage.py:287-303 | the row goes if and only if the object was removed or missing, else it stays with one attempt more |
| AttachmentWorker.Session.CleanupPendingAttachments | app/services/attachment_storage.py:306-348 | takes rows pending deletion or purge and uploads past their grace, oldest first up to the limit, leaving none behind while there is room; reports how many of its rows are gone afterwards and how many are still there |
| AttachmentWorker.Session.ReconcilePurged | app/services/attachment_storage.py:240-284 | marks orphans as purge-pending, oldest first up to the limit, leaving none behind while there is room, and changes nothing else |
| AttachmentWorker.RegistryAfterAt | app/services/attachment_storage.py:339-347 | what a pass does to any one row: gone exactly if its own object was removed, else one attempt more |
| AttachmentWorker.ObjectsAfterAt | app/services/attachment_storage.py:339-347 | what it does to any one object: gone exactly if a removal of it reached the store, answered or not |
| AttachmentWorker.CleanupPassIsRun | app/services/attachment_storage.py:306-348 | a pass is a run of the protocol, so all its guarantees carry over |
| AttachmentWorker.ReconcileMovesOldestOrphans | app/services/attachment_storage.py:268-284 | a reconcile moves exactly its batch of oldest orphans to the eligible rows; rows of kept records never count against the limit |
| AttachmentWorker.FullPassShrinksBacklog | app/services/attachment_cleanup.py:20-32 | with the store up a full pass shrinks the backlog by the batch size, or to nothing |
| AttachmentWorker.BacklogDrains | app/services/attachment_cleanup.py:20-47 | with the store up, a clock that goes on and no new work, n rows are gone after k passes if and only if k is at least n divided by the batch size, rounded up |
| AttachmentWorker.Session.CleanupOnce | app/services/attachment_cleanup.py:20-32 | one pass of the worker is a reconcile followed by a cleanup over what it left, which is the pass the two results on numbers of passes speak of |
| AttachmentWorker.WorkerPass | app/services/attachment_cleanup.py:20-32 | what it leaves is such a pass, with the store up if the store answered every removal |
| AttachmentWorker.BacklogSays | app/services/attachment_storage.py:240-331 | the backlog those results count: orphans, and rows a cleanup may take |
| AttachmentWorker.OrphansAreMarkedInAnOutage | app/services/attachment_storage.py:240-284 | whatever the store answers, all n orphans have been marked for purging after k passes if and only if k is at least n divided by the batch size, rounded up |
| AttachmentValidation.StableAttachmentList | app/services/attachment_storage.py:57-86 | the elements with id and key, in order, or a refusal |
| AttachmentValidation.StableOfParts | app/services/attachment_storage.py:57-86 | what is kept of a list is kept of its parts in order, and of one element the element itself exactly if it is an object with an id and a key |
| AttachmentValidation.RefusedExactlyWhen | app/services/attachment_storage.py:57-86 | a value is refused if and only if it is a list with an element that has an id, a key and a bad size |
| AttachmentValidation.CanonicalizeAttachmentList | app/services/attachment_storage.py:89-125 | accepts exactly the lists whose named elements are distinct, parse and refer to ACTIVE rows of the cell, and returns their registry metadata |
| AttachmentValidation.RefersExactlyWhen | app/services/attachment_storage.py:89-125 | an element counts as a reference if and only if it has the id and the object key of an ACTIVE row of the cell |
| AttachmentValidation.ResolvedSays | app/services/attachment_invariants.py:16-34 | what is written in place of a reference is all the registry's, a missing content type becoming the default one |
| AttachmentValidation.ActiveRegistryIdsForCell | app/services/attachment_invariants.py:73-110 | the ACTIVE ids of the cell after overlaying the session's rows on the stored ones |
| AttachmentValidation.OverlayIsTransactionView | app/services/attachment_invariants.py:73-110 | that overlay equals the ids the transaction would see if and only if no session row moves a stored ACTIVE row of the cell to another cell |
| AttachmentValidation.ValidateAttachmentValue | app/services/attachment_invariants.py:113-195 | the hook's verdict and rewritten value for any JSON value |
| AttachmentValidation.AcceptedIsExact | app/services/attachment_invariants.py:113-195 | what the hook accepts and writes back is exactly the cell's ACTIVE rows |
| AttachmentValidation.RewrittenValueIsStable | app/services/attachment_storage.py:57-125 | a value the hook has rewritten is accepted unchanged by the hook and by the handlers |
| AttachmentValidation.JudgesAgreeOnAccepted | app/services/attachment_storage.py:57-125 | on a value the hook accepts the handlers agree if and only if every size parses |
| AttachmentValidation.BadSizeDivides | app/services/attachment_storage.py:57-125 | in every cell with one attachment, a value on which they do not |
| AttachmentValidation.CanonicalizeIsLaxer | app/services/attachment_invariants.py:113-195 | of all values the handlers accept, lists or not, exactly which the hook accepts too |
| ActionPlan.Preview | app/services/ai_action_plan.py:991-1036 | of the first 40 drafts a plan keeps, in order, exactly those that are the first with their id and write no field that a kept one before them writes; ids and targets are then distinct; an edited plan is refused exactly if it would lose one |
| ActionPlan.Service.CheckUpdates | app/services/ai_action_plan.py:1253-1313 | passes exactly if every update passes by itself, without any write |
| ActionPlan.Service.CheckCreates | app/services/ai_action_plan.py:1315-1345 | passes exactly if every create passes by itself, without any write |
| ActionPlan.UpdatePassesExactlyWhen | app/services/ai_action_plan.py:1173-1313 | an update passes if and only if it is allowed, its record has the version the plan noted, and its field still has the type and takes the value: a select its listed options as text or printed number, blank or null; a multi-select any list of its options; a date or relation what parses; other fields anything |
| ActionPlan.CreatePassesExactlyWhen | app/services/ai_action_plan.py:1173-1345 | the same for a new row that sets one field, whose record must not exist |
| ActionPlan.CreateFieldByField | app/services/ai_action_plan.py:1315-1345 | a new row passes if and only if it would with each of its fields alone |
| ActionPlan.GoneFieldRefuses | app/services/ai_action_plan.py:1304-1345 | a field that is gone refuses every write |
| ActionPlan.AcceptedExactlyWhen | app/services/ai_action_plan.py:1253-1436 | what decides over an action in all: its guard, and for a new row that every auto-number field of its table has a property that is accepted |
| ActionPlan.Service.WriteUpdates | app/services/ai_action_plan.py:1350-1378 | every updated record gets all its suggestions and one version more if it then reads differently, and the items are exactly the difference |
| ActionPlan.CreateTasks | app/services/ai_action_plan.py:1380-1436 | rows of all tables with their numbers, counters advanced by the rows created, refused exactly if a table cannot be numbered |
| ActionPlan.Service.Attempt | app/services/ai_action_plan.py:1186-1474 | the transaction of one call does what `ApplyStep` allows: refused outside the plan, idempotent, failed without effect, or committed, heard of or not, with records, counters, log, versions, applied ids and status all determined |
| ActionPlan.Service.MarkFailure | app/services/ai_action_plan.py:1475-1489 | a failed call marks a plan it has read as previewed, and no other |
| ActionPlan.Service.Apply | app/services/ai_action_plan.py:1186-1489 | a call nobody interrupts: its transaction, and if that failed its mark by the status it left; a commit that raised after all is not marked |
| ActionPlanModel.SelectedCovers | app/services/ai_action_plan.py:1198-1219 | every requested id not applied yet is carried out |
| ActionPlanModel.SelectedExactly | app/services/ai_action_plan.py:1198-1219 | what a call selects are exactly the ids asked for and not applied, all of the plan's if it asks for none |
| ActionPlanModel.SelectedInOrder | app/services/ai_action_plan.py:1206-1219 | they are taken in the order of the request |
| ActionPlanModel.OutcomeExactlyWhen | app/services/ai_action_plan.py:1198-1474 | exactly when a call is refused, idempotent, failed, committed or raised after its commit, and that nothing moves unless its commit lands |
| ActionPlanHistory.CallIsAllOrNothing | app/services/ai_action_plan.py:1299-1474 | carried out exactly if every guard passes and the commit lands, and then reported as such exactly if it does not raise after all; otherwise nothing moves; a landed commit raises the version by one on each record whose data reads differently and by zero on all others, and adds one change set exactly if a record has changed |
| ActionPlanHistory.ReadsTheSame | app/services/change_history.py:31-50 | what "reads the same" and "the version" mean: a missing field counts as null, a version below one as one |
| ActionPlanHistory.EffectAtMostOnce | app/services/ai_action_plan.py:1198-1217 | over any calls, retries, failures and foreign writes an action is carried out by one call at most |
| ActionPlanHistory.AppliedBySomeStep | app/services/ai_action_plan.py:1450-1463 | an id counts as applied exactly if some call carried it out or it was applied to begin with |
| ActionPlanHistory.HonestAfterCommit | app/services/ai_action_plan.py:1450-1463 | directly after any commit, whatever was marked before, something is applied and the status says applied if every action is and partially applied otherwise |
| ActionPlanHistory.StatusHonestExactlyWhen | app/services/ai_action_plan.py:1475-1489 | over any run the status agrees with what has been applied if and only if no call that had looked before the first commit has marked the plan since the last one |
| ActionPlanRaces.LateMarkHidesCommit | app/services/ai_action_plan.py:1475-1489 | a run of two calls after which everything is applied and the status says that applying failed |
| ActionPlanHistory.WriteFindsItsVersion | app/services/ai_action_plan.py:1299-1303 | over any run with any other writers, the plan writes a record only while it has the version the plan left it with |
| ActionPlanHistory.WriteLeavesOtherFields | app/services/ai_action_plan.py:1350-1378 | a field no applied action names comes through the write as it was found, seen or not |
| ActionPlanWriters.FieldIsAsLeft | app/services/ai_action_plan.py:1299-1303 | if no step of another writer gives the record a lower version than it last had, or changes the field and keeps the version, the plan finds the field as it left it whenever it writes the record |
| ActionPlanWriters.NothingUnseenIsOverwritten | app/services/ai_action_plan.py:1299-1378 | and after each write the field reads as it did when preview noted the version, with exactly the applied suggestions in it |
| ActionPlanRaces.VersionlessChangeIsOverwritten | app/services/smart_table_store/db_backend.py:1163-1193 | a run in which writers never lower a version and a change that keeps it is overwritten by the plan |
| ActionPlanRaces.LoweredVersionIsOverwritten | app/services/task_planning.py:873-901 | a run in which every change gets another version and one is overwritten, because an older version was written back |
| ActionPlanRaces.NothingIsOverwrittenExactlyWhen | app/services/ai_action_plan.py:1299-1378 | for each class of other writers, given by which of the two rules all its members keep: no run with them has an unseen overwrite if and only if they keep both |
| ActionPlanSplits.VersionCountsChanges | app/services/ai_action_plan.py:1350-1378 | over a run of calls a record's version rises by exactly the number of calls after which it read differently |
| ActionPlanSplits.PlanStaysCurrent | app/services/ai_action_plan.py:1350-1378 | with no outside writer no call of a plan makes a later one fail on a version |
| ActionPlanSplits.DataAfterRun | app/services/ai_action_plan.py:1299-1313 | each field of each earlier record reads, at any point, as the applied suggestion for it or as at the start |
| ActionPlanSplits.PartitionIndependence | app/services/ai_action_plan.py:1009-1019 | two ways of applying the same actions, in whatever calls and order, end with the same records, equal readings, created rows that agree in every field but their numbers, and equal counters |
| ActionPlanSplits.CreatedRowsRead | app/services/ai_action_plan.py:1401-1415 | a field of a created row that is not numbered is stored by both ways, with the same value |
| ActionPlanSplits.CountersAfterRun | app/services/ai_action_plan.py:1384-1394 | counters move by the number of rows created however the creations were batched |
| ActionPlanSplits.MovedCounter | app/services/ai_action_plan.py:1384-1394 | a counter that has moved stands that many numbers further on, and nothing else of its field has changed |
| ActionPlanSplits.NumbersNeverRepeat | app/services/ai_action_plan.py:1384-1415 | over a run each created row has a number of its own, and they are as many numbers as rows, from the first counter on |
| ActionPlanSplits.RowAsProposed | app/services/ai_action_plan.py:1401-1408 | every other field of a created row holds what was proposed, from then on |
| ActionPlanLiteral.SplitIsLiteralExactlyWhen | app/services/ai_action_plan.py:1350-1378 | writing two groups of updates one after the other leaves the very same dictionary as writing both at once if and only if a group that changes nothing names only fields the record has, whenever the other group changes something |
| ActionPlanLiteral.TwoCallsAreLiteralExactlyWhen | app/services/ai_action_plan.py:1350-1378 | so two calls of a plan store in each record what one call with the same actions stores under exactly that condition |
| ActionPlanLiteral.RunsAreLiteralExactlyWhen | app/services/ai_action_plan.py:1350-1378 | two ways of spreading the same actions over any number of calls leave the very same dictionary in a record if and only if they name the same of the fields it did not have in calls that change it |
| ActionPlanLiteral.PaddedNullDiffers | app/services/ai_action_plan.py:1350-1378 | an input on which they do not |
| ActionPlanLog.ChangeSetRoundTrip | app/services/ai_action_plan.py:1347-1448 | replaying a change set's items from the state before gives the state after, and reverting them gives the state before |
| ActionPlanLog.LogTellsTheWholeRun | app/services/ai_action_plan.py:1437-1448 | the change sets of all calls together lead from the first records to the last and back |
| ChangeUndo.History.Check | app/services/change_history.py:313-373 | an undo is allowed exactly if the set is applied and not empty, each record it deleted is absent and in the bin at the version noted, and each other record is there at exactly the version the set left it at, one if none is noted |
| ChangeUndo.History.Undo | app/services/change_history.py:304-514 | goes through exactly if those checks pass and the flush hook accepts every cell; refused with nothing changed otherwise; then the set is marked undone, every entry is put back with its inverse logged, and all other records are untouched |
| ChangeUndo.HookAcceptsAllExactlyWhen | app/services/attachment_invariants.py:198-258 | the hook lets an undo through if and only if it passes every attachment cell of every record put back |
| ChangeUndo.CellPassesExactlyWhen | app/services/attachment_invariants.py:113-195 | a cell passes if and only if it does not change, or comes back empty, or lists exactly the attachments bound to it, each once |
| ChangeUndo.ChangeUndone | app/services/change_history.py:415-449 | a record the set changed has its earlier data again, one version up, an attachment cell that becomes null holding an empty list, and the inverse is logged |
| ChangeUndo.EntryUndone | app/services/change_history.py:378-480 | a record the set deleted comes back out of the bin one version up, one it created goes into the bin, and the inverses are logged |
| ChangeUndo.NewerWorkIsNeverUndone | app/services/change_history.py:367-375 | once any write has raised the version of a record the set added or changed, the set is never undoable again, over any run in which no record is seen at a lower version than before |
| ChangeUndo.OlderSetStaysBlocked | app/services/change_history.py:367-375 | undoing the newer change set does not make the older one undoable |
| ChangeUndo.SameDictionaryExactly | app/services/change_history.py:415-480 | what "the same data" means where an undo brings data back: every field, save how an attachment cell without attachments says so |
| ChangeUndo.UndoRestores | app/services/change_history.py:415-480 | undone at once a change set passes every check on versions, and if the hook accepts it too it brings back the data of what it changed, takes away what it created, moves nothing else, and gives every changed record a new version |
| ChangeUndo.HookExactlyWhen | app/services/attachment_invariants.py:177-195 | with all cells exact, the hook lets an update be undone if and only if that changes the attachments of no cell |
| ChangeUndo.AttachmentChangesStay | app/services/change_history.py:415-449 | a set that changed the attachments of a cell which still reads as it left it passes all checks on versions and is refused all the same |
| ChangeUndo.UploadCannotBeUndone | app/services/smart_table_store/db_backend.py:813-838 | the set of an upload, undone at once, is one |
| ChangeUndo.DetachCannotBeUndone | app/services/smart_table_store/db_backend.py:813-838 | and so is that of an attachment delete |
| ChangeUndo.ApplyCanBeUndone | app/services/change_history.py:318-514 | an apply call that changed anything writes no attachment cell, and can be undone straight away with that effect |
| ChangeUndo.UndoneTwice | app/services/change_history.py:375-414 | with all cells exact an undo can be undone in turn and that brings back the data there was |
| DependencyCycle.Search | app/services/ai_action_plan.py:433-459 | with one seen set shared across the recursion: found implies reachable, not found leaves a closed set without the target; ends on nodes not yet seen |
| DependencyCycle.DependencyCycle | app/services/ai_action_plan.py:433-459 | true exactly if some proposed dependency reaches the record in the updated graph of the records the user sees; on an acyclic graph exactly if the update would close a cycle among them |
| DependencyCycle.TwoAcceptedActionsCanClose | app/services/ai_action_plan.py:659-665 | two actions each accepted on its own together close a cycle |
| DependencyCycle.AcceptedActionsTogether | app/services/ai_action_plan.py:659-665 | any number of actions, each accepted on its own, close a cycle together if and only if a new dependency of one of their records leads through another of their records back to the first |
| DependencyCycle.CheckingInTurnIsExact | app/services/ai_action_plan.py:659-665 | applied one after the other, the dependencies stay acyclic all along if and only if each passes the check against what the ones before it left |
| DependencyCycle.HiddenRecordsDecide | app/services/ai_action_plan.py:446-449 | an accepted action closes a cycle in all stored dependencies if and only if a new dependency leads through a record its user does not see back to the changed one |
| DependencyCycle.HiddenRecordCloses | app/services/ai_action_plan.py:446-449 | an input on which it does |
| Graphs.CycleThroughChangedNodes | app/services/ai_action_plan.py:433-459 | giving any nodes of an acyclic graph new successors closes a cycle if and only if one of the new successors leads back to its node |
| AutoNumber.AllocationsAreOneRun | app/services/auto_number_engine.py:74-83 | any sequence of allocations hands out one unbroken increasing run that ends just below the stored next number |
| AutoNumber.NormalizeIsStable | app/services/auto_number_engine.py:19-65 | what normalization accepts is valid and normalizes to itself; the next number never falls below a preserved one |
| AutoNumber.NormalizeKeepsWhatIsGiven | app/services/auto_number_engine.py:19-65 | exactly which properties are accepted, and that prefix, digits and start are kept where given, with none, 3 and 1 where missing, the next number being the stored or preserved one but never below the start |
| AutoNumber.FormatRoundTrip | app/services/auto_number_engine.py:86-94 | dropping the prefix and reading the rest recovers the number, whatever the padding |
| AutoNumber.FormatWidth | app/services/auto_number_engine.py:86-94 | a number is shown at least as wide as the field says, sign included, and without leading zeros where it is wider |
| AutoNumber.FormatOfAField | app/services/auto_number_engine.py:86-94 | a missing value shows as nothing, a number exactly if the property is accepted |
| AutoNumber.FormatIsInjective | app/services/auto_number_engine.py:86-94 | different numbers of one field never show the same text |
| StepScheduler.Workflow.FindNextStep | app/agent_workflow/graph.py:284-304 | the first ready step; the first pending one only if none is ready; none if and only if nothing is pending |
| StepScheduler.ReadyExactlyWhen | app/agent_workflow/graph.py:284-304 | a step is ready if and only if it is pending and each of its dependencies names a completed step |
| StepScheduler.Workflow.ToolExecutor | app/agent_workflow/nodes/tool_node.py:66-231 | the chosen step takes the status of its reply and no other step changes; only a failure reported by the tool counts as a try; the workflow executes on, awaits approval, or is completed if no step is left |
| StepScheduler.Workflow.RouteAfterTool | app/agent_workflow/graph.py:201-231 | the route for every status of the current step, and where the index goes |
| StepScheduler.Workflow.RouteAfterObservation | app/agent_workflow/graph.py:233-267 | exactly when the run executes on, retries, replans or ends |
| StepScheduler.PendingImpliesReady | app/agent_workflow/graph.py:284-304 | where pending steps depend on completed and pending ones only, without a circle, some pending step is ready and the one chosen is |
| StepScheduler.SkippedDependencyIsRunOver | app/agent_workflow/graph.py:284-304 | a step that waits for a skipped one is run all the same |
| StepScheduler.FallbackExactlyWhen | app/agent_workflow/graph.py:284-304 | a complete failure-free run of a plan with distinct ids never falls back to an unready step, and equally its order is topological, if and only if every dependency of a pending step names a completed or pending one and the pending ones do not wait for each other in a circle |
| StepScheduler.Workflow.RunToCompletion | app/agent_workflow/graph.py:121-304 | a failure-free run of any plan executes exactly the pending steps, each once, in the order the scheduler picks; topological if, and with distinct ids only if, that condition holds |
| ExecutionBatches.ToolPlan.GetExecutionOrder | app/agent_runtime/types.py:290-312 | one batch at most: the runnable steps; every other step is marked circular |
| ExecutionBatches.LeftOutExactlyWhen | app/agent_runtime/types.py:290-312 | a step is left out if and only if something it depends on is in the plan and pending, running, failed, skipped or waiting for approval; of steps sharing an id the last counts |
| ExecutionBatches.RunnableInOrder | app/agent_runtime/types.py:290-312 | the batch keeps the order of the plan |
| ExecutionBatches.ChainIsCalledCircular | app/agent_runtime/types.py:290-312 | a two-step chain without any cycle has its second step marked circular |
| ExecutionBatches.CoversPlanIffNothingWaits | app/agent_runtime/types.py:290-312 | the order covers the plan exactly if no step waits for one that is not completed |
| RateLimiter.MemoryLimiter.EnforceMemory | app/services/auth_rate_limit.py:116-137 | prunes above the cap, charges the rules in turn until one refuses, and answers with the wait |
| RateLimiter.ChargedInTurn | app/services/auth_rate_limit.py:125-137 | what charging the next rule does: an entry that has not expired counts one more under its deadline, any other is opened anew, and the first rule over its limit refuses and ends the request |
| RateLimiter.RetryAfterIs | app/services/auth_rate_limit.py:34-137 | the wait is the whole seconds left, and one if there is less than one left |
| RateLimiter.PruningIsInvisible | app/services/auth_rate_limit.py:121-124 | pruning at whatever size changes no verdict and no count, over any requests for any keys |
| RateLimiter.ChargesFormChains | app/services/auth_rate_limit.py:125-137 | the charges of every key form one chain of windows, each opened by the first charge after the last one's deadline |
| RateLimiter.WindowsHold | app/services/auth_rate_limit.py:125-137 | a window lets at most the limit through, and no stretch of one window's length more than twice the limit |
| RateLimiter.RefusalsDoNotExtend | app/services/auth_rate_limit.py:34-37 | the advertised wait lies within one second and the window, refusals leave the deadline alone, and a second more than the wait always suffices |
| RateLimiter.NewWindowLetsIn | app/services/auth_rate_limit.py:125-137 | the first request of a new window passes unless the limit is below one |
| RateLimiter.NoWindowNoLimit | app/services/auth_rate_limit.py:129-134 | a window of zero seconds or less never limits anything |
| RateLimiter.ChargedAlikeExactlyWhen | app/services/auth_rate_limit.py:16-23 | in step with each other, the fallback and the Redis script charge a rule alike if and only if it is not charged at the very deadline of its window |
| RateLimiter.FallbackAgreesWithRedis | app/services/auth_rate_limit.py:16-23 | off the deadlines the fallback counts and decides exactly as the Redis script, whatever the windows, and stays in step with it |
| RateLimiter.DeadlineDivides | app/services/auth_rate_limit.py:131-133 | at the deadline of a used-up window the fallback lets a request in and the script does not |
| ResetTokens.CredentialsAreSingle | app/api/auth.py:169-192 | however forgot and reset transactions interleave, fail and crash, a user never has two unused tokens and no token sets two passwords |
| ResetTokens.CommitLeaves | app/api/auth.py:169-341 | a committed issue leaves its user the new token with the expiry computed for it in place of every unused one and touches nothing else; a committed reset sets the password of the token's user, uses up all its tokens, notes the change and touches nothing else |
| ResetTokens.OthersLeaveTheDatabase | app/api/auth.py:289-322 | no other statement changes the database, save that an expired token is taken out of use |
| ResetTokens.ExpiryDecides | app/api/auth.py:310-333 | a reset with its token in hand can spend it if and only if it has not expired, and take it out of use if and only if it has |
| ResetTokens.OlderTokensAreDead | app/api/auth.py:169-192 | after a newer token or a reset no older token of the user ever sets a password again |
| ResetTokens.NoDeadlock | app/api/auth.py:289-322 | a transaction none of whose statements can go through waits for a user's lock, holding nothing, and the holder can move |
| ResetTokens.Accounts.CreateResetToken | app/api/auth.py:169-192 | afterwards the user has the new token, with its expiry, in place of every unused one; used tokens, those of others, passwords and past changes stay as they were |
| ResetTokens.Accounts.ResetPassword | app/api/auth.py:289-341 | succeeds exactly for an unused, unexpired token, then sets the password of its user and uses up all its tokens; any other call leaves passwords alone, and takes the token out of use if there is one |
| ResetTokens.IssueIsRun | app/api/auth.py:169-192 | the forgot handler left alone is a run of its transaction that ends with the database the handler promises |
| ResetTokens.ResetIsRun | app/api/auth.py:289-341 | so is the reset handler, whether it succeeds, finds the token expired, or finds none it may use |
| ResetTokens.FreshTokenWorksUntilItExpires | app/api/auth.py:169-341 | a token just issued sets the password if it is used by its expiry with nothing in between, does not after it, and is used up either way |
| ClipperReceipts.ExactlyOnce | app/models/clipper_integration.py:19-25 | for each key any number of racing, failing and repeated requests create at most one record, and all who are answered are answered the same |
| ClipperReceipts.RepeatsAreRecognised | app/api/clipper.py:363-378 | a repeat is answered from the receipt without any change, or refused if it is a different request |
| ClipperReceipts.LostAcknowledgementIsRecovered | app/api/clipper.py:497-512 | a commit that raised after all ends in the same state as one that did not |
| ClipperReceipts.LoserGetsTheWinnersAnswer | app/api/clipper.py:497-512 | the second of two racing commits is refused by the constraint and answered with the first one's response exactly if it was the same request |
| ClipperReceipts.Clipper.CreateTask | app/api/clipper.py:363-512 | reply and database for every state of the receipt and every result of the commit |
| ClipperReceipts.CreateTaskIsRun | app/api/clipper.py:363-512 | the handler left alone is a run of the protocol: a first request creates its record and is answered, even if it hears of its commit only by looking again; a repeat is answered from the receipt; a conflict or a failed commit leaves nothing |
| ToolRouter.AgentRun.CountPreviousCalls | app/services/ai_tool_router.py:524-539 | the number of traces of the same skill with the same value, or none, under tableId and under table_id |
| ToolRouter.SameCallExactlyWhen | app/services/ai_tool_router.py:524-539 | two calls count as the same if and only if the skills are equal and, for each of tableId and table_id, both carry it with equal values or neither does; no other argument matters |
| ToolRouter.AgentRun.AppendToolResult | app/services/ai_tool_router.py:541-583 | the context after one more result |
| ToolRouter.RecordedSays | app/services/ai_tool_router.py:541-583 | what one call adds to the context: the last ten results, one more to the depth, a warning ahead of the notes from the third complete result of its skill on unless one is there, itself as pending if it asks for confirmation |
| ToolRouter.AgentRun.InvokeTool | app/services/ai_tool_router.py:628-711 | refused without effect exactly if three earlier traces are of the same skill on the same table, never on a table the skill has not been used on; else one trace more, with a confirmation asked for kept pending |
| ToolRouter.AgentRun.Finish | app/services/ai_tool_router.py:1046-1050 | reports a confirmation exactly if one is pending |
| ToolRouter.CallsPerKey | app/services/ai_tool_router.py:637-646 | with calls overlapping at most so many at once, a key gets at most two traces plus that many; three one by one |
| ToolRouter.BoundIsMet | app/services/ai_tool_router.py:637-690 | for every width and call some run reaches that bound |
| ToolRouter.CallsInAll | app/services/ai_tool_router.py:637-690 | the traces of a run are bounded by that number times the distinct keys |
| ToolRouter.ContextSays | app/services/ai_tool_router.py:541-583 | over any run the context holds exactly the last ten results, counts every trace and warns once at most |
| ToolRouter.PendingSays | app/services/ai_tool_router.py:692-711 | what is pending is the last call that asked for confirmation, or what was pending before if none did |
| ToolRouter.ConfirmationIsSticky | app/services/ai_tool_router.py:692-711 | a confirmation is pending at the end exactly if one was before or some call asked for one |
| ConfirmManager.Manager.CreateConfirm | app/agent_runtime/confirm_manager.py:19-46 | a fresh pending confirm, with a timer exactly if the timeout is positive |
| ConfirmManager.Manager.Resolve | app/agent_runtime/confirm_manager.py:48-71 | decides a pending confirm, stops its timer, touches no other; anything else is refused |
| ConfirmManager.Manager.AutoTimeout | app/agent_runtime/confirm_manager.py:82-89 | times a pending confirm out, and has no effect on one answered in the meantime |
| ConfirmManager.Manager.Clear | app/agent_runtime/confirm_manager.py:76-80 | forgets all pending confirms without deciding them |
| ConfirmManager.Manager.Race | app/agent_runtime/confirm_manager.py:48-89 | under any answers and timers in any order each confirm ends as the first of them decided and leaves the pending map exactly once |
| ConfirmManager.FirstEventDecides | app/agent_runtime/confirm_manager.py:48-89 | what the first of them decides: approved or rejected as answered, timed out by a timer the confirm has; nothing after it counts |
| ConfirmManager.NoEventLeavesPending | app/agent_runtime/confirm_manager.py:48-89 | a confirm none of them concerns stays pending |

## Left out

- AttachmentValidation.StableAttachmentList: of the returned elements only id, key and whether the size parses are modelled; defaults for name, size and content type are not, because the registry's metadata replaces them.
- AttachmentWorker.Session.CleanupPendingAttachments: the error text kept on a failed row is not modelled; rows of equal creation time come in any order.
- ActionPlan.Service.Attempt: order index and creator of new rows, error texts and the order in which guards fail are not modelled; permission, access, member and dependency checks are the call's set of denied actions.
- ActionPlan.Service.CheckUpdates: a list in a single-choice field is refused; the code compares its printed form with the options.
- ActionPlan.Service.CheckCreates: as for updates.
- ActionPlan.CreateTasks: rows and counters are built as values and written back by the service, so updates in place of the session's field objects are not captured; order index and creator of a row are left out.
- ActionPlan.Preview: normalizing one draft is a parameter, an action or a refusal.
- AttachmentRestore.RestorableExactlyWhen: the link fields themselves are not modelled, only the versions of the records they are taken out of and the lists those hold; a purge blanks its record in the change sets of others, which matters only where record ids are reused.
- ChangeUndo.History.Undo: the elements of an attachment cell are their ids, because the rest of them is the registry's; order index, creator and status stamps are not modelled, nor are change sets of a purge or of entities other than records; it requires a change set to name each record once, as apply and undo write it.
- StepScheduler.Workflow.RunToCompletion: the graph library's limit on steps is not modelled; runs with failures, retries, replanning or approval are not modelled, because they depend on workflow nodes that are not part of this model.
- RateLimiter.FallbackAgreesWithRedis: compares counts and decisions; the wait Redis reports is rounded by Redis.
- ResetTokens.CredentialsAreSingle: deletion of users and password changes by other routes are not modelled.
- ClipperReceipts.ExactlyOnce: requests without an idempotency key, the fields of the created record and later deletion of the record are not modelled.
- ToolRouter.CallsInAll: counts traces; a call whose executor raises leaves none and so does not count.
- ToolRouter.AgentRun.InvokeTool: argument values are strings; the replies the language model gets are reduced to three kinds.
- ConfirmManager.Manager.Race: clearing during a race is a method of its own.
- Object-store and Redis transport, HTTP and streaming handlers, mail, sign-in tokens and password hashing.
- Prompts, planners, intent routing and everything else driven by a language model.
- Permission services, relation normalization and the workflow's node functions, beyond the contracts stated above.
- The agent runtime's executor and its state machine, whose table the executor does not follow.
- Migrations, seeds, release checks, schemas and table layouts, name and type sanitizing, localization.
