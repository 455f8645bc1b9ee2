# Verification of the memory-xx state machines

A Dafny model of the parts of memory-xx that change state, with proofs of what they keep true. memory-xx stores
memories in PostgreSQL and treats the vector store as a projection that can be rebuilt from it. Five pieces of logic
are modelled; each imperative program is a class or a method with loops, proved against a function or a reference
definition, about which the properties are then proved for all inputs, runs and interleavings.

- **The memory ledger** (`Ledger`, `LedgerStore`, `LedgerLaws`). Auto-update apply and rollback, the auto-approval
  sweep, the governance archive and tombstone loops with their provenance backfill, and the token-guarded revert rewrite
  the triple (lifecycle, review, current) of records and append outbox events and actions. Every command is one atomic
  step of a single operator; policy and planner decisions, clock readings and freeze checks are parameters. `LedgerLaws`
  says when each command takes effect and what it then does. The outbox covers the difference between ledger and
  projection (`OutboxConvergence`), status triples stay legal (`LedgerSafety`), updates undo in reverse order
  (`UpdateUndo`), every one-hour window respects the limit (`RateLimit`), and duplicate archiving keeps content
  (`DuplicateArchive`).
- **The dependency resolvers** (`DependencyGraph`, `RuntimeModules`, `RuntimeModuleProperties`, `Capabilities`). Two
  stacked in-place fixpoint loops for arbitrary registries, cycles included, proved equal to one greatest fixpoint.
- **Embedding generations** (`EmbeddingGenerations`). Prepare, generate, validate, activate and rollback over rows and
  the alias map, with a crash possible between any two effects.
- **Cooperative concurrency** (`WorkerPool`, `EmbeddingGenerate`, `EmbeddingBatches`, `Calibration`,
  `CalibrationReport`). Programs that interleave only where they await, under every interleaving.
- **The code graph** (`CodeGraph`, `CodeGraphBuild`, `CodeGraphLaws`, `CodeGraphEdges`, `CodeGraphFilter`, with
  `StableSort` and `Collections`). The collection of nodes and edges in insertion-ordered maps, call resolution, which
  edges survive, and the filter for one view.

Check it with `dafny verify dfyconfig.toml`.

## Where the code and its intention differ

The model follows the code. Each difference below is a proved statement.

- An unknown runtime dependency hides the dependencies listed after it. The search in `app/runtime-modules.ts:531-533`
  returns `undefined` for it, which line 535 reads as "nothing unavailable", so the branch at line 544 is unreachable.
  `RuntimeModuleProperties.DeclaredDependenciesHonouredIff` gives the exact condition on registry, profile and
  environment under which declared dependencies are honoured, and `UnknownNameHidesDependencies` the failing family.
  Dependencies therefore count up to the first unknown name (`EffectiveDeps`); for a registry without unknown names
  these are all of them.
- `app/governance/service.ts:152-155` skips records that are neither recallable nor archived, tombstoned or superseded,
  unless `MEMORY_XX_PROJECTION_PENDING_SKIP` is `false`. A point of such a record is then never deleted:
  `OutboxConvergence.EveryRunConvergesIff` says exactly when the projection can be rebuilt after a run, `StepStrandsIff`
  which commands break that, by a guard that can be checked beforehand, and `RevertCanStrand` gives a run that does.
  With the switch set to `false`, `EveryRunConverges` holds without conditions.
- Recall also looks at the record's recall policy (`app/shared/predicates.ts:14-28`), which an apply does not set:
  `UpdateUndo.ApplyReplaces` and `RollbackUndoesApplyIff` say when an apply really puts the candidate into recall and
  when a rollback restores the recallable set.
- `runWithConcurrency` starts no worker for a concurrency of zero or less and returns an array of holes
  (`WorkerPool.FinishedPoolIsMapIff`). Its only caller clamps the value to 1 or 2.
- A name that one file declares under two kinds counts as ambiguous for calls from other files, although both entries
  are the same symbol (`CodeGraphLaws.MergedDeclarationsAreAmbiguous`).
- A file that imports both `./chart.js` and the package `chart.js` pushes two edges with one id, and
  `app/code-graph.ts:107` keeps the first (`CodeGraphEdges.ChartLosesAnImport`). `ImportEdgesKeptIff` is the exact
  condition for import edges; call edges are never lost (`CallEdgesAreComplete`), although their ids are built the same
  way.
- `scripts/embedding-manifest.ts:313-325` sends `BEGIN`, both updates and `COMMIT` through a connection pool, one call
  each, so that they form a transaction is an assumption. `EmbeddingGenerations.RunKeepsSingleActive` keeps "at most
  one" without it; "exactly one" needs it (`LastActiveLostIff`).

## Model

| member | source | states |
|---|---|---|
| LedgerStore.MemoryStore.ApplyUpdate | scripts/memory-auto-update.ts:180-349 | each refusal in its order, and otherwise the whole new state: old record retired, candidate approved, two events, one decision |
| LedgerStore.MemoryStore.RollbackUpdate | scripts/memory-auto-update.ts:351-425 | which decisions can be rolled back and the whole new state afterwards; a refusal changes nothing |
| LedgerStore.MemoryStore.CountRecent | scripts/memory-auto-update.ts:163-173 | counts exactly the still-applied decisions of the scope since the given time |
| LedgerStore.MemoryStore.AppendArtifacts | scripts/memory-auto-update.ts:121-143 | appends one undispatched event and touches nothing else |
| LedgerStore.MemoryStore.SweepItemNow | scripts/memory-auto-approval-sweep.ts:205-292 | one planned item: guarded update, event on approval only, action in any case |
| LedgerStore.MemoryStore.SweepPending | scripts/memory-auto-approval-sweep.ts:200-293 | the loop over all planned items against the rows loaded before it |
| LedgerStore.MemoryStore.GovernTargets | scripts/memory-governance.ts:532-572 | one governance loop: frozen rows are logged as skipped, the first refusal ends the run, before-states are those of the selection |
| LedgerStore.MemoryStore.BackfillProvenance | scripts/memory-governance.ts:616-691 | the backfill over eligible rows: new update time, possibly a legacy mark, one event and one action without token for each |
| LedgerStore.MemoryStore.GovernanceApply | scripts/memory-governance.ts:437-691 | archive loop, tombstone loop unless the first one was refused, backfill unless either was |
| LedgerStore.MemoryStore.RevertAction | scripts/memory-governance-revert.ts:41-106 | each refusal in its order, and otherwise the stored before-state written back, one event, the action closed |
| LedgerLaws.ApplyTakesEffectIff | scripts/memory-auto-update.ts:180-215 | an apply changes anything exactly when scope, candidate, old record and policy are in order and, outside test scopes, fewer than max(1, limit) updates were applied in the last hour |
| LedgerLaws.ApplyRefusal | scripts/memory-auto-update.ts:181-215 | each refusal is the first check that fails |
| LedgerLaws.ApplyRetiresAndApproves | scripts/memory-auto-update.ts:237-257 | the old record ends archived exactly for a temporal expiry, else superseded; the candidate ends approved, silently, and current; nothing else changes |
| LedgerLaws.ApplyCounts | scripts/memory-auto-update.ts:293-325 | an applied update counts against its scope's limit from its commit on |
| LedgerLaws.RollbackTakesEffectIff | scripts/memory-auto-update.ts:351-379 | a rollback changes anything exactly for a decision whose two records exist, however often |
| LedgerLaws.RollbackRefusal | scripts/memory-auto-update.ts:353-379 | each refusal is the first check that fails |
| LedgerLaws.RollbackRestoresAndBuries | scripts/memory-auto-update.ts:382-415 | the old record comes back approved with its review unless that was pending, the newer one is a tombstone, the decision is reverted |
| LedgerLaws.RevertTakesEffectIff | scripts/memory-governance-revert.ts:41-64 | a revert changes anything exactly for an unreverted action with this very token, not expired, whose memory exists |
| LedgerLaws.RevertRefusal | scripts/memory-governance-revert.ts:41-64 | each refusal is the first check that fails |
| LedgerLaws.RevertWritesBack | scripts/memory-governance-revert.ts:47-63 | field by field what the action remembers, else approved, current, no review needed |
| LedgerLaws.SweepDecides | scripts/memory-auto-approval-sweep.ts:205-278 | a loaded pending candidate ends as the first effective item about it says, approved or rejected, with its policy |
| LedgerLaws.SweepLeavesOthers | scripts/memory-auto-approval-sweep.ts:205-211 | a sweep leaves every other record alone |
| LedgerLaws.SweepRecords | scripts/memory-auto-approval-sweep.ts:244-285 | one action for each effective item, one event for each that approves |
| LedgerLaws.ArchiveTakesEffectIff | app/review/services/archive-memory-service.ts:54-84 | one archive takes place exactly for an approved, current, accepted record that is not frozen, and logs its token; a frozen one is logged as skipped |
| LedgerLaws.TombstoneTakesEffectIff | app/review/services/tombstone-memory-service.ts:53-84 | one tombstone takes place exactly for a record that is none yet and not frozen, and logs its token; a frozen one is logged as skipped |
| LedgerLaws.GovernConcat | scripts/memory-governance.ts:532-614 | a loop over two lists is one loop after the other unless the first was refused |
| LedgerLaws.RefusedArchiveEndsRun | scripts/memory-governance.ts:549-572 | a refused first archive ends the run before anything happens |
| LedgerLaws.RefusedTombstoneEndsRun | scripts/memory-governance.ts:591-614 | a refused first tombstone ends the run before the backfill |
| LedgerLaws.BackfillFills | scripts/memory-governance.ts:618-688 | an eligible row gets a new update time and keeps or gains a legacy mark, with one event and one tokenless action; nothing else changes |
| LedgerLaws.UpsertIffRecallable | app/shared/predicates.ts:14-28 | the projector's own test and the recall predicate agree |
| LedgerLaws.DispatchedIffEmbedded | app/qdrant-sync/outbox-worker.ts:694-765 | an event stays pending exactly while a recallable record it mentions has no embedding, and what becomes of each point |
| LedgerLaws.StepStamps | scripts/memory-auto-update.ts:135-141 | every command stamps the records it changes, and its events mention the record they are about |
| OutboxConvergence.ApplyAnnounces | scripts/memory-auto-update.ts:258-290 | an apply mentions both records it changes in new pending events |
| OutboxConvergence.RollbackAnnounces | scripts/memory-auto-update.ts:395-408 | a rollback mentions both records it changes |
| OutboxConvergence.RevertAnnounces | scripts/memory-governance-revert.ts:84-89 | a revert mentions the record it changes |
| OutboxConvergence.SweepAnnounces | scripts/memory-auto-approval-sweep.ts:230-291 | a sweep mentions every record whose projection operation changes, although rejections emit nothing |
| OutboxConvergence.GovernAnnounces | scripts/memory-governance.ts:549-571 | a governance loop mentions every record whose projection operation changes, even when it is refused half-way |
| OutboxConvergence.StepAnnounces | scripts/memory-auto-update.ts:121-143 | every ledger command leaves the projection alone and announces each record whose projection operation changes |
| OutboxConvergence.SyncKeepsConverging | app/qdrant-sync/projector.ts:420-513 | synchronising any ids, embeddings missing or not, keeps the outbox sufficient |
| OutboxConvergence.DrainKeepsConverging | app/qdrant-sync/outbox-worker.ts:677-806 | dispatching an event keeps the outbox sufficient, stranded points aside, from every state and with either setting of the switch |
| OutboxConvergence.RunKeepsConverging | README.md:71 | over every run, with no condition on it, each id is in a pending event, or in the projection exactly when recallable, or (switch on) stranded |
| OutboxConvergence.ReplayConvergesIff | scripts/fix-qdrant-replay.ts:39-47 | replaying the pending ids in any order with repeats makes the projection the recallable set exactly when no point is stranded |
| OutboxConvergence.ReplayMember | app/governance/service.ts:122-156 | what a replay leaves for one id, from the record's current state alone |
| OutboxConvergence.EveryRunConvergesIff | scripts/fix-qdrant-replay.ts:39-47 | after every run, replaying the pending ids makes the projection the recallable set, with the switch on exactly when the state reached has no stranded point |
| OutboxConvergence.EveryRunConverges | README.md:71 | with the skip switch off, the projection can be rebuilt after every run, unconditionally |
| OutboxConvergence.NothingPendingIff | README.md:71 | with no event left to dispatch the projection is the recallable set, with the switch on exactly when no point is stranded |
| OutboxConvergence.WorkerConvergesIff | app/qdrant-sync/outbox-worker.ts:677-806 | a worker that dispatches every pending event, in any order and with embeddings at hand, reaches the recallable set, with the switch on exactly when no point was stranded before |
| OutboxConvergence.StepStrandsIff | app/governance/service.ts:152-155 | with the switch on, a command strands the first point exactly when a guard on records, decision or action holds beforehand; only apply, rollback and revert ever can |
| OutboxConvergence.GuardedRunConverges | app/governance/service.ts:152-155 | with the switch on, a run whose commands each check that guard converges |
| OutboxConvergence.RevertCanStrand | app/governance/service.ts:152-155 | a concrete run after which, with the switch on, no replay of the pending ids makes the projection the recallable set |
| LedgerSafety.StepKeepsSafe | scripts/check-db-invariants.ts:138-149 | every command keeps "retired means not current" and "approved means not pending", and safe stored before-states |
| LedgerSafety.RunKeepsSafe | scripts/check-db-invariants.ts:138-149 | the same over every run |
| LedgerSafety.GovernKeepsSafe | scripts/memory-governance.ts:549-571 | before-states read at the start of a run are safe to restore later |
| LedgerSafety.RevertRestoresSelection | scripts/memory-governance-revert.ts:41-105 | after any governance run, finished or refused half-way, the token of each archive or tombstone is good for exactly a week, for one use, and gives its record back the status it had at selection |
| LedgerSafety.RevertingAllRestores | scripts/memory-governance-revert.ts:41-105 | reverting all actions of a run within the week, in any order, restores every status triple and the recallable set |
| LedgerSafety.ArchiveThenRevertRestores | scripts/memory-governance-revert.ts:41-105 | the case of one archive, reverted at once |
| LedgerSafety.RevertedForever | scripts/memory-governance-revert.ts:43 | a reverted action stays reverted over every run |
| LedgerSafety.ActionsOnlyGrow | scripts/memory-auto-update.ts:410-415 | actions are never removed and change only by being reverted |
| UpdateUndo.ApplyReplaces | scripts/memory-auto-update.ts:235-257 | an apply replaces exactly the old record by the candidate in the recallable set, and no other record changes |
| UpdateUndo.RollbackUndoesApplyIff | scripts/memory-auto-update.ts:380-394 | exactly when an immediate rollback restores the recallable set, also for a candidate that names itself as the record to replace |
| UpdateUndo.RollbackClosesApply | scripts/memory-auto-update.ts:351-425 | a rollback undoes its apply once everything on top of it is undone |
| UpdateUndo.LifoUndoRestores | scripts/memory-auto-update.ts:235-415 | any chain of applies, rolled back in reverse order, restores the original recallable set |
| RateLimit.WindowAroundApply | scripts/memory-auto-update.ts:163-176 | a new action and its window neighbours lie in the hour the check counted |
| RateLimit.ApplyKeepsLimit | scripts/memory-auto-update.ts:158-178 | a permitted apply fills no one-hour window beyond the limit |
| RateLimit.StepKeepsLimit | scripts/memory-auto-update.ts:158-178 | every command keeps every window within the limit |
| RateLimit.EveryWindowWithinLimit | scripts/memory-auto-update.ts:158-178 | over every sequential run, from a start within the limit, every one-hour window holds at most max(1, limit) applied actions, rollbacks interleaved at will |
| DuplicateArchive.PrecedesIsStrictTotal | scripts/memory-governance.ts:458-466 | the window order ranks any two records of a cluster, one strictly before the other |
| DuplicateArchive.ClusterHasWinner | scripts/memory-governance.ts:475-477 | every cluster has a record that is not a loser |
| DuplicateArchive.SurvivorIsPreferred | scripts/memory-governance.ts:460-465 | the survivor is legacy only among legacy ones, has an episode if one has, then is strongest, latest, smallest by id |
| DuplicateArchive.ArchivingLosersKeepsContent | scripts/memory-governance.ts:478-691 | archiving any selection of losers, and the backfill after it, keep the set of distinct content keys |
| DuplicateArchive.LosersCount | scripts/memory-governance.ts:467-477 | losers plus distinct keys are the eligible records, whatever the order within the clusters |
| DuplicateArchive.BackfillKeepsClusters | scripts/memory-governance.ts:616-654 | the backfill changes the order within clusters but no cluster |
| DuplicateArchive.RunRemovesLosers | scripts/memory-governance.ts:532-691 | an unfrozen archive loop removes exactly its targets from the losers, and the run leaves losers - min(limit, losers) |
| DuplicateArchive.RunsLeaveOneSurvivor | scripts/memory-governance.ts:444-691 | enough runs, each at its own time and with its own backfill, leave exactly one record in every cluster and lose no key |
| DependencyGraph.AliveIffReachableOk | app/runtime-modules.ts:524-548 | membership in the greatest supported set is being self-enabled together with everything reachable |
| RuntimeModules.SelfState | app/runtime-modules.ts:562-607 | a module's own verdict blocks the profile exactly when it is required and missing something |
| RuntimeModules.FirstUnavailable | app/runtime-modules.ts:531-535 | nothing is found exactly when all dependencies before the first unknown name are enabled |
| RuntimeModules.FoundIsFirst | app/runtime-modules.ts:531-533 | what is found is the first dependency that is not enabled |
| RuntimeModules.SwitchOffRound | app/runtime-modules.ts:527-547 | one pass keeps every supported set enabled and shrinks the enabled set whenever it reports a change |
| RuntimeModules.SwitchOffUnsupported | app/runtime-modules.ts:524-548 | the loop ends with the greatest supported set, in at most self-enabled count + 1 passes, or 2 if dependencies are listed first |
| RuntimeModules.ResolveRuntimeModuleStates | app/runtime-modules.ts:516-551 | enabled is membership in the greatest fixpoint; every other entry names a failed declared dependency or its own failure; pass bound |
| RuntimeModules.HopsAreUnique | app/runtime-modules.ts:537-545 | following reasons never cycles |
| RuntimeModuleProperties.EnabledIffAllReachableSelfEnabled | app/runtime-modules.ts:516-551 | a module is enabled exactly when it and all modules reachable from it are self-enabled |
| RuntimeModuleProperties.OrderIsIrrelevant | app/runtime-modules.ts:520-550 | resolved tables of one registry in two orders agree on state, enabled and blocks-profile of every module; reasons may name different failed dependencies |
| RuntimeModuleProperties.DeclaredDependenciesHonouredIff | app/runtime-modules.ts:531-544 | enabled modules have all declared dependencies enabled exactly when every module declaring an unknown name reaches one that is not self-enabled |
| RuntimeModuleProperties.UnknownNameHidesDependencies | app/runtime-modules.ts:531-535 | with an unknown name in front a self-enabled module stays enabled whatever its other dependencies do |
| RuntimeModuleProperties.ClosedDepsAreEffective | app/runtime-modules.ts:531-535 | all dependencies take effect exactly when all are known |
| RuntimeModuleProperties.TableFollowsEnvironment | app/runtime-modules.ts:562-670 | in a resolved table an explicit no disables and an explicit yes never leaves disabled, else profile and default decide; a missing source or health address is reported as such |
| RuntimeModuleProperties.LargerProfileSelfEnables | app/runtime-modules.ts:657-662 | a larger profile keeps a module self-enabled |
| RuntimeModuleProperties.LargerProfileKeepsEnabled | app/runtime-profiles.ts:29-37 | a larger profile never switches a module off |
| Capabilities.FirstBlocked | app/full-stack-capabilities.ts:436-444 | nothing is found exactly when every dependency name stands for something enabled |
| Capabilities.BlockedIsFirst | app/full-stack-capabilities.ts:436-444 | what is found is the first dependency that is not enabled |
| Capabilities.BlockRound | app/full-stack-capabilities.ts:432-453 | one pass keeps every supported set of the merged graph and shrinks the enabled set whenever it reports a change |
| Capabilities.BlockUnsupported | app/full-stack-capabilities.ts:429-454 | on top of a finished runtime layer the loop ends with the greatest fixpoint of the merged graph |
| Capabilities.StackedStates | app/full-stack-capabilities.ts:429-454 | a settled capability layer and the runtime layer together are that fixpoint |
| Capabilities.RootCauseHopsAreUnique | app/full-stack-capabilities.ts:447-451 | reasons never cycle, from a capability down to the runtime module that fails on its own account |
| Capabilities.BuildFullStackCapabilitySnapshot | app/full-stack-capabilities.ts:404-483 | both layers end as one greatest fixpoint of the merged graph; the operator's yes and no are obeyed and the default decides otherwise; every blocked entry names a blocked declared dependency, and following reasons, through the runtime layer too, reaches something that fails on its own account; the three lists hold exactly what they should, in registry order |
| EmbeddingGenerations.EmbeddingManifest.UpsertManifest | scripts/embedding-manifest.ts:173-199 | insert or update, keeping an active row active |
| EmbeddingGenerations.EmbeddingManifest.FinishGeneration | scripts/generate-local-memory-embeddings.ts:495-503 | failed exactly with errors, validated exactly without and with verified payloads, else generated; an active row stays active, and no other becomes so |
| EmbeddingGenerations.EmbeddingManifest.ValidateManifest | scripts/embedding-manifest.ts:239-303 | the verdict, and a status change only for a passing row that is not active |
| EmbeddingGenerations.EmbeddingManifest.SwitchAlias | scripts/embedding-manifest.ts:219-237 | the alias leads to the collection, others stay |
| EmbeddingGenerations.EmbeddingManifest.ActivateManifest | scripts/embedding-manifest.ts:305-329 | the state after each possible end: refused, stopped before or after the alias switch, stopped between the updates, committed |
| EmbeddingGenerations.EmbeddingManifest.Rollback | scripts/embedding-manifest.ts:556-573 | activates the wanted or picked row; on success one generation is active and its alias agrees |
| EmbeddingGenerations.ActiveAfterStep | scripts/embedding-manifest.ts:313-325 | only a completed activation changes which rows are active |
| EmbeddingGenerations.MidTransactionAtMostOne | scripts/embedding-manifest.ts:315-324 | between the two statements no other row is active |
| EmbeddingGenerations.RunKeepsSingleActive | scripts/embedding-manifest.ts:284-329 | at most one active generation over every run, wherever an activation stops, between its two updates included; with atomic transactions, once one is active exactly one always is |
| EmbeddingGenerations.LastActiveLostIff | scripts/embedding-manifest.ts:313-325 | a step leaves no active generation exactly when the activation of another one stops with only its first update in force |
| EmbeddingGenerations.CompletedActivationAgrees | scripts/embedding-manifest.ts:305-329 | a completed activation makes alias and active generation agree from any state |
| EmbeddingGenerations.AgreementLostIffMisaligned | scripts/embedding-manifest.ts:180-198 | agreement is lost exactly by a crash after switching a shared alias elsewhere, or by re-preparing the active row with a target its alias does not lead to |
| EmbeddingGenerations.InterruptedSwitch | scripts/embedding-manifest.ts:312-313 | stopping after the alias switch leaves the old generation active, and the alias agreeing only if the target is the same |
| EmbeddingGenerations.InterruptedSwitchRecovers | scripts/embedding-manifest.ts:305-329 | after an interrupted switch over one alias, completing either side restores agreement; completing the old one restores the alias map |
| EmbeddingGenerations.FailedValidationChangesNothing | scripts/embedding-manifest.ts:307-310 | a failed validation changes no status and no alias |
| EmbeddingGenerations.PassedValidation | scripts/embedding-manifest.ts:284-300 | a passing validation moves an inactive row to validated and leaves an active one active |
| EmbeddingGenerations.UpsertSets | scripts/embedding-manifest.ts:180-198 | an upsert keeps an active row active, gives any other the status asked for, and keeps the time it was retired |
| EmbeddingGenerations.ActivationRetires | scripts/embedding-manifest.ts:315-324 | a completed activation retires the active row at the commit and forgets when the new one had been retired |
| EmbeddingGenerations.PickedIsLatest | scripts/embedding-manifest.ts:561-568 | the rollback query returns the row retired last, and only if none was, the one updated last |
| EmbeddingGenerations.RollbackPicksReplaced | scripts/embedding-manifest.ts:561-568 | right after an activation the rollback query can only return the replaced generation |
| EmbeddingGenerations.RollbackToggles | scripts/embedding-manifest.ts:556-573 | two rollbacks after an activation reactivate the old and then the new generation |
| WorkerPool.CompleteIsValid | scripts/generate-local-memory-embeddings.ts:350-356 | each completion, whichever worker it is, keeps claims in order, once each, and held by at most one worker |
| WorkerPool.PlayKeepsValid | scripts/generate-local-memory-embeddings.ts:343-360 | the same over every interleaving, with one stored result per step |
| WorkerPool.EveryScheduleClaimsOnce | scripts/generate-local-memory-embeddings.ts:343-360 | min(concurrency, n) workers, each index claimed once, and a stop exactly after n steps |
| WorkerPool.FinishedPoolIsMapIff | scripts/generate-local-memory-embeddings.ts:358-359 | a finished pool holds the sequential map exactly when it had a worker or nothing to do |
| WorkerPool.RunWithConcurrency | scripts/generate-local-memory-embeddings.ts:343-360 | the sequential map for every choice of the next worker |
| EmbeddingGenerate.BumpKeepsCounted | scripts/generate-local-memory-embeddings.ts:380-404 | counters bumped in any order of arrival agree with the stored results |
| EmbeddingGenerate.RunBatch | scripts/generate-local-memory-embeddings.ts:374-405 | a batch's results are in record order and its counters add up, in any order of arrival |
| EmbeddingGenerate.NonNullIsPoints | scripts/generate-local-memory-embeddings.ts:406 | dropping the failures of a batch leaves its points in record order |
| EmbeddingBatches.FirstRefusedIs | scripts/generate-local-memory-embeddings.ts:373-407 | batches of the batch size follow each other without gap, and the run stops at the first one the store refuses, and only there |
| EmbeddingGenerate.Generate | scripts/generate-local-memory-embeddings.ts:362-411 | processed + errors = records, points = processed = latencies, points as in a sequential pass, for every batch size; if the store refuses a batch there is no report and exactly the points before it were upserted |
| Calibration.StepKeepsPaced | scripts/embedding-calibration.ts:176-191 | every event keeps at most `concurrency` probes in flight and the reason for stopping |
| Calibration.StepKeepsTallied | scripts/embedding-calibration.ts:153-174 | every event keeps each counter equal to what the answers so far amount to |
| Calibration.StepKeepsArrived | scripts/embedding-calibration.ts:187-191 | every launched probe is waited for or was answered exactly once |
| Calibration.StopsIffJustLimitedTwice | scripts/embedding-calibration.ts:179-183 | when the pacing timer fires with requests left, the cell stops exactly after two limited answers in a row, and launches nothing more |
| Calibration.StepKeepsBraked | scripts/embedding-calibration.ts:179-191 | while all answers are limited, at most two launches follow those that fill the slots |
| Calibration.StepLowersRank | scripts/embedding-calibration.ts:176-194 | every event brings the cell closer to its end |
| Calibration.StuckIff | scripts/embedding-calibration.ts:184-186 | a cell stands still exactly when done, or waiting for a slot it does not have |
| Calibration.EveryInterleavingIsPaced | scripts/embedding-calibration.ts:130-194 | in every reachable state slots are respected and the counts agree; every interleaving is finite |
| CalibrationReport.RunCell | scripts/embedding-calibration.ts:130-213 | each launch answered once; failed = sum of errors = attempted - success, at least 429s + 503s, each error key counting the failures it names; percentiles of all latencies; rates; stopped early exactly when attempted < requests, after two limited answers in a row; at most concurrency + 2 attempts if every probe is limited |
| CalibrationReport.PerSecond | scripts/embedding-calibration.ts:198-209 | a rate times the elapsed seconds is the count, and very short cells count as a millisecond |
| CalibrationReport.PercentileIsNearestRank | scripts/embedding-calibration.ts:65-70 | a percentile is a value with at least p percent at or below it and fewer than p percent below it |
| CalibrationReport.RecommendsBestStable | scripts/embedding-calibration.ts:231-242 | when a stable cell exists, a best stable one is recommended, the earliest among equals |
| CalibrationReport.RecommendsLeastBad | scripts/embedding-calibration.ts:243-245 | otherwise an unlimited cell with fewest failures, otherwise a least limited one; nothing only for no cells |
| CalibrationReport.RecommendedCellSucceeded | scripts/embedding-calibration.ts:231-245 | for cells that were run, when one sent all requests without a failure, the recommended one is such a cell, none of them is faster, then lower in p95, then shorter in interval, and it was never stopped early |
| CalibrationReport.StableNeverStoppedEarly | scripts/embedding-calibration.ts:232-237 | a stable report was not stopped early and had no error |
| CalibrationReport.RecommendIn | scripts/embedding-calibration.ts:231-245 | the recommendation, and that only the last fallback reorders the caller's list |
| CodeGraph.PushNodesCollects | app/code-graph.ts:100-103 | distinct ids in order of first push, each with its first push of highest score |
| CodeGraph.PushEdgesCollects | app/code-graph.ts:105-108 | exactly the first push of each id that is not a self-loop |
| CodeGraphBuild.GraphBuilder.AddNode | app/code-graph.ts:100-103 | one node push on the insertion-ordered map |
| CodeGraphBuild.GraphBuilder.AddEdge | app/code-graph.ts:105-108 | one edge push on the insertion-ordered map |
| CodeGraphBuild.GraphBuilder.AddDeclarations | app/code-graph.ts:172-204 | pushes each (kind, name) once and enters it in the symbol table |
| CodeGraphBuild.GraphBuilder.AddImports | app/code-graph.ts:257-291 | a resolved specifier becomes a file edge, any other an external node and edge |
| CodeGraphBuild.GraphBuilder.AddCalls | app/code-graph.ts:310-324 | an edge for every call that resolves, none for the others |
| CodeGraphBuild.GraphBuilder.Build | app/code-graph.ts:327-387 | the three passes leave exactly what the files' pushes collect to |
| CodeGraphLaws.BuiltNodesAreBest | app/code-graph.ts:100-103 | each node of a built graph is the first highest-scored push of its id, and no pushed id is missing |
| CodeGraphLaws.BuiltIdsAreUnique | app/code-graph.ts:386-387 | no id occurs twice in a built graph |
| CodeGraphLaws.EdgesJoinNodes | app/code-graph.ts:347-387 | every edge of a built graph joins two distinct nodes of it |
| CodeGraphLaws.ResolvedIsFile | app/code-graph.ts:233-243 | a specifier resolves to its first candidate that is listed, or none is |
| CodeGraphLaws.TableListsEntries | app/code-graph.ts:200-202 | the symbol table lists one entry per file and kind declaring a name |
| CodeGraphLaws.PrefixIsOwnFile | app/code-graph.ts:313 | for paths without `#` the prefix test singles out the file's own symbols |
| CodeGraphLaws.CallResolution | app/code-graph.ts:310-315 | own symbol if the file declares the name, else the only entry, else nothing |
| CodeGraphLaws.MergedDeclarationsAreAmbiguous | app/code-graph.ts:314 | two kinds of one name in one file leave calls from other files unresolved |
| CodeGraphEdges.CallEdgesAreSound | app/code-graph.ts:310-324 | every call edge of a built graph has the target that call resolution demands |
| CodeGraphEdges.ResolvedCallsApart | app/code-graph.ts:316-317 | two resolved calls with one edge id are one edge, for any paths without `#` |
| CodeGraphEdges.CallEdgesAreComplete | app/code-graph.ts:310-324 | the very edge of every call that resolves is in the graph |
| CodeGraphEdges.ContainsEdgesKept | app/code-graph.ts:366-373 | every file has its containment edge |
| CodeGraphEdges.DeclaresEdgesKept | app/code-graph.ts:192-199 | every declared name has its edge, for paths without `:` |
| CodeGraphEdges.ImportEdgesKeptIff | app/code-graph.ts:261-290 | for paths without `:`, every import but a file's import of itself has its edge exactly when no file imports another file and a package of the same name |
| CodeGraphEdges.ClashLosesOne | app/code-graph.ts:107 | such a pair of imports loses one edge |
| CodeGraphEdges.ChartLosesAnImport | app/code-graph.ts:261-290 | a concrete pair of files that loses one |
| CodeGraphLaws.SymbolScore | app/code-graph.ts:180-191 | a symbol node scores 72 exactly when its file declares the name as a class |
| CodeGraphLaws.FileNodeIs | app/code-graph.ts:353-365 | a file node scores 77 less 3 per directory above it, at least 30, and is labelled with the last part of its path |
| CodeGraphLaws.RootAndPackageScores | app/code-graph.ts:338-345 | the repository scores 100, a package 26 |
| CodeGraphLaws.FilesAndSymbolsShown | app/code-graph.ts:338-374 | the root, every file and every declared name has its node |
| CodeGraphLaws.PackageShownIff | app/code-graph.ts:272-281 | a package has a node exactly when a file imports it and none of its candidate paths is listed |
| CodeGraphEdges.EdgesByKind | app/code-graph.ts:192-291 | what an edge joins and its weight go by its kind |
| CodeGraphFilter.FilterCodeGraph | app/code-graph.ts:422-474 | the loops, with the early stop, compute the specified nodes and edges |
| CodeGraphFilter.FilterStaysInside | app/code-graph.ts:452-461 | for any query: nodes of the graph, sorted, within the limit; edges between kept nodes, sorted, within the edge limit |
| CodeGraphFilter.LimitsAre | app/code-graph.ts:423-424 | the defaults and bounds of both limits |
| CodeGraphFilter.EdgeMissingOnlyWhenFull | app/code-graph.ts:458-461 | an edge between kept nodes is missing only when `edgeLimit` edges of at least its weight are kept |
| CodeGraphFilter.NeighbourMissingOnlyWhenFull | app/code-graph.ts:444-456 | a neighbour of a match is missing only from a full view |
| CodeGraphFilter.OnlyNeighboursShown | app/code-graph.ts:444-456 | a view for a query shows nothing but matches and their neighbours |
| CodeGraphFilter.SmallNeighbourhoodIsTopK | app/code-graph.ts:444-456 | with fewer than twice `limit` matches and neighbours, the view is the best of them |
| CodeGraphFilter.ExpandStops | app/code-graph.ts:449 | expansion stops with the edge that makes it enough |
| CodeGraphFilter.MatchMissingOnlyWhenFull | app/code-graph.ts:430-456 | a matching node is missing only when `limit` nodes of at least its score are kept |
| CodeGraphFilter.EmptyQueryIsTopK | app/code-graph.ts:437-456 | without a query the kept nodes are the first `limit` in stable score order; expansion and early stop never matter |
| CodeGraphFilter.EmptyQueryFilterIsIdempotent | app/code-graph.ts:422-461 | filtering again with the same options changes neither nodes nor edges |
| CodeGraphFilter.BuiltGraphTopK | app/code-graph.ts:327-461 | both hold for every built graph |
| StableSort.SortIsStable | app/code-graph.ts:438 | ties keep their order |
| StableSort.SortSorts | app/code-graph.ts:455 | the result is sorted and a permutation |
| Collections.FilterMembers | app/code-graph.ts:458-459 | filtering keeps exactly the elements that pass |

## Left out

- I/O: HTTP, PostgreSQL, Redis, the vector store and files appear only as abstract state, and their failures only where
  they change it (a refused service call, a crash in an activation, a missing embedding).
- Several operators at once: the checks at scripts/memory-auto-update.ts:184-215 run outside the transaction, so two
  concurrent applies are a different claim.
- Policy scoring, pollution scoring and the pending-closure planner: their verdicts are parameters. The lookup of a
  candidate without an explicit id is a parameter too.
- Memory events, cache invalidation requests, evidence and metadata of records and actions, and the audit row of a
  failed rollback: nothing modelled reads them. Of the backfill, the update time and the legacy mark are modelled.
- Retry, lease, cursor and dead-letter handling of the outbox worker, and the read-back check of the projector.
- A revert of an action that names no memory: every modelled action names one.
- scripts/memory-consolidate.ts: it archives without outbox events and is blocked by default.
- Dry runs, reports, gates and command-line parsing; the text of environment variables (a value is yes, no, blank or
  other) and the parsing of the profile name.
- EmbeddingGenerations.EmbeddingManifest.UpsertManifest: does not model counts, metadata, `activated_at` and `failed_at`;
  no rule reads them.
- The payload of a generated point, taken over from the existing point or a fallback: points are opaque values.
- CalibrationReport.PercentileIsNearestRank: computes the rank with exact integers, where the source multiplies
  floating-point numbers; rates are exact reals.
- Calibration.EveryInterleavingIsPaced: time passes only as "the pacing timer fires"; intervals and cooldown are not
  measured.
- Regular expressions that extract declarations, imports and calls, path normalisation, and the searchable text of a
  node: the facts per file and the outcome of the text match are parameters.
- Summaries and metadata of the code graph, and the directory walk that lists the files.
- The shipped tables of modules and capabilities: the resolvers are modelled for arbitrary ones.
