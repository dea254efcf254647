# OpenSpine kernel: a verified model

OpenSpine's kernel decides what an agent may do, keeps counterparties' data encrypted under
keys it can destroy, and keeps learned artifacts consistent with what they refer to. This
project models its four hardest parts and proves what they are for, over every input, every
run or every reachable state.

**Overlay convergence** (`OverlayRegistry`, `OverlayConvergence`, `OverlayTheorems`,
`OverlayReports`, `OverlayMeaning`). Two passes shrink a registry until neither finds anything: one removes
learned routes and workflows whose references dangle, the other invalidates owner-accepted
artifacts whose captured bytes changed or that dangle beyond what the owner accepted. Each
pass creates work for the other. The nested loops are methods over a mutable registry; they
are proved equal to a specification for which the fixed-point theorems hold: both passes are
satisfied by one final registry, that registry is the greatest consistent one, the result
does not depend on input order, and a rerun does nothing. `OverlayMeaning` says what consistent
means in terms of registry entries and references alone.

**Storage and crypto-erasure** (`Files`, `StorageInvariant`, `KeyRing`, `BlobStore`,
`Migration`, `Ledger`, `Erasure`, `StorageRuns`). A disk is its current files together with,
for each path, every content a crash could leave there. Each file operation works, fails, or is
where the process dies, as an arbitrary plan says. The key ring, the blob store, the legacy migration
and the two-section erasure are classes whose methods are proved against relations that hold
whatever fails; `StorageRuns` puts those relations into one transition system with process
stops, power loss, boots, backups and restores of an older data root. Encryption is symbolic
(opening under another key, nonce or header yields nothing) and the digest is injective.

**Connector admission** (`RateLimit`, `CircuitBreakers`, `Connector`, `WebhookMessages`,
`Webhook`, `WebhookForms`, `WebhookRuns`). A token bucket, a circuit breaker with a sliding
failure window, and epoch-stamped permits with a drop handler behind one lock; then signed
webhooks with a bounded replay cache. Times are integer nanoseconds.

**Authority** (`CanonicalLists`, `GrantChain`, `Gate`, `WorkerGrant`, `Delegation`,
`ChainIntegrity`, `Compose`, `ComposeTheorems`, `AuthorityTheorems`, `Equivalence`). Composition of five sources,
minting of attenuated worker grants along a MAC-folded chain, and the gate. The MAC is an
arbitrary function; where a result needs the absence of collisions it says so for exactly the
calls involved. The canonical JSON that is hashed is modelled by its content, with lists
sorted.

`Orders` holds total orders, sorting and filter-map, on which all canonical forms rest;
`ByteStrings` holds bytes and hexadecimal text.

Where code and documentation differ, the model follows the code:

* The bound on admissions is false for a zero refill interval with room for two or more permits
  (`RateLimit.ZeroIntervalLeaks`): the last refill then never advances. It holds exactly for the
  other configurations (`RateLimit.BoundExactly`), and so does conservation
  (`RateLimit.ConservesExactly`).
* The retry hint is exact only when the clock has not gone behind the last refill
  (`RateLimit.RetryHintExact`).
* Under failure times that may go backwards the breaker agrees with its history exactly for
  thresholds up to two (`CircuitBreakers.AnyClockExactly`); for every larger threshold and every
  window a run opens early. For non-decreasing times it agrees for all thresholds.
* A first recording that returned Ok is final (`StorageRuns.ErasureIsPermanent`), but being in
  the terminal ledger is not enough for a refusal. The ledger's rename can take effect while its
  directory sync fails; the call then returns before the closure in memory
  (`StorageRuns.FailedSyncStaysOpen`), and a retry is acknowledged without a sync
  (`StorageRuns.UnsettledIsForgotten`). `StorageRuns.ClosedExactly` and
  `StorageRuns.AnswersExactly` give the exact condition.
* `Path::exists` and `Path::is_file` answer false on an I/O error. A put that did not see the blob
  it writes over loses no content; it leaves that one blob without its marker exactly if it
  replaced an unmarked format-2 entry and failed after the rename (`BlobStore.WriteMarksExactly`,
  `BlobStore.BlindPut`).
  The migration skips a source it did not see, and a second run counts exactly those
  (`Migration.SecondRunExactly`).
* The legacy webhook message can equal a route-bound one (`WebhookMessages.LegacyIsBoundExactly`);
  the bound route accepts exactly such legacy signatures (`WebhookRuns.LegacyRetargetsExactly`).

## Model

| member | source | states |
|---|---|---|
| `OverlayRegistry.ArtifactRegistry.ExcludeOrphans` | crates/openspine-kernel/src/overlay_compat.rs:242-325 | exactly the entries whose (kind, id, version) is listed disappear; another version under the same id stays |
| `OverlayRegistry.DanglingAntitone` | crates/openspine-kernel/src/overlay_compat.rs:77-131 | removing registry entries never repairs a reference |
| `OverlayRegistry.NewlyDanglingAntitone` | crates/openspine-kernel/src/overlay_compat.rs:133-155 | the same for what an owner-accepted artifact misses now, missing and unparsable sources included |
| `OverlayRegistry.DanglingExactly` | crates/openspine-kernel/src/overlay_compat.rs:77-131 | the strings listed as dangling are exactly those of the references the body carries whose target is not active under its own kind |
| `OverlayMeaning.NewlyDanglingExactly` | crates/openspine-kernel/src/overlay_compat.rs:133-155 | what the owner-accepted check lists: the missing source, the failed parse by kind, or exactly the missing references |
| `OverlayConvergence.EvaluateCompatibility` | crates/openspine-kernel/src/overlay_convergence.rs:109-169 | the ordinary loop ends and leaves the registry and list that its specification determines |
| `OverlayConvergence.PushNew` | crates/openspine-kernel/src/overlay_convergence.rs:94-102 | later rounds add only orphans whose identity is not yet reported |
| `OverlayConvergence.EvaluateCapturedDependencies` | crates/openspine-kernel/src/overlay_convergence.rs:27-107 | the two nested loops end, with the registry and both lists of `Evaluate`, for which the theorems below hold |
| `OverlayTheorems.EvaluateOrdinaryFacts` | crates/openspine-kernel/src/overlay_convergence.rs:109-169 | after the ordinary pass no pending and no dangling learned artifact is left, and what was removed is exactly what is reported |
| `OverlayTheorems.EvaluateOrdinarySpares` | crates/openspine-kernel/src/overlay_convergence.rs:109-169 | every sub-registry that meets those conditions survives the ordinary pass |
| `OverlayTheorems.JointFixedPoint` | crates/openspine-kernel/src/overlay_convergence.rs:27-107 | against one final registry both passes are satisfied: ordinary artifacts have all references active, owner-accepted rows not reported invalid have the reviewed bytes and only accepted missing references |
| `OverlayTheorems.Maximality` | crates/openspine-kernel/src/overlay_convergence.rs:34-103 | every consistent sub-registry of the input is contained in the final registry |
| `OverlayMeaning.InOrderExactly` | crates/openspine-kernel/src/overlay_convergence.rs:27-107 | the conditions of the passes mean that every row is in order with its entry, said of entries and references alone: nothing pending is active, ordinary routes and workflows have everything they refer to, owner-accepted artifacts have the reviewed bytes and lack only what was accepted |
| `OverlayMeaning.GreatestInOrder` | crates/openspine-kernel/src/overlay_convergence.rs:27-107 | the final registry is the greatest sub-registry in which every row is in order |
| `OverlayMeaning.ReferencesActive` | crates/openspine-kernel/src/overlay_compat.rs:158-239 | every agent, workflow and pack that a still active ordinary route or workflow names is active in the final registry |
| `OverlayTheorems.Accounting` | crates/openspine-kernel/src/overlay_convergence.rs:34-106 | an entry disappears if and only if it is reported; a base identity never does |
| `OverlayTheorems.Rerun` | crates/openspine-kernel/src/overlay_convergence.rs:27-107 | running again with the returned invalid list removes nothing and reports nothing new |
| `OverlayTheorems.CanonicalPermuted` | crates/openspine-kernel/src/overlay_convergence.rs:171-184 | the canonical form of a report does not depend on the order of discovery |
| `OverlayTheorems.OrderIndependence` | crates/openspine-kernel/src/overlay_convergence.rs:94-106 | permuting learned rows or prior invalidations, duplicates included, changes neither registry nor lists |
| `OverlayTheorems.RegistryDependsOnRowSet` | crates/openspine-kernel/src/overlay_convergence.rs:27-107 | the registry depends on the rows as a set only |
| `OverlayReports.ReportsAreTrue` | crates/openspine-kernel/src/overlay_convergence.rs:59-106 | every returned fact is true of the final registry, although facts are found over several rounds, and leaves out nothing that was missing from the start |
| `OverlayMeaning.ReportsInOrder` | crates/openspine-kernel/src/overlay_convergence.rs:171-184 | both lists come by kind, id and version, with the references of each fact sorted |
| `KeyRing.CounterpartyKeyRing.CloseScopeInMemory` | crates/openspine-kernel/src/counterparty_keys.rs:299-304 | exactly this scope is added to the closed ones |
| `KeyRing.CounterpartyKeyRing.MarkKeyPending` | crates/openspine-kernel/src/counterparty_keys/recovery.rs:93-120 | touches the marker only; success means it is present and no crash can take it away |
| `KeyRing.CounterpartyKeyRing.ClearKeyPending` | crates/openspine-kernel/src/counterparty_keys/recovery.rs:122-157 | touches the marker only; success means no crash brings it back; after a failed directory sync it is durably planted again unless a second operation fails |
| `KeyRing.CounterpartyKeyRing.SyncKeyFileAndDir` | crates/openspine-kernel/src/counterparty_keys.rs:214-224 | success makes the key file durable and nothing changes |
| `KeyRing.CounterpartyKeyRing.RecoverPendingKey` | crates/openspine-kernel/src/counterparty_keys/recovery.rs:159-172 | success completes the publication of a key that was pending |
| `KeyRing.CounterpartyKeyRing.MigrateLegacyKey` | crates/openspine-kernel/src/counterparty_keys/format.rs:90-161 | keeps the key and the scope's invariant at every failing step; success means the file is durably in the current wrapping |
| `KeyRing.CounterpartyKeyRing.GetKeyLocked` | crates/openspine-kernel/src/counterparty_keys/format.rs:163-204 | yields nothing for closed or tombstoned scopes, returns the key on disk, completes its publication when recovering and changes nothing otherwise |
| `KeyRing.CounterpartyKeyRing.GetOrCreateKeyLocked` | crates/openspine-kernel/src/counterparty_keys.rs:306-406 | never replaces a key, and a new one is the one drawn; the key returned is on disk in the current wrapping with its publication complete and no temporary left; refuses closed and tombstoned scopes without touching anything |
| `KeyRing.CounterpartyKeyRing.EraseLocked` | crates/openspine-kernel/src/counterparty_keys.rs:417-480 | success means a durable tombstone and no key material now or after a crash, and tells whether there was a key; the key is never deleted before its tombstone is there; other scopes and blobs are untouched whatever fails |
| `KeyRing.CounterpartyKeyRing.Erase` | crates/openspine-kernel/src/counterparty_keys.rs:482-487 | the same, and the reserved scope is refused |
| `KeyRing.CounterpartyKeyRing.RecoverPendingErasures` | crates/openspine-kernel/src/counterparty_keys/recovery.rs:8-83 | startup removes every temporary and every key behind a tombstone, and only those |
| `BlobStore.ArtifactStore.PersistUpgradePending` | crates/openspine-kernel/src/artifact_store.rs:266-282 | touches the marker only; success means it is present and no crash can take it away |
| `BlobStore.ArtifactStore.ClearUpgradePending` | crates/openspine-kernel/src/artifact_store.rs:284-327 | touches the marker only; success means no crash brings it back; after a failed sync it is durably published again unless a second operation fails |
| `BlobStore.ArtifactStore.SyncExistingBlob` | crates/openspine-kernel/src/artifact_store.rs:352-367 | success makes the blob durable and nothing changes |
| `BlobStore.ArtifactStore.RecoverPendingUpgrade` | crates/openspine-kernel/src/artifact_store.rs:369-375 | success leaves a format-3 blob synced with its marker cleared |
| `BlobStore.ArtifactStore.WriteCurrentBlob` | crates/openspine-kernel/src/artifact_store.rs:377-434 | the blob is the old one or the new one at every failing step; success makes the new one durable |
| `BlobStore.ArtifactStore.UpgradeBlob` | crates/openspine-kernel/src/artifact_store_io.rs:171-179 | the rewrite happens behind its marker; success means upgraded, synced and cleared |
| `BlobStore.ArtifactStore.PutScoped` | crates/openspine-kernel/src/artifact_store_io.rs:47-73 | Ok means the content is durably stored and settled under a published key; an error is I/O or a barred scope; other scopes and the markers of all other blobs are untouched; the blob's own marker is missing exactly after a write that went, unseeing, over an unmarked format-2 entry and failed past its rename; a blob that is there and seen is left as it is, a new one is in the current format under the present or the drawn key with the given nonce |
| `BlobStore.WriteMarksExactly` | crates/openspine-kernel/src/artifact_store.rs:377-434 | whatever step a blob write stops at, a marker that was in order stays so if and only if the write was not blind |
| `BlobStore.BlindWriteExactly` | crates/openspine-kernel/src/artifact_store_io.rs:56-66 | a put that stops right after the rename is blind, and the marker missing, if and only if an unmarked format-2 entry was there |
| `BlobStore.BlindPut` | crates/openspine-kernel/src/artifact_store_io.rs:56-66 | the input for which the marker protocol fails: an unmarked format-2 blob whose existence probe and directory sync fail; the put errs and the old entry can reappear unmarked |
| `BlobStore.ArtifactStore.GetScoped` | crates/openspine-kernel/src/artifact_store_io.rs:110-182 | what is returned hashes to the reference; every other refusal than I/O is justified by what is on disk, and a sound blob is refused only for I/O; a recovering read completes the upgrade; an observing read changes nothing |
| `Migration.Migrator.MigrateEntry` | crates/openspine-kernel/src/artifact_store_migration.rs:44-129 | an entry is skipped exactly if its `is_file` probe fails and is then left as it is; any other success leaves nothing to count and is counted exactly if it was a legacy blob whose target was absent or unseen; a marker is lost only by a failed write over an unseen, unmarked format-2 target |
| `Migration.Migrator.MigrateLegacyBlobs` | crates/openspine-kernel/src/artifact_store_migration.rs:33-132 | wherever it stops every legacy plaintext is readable from source or target, and the only markers missing are those of unseen, unmarked format-2 targets it wrote over; a success counted exactly what it re-keyed, left exactly the unmigrated blobs it skipped and lost no marker; with working probes it finishes |
| `Migration.SkippedEntry` | crates/openspine-kernel/src/artifact_store_migration.rs:50-52 | the input for which finishing fails: a legacy blob whose probe fails is passed over with success |
| `Migration.SecondRunExactly` | crates/openspine-kernel/src/artifact_store_migration.rs:33-132 | after a successful run a second one with working probes counts 0 if and only if the first skipped no legacy blob without a target |
| `Migration.LeftEnd` | crates/openspine-kernel/src/artifact_store_migration.rs:44-131 | over the whole directory loop, what is left unmigrated is what was unmigrated and skipped |
| `Migration.FinishedCountsZero` | crates/openspine-kernel/src/artifact_store_migration.rs:33-132 | after a finished migration another run has nothing to count |
| `Migration.CountedAll` | crates/openspine-kernel/src/artifact_store_migration.rs:33-132 | the loop's count is the number of legacy blobs it saw whose target it did not see |
| `Ledger.TerminalLedger.Record` | crates/openspine-kernel/src/overlay_export_restore/control/continuity.rs:125-151 | an id already visible is acknowledged without writing or syncing; a fresh success is settled; an error may come after the id became visible |
| `Erasure.Kernel.RecordErasure` | crates/openspine-kernel/src/counterparty_erasure.rs:60-74 | success means recorded and closed; after an error the scope is not closed in this process, although the id may be in the ledger |
| `Erasure.Kernel.FinishLocalErasure` | crates/openspine-kernel/src/counterparty_erasure.rs:117-129 | the marker is committed before anything is touched; success means marked, closed and the key gone, and the answer is whether there was a key; no failure affects another scope |
| `Erasure.Kernel.EraseCounterparty` | crates/openspine-kernel/src/counterparty_erasure.rs:60-82 | cleanup only follows a recorded and closed id; success means recorded, closed, marked and without key, and answers whether there was one |
| `Erasure.Kernel.Reconcile` | crates/openspine-kernel/src/counterparty_erasure.rs:89-106 | success means every id of the ledger is closed, marked and without key; live scopes are preserved |
| `Erasure.Kernel.ReplayMarkers` | crates/openspine-kernel/src/main.rs:359-371 | success means every marked key is gone; only marked scopes are affected |
| `Erasure.Kernel.Boot` | crates/openspine-kernel/src/main.rs:334-383 | a boot that goes on to serve has closed the whole ledger, removed the keys of all recorded and marked scopes from whatever data root it found, swept temporary keys and keys beside a tombstone, and lost no marker; one that fails lost at most markers of unmarked format-2 entries it wrote over |
| `StorageRuns.StepKeepsGood` | crates/openspine-kernel/src/counterparty_erasure.rs:60-106 | every event of the transition system keeps the storage invariant, for the data root and for all its backups |
| `StorageRuns.ErasureIsPermanent` | crates/openspine-kernel/src/counterparty_erasure.rs:60-106 | once a first recording of an id returned Ok, no later put or get of it returns Ok, through concurrent puts, failures, crashes, power loss, restarts and restores |
| `StorageRuns.HeldIsRefused` | crates/openspine-kernel/src/counterparty_erasure.rs:60-106 | for an id recorded by a retry or a failed call: refused while it is closed or not served and its ledger entry is settled or the power stays on |
| `StorageRuns.ClosedExactly` | crates/openspine-kernel/src/counterparty_erasure.rs:60-106 | an id that became visible while the recording call failed is closed later if and only if a retry succeeded or a boot went on to serve since |
| `StorageRuns.AnswersExactly` | crates/openspine-kernel/src/counterparty_keys.rs:292-297 | a serving process answers for stored content if and only if it has not closed the scope |
| `StorageRuns.FailedSyncStaysOpen` | crates/openspine-kernel/src/overlay_export_restore/control/fs.rs:41-42 | the run in which the ledger's rename took effect, its directory sync failed and a read of that id returns Ok |
| `StorageRuns.OpenRunExists` | crates/openspine-kernel/src/overlay_export_restore/control/fs.rs:41-42 | that run exists, from a store with one key and one blob |
| `StorageRuns.UnsettledIsForgotten` | crates/openspine-kernel/src/overlay_export_restore/control/continuity.rs:138-143 | the run in which a retry is acknowledged without a sync and a power loss forgets the id |
| `StorageRuns.ForgettingRunExists` | crates/openspine-kernel/src/overlay_export_restore/control/continuity.rs:138-143 | that run exists, and ends in the world it began with |
| `StorageRuns.CompletedErasureStands` | crates/openspine-kernel/src/counterparty_erasure.rs:76-82 | after a completed erasure the key stays gone and access refused until an older data root returns, and even then if the ledger cannot forget the id |
| `StorageRuns.ErasureAnswers` | crates/openspine-kernel/src/counterparty_erasure.rs:117-129 | a completed erasure answers true for a scope with acknowledged content whose cleanup had not begun, and false for every further one until an older root returns |
| `StorageRuns.KeysStayGone` | crates/openspine-kernel/src/main.rs:359-383 | key material that is gone stays gone, and every boot that serves removes it again after a restore |
| `StorageRuns.StoredUntilErased` | crates/openspine-kernel/src/artifact_store_io.rs:47-182 | content acknowledged for a scope stays readable as exactly that content until that scope's own cleanup begins, whatever happens to other scopes with the same plaintext |
| `StorageRuns.RestoreGivesBack` | crates/openspine-kernel/src/artifact_store_io.rs:47-182 | a restored copy gives back what it had acknowledged, minus scopes it had begun to clean up |
| `StorageRuns.BlobsAreSound` | crates/openspine-kernel/src/artifact_store.rs:266-375 | in every reachable state a blob decrypts under a key whose publication is complete, and, unless the last write of that very blob was blind and failed, an unsynced format-3 rewrite has its marker |
| `StorageRuns.MarkedUnlessBlind` | crates/openspine-kernel/src/artifact_store.rs:266-375 | over whole runs a blob's marker is in order unless an earlier event was a blind write of that very blob |
| `StorageRuns.BlindWriteErrs` | crates/openspine-kernel/src/artifact_store_io.rs:47-73 | a blind write, by a put or by a boot, went over an unmarked format-2 entry that can now reappear, and is never acknowledged: the put returned an error, the boot does not serve |
| `StorageRuns.ReadsAndUpgrades` | crates/openspine-kernel/src/artifact_store_io.rs:110-182 | in every run a successful recovering read returns the referenced content and, unless the last write of that very blob was blind and failed, completes the upgrade; an observing read changes nothing |
| `RateLimit.RateLimitBucket.Refill` | crates/openspine-kernel/src/connector_reality.rs:85-111 | the in-place refill is the one `RateLimit.RefillExactly` describes and keeps available within capacity |
| `RateLimit.RefillExactly` | crates/openspine-kernel/src/connector_reality.rs:85-111 | a refill adds the whole intervals elapsed up to the capacity; short of full the remainder of an interval survives, one that fills the bucket starts afresh |
| `RateLimit.RateLimitBucket.TryAcquire` | crates/openspine-kernel/src/connector_reality.rs:76-83 | admits exactly when the peek says so |
| `RateLimit.PeekAgrees` | crates/openspine-kernel/src/connector_reality.rs:59-83 | the peek holds if and only if the commit succeeds |
| `RateLimit.RetryHintExact` | crates/openspine-kernel/src/connector_reality.rs:113-123 | the hint is the earliest successful delay if and only if the clock is not behind the last refill |
| `RateLimit.AcquireAllBound` | crates/openspine-kernel/src/connector_reality.rs:49-111 | the conserved quantity over any clock readings: admissions plus what is left are paid by whole intervals |
| `RateLimit.ConservesExactly` | crates/openspine-kernel/src/connector_reality.rs:85-111 | over any clock readings that never find the bucket full, admissions and what is left equal the permits at the start and the whole intervals up to the latest reading, if and only if the interval is positive or the capacity is one |
| `RateLimit.BoundExactly` | crates/openspine-kernel/src/connector_reality.rs:49-111 | admissions are bounded by capacity plus elapsed intervals, for all clock readings, exactly when the interval is positive or the capacity is one |
| `RateLimit.BoundTight` | crates/openspine-kernel/src/connector_reality.rs:49-111 | some clock readings reach the bound, for every number of intervals |
| `RateLimit.ZeroIntervalLeaks` | crates/openspine-kernel/src/connector_reality.rs:85-111 | the input for which the bound fails |
| `CircuitBreakers.CircuitBreaker.Allow` | crates/openspine-kernel/src/connector_reality.rs:182-192 | refuses exactly while blocking, and commits a cooled-down breaker to half-open |
| `CircuitBreakers.CircuitBreaker.RecordFailure` | crates/openspine-kernel/src/connector_reality.rs:201-213 | the specified transition, with the deque shorter than the threshold afterwards |
| `CircuitBreakers.CircuitBreaker.PruneFailures` | crates/openspine-kernel/src/connector_reality.rs:215-228 | the loop drops the expired front and nothing else |
| `CircuitBreakers.PruneIsFilter` | crates/openspine-kernel/src/connector_reality.rs:215-228 | on sorted times dropping from the front is filtering by the window |
| `CircuitBreakers.RefinesHistory` | crates/openspine-kernel/src/connector_reality.rs:163-236 | for non-decreasing failure times the deque breaker is always in the state of the one that forgets nothing |
| `CircuitBreakers.OpensExactlyAtThreshold` | crates/openspine-kernel/src/connector_reality.rs:201-213 | a failure while closed opens exactly when those since the last opening inside the window, this one included, reach the threshold |
| `CircuitBreakers.TransitionsExactly` | crates/openspine-kernel/src/connector_reality.rs:163-213 | a success closes from any state, a call makes an open breaker half-open exactly from its time on, a failure reopens a half-open breaker and leaves an open one alone |
| `CircuitBreakers.SuccessLeavesNoTrace` | crates/openspine-kernel/src/connector_reality.rs:194-199 | a success while closed changes nothing in the rest of any run |
| `CircuitBreakers.FailuresNotMasked` | crates/openspine-kernel/src/connector_reality.rs:126-136 | a run that stays closed never has a threshold of failures inside one window, whatever successes lie between |
| `CircuitBreakers.BackwardsClockOpensEarly` | crates/openspine-kernel/src/connector_reality.rs:215-228 | for every window and every threshold of three or more, the run in which a backwards clock opens the breaker early |
| `CircuitBreakers.AnyClockExactly` | crates/openspine-kernel/src/connector_reality.rs:163-236 | under arbitrary failure times the deque breaker agrees with the one that forgets nothing if and only if the threshold is at most two |
| `CircuitBreakers.RunLastOnly` | crates/openspine-kernel/src/connector_reality.rs:201-228 | for thresholds up to two the deque is the last failure and no clock can make an older one count again |
| `Connector.ConnectorRuntime.TryAcquire` | crates/openspine-kernel/src/connector_reality.rs:343-394 | a refusal changes nothing; the second checks never fire; a permit carries the current epoch |
| `Connector.ConnectorRuntime.RecordFailure` | crates/openspine-kernel/src/connector_reality.rs:414-421 | the epoch advances exactly when this failure opens the breaker |
| `Connector.ConnectorProbePermit.RecordOutcomeAt` | crates/openspine-kernel/src/connector_reality.rs:288-303 | disarms; acts only in its own epoch |
| `Connector.ConnectorProbePermit.Drop` | crates/openspine-kernel/src/connector_reality.rs:312-324 | reopens a half-open breaker of its epoch, otherwise changes nothing |
| `Connector.HalfOpenUniqueness` | crates/openspine-kernel/src/connector_reality.rs:273-421 | after any interleaving of calls half-open has exactly one armed permit of the current epoch and open has none |
| `Connector.ProbeNeverWedges` | crates/openspine-kernel/src/connector_reality.rs:273-324 | stale permits change nothing; resolving or dropping the probe always leaves half-open |
| `Connector.AtMostOneProbe` | crates/openspine-kernel/src/connector_reality.rs:343-394 | a rate-limited call never commits a probe, and after a cooldown only one caller gets through |
| `Connector.RefusalExactly` | crates/openspine-kernel/src/connector_reality.rs:343-394 | which calls are admitted, and which refusal is reported: the blocking state before the bucket's own hint |
| `Connector.ConnectorRefines` | crates/openspine-kernel/src/connector_reality.rs:273-421 | under any interleaving the breaker is the plain breaker run over what it heard, the epoch counts its openings, and the bucket is the plain bucket run over the instants of the permits |
| `Connector.PermitsBounded` | crates/openspine-kernel/src/connector_reality.rs:343-394 | permits handed out in any run are bounded by capacity plus refill intervals |
| `Connector.ConnectorForgetsNothing` | crates/openspine-kernel/src/connector_reality.rs:273-421 | with failures reported in order the connector is in the state of the breaker that forgets nothing |
| `WebhookMessages.LegacyRoundTrip` | crates/openspine-kernel/src/connector_reality.rs:672-688 | the legacy message can be read back |
| `WebhookMessages.BoundRoundTrip` | crates/openspine-kernel/src/connector_reality.rs:693-710 | the route-bound message can be read back |
| `WebhookMessages.LegacyInjective` | crates/openspine-kernel/src/connector_reality.rs:672-688 | it determines timestamp, key and payload |
| `WebhookMessages.LegacyLayout` | crates/openspine-kernel/src/connector_reality.rs:672-688 | timestamp, full stop, eight bytes that count the key, key, payload |
| `WebhookMessages.BoundInjective` | crates/openspine-kernel/src/connector_reality.rs:693-710 | it determines timestamp, key, account, action and payload |
| `WebhookMessages.LegacyIsBoundExactly` | crates/openspine-kernel/src/connector_reality.rs:672-710 | a legacy message is a route-bound one if and only if its payload spells out account, action and payload with their lengths |
| `ByteStrings.HexRoundTrip` | crates/openspine-kernel/src/connector_reality.rs:712-723 | decoding undoes the hexadecimal encoding |
| `ByteStrings.DecodesExactly` | crates/openspine-kernel/src/connector_reality.rs:712-723 | decoding yields a tag exactly from its hexadecimal form in either letter case |
| `WebhookForms.SignatureExactly` | crates/openspine-kernel/src/connector_reality.rs:570-576 | a signature is read as a tag exactly if it spells it, bare or after the prefix |
| `WebhookForms.BlankExactly` | crates/openspine-kernel/src/connector_reality.rs:553-558 | what trims to nothing is exactly the UTF-8 text of Unicode white space |
| `Webhook.WebhookVerifier.VerifyWithMessage` | crates/openspine-kernel/src/connector_reality.rs:545-611 | the checks in order; only an authentic, timely, unseen delivery is remembered |
| `Webhook.WebhookVerifier.Verify` | crates/openspine-kernel/src/connector_reality.rs:502-518 | the legacy route: empty account and action |
| `Webhook.WebhookVerifier.VerifyBound` | crates/openspine-kernel/src/connector_reality.rs:523-543 | the route-bound message and its own cache key |
| `Webhook.WebhookVerifier.EvictOldest` | crates/openspine-kernel/src/connector_reality.rs:597-608 | nothing below capacity; at capacity only oldest entries go until one place is free |
| `WebhookRuns.CacheBounded` | crates/openspine-kernel/src/connector_reality.rs:545-611 | in every run, under any clock, the cache has at most 4096 entries |
| `WebhookRuns.RejectionConsumesNothing` | crates/openspine-kernel/src/connector_reality.rs:545-611 | a rejected delivery adds no key; acceptance exactly when well-formed, timely, authentic and not freshly remembered; replay exactly for a fresh remembered key |
| `WebhookRuns.RejectionsInOrder` | crates/openspine-kernel/src/connector_reality.rs:545-592 | each of the six rejections is reported exactly when it is the first that applies |
| `WebhookRuns.AcceptedTwice` | crates/openspine-kernel/src/connector_reality.rs:545-611 | under a clock that never goes back, the same delivery is accepted twice only if in between it was pushed out of a full cache whose kept entries were all signed no earlier |
| `WebhookRuns.AcceptedTwiceAnyClock` | crates/openspine-kernel/src/connector_reality.rs:578-592 | under any clock the only other way is a delivery whose clock put the signing time outside the window, ahead or behind, so that retention dropped the entry |
| `WebhookRuns.SignedPasses` | crates/openspine-kernel/src/connector_reality.rs:630-666 | what the signer produced passes every check before the cache |
| `WebhookRuns.NotRetargetable` | crates/openspine-kernel/src/connector_reality.rs:520-543 | a captured route-bound signature passes for no other account, action, key, payload or time |
| `WebhookRuns.LegacyRetargetsExactly` | crates/openspine-kernel/src/connector_reality.rs:520-543 | a captured legacy signature passes for a bound delivery if and only if key and time agree and its payload spells out that account, action and payload |
| `GrantChain.CheckStructure` | crates/openspine-schemas/src/grant_chain.rs:321-363 | the hop-by-hop check decides the declarative shape |
| `GrantChain.CheckBindings` | crates/openspine-schemas/src/grant_chain.rs:402-414 | the map loop decides that no name is bound to two values |
| `GrantChain.SealedRootVerifies` | crates/openspine-schemas/src/grant_chain.rs:375-389 | a sealed root verifies if and only if its id is not nil and it was not bound to another root |
| `GrantChain.VerifiesExactly` | crates/openspine-schemas/src/grant_chain.rs:321-372 | exactly which grants verify: every hop names its parent, adds no token and never leaves shadow, the last is this grant, and the refolded tip is the one shown |
| `GrantChain.ChildTip` | crates/openspine-schemas/src/grant_chain.rs:391-398 | extending a verified parent's tip without the key equals refolding the longer chain with it |
| `Gate.AllowExactly` | crates/openspine-gate/src/gate.rs:119-390 | the exact condition under which the gate allows, for both origins |
| `Gate.AskedOnlyOnce` | crates/openspine-gate/src/gate.rs:286-390 | the owner is asked, for this action, exactly where all but an approval is in place and no decision was ever recorded |
| `Gate.SuppressedExactly` | crates/openspine-gate/src/gate.rs:128-136 | the effect is suppressed exactly for a shadow grant that would otherwise be allowed or ask |
| `Gate.DenialOrder` | crates/openspine-gate/src/gate.rs:181-214 | integrity before expiry before the catalog before explicit denial, each reported exactly when it is first |
| `Gate.ContainmentDenials` | crates/openspine-gate/src/gate.rs:227-289 | an undeclared action, its egress class, its channels, its bound parameters and an untrusted kernel origin, each denied with its reason exactly when it is the first objection |
| `Gate.ShellDenials` | crates/openspine-gate/src/gate.rs:291-389 | a contained shell request: the token, then an approval that has run out, was refused or is for something else, and `NotGranted` exactly for an action in neither effective list |
| `WorkerGrant.MintWorkerGrant` | crates/openspine-authority/src/worker_grant.rs:84-219 | which error, or the worker: it verifies, so the closing self-check never fails, and has the fresh id, time and token, the parent's root and mode and no selection tokens |
| `WorkerGrant.ParentExpiry` | crates/openspine-authority/src/worker_grant.rs:110-122 | the tightened expiry refuses exactly the times that outlive the parent |
| `WorkerGrant.CheckParameters` | crates/openspine-authority/src/worker_grant.rs:124-139 | the first conflicting parameter in spec order |
| `WorkerGrant.AddedCaveats` | crates/openspine-authority/src/worker_grant.rs:141-173 | every worker carries its allowlist, bindings, expiry and three empty allowlists |
| `WorkerGrant.MintsExactly` | crates/openspine-authority/src/worker_grant.rs:90-139 | exactly the specs within the parent's effective authority are accepted: delegable actions, an expiry no later than any of the parent's, no parameter that contradicts the parent's last binding |
| `WorkerGrant.ErrorsInOrder` | crates/openspine-authority/src/worker_grant.rs:90-139 | which error: the chain, the first action that may not be delegated with its own reason, the expiry, the first contradicted parameter |
| `Delegation.AllowIsMonotone` | crates/openspine-gate/src/gate.rs:172-306 | what the gate allows at a later point of a verified chain it allows at every earlier one |
| `Delegation.LineageVerifies` | crates/openspine-authority/src/worker_grant.rs:188-218 | every grant minted at any depth verifies |
| `Delegation.DelegationIsMonotone` | crates/openspine-authority/src/worker_grant.rs:84-219 | any request allowed for a descendant is allowed for every ancestor |
| `Delegation.WorkersCannotEgress` | crates/openspine-authority/src/worker_grant.rs:160-173 | no descendant is ever allowed an action that declares an egress class or output channel, from either origin |
| `Delegation.WorkersAreConfined` | crates/openspine-authority/src/worker_grant.rs:96-173 | from the shell a descendant gets only what every hop allowed, in time, with its bindings, never a non-delegable or token-requiring action |
| `Delegation.WorkerAllowExactly` | crates/openspine-authority/src/worker_grant.rs:84-219 | a request is allowed for a minted worker, from either origin, if and only if it is allowed for its parent and the commission admits it: in time, with its parameters, without egress, and from the shell listed and needing no token |
| `Delegation.LineageAllowExactly` | crates/openspine-authority/src/worker_grant.rs:84-219 | at any depth: allowed if and only if the root is allowed it and every hop admits it |
| `ChainIntegrity.FoldInjective` | crates/openspine-schemas/src/grant_chain.rs:300-312 | without collisions equal tips come from equal message lists of equal length |
| `ChainIntegrity.TipFixesDecision` | crates/openspine-schemas/src/grant_chain.rs:365-372 | two grants that verify with the same tip get the same decision on every request and have the same root authority, every list up to order |
| `ChainIntegrity.RootCoveredExactly` | crates/openspine-schemas/src/grant_chain.rs:131-197 | a root's message covers all of its fields and nothing of the order of its lists |
| `ChainIntegrity.CaveatCoveredExactly` | crates/openspine-schemas/src/grant_chain.rs:200-241 | a caveat's message covers its kind and terms, up to order |
| `ChainIntegrity.StepCoveredExactly` | crates/openspine-schemas/src/grant_chain.rs:243-260 | a hop's message covers its ids, mode and tokens, up to order |
| `CanonicalLists.CanonicalEqual` | crates/openspine-authority/src/equivalence.rs:104-116 | two lists have the same sorted, deduplicated form if and only if they have the same members |
| `Orders.StringLeqExactly` | crates/openspine-kernel/src/overlay_convergence.rs:171-184 | strings sort by their first different character, a prefix first |
| `Compose.Narrow` | crates/openspine-authority/src/compose.rs:96-105 | an empty policy list does not narrow, another is a whitelist |
| `Compose.UnknownCandidate` | crates/openspine-authority/src/compose.rs:118-174 | reports the first unknown id with its list, and nothing exactly when all fifteen lists are catalogued |
| `Compose.ComposeAuthority` | crates/openspine-authority/src/compose.rs:182-335 | which refusal, or a root with canonical lists of exactly the denied, approval-listed and outright allowed actions |
| `ComposeTheorems.ComposedUnique` | crates/openspine-authority/src/compose.rs:282-290 | the composed grant does not depend on the order in which hash sets are walked |
| `ComposeTheorems.ComposesExactly` | crates/openspine-authority/src/compose.rs:182-253 | a grant is composed if and only if route, agent, workflow, pack and global policy are each active, the route does not deny, a required verification holds of event and identity, all fifteen lists are catalogued and the classification is within the pack's maximum |
| `ComposeTheorems.RefusalsInOrder` | crates/openspine-authority/src/compose.rs:182-253 | which refusal comes first, with its lifecycle, route or classification |
| `ComposeTheorems.UnknownNamed` | crates/openspine-authority/src/compose.rs:118-174 | the unknown id reported is the first of the list that is named, and every list before that one is catalogued |
| `ComposeTheorems.ComposedMembers` | crates/openspine-authority/src/compose.rs:231-272 | which action is denied, needs approval or is allowed, in terms of the fifteen source lists |
| `ComposeTheorems.ComposedRuntime` | crates/openspine-authority/src/compose.rs:274-280 | the grant runs for the shorter of the agent's and the pack's time |
| `ComposeTheorems.ComposedIdentity` | crates/openspine-authority/src/compose.rs:292-333 | a live unsealed root with the given id, time and token, bound to the identities of its sources |
| `AuthorityTheorems.ComposedAllowExactly` | crates/openspine-authority/src/compose.rs:182-335 | a shell request on a sealed composed root is allowed if and only if the sources authorize it: catalogued, in no deny list, and either allowed outright or approval-listed with a matching unexpired approval |
| `AuthorityTheorems.DenyingMoreNeverAllows` | crates/openspine-authority/src/compose.rs:255-272 | what is allowed on the root composed with longer deny lists is allowed on the one composed with the shorter, which then exists |
| `AuthorityTheorems.DenyingMoreStillComposes` | crates/openspine-authority/src/compose.rs:223-230 | adding ids to deny lists prevents composition exactly if one is uncatalogued |
| `AuthorityTheorems.DescendantsStayWithinComposition` | crates/openspine-authority/src/worker_grant.rs:84-219 | across compose, any number of mints and the gate: a descendant's Allow is an action the sources allow outright |
| `AuthorityTheorems.DescendantAllowExactly` | crates/openspine-authority/src/worker_grant.rs:84-219 | the exact authority of any descendant of a composed root in terms of the sources and the commissions alone |
| `Equivalence.ClassOrder` | crates/openspine-authority/src/equivalence.rs:37-65 | the class ordering is total and agrees with equality |
| `Equivalence.ClassOrderExactly` | crates/openspine-authority/src/equivalence.rs:37-60 | the first different component decides: allowed, approval, denied, channels, then calls, artifacts and runtime |
| `Equivalence.SameClassExactly` | crates/openspine-authority/src/equivalence.rs:67-116 | two grants share a class if and only if three action sets, channel sets and limits agree |
| `Equivalence.FromCandidates` | crates/openspine-authority/src/equivalence.rs:208-227 | sort, refuse a repeated id, append each candidate to its class |
| `Equivalence.GroupingIsOrderFree` | crates/openspine-authority/src/equivalence.rs:208-227 | neither the classes nor the error depend on candidate order |
| `Equivalence.DuplicatesExactly` | crates/openspine-authority/src/equivalence.rs:211-217 | refused exactly when an id repeats, naming the least that does |
| `Equivalence.GroupingPartitions` | crates/openspine-authority/src/equivalence.rs:219-226 | every candidate is in its own class and no other; no class is empty, and each is strictly ordered by id |
| `Equivalence.Resolve` | crates/openspine-authority/src/equivalence.rs:253-277 | none, the only known class, or all known classes in order |
| `Equivalence.SelectsExactly` | crates/openspine-authority/src/equivalence.rs:377-395 | a member is selected exactly if the chooser answers with its position |
| `Equivalence.ResolutionIsOrderFree` | crates/openspine-authority/src/equivalence.rs:253-277 | order and repetition of the matching ids do not matter |
| `Equivalence.SelectionStaysInClass` | crates/openspine-authority/src/equivalence.rs:377-395 | whatever the chooser answers, the member belongs to the resolved class |
| `Equivalence.SelectionIsUnambiguous` | crates/openspine-authority/src/equivalence.rs:253-277 | a class is selected only if no candidate of another class matches |

## Left out

- HTTP, Telegram, Gmail, OAuth, model providers, command line and service wiring: input and output only.
- YAML parsing, serde and SQLite: artifacts are already parsed (an unparsable captured source is one outcome), the database is its set of committed erasure markers, and rows and audit entries besides those are not modelled.
- The terminal ledger's signed file format, continuity ids, import and merge of ledgers: the ledger is the set of ids a read returns and the set that is settled.
- Overlay: registry slots hold one entry per (kind, id); `golden_sets`, `sources`, `exclude_erased`, `missing_provenance`, `compatibility_epoch` and re-confirmation requests are not modelled.
- Storage: a locked section is one method call; a check whose answer cannot change while the lock is held appears once; non-regular files and foreign corruption of key files are not modelled; random keys, nonces and temporary names are parameters; the read-only opening and `scope_of` are not modelled.
- Storage: blob temporaries are not tracked as files, and the two directory syncs after a blob write count only together, which allows more crash outcomes than the code has.
- Migration.Migrator.MigrateLegacyBlobs: that no plaintext is lost is stated for file operations in program order, not for reordering of directory entries by a power loss during the migration.
- RateLimit.RateLimitBucket.Refill: multiplication of the refill interval is exact, without the rounding of 64-bit floating point; timestamps and counters are unbounded.
- Connector.ConnectorRuntime.RecordFailure: the epoch is an unbounded natural, without wrap-around at 2^64.
- Webhook.WebhookVerifier.EvictOldest: removes one oldest entry at a time with ties broken arbitrarily, where the code sorts once and takes a prefix.
- GrantChain: schema version, lifecycle state, authority sources and persona of a grant are carried by no check and are omitted; unequal-length and constant-time comparison of tips is equality.
- Gate: the audit metadata returned beside a decision and the unused egress classifier are omitted.
- `compose_all`, class iteration and the provenance wiring around candidates add no further claim.
- Briefcase packing, route and persona resolution, action catalog tables, tool descriptors and model swap recovery are not part of this model.
