# Proxyma in Dafny

Proxyma is a peer-to-peer node: peers share a replicated file index, run
pipelines of services across nodes, and keep each other informed through a
durable notification outbox. This project models the parts of it whose
correctness depends on more than one function, and proves what they promise.
`dafny verify dfyconfig.toml` checks everything.

Concurrent protocols are state machines whose steps are the regions between
lock operations, and the theorems about them quantify over every run. Objects
that the program updates in place are classes, each method proved against a
specification function or relation, about which the theorems are stated.
Beside each of these stands a lemma that says what it means in other terms, usually
as an exact condition on the states before and after (the lemmas ending in
`Exactly`).

| files | component |
|---|---|
| `OutboxKeys`, `OutboxStorage`, `OutboxProtocol`, `OutboxServer`, `DeliveryLocks` | the notification outbox: keys, transactions, the concurrent staging, delivery and reconciliation protocol, one undisturbed flush, and the reference-counted per-key locks |
| `PipelineGraph`, `PipelineSchemas`, `PipelineRevisions`, `PipelineRun` | cycle detection, schema and migration checks, the revision registry, and a task's journey through nodes and live migrations |
| `VfsIndex`, `VfsSync` | the replicated file index with its conflict order, and a pull-then-push round between two replicas |
| `BlobGc`, `BlobGcRuns` | content-addressed blobs: the operations that add, drop and sweep them, and safety and progress over runs |
| `JoinTransaction` | the crash-safe installation of certificates and configuration when a node joins |
| `QuicSessions` | TLS generations, handshakes and published sessions under rotation, blocking and close |
| `JournalKeys`, `TaskJournal` | the task journal, its keys, and the two materialised views |
| `StatusCache`, `Escrow` | the bounded task status cache, and tasks parked in coordinator escrow |
| `Ndjson`, `InviteToken`, `PeerRegistry` | line framing, the binary invite packet, and the peer registry |

What turned out differently from what the code or its comments suggest; in each
case the model follows the code, and a lemma states exactly when the expected
property holds:

- `PipelineHasCycle` also answers true for a schema without any cycle whose step
  IDs repeat, because it counts visited IDs against listed steps
  (`RepeatedIdsAreReported`).
- The retroactive-dependency check of a schema migration can never fire: the
  position check before it already rules the situation out (`RetroactiveCheckIsDead`).
- An unversioned write bumps the stored version as a machine integer; at the
  largest version it wraps and the index no longer holds the maximum seen
  (`WriteKeepsLargerExactly`, `WrappedBumpLosesMaximum`).
- A sync round leaves entries alone that agree without being equal: live ones of
  one version and hash that differ in size, and tombstones of one version that
  differ in hash or size (`LeftApartExactly`, `AgreeingDifferExactly`).
- Dropping a local cache copy and discarding an obsolete download ask only the
  index, so they can remove a blob an active task names; no other operation can
  (`TaskBlobGoesExactly`).
- Pruning a finished task protects the blobs of its final checkpoints from being
  queued, but the sweep at its end does not ask the journal: one that was queued
  before goes (`PruneRemovesExactly`, `FinalBlobGoesExactlyIfQueued`).
- Pruning works by prefix, so it also rewrites the journals of tasks whose ID
  continues with a slash, active or not (`PruneRewritesExactly`,
  `PruneReachesActiveTask`).
- A join recovery that is itself cut short between restoring and removing its
  journal can be repeated safely only if the install flag was not yet journalled
  (`SecondRecoveryExactly`).
- A TLS reload between the check and the record of a handshake leaves a stale
  record, and nothing else does (`RecordIsStaleExactly`); publication still
  refuses it.
- A pipeline state whose binding fails may already have adopted a migration
  (`FailedBindMovesExactly`, `FailedBindCanMigrate`).
- A newer schema that holds exactly the steps a task has run completes a task that
  advances to it, but fails one that arrives at a node that has it
  (`ShortenedSchemaEndsTwoWays`).
- An automatic checkpoint number wraps to zero once the largest is logged
  (`AutomaticNumberIsNextExactly`).
- A prefix scan of the journal also meets tasks whose ID continues with a slash,
  and a present but empty map in a checkpoint is lost by `omitempty`, so a replay
  of the journal can differ from the stored record (`ScanMeetsExactly`,
  `ReplayAgreesExactly`).
- A resumer that fails to hand over puts its request back over one that was put
  meanwhile (`ReplacesExactly`, `NothingReplacedExactly`), and it works on the step
  it read before taking the request (`ResumerStepExactly`). Even so, after every
  put a task is present or has been handed over since (`NoTaskIsLost`).
- The invite packet's count byte wraps at 256 entries and strings are cut at 255
  bytes (`RoundTripExactly` of `InviteToken`).
- The frame scanner strips one carriage return before a newline, so a frame that
  ends in one does not survive (`RoundTripExactly` of `Ndjson`).
- A peer record ignored as older still evicts the peer at its primary address
  (`IgnoredUpdateStillEvicts`).

## Model

| member | source | states |
|---|---|---|
| `OutboxKeys.EncodeOutboxTuple` | internal/server/outbox.go:60-68 | the built string is the length-prefixed encoding of the parts in order |
| `OutboxKeys.PartReadsBack` | internal/server/outbox.go:60-68 | each part can be read back off the front of an encoding: its decimal length without leading zeros up to the first colon, then its bytes, then the rest |
| `OutboxKeys.EncodeInjective` | internal/server/outbox.go:60-68 | two tuples of any length with the same encoding are the same tuple |
| `OutboxKeys.OutboxKeyInjective` | internal/server/outbox.go:70-72 | two keys are equal exactly when peer, kind and entity are |
| `OutboxStorage.OutboxBuckets.ReserveOutboxGeneration` | internal/storage/storage_engine.go:1035-1081 | hands out the next value of the global counter and records it for the key; fails, changing nothing, only when the counter is exhausted |
| `OutboxStorage.OutboxBuckets.ReleaseOutboxGeneration` | internal/storage/storage_engine.go:1083-1097 | clears a reservation only if it still holds that token, so a newer one is not disturbed |
| `OutboxStorage.OutboxBuckets.PutOutboxRawIfCurrentGeneration` | internal/storage/storage_engine.go:1099-1130 | stores the entry exactly when the token is the current reservation of its key |
| `OutboxStorage.OutboxBuckets.DeleteOutboxEntryIfUnchanged` | internal/storage/storage_engine.go:1132-1150 | deletes exactly when the stored bytes are the expected ones |
| `OutboxStorage.MatchesExactlyWhenDeletable` | internal/storage/storage_engine.go:1132-1163 | an entry matches exactly when a compare-delete of it would change the store; that delete removes it, only it, and disturbs no other key |
| `OutboxStorage.PutIsMatchedExactly` | internal/storage/storage_engine.go:1099-1163 | an entry put under a token is found by a later match exactly when the token was the newest reservation; otherwise the put changes nothing |
| `OutboxStorage.OutboxBuckets.ClearTransientOutboxReservations` | internal/storage/storage_engine.go:1012-1033 | reopening drops every reservation and keeps entries and the counter |
| `OutboxProtocol.NextKeepsInv` | internal/server/outbox.go:147-333 | every step of every concurrent stager, deliverer, reconciler and restart keeps the protocol invariant |
| `OutboxProtocol.DeliveryOrder` | internal/server/outbox.go:248-333 | over every run, an older payload of a peer, kind and entity is never sent after a newer one |
| `OutboxProtocol.NoStagedEntryLost` | internal/server/outbox.go:194-310 | over every run each staged entry is stored, acknowledged, superseded by a newer one, or dropped; a dropped one was staged at an earlier moment when its entity was absent from the catalog |
| `OutboxProtocol.DrainedKeyWasDelivered` | internal/server/outbox.go:312-464 | when a key has drained, its newest notification was acknowledged, or dropped after a moment at which it was staged and its entity was absent |
| `OutboxProtocol.AbsentWasGone` | internal/server/outbox.go:194-221 | what a reconcile finds absent was absent from the catalog while the entry was staged |
| `OutboxProtocol.CounterMonotone` | internal/storage/storage_engine.go:1045-1081 | over every stretch of every run, restarts included, the token counter never goes back |
| `OutboxProtocol.TokensNeverReused` | internal/storage/storage_engine.go:1035-1081 | of two reservations in a run the later one gets the strictly larger token |
| `OutboxProtocol.ReservationStandsExactly` | internal/storage/storage_engine.go:1035-1130 | over every run a reservation stands exactly until a restart, a newer reservation of its key, or the put or release of the goroutine that holds its token; nobody else disturbs it |
| `OutboxProtocol.PutAppliedExactly` | internal/server/outbox.go:277-303 | over every run a put is applied exactly when no other reservation of its peer, kind and entity fell between its own reservation and it; it stores what was reserved for, and a refused put leaves the store as it was |
| `OutboxProtocol.EntryLeavesExactly` | internal/server/outbox.go:312-415 | over every run a queued entry leaves the queue exactly by the confirmation of its acknowledged send, by its drop after its entity was gone, or by a newer put of its key |
| `OutboxProtocol.AttemptGoesOnExactly` | internal/server/outbox.go:312-326 | over every run a delivery attempt under the key lock goes on to its send exactly when the bytes it carries are still stored at its match |
| `OutboxProtocol.DecisionsExactly` | internal/server/outbox.go:194-333 | over every run a goroutine may confirm exactly after an acknowledged send, and drop exactly after finding the entity absent; each send is recorded once |
| `OutboxProtocol.HeldMovesExactly` | internal/server/outbox.go:74-98 | over every run a goroutine gains and loses a key lock exactly by locking, starting a delivery or a reconcile, unlocking, and a restart |
| `OutboxServer.StageOutbox` | internal/server/outbox.go:248-310 | undisturbed, stages the entry under its key with the next generation and leaves no reservation; changes nothing when the counter is exhausted |
| `OutboxServer.DeliverOutboxAttempt` | internal/server/outbox.go:312-333 | sends exactly when the entry is still stored as attempted, and removes it exactly when the send is acknowledged |
| `OutboxServer.ReconcileEntry` | internal/server/outbox.go:374-415 | one entry is dropped, kept or restaged with a newer generation according to the catalog; other keys keep theirs |
| `OutboxServer.ReconcileActiveOutbox` | internal/server/outbox.go:374-415 | afterwards every listed entry is gone if its entity is, and otherwise carries the current payload under the same identity: the entry itself, or one with a generation above all earlier ones |
| `OutboxServer.DeliverAll` | internal/server/outbox.go:434-463 | the attempts that answer they sent are those of all listed entries, each once; the acknowledged ones are gone |
| `OutboxServer.FlushOutbox` | internal/server/outbox.go:417-464 | the delivery attempts send, once each, exactly the entries whose entity exists, with its current payload, the listed entry itself or a newer one; afterwards exactly the sent and unacknowledged ones are queued |
| `DeliveryLocks.NextKeepsInv` | internal/server/outbox.go:74-98 | every interleaving of the four regions of the lock routine keeps counts, table and ownership consistent |
| `DeliveryLocks.AtMostOneHolder` | internal/server/outbox.go:74-98 | over every run two calls never hold the lock of one key, although lock objects come and go |
| `DeliveryLocks.TableHoldsExactlyUsedKeys` | internal/server/outbox.go:74-98 | a key is in the table exactly when some call uses it: nothing leaks and nothing is dropped early |
| `DeliveryLocks.RefinesAtomicLocks` | internal/server/outbox.go:74-98 | over every run the table behaves as one atomic lock per key: an acquisition takes a free key, an unlock returns it, nothing else changes who holds what |
| `DeliveryLocks.AcquirableExactly` | internal/server/outbox.go:74-98 | over every run a waiting call can take the lock exactly when no call holds its key: a lock is never left taken |
| `PipelineGraph.BuildGraph` | internal/protocol/pipeline_validate.go:37-62 | adjacency lists and in-degrees are exactly those of the distinct edges between known steps |
| `PipelineGraph.Drain` | internal/protocol/pipeline_validate.go:63-80 | the queue loop removes a set closed under predecessors with no ready node left, and ranks it along the edges |
| `PipelineGraph.PipelineHasCycle` | internal/protocol/pipeline_validate.go:37-82 | answers true exactly when the connection graph has a directed cycle or step IDs repeat |
| `PipelineGraph.RepeatedIdsAreReported` | internal/protocol/pipeline_validate.go:69-81 | a schema without connections whose step IDs repeat has no cycle and is reported all the same |
| `PipelineGraph.PredecessorsEverywhereMakeCycle` | internal/protocol/pipeline_validate.go:69-81 | a non-empty set of nodes that all have predecessors in it contains a cycle |
| `PipelineGraph.RankedIsAcyclic` | internal/protocol/pipeline_validate.go:69-81 | a graph whose edges all increase a rank has no cycle |
| `PipelineGraph.ForwardIsAcyclic` | internal/protocol/pipeline_validate.go:154-157 | connections that only go forward in the step list cannot form a cycle |
| `PipelineSchemas.ValidatePipelineSchema` | internal/protocol/pipeline_validate.go:86-199 | accepts exactly the registrable schemas, and an error names a defect the schema has |
| `PipelineSchemas.RegistrableExactly` | internal/protocol/pipeline_validate.go:86-199 | a schema is registrable exactly when it, its steps and their services have names, each step ID occurs once, and every connection goes from the payload or an earlier step to a step with ports that agree as far as service schemas are known |
| `PipelineSchemas.OrderedConnectionsAreForward` | internal/protocol/pipeline_validate.go:154-157 | the position check makes every edge go forward, so the accepted schemas are acyclic |
| `PipelineSchemas.CheckPrefix` | internal/protocol/pipeline_migration.go:44-73 | accepts exactly when every completed step is unchanged and in place; an error names a step that is not |
| `PipelineSchemas.ValidatePrefixMigration` | internal/protocol/pipeline_migration.go:15-130 | accepts exactly the migratable updates; an error names a reason that holds and is never the retroactive one |
| `PipelineSchemas.MigratableExactly` | internal/protocol/pipeline_migration.go:15-130 | an update is migratable exactly when it is live, not older, starts with the completed steps unchanged, has usable IDs, and every connection comes from an earlier step whose recorded outputs hold the port if it has completed |
| `PipelineSchemas.RetroactiveCheckIsDead` | internal/protocol/pipeline_migration.go:120-126 | a source listed before a target that is at most the next step has completed already |
| `PipelineRevisions.ReplacesExactlyUpwards` | internal/protocol/pipeline_validate.go:10-33 | a revision may replace the current one exactly when it is not smaller, and that is a total order on consistent revisions |
| `PipelineRevisions.RevisionAcceptedExactly` | internal/protocol/pipeline_validate.go:10-33 | a revision may follow another exactly when it is of the same ID and has a higher version, or the same version, steps and connections without undoing a deletion; each error is reported exactly when its reason is the first that holds |
| `PipelineRevisions.ComputeRegistry.ApplyPipelineRevision` | internal/compute/compute.go:235-266 | stores the revision exactly when it is valid, allowed and persisted, and updates the live map with it |
| `PipelineRevisions.AttemptTakenExactly` | internal/compute/compute.go:235-266 | after any attempts one more is taken exactly when it persists, is registrable and may follow the revision held; otherwise nothing changes |
| `PipelineRevisions.RevisionsOnlyAdvance` | internal/compute/compute.go:235-266 | along any attempts, consistent or not, the version of an ID never drops, and while it stays so do steps and connections, and a deletion is not undone |
| `PipelineRevisions.LiveMapIsNonDeletedPart` | internal/compute/compute.go:235-266 | after any attempts the live map holds exactly the revisions that are not deletions |
| `PipelineRevisions.EndsAtGreatest` | internal/compute/compute.go:235-266 | after any attempts each ID holds the greatest accepted revision |
| `PipelineRevisions.ApplicationOrderIrrelevant` | internal/compute/compute.go:235-266 | the same attempts in any order and with any repeats give the same registry |
| `PipelineRevisions.PairCommutesExactly` | internal/protocol/pipeline_validate.go:10-33 | two revisions of one ID commute exactly when equal versions mean equal definitions |
| `PipelineRun.PipelineExecutionState.TryDynamicSchemaMigration` | internal/compute/compute.go:538-610 | adopts the target exactly when it is an update of the same pipeline and migratable from what has completed |
| `PipelineRun.PipelineExecutionState.BindPipelineState` | internal/compute/compute.go:612-677 | binds an arriving state to the schema it must run, or fails with the reason; even then a snapshot found and a migration adopted stay |
| `PipelineRun.ReboundMovesOnlySchema` | internal/compute/compute.go:612-677 | a failed binding touches only the schema side of the state: progress, outputs and producers stay, and the version does not drop |
| `PipelineRun.ReboundMovesExactly` | internal/compute/compute.go:627-658 | a binding leaves the state different exactly when the pipeline is the same and it supplies a missing snapshot or adopts the local schema |
| `PipelineRun.BindFailsExactly` | internal/compute/compute.go:627-677 | a binding fails exactly on another pipeline, without a schema to start from, or when the schema to run is too short or nobody is on record for the last step |
| `PipelineRun.StartIsHashedSchema` | internal/compute/compute.go:633-656 | a task without a snapshot starts from the schema its hash names, if the node holds it as a revision or as its own |
| `PipelineRun.BindErrorsExactly` | internal/compute/compute.go:627-677 | another pipeline is reported first, then a schema that is nowhere to be found; a bound task is within its schema and has a producer for its last step |
| `PipelineRun.FailedBindMovesExactly` | internal/compute/compute.go:627-677 | a failing binding leaves the state changed exactly when it moves the schema and the schema to run then does not fit |
| `PipelineRun.FailedBindCanMigrate` | internal/compute/compute.go:658-668 | a task without a producer on record adopts the newer schema and is refused |
| `PipelineRun.ExecuteKeepsInv` | internal/compute/compute.go:679-811 | executing a step keeps every earlier step, output and named producer in place and records the new ones under it |
| `PipelineRun.MigrationKeepsBound` | internal/compute/compute.go:538-610 | a migration keeps every executed step in place and never lowers the version |
| `PipelineRun.AdoptsExactly` | internal/compute/compute.go:538-610 | a bound task leaves its schema for another registered one exactly when that is not older, starts with the steps that have run, and reads from them only ports they returned |
| `PipelineRun.TraceIsSnapshotPrefix` | internal/compute/compute.go:612-1051 | over every run across nodes and migrations, the executed steps are a prefix of the snapshot, and all of it at completion |
| `PipelineRun.NextStepInputsRecorded` | internal/compute/compute.go:679-811 | over every run, each non-initial input of the next step is the output its source returned when it ran |
| `PipelineRun.VersionNeverDrops` | internal/compute/compute.go:538-677 | over every run the adopted version never drops and what has run is never rewritten |
| `PipelineRun.ArrivalFailsExactly` | internal/compute/compute.go:612-677 | an arriving task of any run is refused exactly when nobody is on record for the last step it ran |
| `PipelineRun.ArrivalsNeverFail` | internal/compute/compute.go:612-677 | between nodes that have names, no arrival of any run is refused, whatever registered schemas the nodes hold |
| `PipelineRun.ArrivalBindsExactly` | internal/compute/compute.go:507-677 | after any run an arriving task is bound to the schema of the node exactly when that continues what has run, and else to its own snapshot; the first requester on record stays |
| `PipelineRun.UnknownServiceRunsAlone` | internal/compute/compute.go:513-526 | a node without a schema for the service runs a new task as one step of that service |
| `PipelineRun.ExecutionExactly` | internal/compute/compute.go:679-811 | after any run executing runs exactly the next step of the bound schema and records result and node; past the last step it fails |
| `PipelineRun.AdvanceExactly` | internal/compute/compute.go:981-1051 | after any run advancing moves a task to the latest schema exactly when that continues what has run, and completes it exactly when every step of the schema it then has was run |
| `PipelineRun.ShortenedSchemaEndsTwoWays` | internal/compute/compute.go:507-1051 | in every run, a newer schema that holds exactly what has run completes a task that advances to it, and fails one that arrives at it |
| `PipelineRun.FirstStepRuns` | internal/compute/compute.go:507-811 | runs that lead there exist: any registered schema, after its first step |
| `VfsIndex.EntryOrder` | internal/storage/vfs.go:49-81 | the comparison is a total order: antisymmetric, total, and zero exactly on equal entries |
| `VfsIndex.EntryTransitive` | internal/storage/vfs.go:49-81 | the comparison is transitive |
| `VfsIndex.OrderExactly` | internal/storage/vfs.go:49-81 | one entry beats another exactly by a larger version, then a deletion, then a hash that is later in the dictionary, then a larger size, then a later name |
| `VfsIndex.VFS.ResolveVFSWrite` | internal/storage/vfs.go:96-120 | writes exactly when the entry is not rejected, returns what the name then holds and held before, and queues what the write supersedes |
| `VfsIndex.WriteExactly` | internal/storage/vfs.go:96-120 | an explicit version is stored as given exactly when it beats the entry under its name; a local write is always stored, one version up; no other name changes |
| `VfsIndex.DeleteExactly` | internal/storage/storage_engine.go:372-410 | a delete is always applied and leaves the entry as it was, marked deleted and one version up |
| `VfsIndex.VFS.Upsert` | internal/storage/vfs.go:122-136 | applies the resolved write and reports whether the index changed |
| `VfsIndex.VFS.UpsertAndSubscribe` | internal/storage/vfs.go:148-175 | applies the resolved write and subscribes exactly when it is applied |
| `VfsIndex.WriteKeepsLargerExactly` | internal/storage/vfs.go:96-120 | a write leaves an entry at least as large as both exactly when the version bump does not wrap |
| `VfsIndex.EntryIsMaximumSeen` | internal/storage/vfs.go:49-136 | over every run without a wrapping bump, each replica holds for each name the maximum of the entries it has seen |
| `VfsIndex.SameSeenSameIndex` | internal/storage/vfs.go:49-136 | replicas that have seen the same entries have equal indexes, whatever the order and repeats |
| `VfsIndex.TombstoneSticks` | internal/storage/vfs.go:49-81 | a tombstone once seen is overruled only by a strictly higher version |
| `VfsIndex.WrappedBumpLosesMaximum` | internal/storage/vfs.go:105-110 | a run with a wrapping bump in which a replica no longer holds the maximum |
| `VfsSync.ProcessRemoteManifest` | internal/storage/storage_engine.go:292-352 | the index is what the writes of all manifest entries make of it, tombstones included; for positive versions under their own names that is the pointwise larger entry of both sides |
| `VfsSync.PushEntries` | internal/server/vfs_sync.go:56-69 | the peer applies exactly the local entries the filter lets through |
| `VfsSync.PushedPointwise` | internal/server/vfs_sync.go:56-69 | the peer ends with the local entry where the filter lets it through and with its own where it does not |
| `VfsSync.ResolveAllPointwise` | internal/storage/vfs.go:96-120 | writes under distinct names do not meet: each name sees its own write only, in whatever order they come |
| `VfsSync.ExecuteSync` | internal/server/vfs_sync.go:19-80 | one error-free round leaves both replicas with the same names, agreeing on version and deletion and on the hash of live entries; a name is left different exactly where the peer agreed before without being equal |
| `VfsSync.LeftApartExactly` | internal/server/vfs_sync.go:56-69 | after the pull, the push makes the entries equal exactly when the peer had none, disagreed, or was equal already |
| `VfsSync.AgreeingDifferExactly` | internal/server/vfs_sync.go:56-69 | entries of one name that agree differ exactly in size when live, and in hash or size when deleted |
| `VfsSync.SkipsExactlyAgreeing` | internal/server/vfs_sync.go:56-69 | after the pull, the push filter skips exactly the entries that already agree |
| `VfsSync.MergedIsUpperBound` | internal/storage/storage_engine.go:292-352 | merging keeps one of the two entries of a name, the same whichever side merges, and never loses the larger |
| `VfsSync.ResolveIsWinner` | internal/storage/vfs.go:96-120 | an explicit version keeps the larger entry of its name and touches no other |
| `VfsSync.SizesCanStayApart` | internal/server/vfs_sync.go:56-69 | a round leaves two live entries of one version and hash that differ in size as they are |
| `VfsSync.TombstonesCanStayApart` | internal/server/vfs_sync.go:56-69 | a round leaves two tombstones of one version with different hashes as they are |
| `BlobGc.StorageEngine.MarkLive` | internal/storage/storage_engine.go:826-837 | finds exactly the wanted hashes that a live entry names |
| `BlobGc.StorageEngine.MarkNamed` | internal/storage/storage_engine.go:838-874 | finds exactly the wanted hashes that a task record names |
| `BlobGc.StorageEngine.DeletePending` | internal/storage/storage_engine.go:881-893 | deletes exactly the pending unreferenced hashes whose deletion succeeds and settles the rest |
| `BlobGc.StorageEngine.SweepPendingBlobGC` | internal/storage/storage_engine.go:802-911 | a sweep removes exactly the deletable orphans and keeps pending exactly those whose deletion failed |
| `BlobGc.StorageEngine.UpsertIndex` | internal/storage/storage_engine.go:259-290 | an index write queues the superseded hash and sweeps in one operation |
| `BlobGc.StorageEngine.SaveLocalFile` | internal/storage/storage_engine.go:515-541 | a save commits blob, entry and subscription; a failed database write removes the blob only if it is new |
| `BlobGc.StorageEngine.DeleteLocalFile` | internal/storage/storage_engine.go:372-410 | writes the tombstone of a known file and collects its blob; changes nothing otherwise |
| `BlobGc.StorageEngine.CountHashRefs` | internal/storage/storage_engine.go:737-788 | counts a reference exactly when a live, or live and subscribed, entry names the hash |
| `BlobGc.StorageEngine.DeleteBlobIfOrphan` | internal/storage/storage_engine.go:726-735 | removes the blob exactly when nothing of the asked kind names it |
| `BlobGc.StorageEngine.DeleteLocalCache` | internal/storage/storage_engine.go:412-427 | unsubscribes a known file and removes its blob unless another subscribed entry needs it |
| `BlobGc.StorageEngine.StoreRemoteBlob` | internal/storage/storage_engine.go:566-619 | keeps a download exactly when its metadata is still current, and never deletes a blob a live entry needs |
| `BlobGc.StorageEngine.PruneIntermediateTaskData` | internal/storage/task_journal.go:457-646 | prunes a finished task by its prefix scan: drops the intermediate checkpoints, unstages and queues their unprotected blobs, and sweeps; refuses a blank ID and an active or unknown task |
| `BlobGcRuns.SweepSparesReferenced` | internal/storage/storage_engine.go:808-911 | a sweep never removes a blob named by a live entry or a task record |
| `BlobGcRuns.StepSparesPinned` | internal/storage/storage_engine.go:245-619 | no operation removes a blob whose entry is live and subscribed before and after it |
| `BlobGcRuns.PinnedBlobIsNeverRemoved` | internal/storage/storage_engine.go:245-911 | over every run a blob stays on disk as long as one entry keeps it live and subscribed |
| `BlobGcRuns.StepKeepsPending` | internal/storage/storage_engine.go:790-911 | a pending hash stays pending until it is deleted or referenced again |
| `BlobGcRuns.SupersededIsLeft` | internal/storage/vfs.go:83-88 | what a write queues is exactly the hash its name held before, if it was not empty and the name is now deleted or has another hash |
| `BlobGcRuns.BlobLeavesExactly` | internal/storage/storage_engine.go:245-911 | for every operation, a blob leaves the disk exactly when a sweep finds it queued, unreferenced and deletable, or by a cache drop or discarded download; queued are those pending before and exactly those left behind or pruned; what cannot be deleted stays pending |
| `BlobGcRuns.BlobAppearsExactly` | internal/storage/storage_engine.go:515-619 | a blob appears exactly by a save, a raw store, or a download that is live or cannot be deleted again |
| `BlobGcRuns.SaveExactly` | internal/storage/storage_engine.go:515-541 | a save leaves the file live with the given content, one version up, subscribed and on disk; if the database fails everything is as before, but for a new blob that cannot be deleted |
| `BlobGcRuns.IndexExactly` | internal/storage/storage_engine.go:245-619 | which operations write the index, the subscriptions and the task records, and what they write |
| `BlobGcRuns.StepQueuesLeftBehind` | internal/storage/vfs.go:83-88 | the hash a name had before a write that leaves it deleted or with another hash is pending, gone or referenced right after |
| `BlobGcRuns.LeftBehindStaysPendingUntilSettled` | internal/storage/storage_engine.go:790-911 | over every run a hash left behind by a write is pending in every state up to the one in which it leaves, and in that one it is gone from disk or referenced |
| `BlobGcRuns.CleanSweepFinishes` | internal/storage/storage_engine.go:808-911 | a sweep without failures leaves nothing pending and removes exactly the pending orphans |
| `BlobGcRuns.PruneSparesTaskBlobs` | internal/storage/task_journal.go:540-646 | a prune never queues a hash that a task record or a scanned final checkpoint names, and never removes one a task record names |
| `BlobGcRuns.PruneRemovesExactly` | internal/storage/task_journal.go:603-646 | a prune removes exactly the deletable blobs it queues or finds queued that no task record and no remaining live entry names |
| `BlobGcRuns.PruneQueuesExactly` | internal/storage/task_journal.go:558-625 | a prune queues exactly the blobs named by a checkpoint it drops that no final checkpoint under the prefix and no task record names |
| `BlobGcRuns.PrunedBlobsExactly` | internal/storage/task_journal.go:603-625 | the blobs of a journal that pruning may queue are those of the checkpoints it drops |
| `BlobGcRuns.PruneUnstagesExactly` | internal/storage/task_journal.go:457-646 | a prune is refused for a blank or active ID and before the task has ended; otherwise a name leaves the index exactly if it is a staging name whose hash was queued |
| `BlobGcRuns.FinalBlobGoesExactlyIfQueued` | internal/storage/task_journal.go:558-646 | a blob only a final checkpoint names is removed by a prune that queues something exactly when it was queued before |
| `BlobGcRuns.FinalBlobCanGo` | internal/storage/task_journal.go:558-646 | a prune that removes a blob named by a final checkpoint of the pruned task |
| `BlobGcRuns.PruneRewritesExactly` | internal/storage/task_journal.go:545-620 | a prune rewrites exactly the journals its scan meets that hold an intermediate checkpoint |
| `BlobGcRuns.PruneReachesActiveTask` | internal/storage/task_journal.go:545-620 | a prune of one task that drops a checkpoint of an active task whose ID continues with a slash |
| `BlobGcRuns.PruneKeepsFinalCheckpoints` | internal/storage/task_journal.go:605-625 | exactly the migration notices and the terminal checkpoints that are not intermediate survive, and pruning twice is pruning once |
| `BlobGcRuns.PruneKeepsOrder` | internal/storage/task_journal.go:605-625 | pruning goes checkpoint by checkpoint: the survivors of a journal are those of its parts in order |
| `BlobGcRuns.CacheDropIgnoresTasks` | internal/storage/storage_engine.go:412-427 | a cache drop can remove a blob an active task names |
| `BlobGcRuns.DiscardIgnoresTasks` | internal/storage/storage_engine.go:600-619 | a discarded download can remove a blob an active task names |
| `BlobGcRuns.TaskBlobGoesExactly` | internal/storage/storage_engine.go:412-619 | over all operations, a blob a task record names leaves the disk exactly by a cache drop without another subscribed entry or by a discarded download without a live entry |
| `JoinTransaction.InferenceRestores` | cmd/proxyma-bind/cluster.go:461-538 | at every crash point the inferred flags are exact and rolling back on them restores the object |
| `JoinTransaction.SecondRecoveryExactly` | cmd/proxyma-bind/cluster.go:363-402 | after a recovery cut short past the restore, a second one keeps the object exactly when the install flag was not journalled, and looks for the used-up backup exactly when the backup flag was |
| `JoinTransaction.JoinInstallation.Install` | cmd/proxyma-bind/cluster.go:318-361 | stopped after any number of writes, the disk stays recoverable to the old pair; finished, the new pair is live |
| `JoinTransaction.JoinInstallation.Rollback` | cmd/proxyma-bind/cluster.go:363-402 | undoes exactly what the flags say was done; fails exactly when a flagged backup is missing, and then keeps the journal |
| `JoinTransaction.JoinInstallation.Commit` | cmd/proxyma-bind/cluster.go:404-411 | the committed phase is on disk |
| `JoinTransaction.RecoverJoinInstallation` | cmd/proxyma-bind/cluster.go:461-538 | recovery makes the new pair live if the attempt was committed and the old pair otherwise, and removes the journal |
| `JoinTransaction.StageJoin` | cmd/proxyma-bind/cluster.go:251-316 | staging leaves the live pair alone and journals the attempt only when both staged copies exist |
| `JoinTransaction.RunJoin` | cmd/proxyma-bind/cluster.go:251-538 | an attempt that ends anywhere leaves a disk recoverable to one of the two pairs |
| `JoinTransaction.RunJoins` | cmd/proxyma-bind/cluster.go:251-538 | any attempts, each ending anywhere, then one recovery: the live pair is that of the last committed attempt |
| `JoinTransaction.OutcomeIsOnePair` | cmd/proxyma-bind/cluster.go:251-538 | certificates and configuration always come from one committed attempt, or both from the start |
| `JoinTransaction.LastCommitWins` | cmd/proxyma-bind/cluster.go:251-538 | the outcome of any attempts is the pair of the last one that reached its commit, and the first pair if none did |
| `QuicSessions.QUICManager.SetSession` | internal/p2p/holepunch.go:462-495 | publishes exactly when the demanded generation is current, the manager is open and the peer is not blocked |
| `QuicSessions.QUICManager.ConsumeHandshakeGeneration` | internal/p2p/holepunch.go:353-364 | returns the recorded generation of a connection once |
| `QuicSessions.QUICManager.BlockPeerSessions` | internal/p2p/holepunch.go:531-545 | blocks the peer and drops its session together |
| `QuicSessions.AllowUndoesBlock` | internal/p2p/holepunch.go:523-545 | blocking and allowing again leaves a peer as it was but without its session: refused in between, publishable after |
| `QuicSessions.QUICManager.CloseSessionIf` | internal/p2p/holepunch.go:511-521 | removes the session only if it is still that connection |
| `QuicSessions.QUICManager.ReloadTLS` | internal/p2p/holepunch.go:990-1007 | starts a new generation and drops all sessions and handshake records |
| `QuicSessions.QUICManager.Close` | internal/p2p/holepunch.go:569-606 | cancels the manager, starts a new generation and drops everything |
| `QuicSessions.NextKeepsInv` | internal/p2p/holepunch.go:308-364 | every interleaving of handshakes, publications, reloads, blocks and close keeps the session invariant |
| `QuicSessions.SessionsBelongToCurrentGeneration` | internal/p2p/holepunch.go:462-495 | over every run a session published under a generation was verified by it, and it is the current one |
| `QuicSessions.BlockedPeersHaveNoSession` | internal/p2p/holepunch.go:523-545 | over every run a blocked peer has no session |
| `QuicSessions.NoSessionAfterClose` | internal/p2p/holepunch.go:569-606 | once close has dropped the sessions none ever appears again |
| `QuicSessions.StaleHandshakeNeverPublished` | internal/p2p/holepunch.go:608-636 | a connection verified before a rotation is never published under a demanded generation after it |
| `QuicSessions.SessionMovesExactly` | internal/p2p/holepunch.go:462-606 | over every run the session of a peer is replaced exactly by a store while it is not blocked, removed exactly by a rotation, a block or a drop, and otherwise stays; likewise the block list and the closed flag |
| `QuicSessions.ChecksExactly` | internal/p2p/holepunch.go:308-495 | over every run each check lets a goroutine go on exactly when what it checks holds; an accept consumes the record of its connection |
| `QuicSessions.SnapshotPassesExactly` | internal/p2p/holepunch.go:308-495 | a connection dialled or greeted passes its generation check exactly when no rotation fell in between |
| `QuicSessions.StaleRecordIsReachable` | internal/p2p/holepunch.go:308-351 | a reload between the check and the record of a handshake leaves a record of an old generation |
| `QuicSessions.RecordHasOrigin` | internal/p2p/holepunch.go:308-364 | every handshake record of every run was compared by some callback, then made by it, with no rotation since |
| `QuicSessions.RecordIsStaleExactly` | internal/p2p/holepunch.go:308-364 | in every run a record is stale exactly when a rotation fell between its comparison and its making |
| `JournalKeys.ParseOwnKey` | internal/storage/task_journal.go:225-241 | a key reads back the sequence it was built from |
| `JournalKeys.KeyLayout` | internal/storage/task_journal.go:225-227 | a key is the ID, a slash and exactly twenty digits that read as the sequence |
| `JournalKeys.KeyInjective` | internal/storage/task_journal.go:225-227 | different tasks or sequences have different keys |
| `JournalKeys.ScanMeetsExactly` | internal/storage/task_journal.go:204-213 | a prefix scan meets exactly the task's own keys and those of IDs that extend it with a slash |
| `JournalKeys.OnlyOwnKeysParse` | internal/storage/task_journal.go:229-241 | only the task's own keys parse, whatever slashes other IDs contain |
| `JournalKeys.SlashFreeScan` | internal/storage/task_journal.go:204-213 | among IDs without slashes a scan meets exactly the task's own keys |
| `TaskJournal.TaskStore.ScanMaxSequence` | internal/storage/task_journal.go:339-348 | finds the largest sequence among the keys that parse as the task's |
| `TaskJournal.TaskStore.AppendTaskCheckpoint` | internal/storage/task_journal.go:311-395 | refuses a blank ID and a status change of a finished task; otherwise logs the numbered checkpoint and folds it into one view |
| `TaskJournal.AcceptedAreAppended` | internal/storage/task_journal.go:311-351 | after any appends the accepted checkpoints of a task are the appended ones in their order, each only stamped and numbered; one is left out exactly if its ID is blank or an earlier accepted one ended the task with another status |
| `TaskJournal.AutomaticNumberIsNextExactly` | internal/storage/task_journal.go:339-348 | an automatic number is above every number logged for the task exactly unless the largest is logged, and then leaves no gap |
| `TaskJournal.StoringDropsOnlyEmptyMaps` | internal/storage/task_journal.go:29-39 | storing a checkpoint or a task changes nothing but present empty maps, which become absent |
| `TaskJournal.MergeFillsGaps` | internal/storage/task_journal.go:186-198 | completing a history record from an active one fills what it lacks and overwrites nothing |
| `TaskJournal.TaskStore.GetTaskJournal` | internal/storage/task_journal.go:418-440 | returns exactly the records under the prefix by increasing sequence; refuses a blank ID |
| `TaskJournal.StoredRecordIsFold` | internal/storage/task_journal.go:148-184 | after any appends the stored record is the fold of the accepted checkpoints, numbered from one, in one view only: history exactly when the last one ended the task |
| `TaskJournal.TextsAreLatest` | internal/storage/task_journal.go:59-69 | folding checkpoints leaves in every text field the latest non-empty value, and the times of the first and the last checkpoint |
| `TaskJournal.StatusIsLatest` | internal/storage/task_journal.go:148-157 | the folded status is the latest that is not a migration notice; a task known only by such notices is running |
| `TaskJournal.StepIsLatest` | internal/storage/task_journal.go:162-164 | the folded step is the latest positive index, or without any the first that is not zero |
| `TaskJournal.DocumentsAreLatest` | internal/storage/task_journal.go:68-73 | payload, pipeline state and final outputs are the latest present ones, the last only from terminal checkpoints |
| `TaskJournal.EntriesAreLatest` | internal/storage/task_journal.go:165-184 | the outputs of each step and the value of each metadata key are the latest given for it |
| `TaskJournal.TerminalStatusIsFinal` | internal/storage/task_journal.go:323-332 | once a task is in history its terminal status never changes |
| `TaskJournal.JournalReadsBack` | internal/storage/task_journal.go:418-440 | for IDs without slashes, reading the journal after any appends gives the accepted checkpoints as stored, in order |
| `TaskJournal.ReadGivesAppended` | internal/storage/task_journal.go:311-440 | for IDs without slashes a read gives the appended checkpoints of the task that were not left out, as stored, numbered from one |
| `TaskJournal.ReplayAgreesExactly` | internal/storage/task_journal.go:148-184 | applying a re-read checkpoint gives the same stored task exactly when the checkpoint clears nothing with a present but empty map |
| `TaskJournal.ReplayGivesStoredTask` | internal/storage/task_journal.go:148-184 | folding what a read of the journal returns gives the stored task, for checkpoints without empty maps |
| `TaskJournal.EmptyPayloadIsNotReplayed` | internal/storage/task_journal.go:68-70 | a checkpoint with an empty payload clears the stored payload, but its journal record does not |
| `StatusCache.SelectVictims` | internal/compute/compute.go:1512-1551 | picks as many as are over the limit, never the protected task, and none more recent than one it leaves |
| `StatusCache.StatusTable.RetireActiveTaskStatus` | internal/compute/compute.go:1560-1573 | moves one status to the retired ones as a failure, freshly touched, and stops accepting the task |
| `StatusCache.StatusTable.PruneRetiredTaskStatuses` | internal/compute/compute.go:1579-1624 | keeps exactly the unexpired or protected retired statuses, cut to the limit by dropping the oldest |
| `StatusCache.StatusTable.PruneTaskStatuses` | internal/compute/compute.go:1466-1553 | keeps the unexpired statuses cut to the limit, oldest dropped first; a dropped pending task is retired as failed with its reason and stays there if it is the protected one or all fresh ones fit the limit; older retired ones go before it |
| `StatusCache.StatusTable.StoreTaskStatus` | internal/compute/compute.go:1438-1443 | the stored status is active afterwards and both maps are within the limit |
| `StatusCache.StatusTable.SetTaskStatus` | internal/compute/compute.go:1404-1427 | a terminal or retired status is final; any other is replaced, as a failure once the engine is closed |
| `StatusCache.StatusTable.GetTaskResponse` | internal/compute/compute.go:432-452 | returns the active status exactly when it has not outlived its lifetime, else the retired one; an expired pending task reads as failed, a task known only as retired reads as that; what is returned is touched |
| `StatusCache.LessIsStrictWeakOrder` | internal/compute/compute.go:1512-1526 | the comparator handed to the sort is a strict weak order, so sorting by it is meaningful |
| `StatusCache.EvictionOrderExactly` | internal/compute/compute.go:1512-1526 | the sort puts a task first exactly when it was touched earlier, or at the same time is finished while the other is not, or has the smaller number; the protected task comes last |
| `StatusCache.PruneExactly` | internal/compute/compute.go:1466-1553 | a status goes exactly when it has outlived the lifetime of its kind, or by capacity, which then is met exactly and leaves no older one but the protected |
| `StatusCache.PruneRetiredExactly` | internal/compute/compute.go:1579-1624 | the same of a retired status, which lives as long as a terminal one; the protected one does not expire |
| `StatusCache.FailureExactly` | internal/compute/compute.go:1560-1573 | a retired task keeps its names and says why it failed, in its error and in its outputs |
| `StatusCache.StoredIsYoungestExactly` | internal/compute/compute.go:1438-1464 | storing a status touches its task alone and makes it younger than every other, unless that is pending, was touched at the same time, and the new status is terminal |
| `StatusCache.VictimsLeaveLimit` | internal/compute/compute.go:1527-1551 | removing the victims leaves exactly the limit, the protected task among it |
| `StatusCache.DropIsSequential` | internal/compute/compute.go:1466-1553 | dropping statuses one after another is dropping them together, each with its own reason |
| `Ndjson.Reader.ReadSlice` | internal/utils/ndjson.go:118-122 | a fragment ends at the first newline, or the buffer is full, or the input has ended or failed |
| `Ndjson.ScanWithLimit` | internal/utils/ndjson.go:114-160 | whatever the fragments, the frames and the ending are those of splitting the whole input at its newlines |
| `Ndjson.ScanDeliversFrames` | internal/utils/ndjson.go:114-160 | whatever the input, delivered frames are non-empty, free of newlines and within the limit |
| `Ndjson.ScanEndsExactly` | internal/utils/ndjson.go:114-160 | after lines within the limit, a stretch over it is reported, a failed read is reported, and a last stretch without a newline is delivered untrimmed unless empty |
| `Ndjson.TrimReturnExactly` | internal/utils/ndjson.go:136-141 | one carriage return at the end of a line is taken off, and only one |
| `Ndjson.RefusalStopsScan` | internal/utils/ndjson.go:152-157 | a callback is given the frames it would get if it never refused, cut after the first it refuses; then the scan ends without an error |
| `Ndjson.Writer.WriteFrame` | internal/utils/ndjson.go:17-30 | appends the frame and a newline, or refuses an oversized frame and writes nothing |
| `Ndjson.RoundTripExactly` | internal/utils/ndjson.go:17-160 | scanning what was written gives back the frames exactly when each is non-empty, free of newlines, within the limit and does not end in a carriage return |
| `Ndjson.WriteAll` | internal/utils/ndjson.go:33-47 | the frames before the first oversized one are on the wire in order, encoded one after another |
| `Ndjson.Transfer` | internal/utils/ndjson.go:33-160 | frames pumped through a writer and scanned at the other end come back exactly when each survives |
| `Escrow.Coordinator.PutTaskInEscrow` | internal/compute/coordinator.go:126-166 | parks the request unless its ID is empty or the journal fails; a repeat at the same step is not journalled again |
| `Escrow.Coordinator.RevertEscrow` | internal/compute/coordinator.go:323-343 | puts the request back and restores the producer metadata as it was |
| `Escrow.Coordinator.ResumeEscrowTask` | internal/compute/coordinator.go:259-457 | either the task is handed over and leaves escrow, or escrow and metadata are as before; only a failed local submit also leaves the task unaccepted |
| `Escrow.Coordinator.WakeupEscrowTasks` | internal/compute/coordinator.go:244-256 | one pass hands over exactly the tasks that can be and counts them |
| `Escrow.NextKeepsInv` | internal/compute/coordinator.go:126-456 | every interleaving of puts, looks, takes, hand-overs and reverts keeps every request in one place |
| `Escrow.EachRequestIsInOnePlace` | internal/compute/coordinator.go:126-456 | over every run each request is parked once, held by one resumer, handed over or replaced, and only one of these |
| `Escrow.TicketCarriesItsRequest` | internal/compute/coordinator.go:126-457 | over every run, wherever an escrowed request is parked, held or handed over, it is exactly the request of its put |
| `Escrow.HandOverExactly` | internal/compute/coordinator.go:345-457 | a hand-over gives away the request its resumer took, at the step its look found, and nothing else |
| `Escrow.NothingReplacedExactly` | internal/compute/coordinator.go:126-343 | in a run no request was replaced exactly when no step stored onto a parked task; then each one is parked, held or handed over |
| `Escrow.ReplacesExactly` | internal/compute/coordinator.go:126-343 | a step replaces a request exactly when it is a put or a revert onto a parked task |
| `Escrow.NoTaskIsLost` | internal/compute/coordinator.go:126-457 | whatever is replaced, after each put of a task it is parked or held, or a request of it was handed over since that put |
| `Escrow.RevertCanReplaceNewer` | internal/compute/coordinator.go:323-326 | a failing resumer can put its older request back over a newer one |
| `Escrow.ResumerStepExactly` | internal/compute/coordinator.go:259-317 | a resumer works on the step of the request it took exactly when nothing was stored for the task between its look and its take, or the last request stored is at the step it saw |
| `Escrow.TakenStepCanBeStale` | internal/compute/coordinator.go:259-317 | a put between the look and the take leaves the resumer with the step of the earlier request |
| `InviteToken.AppendL8String` | internal/p2p/invite.go:27-34 | appends the length byte and at most 255 bytes of the string |
| `InviteToken.BuildPacket` | internal/p2p/invite.go:120-159 | writes the header and the entries in order: host name, relay, addresses |
| `InviteToken.PacketLayout` | internal/p2p/invite.go:120-159 | version, hash, secret, big-endian port and count stand in the first 68 bytes, then the entries in order |
| `InviteToken.EntryLayout` | internal/p2p/invite.go:120-159 | an entry starts with its kind and strings follow their length, cut at 255 bytes |
| `InviteToken.StringIsReadExactly` | internal/p2p/invite.go:38-50 | reading a string succeeds exactly where an encoded string stands, and gives the text those bytes encode |
| `InviteToken.EntryIsReadExactly` | internal/p2p/invite.go:196-236 | reading an entry succeeds exactly where an encoded entry stands, gives an entry that encodes to those bytes, and moves right past them |
| `InviteToken.ParsePacket` | internal/p2p/invite.go:179-242 | terminates and stays in bounds on any bytes, with the result of reading the counted entries in order |
| `InviteToken.ParseReadsCounted` | internal/p2p/invite.go:120-242 | parsing a written packet gives its first entries, as many as the count byte says, with strings cut to 255 bytes |
| `InviteToken.RoundTripExactly` | internal/p2p/invite.go:120-242 | hash, secret, port, relay pair and addresses come back exactly when there are at most 255 entries and no string is longer than 255 bytes |
| `InviteToken.AcceptedIsEncoding` | internal/p2p/invite.go:194-236 | whatever the bytes, an accepted packet holds an encoding of the entries it is read as, then unread bytes |
| `InviteToken.AcceptedExactly` | internal/p2p/invite.go:179-242 | bytes are accepted exactly when they begin with a valid header and as many encoded entries as it counts |
| `InviteToken.HeaderIsReadExactly` | internal/p2p/invite.go:179-192 | an accepted packet gives hash, secret and port as they stand in its header; a wrong version is reported before a short packet |
| `InviteToken.EntryErrorExactly` | internal/p2p/invite.go:194-236 | an entry is refused for being missing, truncated or of an unknown kind, and then none stands there |
| `PeerRegistry.MergeAddresses` | internal/server/registry.go:88-103 | the existing addresses, then the unseen ones in order of first appearance |
| `PeerRegistry.Registry.AddPeer` | internal/server/registry.go:58-112 | removes the other peers at the primary address, then writes, merges or ignores the record by its sequence |
| `PeerRegistry.AddExactly` | internal/server/registry.go:58-112 | what adding a peer does to every peer: others at the new primary address go; a strictly newer or first record is stored as given, an equal one appends unseen addresses in order, an older one is ignored; services and certificates stay |
| `PeerRegistry.SettersReadBack` | internal/server/registry.go:124-278 | online, offline with its cause, a service, its removal, and a certificate read back as set |
| `PeerRegistry.RemovedPeerStartsAfresh` | internal/server/registry.go:115-121 | a removed peer is not registered and starts afresh: its next record is written as given, whatever its sequence; nobody else changes |
| `PeerRegistry.SettersKeepRecords` | internal/server/registry.go:129-278 | setters never register, unregister or re-address anyone and touch only their own attribute of their own peer |
| `PeerRegistry.SettersCommute` | internal/server/registry.go:129-278 | setters of different peers or of different attributes can be applied in either order |
| `PeerRegistry.PrimariesStayUnique` | internal/server/registry.go:56-121 | after any operations no two registered peers share a primary address and the node itself is not registered |
| `PeerRegistry.RecordsAdvance` | internal/server/registry.go:81-108 | while a peer stays registered its sequence never drops, and at one sequence its addresses only grow at the end |
| `PeerRegistry.SameSequenceOnlyAppends` | internal/server/registry.go:88-108 | an update at the same sequence keeps the primary, keeps the known addresses in place and appends exactly the unseen ones |
| `PeerRegistry.IgnoredUpdateStillEvicts` | internal/server/registry.go:66-87 | a record ignored as older still removes exactly the other peers at its primary address |

## Left out

- Sockets, HTTP, TLS certificates, QUIC transport, NAT traversal and the relay: calls to a peer are parameters that succeed or fail.
- JSON, base64, hex and hashing: values are compared directly; where `omitempty` matters it is modelled.
- Disk and database errors, except where a component is about surviving them; corrupt records and their quarantine.
- Clocks: the current time is a parameter.
- The command line, the mobile binding and the user interface.
- Service bidding, cost estimates and target selection: they choose a node and do not affect what is proved.
- The non-durable path of the outbox, used when no storage is attached, and `notifyWithOutbox`, which only combines modelled operations.
- Download intents and the retry queue of the storage engine.
- Pipeline blob staging, selected targets and failover inside `PipelineRun`: routing is one event that moves the task.
- `AcceptTaskCallback`, `RecordTaskResponse` and `RegisterOutgoingTask`: authorisation metadata of the status cache is not modelled.
- OutboxServer.ReconcileEntry: for entries stored under the key of their own peer, kind and entity, which is where staging puts them; entries under another key are left to the protocol model.
- OutboxServer.ReconcileActiveOutbox: for entries stored under their own key and readable, as above; it does not model unreadable records, which the program skips.
- OutboxServer.FlushOutbox: one flush with nobody interfering; interference is the subject of the protocol model.
- VfsSync.ExecuteSync: agreement is stated for indexes whose entries have positive versions and are filed under their own names, which every write without a wrapping bump establishes; for other indexes only the writes made are stated. No call to the peer fails.
- VfsSync.ProcessRemoteManifest: the merge is stated for manifests of that kind; for others, the list of writes.
- JoinTransaction.RunJoin: a crash inside a rollback is not among its endings; what it leads to is stated for one object by SecondRecoveryExactly.
- JoinTransaction.JoinInstallation.Install: directory synchronisation is taken to make the preceding rename durable.
- PipelineRun.TraceIsSnapshotPrefix: for events that carry registered schemas of the task's pipeline.
- TaskJournal.StoredRecordIsFold: for appends that let the store number the checkpoint, as every caller does, and fewer than 2^64 of them.
- TaskJournal.TaskStore.AppendTaskCheckpoint: a blank task ID is one of spaces, tabs, line feeds and carriage returns; other Unicode spaces are not modelled, nor is the list of intermediate blobs derived from the outputs.
- StatusCache.StatusTable.PruneTaskStatuses: the touch counter is unbounded, and every active status has metadata, which each store establishes.
- Escrow.Coordinator.ResumeEscrowTask: how the resumed request is rebuilt from the escrow record is not modelled.
- InviteToken.BuildPacket: the addresses are given; how they are discovered and rendered is not modelled.
- PeerRegistry.Registry.UpdatePeerService: an action that is neither add nor remove is not modelled, and schemas are not normalised.
- Ndjson.Writer.WriteFrame: write errors are not modelled.
