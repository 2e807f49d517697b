# State engine: a verified model

A Dafny 4.11 model of the Arcology state engine's commit path, its execution view, its
RLP storage codecs, its path algebra and its Ethereum account bookkeeping, with proofs.
`dafny verify dfyconfig.toml` checks everything.

## What is modelled

**The commit pipeline.** Transitions of parallel transactions are imported once. The same
cell objects go into an index by path, an index by transaction and the buffers of every
writer; rejecting or merging a transition is signalled only by setting the shared cell's
path to nil. Each writer drops such cells later, queues the generation in a sync and an
async precommit, and flushes all generations at block commit as "all deletes, then all
sets".

- `Cells` (StateCell.dfy) is the shared cell; `DeltaSequences` sorts and merges one path's
  transitions in place; `Batches` compares a batch with an in-order replay, key by key.
- `Finalization` says what one Finalize call does to each cell, without any order among
  the groups. `Pipelines` is the whole pipeline as a state machine.
- `Ledgers` is the reference: cells as imported, one merged value per path and Finalize
  call, moved along by precommits and commits. `Simulation`, `Runs`, `Reads`,
  `Determinism` and `Conservation` prove what holds over every legal run; `Witnesses` has
  the concrete runs behind the findings.
- `StoreBatches`, `LiveCache`, `LiveStorage`, `ExecutionCache` (Writers.dfy) and
  `Committer` are the classes; every method is proved to compute the machine's step, with
  index groups visited in an arbitrary order. `Execution` drives the objects through whole
  runs.

**The execution view.** `ExecutionView` is the layered store (local cells, pending wildcard
deletes, committed store) with lazy materialization and reads gated on the parent's record;
`EagerViews` is the simple map it presents; `ViewRuns` runs mixed calls on the object
against that map.

**Codecs.** `Rlp` is recursive length prefix encoding (Appendix B of the Ethereum Yellow
Paper) with the strict decoder; `Codecs` the number and byte-string codecs on top.

**Paths and accounts.** `Paths` has the segment scanner, parents, the platform's own paths
and Ethereum routing; `Accounts` the account update and read; `WorldState` the block-root
window and the grouping of dirty accounts.

## Assumptions about code that is not part of the repository

- The slice helpers (RemoveIf, MoveIf, MoveBothIf, ConcateDo) keep order, and SetBatch
  applies in order; the list of writers is not disturbed by splitting off the sync ones.
- ApplyDelta is a left fold of an arbitrary total function over the later transitions; an
  error in it panics in the source and is not modelled. Preload does not affect merging.
- Imported cells are new objects with a path, imported once. The storage filter depends on
  the cell's block-bound flag alone.
- sort.SliceStable is modelled by the insertion sort it uses on short slices (up to 20
  elements); `StableSortUnique` shows that with at most one SYSTEM cell every stable sort
  agrees, on slices of any length.
- A datum's Set is an arbitrary total function of the value before, if any, and the value
  written. A directory is written with an empty record, which replaces the one before.
- A container's value is an ordered set of child keys: setting a value adds the key at the
  end, a nil value removes it; setting a child on a missing record fails.
- The list of pending wildcard deletes does not change during a run.
- Nothing writes through the local cells a precommit published before the block's commits.
  They are the queued cells themselves, and the live cache reads them at its commit, the
  live storage at the async precommit.
- A number without limits is one whose limits are zero and the largest value of its width.
- Account storage keys come from an arbitrary function; the trie is a map.

## Findings

- A key set and then deleted in one block stays. Over whole runs a store is right about a
  key exactly if the last commit that touched the key did not flush a set and then a final
  delete of it (`Runs.KeyExact`, `Runs.EndToEnd`; `Batches.BatchVersusReplay` for one batch,
  `Batches.DeletedKeySurvivesBatch` and, for a legal run, `Witnesses.DeletedKeyStays` for
  instances). A later commit that touches the key
  repairs it, an eviction repairs the cache.
- Cells imported between a sync precommit and its async precommit are lost
  (`Conservation.EnqueueLosesImports`, `Witnesses.ImportBetweenPrecommitsIsLost`).
- A second sync precommit before the async one loses the generation made current by the
  first (`Conservation.ResetLosesCurrent`, `Witnesses.SecondSyncPrecommitLoses`).
- Between SyncCommit and AsyncCommit a read may see an old value, because deleted and
  evicted keys fall through to the store (`Reads.ReadBetweenCommits`,
  `Witnesses.StaleReadBetweenCommits`). The repository's README says updated entries must
  not be evicted before they are flushed; the commit evicts first.
- `Has` looks past pending wildcard deletes, so a write under a deleted parent passes
  (`ExecutionView.HasAgreesIff`, `ExecutionView.HasMissesPendingDelete`). The input needs a
  list of pending deletes that is not empty; in the repository only a test fills it.
- A SYSTEM delete outside container paths leaves the child named in its parent
  (`EagerViews.WriteKeepsMembership`, `EagerViews.SystemDeleteOrphans`), and a SYSTEM write
  there cannot be read back (`EagerViews.ReadBack`, `EagerViews.SystemWriteUnreadable`).
- The byte-string codec loses leading zeros (`Codecs.BytesRoundTrip`,
  `Codecs.LeadingZeroIsLost`); the comment above it says the length should be encoded, the
  code does not.
- Any path ending in a reserved suffix is taken for the account's own field, whatever
  precedes it (`Accounts.ReservedReadBackIff`, `Accounts.SecondNonceIsShadowed`,
  `Paths.AccountRouting`).
- With several SYSTEM cells on one path the comparator, which holds between any two of
  them, makes a short slice come out with them reversed (`DeltaSequences.SortedOfTx`).

## Model

| member | source | states |
|---|---|---|
| `DeltaSequences.SortedOrdered` | state/committer/delta_sequence.go:39-55 | the sorted sequence has SYSTEM first, then ascending transactions |
| `DeltaSequences.SortedPermutes` | state/committer/delta_sequence.go:39-55 | sorting neither loses nor duplicates a transition |
| `DeltaSequences.SortedOfTx` | state/committer/delta_sequence.go:44-53 | stability, for the insertion sort used on short slices: each transaction's own order is kept; SYSTEM cells alone come out reversed, since the comparator holds between any two of them |
| `DeltaSequences.SortDeterministic` | state/committer/delta_sequence.go:39-55 | import orders that agree on every transaction's own order sort to the same sequence; with several SYSTEM cells this is for groups of at most 20 transitions, the slices the library sorts by insertion |
| `DeltaSequences.StableSortUnique` | state/committer/delta_sequence.go:39-55 | with at most one SYSTEM cell any stable sort by this order gives this sequence |
| `DeltaSequences.MergeOrderIndependent` | state/committer/delta_sequence.go:69-72 | if Apply commutes, the merged value depends on the base and the multiset of deltas only |
| `DeltaSequences.MergedSteps` | state/committer/delta_sequence.go:69-72 | the merged value is reached from the first transition's own value by applying every later one in turn, none left out |
| `DeltaSequences.SortInPlace` | state/committer/delta_sequence.go:44-53 | on short slices: the in-place insertion sort computes the sorted sequence |
| `DeltaSequences.ApplyDelta` | state/committer/delta_sequence.go:69-72 | the loop leaves the first cell with the fold of all later values, and changes nothing else |
| `DeltaSequences.FlagMerged` | state/committer/delta_sequence.go:74-77 | every cell but the first loses its path; the first keeps it |
| `DeltaSequences.FinalizeSequence` | state/committer/delta_sequence.go:57-81 | the first sorted cell takes the merged value, all others are flagged with their values kept |
| `Batches.BatchApplyAt` | storage/execstorage/livecache/live_cache_writer.go:86-91 | a batch leaves each key at its last set, or absent if only deleted, or as it was if untouched |
| `Batches.BatchLeavesLastSet` | storage/execstorage/livecache/live_cache_writer.go:86-91 | told on the entries: the last set of a key stays, whatever deletes stand before or after it |
| `Batches.BatchWithoutSet` | storage/execstorage/livecache/live_cache_writer.go:86-91 | a key with deletes only is gone, a key without entries is as it was |
| `Batches.ReferenceIsLastRound` | state/committer/committer.go:134-152 | the reference at a key is the last round that has it |
| `Batches.BatchVersusReplay` | storage/execstorage/livecache/live_cache_writer.go:72-96 | the batch agrees with the in-order replay at a key if and only if the key is not set and then finally deleted in it |
| `Batches.DeletedKeySurvivesBatch` | storage/execstorage/livecache/live_cache_writer.go:90-91 | a key set and then deleted in one batch is still there |
| `Batches.BatchReachesReference` | storage/execstorage/livecache/live_cache_writer.go:72-96 | a batch with the operations of some rounds reaches their reference state, with the same exact exception |
| `Finalization.SurvivorIff` | state/committer/committer.go:134-145 | after Finalize a pending cell has path p iff it is the first of p's sorted admitted cells, and then has the merged value |
| `Finalization.SurvivorMerges` | state/committer/delta_sequence.go:57-81 | through the heap: the survivor ends with its own value and every later transition of its sorted group applied to it one after the other |
| `Finalization.SortedGroupIs` | state/committer/committer.go:117-145 | the group is the pending cells of the path that skip the check, are listed, or face an empty whitelist, each once, SYSTEM first and then by transaction |
| `Finalization.RoundMerges` | state/committer/committer.go:134-152 | a path is in the reference round iff it has a survivor that is not block-bound, with the value applying the whole group leaves |
| `Finalization.OneSurvivorPerPath` | state/committer/committer.go:117-152 | the nil-filtered buffer of a writer holds, per path, exactly the survivor if it passes the filter; a path has one iff some admitted transition has it |
| `Finalization.RoundWritten` | state/committer/committer.go:134-152 | what a storage writer's share of the generation writes is, key by key, the merged value per path |
| `Finalization.FinalizeFrame` | state/committer/committer.go:139-151 | no cell but the pending ones changes |
| `Finalization.FinalizeDeterministic` | state/committer/committer.go:134-152 | import interleavings that keep each transaction's order give the same cells, survivors, merged values and round; with several SYSTEM cells this is for groups of at most 20 transitions, the slices the library sorts by insertion |
| `Pipelines.MergedAligned` | storage/execstorage/livebackend/live_storage_indexer.go:110-130 | merged keys and encoded values have the same length |
| `Ledgers.EncodedEntriesOps` | storage/execstorage/livebackend/live_storage_indexer.go:80-107 | the parallel key and encoded buffers perform the encoded operations of the cells, key by key |
| `Ledgers.QueueEntriesSnoc` | storage/execstorage/livebackend/live_storage_indexer.go:110-130 | merging generations keeps keys and encoded values index-aligned |
| `Simulation.ImportKeeps` | state/committer/committer.go:103-114 | an import keeps the simulation with the ledger |
| `Simulation.FinalizeKeeps` | state/committer/committer.go:134-152 | so does a Finalize with any whitelist |
| `Simulation.SyncPrecommitKeeps` | state/committer/committer.go:182-191 | so does a sync precommit |
| `Simulation.ReplayIdempotent` | state/cache/execution_store_writer.go:36-42 | replaying the whole uncleared buffer over what earlier rounds published gives the survivors of the last round touching each path, and leaves every other local cell as it was |
| `Simulation.AsyncPrecommitKeeps` | state/committer/committer.go:194-201 | so does an async precommit |
| `Simulation.SyncCommitKeeps` | state/committer/committer.go:214-219 | so does a commit of the sync writers |
| `Simulation.AsyncCommitKeeps` | state/committer/committer.go:223-228 | so does a commit of the async writer |
| `Simulation.StepKeeps` | state/committer/committer.go:103-228 | every legal call keeps the simulation |
| `Runs.LegalIsReady` | storage/execstorage/livecache/live_cache_writer.go:78-84 | in a legal run no call meets a flagged or unknown cell: every queued cell still has its path at commit |
| `Runs.RunKeeps` | state/committer/committer.go:103-228 | every legal run can be executed and keeps the simulation |
| `Runs.SettledForever` | state/committer/committer.go:139-151 | no later call of any legal run changes a cell that a Finalize has been through |
| `Runs.SyncCommitExact` | storage/execstorage/livecache/live_cache_writer.go:72-96 | whatever the cache held before and whatever is evicted: a key the commit flushes operations on is right afterwards iff they are not a set followed by a final delete, or it is dropped; other keys stay as right as they were |
| `Runs.AsyncCommitExact` | storage/execstorage/livebackend/live_storage_writer.go:70-108 | the same for the decoded store, where nothing is dropped |
| `Runs.KeyExact` | state/committer/committer.go:103-228 | after every legal run the cache (dropped keys aside) and the decoded store are right about a key iff the last commit that touched the key dropped it or did not flush a set followed by a final delete |
| `Runs.EndToEnd` | state/committer/committer.go:103-228 | from agreeing stores, a legal run ends with the cache (dropped keys aside) and the decoded store equal to the merged values applied round by round iff every key is right |
| `Reads.LayeredRead` | storage/execstorage/livebackend/live_storage_writer.go:70-108 | where both layers are right, cache if present else decoded store is the reference value after both commits, whatever was evicted |
| `Reads.RunLayeredRead` | storage/execstorage/livebackend/live_storage_writer.go:70-108 | after every legal run, for keys the cache holds and, once the storage has caught up, for all others, the layered read is the reference value iff the last commit to touch the key in the layer that answers left it right |
| `Reads.ReadBetweenCommits` | storage/execstorage/livecache/live_cache_writer.go:90-92 | between the two commits that read is right exactly for cached keys and keys the unflushed rounds leave as they were |
| `Reads.StartHolds` | storage/execstorage/livecache/live_cache_writer.go:35-47 | new writers satisfy what the runs start from, whatever the stores and the local cells hold |
| `Reads.StartViews` | storage/execstorage/livecache/live_cache_writer.go:35-47 | the stores agree with the reference at the start if the storage holds it and the cache some of its values |
| `Reads.PublishedSurvivor` | state/cache/execution_store_writer.go:36-52 | the execution cache maps each path to the survivor of the last published round touching it, which still carries the path and that round's merged value; untouched paths keep the cell they had |
| `Reads.CommitUncovers` | state/cache/execution_store_writer.go:46-52 | after a commit of the sync writers nothing is local and a read goes to the live cache and storage |
| `Reads.PublishedRead` | state/cache/execution_state_store.go:259-305 | from a sync precommit to the commit, execution cache, then live cache, then store gives the reference over all published rounds for a stored path iff one of them touched it or the two stores were right before |
| `Reads.RunTidy` | state/committer/committer.go:182-228 | over every legal run that commits whole blocks the storage writers and the execution cache have seen the same rounds |
| `Reads.RunRead` | state/cache/execution_state_store.go:259-305 | after every legal run that commits whole blocks, for the same keys, the three-layer read of a stored path is the reference over all published rounds iff one of them touched it or that last commit left the layer that answers right |
| `Conservation.RunConserves` | storage/execstorage/livecache/live_cache_writer.go:56-65 | over every legal run each kept cell is in exactly one of the buffers or queued generations, or committed, or flagged and dropped |
| `Conservation.EnqueueLosesImports` | storage/execstorage/livecache/live_cache_writer.go:59-63 | the async precommit keeps all unflagged cells iff none of them is in the import buffer |
| `Conservation.ResetLosesCurrent` | storage/execstorage/livecache/live_cache_indexer.go:59-62 | the sync precommit keeps all unflagged cells iff the generation it overwrites has none |
| `Witnesses.ImportBetweenPrecommitsIsLost` | storage/execstorage/livecache/live_cache_writer.go:59-63 | a run in which a cell imported between the two precommits is nowhere afterwards |
| `Witnesses.DeletedKeyStays` | storage/execstorage/livecache/live_cache_writer.go:86-91 | a legal run that sets a key in one generation and deletes it in the next, after whose commit the cache still has it |
| `Witnesses.SecondSyncPrecommitLoses` | storage/execstorage/livecache/live_cache_indexer.go:59-62 | a run in which a second sync precommit loses the current generation |
| `Witnesses.StaleReadBetweenCommits` | storage/execstorage/livecache/live_cache_writer.go:90-92 | a legal run that deletes a key and commits the block to the cache, after which a read gives the old value |
| `StoreBatches.SplitDeleted` | storage/execstorage/livecache/live_cache_writer.go:86-88 | the split takes exactly the deleted keys out of two aligned buffers, order kept |
| `StoreBatches.FlushBatch` | storage/execstorage/livecache/live_cache_writer.go:86-91 | split, delete and set compute the batch |
| `LiveCache.LiveCacheIndexer.Import` | storage/execstorage/livecache/live_cache_indexer.go:49-55 | the cells passing the filter are appended |
| `LiveCache.LiveCacheIndexer.Reset` | storage/execstorage/livecache/live_cache_indexer.go:59-62 | the import buffer becomes the buffer |
| `LiveCache.LiveCacheIndexer.Finalize` | storage/execstorage/livecache/live_cache_indexer.go:64-75 | flagged cells are dropped; keys and values are those of the rest |
| `LiveCache.LiveCacheWriter.Precommit` | storage/execstorage/livecache/live_cache_writer.go:56-65 | both phases compute the machine's reset and enqueue |
| `LiveCache.LiveCacheWriter.Merge` | storage/execstorage/livecache/live_cache_indexer.go:79-95 | the generations' buffers in order |
| `LiveCache.LiveCacheWriter.Commit` | storage/execstorage/livecache/live_cache_writer.go:72-96 | the cache becomes the batch over the merged generations, minus evictions; the queue is empty |
| `LiveStorage.LiveStgIndexer.Import` | storage/execstorage/livebackend/live_storage_indexer.go:67-73 | unflagged cells passing the filter are appended |
| `LiveStorage.LiveStgIndexer.Finalize` | storage/execstorage/livebackend/live_storage_indexer.go:80-107 | keys and encoded values of the unflagged cells, index by index |
| `LiveStorage.LiveStorageWriter.Precommit` | storage/execstorage/livebackend/live_storage_writer.go:58-67 | both phases compute the machine's reset and enqueue |
| `LiveStorage.LiveStorageWriter.Merge` | storage/execstorage/livebackend/live_storage_indexer.go:110-130 | keys and encoded values of all generations in order |
| `LiveStorage.LiveStorageWriter.Commit` | storage/execstorage/livebackend/live_storage_writer.go:70-108 | the store becomes the batch over the merged generations; the queue is empty |
| `ExecutionCache.ExecutionCacheWriter.Import` | state/cache/execution_store_indexer.go:48-50 | all transitions are appended |
| `ExecutionCache.ExecutionCacheWriter.Precommit` | state/cache/execution_store_writer.go:36-42 | flagged cells leave the buffer; the rest is replayed into the local cells, the buffer kept |
| `ExecutionCache.ExecutionCacheWriter.Commit` | state/cache/execution_store_writer.go:46-52 | buffer and local cells are emptied |
| `Committer.ImportByPath` | state/committer/indexer.go:34-53 | the path index groups exactly the pending cells by path, in import order |
| `Committer.ImportByTx` | state/committer/indexer.go:58-71 | the transaction index groups exactly the pending cells that do not skip the conflict check |
| `Committer.IndexesPartition` | state/committer/indexer.go:34-71 | each pending cell is in exactly one path group, and in exactly one transaction group iff it does not skip the check |
| `Committer.Whitelist` | state/committer/committer.go:117-131 | exactly the pending cells not admitted are flagged, whatever order the groups are visited in |
| `Committer.FinalizeGroups` | state/committer/committer.go:139-145 | every cell ends in its finalized state, whatever order the path groups are visited in |
| `Committer.StateCommitter.Import` | state/committer/committer.go:103-114 | indexes and all writers take the same cells: the machine's import step |
| `Committer.StateCommitter.Finalize` | state/committer/committer.go:134-152 | the machine's finalize step, through the aliased cells; both indexes cleared |
| `Committer.StateCommitter.SyncPrecommit` | state/committer/committer.go:182-191 | the machine's sync precommit step |
| `Committer.StateCommitter.AsyncPrecommit` | state/committer/committer.go:194-201 | the machine's async precommit step |
| `Committer.StateCommitter.SyncCommit` | state/committer/committer.go:214-219 | the machine's sync commit step |
| `Committer.StateCommitter.AsyncCommit` | state/committer/committer.go:223-228 | the machine's async commit step |
| `Execution.Execute` | state/committer/committer.go:103-228 | any run of calls on the objects ends in the machine's state |
| `Execution.ExecuteBlocks` | state/committer/committer.go:103-228 | the per-key condition on the objects: after any legal run the real cache and store are right about a key iff the last commit that touched it dropped it or flushed no set followed by a final delete |
| `Determinism.RunDeterministic` | state/committer/committer.go:103-228 | two legal runs whose imports differ only in batching, place and interleaving, each transaction's order kept, leave the same cache, store and published survivors; with several SYSTEM cells this is for groups of at most 20 transitions, the slices the library sorts by insertion |
| `EagerViews.WriteKeepsMembership` | state/cache/execution_state_store.go:367-422 | a plain-path write keeps "every named child has a value" iff it is not a SYSTEM delete of a named child outside container paths |
| `EagerViews.SystemDeleteOrphans` | state/cache/execution_state_store.go:387-397 | such a delete breaks the invariant |
| `EagerViews.MembershipInvariant` | state/cache/execution_state_store.go:367-422 | over every run of non-SYSTEM plain-path writes and deletes, successful or not, the invariant holds |
| `EagerViews.NamedIffReadable` | state/cache/execution_state_store.go:208-249 | a path whose membership is checked has a value through ReadCell iff its parent names it |
| `EagerViews.ReadBack` | state/cache/execution_state_store.go:367-422 | exactly when, after a plain-path write, a read gives what the cell's Set made of the value before and the value written |
| `EagerViews.WriteSets` | state/cache/execution_state_store.go:376-377 | a datum is set on the value before it, or on none; a delete leaves nothing |
| `Paths.PlainIff` | state/cache/execution_state_store.go:375 | plain paths are those ending neither in "*" nor in "[:]" |
| `EagerViews.OrphanRefused` | state/cache/execution_state_store.go:367-422 | an ordinary write whose parent is not there fails and changes nothing |
| `EagerViews.WriteOkIff` | state/cache/execution_state_store.go:367-422 | a write succeeds iff its parent is there or the writer is SYSTEM and the record is there that a container's final look, or elsewhere the update, asks for |
| `EagerViews.HasIff` | state/cache/execution_state_store.go:509-513 | paths of up to 22 characters are there, others iff the view has them |
| `EagerViews.ContainerRecords` | state/cache/execution_state_store.go:380-396 | a write under an account's container directory puts the child in its record, whoever writes |
| `EagerViews.ContainerUnlisted` | state/cache/execution_state_store.go:208-249 | a child the container's record does not name reads as nothing |
| `EagerViews.SystemWriteUnreadable` | state/cache/execution_state_store.go:387-397 | a SYSTEM write that succeeds and stores a value no read finds |
| `EagerViews.WriteFrame` | state/cache/execution_state_store.go:367-422 | after a plain-path write no other path reads differently but the parent's record and the path's own children |
| `EagerViews.PopUndoesPush` | state/cache/state_cache_path.go:173-192 | popping after a push of a fresh plain key returns what Set stored in the new cell and restores the whole view |
| `EagerViews.PopOutcome` | state/cache/state_cache_path.go:173-185 | a pop fails on a non-directory and on an empty record and panics on a missing one, changing nothing |
| `EagerViews.PopTakesLast` | state/cache/state_cache_path.go:173-192 | from a record that names children it gives the last one's value and removes exactly that child |
| `EagerViews.StackDiscipline` | state/cache/state_cache_path.go:173-192 | n fresh plain pushes and n pops return what was stored in reverse and restore the whole view |
| `EagerViews.ContainerIsStack` | state/cache/state_cache_path.go:173-192 | so in every account's container directory, for every writer |
| `ExecutionView.MaterializeKeepsView` | state/cache/execution_state_store.go:259-305 | no resolution changes what any path resolves to |
| `ExecutionView.EagerPut` | state/cache/execution_state_store.go:376-377 | setting a local cell sets exactly that path of the view |
| `ExecutionView.FreshView` | state/cache/execution_state_store.go:259-305 | a store without local cells shows what is committed and no pending delete covers |
| `ExecutionView.LazyEqualsEager` | state/cache/execution_state_store.go:259-305 | after any sequence of reads the view is the same map, and every resolved path is local or not under a pending delete |
| `ExecutionView.HasAgreesIff` | state/cache/execution_state_store.go:509-525 | Has agrees with the view iff the path is not an unmaterialized committed path under a pending delete |
| `ExecutionView.HasMissesPendingDelete` | state/cache/execution_state_store.go:509-525 | a committed path under a pending delete is reported as there |
| `ExecutionView.HasAfterReads` | state/cache/execution_state_store.go:509-525 | once a path was resolved, Has agrees with the view for paths beyond the account prefix |
| `ExecutionView.ReadResolves` | state/cache/execution_state_store.go:208-305 | exactly which paths a read leaves a local cell for |
| `ExecutionView.WriteResolves` | state/cache/execution_state_store.go:367-396 | a write leaves one for its path and the parent it updates, and takes none away |
| `ExecutionView.ExecutionStateStore.ResolveWildcardDeletion` | state/cache/state_cache_wildcard.go:28-43 | found iff some pending prefix matches; then the cell is new and deleted, otherwise there is none |
| `ExecutionView.ExecutionStateStore.ResolveCellForRead` | state/cache/execution_state_store.go:259-305 | returns the layered value, materializes as specified, keeps the view |
| `ExecutionView.ExecutionStateStore.ExistsInParent` | state/cache/execution_state_store.go:208-227 | true iff no record is asked for or the parent's record names the child |
| `ExecutionView.ExecutionStateStore.ReadCell` | state/cache/execution_state_store.go:231-249 | returns the gated value of the eager view and keeps the view |
| `ExecutionView.ExecutionStateStore.Has` | state/cache/execution_state_store.go:509-525 | the view's own answer, or true for a committed path under a pending delete that no call has resolved yet |
| `ExecutionView.ExecutionStateStore.Write` | state/cache/execution_state_store.go:367-422 | on plain paths view and outcome are those of the eager write, given what Has answers for the parent |
| `ExecutionView.ExecutionStateStore.PopBack` | state/cache/state_cache_path.go:173-192 | view, value and outcome are those of the eager pop; a missing record panics |
| `ViewRuns.CallKeeps` | state/cache/execution_state_store.go:367-422 | reads, plain-path writes and pops of ordinary transactions keep the membership invariant |
| `ViewRuns.PerformCalls` | state/cache/execution_state_store.go:231-422 | any run of reads, writes and pops on the object gives exactly the eager map's replies, view and resolved paths, over any pending deletes, and keeps the invariant |
| `Rlp.RoundTrip` | storage/codec/ethcodec/rlp/commutative/uint256_rlp_codec.go:30-44 | every item, nested to any depth, short or long headers, is read back whatever follows it |
| `Rlp.OnlyEncodingsDecode` | storage/codec/ethcodec/rlp/commutative/uint256_rlp_codec.go:42-44 | whatever decodes, encoded again, is the input |
| `Rlp.OnlyWholeEncodingsDecode` | storage/codec/ethcodec/rlp/commutative/uint256_rlp_codec.go:42-44 | a whole input decodes only if nothing follows its item's encoding |
| `Rlp.EncodingIsPrefixFree` | storage/codec/ethcodec/rlp/commutative/uint64_rlp_codec.go:45-53 | no encoding is another item's encoding or a prefix of it |
| `Rlp.StringFormat` | storage/codec/ethcodec/rlp/commutative/uint256_rlp_codec.go:35-36 | strings are encoded as Appendix B of the Yellow Paper says, with its numbers |
| `Rlp.ListFormat` | storage/codec/ethcodec/rlp/commutative/uint256_rlp_codec.go:31-34 | and so are lists |
| `Rlp.BigEndian` | storage/codec/ethcodec/rlp/commutative/uint256_rlp_codec.go:35-36 | a number's bytes stand most significant first |
| `Rlp.ListExample` | storage/codec/ethcodec/rlp/commutative/uint256_rlp_codec.go:31-34 | the list of "cat" and "dog" |
| `Rlp.StringExamples` | storage/codec/ethcodec/rlp/commutative/uint256_rlp_codec.go:35-36 | the empty string, "dog", 1024 and the empty list |
| `Codecs.ListFormIffLimits` | storage/codec/ethcodec/rlp/commutative/uint256_rlp_codec.go:30-37 | the first byte tells the list form, which is used iff the number has limits |
| `Codecs.Uint64RoundTrip` | storage/codec/ethcodec/rlp/commutative/uint64_rlp_codec.go:29-62 | value and limits of every Uint64 come back |
| `Codecs.Uint64Format` | storage/codec/ethcodec/rlp/commutative/uint64_rlp_codec.go:29-40 | the stored bytes: a bare integer exactly for limits 0 and 2^64 - 1, else the list of value, min, max |
| `Codecs.Uint64Lists` | storage/codec/ethcodec/rlp/commutative/uint64_rlp_codec.go:45-61 | a list is taken iff it has three or more canonical integers and no other element; the first three count |
| `Codecs.LowBitsKept` | storage/codec/ethcodec/rlp/commutative/uint64_rlp_codec.go:51-55 | of a bare integer the low 64 bits (256 for U256) are kept and the limits are any |
| `Codecs.LeadingZerosInLists` | storage/codec/ethcodec/rlp/commutative/uint64_rlp_codec.go:45-61 | a list number with leading zeros is refused here and accepted by U256 |
| `Codecs.U256RoundTrip` | storage/codec/ethcodec/rlp/commutative/uint256_rlp_codec.go:30-67 | value and limits of every U256 come back |
| `Codecs.U256Format` | storage/codec/ethcodec/rlp/commutative/uint256_rlp_codec.go:30-37 | the stored bytes, as for Uint64 with 2^256 - 1 |
| `Codecs.Int64RoundTrip` | storage/codec/ethcodec/rlp/commutative/int64_rlp_codec.go:28-65 | unbounded numbers take 9 bytes, bounded 28, and both come back |
| `Codecs.Int64Format` | storage/codec/ethcodec/rlp/commutative/int64_rlp_codec.go:28-38 | the stored bytes: value, min, max in that order, eight bytes each |
| `Codecs.NineBytes` | storage/codec/ethcodec/rlp/commutative/int64_rlp_codec.go:40-51 | nine bytes are a bare number behind 0x88, or an error |
| `Codecs.BytesRoundTrip` | storage/codec/ethcodec/rlp/noncommutative/bytes_rlp_codec.go:34-45 | the string comes back without leading zeros, so unchanged iff it has none |
| `Rlp.StripsLeadingZeros` | storage/codec/ethcodec/rlp/noncommutative/bytes_rlp_codec.go:34-37 | what is lost is exactly the leading zeros |
| `Codecs.LeadingZeroIsLost` | storage/codec/ethcodec/rlp/noncommutative/bytes_rlp_codec.go:34-45 | a string that does not come back |
| `Paths.GetSegmentAt` | common/path_types.go:107-143 | the scanner indexes the list of non-empty pieces, for every string and number |
| `Paths.SegmentsAtSlash` | common/path_types.go:104-106 | a slash separates: the segments of a/b are those of a and those of b |
| `Paths.SegmentOfPlain` | common/path_types.go:104-106 | a non-empty string without slashes is its only segment |
| `Paths.PiecesPlain` | common/path_types.go:104-106 | no segment is empty or has a slash |
| `Paths.ParentSplits` | common/path_types.go:88-94 | parent and child key make up the path; the parent is a shorter directory |
| `Paths.ParentOfChild` | common/path_types.go:88-94 | a directory and a child key are recovered from their concatenation |
| `Paths.AncestorsEnd` | common/path_types.go:88-94 | going up strictly shrinks the path until the empty path or the root |
| `Paths.CheckedIsTracked` | common/platform.go:82-96 | a path checked on read is one whose parent a write records, for SYSTEM exactly under container paths |
| `Paths.AccountSysPaths` | common/platform.go:36-50 | of an account's paths exactly the eight default ones are system paths |
| `Paths.ContainerOfAccount` | common/platform.go:82-96 | an account's container directory records its children for every writer and reads check them |
| `Paths.NativeOfAccount` | common/platform.go:82-96 | children of the native directory are neither recorded nor checked |
| `Paths.ShouldPersistToEth` | common/path_types.go:55-78 | computes: long enough, and a reserved suffix or a non-directory whose sixth segment is "native" |
| `Paths.AccountSegments` | common/constants.go:43-48 | an account path's segments are the three of the prefix, the address, and those under the account |
| `Paths.AccountRouting` | common/path_types.go:55-78 | under an account exactly the reserved suffixes and the non-directory entries with second segment "native" are routed to Ethereum |
| `Paths.ReservedRouted` | common/path_types.go:55-78 | an account's nonce, balance and code are routed to Ethereum, its root is not |
| `Paths.StorageRouting` | common/path_types.go:55-78 | native slots are routed; container entries only if their name is reserved |
| `Accounts.TakeFirst` | storage/ethstorage/eth_account.go:281-287 | the first matching pair leaves both lists, which stay aligned |
| `Accounts.Account.UpdateAccountStorageTrie` | storage/ethstorage/eth_account.go:280-348 | the four passes and the trie update compute the specified account |
| `Accounts.Account.Get` | storage/ethstorage/eth_account.go:244-277 | reads as specified, with an error if the code database lacks the code; loading the code changes no later read |
| `Accounts.Passes` | storage/ethstorage/eth_account.go:281-318 | each non-root key goes to exactly one of nonce, balance, code or trie |
| `Accounts.ReadBack` | storage/ethstorage/eth_account.go:244-348 | every key of an update but the root is read back with its value |
| `Accounts.UpdateKeepsStorage` | storage/ethstorage/eth_account.go:280-348 | a storage path whose slot no entry has reads as before |
| `Accounts.UpdateKeepsReserved` | storage/ethstorage/eth_account.go:289-318 | a reserved path whose suffix no entry has reads as before |
| `Accounts.RootIsNotStored` | storage/ethstorage/eth_account.go:281-287 | the root entry is taken out and not stored |
| `Accounts.RootIsTheAccount` | storage/ethstorage/eth_account.go:281-287 | under an account the root entry is the account's own path |
| `Accounts.CodeReloads` | storage/ethstorage/eth_account.go:261-268 | code written by an update is read back from the database once it is dropped from memory |
| `Accounts.UnloadedCode` | storage/ethstorage/eth_account.go:261-268 | code not in memory is the database's, and a read fails iff the database lacks it |
| `Accounts.CodeStays` | storage/ethstorage/eth_account.go:306-318 | an update takes no other code out of the database |
| `Accounts.TrieOrderIndependent` | storage/ethstorage/eth_account.go:334-341 | with no slot twice the trie does not depend on the order of the entries, so the sort before the update does not matter |
| `Accounts.ReservedReadBackIff` | storage/ethstorage/eth_account.go:289-318 | with several entries of one reserved suffix, one is read back iff it carries the first one's value |
| `Accounts.SecondNonceIsShadowed` | storage/ethstorage/eth_account.go:289-296 | a second, different "/nonce" entry is not read back |
| `WorldState.EthWorldState.RecordRoot` | storage/ethstorage/eth_world_state.go:337-344 | drops the oldest roots until there is room, then records; never more than 1024 |
| `WorldState.WindowBound` | storage/ethstorage/eth_world_state.go:337-344 | after any sequence of calls there are at most 1024 roots |
| `WorldState.WindowIsLatest` | storage/ethstorage/eth_world_state.go:337-344 | under increasing block numbers the window is exactly the latest 1024 roots |
| `WorldState.WindowHolds` | storage/ethstorage/eth_world_state.go:337-344 | a call's root is kept, unchanged, iff it is among the last 1024 |
| `WorldState.GroupByAddress` | storage/ethstorage/eth_world_state.go:348-358 | each address's group is its non-nil dirty accounts in order |
| `WorldState.UniqueDirties` | storage/ethstorage/eth_world_state.go:346-359 | the groups partition the non-nil dirty accounts as a multiset, one address per group, no address twice |

## Left out

- The Ethereum storage writer as a participant of the pipeline: its account update and root window are modelled on their own.
- Merkle tries, hashing, databases, proofs and `op/`: foreign libraries; a map and an arbitrary key function stand in.
- Store write errors: SetBatch and DeleteBatch succeed.
- Cache eviction policy: the set of evicted keys is an arbitrary parameter.
- `DeltaSequences.SortInPlace`: slices longer than 20 elements are sorted by merging blocks, which is not modelled; with at most one SYSTEM cell the result is the same.
- `DeltaSequences.SortDeterministic`: for several SYSTEM cells on one path it holds for short slices only, for the same reason; so do `Finalization.FinalizeDeterministic` and `Determinism.RunDeterministic`.
- `DeltaSequences.SortedOfTx`: the reversal of SYSTEM cells is shown for short slices only, for the same reason.
- `Committer.StateCommitter.SyncCommit`: asks that queued cells still have a path, where the source would panic; `Runs.LegalIsReady` shows legal runs meet it.
- `ExecutionView.ExecutionStateStore.Write`: plain paths only; for paths ending in "*" or "[:]" the source sets no cell and leaves the parent's record to the library. A directory is written empty.
- `ExecutionView.ExecutionStateStore.PopBack`: children whose keys end like wildcards are excluded.
- `Codecs.Int64RoundTrip`: the library's fixed-width number codec is a parameter, required to give eight bytes and to decode them.
- `Codecs.Uint64RoundTrip`: a list with fewer than three elements is a decoding error here, a panic in the source.
- `Accounts.Account.UpdateAccountStorageTrie`: reserved entries must carry values (the source dereferences them); values are stored as they are, the conversion to and from nonce, balance and code types is not modelled.
- `Accounts.Account.Get`: values are returned as they are stored; the conversions from balance, nonce and code types are not modelled.
- The sixteen shards of the code database, chosen by the path's first byte: one map stands for them; account paths all begin alike.
- Access counters, gas and size accounting, memory pools, printing, checksums: library-defined or easy.
- Export, Insert and the conversion of wildcards to cells: they add only easy members.
- Block-bound reset of system paths inside the storage filter: the filter is a pure predicate.
- Multi-level wildcard and parent deletion: the source says it is unsupported.
- Simple codecs (String, Path, Uint32, BigInt), type dispatch and tagging; account address parsing.
- Goroutine scheduling: parallel loops are loops over the groups in an arbitrary order.
