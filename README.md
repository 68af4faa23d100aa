# Clustered metadata of a vector search engine, in Dafny

This project models the metadata layer of a clustered vector database.
Each peer keeps:

- a **table of contents**: its collections, an alias mapping from
  alternative names to collections, a write lock and the addresses of the
  known peers;
- a **consensus state**: the raft log, the hard state, the membership
  configuration and the snapshot metadata, plus the queue of committed
  entries not yet applied.

Committed entries go round a loop. Collection operations (create, update,
delete, alias changes, shard transfers, replica states) run against the
table of contents. Membership changes add learners and remove peers. A
snapshot replaces the collections, the aliases and the peer addresses, and
clears the log.

The project also models:

- the raft storage interface (`first_index`, `last_index`, `term`,
  `entries`, `snapshot`), proved to agree with the raft library's in-memory
  storage (log compaction and snapshots as in section 7 of the Raft paper by
  Ongaro and Ousterhout);
- the counters of failed message sends;
- the payload operations and how they are split across shards;
- the effect area of an update operation;
- the soft-delete flag file of memory-mapped vector storage.

Modules, one per file:

- `Common`: `Option`, `Result` and the storage errors.
- `CollectionTypes`: shard placement and the published state of a collection.
- `CollectionMetaOps`: the metadata operations and their `take_*`/`set_*` helpers.
- `PayloadOps`: the payload operations and their split by shard.
- `OperationEffect`: the effect area of an operation.
- `TocSpec`: the table of contents as functions of the collections and aliases.
- `Toc`: the `TableOfContent` class, which updates its fields in place and is proved against `TocSpec`.
- `RaftLog`: log entries, lookup in the write-ahead log, `limit_size`, the in-memory reference storage and the apply-progress queue.
- `Consensus`: the `ConsensusState` class and the apply loop.
- `MmapVectorStorage`: the `MmapVectors` class over its flag array.

## Model

| member | source | states |
|---|---|---|
| CollectionMetaOps.FromConversionsWrapUnchanged | lib/storage/src/content_manager/collection_meta_ops.rs:70-86 | each `From` conversion lands in its own alias-operation variant and carries its argument unchanged |
| CollectionMetaOps.FromConversionsOnto | lib/storage/src/content_manager/collection_meta_ops.rs:64-86 | every alias operation is the conversion of the struct it carries, so unwrapping and converting back gives the same operation |
| CollectionMetaOps.ShardDistributionProposal.ToDistribution | lib/storage/src/content_manager/toc.rs:529 | converting a placement proposal keeps its shards and, for each shard, exactly its peers |
| CollectionMetaOps.CreateCollectionOperation.TakeDistribution | lib/storage/src/content_manager/collection_meta_ops.rs:147-149 | hands back the stored placement and leaves the operation with none and otherwise unchanged |
| CollectionMetaOps.CreateCollectionOperation.SetDistribution | lib/storage/src/content_manager/collection_meta_ops.rs:151-153 | stores the placement and changes nothing else |
| CollectionMetaOps.NewCreateCollectionOperation | lib/storage/src/content_manager/collection_meta_ops.rs:135-141 | a new create operation has the given name and parameters and no placement |
| CollectionMetaOps.DistributionTakeSet | lib/storage/src/content_manager/collection_meta_ops.rs:134-154 | after a take no placement is set; a take finds a placement exactly when one is set; set then take returns the value set |
| CollectionMetaOps.UpdateCollectionOperation.TakeShardReplicaChanges | lib/storage/src/content_manager/collection_meta_ops.rs:196-198 | hands back the stored replica changes and clears them, keeping the rest |
| CollectionMetaOps.UpdateCollectionOperation.SetShardReplicaChanges | lib/storage/src/content_manager/collection_meta_ops.rs:200-206 | an empty list is stored as no changes, any other list as given; name and update stay |
| CollectionMetaOps.NewEmptyUpdate | lib/storage/src/content_manager/collection_meta_ops.rs:177-186 | an empty update has the name, no optimizer or parameter diff and no replica changes |
| CollectionMetaOps.NewUpdate | lib/storage/src/content_manager/collection_meta_ops.rs:188-194 | an update has the name, the given diffs and no replica changes |
| CollectionMetaOps.ReplicaChangesTakeSet | lib/storage/src/content_manager/collection_meta_ops.rs:196-206 | set then take returns a non-empty list unchanged (none for an empty one) and clears the field; a second take finds nothing |
| CollectionTypes.AllLocal | lib/storage/src/content_manager/toc.rs:525-528 | the default placement has shards `0 .. n`, with `n` the requested shard number or 1, each on this peer only |
| CollectionTypes.AllLocalEmptyIff | lib/storage/src/content_manager/toc.rs:525-528 | the default placement has no shard exactly when zero shards are requested |
| CollectionTypes.WithoutPeer | lib/storage/src/content_manager/toc.rs:1160-1166 | dropping a peer keeps the configuration, transfers and shard ids, removes the peer from every shard's replicas and nothing else |
| CollectionTypes.WithoutPeerKeepsReplicas | lib/storage/src/content_manager/toc.rs:1198-1214 | when the peer is never a shard's only replica, every shard that had a replica still has one after the removal |
| TocSpec.Resolve | lib/storage/src/content_manager/toc.rs:215-228 | a name resolves exactly when its alias target (or, failing an alias, the name itself) is a collection; the result is that collection, and `NotFound` otherwise |
| TocSpec.CreateAliasChecks | lib/storage/src/content_manager/toc.rs:475-490 | creating an alias succeeds exactly when the target is a collection and the alias name is not, with `NotFound` for a missing target and `BadInput` (collection already exists) for an alias name that is a collection; the new alias resolves to the target |
| TocSpec.RenameAliasMoves | lib/storage/src/content_manager/toc.rs:496-505 | a rename succeeds exactly when the old alias exists; the new name then points where the old one did, the old name is gone and other aliases stay |
| TocSpec.DeleteAliasRemoves | lib/storage/src/content_manager/toc.rs:491-495 | deleting an alias never fails and removes exactly that alias |
| TocSpec.AliasActionsCompose | lib/storage/src/content_manager/toc.rs:473-507 | running two action lists one after the other is running their concatenation, and the first failure stops the rest |
| TocSpec.SingleAliasAction | lib/storage/src/content_manager/toc.rs:473-506 | a one-action list fails or succeeds as that action does |
| TocSpec.CreateDeleteRenameScenario | lib/storage/tests/alias_tests.rs:106-131 | create, delete and rename in one list succeed, and the renamed alias resolves to the collection |
| TocSpec.DeletedCollectionAliasesDangle | lib/storage/src/content_manager/toc.rs:447-462 | aliases of a deleted collection stay but no longer resolve (`NotFound`) |
| TocSpec.ValidateCreateOutcome | lib/storage/src/content_manager/toc.rs:247-286 | creation succeeds exactly when the name is free and the shard count, replication factor and write consistency factor are non-zero; a taken name gives `BadInput` with the already-exists message, zero counts `BadInput` with their own messages; the parameters take their defaults and the placement's shard count |
| TocSpec.AllLocalShardNumberChecked | lib/storage/src/content_manager/toc.rs:266-286 | with the default placement and non-zero factors, creating a new name is accepted exactly when the requested shard number is not zero |
| TocSpec.WithoutPeerEverywhere | lib/storage/src/content_manager/toc.rs:1160-1166 | every collection is kept, with the peer dropped from its replicas |
| TocSpec.AddressesAfterRemoval | lib/storage/src/content_manager/toc.rs:1217-1234 | removing another peer forgets only that peer; removing this peer forgets every other peer; remaining addresses are unchanged |
| TocSpec.RemovalKeepsEveryShard | lib/storage/src/content_manager/toc.rs:1193-1237 | a removal the check lets through leaves the peer without shards and keeps a replica for every shard that had one |
| TocSpec.RemovalChecksAgreeWithoutAliases | lib/storage/src/content_manager/toc.rs:1198-1211 | without aliases, the check as written and the intended check refuse the same removals |
| TocSpec.RemovalAsWrittenMissesShadowedCollection | lib/storage/src/content_manager/toc.rs:1198-1211 | the as-written check lets through a removal that leaves a shard with no replica (see Findings) |
| TocSpec.FromShardsInfo | lib/storage/src/content_manager/toc.rs:986-998 | the placement of a collection created from a snapshot has the snapshot's shards, each on exactly its replica peers |
| TocSpec.OnPeerCreatedEffect | lib/storage/src/content_manager/toc.rs:345-373 | with consensus, exactly one activation proposal is appended and nothing else changes; alone, nothing is proposed and no collection appears or disappears |
| TocSpec.ActivationProposals | lib/storage/src/content_manager/toc.rs:338-341 | one activation proposal per local shard, in the shards' order |
| TocSpec.ActivateShardsInCluster | lib/storage/src/content_manager/toc.rs:338-373 | with consensus, activating the local shards never fails and appends exactly their activation proposals, in order |
| TocSpec.ActivateShardsSingleNode | lib/storage/src/content_manager/toc.rs:338-373 | alone, activating shards proposes nothing and keeps the set of collections |
| TocSpec.EmptyUpdateChangesNothing | lib/storage/src/content_manager/toc.rs:425-445 | an update with no diff and no replica changes succeeds and leaves the collection as it was |
| TocSpec.TransferEffect | lib/storage/src/content_manager/toc.rs:609-674 | a transfer start that fails validation against the known peers, the shard's replicas and the running transfers is refused with that error |
| TocSpec.Reconciled | lib/storage/src/content_manager/toc.rs:950-1034 | after a snapshot the collections are exactly the snapshot's, each reconciled from the local one or created |
| TocSpec.ReconcileWithOwnSnapshot | lib/storage/src/content_manager/toc.rs:939-1034 | applying a table's own snapshot always succeeds and changes no collection |
| TocSpec.SingleNodeSnapshotKeepsLocalStates | lib/storage/src/content_manager/toc.rs:956-985 | alone, a snapshot never fails and keeps the state of every local collection it names |
| TocSpec.UpToDateCollectionUntouched | lib/storage/src/content_manager/toc.rs:958-985 | a local collection already in its snapshot state is left as it is |
| TocSpec.ReconcileOneReadsOneEntry | lib/storage/src/content_manager/toc.rs:956-985 | reconciling one snapshot collection depends only on the local collection of that name |
| TocSpec.StoppedReconcileIsPartial | lib/storage/src/content_manager/toc.rs:956-1014 | a reconciliation stopped with some snapshot collections left over has lost no local collection, and every new or changed one is reconciled as the snapshot says |
| TocSpec.ReconcileStep | lib/storage/src/content_manager/toc.rs:956-1014 | reconciling the next snapshot collection against the partly reconciled map gives what it gives against the local map, and when it succeeds one more collection counts as reconciled |
| TocSpec.DeletionUnderGuard | lib/storage/src/content_manager/toc.rs:955-1025 | under the `collections` guard taken at the start, the deletion loop never finishes once it reaches a name outside the snapshot, because `delete_collection` waits for the same lock (toc.rs:448); otherwise it finishes having deleted nothing |
| TocSpec.SnapshotDeletionAsWritten | lib/storage/src/content_manager/toc.rs:950-1025 | as written, after the first loop succeeds the snapshot call never returns exactly when some local collection is missing from the snapshot |
| TocSpec.DeletionThroughGuard | lib/storage/src/content_manager/toc.rs:1016-1025 | removing through the guard already held leaves exactly the kept collections and those not visited; over all the keys, exactly the kept ones |
| TocSpec.ReconcileThenDelete | lib/storage/src/content_manager/toc.rs:956-1025 | reconciling every snapshot collection and then deleting the collections the snapshot lacks leaves exactly `Reconciled` |
| TocSpec.NatToString | lib/storage/src/content_manager/toc.rs:1202-1207 | the decimal text of a number in an error message is non-empty, all digits, without a leading zero, and denotes the number (`DecimalValue`) |
| TocSpec.MetaOpEffectFrames | lib/storage/src/content_manager/toc.rs:518-564 | only alias changes touch the aliases and only creations propose; `Nop` succeeds and changes nothing; a delete gives whether the collection existed and removes it; alias changes keep the collections |
| TocSpec.MetaOpEffectOnResolved | lib/storage/src/content_manager/toc.rs:518-564 | an update, transfer or replica-state change of an unresolved name fails with `NotFound` and changes nothing; otherwise the same names stay and only the resolved collection can change; a transfer with no consensus fails and changes nothing |
| TocSpec.MetaOpEffectCreate | lib/storage/src/content_manager/toc.rs:518-564 | a create with a taken name fails with the already-exists error and changes nothing; a successful one adds exactly its name; with no consensus nothing is proposed; with consensus an accepted create stores the new collection and appends one activation proposal per local shard |
| Toc.TableOfContent.constructor | lib/storage/src/content_manager/toc.rs:76-152 | a new table holds the loaded collections and aliases and the peer addresses persisted by the consensus state (the `id_to_address` set up at main.rs:146), is not write-locked and has proposed nothing |
| Toc.TableOfContent.CheckWriteLock | lib/storage/src/content_manager/toc.rs:1147-1158 | refused exactly when locked, with the stored message or the default one |
| Toc.TableOfContent.SetLocks | lib/storage/src/content_manager/toc.rs:1132-1136 | sets the lock and its message, which `CheckWriteLock` then reports; nothing else changes |
| Toc.TableOfContent.Update | lib/storage/src/content_manager/toc.rs:902-924 | the name must resolve; an update for one shard from a peer is never refused by the lock; a client update is refused with `Locked` exactly when it writes and writes are locked; a name that resolves and is not refused is forwarded (to the shard for a peer's update) |
| Toc.TableOfContent.PeerHasShards | lib/storage/src/content_manager/toc.rs:1117-1130 | true exactly when some shard of some collection has a replica on the peer |
| Toc.TableOfContent.OnPeerCreated | lib/storage/src/content_manager/toc.rs:345-373 | the new state is `OnPeerCreatedEffect` of the old one; aliases, peers and the lock stay |
| Toc.TableOfContent.CreateCollection | lib/storage/src/content_manager/toc.rs:230-343 | refused exactly as `ValidateCreate` refuses, changing nothing; otherwise the collection is stored and its local shards activated in turn |
| Toc.TableOfContent.UpdateCollection | lib/storage/src/content_manager/toc.rs:425-445 | an unresolved name changes nothing and gives the resolution error; otherwise the resolved collection gets the diffs and the replica changes |
| Toc.TableOfContent.DeleteCollection | lib/storage/src/content_manager/toc.rs:447-462 | true exactly when the collection existed; afterwards it is gone and the aliases stay |
| Toc.TableOfContent.UpdateAliases | lib/storage/src/content_manager/toc.rs:465-508 | the alias mapping becomes that of `ApplyAliasActions`, which stops at the first failure and keeps the earlier changes; the collections stay |
| Toc.TableOfContent.SetShardReplicaState | lib/storage/src/content_manager/toc.rs:566-575 | an unresolved name changes nothing; otherwise only the resolved collection changes, to the replica state set |
| Toc.TableOfContent.HandleTransfer | lib/storage/src/content_manager/toc.rs:594-676 | alone, a transfer is refused with a service error; with consensus the resolved collection becomes `TransferEffect` of its state |
| Toc.TableOfContent.PerformCollectionMetaOp | lib/storage/src/content_manager/toc.rs:518-564 | the new collections, aliases and proposals and the result are those of `MetaOpEffect` over the known peers; the peer addresses and the lock stay |
| Toc.TableOfContent.RemovePeer | lib/storage/src/content_manager/toc.rs:1193-1237 | refused with `BadRequest`, changing nothing, exactly when the peer is some shard's only replica; otherwise the peer leaves every collection and the addresses become `AddressesAfterRemoval` |
| Toc.TableOfContent.CollectionsSnapshot | lib/storage/src/content_manager/toc.rs:939-948 | the snapshot holds exactly the table's collections and aliases, and applying it back to the same table succeeds and leaves every collection as it is |
| Toc.TableOfContent.ApplyCollectionsSnapshot | lib/storage/src/content_manager/toc.rs:950-1034 | with the collections outside the snapshot removed through the guard already held (the corrected member of the Findings row, so it always returns), succeeds exactly when every snapshot collection can reach its state; then the collections are `Reconciled` and the aliases are the snapshot's; on failure the aliases stay and the collections are `PartlyReconciled`: none is gone, and each new or changed one is reconciled as the snapshot says |
| Toc.TableOfContent.ReconcileCollections | lib/storage/src/content_manager/toc.rs:956-1014 | each snapshot collection is brought to its state or created; the first failure stops it, leaving the collections `PartlyReconciled`; the aliases stay |
| Toc.TableOfContent.DeleteCollectionsNotIn | lib/storage/src/content_manager/toc.rs:1016-1025 | exactly the collections outside the snapshot are removed, from the map the held guard gives (the corrected order, see Findings) |
| Toc.ReconcileAll | lib/storage/src/content_manager/toc.rs:956-1014 | fails exactly when some snapshot collection fails to reconcile; in any case the result is `PartlyReconciled` (no local collection lost, every new or changed one reconciled as the snapshot says); on success the local and the snapshot names are all present and each snapshot collection is as `ReconcileOne` makes it |
| Toc.FindOnlyReplicaShard | lib/storage/src/content_manager/toc.rs:1201-1210 | nothing is found exactly when no shard has `peer` as its only replica; a found shard has exactly one replica, on `peer` |
| Toc.TableOfContent.FindOnlyReplica | lib/storage/src/content_manager/toc.rs:1198-1211 | nothing is found exactly when no collection has a shard whose only replica is `peer`; a found pair names such a collection and shard |
| Toc.TableOfContent.RemoveShardsAtPeer | lib/storage/src/content_manager/toc.rs:1160-1166 | every collection loses `peer` from the replicas of its shards, and nothing else changes |
| Toc.TableOfContent.ForgetPeer | lib/storage/src/content_manager/toc.rs:1217-1234 | the peer addresses become `AddressesAfterRemoval`, and nothing else changes |
| Consensus.FailuresAreCounted | lib/storage/src/content_manager/consensus_state.rs:104-115 | after a run of failures the address's count has grown by their number and holds the last error; other addresses are untouched |
| Consensus.SuccessClearsFailures | lib/storage/src/content_manager/consensus_state.rs:117-121 | a success after any failures forgets the address and leaves every other address as it was |
| Consensus.StopOnlyOnSelfRemoval | lib/storage/src/content_manager/consensus_state.rs:229-291 | a membership change asks to stop consensus only when it removes this peer |
| Consensus.FailsOnlyOnBadLearnerAddress | lib/storage/src/content_manager/consensus_state.rs:257-287 | a membership change fails only on a learner addition whose context is neither empty nor an address |
| Consensus.LearnersOnlyAddAddresses | lib/storage/src/content_manager/consensus_state.rs:257-287 | without removals and with an address given, the collections stay, every learner is known at that address and other peers keep theirs |
| Consensus.StoppingEntries | lib/storage/src/content_manager/consensus_state.rs:305-385 | empty entries and operations refused for the user never stop consensus; undecodable entries and unsupported entry types always do; an accepted membership change asks to stop only when it removes this peer |
| Consensus.HandledEntriesAreConsecutive | lib/storage/src/content_manager/consensus_state.rs:305-385 | the handled entries are consecutive, starting at the queue's current entry |
| Consensus.NormalEntryFrames | lib/storage/src/content_manager/consensus_state.rs:387-409 | a normal entry never changes the peer addresses or the configuration; undecodable data fails and changes nothing; operations other than collection ones give `false` and change nothing |
| Consensus.NormalEntryPerformsMetaOp | lib/storage/src/content_manager/consensus_state.rs:387-409 | a collection operation has the effect and result `MetaOpEffect` gives it over the known peers |
| Consensus.ConfChangeEntryFrames | lib/storage/src/content_manager/consensus_state.rs:229-291 | a membership change keeps the aliases and proposals; undecodable data and a change raft refuses fail and change nothing; otherwise raft's new configuration is taken |
| Consensus.ConfChangeEntryOutcomes | lib/storage/src/content_manager/consensus_state.rs:229-291 | a change raft accepts asks to stop consensus only when it removes this peer, and fails only with the address-parse error on a non-empty context that is not an address |
| Consensus.AllHandledExtends | lib/storage/src/content_manager/consensus_state.rs:305-385 | a run of handled entries followed by the queue's next entry, handled from the run's last state, is a longer run |
| Consensus.ConsensusState.constructor | lib/storage/src/content_manager/consensus_state.rs:82-102 | a new state holds the loaded log and persistent state, with no send failures and no first voter |
| Consensus.ConsensusState.RecordMessageSendFailure | lib/storage/src/content_manager/consensus_state.rs:104-115 | the address's count goes up by one (from zero when new) and keeps the error; nothing else changes |
| Consensus.ConsensusState.RecordMessageSendSuccess | lib/storage/src/content_manager/consensus_state.rs:117-121 | the address's failures are forgotten; nothing else changes |
| Consensus.ConsensusState.FirstVoter | lib/storage/src/content_manager/consensus_state.rs:147-152 | the recorded first voter, or this peer when none is recorded |
| Consensus.ConsensusState.SetFirstVoter | lib/storage/src/content_manager/consensus_state.rs:154-156 | the first voter is recorded and read back by `FirstVoter` |
| Consensus.ConsensusState.IsNewDeployment | lib/storage/src/content_manager/consensus_state.rs:440-442 | true exactly when the hard state's term is zero |
| Consensus.ConsensusState.SetHardState | lib/storage/src/content_manager/consensus_state.rs:427-431 | only the hard state changes, to the given one |
| Consensus.ConsensusState.SetConfState | lib/storage/src/content_manager/consensus_state.rs:433-437 | only the membership configuration changes, to the given one |
| Consensus.ConsensusState.SetCommitIndex | lib/storage/src/content_manager/consensus_state.rs:452-456 | only the commit index of the hard state changes |
| Consensus.ConsensusState.SetUnappliedEntries | lib/storage/src/content_manager/consensus_state.rs:293-302 | entries `first` to `last` are queued, `last - first + 1` of them (none when reversed) |
| Consensus.ConsensusState.FirstIndex | lib/storage/src/content_manager/consensus_state.rs:626-632 | the first log entry's index, or the one after the snapshot for an empty log; no entry of a gap-free log comes before it (the full range is in `IndexesMatchLog`) |
| Consensus.ConsensusState.LastIndex | lib/storage/src/content_manager/consensus_state.rs:634-640 | the last log entry's index, or the snapshot's for an empty log; no entry of a gap-free log comes after it, and over a gap-free log it is at least the first index less one |
| Consensus.ConsensusState.Term | lib/storage/src/content_manager/consensus_state.rs:617-624 | the snapshot's term at the snapshot's index; elsewhere a term exactly for the indexes the log covers, from the entry at that offset, with `Compacted` before the log and `Unavailable` past it or over an empty log; agreement with the in-memory storage's `Compacted`/`Unavailable` split is in `TermAgreesWithMemStorage` and `TermBelowSnapshotOfEmptyLog` |
| Consensus.ConsensusState.Entries | lib/storage/src/content_manager/consensus_state.rs:595-615 | a range starting before the first index is `Compacted`; over a non-empty gap-free log a range inside it is a prefix of the log's slice, all of it without a size limit and never empty for a non-empty range; the `requires` stands for the `panic!` on a range past the last index (consensus_state.rs:606-612) |
| Consensus.ConsensusState.Snapshot | lib/storage/src/content_manager/consensus_state.rs:642-664 | available exactly up to the commit index (`SnapshotTemporarilyUnavailable` past it); it carries the commit index, current term, configuration, collections, aliases and peer addresses |
| RaftLog.WalEntriesInLog | lib/storage/src/content_manager/consensus_state.rs:595-615 | over a non-empty gap-free log a range inside it succeeds with a prefix of the log's slice, all of it without a size limit and at least one entry of a non-empty range |
| Consensus.ConsensusState.IndexesMatchLog | lib/storage/src/content_manager/consensus_state.rs:626-640 | an empty log is the empty range just after the snapshot's index; a gap-free log runs from its first entry's index to its last one's, so first to last spans exactly the log's entries |
| Consensus.ConsensusState.TermAgreesWithMemStorage | lib/storage/src/content_manager/consensus_state.rs:617-624 | over a gap-free log (a fresh snapshot when empty) every term lookup equals the in-memory storage's |
| Consensus.ConsensusState.TermBelowSnapshotOfEmptyLog | lib/storage/src/content_manager/consensus_state.rs:617-624 | over an empty log after a snapshot, indices below it are `Unavailable` here and `Compacted` in the in-memory storage |
| Consensus.ConsensusState.EntriesAgreeWithMemStorage | lib/storage/src/content_manager/consensus_state.rs:595-615 | over a non-empty gap-free log every range the in-memory storage accepts gives the same entries |
| Consensus.ConsensusState.TermDefinedOnLog | lib/storage/src/content_manager/consensus_state.rs:617-640 | every index from the snapshot's up to the last has a term, the entry's own after the snapshot |
| Consensus.ConsensusState.AddPeer | lib/storage/src/content_manager/consensus_state.rs:458-460 | the peer's address is recorded; the collections and everything else stay |
| Consensus.ConsensusState.RemovePeer | lib/storage/src/content_manager/consensus_state.rs:462-469 | refused with `BadRequest` exactly when the table of contents refuses; the membership becomes that of `PeerRemovalEffect` |
| Consensus.ConsensusState.OnPeerRemove | lib/storage/src/content_manager/consensus_state.rs:202-227 | a refused removal is reported but does not stop consensus; an accepted one stops it exactly when this peer is removed |
| Consensus.ConsensusState.ApplyNormalEntry | lib/storage/src/content_manager/consensus_state.rs:387-409 | the new state and the result are those of `NormalEntryEffect`; the lock stays |
| Consensus.ConsensusState.ApplyConfChangeEntry | lib/storage/src/content_manager/consensus_state.rs:229-291 | the new state and the result are those of `ConfChangeEntryEffect`; the log, the persistent state other than the configuration, the counters and the lock stay |
| Consensus.ConsensusState.ApplyEntry | lib/storage/src/content_manager/consensus_state.rs:327-373 | the outcome and the new state fit the entry (`OutcomeFits`): an empty entry is skipped and changes nothing; a normal entry has `NormalEntryEffect`, a new-style configuration change `ConfChangeEntryEffect`; an old-style one is unsupported and changes nothing; the log, the apply queue, the counters and the lock stay |
| Consensus.ConsensusState.ApplyEntries | lib/storage/src/content_manager/consensus_state.rs:305-385 | entries are handled in queue order, each with an outcome and a state change that fit it, the states chaining from the old state to the new one; it stops at the first entry that stops consensus (left unapplied), at a missing entry or at the end of the queue |
| Consensus.ConsensusState.ApplySnapshot | lib/storage/src/content_manager/consensus_state.rs:411-425 | a snapshot older than the log is refused and changes nothing; otherwise it succeeds exactly when the collections reach the snapshot's, and then the log is empty, the snapshot's metadata, configuration and peer addresses are taken over, the commit index becomes the snapshot's and the term the larger of the two; on failure the log and the persistent state, the aliases, the peer addresses and the proposals stay, and after the out-of-date check the collections are `PartlyReconciled`; it always returns, because the toc removes collections through the guard it holds (see Findings) |
| RaftLog.FitCount | lib/storage/src/content_manager/consensus_state.rs:595-615 | the number of leading entries `limit_size` keeps is at most the number of entries, and at least one while nothing is counted yet |
| RaftLog.FitCountWithin | lib/storage/src/content_manager/consensus_state.rs:595-615 | the last kept entry stays within the budget unless everything counted before it was 0 |
| RaftLog.FitCountStops | lib/storage/src/content_manager/consensus_state.rs:595-615 | the count stops only at an entry that would take a non-zero count past the budget |
| RaftLog.FitCountExact | lib/storage/src/content_manager/consensus_state.rs:595-615 | both of the above: the kept entries are exactly those the running-size rule takes |
| RaftLog.LimitSizeProperties | lib/storage/src/content_manager/consensus_state.rs:595-615 | the size limit keeps a prefix, at least one entry and everything with no limit; the kept entries are within the limit unless all but the last count 0, always when the first entry has a size; it stops only where one more entry would exceed the limit |
| RaftLog.LimitSizeZeroKeepsOne | lib/storage/src/content_manager/consensus_state.rs:814-831 | with a zero limit and entries that have a size, exactly one entry is returned |
| RaftLog.LimitSizeSkipsZeroSized | lib/storage/src/content_manager/consensus_state.rs:595-615 | an entry of size 0 leaves the count at 0, so the next entry is taken whatever its size (sizes 0 and 5 under a limit of 3 keep both) |
| RaftLog.WalEntryFinds | lib/storage/src/content_manager/consensus_state.rs:617-624 | in a gap-free log a lookup succeeds for exactly the indices from first to last and finds the entry with that index; `Compacted` before, `Unavailable` after |
| RaftLog.CollectEntriesSlice | lib/storage/src/content_manager/consensus_state.rs:595-615 | in a gap-free log a range inside the log is the corresponding slice |
| RaftLog.WalEntriesAgreeWithMemStorage | lib/storage/src/content_manager/consensus_state.rs:595-615 | in a gap-free log, a range inside the log gives the same entries as the in-memory storage of the raft library |
| RaftLog.EntryWithOffset | lib/storage/src/content_manager/consensus_state.rs:792-812 | in a log of entries 4, 5 and 6, looking up 5 finds the entry with index 5 |
| RaftLog.AtLeastOneEntry | lib/storage/src/content_manager/consensus_state.rs:814-831 | entries 4 to 5 with a zero size limit give one entry |
| RaftLog.EntryApplyProgressQueue.Current | lib/storage/src/content_manager/consensus_state.rs:305-385 | an entry is current exactly while some is left, and it is the next one |
| RaftLog.EntryApplyProgressQueue.Applied | lib/storage/src/content_manager/consensus_state.rs:305-385 | marking an entry applied leaves one entry fewer, and the next current entry is one further |
| RaftLog.QueueVisitsInOrder | lib/storage/src/content_manager/consensus_state.rs:305-385 | the queue hands out its entries one after another in index order |
| RaftLog.AdvanceShortens | lib/storage/src/content_manager/consensus_state.rs:305-385 | each step uses up one entry until none is left |
| RaftLog.AdvanceApplied | lib/storage/src/content_manager/consensus_state.rs:305-385 | marking one more entry applied is advancing one step further |
| RaftLog.UnappliedEntries | lib/storage/src/content_manager/consensus_state.rs:776-790 | the queue of entries 0 to 2 yields 0, 1, 2 and then nothing, with lengths 3, 2, 1, 0 |
| PayloadOps.IsWriteOperation | lib/collection/src/operations/payload_ops.rs:44-54 | exactly `SetPayload` and `SetPayloadByFilter` are write operations |
| PayloadOps.OperationToShard.Map | lib/collection/src/operations/payload_ops.rs:56-86 | mapping keeps the shape: a sent-to-all operation stays one, and each piece keeps its shard and has the function applied |
| PayloadOps.FilterOperationsGoToAll | lib/collection/src/operations/payload_ops.rs:66-74 | exactly the filter operations are sent unchanged to every shard |
| PayloadOps.SplitKeepsOperation | lib/collection/src/operations/payload_ops.rs:56-86 | a point-listing operation splits into one piece per group of points, each of the same kind, with that group's shard and points, the original payload or keys |
| PayloadOps.SplitPiecesWithinOperation | lib/collection/src/operations/payload_ops.rs:56-86 | with a split that only groups the given points, no piece names a point the operation does not |
| OperationEffect.IsWriteUpdate | lib/collection/src/operations/payload_ops.rs:44-54 | payload operations write as `IsWriteOperation` says, index changes never, point operations when they upsert or sync |
| OperationEffect.IdsOf | lib/collection/src/operations/operation_effect.rs:70-72 | the ids of a point list, one per point, in order |
| OperationEffect.EffectAreaKinds | lib/collection/src/operations/operation_effect.rs:27-90 | the area is empty exactly for index changes and a filter exactly for filter operations, which carry their own filter |
| OperationEffect.PointsAreaIsTheOperationsList | lib/collection/src/operations/operation_effect.rs:41-90 | listed areas are the operation's own id list, or the ids of its points in order |
| OperationEffect.PointsAreaMatchesMentions | lib/collection/src/operations/operation_effect.rs:27-90 | a listed area names exactly the points the operation mentions; other areas go with operations that name no point |
| OperationEffect.IdsOfMembers | lib/collection/src/operations/operation_effect.rs:70-72 | a point is in the id list exactly when some element of the list has that id |
| MmapVectorStorage.FlagSumUpdate | lib/segment/src/vector_storage/mmap_vectors.rs:129-140 | changing one flag changes the sum of the flags by the difference |
| MmapVectorStorage.FlagSumCountsDeleted | lib/segment/src/vector_storage/mmap_vectors.rs:70-72 | with flags that are 0 or 1 the sum is the number of deleted vectors |
| MmapVectorStorage.CountDeleted | lib/segment/src/vector_storage/mmap_vectors.rs:70-72 | the count found on open is the sum of the flag bytes after the header |
| MmapVectorStorage.CheckDeleted | lib/segment/src/vector_storage/mmap_vectors.rs:107-109 | no answer exactly past the end of the flag file, otherwise whether the key's flag is non-zero |
| MmapVectorStorage.MmapVectors.constructor | lib/segment/src/vector_storage/mmap_vectors.rs:60-81 | the vector count is the data length after the header divided by the dimension and the element size; the deleted counter is the sum of the flags |
| MmapVectorStorage.MmapVectors.DataOffset | lib/segment/src/vector_storage/mmap_vectors.rs:83-90 | an offset exactly for keys below the vector count (cut to 32 bits): the header plus `key` vector widths |
| MmapVectorStorage.MmapVectors.DataOffsetInBounds | lib/segment/src/vector_storage/mmap_vectors.rs:83-105 | a found vector lies inside the vector file, and the vectors of two keys never overlap |
| MmapVectorStorage.MmapVectors.GetVector | lib/segment/src/vector_storage/mmap_vectors.rs:120-127 | a vector exactly for a key whose flag is present and zero and which is below the vector count; it is the `dim` elements at its offset |
| MmapVectorStorage.MmapVectors.Delete | lib/segment/src/vector_storage/mmap_vectors.rs:129-140 | for a key below the vector count the flag is set and the counter goes up once (not again when already set); other keys do nothing; the counter stays the sum of the flags |

## Left out

- I/O: saving the persistent state, creating and removing collection directories, snapshot files and reading the first and last log entry can fail with I/O errors. These failures are not modelled.
- Errors from applying configuration diffs (`diff.update`) and from `Collection::new` are not modelled.
- Concurrency: locks, the async runtime, and the proposal and completion channels (`on_consensus_op_apply`) are not modelled. The one self-deadlock they cause, in `apply_collections_snapshot`, is modelled on values (see Findings).
- Toc.TableOfContent.ApplyCollectionsSnapshot: models the corrected removal through the held guard and so always returns. As written the call never returns when a local collection is missing from the snapshot; `TocSpec.SnapshotDeletionAsWritten` states that.
- Consensus.ConsensusState.ApplySnapshot: inherits the corrected removal of `Toc.TableOfContent.ApplyCollectionsSnapshot`; as written `apply_snapshot` does not return in the same case.
- Only the effect of sending the outcome to a waiting proposer is modelled. The callbacks, and failures to send proposals, are left out.
- `OperationEffect.EstimateEffectArea` is defined only for operations other than `SetPayloadByFilter`. The effect-area match lists no case for that variant, and its `SetPayload` pattern has a shape that differs from the enum. The model follows the enum in `payload_ops.rs`.
- The `take_*` and `set_*` helpers change their operation in place. They are modelled as functions returning the changed value; nothing else aliases an operation.
- `create_collection` checks that the name is free a second time, just before it inserts the collection. With no concurrency in the model, one check stands for both.
- These are parameters, not modelled:
  - the hash ring of `split_iter_by_shard`;
  - the collection internals: the collection's state, its local shards, `validate_transfer`, applying a state and the transfer steps (removing a peer's shards is fixed, see `RemoveShardsAtPeer` below);
  - raft's `apply_conf_change`, as a function of the current configuration and the change (raft's other progress state is not an input);
  - URI parsing;
  - the protobuf size of an entry.
- The defaults `default_replication_factor()` and `default_write_consistency_factor()` are not part of this model. They are fixed at 1 (`TocSpec.DefaultReplicationFactor`, `TocSpec.DefaultWriteConsistencyFactor`).
- The write classification of point operations is fixed in `OperationEffect.IsWriteUpdate`: upserts and syncs write, deletions do not. `point_ops.rs` is not part of this model.
- `consensus_wal.rs`, `persistent.rs`, `entry_queue.rs`, `alias_mapping.rs`, `collections_ops.rs` and the raft library are not part of this model. The write-ahead log, the persistent state, the apply queue, the alias mapping and raft's in-memory storage and `limit_size` are modelled from how this code uses them and from their tests.
- `append_entries` (writing entries to the log) is left out. The log is a field that only a snapshot clears.
- A snapshot's update to the persistent state (`update_from_snapshot`, in `persistent.rs`) is modelled as the raft library's in-memory storage applies a snapshot: the configuration and metadata are the snapshot's, the commit index moves to its index and the term never goes back. The apply-progress queue is left as it is.
- CBOR and protobuf decoding are left out. An entry whose data does not decode carries a value of its own (`Undecodable`), and its error is taken to be a service error with a stand-in text (`UndecodableEntry`). The conversion of a decoding error into a storage error is not part of this model; `StoppingEntries` relies on it being a service error when it concludes that an undecodable normal entry stops consensus. A snapshot's data is always decoded (`RaftSnapshot.data` is a `SnapshotData`), so the failure of the decode in `apply_snapshot` (consensus_state.rs:417) is not modelled.
- `this_peer_id` is read from the table of contents. The persistent state's copy is not modelled separately.
- The integer widths of `u64` indices and `usize` offsets are unbounded in the model; none is near its limit in practice. The one 32-bit cut that matters, `num_vectors as PointOffsetType`, is modelled.
- Memory mapping, flushing and the byte-to-float reinterpretation of `mmap_vectors.rs` are left out. Vector elements are opaque values.
- The consensus thread status, the raft soft state, `cluster_status`, `peer_count` and logging are left out.
- Consensus.ConsensusState.TermAgreesWithMemStorage: holds only when the log has no gaps, and an empty log needs the snapshot at index 0. When the log is empty after a later snapshot, an index below the snapshot gives `Unavailable` where the in-memory storage gives `Compacted` (`TermBelowSnapshotOfEmptyLog`). Raft does not query terms below its first index.
- Consensus.ConsensusState.ApplyEntries: the per-entry outcomes and states are ghost out-parameters, so the contract about them is proved but not counted as a result.
- Consensus.ConsensusState.Entries: its precondition stands for the `panic!` of `entries` on a range that ends past the last index (consensus_state.rs:606-612); that error path is not modelled.
- Toc.TableOfContent.RemoveShardsAtPeer: the per-collection `remove_shards_at_peer` (toc.rs:1163) is taken to succeed and to drop the peer as `WithoutPeer` does. Its failure is not modelled, so `OnPeerRemove` never passes a service error up from it.
- MmapVectorStorage.MmapVectors.constructor and MmapVectorStorage.MmapVectors.Delete: their preconditions stand for panics in the source, which the model does not reproduce. `open` divides by `dim` and subtracts the header size from the data file's length (mmap_vectors.rs:60-81): a zero dimension panics, and a file shorter than its header (which `ensure_mmap_file_exists` writes) would underflow. `delete` unwraps the flag at the header plus the key (mmap_vectors.rs:129-140): a key below the vector count whose flag lies past the end of the flag file panics.

## Findings

| source | as written | input that shows it | evidently intended | confidence | as-written member | corrected member |
|---|---|---|---|---|---|---|
| lib/storage/src/content_manager/toc.rs:1198-1211 | `remove_peer` validates each collection name through `get_collection`, which resolves aliases first. A collection with the same name as an alias is never checked, and the alias's target is checked in its place | collection `a` with shard 0 only on peer 1; collection `b` with shard 0 on peers 1 and 2; alias `a` → `b`; remove peer 1. Shard 0 of `a` is left with no replica | refuse removing a peer that is the only replica of a shard of any collection, checking each collection by its own name | medium, not executed | TocSpec.RemovalAsWrittenMissesShadowedCollection | Toc.TableOfContent.RemovePeer |
| lib/storage/src/content_manager/toc.rs:955-1025 | `apply_collections_snapshot` holds the write guard of the `collections` lock (a tokio `RwLock`, not reentrant) across the deletion loop, which calls `delete_collection`, and `delete_collection` awaits the same write lock (toc.rs:448) | a local collection `x` and a snapshot with no collections, as for a follower that missed a `DeleteCollection`: the call never returns | remove the collections the snapshot lacks through the guard already held, then apply the aliases | high, not executed | TocSpec.SnapshotDeletionAsWritten | Toc.TableOfContent.ApplyCollectionsSnapshot |
