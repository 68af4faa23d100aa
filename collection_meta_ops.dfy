/**
 * The metadata operations that consensus commits and every peer applies:
 * collection creation, update and deletion, alias changes, shard transfers and
 * replica state changes, plus the operations on peers that travel beside them.
 */
module CollectionMetaOps {
  import opened Common
  import opened CollectionTypes

  /** Create an alternative name for a collection. */
  datatype CreateAlias = CreateAlias(collectionName: string, aliasName: string)
  datatype CreateAliasOperation = CreateAliasOperation(createAlias: CreateAlias)

  /** Delete an alias if it exists. */
  datatype DeleteAlias = DeleteAlias(aliasName: string)
  datatype DeleteAliasOperation = DeleteAliasOperation(deleteAlias: DeleteAlias)

  /** Give an alias a new name. */
  datatype RenameAlias = RenameAlias(oldAliasName: string, newAliasName: string)
  datatype RenameAliasOperation = RenameAliasOperation(renameAlias: RenameAlias)

  /** One alias action. */
  datatype AliasOperations =
    | CreateAlias(createOp: CreateAliasOperation)
    | DeleteAlias(deleteOp: DeleteAliasOperation)
    | RenameAlias(renameOp: RenameAliasOperation)

  /** `From<CreateAlias> for AliasOperations`. */
  function FromCreateAlias(createAlias: CreateAlias): AliasOperations {
    AliasOperations.CreateAlias(CreateAliasOperation(createAlias))
  }

  /** `From<DeleteAlias> for AliasOperations`. */
  function FromDeleteAlias(deleteAlias: DeleteAlias): AliasOperations {
    AliasOperations.DeleteAlias(DeleteAliasOperation(deleteAlias))
  }

  /** `From<RenameAlias> for AliasOperations`. */
  function FromRenameAlias(renameAlias: RenameAlias): AliasOperations {
    AliasOperations.RenameAlias(RenameAliasOperation(renameAlias))
  }

  /** The alias action carried by an operation, as one of the three structs. */
  datatype AliasAction =
    | Create(create: CreateAlias)
    | Delete(delete: DeleteAlias)
    | Rename(rename: RenameAlias)

  /** Unwraps an alias operation: the inverse of the three `From` conversions. */
  function ActionOf(op: AliasOperations): AliasAction {
    match op
    case CreateAlias(o) => Create(o.createAlias)
    case DeleteAlias(o) => Delete(o.deleteAlias)
    case RenameAlias(o) => Rename(o.renameAlias)
  }

  /** Each `From` conversion lands in its own variant and wraps its argument unchanged. */
  lemma FromConversionsWrapUnchanged(c: CreateAlias, d: DeleteAlias, r: RenameAlias)
    ensures FromCreateAlias(c).CreateAlias? && ActionOf(FromCreateAlias(c)) == Create(c)
    ensures FromDeleteAlias(d).DeleteAlias? && ActionOf(FromDeleteAlias(d)) == Delete(d)
    ensures FromRenameAlias(r).RenameAlias? && ActionOf(FromRenameAlias(r)) == Rename(r)
  {
  }

  /** Every alias operation is the conversion of the struct it carries. */
  lemma FromConversionsOnto(op: AliasOperations)
    ensures match ActionOf(op)
      case Create(c) => op == FromCreateAlias(c)
      case Delete(d) => op == FromDeleteAlias(d)
      case Rename(r) => op == FromRenameAlias(r)
  {
  }

  /** Parameters of a new collection; absent values take their defaults. */
  datatype CreateCollection = CreateCollection(
    vectors: VectorsConfig,
    shardNumber: Option<u32>,
    replicationFactor: Option<u32>,
    writeConsistencyFactor: Option<u32>,
    onDiskPayload: Option<bool>,
    hnswConfig: Option<HnswConfigDiff>,
    walConfig: Option<WalConfigDiff>,
    optimizersConfig: Option<OptimizersConfigDiff>)

  /** A suggested placement of shards on peers (`ShardDistributionProposal`). */
  datatype ShardDistributionProposal = ShardDistributionProposal(distribution: map<ShardId, seq<PeerId>>) {
    /** The placement as a shard distribution (`From<ShardDistributionProposal>`). */
    function ToDistribution(): (d: ShardDistribution)
      ensures d.shards.Keys == distribution.Keys
      ensures forall s :: s in d.shards ==> forall p :: p in d.shards[s] <==> p in distribution[s]
    {
      ShardDistribution(map s | s in distribution :: set p | p in distribution[s])
    }
  }

  /** Creation of a collection, with an optional shard placement. */
  datatype CreateCollectionOperation = CreateCollectionOperation(
    collectionName: string,
    createCollection: CreateCollection,
    distribution: Option<ShardDistributionProposal>)
  {
    /** `is_distribution_set`. */
    predicate IsDistributionSet() {
      distribution.Some?
    }

    /**
     * `take_distribution`: the stored placement, and the operation as left
     * behind (`&mut self` is modelled by returning the updated value).
     */
    function TakeDistribution(): (r: (Option<ShardDistributionProposal>, CreateCollectionOperation))
      ensures r.0 == distribution
      ensures r.1 == this.(distribution := None)
    {
      (distribution, this.(distribution := None))
    }

    /** `set_distribution`: the operation with the placement stored. */
    function SetDistribution(d: ShardDistributionProposal): (r: CreateCollectionOperation)
      ensures r == this.(distribution := Some(d))
    {
      this.(distribution := Some(d))
    }
  }

  /** `CreateCollectionOperation::new`: no placement. */
  function NewCreateCollectionOperation(collectionName: string, createCollection: CreateCollection): (r: CreateCollectionOperation)
    ensures r.collectionName == collectionName && r.createCollection == createCollection
    ensures !r.IsDistributionSet()
  {
    CreateCollectionOperation(collectionName, createCollection, None)
  }

  /** Taking the placement leaves none and hands back exactly what was stored; setting then taking returns the value set. */
  lemma DistributionTakeSet(op: CreateCollectionOperation, d: ShardDistributionProposal)
    ensures !op.TakeDistribution().1.IsDistributionSet()
    ensures op.TakeDistribution().0.Some? <==> op.IsDistributionSet()
    ensures op.SetDistribution(d).IsDistributionSet()
    ensures op.SetDistribution(d).TakeDistribution() == (Some(d), op.(distribution := None))
    ensures NewCreateCollectionOperation(op.collectionName, op.createCollection).TakeDistribution().0 == None
  {
  }

  /** Parameters of an existing collection to change. */
  datatype UpdateCollection = UpdateCollection(
    optimizersConfig: Option<OptimizersConfigDiff>,
    params: Option<CollectionParamsDiff>)

  /** Update of a collection, with optional replica changes. */
  datatype UpdateCollectionOperation = UpdateCollectionOperation(
    collectionName: string,
    updateCollection: UpdateCollection,
    shardReplicaChanges: Option<seq<ReplicaChange>>)
  {
    /** `take_shard_replica_changes`: the stored changes and the operation without them. */
    function TakeShardReplicaChanges(): (r: (Option<seq<ReplicaChange>>, UpdateCollectionOperation))
      ensures r.0 == shardReplicaChanges
      ensures r.1 == this.(shardReplicaChanges := None)
    {
      (shardReplicaChanges, this.(shardReplicaChanges := None))
    }

    /** `set_shard_replica_changes`: an empty list is stored as no changes. */
    function SetShardReplicaChanges(changes: seq<ReplicaChange>): (r: UpdateCollectionOperation)
      ensures r.collectionName == collectionName && r.updateCollection == updateCollection
      ensures r.shardReplicaChanges == if |changes| == 0 then None else Some(changes)
    {
      if |changes| == 0 then this.(shardReplicaChanges := None)
      else this.(shardReplicaChanges := Some(changes))
    }
  }

  /** `UpdateCollectionOperation::new_empty`: nothing to change. */
  function NewEmptyUpdate(collectionName: string): (r: UpdateCollectionOperation)
    ensures r.collectionName == collectionName
    ensures r.updateCollection.optimizersConfig == None && r.updateCollection.params == None
    ensures r.shardReplicaChanges == None
  {
    UpdateCollectionOperation(collectionName, UpdateCollection.UpdateCollection(None, None), None)
  }

  /** `UpdateCollectionOperation::new`: the given changes, no replica changes. */
  function NewUpdate(collectionName: string, updateCollection: UpdateCollection): (r: UpdateCollectionOperation)
    ensures r.collectionName == collectionName && r.updateCollection == updateCollection
    ensures r.shardReplicaChanges == None
  {
    UpdateCollectionOperation(collectionName, updateCollection, None)
  }

  /** Storing replica changes and taking them back returns a non-empty list unchanged and clears the field. */
  lemma ReplicaChangesTakeSet(op: UpdateCollectionOperation, changes: seq<ReplicaChange>)
    ensures op.SetShardReplicaChanges(changes).TakeShardReplicaChanges().0 == (if |changes| == 0 then None else Some(changes))
    ensures op.SetShardReplicaChanges(changes).TakeShardReplicaChanges().1 == op.(shardReplicaChanges := None)
    ensures op.TakeShardReplicaChanges().1.TakeShardReplicaChanges().0 == None
  {
  }

  /** Alias changes, applied in list order. */
  datatype ChangeAliasesOperation = ChangeAliasesOperation(actions: seq<AliasOperations>)

  /** Deletion of the named collection. */
  datatype DeleteCollectionOperation = DeleteCollectionOperation(name: string)

  /** Steps of a shard transfer. */
  datatype ShardTransferOperations =
    | Start(transfer: ShardTransfer)
    | Finish(transfer: ShardTransfer)
    | Abort(transferKey: ShardTransferKey, reason: string)

  /** Sets the state of one replica. */
  datatype SetShardReplicaState = SetShardReplicaState(
    collectionName: string,
    shardId: ShardId,
    peerId: PeerId,
    state: ReplicaState)

  /** All collection metadata operations. */
  datatype CollectionMetaOperations =
    | CreateCollection(createOp: CreateCollectionOperation)
    | UpdateCollection(updateOp: UpdateCollectionOperation)
    | DeleteCollection(deleteOp: DeleteCollectionOperation)
    | ChangeAliases(aliasesOp: ChangeAliasesOperation)
    | TransferShard(collection: CollectionId, transferOp: ShardTransferOperations)
    | SetShardReplicaState(replicaOp: SetShardReplicaState)
    | Nop(token: nat)

  /** What a consensus entry carries: a collection operation or a peer change. */
  datatype ConsensusOperations =
    | CollectionMeta(meta: CollectionMetaOperations)
    | AddPeer(peerId: PeerId, uri: Uri)
    | RemovePeer(removedPeer: PeerId)

  /** Proposal to mark the replica of `shardId` on `peerId` active. */
  function ActivateReplica(collectionName: string, shardId: ShardId, peerId: PeerId): ConsensusOperations {
    CollectionMeta(CollectionMetaOperations.SetShardReplicaState(
      SetShardReplicaState.SetShardReplicaState(collectionName, shardId, peerId, Active)))
  }
}
