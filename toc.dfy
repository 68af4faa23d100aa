/**
 * The table of contents: the collections of this peer, the alias mapping,
 * the write lock and the known peer addresses, updated in place by the
 * metadata operations that consensus commits.
 */
module Toc {
  import opened Common
  import opened CollectionTypes
  import opened CollectionMetaOps
  import opened OperationEffect
  import opened TocSpec

  /** Which entry point of the collection an accepted update goes to. */
  datatype UpdateRoute =
    | FromPeer(collection: CollectionId, shard: ShardId)
    | FromClient(collection: CollectionId)

  /** A shard of `shards` whose only replica is `peer`, if any. */
  method FindOnlyReplicaShard(shards: map<ShardId, Replicas>, peer: PeerId) returns (found: Option<ShardId>)
    ensures found.None? <==> forall s :: s in shards ==> !(|shards[s]| == 1 && peer in shards[s])
    ensures found.Some? ==> found.value in shards && |shards[found.value]| == 1 && peer in shards[found.value]
  {
    var left := shards.Keys;
    while left != {}
      invariant left <= shards.Keys
      invariant forall s :: s in shards && s !in left ==> !(|shards[s]| == 1 && peer in shards[s])
      decreases left
    {
      var s :| s in left;
      if |shards[s]| == 1 && peer in shards[s] {
        return Some(s);
      }
      left := left - {s};
    }
    return None;
  }

  /**
   * The loop of `apply_collections_snapshot` over the snapshot's collections,
   * on values: each one reconciled in turn, the first failure stopping it.
   */
  method ReconcileAll(local: Collections, data: TocSpec.CollectionsSnapshot, inCluster: bool, backend: CollectionBackend)
    returns (current: Collections, failure: Option<StorageError>)
    ensures failure.None? <==> SnapshotApplies(local, data, inCluster, backend)
    ensures PartlyReconciled(local, data, inCluster, backend, current)
    ensures failure.None? ==> current.Keys == local.Keys + data.collections.Keys
    ensures failure.None? ==> forall id :: id in data.collections ==>
      current[id] == ReconcileOne(local, id, data.collections[id], inCluster, backend).value
  {
    current := local;
    failure := None;
    var todo := data.collections.Keys;
    while todo != {}
      invariant ReconciledExcept(local, data, inCluster, backend, current, todo)
      decreases todo
    {
      var id :| id in todo;
      var next := ReconcileOne(current, id, data.collections[id], inCluster, backend);
      ReconcileStep(local, data, inCluster, backend, current, todo, id);
      if next.Err? {
        assert !SnapshotApplies(local, data, inCluster, backend) by {
          assert ReconcileOne(local, id, data.collections[id], inCluster, backend).Err?;
        }
        StoppedReconcileIsPartial(local, data, inCluster, backend, current, todo);
        failure := Some(next.error);
        return;
      }
      current := current[id := next.value];
      todo := todo - {id};
    }
    assert SnapshotApplies(local, data, inCluster, backend);
    StoppedReconcileIsPartial(local, data, inCluster, backend, current, todo);
  }

  class TableOfContent {
    /** The collections, by name. */
    var collections: Collections
    /** The alias mapping (`alias_persistence`). */
    var aliases: AliasMapping
    var isWriteLocked: bool
    var lockErrorMessage: Option<string>
    /** Addresses of the known peers (`channel_service.id_to_address`). */
    var peerAddresses: map<PeerId, Uri>
    /** Operations sent to consensus through `consensus_proposal_sender`, oldest first. */
    var proposals: seq<ConsensusOperations>
    const thisPeerId: PeerId
    /** There is a consensus to send proposals to (otherwise: single node deployment). */
    const inCluster: bool
    const backend: CollectionBackend

    /**
     * `TableOfContent::new` with the collections and aliases found in
     * storage and the peer addresses persisted by the consensus state;
     * writes are not locked and nothing has been proposed yet.
     */
    constructor (thisPeerId: PeerId, inCluster: bool, backend: CollectionBackend,
                 loaded: Collections, loadedAliases: AliasMapping, loadedAddresses: map<PeerId, Uri>)
      ensures this.thisPeerId == thisPeerId && this.inCluster == inCluster && this.backend == backend
      ensures collections == loaded && aliases == loadedAliases
      ensures !isWriteLocked && lockErrorMessage == None
      ensures peerAddresses == loadedAddresses && proposals == []
    {
      this.thisPeerId := thisPeerId;
      this.inCluster := inCluster;
      this.backend := backend;
      collections := loaded;
      aliases := loadedAliases;
      isWriteLocked := false;
      lockErrorMessage := None;
      peerAddresses := loadedAddresses;
      proposals := [];
    }

    /** `check_write_lock`: refused exactly when locked, with the stored message or the default one. */
    function CheckWriteLock(): (r: Result<(), StorageError>)
      reads this
      ensures r.Err? <==> isWriteLocked
      ensures r.Err? ==> r.error == Locked(lockErrorMessage.GetOr(DefaultWriteLockErrorMessage))
    {
      if isWriteLocked then Err(Locked(lockErrorMessage.GetOr(DefaultWriteLockErrorMessage))) else Ok(())
    }

    /** `set_locks`: the lock and its message, read back by `check_write_lock`. */
    method SetLocks(locked: bool, message: Option<string>)
      modifies this
      ensures isWriteLocked == locked && lockErrorMessage == message
      ensures CheckWriteLock() == if locked then Err(Locked(message.GetOr(DefaultWriteLockErrorMessage))) else Ok(())
      ensures collections == old(collections) && aliases == old(aliases)
      ensures peerAddresses == old(peerAddresses) && proposals == old(proposals)
    {
      isWriteLocked := locked;
      lockErrorMessage := message;
    }

    /**
     * The gate of `update`: the name must resolve; an update sent by a peer
     * for one shard is never refused by the lock; a client update is refused
     * exactly when it writes and writes are locked.
     */
    function Update(name: string, op: CollectionUpdateOperations, shardSelection: Option<ShardId>): (r: Result<UpdateRoute, StorageError>)
      reads this
      ensures Resolve(aliases, collections, name).Err? ==> r == Err(Resolve(aliases, collections, name).error)
      ensures (r.Err? && r.error.Locked?) <==>
        Resolve(aliases, collections, name).Ok? && shardSelection.None? && IsWriteUpdate(op) && isWriteLocked
      ensures r.Err? <==>
        Resolve(aliases, collections, name).Err? || (shardSelection.None? && IsWriteUpdate(op) && isWriteLocked)
      ensures r.Ok? ==> r.value.collection == Resolve(aliases, collections, name).value
      ensures r.Ok? ==> (r.value.FromPeer? <==> shardSelection.Some?)
      ensures r.Ok? && shardSelection.Some? ==> r.value.shard == shardSelection.value
    {
      match Resolve(aliases, collections, name)
      case Err(e) => Err(e)
      case Ok(resolved) =>
        if shardSelection.Some? then Ok(FromPeer(resolved, shardSelection.value))
        else if IsWriteUpdate(op) && CheckWriteLock().Err? then Err(CheckWriteLock().error)
        else Ok(FromClient(resolved))
    }

    /** `peer_has_shards`: some shard of some collection has a replica on `peer`. */
    method PeerHasShards(peer: PeerId) returns (r: bool)
      ensures r <==> exists name :: name in collections && HasReplicaOn(collections[name], peer)
    {
      var names := collections.Keys;
      while names != {}
        invariant names <= collections.Keys
        invariant forall name :: name in collections && name !in names ==> !HasReplicaOn(collections[name], peer)
        decreases names
      {
        var name :| name in names;
        var shards := collections[name].shards;
        var left := shards.Keys;
        while left != {}
          invariant left <= shards.Keys
          invariant forall s :: s in shards && s !in left ==> peer !in shards[s]
          decreases left
        {
          var s :| s in left;
          if peer in shards[s] {
            return true;
          }
          left := left - {s};
        }
        names := names - {name};
      }
      return false;
    }

    /** `on_peer_created`: activate the replica of `shard` on `peer`, through consensus when there is one. */
    method OnPeerCreated(name: CollectionId, peer: PeerId, shard: ShardId) returns (r: Result<(), StorageError>)
      modifies this
      ensures var e := OnPeerCreatedEffect(Published(old(collections), old(proposals)), name, peer, shard, inCluster, backend);
        && (e.Ok? ==> r == Ok(()) && collections == e.value.collections && proposals == e.value.proposals)
        && (e.Err? ==> r == Err(e.error) && collections == old(collections) && proposals == old(proposals))
      ensures aliases == old(aliases) && peerAddresses == old(peerAddresses)
      ensures isWriteLocked == old(isWriteLocked) && lockErrorMessage == old(lockErrorMessage)
    {
      if inCluster {
        proposals := proposals + [ActivateReplica(name, shard, peer)];
      } else if name in collections {
        var updated := backend.setReplicaState(collections[name], shard, peer, Active);
        if updated.Err? {
          return Err(updated.error);
        }
        collections := collections[name := updated.value];
      }
      return Ok(());
    }

    /**
     * `create_collection`: the checks of `ValidateCreate`, then the new
     * collection is stored and each of its local shards activated in turn.
     */
    method CreateCollection(name: CollectionId, create: CreateCollection, distribution: ShardDistribution)
      returns (r: Result<bool, StorageError>)
      modifies this
      ensures var v := ValidateCreate(old(collections), name, create, distribution, backend.onDiskPayloadDefault);
        && (v.Err? ==> r == Err(v.error) && collections == old(collections) && proposals == old(proposals))
        && (v.Ok? ==>
              var c := backend.newCollection(v.value, distribution);
              var out := ActivateShards(Published(old(collections)[name := c], old(proposals)), name, thisPeerId,
                                        backend.localShards(c), inCluster, backend);
              && collections == out.0.collections && proposals == out.0.proposals
              && r == if out.1.None? then Ok(true) else Err(out.1.value))
      ensures aliases == old(aliases) && peerAddresses == old(peerAddresses)
      ensures isWriteLocked == old(isWriteLocked) && lockErrorMessage == old(lockErrorMessage)
    {
      var v := ValidateCreate(collections, name, create, distribution, backend.onDiskPayloadDefault);
      if v.Err? {
        return Err(v.error);
      }
      var c := backend.newCollection(v.value, distribution);
      var local := backend.localShards(c);
      collections := collections[name := c];
      ghost var goal := ActivateShards(Published(collections, proposals), name, thisPeerId, local, inCluster, backend);
      var i := 0;
      while i < |local|
        invariant 0 <= i <= |local|
        invariant ActivateShards(Published(collections, proposals), name, thisPeerId, local[i..], inCluster, backend) == goal
        invariant aliases == old(aliases) && peerAddresses == old(peerAddresses)
        invariant isWriteLocked == old(isWriteLocked) && lockErrorMessage == old(lockErrorMessage)
      {
        assert local[i..][0] == local[i] && local[i..][1..] == local[i + 1..];
        var step := OnPeerCreated(name, thisPeerId, local[i]);
        if step.Err? {
          return Err(step.error);
        }
        i := i + 1;
      }
      assert local[i..] == [];
      return Ok(true);
    }

    /** `update_collection`: the diffs and replica changes on the resolved collection. */
    method UpdateCollection(op: UpdateCollectionOperation) returns (r: Result<bool, StorageError>)
      modifies this
      ensures var res := Resolve(old(aliases), old(collections), op.collectionName);
        && (res.Err? ==> r == Err(res.error) && collections == old(collections))
        && (res.Ok? ==>
              var out := UpdateCollectionEffect(old(collections)[res.value], op.updateCollection, op.shardReplicaChanges, backend);
              && collections == old(collections)[res.value := out.0]
              && r == if out.1.None? then Ok(true) else Err(out.1.value))
      ensures aliases == old(aliases) && peerAddresses == old(peerAddresses) && proposals == old(proposals)
      ensures isWriteLocked == old(isWriteLocked) && lockErrorMessage == old(lockErrorMessage)
    {
      var (changes, rest) := op.TakeShardReplicaChanges();
      var res := Resolve(aliases, collections, rest.collectionName);
      if res.Err? {
        return Err(res.error);
      }
      var name := res.value;
      var update := rest.updateCollection;
      // The collection is changed step by step; a failing step keeps the earlier ones.
      var state := collections[name];
      r := Ok(true);
      if update.optimizersConfig.Some? {
        var s := backend.updateOptimizers(state, update.optimizersConfig.value);
        if s.Err? {
          r := Err(s.error);
        } else {
          state := s.value;
        }
      }
      if r.Ok? && update.params.Some? {
        var s := backend.updateParams(state, update.params.value);
        if s.Err? {
          r := Err(s.error);
        } else {
          state := s.value;
        }
      }
      if r.Ok? && changes.Some? {
        var s := backend.handleReplicaChanges(state, changes.value);
        if s.Err? {
          r := Err(s.error);
        } else {
          state := s.value;
        }
      }
      collections := collections[name := state];
    }

    /** `delete_collection`: true and the entry removed when present; false and nothing changed otherwise. Aliases stay. */
    method DeleteCollection(name: CollectionId) returns (r: bool)
      modifies this
      ensures r <==> name in old(collections)
      ensures collections == old(collections) - {name}
      ensures aliases == old(aliases) && peerAddresses == old(peerAddresses) && proposals == old(proposals)
      ensures isWriteLocked == old(isWriteLocked) && lockErrorMessage == old(lockErrorMessage)
    {
      if name in collections {
        collections := collections - {name};
        return true;
      }
      return false;
    }

    /** `update_aliases`: the actions in list order, stopping at the first failure. */
    method UpdateAliases(op: ChangeAliasesOperation) returns (r: Result<bool, StorageError>)
      modifies this
      ensures var out := ApplyAliasActions(old(aliases), old(collections), op.actions);
        && aliases == out.aliases
        && r == if out.error.None? then Ok(true) else Err(out.error.value)
      ensures collections == old(collections) && peerAddresses == old(peerAddresses) && proposals == old(proposals)
      ensures isWriteLocked == old(isWriteLocked) && lockErrorMessage == old(lockErrorMessage)
    {
      var actions := op.actions;
      var i := 0;
      while i < |actions|
        invariant 0 <= i <= |actions|
        invariant ApplyAliasActions(aliases, collections, actions[i..]) == ApplyAliasActions(old(aliases), collections, actions)
        invariant collections == old(collections) && peerAddresses == old(peerAddresses) && proposals == old(proposals)
        invariant isWriteLocked == old(isWriteLocked) && lockErrorMessage == old(lockErrorMessage)
      {
        assert actions[i..][0] == actions[i] && actions[i..][1..] == actions[i + 1..];
        var step := ApplyAliasAction(aliases, collections, actions[i]);
        if step.Err? {
          return Err(step.error);
        }
        aliases := step.value;
        i := i + 1;
      }
      assert actions[i..] == [];
      return Ok(true);
    }

    /** `set_shard_replica_state` on the resolved collection. */
    method SetShardReplicaState(op: SetShardReplicaState) returns (r: Result<(), StorageError>)
      modifies this
      ensures var res := Resolve(old(aliases), old(collections), op.collectionName);
        && (res.Err? ==> r == Err(res.error) && collections == old(collections))
        && (res.Ok? ==>
              var s := backend.setReplicaState(old(collections)[res.value], op.shardId, op.peerId, op.state);
              && (s.Err? ==> r == Err(s.error) && collections == old(collections))
              && (s.Ok? ==> r == Ok(()) && collections == old(collections)[res.value := s.value]))
      ensures aliases == old(aliases) && peerAddresses == old(peerAddresses) && proposals == old(proposals)
      ensures isWriteLocked == old(isWriteLocked) && lockErrorMessage == old(lockErrorMessage)
    {
      var res := Resolve(aliases, collections, op.collectionName);
      if res.Err? {
        return Err(res.error);
      }
      var s := backend.setReplicaState(collections[res.value], op.shardId, op.peerId, op.state);
      if s.Err? {
        return Err(s.error);
      }
      collections := collections[res.value := s.value];
      return Ok(());
    }

    /** `handle_transfer`: only with consensus, on the resolved collection. */
    method HandleTransfer(collectionId: CollectionId, op: ShardTransferOperations) returns (r: Result<(), StorageError>)
      modifies this
      ensures var res := Resolve(old(aliases), old(collections), collectionId);
        && (res.Err? ==> r == Err(res.error) && collections == old(collections))
        && (res.Ok? && !inCluster ==> r == Err(SingleNodeTransferError) && collections == old(collections))
        && (res.Ok? && inCluster ==>
              var t := TransferEffect(old(collections)[res.value], op, old(peerAddresses).Keys, backend);
              && (t.Err? ==> r == Err(t.error) && collections == old(collections))
              && (t.Ok? ==> r == Ok(()) && collections == old(collections)[res.value := t.value]))
      ensures aliases == old(aliases) && peerAddresses == old(peerAddresses) && proposals == old(proposals)
      ensures isWriteLocked == old(isWriteLocked) && lockErrorMessage == old(lockErrorMessage)
    {
      var res := Resolve(aliases, collections, collectionId);
      if res.Err? {
        return Err(res.error);
      }
      if !inCluster {
        return Err(SingleNodeTransferError);
      }
      var t := TransferEffect(collections[res.value], op, peerAddresses.Keys, backend);
      if t.Err? {
        return Err(t.error);
      }
      collections := collections[res.value := t.value];
      return Ok(());
    }

    /**
     * `perform_collection_meta_op`: each operation to its handler, as
     * `MetaOpEffect` says; the peer addresses and the lock stay as they are.
     */
    method PerformCollectionMetaOp(op: CollectionMetaOperations) returns (r: Result<bool, StorageError>)
      modifies this
      ensures (MetaState(collections, aliases, proposals), r) ==
              MetaOpEffect(MetaState(old(collections), old(aliases), old(proposals)), op, old(peerAddresses).Keys,
                           thisPeerId, inCluster, backend)
      ensures peerAddresses == old(peerAddresses)
      ensures isWriteLocked == old(isWriteLocked) && lockErrorMessage == old(lockErrorMessage)
    {
      match op {
        case CreateCollection(createOp) =>
          var (taken, rest) := createOp.TakeDistribution();
          var distribution := if taken.Some? then taken.value.ToDistribution()
                              else AllLocal(rest.createCollection.shardNumber, thisPeerId);
          r := CreateCollection(rest.collectionName, rest.createCollection, distribution);
        case UpdateCollection(updateOp) =>
          r := UpdateCollection(updateOp);
        case DeleteCollection(deleteOp) =>
          var deleted := DeleteCollection(deleteOp.name);
          r := Ok(deleted);
        case ChangeAliases(aliasesOp) =>
          r := UpdateAliases(aliasesOp);
        case TransferShard(collection, transferOp) =>
          var t := HandleTransfer(collection, transferOp);
          r := if t.Err? then Err(t.error) else Ok(true);
        case SetShardReplicaState(replicaOp) =>
          var s := SetShardReplicaState(replicaOp);
          r := if s.Err? then Err(s.error) else Ok(true);
        case Nop(_) =>
          r := Ok(true);
      }
    }

    /**
     * `remove_peer`: refused with `BadRequest` when `peer` is the only replica
     * of a shard; otherwise the peer is dropped from every collection and
     * from the known peers (all other peers, when it is this one).
     */
    method RemovePeer(peer: PeerId) returns (r: Result<(), StorageError>)
      modifies this
      ensures r.Err? <==> RemovalRefused(old(collections), peer)
      ensures r.Err? ==> r.error.BadRequest? && collections == old(collections) && peerAddresses == old(peerAddresses)
      ensures r.Ok? ==> collections == WithoutPeerEverywhere(old(collections), peer)
      ensures r.Ok? ==> peerAddresses == AddressesAfterRemoval(old(peerAddresses), peer, thisPeerId)
      ensures aliases == old(aliases) && proposals == old(proposals)
      ensures isWriteLocked == old(isWriteLocked) && lockErrorMessage == old(lockErrorMessage)
    {
      var found := FindOnlyReplica(peer);
      if found.Some? {
        return Err(OnlyReplicaError(peer, found.value.1, found.value.0));
      }
      RemoveShardsAtPeer(peer);
      ForgetPeer(peer);
      r := Ok(());
    }

    /** The validation of `remove_peer`: a collection and shard whose only replica is `peer`, if any. */
    method FindOnlyReplica(peer: PeerId) returns (found: Option<(CollectionId, ShardId)>)
      ensures found.None? <==> !RemovalRefused(collections, peer)
      ensures found.Some? ==> found.value.0 in collections && found.value.1 in collections[found.value.0].shards
      ensures found.Some? ==> var shards := collections[found.value.0].shards;
        |shards[found.value.1]| == 1 && peer in shards[found.value.1]
    {
      var names := collections.Keys;
      while names != {}
        invariant names <= collections.Keys
        invariant forall name :: name in collections && name !in names ==> !IsOnlyReplicaOf(collections[name], peer)
        decreases names
      {
        var name :| name in names;
        var shard := FindOnlyReplicaShard(collections[name].shards, peer);
        if shard.Some? {
          return Some((name, shard.value));
        }
        names := names - {name};
      }
      return None;
    }

    /** `remove_shards_at_peer`: every collection drops `peer` from its replicas. */
    method RemoveShardsAtPeer(peer: PeerId)
      modifies this
      ensures collections == WithoutPeerEverywhere(old(collections), peer)
      ensures aliases == old(aliases) && proposals == old(proposals) && peerAddresses == old(peerAddresses)
      ensures isWriteLocked == old(isWriteLocked) && lockErrorMessage == old(lockErrorMessage)
    {
      var before := collections;
      var current := before;
      var todo := before.Keys;
      while todo != {}
        invariant todo <= current.Keys && current.Keys == before.Keys
        invariant forall name :: name in current ==>
          current[name] == if name in todo then before[name] else WithoutPeer(before[name], peer)
        decreases todo
      {
        var name :| name in todo;
        current := current[name := WithoutPeer(current[name], peer)];
        todo := todo - {name};
      }
      collections := current;
    }

    /** The channel service forgets `peer`, or every other peer when it is this one. */
    method ForgetPeer(peer: PeerId)
      modifies this
      ensures peerAddresses == AddressesAfterRemoval(old(peerAddresses), peer, thisPeerId)
      ensures collections == old(collections) && aliases == old(aliases) && proposals == old(proposals)
      ensures isWriteLocked == old(isWriteLocked) && lockErrorMessage == old(lockErrorMessage)
    {
      var known := peerAddresses;
      if peer == thisPeerId {
        var current := known;
        var ids := known.Keys;
        while ids != {}
          invariant ids <= known.Keys
          invariant forall id :: id in current <==> id in known && (id in ids || id == thisPeerId)
          invariant forall id :: id in current ==> current[id] == known[id]
          decreases ids
        {
          var id :| id in ids;
          if id != thisPeerId {
            current := current - {id};
          }
          ids := ids - {id};
        }
        peerAddresses := current;
      } else {
        peerAddresses := known - {peer};
      }
    }

    /**
     * `collections_snapshot`: the states of all collections and the alias
     * mapping; applying it back to the same table succeeds and changes no
     * collection.
     */
    function CollectionsSnapshot(): (r: CollectionsSnapshot)
      reads this
      ensures r.collections == collections && r.aliases == aliases
      ensures SnapshotApplies(collections, r, inCluster, backend) && Reconciled(collections, r, inCluster, backend) == collections
    {
      ReconcileWithOwnSnapshot(collections, aliases, inCluster, backend);
      TocSpec.CollectionsSnapshot(collections, aliases)
    }

    /**
     * `apply_collections_snapshot`: every collection of the snapshot is
     * reconciled, the others are deleted, and the alias mapping becomes the
     * snapshot's. The first collection that fails to reach its state stops it.
     * The others are removed through the `collections` guard already held;
     * as written, `delete_collection` waits for that guard instead and the
     * call never returns (`TocSpec.SnapshotDeletionAsWritten`).
     */
    method ApplyCollectionsSnapshot(data: TocSpec.CollectionsSnapshot) returns (r: Result<(), StorageError>)
      modifies this
      ensures r.Ok? <==> SnapshotApplies(old(collections), data, inCluster, backend)
      ensures r.Ok? ==> collections == Reconciled(old(collections), data, inCluster, backend)
      ensures r.Ok? ==> collections.Keys == data.collections.Keys && aliases == data.aliases
      ensures r.Err? ==> aliases == old(aliases) && PartlyReconciled(old(collections), data, inCluster, backend, collections)
      ensures peerAddresses == old(peerAddresses) && proposals == old(proposals)
      ensures isWriteLocked == old(isWriteLocked) && lockErrorMessage == old(lockErrorMessage)
    {
      var failure := ReconcileCollections(data);
      if failure.Some? {
        return Err(failure.value);
      }
      ghost var reconciled := collections;
      DeleteCollectionsNotIn(data.collections.Keys);
      ReconcileThenDelete(old(collections), data, inCluster, backend, reconciled);
      aliases := data.aliases;
      return Ok(());
    }

    /** First part of `apply_collections_snapshot`: each snapshot collection brought to its state or created. */
    method ReconcileCollections(data: TocSpec.CollectionsSnapshot) returns (failure: Option<StorageError>)
      modifies this
      ensures failure.None? <==> SnapshotApplies(old(collections), data, inCluster, backend)
      ensures PartlyReconciled(old(collections), data, inCluster, backend, collections)
      ensures failure.None? ==> collections.Keys == old(collections).Keys + data.collections.Keys
      ensures failure.None? ==> forall id :: id in data.collections ==>
        collections[id] == ReconcileOne(old(collections), id, data.collections[id], inCluster, backend).value
      ensures aliases == old(aliases) && peerAddresses == old(peerAddresses) && proposals == old(proposals)
      ensures isWriteLocked == old(isWriteLocked) && lockErrorMessage == old(lockErrorMessage)
    {
      var current;
      current, failure := ReconcileAll(collections, data, inCluster, backend);
      collections := current;
    }

    /**
     * Second part of `apply_collections_snapshot`: every collection not in
     * `keep` removed from the map the held guard gives, as
     * `TocSpec.DeletionThroughGuard` describes.
     */
    method DeleteCollectionsNotIn(keep: set<CollectionId>)
      modifies this
      ensures collections == map id | id in old(collections) && id in keep :: old(collections)[id]
      ensures aliases == old(aliases) && peerAddresses == old(peerAddresses) && proposals == old(proposals)
      ensures isWriteLocked == old(isWriteLocked) && lockErrorMessage == old(lockErrorMessage)
    {
      var extra := collections.Keys - keep;
      while extra != {}
        invariant collections.Keys == (old(collections).Keys * keep) + extra
        invariant forall id :: id in collections ==> collections[id] == old(collections)[id]
        invariant aliases == old(aliases) && peerAddresses == old(peerAddresses) && proposals == old(proposals)
        invariant isWriteLocked == old(isWriteLocked) && lockErrorMessage == old(lockErrorMessage)
        decreases extra
      {
        var id :| id in extra;
        collections := collections - {id};
        extra := extra - {id};
      }
    }
  }
}
