/**
 * The table of contents on values: name resolution, alias changes, collection
 * creation checks, peer removal checks and snapshot reconciliation, as
 * functions of the collections map and the alias mapping. The class in
 * module `Toc` is proved against these functions.
 */
module TocSpec {
  import opened Common
  import opened CollectionTypes
  import opened CollectionMetaOps

  /** Message of a write lock set without one. */
  const DefaultWriteLockErrorMessage: string := "Write operations are forbidden"

  /** Default replication factor and write consistency factor of a new collection. */
  const DefaultReplicationFactor: u32 := 1
  const DefaultWriteConsistencyFactor: u32 := 1

  /** The collections, by name, as their published state. */
  type Collections = map<CollectionId, CollectionState>

  /** Alias name to collection name. */
  type AliasMapping = map<string, CollectionId>

  /** `validate_collection_exists` failing. */
  function CollectionNotFound(name: string): StorageError {
    NotFound("Collection `" + name + "` doesn't exist!")
  }

  /** `validate_collection_not_exists` failing. */
  function CollectionAlreadyExists(name: string): StorageError {
    BadInput("Collection `" + name + "` already exists!")
  }

  /** `rename_alias` of an alias that is not there. */
  function AliasNotFound(name: string): StorageError {
    NotFound("Alias " + name + " does not exists!")
  }

  /**
   * `resolve_name`: an alias stands for its target, any other name for
   * itself; the name so obtained must be a collection.
   */
  function Resolve(aliases: AliasMapping, collections: Collections, name: string): (r: Result<CollectionId, StorageError>)
    ensures r.Ok? <==> (if name in aliases then aliases[name] else name) in collections
    ensures r.Ok? ==> r.value in collections
    ensures r.Ok? && name in aliases ==> r.value == aliases[name]
    ensures r.Ok? && name !in aliases ==> r.value == name
    ensures r.Err? ==> r.error.NotFound?
  {
    var resolved := if name in aliases then aliases[name] else name;
    if resolved in collections then Ok(resolved) else Err(CollectionNotFound(resolved))
  }

  // ---------------------------------------------------------------------
  // Aliases

  /** One alias action against the mapping (`AliasPersistence` insert, remove and rename). */
  function ApplyAliasAction(aliases: AliasMapping, collections: Collections, action: AliasOperations): (r: Result<AliasMapping, StorageError>)
  {
    match action
    case CreateAlias(CreateAliasOperation(CreateAlias(collectionName, aliasName))) =>
      if collectionName !in collections then Err(CollectionNotFound(collectionName))
      else if aliasName in collections then Err(CollectionAlreadyExists(aliasName))
      else Ok(aliases[aliasName := collectionName])
    case DeleteAlias(DeleteAliasOperation(DeleteAlias(aliasName))) =>
      Ok(aliases - {aliasName})
    case RenameAlias(RenameAliasOperation(RenameAlias(oldName, newName))) =>
      if oldName !in aliases then Err(AliasNotFound(oldName))
      else Ok((aliases - {oldName})[newName := aliases[oldName]])
  }

  /** The mapping after a list of actions, and the error that stopped it, if any. */
  datatype AliasOutcome = AliasOutcome(aliases: AliasMapping, error: Option<StorageError>)

  /**
   * `update_aliases`: actions in list order; the first failing one stops the
   * list, and the actions before it stay applied.
   */
  function ApplyAliasActions(aliases: AliasMapping, collections: Collections, actions: seq<AliasOperations>): AliasOutcome
    decreases |actions|
  {
    if |actions| == 0 then AliasOutcome(aliases, None)
    else match ApplyAliasAction(aliases, collections, actions[0])
      case Err(e) => AliasOutcome(aliases, Some(e))
      case Ok(next) => ApplyAliasActions(next, collections, actions[1..])
  }

  /** A create succeeds exactly when the target is a collection and the alias name is not. */
  lemma CreateAliasChecks(aliases: AliasMapping, collections: Collections, collectionName: string, aliasName: string)
    ensures var r := ApplyAliasAction(aliases, collections, FromCreateAlias(CreateAlias.CreateAlias(collectionName, aliasName)));
      && (r.Ok? <==> collectionName in collections && aliasName !in collections)
      && (collectionName !in collections ==> r == Err(CollectionNotFound(collectionName)))
      && (collectionName in collections && aliasName in collections ==> r == Err(CollectionAlreadyExists(aliasName)))
      && (r.Ok? ==> Resolve(r.value, collections, aliasName) == Ok(collectionName))
  {
  }

  /** A rename moves an existing alias to its new name, pointing at the same collection. */
  lemma RenameAliasMoves(aliases: AliasMapping, collections: Collections, oldName: string, newName: string)
    ensures var r := ApplyAliasAction(aliases, collections, FromRenameAlias(RenameAlias.RenameAlias(oldName, newName)));
      && (r.Ok? <==> oldName in aliases)
      && (r.Ok? ==> newName in r.value && r.value[newName] == aliases[oldName])
      && (r.Ok? && oldName != newName ==> oldName !in r.value)
      && (r.Ok? ==> forall a :: a in aliases && a != oldName && a != newName ==> a in r.value && r.value[a] == aliases[a])
  {
  }

  /** A delete never fails and removes exactly that alias. */
  lemma DeleteAliasRemoves(aliases: AliasMapping, collections: Collections, aliasName: string)
    ensures ApplyAliasAction(aliases, collections, FromDeleteAlias(DeleteAlias.DeleteAlias(aliasName))) == Ok(aliases - {aliasName})
  {
  }

  /** Running two lists one after the other is running their concatenation. */
  lemma {:induction false} AliasActionsCompose(aliases: AliasMapping, collections: Collections, xs: seq<AliasOperations>, ys: seq<AliasOperations>)
    ensures var first := ApplyAliasActions(aliases, collections, xs);
      ApplyAliasActions(aliases, collections, xs + ys) ==
        if first.error.Some? then first else ApplyAliasActions(first.aliases, collections, ys)
    decreases |xs|
  {
    if |xs| == 0 {
      assert xs + ys == ys;
    } else {
      assert (xs + ys)[0] == xs[0];
      assert (xs + ys)[1..] == xs[1..] + ys;
      match ApplyAliasAction(aliases, collections, xs[0])
      case Err(_) =>
      case Ok(next) => AliasActionsCompose(next, collections, xs[1..], ys);
    }
  }

  /** A one-action list behaves as that action. */
  lemma SingleAliasAction(aliases: AliasMapping, collections: Collections, action: AliasOperations)
    ensures var r := ApplyAliasAction(aliases, collections, action);
      ApplyAliasActions(aliases, collections, [action]) ==
        if r.Err? then AliasOutcome(aliases, Some(r.error)) else AliasOutcome(r.value, None)
  {
    assert [action][1..] == [];
  }

  /**
   * Create `alias2`, delete `alias1`, rename `alias2` to `alias3`: the list
   * succeeds and `alias3` resolves to the collection.
   */
  lemma {:induction false} CreateDeleteRenameScenario(aliases: AliasMapping, collections: Collections,
                                                      collection: string, alias1: string, alias2: string, alias3: string)
    requires collection in collections
    requires alias2 !in collections
    requires alias1 != alias2
    ensures var actions := [FromCreateAlias(CreateAlias.CreateAlias(collection, alias2)),
                            FromDeleteAlias(DeleteAlias.DeleteAlias(alias1)),
                            FromRenameAlias(RenameAlias.RenameAlias(alias2, alias3))];
      var outcome := ApplyAliasActions(aliases, collections, actions);
      outcome.error == None && Resolve(outcome.aliases, collections, alias3) == Ok(collection)
  {
    var c := FromCreateAlias(CreateAlias.CreateAlias(collection, alias2));
    var d := FromDeleteAlias(DeleteAlias.DeleteAlias(alias1));
    var n := FromRenameAlias(RenameAlias.RenameAlias(alias2, alias3));
    var a1 := aliases[alias2 := collection];
    var a2 := a1 - {alias1};
    var a3 := (a2 - {alias2})[alias3 := collection];
    assert ApplyAliasAction(aliases, collections, c) == Ok(a1);
    assert ApplyAliasAction(a1, collections, d) == Ok(a2);
    assert alias2 in a2 && a2[alias2] == collection;
    assert ApplyAliasAction(a2, collections, n) == Ok(a3);
    SingleAliasAction(a2, collections, n);
    AliasActionsCompose(a1, collections, [d], [n]);
    SingleAliasAction(a1, collections, d);
    assert [d] + [n] == [d, n];
    AliasActionsCompose(aliases, collections, [c], [d, n]);
    SingleAliasAction(aliases, collections, c);
    assert [c] + [d, n] == [c, d, n];
  }

  /** Deleting a collection keeps the aliases to it, and they no longer resolve. */
  lemma DeletedCollectionAliasesDangle(aliases: AliasMapping, collections: Collections, name: string, alias: string)
    requires alias in aliases && aliases[alias] == name
    ensures Resolve(aliases, collections - {name}, alias) == Err(CollectionNotFound(name))
  {
  }

  // ---------------------------------------------------------------------
  // Collection creation

  /**
   * The checks and defaults of `create_collection` for a new collection
   * placed as `distribution`: the name must be free, and the shard count (as
   * a 32-bit value), the replication factor and the write consistency factor
   * must be non-zero, checked in that order.
   */
  function ValidateCreate(collections: Collections, name: string, create: CreateCollection,
                          distribution: ShardDistribution, onDiskPayloadDefault: bool): (r: Result<CollectionConfig, StorageError>)
  {
    var shardNumber := distribution.ShardCount() % 0x1_0000_0000;
    var replicationFactor := create.replicationFactor.GetOr(DefaultReplicationFactor);
    var writeConsistencyFactor := create.writeConsistencyFactor.GetOr(DefaultWriteConsistencyFactor);
    if name in collections then Err(CollectionAlreadyExists(name))
    else if shardNumber == 0 then Err(BadInput("`shard_number` cannot be 0"))
    else if replicationFactor == 0 then Err(BadInput("`replication_factor` cannot be 0"))
    else if writeConsistencyFactor == 0 then Err(BadInput("`write_consistency_factor` cannot be 0"))
    else Ok(CollectionConfig(
      CollectionParams(create.vectors, shardNumber, create.onDiskPayload.GetOr(onDiskPayloadDefault),
                       replicationFactor, writeConsistencyFactor),
      create.walConfig, create.optimizersConfig, create.hnswConfig))
  }

  /**
   * Creation fails on an existing name and with `BadInput` on a zero count;
   * otherwise the parameters are valid, counts take their defaults and the
   * shard number is that of the distribution.
   */
  lemma ValidateCreateOutcome(collections: Collections, name: string, create: CreateCollection,
                              distribution: ShardDistribution, onDiskPayloadDefault: bool)
    requires distribution.ShardCount() < 0x1_0000_0000
    ensures var r := ValidateCreate(collections, name, create, distribution, onDiskPayloadDefault);
      && (r.Ok? <==> name !in collections && distribution.ShardCount() > 0 &&
                     create.replicationFactor != Some(0) && create.writeConsistencyFactor != Some(0))
      && (name in collections ==> r == Err(CollectionAlreadyExists(name)))
      && (name !in collections && r.Err? ==> r.error.BadInput?)
      && (r.Ok? ==>
            && r.value.params.Valid()
            && r.value.params.shardNumber == distribution.ShardCount()
            && r.value.params.replicationFactor == create.replicationFactor.GetOr(1)
            && r.value.params.writeConsistencyFactor == create.writeConsistencyFactor.GetOr(1)
            && r.value.params.onDiskPayload == create.onDiskPayload.GetOr(onDiskPayloadDefault)
            && r.value.params.vectors == create.vectors
            && r.value.walConfig == create.walConfig
            && r.value.optimizerConfig == create.optimizersConfig
            && r.value.hnswConfig == create.hnswConfig)
  {
  }

  /** With the default placement a shard number of zero is refused, and any other accepted. */
  lemma AllLocalShardNumberChecked(collections: Collections, name: string, create: CreateCollection, me: PeerId, onDiskPayloadDefault: bool)
    requires name !in collections
    requires create.replicationFactor != Some(0) && create.writeConsistencyFactor != Some(0)
    ensures ValidateCreate(collections, name, create, AllLocal(create.shardNumber, me), onDiskPayloadDefault).Ok?
        <==> create.shardNumber != Some(0)
  {
  }

  // ---------------------------------------------------------------------
  // Peer removal

  /** As written: each collection name is resolved through the aliases before its shards are checked. */
  predicate RemovalRefusedAsWritten(collections: Collections, aliases: AliasMapping, peer: PeerId) {
    exists name :: name in collections &&
      (Resolve(aliases, collections, name).Err? || IsOnlyReplicaOf(collections[Resolve(aliases, collections, name).value], peer))
  }

  /** As intended: the peer is the only replica of some shard of some collection. */
  predicate RemovalRefused(collections: Collections, peer: PeerId) {
    exists name :: name in collections && IsOnlyReplicaOf(collections[name], peer)
  }

  /** Every collection with the peer dropped from its replicas (`remove_shards_at_peer`). */
  function WithoutPeerEverywhere(collections: Collections, peer: PeerId): (r: Collections)
    ensures r.Keys == collections.Keys
    ensures forall name :: name in r ==> r[name] == WithoutPeer(collections[name], peer)
  {
    map name | name in collections :: WithoutPeer(collections[name], peer)
  }

  /**
   * The known peer addresses after a peer is removed: the removed peer is
   * forgotten, and removing this peer itself forgets every other peer.
   */
  function AddressesAfterRemoval(addresses: map<PeerId, Uri>, peer: PeerId, thisPeerId: PeerId): (r: map<PeerId, Uri>)
    ensures forall id :: id in r <==> id in addresses && (if peer == thisPeerId then id == thisPeerId else id != peer)
    ensures forall id :: id in r ==> r[id] == addresses[id]
  {
    if peer == thisPeerId then map id | id in addresses && id == thisPeerId :: addresses[id]
    else addresses - {peer}
  }

  /**
   * A removal that the intended check lets through leaves the peer without
   * shards and every shard that had a replica with one.
   */
  lemma RemovalKeepsEveryShard(collections: Collections, peer: PeerId)
    requires !RemovalRefused(collections, peer)
    ensures var r := WithoutPeerEverywhere(collections, peer);
      && (forall name :: name in r ==> !HasReplicaOn(r[name], peer))
      && (forall name, s :: name in collections && s in collections[name].shards && |collections[name].shards[s]| > 0 ==>
            |r[name].shards[s]| > 0)
  {
    forall name | name in collections
      ensures forall s :: s in collections[name].shards && |collections[name].shards[s]| > 0 ==>
        |WithoutPeerEverywhere(collections, peer)[name].shards[s]| > 0
    {
      WithoutPeerKeepsReplicas(collections[name], peer);
    }
  }

  /** Without aliases the check as written and the intended one agree. */
  lemma RemovalChecksAgreeWithoutAliases(collections: Collections, peer: PeerId)
    ensures RemovalRefusedAsWritten(collections, map[], peer) <==> RemovalRefused(collections, peer)
  {
    if RemovalRefusedAsWritten(collections, map[], peer) {
      var name :| name in collections &&
        (Resolve(map[], collections, name).Err? || IsOnlyReplicaOf(collections[Resolve(map[], collections, name).value], peer));
      assert IsOnlyReplicaOf(collections[name], peer);
    }
    if RemovalRefused(collections, peer) {
      var name :| name in collections && IsOnlyReplicaOf(collections[name], peer);
      assert Resolve(map[], collections, name) == Ok(name);
    }
  }

  /** A single replica per shard, on `peer`. */
  lemma OnlyReplicaShard(c: CollectionState, peer: PeerId)
    requires c.shards == map[0 := map[peer := Active]]
    ensures IsOnlyReplicaOf(c, peer)
    ensures |WithoutPeer(c, peer).shards[0]| == 0
  {
    assert c.shards[0].Keys == {peer};
    assert WithoutPeer(c, peer).shards[0].Keys == {};
  }

  /** Two replicas of the one shard: neither peer is the only replica. */
  lemma TwoReplicaShard(c: CollectionState, peer: PeerId, other: PeerId)
    requires peer != other
    requires c.shards == map[0 := map[peer := Active, other := Active]]
    ensures !IsOnlyReplicaOf(c, peer)
  {
    assert c.shards[0].Keys == {peer, other};
  }

  /**
   * As written, an alias named like a collection hides that collection from
   * the check: collection `a` keeps shard 0 on `peer` only, alias `a` points
   * at `b`, where shard 0 is also on `other`; removing `peer` is let through
   * and leaves shard 0 of `a` with no replica.
   */
  lemma RemovalAsWrittenMissesShadowedCollection(config: CollectionConfig, a: string, b: string, peer: PeerId, other: PeerId)
    requires a != b && peer != other
    ensures var ca := CollectionState(config, map[0 := map[peer := Active]], {});
      var cb := CollectionState(config, map[0 := map[peer := Active, other := Active]], {});
      var collections := map[a := ca, b := cb];
      var aliases := map[a := b];
      && !RemovalRefusedAsWritten(collections, aliases, peer)
      && RemovalRefused(collections, peer)
      && var after := WithoutPeerEverywhere(collections, peer);
         a in after && 0 in after[a].shards && |after[a].shards[0]| == 0
  {
    var ca := CollectionState(config, map[0 := map[peer := Active]], {});
    var cb := CollectionState(config, map[0 := map[peer := Active, other := Active]], {});
    var collections := map[a := ca, b := cb];
    var aliases := map[a := b];
    OnlyReplicaShard(ca, peer);
    TwoReplicaShard(cb, peer, other);
    assert !RemovalRefusedAsWritten(collections, aliases, peer) by {
      forall name | name in collections
        ensures Resolve(aliases, collections, name) == Ok(b)
      {
        assert name == a || name == b;
      }
    }
    assert a in collections && IsOnlyReplicaOf(collections[a], peer);
    assert WithoutPeerEverywhere(collections, peer)[a] == WithoutPeer(ca, peer);
  }

  // ---------------------------------------------------------------------
  // Snapshot reconciliation

  /** What a consensus snapshot carries about collections: their states and the aliases. */
  datatype CollectionsSnapshot = CollectionsSnapshot(collections: Collections, aliases: AliasMapping)

  /** `from_shards_info`: which peers each shard is placed on. */
  function FromShardsInfo(shards: map<ShardId, Replicas>): (d: ShardDistribution)
    ensures d.shards.Keys == shards.Keys
    ensures forall s :: s in d.shards ==> d.shards[s] == shards[s].Keys
  {
    ShardDistribution(map s | s in shards :: shards[s].Keys)
  }

  // ---------------------------------------------------------------------
  // Collaborators

  /**
   * What the table of contents asks of a `Collection` whose internals are
   * not part of this model, as functions of the collection's published
   * state: every property of the model holds whichever functions these are.
   */
  datatype CollectionBackend = CollectionBackend(
    /** `storage_config.on_disk_payload`. */
    onDiskPayloadDefault: bool,
    /** `Collection::new`: the state of a new collection. */
    newCollection: (CollectionConfig, ShardDistribution) -> CollectionState,
    /** `get_local_shards`, in the order the collection lists them. */
    localShards: CollectionState -> seq<ShardId>,
    setReplicaState: (CollectionState, ShardId, PeerId, ReplicaState) -> Result<CollectionState, StorageError>,
    updateOptimizers: (CollectionState, OptimizersConfigDiff) -> Result<CollectionState, StorageError>,
    updateParams: (CollectionState, CollectionParamsDiff) -> Result<CollectionState, StorageError>,
    handleReplicaChanges: (CollectionState, seq<ReplicaChange>) -> Result<CollectionState, StorageError>,
    /** `validate_transfer` over all known peers, the shard's replicas and the running transfers. */
    validateTransfer: (ShardTransfer, set<PeerId>, Option<Replicas>, set<ShardTransfer>) -> Option<StorageError>,
    startTransfer: (CollectionState, ShardTransfer) -> Result<CollectionState, StorageError>,
    finishTransfer: (CollectionState, ShardTransfer) -> Result<CollectionState, StorageError>,
    abortTransfer: (CollectionState, ShardTransferKey) -> Result<CollectionState, StorageError>,
    /** `apply_state`: bring a local collection to a state published by consensus. */
    applyState: (CollectionState, CollectionState) -> Result<CollectionState, StorageError>)

  /** The part of the table of contents that creating a collection touches: its collections and what it sent to consensus. */
  datatype Published = Published(collections: Collections, proposals: seq<ConsensusOperations>)

  /**
   * `on_peer_created`: with consensus, a proposal to activate the replica;
   * on a single node, the replica of an existing collection is set active.
   */
  function OnPeerCreatedEffect(p: Published, name: CollectionId, peer: PeerId, shard: ShardId,
                               inCluster: bool, backend: CollectionBackend): (r: Result<Published, StorageError>)
    ensures inCluster ==> r == Ok(p.(proposals := p.proposals + [ActivateReplica(name, shard, peer)]))
    ensures !inCluster ==> r.Ok? ==> r.value.proposals == p.proposals && r.value.collections.Keys == p.collections.Keys
  {
    if inCluster then Ok(p.(proposals := p.proposals + [ActivateReplica(name, shard, peer)]))
    else if name in p.collections then
      match backend.setReplicaState(p.collections[name], shard, peer, Active)
      case Err(e) => Err(e)
      case Ok(c) => Ok(p.(collections := p.collections[name := c]))
    else Ok(p)
  }

  /** `on_peer_created` for each shard in turn; the first error stops the loop and the earlier activations stay. */
  function ActivateShards(p: Published, name: CollectionId, peer: PeerId, shards: seq<ShardId>,
                          inCluster: bool, backend: CollectionBackend): (Published, Option<StorageError>)
    decreases |shards|
  {
    if |shards| == 0 then (p, None)
    else match OnPeerCreatedEffect(p, name, peer, shards[0], inCluster, backend)
      case Err(e) => (p, Some(e))
      case Ok(q) => ActivateShards(q, name, peer, shards[1..], inCluster, backend)
  }

  /** The activation proposals for `shards`, in order. */
  function ActivationProposals(name: CollectionId, peer: PeerId, shards: seq<ShardId>): (r: seq<ConsensusOperations>)
    ensures |r| == |shards|
    ensures forall i :: 0 <= i < |shards| ==> r[i] == ActivateReplica(name, shards[i], peer)
  {
    if |shards| == 0 then [] else [ActivateReplica(name, shards[0], peer)] + ActivationProposals(name, peer, shards[1..])
  }

  /** Appending the first activation, then the rest, appends all of them. */
  lemma AppendActivations(proposals: seq<ConsensusOperations>, name: CollectionId, peer: PeerId, shards: seq<ShardId>)
    requires |shards| > 0
    ensures proposals + [ActivateReplica(name, shards[0], peer)] + ActivationProposals(name, peer, shards[1..])
         == proposals + ActivationProposals(name, peer, shards)
  {
    var rest := ActivationProposals(name, peer, shards[1..]);
    assert ActivationProposals(name, peer, shards) == [ActivateReplica(name, shards[0], peer)] + rest;
    assert proposals + [ActivateReplica(name, shards[0], peer)] + rest == proposals + ([ActivateReplica(name, shards[0], peer)] + rest);
  }

  /**
   * With consensus, activating shards never fails and never touches a
   * collection: it proposes one activation per shard, in order.
   */
  lemma {:induction false} ActivateShardsInCluster(p: Published, name: CollectionId, peer: PeerId, shards: seq<ShardId>, backend: CollectionBackend)
    ensures ActivateShards(p, name, peer, shards, true, backend) ==
      (p.(proposals := p.proposals + ActivationProposals(name, peer, shards)), None)
    decreases |shards|
  {
    if |shards| == 0 {
      assert p.proposals + [] == p.proposals;
    } else {
      var q := p.(proposals := p.proposals + [ActivateReplica(name, shards[0], peer)]);
      assert ActivateShards(p, name, peer, shards, true, backend) == ActivateShards(q, name, peer, shards[1..], true, backend);
      ActivateShardsInCluster(q, name, peer, shards[1..], backend);
      AppendActivations(p.proposals, name, peer, shards);
    }
  }

  /** On a single node, activating shards sends nothing to consensus and keeps the set of collections. */
  lemma {:induction false} ActivateShardsSingleNode(p: Published, name: CollectionId, peer: PeerId, shards: seq<ShardId>, backend: CollectionBackend)
    ensures ActivateShards(p, name, peer, shards, false, backend).0.proposals == p.proposals
    ensures ActivateShards(p, name, peer, shards, false, backend).0.collections.Keys == p.collections.Keys
    decreases |shards|
  {
    if |shards| > 0 {
      match OnPeerCreatedEffect(p, name, peer, shards[0], false, backend)
      case Err(_) =>
      case Ok(q) => ActivateShardsSingleNode(q, name, peer, shards[1..], backend);
    }
  }

  /**
   * `update_collection` on the state of the resolved collection: the
   * optimizer diff, the parameter diff and the replica changes, each when
   * given, in that order; a failing step stops the rest and the earlier
   * steps stay applied.
   */
  function UpdateCollectionEffect(state: CollectionState, update: UpdateCollection, changes: Option<seq<ReplicaChange>>,
                                  backend: CollectionBackend): (CollectionState, Option<StorageError>)
  {
    var s1 := if update.optimizersConfig.Some? then backend.updateOptimizers(state, update.optimizersConfig.value) else Ok(state);
    if s1.Err? then (state, Some(s1.error))
    else
      var s2 := if update.params.Some? then backend.updateParams(s1.value, update.params.value) else Ok(s1.value);
      if s2.Err? then (s1.value, Some(s2.error))
      else
        var s3 := if changes.Some? then backend.handleReplicaChanges(s2.value, changes.value) else Ok(s2.value);
        if s3.Err? then (s2.value, Some(s3.error)) else (s3.value, None)
  }

  /** An update with nothing to change succeeds and leaves the collection as it was. */
  lemma EmptyUpdateChangesNothing(state: CollectionState, name: CollectionId, backend: CollectionBackend)
    ensures var op := NewEmptyUpdate(name);
      UpdateCollectionEffect(state, op.updateCollection, op.TakeShardReplicaChanges().0, backend) == (state, None)
  {
  }

  /**
   * `handle_transfer` on the state of the resolved collection: a start is
   * validated against all known peers, the shard's replicas and the running
   * transfers before the collection starts it.
   */
  function TransferEffect(state: CollectionState, op: ShardTransferOperations, allPeers: set<PeerId>,
                          backend: CollectionBackend): (r: Result<CollectionState, StorageError>)
    ensures op.Start? ==> var shardState := if op.transfer.shardId in state.shards then Some(state.shards[op.transfer.shardId]) else None;
      backend.validateTransfer(op.transfer, allPeers, shardState, state.transfers).Some? ==>
        r == Err(backend.validateTransfer(op.transfer, allPeers, shardState, state.transfers).value)
  {
    match op
    case Start(transfer) =>
      var shardState := if transfer.shardId in state.shards then Some(state.shards[transfer.shardId]) else None;
      var invalid := backend.validateTransfer(transfer, allPeers, shardState, state.transfers);
      if invalid.Some? then Err(invalid.value) else backend.startTransfer(state, transfer)
    case Finish(transfer) => backend.finishTransfer(state, transfer)
    case Abort(key, _) => backend.abortTransfer(state, key)
  }

  /** `ServiceError` of `handle_transfer` without consensus. */
  const SingleNodeTransferError: StorageError := ServiceError("Can't handle transfer, this is a single node deployment")

  // ---------------------------------------------------------------------
  // Collection operations

  /** The part of the table of contents that collection operations change. */
  datatype MetaState = MetaState(collections: Collections, aliases: AliasMapping, proposals: seq<ConsensusOperations>)

  /** The placement of a new collection: the proposed one, or every shard on this peer. */
  function CreatePlacement(createOp: CreateCollectionOperation, thisPeerId: PeerId): ShardDistribution {
    if createOp.distribution.Some? then createOp.distribution.value.ToDistribution()
    else AllLocal(createOp.createCollection.shardNumber, thisPeerId)
  }

  /**
   * `perform_collection_meta_op` on values: each operation as its handler
   * does it (`create_collection`, `update_collection`, `delete_collection`,
   * `update_aliases`, `handle_transfer`, `set_shard_replica_state`); `Nop`
   * succeeds. `peers` are the known peers, against which transfers are
   * validated.
   */
  function MetaOpEffect(s: MetaState, op: CollectionMetaOperations, peers: set<PeerId>, thisPeerId: PeerId,
                        inCluster: bool, backend: CollectionBackend): (MetaState, Result<bool, StorageError>)
  {
    match op
    case CreateCollection(createOp) =>
      var name := createOp.collectionName;
      var distribution := CreatePlacement(createOp, thisPeerId);
      var v := ValidateCreate(s.collections, name, createOp.createCollection, distribution, backend.onDiskPayloadDefault);
      if v.Err? then (s, Err(v.error))
      else
        var c := backend.newCollection(v.value, distribution);
        var out := ActivateShards(Published(s.collections[name := c], s.proposals), name, thisPeerId,
                                  backend.localShards(c), inCluster, backend);
        (s.(collections := out.0.collections, proposals := out.0.proposals),
         if out.1.None? then Ok(true) else Err(out.1.value))
    case UpdateCollection(updateOp) =>
      (match Resolve(s.aliases, s.collections, updateOp.collectionName)
       case Err(e) => (s, Err(e))
       case Ok(name) =>
         var out := UpdateCollectionEffect(s.collections[name], updateOp.updateCollection, updateOp.shardReplicaChanges, backend);
         (s.(collections := s.collections[name := out.0]), if out.1.None? then Ok(true) else Err(out.1.value)))
    case DeleteCollection(deleteOp) =>
      (s.(collections := s.collections - {deleteOp.name}), Ok(deleteOp.name in s.collections))
    case ChangeAliases(aliasesOp) =>
      var out := ApplyAliasActions(s.aliases, s.collections, aliasesOp.actions);
      (s.(aliases := out.aliases), if out.error.None? then Ok(true) else Err(out.error.value))
    case TransferShard(collectionId, transferOp) =>
      (match Resolve(s.aliases, s.collections, collectionId)
       case Err(e) => (s, Err(e))
       case Ok(name) =>
         if !inCluster then (s, Err(SingleNodeTransferError))
         else match TransferEffect(s.collections[name], transferOp, peers, backend)
           case Err(e) => (s, Err(e))
           case Ok(c) => (s.(collections := s.collections[name := c]), Ok(true)))
    case SetShardReplicaState(replicaOp) =>
      (match Resolve(s.aliases, s.collections, replicaOp.collectionName)
       case Err(e) => (s, Err(e))
       case Ok(name) =>
         match backend.setReplicaState(s.collections[name], replicaOp.shardId, replicaOp.peerId, replicaOp.state)
         case Err(e) => (s, Err(e))
         case Ok(c) => (s.(collections := s.collections[name := c]), Ok(true)))
    case Nop(_) => (s, Ok(true))
  }

  /** The name an operation on an existing collection is addressed to. */
  function TargetName(op: CollectionMetaOperations): string
    requires op.UpdateCollection? || op.TransferShard? || op.SetShardReplicaState?
  {
    match op
    case UpdateCollection(updateOp) => updateOp.collectionName
    case TransferShard(collectionId, _) => collectionId
    case SetShardReplicaState(replicaOp) => replicaOp.collectionName
  }

  /**
   * What each collection operation may change: only alias changes touch the
   * aliases and only creations send proposals; `Nop` changes nothing; a
   * delete removes the name and reports whether it was a collection.
   */
  lemma MetaOpEffectFrames(s: MetaState, op: CollectionMetaOperations, peers: set<PeerId>, thisPeerId: PeerId,
                           inCluster: bool, backend: CollectionBackend)
    ensures var out := MetaOpEffect(s, op, peers, thisPeerId, inCluster, backend);
      && (!op.ChangeAliases? ==> out.0.aliases == s.aliases)
      && (!op.CreateCollection? ==> out.0.proposals == s.proposals)
      && (op.Nop? ==> out == (s, Ok(true)))
      && (op.DeleteCollection? ==>
            out.1 == Ok(op.deleteOp.name in s.collections) && out.0.collections == s.collections - {op.deleteOp.name})
      && (op.ChangeAliases? ==> out.0.collections == s.collections)
  {
  }

  /**
   * An update, a transfer or a replica state change addressed to a name that
   * does not resolve fails with `NotFound` and changes nothing; otherwise it
   * changes only the collection the name resolves to. A transfer without
   * consensus fails and changes nothing.
   */
  lemma MetaOpEffectOnResolved(s: MetaState, op: CollectionMetaOperations, peers: set<PeerId>, thisPeerId: PeerId,
                               inCluster: bool, backend: CollectionBackend)
    requires op.UpdateCollection? || op.TransferShard? || op.SetShardReplicaState?
    ensures var out := MetaOpEffect(s, op, peers, thisPeerId, inCluster, backend);
      var res := Resolve(s.aliases, s.collections, TargetName(op));
      && (res.Err? ==> out == (s, Err(res.error)) && out.1.error.NotFound?)
      && (res.Ok? ==> out.0.collections.Keys == s.collections.Keys)
      && (res.Ok? ==> forall n :: n in s.collections && n != res.value ==> out.0.collections[n] == s.collections[n])
      && (op.TransferShard? && !inCluster ==> out.0 == s && out.1.Err?)
  {
  }

  /**
   * A creation under a taken name changes nothing. A successful one adds
   * exactly that collection; alone it proposes nothing, and with consensus
   * it stores the new collection and proposes exactly the activation of its
   * local shards.
   */
  lemma MetaOpEffectCreate(s: MetaState, op: CollectionMetaOperations, peers: set<PeerId>, thisPeerId: PeerId,
                           inCluster: bool, backend: CollectionBackend)
    requires op.CreateCollection?
    ensures var out := MetaOpEffect(s, op, peers, thisPeerId, inCluster, backend);
      var name := op.createOp.collectionName;
      && (name in s.collections ==> out == (s, Err(CollectionAlreadyExists(name))))
      && (out.1.Ok? ==> name !in s.collections && out.0.collections.Keys == s.collections.Keys + {name})
      && (!inCluster ==> out.0.proposals == s.proposals)
    ensures var out := MetaOpEffect(s, op, peers, thisPeerId, inCluster, backend);
      var name := op.createOp.collectionName;
      var distribution := CreatePlacement(op.createOp, thisPeerId);
      var v := ValidateCreate(s.collections, name, op.createOp.createCollection, distribution, backend.onDiskPayloadDefault);
      inCluster && v.Ok? ==>
        var c := backend.newCollection(v.value, distribution);
        out == (s.(collections := s.collections[name := c],
                   proposals := s.proposals + ActivationProposals(name, thisPeerId, backend.localShards(c))), Ok(true))
  {
    var name := op.createOp.collectionName;
    var distribution := CreatePlacement(op.createOp, thisPeerId);
    var v := ValidateCreate(s.collections, name, op.createOp.createCollection, distribution, backend.onDiskPayloadDefault);
    if v.Ok? {
      var c := backend.newCollection(v.value, distribution);
      var start := Published(s.collections[name := c], s.proposals);
      if inCluster {
        ActivateShardsInCluster(start, name, thisPeerId, backend.localShards(c), backend);
      } else {
        ActivateShardsSingleNode(start, name, thisPeerId, backend.localShards(c), backend);
      }
    }
  }


  /**
   * What one collection of a snapshot becomes locally: a local collection in
   * another state is brought to it (only with consensus), a missing one is
   * created from the snapshot's configuration and shard placement.
   */
  function ReconcileOne(local: Collections, id: CollectionId, state: CollectionState,
                        inCluster: bool, backend: CollectionBackend): Result<CollectionState, StorageError>
  {
    if id in local then
      if local[id] != state && inCluster then backend.applyState(local[id], state) else Ok(local[id])
    else Ok(backend.newCollection(state.config, FromShardsInfo(state.shards)))
  }

  /** Reconciling a collection depends only on the local entry of that name. */
  lemma ReconcileOneReadsOneEntry(a: Collections, b: Collections, id: CollectionId, state: CollectionState,
                                  inCluster: bool, backend: CollectionBackend)
    requires id in a <==> id in b
    requires id in a ==> a[id] == b[id]
    ensures ReconcileOne(a, id, state, inCluster, backend) == ReconcileOne(b, id, state, inCluster, backend)
  {
  }

  /** Every snapshot collection outside `todo` is reconciled in `current`; every other local one is as it was. */
  ghost predicate ReconciledExcept(local: Collections, data: CollectionsSnapshot, inCluster: bool, backend: CollectionBackend,
                                   current: Collections, todo: set<CollectionId>) {
    && todo <= data.collections.Keys
    && current.Keys == local.Keys + (data.collections.Keys - todo)
    && (forall id :: id in local && (id in todo || id !in data.collections) ==> current[id] == local[id])
    && (forall id :: id in data.collections && id !in todo ==>
          ReconcileOne(local, id, data.collections[id], inCluster, backend) == Ok(current[id]))
  }

  /**
   * What a snapshot stopped part-way leaves: no local collection is gone,
   * and every collection that is new or changed is one of the snapshot's,
   * reconciled as the snapshot says.
   */
  ghost predicate PartlyReconciled(local: Collections, data: CollectionsSnapshot, inCluster: bool, backend: CollectionBackend,
                                   current: Collections) {
    && local.Keys <= current.Keys <= local.Keys + data.collections.Keys
    && forall id :: id in current && (id !in local || current[id] != local[id]) ==>
         id in data.collections && ReconcileOne(local, id, data.collections[id], inCluster, backend) == Ok(current[id])
  }

  /** A reconciliation stopped with `todo` left over has left the collections partly reconciled. */
  lemma StoppedReconcileIsPartial(local: Collections, data: CollectionsSnapshot, inCluster: bool, backend: CollectionBackend,
                                  current: Collections, todo: set<CollectionId>)
    requires ReconciledExcept(local, data, inCluster, backend, current, todo)
    ensures PartlyReconciled(local, data, inCluster, backend, current)
  {
  }

  /** Reconciling one more collection of `todo` against the partly reconciled map is reconciling it against the local one. */
  lemma ReconcileStep(local: Collections, data: CollectionsSnapshot, inCluster: bool, backend: CollectionBackend,
                      current: Collections, todo: set<CollectionId>, id: CollectionId)
    requires ReconciledExcept(local, data, inCluster, backend, current, todo) && id in todo
    ensures ReconcileOne(current, id, data.collections[id], inCluster, backend) == ReconcileOne(local, id, data.collections[id], inCluster, backend)
    ensures ReconcileOne(local, id, data.collections[id], inCluster, backend).Ok? ==>
      ReconciledExcept(local, data, inCluster, backend,
                       current[id := ReconcileOne(local, id, data.collections[id], inCluster, backend).value], todo - {id})
  {
    ReconcileOneReadsOneEntry(current, local, id, data.collections[id], inCluster, backend);
  }

  /** No collection of the snapshot fails to apply. */
  ghost predicate SnapshotApplies(local: Collections, data: CollectionsSnapshot, inCluster: bool, backend: CollectionBackend) {
    forall id :: id in data.collections ==> ReconcileOne(local, id, data.collections[id], inCluster, backend).Ok?
  }

  /** `apply_collections_snapshot` on the collections: every snapshot collection reconciled, none other kept. */
  ghost function Reconciled(local: Collections, data: CollectionsSnapshot, inCluster: bool, backend: CollectionBackend): (r: Collections)
    requires SnapshotApplies(local, data, inCluster, backend)
    ensures r.Keys == data.collections.Keys
    ensures forall id :: id in r ==> r[id] == ReconcileOne(local, id, data.collections[id], inCluster, backend).value
  {
    map id | id in data.collections :: ReconcileOne(local, id, data.collections[id], inCluster, backend).value
  }

  /** Reconciling every snapshot collection and then deleting the others gives `Reconciled`. */
  lemma ReconcileThenDelete(local: Collections, data: CollectionsSnapshot, inCluster: bool, backend: CollectionBackend,
                            current: Collections)
    requires SnapshotApplies(local, data, inCluster, backend)
    requires current.Keys == local.Keys + data.collections.Keys
    requires forall id :: id in data.collections ==> current[id] == ReconcileOne(local, id, data.collections[id], inCluster, backend).value
    ensures (map id | id in current && id in data.collections.Keys :: current[id]) == Reconciled(local, data, inCluster, backend)
  {
  }

  // ---------------------------------------------------------------------
  // Deleting the collections a snapshot does not name

  /**
   * Awaiting the write guard of the `collections` lock. The tokio `RwLock`
   * is not reentrant: a task that already holds a guard waits forever.
   */
  datatype WriteAcquire = Granted | WaitsForever

  function AwaitWrite(guardHeld: bool): WriteAcquire {
    if guardHeld then WaitsForever else Granted
  }

  /** `delete_collection`: await the write lock, then remove the name; `None` is a call that never returns. */
  function DeleteCollectionAwaiting(current: Collections, name: CollectionId, guardHeld: bool): Option<Collections> {
    match AwaitWrite(guardHeld)
    case WaitsForever => None
    case Granted => Some(map id | id in current && id != name :: current[id])
  }

  /**
   * The deletion loop of `apply_collections_snapshot`, visiting the names in
   * `order`: each name outside `keep` goes to `delete_collection`, with the
   * `collections` guard held or not. `None` is a loop that never finishes.
   */
  function DeleteLoop(order: seq<CollectionId>, keep: set<CollectionId>, current: Collections, guardHeld: bool): Option<Collections>
    decreases |order|
  {
    if |order| == 0 then Some(current)
    else if order[0] in keep then DeleteLoop(order[1..], keep, current, guardHeld)
    else match DeleteCollectionAwaiting(current, order[0], guardHeld)
      case None => None
      case Some(next) => DeleteLoop(order[1..], keep, next, guardHeld)
  }

  /**
   * Under the guard held since the start of `apply_collections_snapshot`,
   * the loop finishes, deleting nothing, when it visits no name outside
   * `keep`; otherwise it never finishes, because the first
   * `delete_collection` waits for that guard.
   */
  lemma {:induction false} DeletionUnderGuard(order: seq<CollectionId>, keep: set<CollectionId>, current: Collections)
    ensures (exists id :: id in order && id !in keep) ==> DeleteLoop(order, keep, current, true) == None
    ensures (forall id :: id in order ==> id in keep) ==> DeleteLoop(order, keep, current, true) == Some(current)
    decreases |order|
  {
    if |order| > 0 {
      DeletionUnderGuard(order[1..], keep, current);
      if order[0] in keep {
        assert forall id :: id in order[1..] ==> id in order;
        assert forall id :: id in order && id != order[0] ==> id in order[1..];
      }
    }
  }

  /**
   * `apply_collections_snapshot` as written: after the first loop has
   * reconciled every snapshot collection, the deletion loop over the keys
   * never finishes exactly when some local collection is missing from the
   * snapshot, and when it finishes it has changed nothing.
   */
  lemma SnapshotDeletionAsWritten(local: Collections, data: CollectionsSnapshot, current: Collections, order: seq<CollectionId>)
    requires current.Keys == local.Keys + data.collections.Keys
    requires forall id :: id in order <==> id in current
    ensures DeleteLoop(order, data.collections.Keys, current, true) == None <==> exists id :: id in local && id !in data.collections
    ensures DeleteLoop(order, data.collections.Keys, current, true) in {None, Some(current)}
  {
    DeletionUnderGuard(order, data.collections.Keys, current);
  }

  /**
   * Deleting without waiting on the held guard (removing from the map the
   * guard already gives) leaves exactly the visited names that are kept and
   * every name not visited.
   */
  lemma {:induction false} DeletionThroughGuard(order: seq<CollectionId>, keep: set<CollectionId>, current: Collections)
    ensures DeleteLoop(order, keep, current, false) == Some(map id | id in current && (id in keep || id !in order) :: current[id])
    ensures (forall id :: id in current ==> id in order) ==>
      DeleteLoop(order, keep, current, false) == Some(map id | id in current && id in keep :: current[id])
    decreases |order|
  {
    if |order| == 0 {
      assert (map id | id in current && (id in keep || id !in order) :: current[id]) == current;
    } else {
      var next := if order[0] in keep then current else map id | id in current && id != order[0] :: current[id];
      DeletionThroughGuard(order[1..], keep, next);
      assert forall id :: id in order <==> id == order[0] || id in order[1..];
      assert (map id | id in next && (id in keep || id !in order[1..]) :: next[id])
          == (map id | id in current && (id in keep || id !in order) :: current[id]);
    }
    if forall id :: id in current ==> id in order {
      assert (map id | id in current && (id in keep || id !in order) :: current[id])
          == (map id | id in current && id in keep :: current[id]);
    }
  }

  /** Applying a table's own snapshot changes no collection. */
  lemma ReconcileWithOwnSnapshot(local: Collections, aliases: AliasMapping, inCluster: bool, backend: CollectionBackend)
    ensures SnapshotApplies(local, CollectionsSnapshot(local, aliases), inCluster, backend)
    ensures Reconciled(local, CollectionsSnapshot(local, aliases), inCluster, backend) == local
  {
  }

  /** Without consensus a snapshot never fails and keeps the state of every local collection it names. */
  lemma SingleNodeSnapshotKeepsLocalStates(local: Collections, data: CollectionsSnapshot, backend: CollectionBackend)
    ensures SnapshotApplies(local, data, false, backend)
    ensures forall id :: id in local && id in data.collections ==> Reconciled(local, data, false, backend)[id] == local[id]
  {
  }

  /** A collection already in its snapshot state is left alone, with or without consensus. */
  lemma UpToDateCollectionUntouched(local: Collections, data: CollectionsSnapshot, inCluster: bool, backend: CollectionBackend, id: CollectionId)
    requires id in local && id in data.collections && local[id] == data.collections[id]
    ensures ReconcileOne(local, id, data.collections[id], inCluster, backend) == Ok(local[id])
  {
  }

  // ---------------------------------------------------------------------
  // Messages

  /** The number a string of decimal digits denotes, most significant digit first. */
  function DecimalValue(s: string): nat
    requires forall i :: 0 <= i < |s| ==> '0' <= s[i] <= '9'
    decreases |s|
  {
    if |s| == 0 then 0 else 10 * DecimalValue(s[..|s| - 1]) + (s[|s| - 1] - '0') as nat
  }

  /** Decimal digits of `n`, without leading zeros, that denote `n`. */
  function NatToString(n: nat): (s: string)
    ensures |s| > 0
    ensures forall i :: 0 <= i < |s| ==> '0' <= s[i] <= '9'
    ensures DecimalValue(s) == n
    ensures n > 0 ==> s[0] != '0'
    ensures n == 0 ==> s == "0"
    decreases n
  {
    var digit := ['0' + (n % 10) as char];
    if n < 10 then digit
    else
      var high := NatToString(n / 10);
      assert (high + digit)[..|high|] == high;
      high + digit
  }

  /** `remove_peer` refusing to drop the last replica of a shard. */
  function OnlyReplicaError(peer: PeerId, shard: ShardId, name: CollectionId): StorageError {
    BadRequest("Cannot remove peer " + NatToString(peer) + " because it is the only replica of shard " +
               NatToString(shard) + " of collection " + name)
  }
}
