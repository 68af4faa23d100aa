/**
 * The parts of a collection's state that the metadata layer reads and writes:
 * which peers hold a replica of which shard, in which state, and the
 * collection's configuration. Configuration details that the metadata layer
 * only passes through are opaque types.
 */
module CollectionTypes {
  import opened Common

  /** A 32-bit unsigned integer (`u32`). */
  type u32 = x: nat | x < 0x1_0000_0000

  /** State of one replica of a shard on one peer. */
  datatype ReplicaState = Active | Dead | Partial

  /** Replicas of one shard: the peers that hold a copy and the state of each copy. */
  type Replicas = map<PeerId, ReplicaState>

  /** Configuration data the metadata layer does not interpret. */
  type VectorsConfig(==)
  type HnswConfigDiff(==)
  type WalConfigDiff(==)
  type OptimizersConfigDiff(==)
  type CollectionParamsDiff(==)

  /** One change of a shard's replica set (`replica_set::Change`), not interpreted here. */
  type ReplicaChange(==)

  /** The validated collection parameters built by `create_collection`. */
  datatype CollectionParams = CollectionParams(
    vectors: VectorsConfig,
    shardNumber: u32,
    onDiskPayload: bool,
    replicationFactor: u32,
    writeConsistencyFactor: u32)
  {
    /** The three counts are non-zero (`NonZeroU32`). */
    predicate Valid() {
      shardNumber > 0 && replicationFactor > 0 && writeConsistencyFactor > 0
    }
  }

  /**
   * A collection's configuration: its parameters and the configuration diffs
   * requested at creation (`None`: the storage-wide default applies).
   */
  datatype CollectionConfig = CollectionConfig(
    params: CollectionParams,
    walConfig: Option<WalConfigDiff>,
    optimizerConfig: Option<OptimizersConfigDiff>,
    hnswConfig: Option<HnswConfigDiff>)

  /** A shard transfer from one peer to another. */
  datatype ShardTransfer = ShardTransfer(shardId: ShardId, from: PeerId, to: PeerId, sync: bool)

  /** What identifies a transfer. */
  datatype ShardTransferKey = ShardTransferKey(shardId: ShardId, from: PeerId, to: PeerId)

  /** The state of a collection as published by consensus (`collection_state::State`). */
  datatype CollectionState = CollectionState(
    config: CollectionConfig,
    shards: map<ShardId, Replicas>,
    transfers: set<ShardTransfer>)

  /** Which peers each shard of a new collection is placed on (`CollectionShardDistribution`). */
  datatype ShardDistribution = ShardDistribution(shards: map<ShardId, set<PeerId>>) {
    /** Number of shards of the distribution. */
    function ShardCount(): nat {
      |shards|
    }

    /** The shards that have a replica on peer `me`. */
    function LocalShards(me: PeerId): set<ShardId> {
      set s | s in shards && me in shards[s]
    }
  }

  /**
   * `CollectionShardDistribution::all_local`: shard ids `0 .. shard_number`
   * (one shard when no number is given), each placed on this peer only.
   */
  function AllLocal(shardNumber: Option<u32>, me: PeerId): (d: ShardDistribution)
    ensures forall s: ShardId :: s in d.shards <==> s < shardNumber.GetOr(1)
    ensures forall s :: s in d.shards ==> d.shards[s] == {me}
    ensures d.ShardCount() == shardNumber.GetOr(1)
  {
    ShardDistribution(LocalRange(shardNumber.GetOr(1), me))
  }

  /** Shards `0 .. n`, each on peer `me` only. */
  function LocalRange(n: nat, me: PeerId): (m: map<ShardId, set<PeerId>>)
    ensures forall s: ShardId :: s in m <==> s < n
    ensures forall s :: s in m ==> m[s] == {me}
    ensures |m| == n
  {
    if n == 0 then map[] else LocalRange(n - 1, me)[n - 1 := {me}]
  }

  /** An all-local distribution has no shard exactly when zero shards are asked for. */
  lemma AllLocalEmptyIff(shardNumber: Option<u32>, me: PeerId)
    ensures AllLocal(shardNumber, me).ShardCount() == 0 <==> shardNumber == Some(0)
  {
    var d := AllLocal(shardNumber, me);
    if shardNumber != Some(0) {
      assert 0 in d.shards;
    }
  }

  /** True iff peer `p` holds a replica of some shard of `c`. */
  predicate HasReplicaOn(c: CollectionState, p: PeerId) {
    exists s :: s in c.shards && p in c.shards[s]
  }

  /** True iff `p` is the single replica of some shard of `c`. */
  predicate IsOnlyReplicaOf(c: CollectionState, p: PeerId) {
    exists s :: s in c.shards && |c.shards[s]| == 1 && p in c.shards[s]
  }

  /** The state of `c` with peer `p` dropped from the replicas of every shard. */
  function WithoutPeer(c: CollectionState, p: PeerId): (r: CollectionState)
    ensures r.config == c.config && r.transfers == c.transfers
    ensures r.shards.Keys == c.shards.Keys
    ensures forall s :: s in r.shards ==> r.shards[s] == c.shards[s] - {p}
    ensures !HasReplicaOn(r, p)
  {
    c.(shards := map s | s in c.shards :: c.shards[s] - {p})
  }

  /** Removing a peer that is never the only replica leaves every shard with a replica. */
  lemma WithoutPeerKeepsReplicas(c: CollectionState, p: PeerId)
    requires !IsOnlyReplicaOf(c, p)
    ensures forall s :: s in c.shards && |c.shards[s]| > 0 ==> |WithoutPeer(c, p).shards[s]| > 0
  {
    forall s | s in c.shards && |c.shards[s]| > 0
      ensures |WithoutPeer(c, p).shards[s]| > 0
    {
      var r := c.shards[s];
      var left := WithoutPeer(c, p).shards[s];
      assert left.Keys == r.Keys - {p};
      if p in r {
        assert |r.Keys - {p}| == |r.Keys| - 1;
      } else {
        assert r.Keys - {p} == r.Keys;
      }
      assert |left.Keys| > 0;
    }
  }
}
