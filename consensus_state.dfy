/**
 * The consensus state of a peer: raft's storage (log, hard state, snapshot
 * metadata), the queue of committed entries still to apply and the loop
 * that applies them to the table of contents, snapshot installation,
 * membership changes and the per-address counters of failed sends.
 */
module Consensus {
  import opened Common
  import opened CollectionTypes
  import opened CollectionMetaOps
  import opened TocSpec
  import opened Toc
  import opened RaftLog

  // ---------------------------------------------------------------------
  // Failed message sends

  /** Failed sends to one peer address: how many in a row, and the last error. */
  datatype MessageSendErrors = MessageSendErrors(count: nat, latestError: Option<string>)

  type SendFailures = map<Uri, MessageSendErrors>

  /** `record_message_send_failure`: the address's counter (zero when new) goes up by one and keeps the error. */
  function WithFailure(failures: SendFailures, address: Uri, error: string): SendFailures {
    var previous := if address in failures then failures[address].count else 0;
    failures[address := MessageSendErrors(previous + 1, Some(error))]
  }

  /** `record_message_send_success`: the address's failures are forgotten. */
  function WithSuccess(failures: SendFailures, address: Uri): SendFailures {
    failures - {address}
  }

  /** A run of failed sends to one address, in order. */
  function WithFailures(failures: SendFailures, address: Uri, errors: seq<string>): SendFailures
    decreases |errors|
  {
    if |errors| == 0 then failures else WithFailures(WithFailure(failures, address, errors[0]), address, errors[1..])
  }

  /**
   * After a run of failures the address's counter has grown by their number
   * and holds the last error; no other address is touched.
   */
  lemma {:induction false} FailuresAreCounted(failures: SendFailures, address: Uri, errors: seq<string>)
    requires |errors| > 0
    ensures var r := WithFailures(failures, address, errors);
      && address in r
      && r[address].count == (if address in failures then failures[address].count else 0) + |errors|
      && r[address].latestError == Some(errors[|errors| - 1])
      && r.Keys == failures.Keys + {address}
      && (forall a :: a in failures && a != address ==> r[a] == failures[a])
    decreases |errors|
  {
    if |errors| > 1 {
      FailuresAreCounted(WithFailure(failures, address, errors[0]), address, errors[1..]);
    }
  }

  /** A success after any run of failures leaves the counters as they were for every other address. */
  lemma {:induction false} SuccessClearsFailures(failures: SendFailures, address: Uri, errors: seq<string>)
    ensures WithSuccess(WithFailures(failures, address, errors), address) == WithSuccess(failures, address)
    decreases |errors|
  {
    if |errors| > 0 {
      var next := WithFailure(failures, address, errors[0]);
      SuccessClearsFailures(next, address, errors[1..]);
      assert WithSuccess(next, address) == WithSuccess(failures, address);
    }
  }

  // ---------------------------------------------------------------------
  // Snapshots

  /** What a raft snapshot carries: the collections and aliases, and the known peer addresses. */
  datatype SnapshotData = SnapshotData(collectionsData: TocSpec.CollectionsSnapshot, addressById: map<PeerId, Uri>)

  datatype RaftSnapshot = RaftSnapshot(data: SnapshotData, metadata: SnapshotMetadata)

  /** The error of a snapshot older than the log. */
  const SnapshotOutOfDate: StorageError := ServiceError("Snapshot out of date")

  /** A learner addition whose context is not an address. */
  const UriParseFailure: StorageError := ServiceError("Failed to parse peer uri")

  /** Entry data that does not decode as its entry type needs. */
  const UndecodableEntry: StorageError := ServiceError("Failed to decode entry data")

  // ---------------------------------------------------------------------
  // Membership changes

  /** The part of the table of contents that membership changes touch. */
  datatype Membership = Membership(collections: Collections, peerAddresses: map<PeerId, Uri>)

  /**
   * `on_peer_remove`: a refused removal changes nothing and does not stop
   * consensus; an accepted one drops the peer everywhere, and stops
   * consensus when the removed peer is this one.
   */
  function PeerRemovalEffect(m: Membership, peer: PeerId, thisPeerId: PeerId): (Membership, bool) {
    if RemovalRefused(m.collections, peer) then (m, false)
    else (Membership(WithoutPeerEverywhere(m.collections, peer), AddressesAfterRemoval(m.peerAddresses, peer, thisPeerId)),
          peer == thisPeerId)
  }

  /**
   * The single changes of a membership change, in order: voters being added
   * are already known, removals go through `PeerRemovalEffect`, a learner's
   * address comes from the entry context (an empty context is skipped, an
   * unparsable one fails and keeps what was already done). `stop` collects
   * whether consensus must stop.
   */
  function MembershipChanges(m: Membership, changes: seq<ConfChangeSingle>, context: string, thisPeerId: PeerId,
                             parseUri: string -> Option<Uri>, stop: bool): (Membership, Result<bool, StorageError>)
    decreases |changes|
  {
    if |changes| == 0 then (m, Ok(stop))
    else
      var change := changes[0];
      match change.changeType
      case AddNode => MembershipChanges(m, changes[1..], context, thisPeerId, parseUri, stop)
      case RemoveNode =>
        var removal := PeerRemovalEffect(m, change.nodeId, thisPeerId);
        MembershipChanges(removal.0, changes[1..], context, thisPeerId, parseUri, stop || removal.1)
      case AddLearnerNode =>
        if parseUri(context).Some? then
          MembershipChanges(m.(peerAddresses := m.peerAddresses[change.nodeId := parseUri(context).value]),
                            changes[1..], context, thisPeerId, parseUri, stop)
        else if |context| == 0 then MembershipChanges(m, changes[1..], context, thisPeerId, parseUri, stop)
        else (m, Err(UriParseFailure))
  }

  /** A membership change stops consensus only when it removes this peer. */
  lemma {:induction false} StopOnlyOnSelfRemoval(m: Membership, changes: seq<ConfChangeSingle>, context: string,
                                                 thisPeerId: PeerId, parseUri: string -> Option<Uri>)
    ensures MembershipChanges(m, changes, context, thisPeerId, parseUri, false).1 == Ok(true) ==>
      exists i :: 0 <= i < |changes| && changes[i] == ConfChangeSingle(RemoveNode, thisPeerId)
    decreases |changes|
  {
    if |changes| > 0 {
      var change := changes[0];
      var rest := changes[1..];
      var result := MembershipChanges(m, changes, context, thisPeerId, parseUri, false);
      if result.1 == Ok(true) && change != ConfChangeSingle(RemoveNode, thisPeerId) {
        var next: Membership;
        if change.changeType.RemoveNode? {
          next := PeerRemovalEffect(m, change.nodeId, thisPeerId).0;
          assert !PeerRemovalEffect(m, change.nodeId, thisPeerId).1;
        } else if change.changeType.AddLearnerNode? && parseUri(context).Some? {
          next := m.(peerAddresses := m.peerAddresses[change.nodeId := parseUri(context).value]);
        } else {
          next := m;
        }
        assert MembershipChanges(next, rest, context, thisPeerId, parseUri, false).1 == Ok(true);
        StopOnlyOnSelfRemoval(next, rest, context, thisPeerId, parseUri);
        var i :| 0 <= i < |rest| && rest[i] == ConfChangeSingle(RemoveNode, thisPeerId);
        assert changes[i + 1] == rest[i];
      }
    }
  }

  /**
   * A membership change fails only on a learner addition whose context is
   * neither empty nor an address.
   */
  lemma {:induction false} FailsOnlyOnBadLearnerAddress(m: Membership, changes: seq<ConfChangeSingle>, context: string,
                                                       thisPeerId: PeerId, parseUri: string -> Option<Uri>, stop: bool)
    ensures var result := MembershipChanges(m, changes, context, thisPeerId, parseUri, stop);
      result.1.Err? ==> (result.1.error == UriParseFailure && |context| > 0 && parseUri(context).None? &&
        exists i :: 0 <= i < |changes| && changes[i].changeType.AddLearnerNode?)
    decreases |changes|
  {
    if |changes| > 0 {
      var change := changes[0];
      var rest := changes[1..];
      var result := MembershipChanges(m, changes, context, thisPeerId, parseUri, stop);
      if result.1.Err? && !change.changeType.AddLearnerNode? {
        var next := if change.changeType.RemoveNode? then PeerRemovalEffect(m, change.nodeId, thisPeerId) else (m, false);
        FailsOnlyOnBadLearnerAddress(next.0, rest, context, thisPeerId, parseUri, stop || next.1);
        var i :| 0 <= i < |rest| && rest[i].changeType.AddLearnerNode?;
        assert changes[i + 1] == rest[i];
      } else if result.1.Err? && parseUri(context).Some? {
        var next := m.(peerAddresses := m.peerAddresses[change.nodeId := parseUri(context).value]);
        FailsOnlyOnBadLearnerAddress(next, rest, context, thisPeerId, parseUri, stop);
      } else if result.1.Err? && |context| == 0 {
        FailsOnlyOnBadLearnerAddress(m, rest, context, thisPeerId, parseUri, stop);
      }
    }
  }

  /** The peers a membership change adds as learners. */
  function LearnerIds(changes: seq<ConfChangeSingle>): set<PeerId>
    decreases |changes|
  {
    if |changes| == 0 then {}
    else (if changes[0].changeType.AddLearnerNode? then {changes[0].nodeId} else {}) + LearnerIds(changes[1..])
  }

  /**
   * Without removals, and with an address in the context, the collections
   * are untouched, every learner is known at that address and every other
   * peer keeps its address.
   */
  lemma {:induction false} LearnersOnlyAddAddresses(m: Membership, changes: seq<ConfChangeSingle>, context: string,
                                                   thisPeerId: PeerId, parseUri: string -> Option<Uri>, stop: bool)
    requires forall i :: 0 <= i < |changes| ==> !changes[i].changeType.RemoveNode?
    requires parseUri(context).Some?
    ensures var result := MembershipChanges(m, changes, context, thisPeerId, parseUri, stop);
      && result.1 == Ok(stop)
      && result.0.collections == m.collections
      && result.0.peerAddresses.Keys == m.peerAddresses.Keys + LearnerIds(changes)
      && (forall id :: id in LearnerIds(changes) ==> result.0.peerAddresses[id] == parseUri(context).value)
      && (forall id :: id in m.peerAddresses && id !in LearnerIds(changes) ==> result.0.peerAddresses[id] == m.peerAddresses[id])
    decreases |changes|
  {
    if |changes| > 0 {
      var change := changes[0];
      var rest := changes[1..];
      var next := if change.changeType.AddLearnerNode?
                  then m.(peerAddresses := m.peerAddresses[change.nodeId := parseUri(context).value])
                  else m;
      assert forall i :: 0 <= i < |rest| ==> rest[i] == changes[i + 1];
      LearnersOnlyAddAddresses(next, rest, context, thisPeerId, parseUri, stop);
    }
  }

  // ---------------------------------------------------------------------
  // Applying committed entries

  /** What applying an entry may depend on besides the state: fixed for the life of the peer. */
  datatype ApplyContext = ApplyContext(thisPeerId: PeerId, inCluster: bool, backend: CollectionBackend,
                                       parseUri: string -> Option<Uri>)

  /**
   * What applying entries changes: the collections, aliases and proposals
   * of the table of contents, the known peer addresses and raft's
   * configuration.
   */
  datatype AppliedState = AppliedState(meta: MetaState, peerAddresses: map<PeerId, Uri>, confState: ConfState)

  /**
   * `apply_normal_entry`: data that is not a consensus operation fails to
   * decode; a collection operation takes effect on the table of contents
   * (`MetaOpEffect`, over the known peers); the other consensus operations
   * are not expected here and give `false`.
   */
  function NormalEntryEffect(s: AppliedState, e: Entry, ctx: ApplyContext): (AppliedState, Result<bool, StorageError>) {
    if !e.data.Operation? then (s, Err(UndecodableEntry))
    else match e.data.operation
      case CollectionMeta(meta) =>
        var out := MetaOpEffect(s.meta, meta, s.peerAddresses.Keys, ctx.thisPeerId, ctx.inCluster, ctx.backend);
        (s.(meta := out.0), out.1)
      case AddPeer(_, _) => (s, Ok(false))
      case RemovePeer(_) => (s, Ok(false))
  }

  /**
   * A normal entry never changes membership, an undecodable one or one that
   * is not a collection operation changes nothing, and a collection
   * operation changes exactly what it does on the table of contents.
   */
  lemma NormalEntryFrames(s: AppliedState, e: Entry, ctx: ApplyContext)
    ensures var out := NormalEntryEffect(s, e, ctx);
      && out.0.peerAddresses == s.peerAddresses && out.0.confState == s.confState
      && (!e.data.Operation? ==> out == (s, Err(UndecodableEntry)))
      && (e.data.Operation? && !e.data.operation.CollectionMeta? ==> out == (s, Ok(false)))
  {
  }

  /** A collection operation in a normal entry has its effect on the table of contents, over the known peers. */
  lemma NormalEntryPerformsMetaOp(s: AppliedState, e: Entry, ctx: ApplyContext)
    requires e.data.Operation? && e.data.operation.CollectionMeta?
    ensures var out := NormalEntryEffect(s, e, ctx);
      var meta := MetaOpEffect(s.meta, e.data.operation.meta, s.peerAddresses.Keys, ctx.thisPeerId, ctx.inCluster, ctx.backend);
      out.0.meta == meta.0 && out.1 == meta.1
  {
  }

  /**
   * `apply_conf_change_entry`: data that is not a membership change fails
   * to decode; raft, given the current configuration, may refuse the
   * change, and then nothing changes; otherwise raft's new configuration is
   * taken and the single changes take effect in order (`MembershipChanges`)
   * on the collections and peer addresses.
   */
  function ConfChangeEntryEffect(s: AppliedState, e: Entry, ctx: ApplyContext,
                                 rawNode: (ConfState, ConfChangeV2) -> Result<ConfState, StorageError>): (AppliedState, Result<bool, StorageError>) {
    if !e.data.ConfChange? then (s, Err(UndecodableEntry))
    else match rawNode(s.confState, e.data.change)
      case Err(err) => (s, Err(err))
      case Ok(conf) =>
        var out := MembershipChanges(Membership(s.meta.collections, s.peerAddresses), e.data.change.changes,
                                     e.context, ctx.thisPeerId, ctx.parseUri, false);
        (AppliedState(s.meta.(collections := out.0.collections), out.0.peerAddresses, conf), out.1)
  }

  /**
   * A membership change leaves aliases and proposals alone; when it does not
   * decode or raft refuses it nothing changes; otherwise raft's configuration is taken.
   */
  lemma ConfChangeEntryFrames(s: AppliedState, e: Entry, ctx: ApplyContext,
                              rawNode: (ConfState, ConfChangeV2) -> Result<ConfState, StorageError>)
    ensures var out := ConfChangeEntryEffect(s, e, ctx, rawNode);
      && out.0.meta.aliases == s.meta.aliases && out.0.meta.proposals == s.meta.proposals
      && (!e.data.ConfChange? ==> out == (s, Err(UndecodableEntry)))
      && (e.data.ConfChange? && rawNode(s.confState, e.data.change).Err? ==>
            out == (s, Err(rawNode(s.confState, e.data.change).error)))
      && (e.data.ConfChange? && rawNode(s.confState, e.data.change).Ok? ==>
            out.0.confState == rawNode(s.confState, e.data.change).value)
  {
  }

  /**
   * A membership change that raft accepts asks to stop consensus only when
   * it removes this peer, and fails only on a learner whose context is not
   * an address.
   */
  lemma ConfChangeEntryOutcomes(s: AppliedState, e: Entry, ctx: ApplyContext,
                                rawNode: (ConfState, ConfChangeV2) -> Result<ConfState, StorageError>)
    requires e.data.ConfChange? && rawNode(s.confState, e.data.change).Ok?
    ensures var r := ConfChangeEntryEffect(s, e, ctx, rawNode).1;
      && (r == Ok(true) ==> exists i :: 0 <= i < |e.data.change.changes| &&
                                      e.data.change.changes[i] == ConfChangeSingle(RemoveNode, ctx.thisPeerId))
      && (r.Err? ==> r.error == UriParseFailure && |e.context| > 0 && ctx.parseUri(e.context).None?)
  {
    var m := Membership(s.meta.collections, s.peerAddresses);
    StopOnlyOnSelfRemoval(m, e.data.change.changes, e.context, ctx.thisPeerId, ctx.parseUri);
    FailsOnlyOnBadLearnerAddress(m, e.data.change.changes, e.context, ctx.thisPeerId, ctx.parseUri, false);
  }

  /** How one committed entry was handled. */
  datatype EntryOutcome =
    | Skipped
    | NormalApplied(result: Result<bool, StorageError>)
    | ConfChangeApplied(result: Result<bool, StorageError>)
    | Unsupported

  /**
   * Whether an outcome stops consensus (the entry then stays unapplied):
   * service errors of operations, any failed or self-removing membership
   * change, and entry types that are not supported.
   */
  predicate StopsConsensus(o: EntryOutcome) {
    match o
    case Skipped => false
    case NormalApplied(r) => r.Err? && r.error.ServiceError?
    case ConfChangeApplied(r) => r.Err? || r.value
    case Unsupported => true
  }

  /**
   * The outcome and the state after it agree with the entry and the state
   * before: empty entries are skipped and change nothing, normal entries
   * and new-style membership changes have their effect, and old-style
   * membership changes are not supported and change nothing.
   */
  predicate OutcomeFits(o: EntryOutcome, e: Entry, before: AppliedState, after: AppliedState, ctx: ApplyContext,
                        rawNode: (ConfState, ConfChangeV2) -> Result<ConfState, StorageError>) {
    match o
    case Skipped => e.data.NoData? && after == before
    case NormalApplied(r) =>
      !e.data.NoData? && e.entryType.EntryNormal? && (after, r) == NormalEntryEffect(before, e, ctx)
    case ConfChangeApplied(r) =>
      !e.data.NoData? && e.entryType.EntryConfChangeV2? && (after, r) == ConfChangeEntryEffect(before, e, ctx, rawNode)
    case Unsupported => !e.data.NoData? && e.entryType.EntryConfChange? && after == before
  }

  /**
   * The k-th handled entry is the queue's k-th entry, found in the log, with
   * an outcome and a resulting state that fit it.
   */
  predicate HandledInOrder(queue: EntryApplyProgressQueue, wal: seq<Entry>, k: nat, o: EntryOutcome,
                           before: AppliedState, after: AppliedState, ctx: ApplyContext,
                           rawNode: (ConfState, ConfChangeV2) -> Result<ConfState, StorageError>) {
    var q := queue.Advance(k);
    && q.Current().Some? && WalEntry(wal, q.Current().value).Ok?
    && OutcomeFits(o, WalEntry(wal, q.Current().value).value, before, after, ctx, rawNode)
  }

  /**
   * A run of handled entries: each is the queue's next one, and the states
   * chain from one outcome to the next.
   */
  predicate AllHandled(queue: EntryApplyProgressQueue, wal: seq<Entry>, outcomes: seq<EntryOutcome>,
                       states: seq<AppliedState>, ctx: ApplyContext,
                       rawNode: (ConfState, ConfChangeV2) -> Result<ConfState, StorageError>) {
    && |states| == |outcomes| + 1
    && forall k :: 0 <= k < |outcomes| ==>
         HandledInOrder(queue, wal, k, outcomes[k], states[k], states[k + 1], ctx, rawNode)
  }

  /** A run of handled entries grows by the next handled entry. */
  lemma AllHandledExtends(queue: EntryApplyProgressQueue, wal: seq<Entry>, outcomes: seq<EntryOutcome>,
                          states: seq<AppliedState>, o: EntryOutcome, after: AppliedState, ctx: ApplyContext,
                          rawNode: (ConfState, ConfChangeV2) -> Result<ConfState, StorageError>)
    requires AllHandled(queue, wal, outcomes, states, ctx, rawNode)
    requires HandledInOrder(queue, wal, |outcomes|, o, states[|outcomes|], after, ctx, rawNode)
    ensures AllHandled(queue, wal, outcomes + [o], states + [after], ctx, rawNode)
  {
    var outcomes', states' := outcomes + [o], states + [after];
    forall k | 0 <= k < |outcomes'|
      ensures HandledInOrder(queue, wal, k, outcomes'[k], states'[k], states'[k + 1], ctx, rawNode)
    {
      if k < |outcomes| {
        assert outcomes'[k] == outcomes[k] && states'[k] == states[k] && states'[k + 1] == states[k + 1];
      }
    }
  }

  /**
   * Which entries stop consensus: empty ones and user errors never do,
   * undecodable entries and unsupported entry types always do, a membership
   * change only when it fails or removes this peer.
   */
  lemma StoppingEntries(o: EntryOutcome, e: Entry, before: AppliedState, after: AppliedState, ctx: ApplyContext,
                        rawNode: (ConfState, ConfChangeV2) -> Result<ConfState, StorageError>)
    requires OutcomeFits(o, e, before, after, ctx, rawNode)
    ensures e.data.NoData? ==> !StopsConsensus(o)
    ensures e.entryType.EntryConfChange? && !e.data.NoData? ==> StopsConsensus(o)
    ensures e.entryType.EntryNormal? && e.data.Undecodable? ==> StopsConsensus(o)
    ensures e.entryType.EntryNormal? && e.data.Operation? && !e.data.operation.CollectionMeta? ==> !StopsConsensus(o)
    ensures o.NormalApplied? && o.result.Err? && !o.result.error.ServiceError? ==> !StopsConsensus(o)
    ensures o.ConfChangeApplied? && e.data.ConfChange? && rawNode(before.confState, e.data.change).Ok? && o.result == Ok(true) ==>
      exists i :: 0 <= i < |e.data.change.changes| && e.data.change.changes[i] == ConfChangeSingle(RemoveNode, ctx.thisPeerId)
  {
    if o.ConfChangeApplied? && e.data.ConfChange? && rawNode(before.confState, e.data.change).Ok? {
      ConfChangeEntryOutcomes(before, e, ctx, rawNode);
    }
  }

  /** The handled entries are consecutive, starting at the queue's current entry. */
  lemma HandledEntriesAreConsecutive(queue: EntryApplyProgressQueue, wal: seq<Entry>, k: nat, o: EntryOutcome,
                                     before: AppliedState, after: AppliedState, ctx: ApplyContext,
                                     rawNode: (ConfState, ConfChangeV2) -> Result<ConfState, StorageError>)
    requires HandledInOrder(queue, wal, k, o, before, after, ctx, rawNode)
    ensures k < queue.Len()
    ensures queue.Advance(k).Current() == Some(queue.Current().value + k)
  {
    AdvanceShortens(queue, k);
    QueueVisitsInOrder(queue, k);
  }

  // ---------------------------------------------------------------------
  // The consensus state

  /**
   * `ConsensusState`: raft's persistent state and log, the progress of
   * applying committed entries, and the table of contents they are applied
   * to. The known peer addresses are shared with the table of contents and
   * live there.
   */
  class ConsensusState {
    /** The write-ahead log of raft entries. */
    var wal: seq<Entry>
    var snapshotMeta: SnapshotMetadata
    var hardState: HardState
    var confState: ConfState
    /** Committed entries not applied yet. */
    var applyQueue: EntryApplyProgressQueue
    var firstVoter: Option<PeerId>
    var messageSendFailures: SendFailures
    const toc: TableOfContent
    /** The encoded size of an entry (its protobuf size). */
    const entrySize: Entry -> nat
    /** Parsing of a peer address. */
    const parseUri: string -> Option<Uri>

    /** `ConsensusState::new` over the loaded persistent state and log; no send failures, no first voter. */
    constructor (toc: TableOfContent, wal: seq<Entry>, snapshotMeta: SnapshotMetadata, hardState: HardState,
                 confState: ConfState, applyQueue: EntryApplyProgressQueue,
                 entrySize: Entry -> nat, parseUri: string -> Option<Uri>)
      ensures this.toc == toc && this.wal == wal && this.snapshotMeta == snapshotMeta
      ensures this.hardState == hardState && this.confState == confState && this.applyQueue == applyQueue
      ensures this.entrySize == entrySize && this.parseUri == parseUri
      ensures firstVoter == None && messageSendFailures == map[]
    {
      this.toc := toc;
      this.wal := wal;
      this.snapshotMeta := snapshotMeta;
      this.hardState := hardState;
      this.confState := confState;
      this.applyQueue := applyQueue;
      this.entrySize := entrySize;
      this.parseUri := parseUri;
      firstVoter := None;
      messageSendFailures := map[];
    }

    /** This peer's id. */
    function ThisPeerId(): PeerId {
      toc.thisPeerId
    }

    /** What applying entries may depend on: the peer's id, its deployment, its collections' backend and address parsing. */
    function Context(): ApplyContext {
      ApplyContext(toc.thisPeerId, toc.inCluster, toc.backend, parseUri)
    }

    /** The state that applying entries changes. */
    function Applied(): AppliedState
      reads this, toc
    {
      AppliedState(MetaState(toc.collections, toc.aliases, toc.proposals), toc.peerAddresses, confState)
    }

    method RecordMessageSendFailure(address: Uri, error: string)
      modifies this
      ensures messageSendFailures == WithFailure(old(messageSendFailures), address, error)
      ensures wal == old(wal) && snapshotMeta == old(snapshotMeta) && hardState == old(hardState)
      ensures confState == old(confState) && applyQueue == old(applyQueue) && firstVoter == old(firstVoter)
    {
      var previous := if address in messageSendFailures then messageSendFailures[address] else MessageSendErrors(0, None);
      messageSendFailures := messageSendFailures[address := MessageSendErrors(previous.count + 1, Some(error))];
    }

    method RecordMessageSendSuccess(address: Uri)
      modifies this
      ensures messageSendFailures == WithSuccess(old(messageSendFailures), address)
      ensures wal == old(wal) && snapshotMeta == old(snapshotMeta) && hardState == old(hardState)
      ensures confState == old(confState) && applyQueue == old(applyQueue) && firstVoter == old(firstVoter)
    {
      messageSendFailures := messageSendFailures - {address};
    }

    /** `first_voter`: the one recorded, or this peer. */
    function FirstVoter(): (id: PeerId)
      reads this
      ensures firstVoter.Some? ==> id == firstVoter.value
      ensures firstVoter.None? ==> id == ThisPeerId()
    {
      firstVoter.GetOr(ThisPeerId())
    }

    method SetFirstVoter(id: PeerId)
      modifies this
      ensures firstVoter == Some(id) && FirstVoter() == id
      ensures wal == old(wal) && snapshotMeta == old(snapshotMeta) && hardState == old(hardState)
      ensures confState == old(confState) && applyQueue == old(applyQueue)
      ensures messageSendFailures == old(messageSendFailures)
    {
      firstVoter := Some(id);
    }

    /** `is_new_deployment`: no term was ever started. */
    function IsNewDeployment(): (r: bool)
      reads this
      ensures r <==> hardState.term == 0
    {
      hardState.term == 0
    }

    method SetHardState(state: HardState)
      modifies this
      ensures hardState == state && IsNewDeployment() == (state.term == 0)
      ensures wal == old(wal) && snapshotMeta == old(snapshotMeta) && confState == old(confState)
      ensures applyQueue == old(applyQueue) && firstVoter == old(firstVoter)
      ensures messageSendFailures == old(messageSendFailures)
    {
      hardState := state;
    }

    method SetConfState(state: ConfState)
      modifies this
      ensures confState == state
      ensures wal == old(wal) && snapshotMeta == old(snapshotMeta) && hardState == old(hardState)
      ensures applyQueue == old(applyQueue) && firstVoter == old(firstVoter)
      ensures messageSendFailures == old(messageSendFailures)
    {
      confState := state;
    }

    /** `set_commit_index`: only the commit index of the hard state changes. */
    method SetCommitIndex(index: nat)
      modifies this
      ensures hardState == old(hardState).(commit := index)
      ensures wal == old(wal) && snapshotMeta == old(snapshotMeta) && confState == old(confState)
      ensures applyQueue == old(applyQueue) && firstVoter == old(firstVoter)
      ensures messageSendFailures == old(messageSendFailures)
    {
      hardState := hardState.(commit := index);
    }

    /** `set_unapplied_entries`: entries `first` to `last` are to be applied. */
    method SetUnappliedEntries(first: nat, last: nat)
      modifies this
      ensures applyQueue == Pending(first, last) && applyQueue.Len() == if first <= last then last - first + 1 else 0
      ensures wal == old(wal) && snapshotMeta == old(snapshotMeta) && hardState == old(hardState)
      ensures confState == old(confState) && firstVoter == old(firstVoter)
      ensures messageSendFailures == old(messageSendFailures)
    {
      applyQueue := Pending(first, last);
    }

    // -- raft's Storage

    /**
     * `first_index`: the first entry of the log, or the one after the
     * snapshot; no entry of a gap-free log comes before it.
     */
    function FirstIndex(): (r: nat)
      reads this
      ensures Contiguous(wal) ==> forall i :: 0 <= i < |wal| ==> r <= wal[i].index
    {
      if |wal| > 0 then wal[0].index else snapshotMeta.index + 1
    }

    /**
     * `last_index`: the last entry of the log, or the snapshot's; no entry
     * of a gap-free log comes after it, and it is at most one before the first.
     */
    function LastIndex(): (r: nat)
      reads this
      ensures Contiguous(wal) ==> forall i :: 0 <= i < |wal| ==> wal[i].index <= r
      ensures Contiguous(wal) ==> FirstIndex() <= r + 1
    {
      if |wal| > 0 then wal[|wal| - 1].index else snapshotMeta.index
    }

    /**
     * `term`: the snapshot's term at its index; otherwise the term of the
     * log entry at that offset from the first, `Compacted` before the log and
     * `Unavailable` past it or over an empty log.
     */
    function Term(idx: nat): (r: Result<nat, RaftStorageError>)
      reads this
      ensures idx == snapshotMeta.index ==> r == Ok(snapshotMeta.term)
      ensures idx != snapshotMeta.index ==> (r.Ok? <==> |wal| > 0 && FirstIndex() <= idx < FirstIndex() + |wal|)
      ensures idx != snapshotMeta.index && r.Ok? ==> r.value == wal[idx - FirstIndex()].term
      ensures idx != snapshotMeta.index && r.Err? ==>
        r.error == (if |wal| > 0 && idx < FirstIndex() then Compacted else Unavailable)
    {
      if idx == snapshotMeta.index then Ok(snapshotMeta.term)
      else match WalEntry(wal, idx)
        case Err(e) => Err(e)
        case Ok(entry) => Ok(entry.term)
    }

    /**
     * `entries`: compacted below the first index; a range past the end is a
     * panic. Over a non-empty gap-free log a range inside it is a prefix of
     * the log's slice, all of it without a size limit and never empty for a
     * non-empty range.
     */
    function Entries(low: nat, high: nat, maxSize: Option<nat>): (r: Result<seq<Entry>, RaftStorageError>)
      reads this
      requires low < FirstIndex() || high <= LastIndex() + 1
      ensures low < FirstIndex() ==> r == Err(Compacted)
      ensures Contiguous(wal) && |wal| > 0 && FirstIndex() <= low <= high ==>
        && r.Ok? && r.value <= wal[low - FirstIndex() .. high - FirstIndex()]
        && (low < high ==> |r.value| >= 1)
        && (maxSize.None? ==> r.value == wal[low - FirstIndex() .. high - FirstIndex()])
    {
      WalEntriesInLog(wal, low, high, maxSize, entrySize);
      if low < FirstIndex() then Err(Compacted)
      else WalEntries(wal, low, high, maxSize, entrySize)
    }

    /**
     * `snapshot`: the collections, aliases and peer addresses as of now, at
     * the commit index and current term; unavailable for a request past the commit index.
     */
    function Snapshot(requestIndex: nat): (r: Result<RaftSnapshot, RaftStorageError>)
      reads this, toc
      ensures r.Ok? <==> requestIndex <= hardState.commit
      ensures r.Err? ==> r.error == SnapshotTemporarilyUnavailable
      ensures r.Ok? ==> r.value.metadata.index == hardState.commit && r.value.metadata.term == hardState.term
      ensures r.Ok? ==> r.value.metadata.confState == confState
      ensures r.Ok? ==> r.value.data.collectionsData.collections == toc.collections
      ensures r.Ok? ==> r.value.data.collectionsData.aliases == toc.aliases
      ensures r.Ok? ==> r.value.data.addressById == toc.peerAddresses
    {
      if hardState.commit >= requestIndex then
        Ok(RaftSnapshot(SnapshotData(toc.CollectionsSnapshot(), toc.peerAddresses),
                    SnapshotMetadata(confState, hardState.commit, hardState.term)))
      else Err(SnapshotTemporarilyUnavailable)
    }

    /**
     * The indexes bound the log: an empty log is the empty range right after
     * the snapshot, a gap-free log runs from its first entry's index to its
     * last one's, so the range holds exactly the log's entries.
     */
    lemma IndexesMatchLog()
      ensures |wal| == 0 ==> LastIndex() + 1 == FirstIndex() && LastIndex() == snapshotMeta.index
      ensures Contiguous(wal) && |wal| > 0 ==> FirstIndex() == wal[0].index && LastIndex() == FirstIndex() + |wal| - 1
      ensures Contiguous(wal) ==> LastIndex() + 1 - FirstIndex() == |wal|
      ensures Contiguous(wal) ==> forall i :: 0 <= i < |wal| ==> FirstIndex() <= wal[i].index <= LastIndex()
    {
    }

    /**
     * Terms agree with raft's in-memory storage over a gap-free log; an
     * empty log needs the snapshot at index 0, as for a fresh peer.
     */
    lemma TermAgreesWithMemStorage(idx: nat)
      requires Contiguous(wal)
      requires |wal| == 0 ==> snapshotMeta.index == 0
      ensures Term(idx) == MemTerm(wal, snapshotMeta, idx)
    {
    }

    /**
     * Over an empty log after a snapshot, indices below the snapshot's are
     * `Unavailable` here and `Compacted` in the in-memory storage.
     */
    lemma TermBelowSnapshotOfEmptyLog(idx: nat)
      requires |wal| == 0 && idx < snapshotMeta.index
      ensures Term(idx) == Err(Unavailable)
      ensures MemTerm(wal, snapshotMeta, idx) == Err(Compacted)
    {
    }

    /** Entry ranges agree with raft's in-memory storage over a non-empty gap-free log. */
    lemma EntriesAgreeWithMemStorage(low: nat, high: nat, maxSize: Option<nat>)
      requires Contiguous(wal) && |wal| > 0
      requires low <= high <= LastIndex() + 1
      ensures Entries(low, high, maxSize) == MemEntries(wal, snapshotMeta, low, high, maxSize, entrySize)
    {
      if low >= FirstIndex() {
        WalEntriesAgreeWithMemStorage(wal, snapshotMeta, low, high, maxSize, entrySize);
      }
    }

    /**
     * Over a gap-free log that starts right after the snapshot, every index
     * from the snapshot's to the last has a term, the entry's own after the
     * snapshot.
     */
    lemma TermDefinedOnLog(idx: nat)
      requires Contiguous(wal)
      requires |wal| > 0 ==> wal[0].index == snapshotMeta.index + 1
      requires snapshotMeta.index <= idx <= LastIndex()
      ensures Term(idx).Ok?
      ensures idx > snapshotMeta.index ==> Term(idx) == Ok(wal[idx - FirstIndex()].term)
    {
    }

    // -- Peers

    /** `add_peer`: the address is recorded. */
    method AddPeer(peer: PeerId, uri: Uri)
      modifies toc
      ensures toc.peerAddresses == old(toc.peerAddresses)[peer := uri]
      ensures toc.collections == old(toc.collections) && toc.aliases == old(toc.aliases)
      ensures toc.proposals == old(toc.proposals)
      ensures toc.isWriteLocked == old(toc.isWriteLocked) && toc.lockErrorMessage == old(toc.lockErrorMessage)
    {
      toc.peerAddresses := toc.peerAddresses[peer := uri];
    }

    /** `remove_peer`: the table of contents drops the peer. */
    method RemovePeer(peer: PeerId) returns (r: Result<(), StorageError>)
      modifies toc
      ensures r.Err? <==> RemovalRefused(old(toc.collections), peer)
      ensures r.Err? ==> r.error.BadRequest?
      ensures Membership(toc.collections, toc.peerAddresses) ==
              PeerRemovalEffect(Membership(old(toc.collections), old(toc.peerAddresses)), peer, ThisPeerId()).0
      ensures toc.aliases == old(toc.aliases) && toc.proposals == old(toc.proposals)
      ensures toc.isWriteLocked == old(toc.isWriteLocked) && toc.lockErrorMessage == old(toc.lockErrorMessage)
    {
      r := toc.RemovePeer(peer);
    }

    /**
     * `on_peer_remove`: a refused removal is reported to the proposer and
     * consensus goes on; service errors are passed up; removing this peer
     * stops consensus.
     */
    method OnPeerRemove(peer: PeerId) returns (r: Result<bool, StorageError>)
      modifies toc
      ensures var effect := PeerRemovalEffect(Membership(old(toc.collections), old(toc.peerAddresses)), peer, ThisPeerId());
        Membership(toc.collections, toc.peerAddresses) == effect.0 && r == Ok(effect.1)
      ensures toc.aliases == old(toc.aliases) && toc.proposals == old(toc.proposals)
      ensures toc.isWriteLocked == old(toc.isWriteLocked) && toc.lockErrorMessage == old(toc.lockErrorMessage)
    {
      var removed := RemovePeer(peer);
      match removed {
        case Ok(_) =>
          r := Ok(ThisPeerId() == peer);
        case Err(e) =>
          if e.ServiceError? {
            return Err(e);
          }
          r := Ok(false);
      }
    }

    // -- Applying entries

    /**
     * `apply_normal_entry`: the entry's effect as `NormalEntryEffect` states
     * it; the write lock is not touched.
     */
    method ApplyNormalEntry(entry: Entry) returns (r: Result<bool, StorageError>)
      modifies toc
      ensures (Applied(), r) == NormalEntryEffect(old(Applied()), entry, Context())
      ensures toc.isWriteLocked == old(toc.isWriteLocked) && toc.lockErrorMessage == old(toc.lockErrorMessage)
    {
      if !entry.data.Operation? {
        return Err(UndecodableEntry);
      }
      match entry.data.operation {
        case CollectionMeta(meta) =>
          r := toc.PerformCollectionMetaOp(meta);
        case AddPeer(_, _) =>
          r := Ok(false);
        case RemovePeer(_) =>
          r := Ok(false);
      }
    }

    /**
     * `apply_conf_change_entry`: raft applies the change and its new
     * configuration is stored; then the single changes take effect in order,
     * as `ConfChangeEntryEffect` states it.
     */
    method ApplyConfChangeEntry(entry: Entry, rawNode: (ConfState, ConfChangeV2) -> Result<ConfState, StorageError>)
      returns (r: Result<bool, StorageError>)
      modifies this, toc
      ensures (Applied(), r) == ConfChangeEntryEffect(old(Applied()), entry, Context(), rawNode)
      ensures wal == old(wal) && snapshotMeta == old(snapshotMeta) && hardState == old(hardState)
      ensures applyQueue == old(applyQueue) && firstVoter == old(firstVoter)
      ensures messageSendFailures == old(messageSendFailures)
      ensures toc.isWriteLocked == old(toc.isWriteLocked) && toc.lockErrorMessage == old(toc.lockErrorMessage)
    {
      if !entry.data.ConfChange? {
        return Err(UndecodableEntry);
      }
      var change := entry.data.change;
      var applied := rawNode(confState, change);
      if applied.Err? {
        return Err(applied.error);
      }
      confState := applied.value;
      ghost var start := Membership(toc.collections, toc.peerAddresses);
      var stop := false;
      var i := 0;
      while i < |change.changes|
        invariant 0 <= i <= |change.changes|
        invariant MembershipChanges(Membership(toc.collections, toc.peerAddresses), change.changes[i..],
                                    entry.context, ThisPeerId(), parseUri, stop) ==
                  MembershipChanges(start, change.changes, entry.context, ThisPeerId(), parseUri, false)
        invariant confState == applied.value
        invariant wal == old(wal) && snapshotMeta == old(snapshotMeta) && hardState == old(hardState)
        invariant applyQueue == old(applyQueue) && firstVoter == old(firstVoter)
        invariant messageSendFailures == old(messageSendFailures)
        invariant toc.aliases == old(toc.aliases) && toc.proposals == old(toc.proposals)
        invariant toc.isWriteLocked == old(toc.isWriteLocked) && toc.lockErrorMessage == old(toc.lockErrorMessage)
      {
        var single := change.changes[i];
        assert change.changes[i..][0] == single && change.changes[i..][1..] == change.changes[i + 1..];
        match single.changeType {
          case AddNode =>
          case RemoveNode =>
            var removed := OnPeerRemove(single.nodeId);
            match removed {
              case Err(e) =>
                return Err(e);
              case Ok(stopped) =>
                stop := stop || stopped;
            }
          case AddLearnerNode =>
            var uri := parseUri(entry.context);
            if uri.Some? {
              AddPeer(single.nodeId, uri.value);
            } else if |entry.context| > 0 {
              return Err(UriParseFailure);
            }
        }
        i := i + 1;
      }
      r := Ok(stop);
    }

    /**
     * One step of `apply_entries`: an empty entry is skipped, a normal entry
     * or a configuration change is applied, any other entry type is not
     * supported; the outcome and the new state fit the entry. The log, the
     * apply queue, the counters and the write lock stay as they are.
     */
    method ApplyEntry(entry: Entry, rawNode: (ConfState, ConfChangeV2) -> Result<ConfState, StorageError>) returns (outcome: EntryOutcome)
      modifies this, toc
      ensures OutcomeFits(outcome, entry, old(Applied()), Applied(), Context(), rawNode)
      ensures wal == old(wal) && snapshotMeta == old(snapshotMeta) && hardState == old(hardState)
      ensures applyQueue == old(applyQueue) && firstVoter == old(firstVoter)
      ensures messageSendFailures == old(messageSendFailures)
      ensures toc.isWriteLocked == old(toc.isWriteLocked) && toc.lockErrorMessage == old(toc.lockErrorMessage)
    {
      if entry.data.NoData? {
        outcome := Skipped;
      } else if entry.entryType.EntryNormal? {
        var result := ApplyNormalEntry(entry);
        outcome := NormalApplied(result);
      } else if entry.entryType.EntryConfChangeV2? {
        var result := ApplyConfChangeEntry(entry, rawNode);
        outcome := ConfChangeApplied(result);
      } else {
        outcome := Unsupported;
      }
    }

    /**
     * `apply_entries`: committed entries are applied in index order until
     * none is left, one is missing from the log, or one stops consensus;
     * that one stays unapplied. `outcomes` records how each handled entry
     * turned out and `states` the state before and after each.
     */
    method ApplyEntries(rawNode: (ConfState, ConfChangeV2) -> Result<ConfState, StorageError>)
      returns (stop: bool, ghost outcomes: seq<EntryOutcome>, ghost states: seq<AppliedState>)
      modifies this, toc
      ensures stop <==> |outcomes| > 0 && StopsConsensus(outcomes[|outcomes| - 1])
      ensures forall k :: 0 <= k < |outcomes| - 1 ==> !StopsConsensus(outcomes[k])
      ensures AllHandled(old(applyQueue), wal, outcomes, states, Context(), rawNode)
      ensures states[0] == old(Applied()) && states[|outcomes|] == Applied()
      ensures applyQueue == old(applyQueue).Advance(if stop then |outcomes| - 1 else |outcomes|)
      ensures !stop ==> applyQueue.Current().None? || WalEntry(wal, applyQueue.Current().value).Err?
      ensures wal == old(wal) && snapshotMeta == old(snapshotMeta) && hardState == old(hardState)
      ensures firstVoter == old(firstVoter) && messageSendFailures == old(messageSendFailures)
      ensures toc.isWriteLocked == old(toc.isWriteLocked) && toc.lockErrorMessage == old(toc.lockErrorMessage)
    {
      outcomes := [];
      states := [Applied()];
      while true
        invariant forall k :: 0 <= k < |outcomes| ==> !StopsConsensus(outcomes[k])
        invariant AllHandled(old(applyQueue), wal, outcomes, states, Context(), rawNode)
        invariant states[0] == old(Applied()) && states[|outcomes|] == Applied()
        invariant applyQueue == old(applyQueue).Advance(|outcomes|)
        invariant wal == old(wal) && snapshotMeta == old(snapshotMeta) && hardState == old(hardState)
        invariant firstVoter == old(firstVoter) && messageSendFailures == old(messageSendFailures)
        invariant toc.isWriteLocked == old(toc.isWriteLocked) && toc.lockErrorMessage == old(toc.lockErrorMessage)
        decreases applyQueue.Len()
      {
        var current := applyQueue.Current();
        if current.None? {
          return false, outcomes, states;
        }
        var found := WalEntry(wal, current.value);
        if found.Err? {
          return false, outcomes, states;
        }
        var outcome := ApplyEntry(found.value, rawNode);
        ghost var after := Applied();
        AllHandledExtends(old(applyQueue), wal, outcomes, states, outcome, after, Context(), rawNode);
        outcomes := outcomes + [outcome];
        states := states + [after];
        if StopsConsensus(outcome) {
          return true, outcomes, states;
        }
        AdvanceApplied(old(applyQueue), |outcomes| - 1);
        applyQueue := applyQueue.Applied();
      }
    }

    // -- Snapshots

    /**
     * `apply_snapshot`: a snapshot older than the log is refused; otherwise
     * the collections are brought to the snapshot's, the log is cleared and
     * the snapshot's metadata, configuration and peer addresses are taken
     * over; the commit index moves to the snapshot's and the term never goes
     * back.
     */
    method ApplySnapshot(snapshot: RaftSnapshot) returns (r: Result<(), StorageError>)
      modifies this, toc
      ensures old(FirstIndex()) > snapshot.metadata.index ==> r == Err(SnapshotOutOfDate) && unchanged(this) && unchanged(toc)
      ensures r.Ok? <==> (old(FirstIndex()) <= snapshot.metadata.index &&
        SnapshotApplies(old(toc.collections), snapshot.data.collectionsData, toc.inCluster, toc.backend))
      ensures r.Ok? ==>
        && wal == [] && snapshotMeta == snapshot.metadata
        && FirstIndex() == snapshot.metadata.index + 1 && LastIndex() == snapshot.metadata.index
        && Term(snapshot.metadata.index) == Ok(snapshot.metadata.term)
        && toc.collections == Reconciled(old(toc.collections), snapshot.data.collectionsData, toc.inCluster, toc.backend)
        && toc.aliases == snapshot.data.collectionsData.aliases
        && toc.peerAddresses == snapshot.data.addressById
        && confState == snapshot.metadata.confState
        && hardState.commit == snapshot.metadata.index
        && hardState.term >= old(hardState).term && hardState.term >= snapshot.metadata.term
        && (hardState.term == old(hardState).term || hardState.term == snapshot.metadata.term)
        && hardState.vote == old(hardState).vote
      ensures r.Err? ==> wal == old(wal) && snapshotMeta == old(snapshotMeta)
      ensures r.Err? ==> hardState == old(hardState) && confState == old(confState)
      ensures r.Err? ==> toc.aliases == old(toc.aliases) && toc.peerAddresses == old(toc.peerAddresses) && toc.proposals == old(toc.proposals)
      ensures r.Err? && old(FirstIndex()) <= snapshot.metadata.index ==>
        PartlyReconciled(old(toc.collections), snapshot.data.collectionsData, toc.inCluster, toc.backend, toc.collections)
      ensures applyQueue == old(applyQueue)
      ensures firstVoter == old(firstVoter) && messageSendFailures == old(messageSendFailures)
    {
      var meta := snapshot.metadata;
      if FirstIndex() > meta.index {
        return Err(SnapshotOutOfDate);
      }
      var applied := toc.ApplyCollectionsSnapshot(snapshot.data.collectionsData);
      if applied.Err? {
        return Err(applied.error);
      }
      wal := [];
      snapshotMeta := meta;
      confState := meta.confState;
      var term := if hardState.term >= meta.term then hardState.term else meta.term;
      hardState := hardState.(term := term, commit := meta.index);
      toc.peerAddresses := snapshot.data.addressById;
      r := Ok(());
    }
  }
}
