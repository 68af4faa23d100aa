/**
 * The consensus log as raft sees it: entries with index and term, snapshot
 * metadata, the write-ahead log lookup by index, and the reference
 * in-memory storage of the raft library that the log must agree with
 * (log compaction and snapshots as in section 7 of the Raft paper by
 * Ongaro and Ousterhout).
 */
module RaftLog {
  import opened Common
  import opened CollectionMetaOps

  /** Kinds of raft entries. */
  datatype EntryType = EntryNormal | EntryConfChange | EntryConfChangeV2

  /** Kinds of single membership changes. */
  datatype ConfChangeType = AddNode | RemoveNode | AddLearnerNode

  datatype ConfChangeSingle = ConfChangeSingle(changeType: ConfChangeType, nodeId: PeerId)

  /** A membership change (`ConfChangeV2`). */
  datatype ConfChangeV2 = ConfChangeV2(changes: seq<ConfChangeSingle>)

  /**
   * The payload of an entry, as decoded: nothing, a consensus operation, a
   * membership change, or bytes that do not decode as the entry's type needs.
   */
  datatype EntryData =
    | NoData
    | Operation(operation: ConsensusOperations)
    | ConfChange(change: ConfChangeV2)
    | Undecodable

  /** A raft log entry; the context of a learner addition carries the new peer's address. */
  datatype Entry = Entry(index: nat, term: nat, entryType: EntryType, data: EntryData, context: string)

  /** Voters and learners of the cluster. */
  datatype ConfState = ConfState(voters: set<PeerId>, learners: set<PeerId>)

  /** The persistent part of raft's state. */
  datatype HardState = HardState(term: nat, vote: nat, commit: nat)

  /** Where the last snapshot ends: the index and term of its last entry. */
  datatype SnapshotMetadata = SnapshotMetadata(confState: ConfState, index: nat, term: nat)

  /** Storage errors raft knows how to handle. */
  datatype RaftStorageError = Compacted | Unavailable | SnapshotTemporarilyUnavailable

  /** `NO_LIMIT` of the raft library: `u64::MAX`. */
  const NoLimit: nat := 0xFFFF_FFFF_FFFF_FFFF

  /** Sum of the encoded sizes of `entries`. */
  function TotalSize(entries: seq<Entry>, sizeOf: Entry -> nat): nat {
    if |entries| == 0 then 0 else TotalSize(entries[..|entries| - 1], sizeOf) + sizeOf(entries[|entries| - 1])
  }

  /**
   * How many leading entries the `take_while` of `limit_size` keeps once
   * `used` bytes are counted: an entry is taken unconditionally while the
   * count is still 0, and otherwise only if the count with it stays within
   * `max`.
   */
  function FitCount(entries: seq<Entry>, used: nat, max: nat, sizeOf: Entry -> nat): (k: nat)
    ensures k <= |entries|
    ensures |entries| > 0 && used == 0 ==> k >= 1
  {
    if |entries| == 0 || (used != 0 && used + sizeOf(entries[0]) > max) then 0
    else 1 + FitCount(entries[1..], used + sizeOf(entries[0]), max, sizeOf)
  }

  /**
   * `limit_size`: the leading entries while the running size is 0 or stays
   * within `max`; a list of at most one entry, `None` or `NO_LIMIT` keeps
   * everything.
   */
  function LimitSize(entries: seq<Entry>, max: Option<nat>, sizeOf: Entry -> nat): seq<Entry> {
    if |entries| <= 1 || max.None? || max.value == NoLimit then entries
    else entries[..FitCount(entries, 0, max.value, sizeOf)]
  }

  /** Total size of one entry followed by others. */
  lemma {:induction false} TotalSizeCons(e: Entry, rest: seq<Entry>, sizeOf: Entry -> nat)
    ensures TotalSize([e] + rest, sizeOf) == sizeOf(e) + TotalSize(rest, sizeOf)
    decreases |rest|
  {
    if |rest| == 0 {
      assert [e] + rest == [e];
      assert [e][..0] == [];
    } else {
      var all := [e] + rest;
      assert all[..|all| - 1] == [e] + rest[..|rest| - 1];
      TotalSizeCons(e, rest[..|rest| - 1], sizeOf);
    }
  }

  /** The last counted entry was within budget unless everything before it counted 0. */
  lemma {:induction false} FitCountWithin(entries: seq<Entry>, used: nat, max: nat, sizeOf: Entry -> nat)
    ensures var k := FitCount(entries, used, max, sizeOf);
      k > 0 && used + TotalSize(entries[..k - 1], sizeOf) > 0 ==> used + TotalSize(entries[..k], sizeOf) <= max
    decreases |entries|
  {
    var k := FitCount(entries, used, max, sizeOf);
    if k > 0 {
      var rest := entries[1..];
      var j := k - 1;
      FitCountWithin(rest, used + sizeOf(entries[0]), max, sizeOf);
      assert entries[..k] == [entries[0]] + rest[..j];
      TotalSizeCons(entries[0], rest[..j], sizeOf);
      if j > 0 {
        assert entries[..k - 1] == [entries[0]] + rest[..j - 1];
        TotalSizeCons(entries[0], rest[..j - 1], sizeOf);
      } else {
        assert entries[..k - 1] == [];
      }
    }
  }

  /** The count stops only at an entry that would take a non-zero count past the budget. */
  lemma {:induction false} FitCountStops(entries: seq<Entry>, used: nat, max: nat, sizeOf: Entry -> nat)
    ensures var k := FitCount(entries, used, max, sizeOf);
      k < |entries| ==> used + TotalSize(entries[..k], sizeOf) > 0 && used + TotalSize(entries[..k + 1], sizeOf) > max
    decreases |entries|
  {
    var k := FitCount(entries, used, max, sizeOf);
    if k < |entries| {
      if k == 0 {
        assert entries[..1] == [entries[0]] + [];
        TotalSizeCons(entries[0], [], sizeOf);
      } else {
        var rest := entries[1..];
        var j := k - 1;
        FitCountStops(rest, used + sizeOf(entries[0]), max, sizeOf);
        assert entries[..k] == [entries[0]] + rest[..j];
        TotalSizeCons(entries[0], rest[..j], sizeOf);
        assert entries[..k + 1] == [entries[0]] + rest[..j + 1];
        TotalSizeCons(entries[0], rest[..j + 1], sizeOf);
      }
    }
  }

  /**
   * Exactly the counted entries are taken: the last one was within budget
   * unless everything before it counted 0, and the count stops only at an
   * entry that would exceed the budget of a non-zero count.
   */
  lemma FitCountExact(entries: seq<Entry>, used: nat, max: nat, sizeOf: Entry -> nat)
    ensures var k := FitCount(entries, used, max, sizeOf);
      && (k > 0 && used + TotalSize(entries[..k - 1], sizeOf) > 0 ==> used + TotalSize(entries[..k], sizeOf) <= max)
      && (k < |entries| ==> used + TotalSize(entries[..k], sizeOf) > 0 && used + TotalSize(entries[..k + 1], sizeOf) > max)
  {
    FitCountWithin(entries, used, max, sizeOf);
    FitCountStops(entries, used, max, sizeOf);
  }

  /**
   * What `limit_size` keeps: a prefix, at least one entry of a non-empty
   * list, everything without a limit; within `max` unless all but the last
   * kept entry count 0 (always within when the first entry has a size);
   * and it stops only where one more entry would exceed `max`.
   */
  lemma LimitSizeProperties(entries: seq<Entry>, max: Option<nat>, sizeOf: Entry -> nat)
    ensures var r := LimitSize(entries, max, sizeOf);
      && r <= entries
      && (|entries| > 0 ==> |r| >= 1)
      && (max.None? || max == Some(NoLimit) ==> r == entries)
      && (max.Some? && max.value != NoLimit && |r| > 0 && TotalSize(r[..|r| - 1], sizeOf) > 0 ==> TotalSize(r, sizeOf) <= max.value)
      && (max.Some? && max.value != NoLimit && |r| > 1 && sizeOf(entries[0]) > 0 ==> TotalSize(r, sizeOf) <= max.value)
      && (max.Some? && |r| < |entries| ==> TotalSize(r, sizeOf) > 0 && TotalSize(entries[..|r| + 1], sizeOf) > max.value)
  {
    var r := LimitSize(entries, max, sizeOf);
    if |entries| == 1 {
      assert r[..0] == [];
    } else if !(|entries| == 0 || max.None? || max.value == NoLimit) {
      FitCountExact(entries, 0, max.value, sizeOf);
      assert r[..|r| - 1] == entries[..|r| - 1];
      if |r| > 1 {
        assert r[..|r| - 1] == [entries[0]] + r[1..|r| - 1];
        TotalSizeCons(entries[0], r[1..|r| - 1], sizeOf);
      }
    }
  }

  /** With a zero size limit and entries that all have a size, exactly one entry is returned (`at_least_1_entry`). */
  lemma LimitSizeZeroKeepsOne(entries: seq<Entry>, sizeOf: Entry -> nat)
    requires |entries| > 0
    requires forall e :: sizeOf(e) > 0
    ensures LimitSize(entries, Some(0), sizeOf) == entries[..1]
  {
    if |entries| > 1 {
      assert FitCount(entries[1..], sizeOf(entries[0]), 0, sizeOf) == 0;
    }
  }

  /** An entry of size 0 does not use up the budget: sizes 0 and 5 under a limit of 3 keep both entries. */
  lemma LimitSizeSkipsZeroSized(entries: seq<Entry>, sizeOf: Entry -> nat)
    requires |entries| == 2 && sizeOf(entries[0]) == 0 && sizeOf(entries[1]) == 5
    ensures LimitSize(entries, Some(3), sizeOf) == entries
  {
  }

  // ---------------------------------------------------------------------
  // The write-ahead log

  /** Entry indices follow each other without gaps. */
  predicate Contiguous(wal: seq<Entry>) {
    forall i :: 0 <= i < |wal| ==> wal[i].index == wal[0].index + i
  }

  /**
   * `ConsensusOpWal::entry`: the record at the entry's offset from the first
   * entry; `Compacted` before the first entry, `Unavailable` after the last
   * or when the log is empty.
   */
  function WalEntry(wal: seq<Entry>, idx: nat): Result<Entry, RaftStorageError> {
    if |wal| == 0 then Err(Unavailable)
    else if idx < wal[0].index then Err(Compacted)
    else if idx - wal[0].index >= |wal| then Err(Unavailable)
    else Ok(wal[idx - wal[0].index])
  }

  /** In a gap-free log, lookup finds exactly the indices from first to last, and the entry found has that index. */
  lemma WalEntryFinds(wal: seq<Entry>, idx: nat)
    requires Contiguous(wal)
    ensures WalEntry(wal, idx).Ok? <==> |wal| > 0 && wal[0].index <= idx <= wal[|wal| - 1].index
    ensures WalEntry(wal, idx).Ok? ==> WalEntry(wal, idx).value.index == idx
    ensures WalEntry(wal, idx).Err? && |wal| > 0 ==> (WalEntry(wal, idx).error == Compacted <==> idx < wal[0].index)
  {
  }

  /** The entries `low .. high` looked up one by one; the first failed lookup fails the whole. */
  function CollectEntries(wal: seq<Entry>, low: nat, high: nat): Result<seq<Entry>, RaftStorageError>
    decreases high - low
  {
    if low >= high then Ok([])
    else match WalEntry(wal, low)
      case Err(e) => Err(e)
      case Ok(entry) =>
        match CollectEntries(wal, low + 1, high)
        case Err(e) => Err(e)
        case Ok(rest) => Ok([entry] + rest)
  }

  /** In a gap-free log a range within it is the corresponding slice. */
  lemma {:induction false} CollectEntriesSlice(wal: seq<Entry>, low: nat, high: nat)
    requires Contiguous(wal) && |wal| > 0
    requires wal[0].index <= low <= high <= wal[0].index + |wal|
    ensures CollectEntries(wal, low, high) == Ok(wal[low - wal[0].index .. high - wal[0].index])
    decreases high - low
  {
    if low < high {
      CollectEntriesSlice(wal, low + 1, high);
      var first := wal[0].index;
      assert WalEntry(wal, low) == Ok(wal[low - first]);
      assert wal[low - first .. high - first] == [wal[low - first]] + wal[low + 1 - first .. high - first];
      assert CollectEntries(wal, low, high) == Ok([wal[low - first]] + wal[low + 1 - first .. high - first]);
    } else {
      assert wal[low - wal[0].index .. high - wal[0].index] == [];
    }
  }

  /** `ConsensusOpWal::entries`: the range, then `limit_size`. */
  function WalEntries(wal: seq<Entry>, low: nat, high: nat, maxSize: Option<nat>, sizeOf: Entry -> nat): Result<seq<Entry>, RaftStorageError> {
    match CollectEntries(wal, low, high)
    case Err(e) => Err(e)
    case Ok(entries) => Ok(LimitSize(entries, maxSize, sizeOf))
  }

  /**
   * Over a non-empty gap-free log, a range inside the log succeeds and gives
   * a prefix of the corresponding slice: all of it without a size limit, at
   * least one entry of a non-empty range.
   */
  lemma WalEntriesInLog(wal: seq<Entry>, low: nat, high: nat, maxSize: Option<nat>, sizeOf: Entry -> nat)
    ensures Contiguous(wal) && |wal| > 0 && wal[0].index <= low <= high <= wal[0].index + |wal| ==>
      var r := WalEntries(wal, low, high, maxSize, sizeOf);
      var slice := wal[low - wal[0].index .. high - wal[0].index];
      && r.Ok? && r.value <= slice
      && (low < high ==> |r.value| >= 1)
      && (maxSize.None? ==> r.value == slice)
  {
    if Contiguous(wal) && |wal| > 0 && wal[0].index <= low <= high <= wal[0].index + |wal| {
      CollectEntriesSlice(wal, low, high);
      LimitSizeProperties(wal[low - wal[0].index .. high - wal[0].index], maxSize, sizeOf);
    }
  }


  /** Over a non-empty gap-free log, a range inside the log is what the in-memory storage returns. */
  lemma WalEntriesAgreeWithMemStorage(wal: seq<Entry>, snapshot: SnapshotMetadata, low: nat, high: nat,
                                      maxSize: Option<nat>, sizeOf: Entry -> nat)
    requires Contiguous(wal) && |wal| > 0
    requires wal[0].index <= low <= high <= wal[|wal| - 1].index + 1
    ensures WalEntries(wal, low, high, maxSize, sizeOf) == MemEntries(wal, snapshot, low, high, maxSize, sizeOf)
  {
    assert wal[|wal| - 1].index == wal[0].index + |wal| - 1;
    CollectEntriesSlice(wal, low, high);
  }

  /** Entries 4, 5 and 6: entry 5 is found with index 5 (`correct_entry_with_offset`). */
  lemma EntryWithOffset(wal: seq<Entry>)
    requires |wal| == 3 && Contiguous(wal) && wal[0].index == 4
    ensures WalEntry(wal, 5).Ok? && WalEntry(wal, 5).value.index == 5
  {
  }

  /** Entries 4 and 5 with a zero size limit: one entry (`at_least_1_entry`). */
  lemma AtLeastOneEntry(wal: seq<Entry>, sizeOf: Entry -> nat)
    requires |wal| == 2 && Contiguous(wal) && wal[0].index == 4
    ensures WalEntries(wal, 4, 5, Some(0), sizeOf).Ok? && |WalEntries(wal, 4, 5, Some(0), sizeOf).value| == 1
  {
    CollectEntriesSlice(wal, 4, 5);
  }

  // ---------------------------------------------------------------------
  // The raft library's in-memory storage, the reference the log must agree with

  /** `MemStorage::first_index`. */
  function MemFirstIndex(entries: seq<Entry>, snapshot: SnapshotMetadata): nat {
    if |entries| > 0 then entries[0].index else snapshot.index + 1
  }

  /** `MemStorage::last_index`. */
  function MemLastIndex(entries: seq<Entry>, snapshot: SnapshotMetadata): nat {
    if |entries| > 0 then entries[|entries| - 1].index else snapshot.index
  }

  /** `MemStorage::term`. */
  function MemTerm(entries: seq<Entry>, snapshot: SnapshotMetadata, idx: nat): Result<nat, RaftStorageError> {
    var offset := MemFirstIndex(entries, snapshot);
    if idx == snapshot.index then Ok(snapshot.term)
    else if idx < offset then Err(Compacted)
    else if idx - offset >= |entries| then Err(Unavailable)
    else Ok(entries[idx - offset].term)
  }

  /** `MemStorage::entries`; it panics on a range past the end, an empty log or a reversed range. */
  function MemEntries(entries: seq<Entry>, snapshot: SnapshotMetadata, low: nat, high: nat,
                      maxSize: Option<nat>, sizeOf: Entry -> nat): Result<seq<Entry>, RaftStorageError>
    requires Contiguous(entries)
    requires low < MemFirstIndex(entries, snapshot) || (|entries| > 0 && low <= high <= MemLastIndex(entries, snapshot) + 1)
  {
    if low < MemFirstIndex(entries, snapshot) then Err(Compacted)
    else
      var offset := entries[0].index;
      Ok(LimitSize(entries[low - offset .. high - offset], maxSize, sizeOf))
  }

  // ---------------------------------------------------------------------
  // Committed entries waiting to be applied

  /**
   * `EntryApplyProgressQueue`: the committed entries still to apply, from
   * `next` up to and including `last`.
   */
  datatype EntryApplyProgressQueue = NoEntries | Pending(next: nat, last: nat) {
    /** How many entries are left. */
    function Len(): nat {
      if Pending? && next <= last then last - next + 1 else 0
    }

    /** The index of the next entry to apply, while any is left. */
    function Current(): (r: Option<nat>)
      ensures r.Some? <==> Len() > 0
      ensures r.Some? ==> r.value == next && next <= last
    {
      if Pending? && next <= last then Some(next) else None
    }

    /** Marks the current entry applied. */
    function Applied(): (q: EntryApplyProgressQueue)
      ensures Len() > 0 ==> q.Len() == Len() - 1
      ensures Len() > 0 && q.Len() > 0 ==> q.Current().value == Current().value + 1
      ensures Len() == 0 ==> q.Len() == 0
    {
      if Pending? then Pending(next + 1, last) else NoEntries
    }

    /** The queue after `n` entries are marked applied. */
    function Advance(n: nat): EntryApplyProgressQueue
      decreases n
    {
      if n == 0 then this else Applied().Advance(n - 1)
    }
  }

  /** Entries are handed out one after another, in index order, until none is left. */
  lemma {:induction false} QueueVisitsInOrder(q: EntryApplyProgressQueue, n: nat)
    requires n <= q.Len()
    ensures q.Advance(n).Len() == q.Len() - n
    ensures n < q.Len() ==> q.Advance(n).Current() == Some(q.Current().value + n)
    decreases n
  {
    if n > 0 {
      QueueVisitsInOrder(q.Applied(), n - 1);
    }
  }

  /** Each step uses up one entry, until none is left. */
  lemma {:induction false} AdvanceShortens(q: EntryApplyProgressQueue, n: nat)
    ensures q.Advance(n).Len() == if n <= q.Len() then q.Len() - n else 0
    decreases n
  {
    if n > 0 {
      AdvanceShortens(q.Applied(), n - 1);
    }
  }

  /** Marking one more entry applied is advancing one step further. */
  lemma {:induction false} AdvanceApplied(q: EntryApplyProgressQueue, n: nat)
    ensures q.Advance(n).Applied() == q.Advance(n + 1)
    decreases n
  {
    if n > 0 {
      AdvanceApplied(q.Applied(), n - 1);
    }
  }

  /** The queue of entries 0 to 2 (`unapplied_entries`). */
  lemma UnappliedEntries()
    ensures var q := Pending(0, 2);
      && q.Current() == Some(0) && q.Len() == 3
      && q.Advance(1).Current() == Some(1) && q.Advance(1).Len() == 2
      && q.Advance(2).Current() == Some(2) && q.Advance(2).Len() == 1
      && q.Advance(3).Current() == None && q.Advance(3).Len() == 0
  {
    QueueVisitsInOrder(Pending(0, 2), 3);
  }
}
