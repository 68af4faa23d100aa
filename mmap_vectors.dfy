/**
 * Vectors stored in a memory-mapped file, with soft deletion: a second
 * file holds one flag byte per vector after a 4-byte header, and a
 * counter keeps the sum of the flags. Vector elements are not interpreted.
 */
module MmapVectorStorage {
  import opened Common

  /** A byte of the flag file. */
  type byte = x: nat | x < 256

  /** `PointOffsetType`: a 32-bit unsigned point offset. */
  type PointOffset = x: nat | x < 0x1_0000_0000

  /** A vector element, not interpreted. */
  type VectorElement(==)

  /** Both files start with a 4-byte header. */
  const HeaderSize: nat := 4

  /** Bytes per vector element. */
  const ElementSize: nat := 4

  /** `num_vectors as PointOffsetType`: the number of vectors cut to 32 bits. */
  function AsPointOffset(n: nat): PointOffset {
    n % 0x1_0000_0000
  }

  /** Sum of the flag bytes. */
  function FlagSum(flags: seq<byte>): nat {
    if |flags| == 0 then 0 else FlagSum(flags[..|flags| - 1]) + flags[|flags| - 1]
  }

  /** The flags after the header. */
  function FlagsOf(file: seq<byte>): seq<byte> {
    if |file| <= HeaderSize then [] else file[HeaderSize..]
  }

  /** Changing one flag changes the sum by the difference. */
  lemma {:induction false} FlagSumUpdate(flags: seq<byte>, i: nat, v: byte)
    requires i < |flags|
    ensures FlagSum(flags[i := v]) + flags[i] == FlagSum(flags) + v
    decreases |flags|
  {
    var n := |flags| - 1;
    if i < n {
      assert flags[i := v][..n] == flags[..n][i := v];
      FlagSumUpdate(flags[..n], i, v);
    } else {
      assert flags[i := v][..n] == flags[..n];
    }
  }

  /** With flags that are 0 or 1, the sum is the number of set flags. */
  lemma {:induction false} FlagSumCountsDeleted(flags: seq<byte>)
    requires forall i :: 0 <= i < |flags| ==> flags[i] <= 1
    ensures FlagSum(flags) == |set i | 0 <= i < |flags| && flags[i] == 1|
    decreases |flags|
  {
    if |flags| > 0 {
      var n := |flags| - 1;
      FlagSumCountsDeleted(flags[..n]);
      var before := set i | 0 <= i < n && flags[..n][i] == 1;
      var all := set i | 0 <= i < |flags| && flags[i] == 1;
      if flags[n] == 1 {
        assert all == before + {n};
      } else {
        assert all == before;
      }
    }
  }

  /** The deleted count found on open: the sum of the flag bytes after the header. */
  method CountDeleted(file: array<byte>) returns (count: nat)
    ensures count == FlagSum(FlagsOf(file[..]))
  {
    count := 0;
    var idx := HeaderSize;
    while idx < file.Length
      invariant HeaderSize <= idx && (file.Length > HeaderSize ==> idx <= file.Length)
      invariant count == FlagSum(if idx <= file.Length then file[HeaderSize..idx] else [])
    {
      assert file[HeaderSize..idx + 1][..idx - HeaderSize] == file[HeaderSize..idx];
      count := count + file[idx];
      idx := idx + 1;
    }
    if file.Length > HeaderSize {
      assert file[HeaderSize..idx] == FlagsOf(file[..]);
    }
  }

  /** `check_deleted`: no answer past the end of the flag file, else whether the flag is set. */
  function CheckDeleted(file: seq<byte>, key: PointOffset): (r: Option<bool>)
    ensures r.None? <==> HeaderSize + key >= |file|
    ensures r.Some? ==> (r.value <==> FlagsOf(file)[key] > 0)
  {
    if HeaderSize + key < |file| then Some(file[HeaderSize + key] > 0) else None
  }

  /** `MmapVectors`: the vector file (read only) and the flag file (written in place). */
  class MmapVectors {
    const dim: nat
    /** Length of the vector file in bytes. */
    const dataLength: nat
    /** The vector file's elements after the header, in order. */
    const elements: seq<VectorElement>
    const numVectors: nat
    /** The flag file, header included. */
    const deletedFlags: array<byte>
    var deletedCount: nat

    /** The counter is the sum of the flags, and the element slots match the file length. */
    predicate Valid()
      reads this, deletedFlags
    {
      && dim > 0
      && dataLength >= HeaderSize
      && numVectors == (dataLength - HeaderSize) / dim / ElementSize
      && |elements| == (dataLength - HeaderSize) / ElementSize
      && deletedCount == FlagSum(FlagsOf(deletedFlags[..]))
    }

    /** `open` over the two files' contents. */
    constructor (dataLength: nat, elements: seq<VectorElement>, deletedFlags: array<byte>, dim: nat)
      requires dim > 0 && dataLength >= HeaderSize
      requires |elements| == (dataLength - HeaderSize) / ElementSize
      ensures Valid()
      ensures this.dim == dim && this.dataLength == dataLength && this.elements == elements
      ensures this.deletedFlags == deletedFlags && deletedFlags[..] == old(deletedFlags[..])
      ensures numVectors == (dataLength - HeaderSize) / dim / ElementSize
      ensures deletedCount == FlagSum(FlagsOf(deletedFlags[..]))
    {
      this.dim := dim;
      this.dataLength := dataLength;
      this.elements := elements;
      numVectors := (dataLength - HeaderSize) / dim / ElementSize;
      this.deletedFlags := deletedFlags;
      var count := CountDeleted(deletedFlags);
      deletedCount := count;
    }

    /** `data_offset`: where key's vector starts in the vector file, for keys below the vector count. */
    function DataOffset(key: PointOffset): (r: Option<nat>)
      ensures r.Some? <==> key < AsPointOffset(numVectors)
      ensures r.Some? ==> r.value == key * (dim * ElementSize) + HeaderSize
    {
      var offset := key * (dim * ElementSize) + HeaderSize;
      if key >= AsPointOffset(numVectors) then None else Some(offset)
    }

    /** A found vector lies inside the vector file, and the vectors of two keys do not overlap. */
    lemma DataOffsetInBounds(key: PointOffset, other: PointOffset)
      requires Valid()
      ensures DataOffset(key).Some? ==> DataOffset(key).value + dim * ElementSize <= dataLength
      ensures DataOffset(key).Some? ==> (DataOffset(key).value - HeaderSize) / ElementSize == key * dim
      ensures DataOffset(key).Some? ==> key * dim + dim <= |elements|
      ensures key < other ==> key * (dim * ElementSize) + HeaderSize + dim * ElementSize <= other * (dim * ElementSize) + HeaderSize
    {
      if key < other {
        SlotsDisjoint(key, other, dim * ElementSize);
      }
      if DataOffset(key).Some? {
        VectorSlotInFile(key, dim, dataLength - HeaderSize);
        SlotStart(key, dim);
      }
    }

    /** `deleted`: the flag of `key`, if the flag file reaches it. */
    function Deleted(key: PointOffset): Option<bool>
      reads deletedFlags
    {
      CheckDeleted(deletedFlags[..], key)
    }

    /**
     * `get_vector`: nothing for a deleted key, a key past the flag file or a
     * key without a vector; otherwise the `dim` elements at its offset.
     */
    function GetVector(key: PointOffset): (r: Option<seq<VectorElement>>)
      reads this, deletedFlags
      requires Valid()
      ensures r.Some? <==> Deleted(key) == Some(false) && key < AsPointOffset(numVectors)
      ensures r.Some? ==> key * dim + dim <= |elements| && r.value == elements[key * dim .. key * dim + dim]
      ensures r.Some? ==> |r.value| == dim
    {
      match Deleted(key)
      case None => None
      case Some(true) => None
      case Some(false) =>
        match DataOffset(key)
        case None => None
        case Some(offset) =>
          DataOffsetInBounds(key, key);
          var start := (offset - HeaderSize) / ElementSize;
          Some(elements[start .. start + dim])
    }

    /**
     * `delete`: for a key below the vector count the flag is set and the
     * counter goes up, unless the flag was already set; other keys and
     * other flags are untouched.
     */
    method Delete(key: PointOffset)
      modifies this, deletedFlags
      requires Valid()
      requires key < AsPointOffset(numVectors) ==> HeaderSize + key < deletedFlags.Length
      ensures Valid()
      ensures key >= AsPointOffset(numVectors) ==> deletedFlags[..] == old(deletedFlags[..]) && deletedCount == old(deletedCount)
      ensures key < AsPointOffset(numVectors) && old(deletedFlags[HeaderSize + key]) > 0 ==>
        deletedFlags[..] == old(deletedFlags[..]) && deletedCount == old(deletedCount)
      ensures key < AsPointOffset(numVectors) && old(deletedFlags[HeaderSize + key]) == 0 ==>
        deletedFlags[..] == old(deletedFlags[..])[HeaderSize + key := 1] && deletedCount == old(deletedCount) + 1
      ensures key < AsPointOffset(numVectors) ==> Deleted(key) == Some(true) && GetVector(key) == None
    {
      if key < AsPointOffset(numVectors) {
        var i := HeaderSize + key;
        if deletedFlags[i] == 0 {
          ghost var before := deletedFlags[..];
          deletedFlags[i] := 1;
          assert FlagsOf(deletedFlags[..]) == FlagsOf(before)[key := 1];
          FlagSumUpdate(FlagsOf(before), key, 1);
          deletedCount := deletedCount + 1;
        }
      }
    }
  }

  /** A key below the vector count has all `dim` elements of its vector inside the data. */
  lemma VectorSlotInFile(key: nat, dim: nat, len: nat)
    requires dim > 0 && key < len / dim / ElementSize
    ensures key * (dim * ElementSize) + dim * ElementSize <= len
    ensures key * dim + dim <= len / ElementSize
  {
    var q := len / dim;
    assert (key + 1) * ElementSize <= q;
    MulMonotone((key + 1) * ElementSize, q, dim);
    QuotientTimesDivisor(len, dim);
    assert key * (dim * ElementSize) + dim * ElementSize == (key + 1) * ElementSize * dim;
    assert (key * dim + dim) * ElementSize == (key + 1) * ElementSize * dim;
    DivBound(key * dim + dim, len);
  }

  /** The element index of a vector's first element. */
  lemma SlotStart(key: nat, dim: nat)
    ensures (key * (dim * ElementSize)) / ElementSize == key * dim
  {
    assert key * (dim * ElementSize) == (key * dim) * ElementSize;
  }

  /** The slot of a smaller key ends before the slot of a larger one starts. */
  lemma SlotsDisjoint(key: nat, other: nat, width: nat)
    requires key < other
    ensures key * width + width <= other * width
  {
    MulMonotone(key + 1, other, width);
  }

  /** A quotient times its divisor does not exceed the dividend. */
  lemma QuotientTimesDivisor(n: nat, d: nat)
    requires d > 0
    ensures (n / d) * d <= n
  {
  }

  /** Multiplication by a natural number keeps order. */
  lemma MulMonotone(a: nat, b: nat, c: nat)
    requires a <= b
    ensures a * c <= b * c
  {
  }

  /** A product within a bound stays within it after division by the element size. */
  lemma DivBound(n: nat, bound: nat)
    requires n * ElementSize <= bound
    ensures n <= bound / ElementSize
  {
  }
}
