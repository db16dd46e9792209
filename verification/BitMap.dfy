/**
 kernel/bitmap.cpp: a packed bit array that records which resources are in use,
 and the first-fit search for a run of free ones.
 */
module Bitmaps {
  import opened Words

  /** The -1UL that allocation returns when there is no room. */
  const NONE: Word := 0xffff_ffff_ffff_ffff

  // ------------------------------------------------------- bits of packed bytes

  /** 1 << offset */
  function BitMask(offset: nat): bv8
    requires offset < 8
  {
    1 << offset
  }

  predicate BitAt(bytes: seq<bv8>, i: nat)
    requires i < 8 * |bytes|
  {
    bytes[i / 8] & BitMask(i % 8) != 0
  }

  /** byte & (~(1 << offset)) */
  function ClearBit(byte: bv8, offset: nat): bv8
    requires offset < 8
  {
    byte & !BitMask(offset)
  }

  /** byte | (1 << offset) */
  function RaiseBit(byte: bv8, offset: nat): bv8
    requires offset < 8
  {
    byte | BitMask(offset)
  }

  /** The byte after clearing one bit and then setting it if status says so. */
  function SetBit(byte: bv8, offset: nat, status: bool): bv8
    requires offset < 8
  {
    var cleared := ClearBit(byte, offset);
    if status then RaiseBit(cleared, offset) else cleared
  }

  lemma SetBitEffect(byte: bv8, offset: nat, status: bool, other: nat)
    requires offset < 8 && other < 8
    ensures (SetBit(byte, offset, status) & BitMask(other) != 0)
         == if other == offset then status else byte & BitMask(other) != 0
  {
    assert BitMask(0) == 1 && BitMask(1) == 2 && BitMask(2) == 4 && BitMask(3) == 8;
    assert BitMask(4) == 16 && BitMask(5) == 32 && BitMask(6) == 64 && BitMask(7) == 128;
  }

  lemma ByteFromBits(a: bv8, b: bv8)
    requires forall o :: 0 <= o < 8 ==> (a & BitMask(o) != 0) == (b & BitMask(o) != 0)
    ensures a == b
  {
    assert BitMask(0) == 1 && BitMask(1) == 2 && BitMask(2) == 4 && BitMask(3) == 8;
    assert BitMask(4) == 16 && BitMask(5) == 32 && BitMask(6) == 64 && BitMask(7) == 128;
  }

  /** bytes' differs from bytes exactly in that the bits start .. start + count - 1 hold status. */
  ghost predicate RunSet(bytes: seq<bv8>, bytes': seq<bv8>, start: nat, count: nat, status: bool) {
    && |bytes'| == |bytes|
    && forall i {:trigger BitAt(bytes', i)} :: 0 <= i < 8 * |bytes| ==>
         BitAt(bytes', i) == if start <= i < start + count then status else BitAt(bytes, i)
  }

  ghost predicate RunFree(bytes: seq<bv8>, start: nat, count: nat)
    requires start + count <= 8 * |bytes|
  {
    forall i {:trigger BitAt(bytes, i)} :: start <= i < start + count ==> !BitAt(bytes, i)
  }

  /** Storing back the byte that holds bit index changes that bit only. */
  lemma SetBitInBytes(bytes: seq<bv8>, index: nat, status: bool)
    requires index < 8 * |bytes|
    ensures RunSet(bytes, bytes[index / 8 := SetBit(bytes[index / 8], index % 8, status)], index, 1, status)
  {
    var bytes' := bytes[index / 8 := SetBit(bytes[index / 8], index % 8, status)];
    forall i | 0 <= i < 8 * |bytes|
      ensures BitAt(bytes', i) == if index <= i < index + 1 then status else BitAt(bytes, i)
    {
      if i / 8 == index / 8 {
        SetBitEffect(bytes[index / 8], index % 8, status, i % 8);
      }
    }
  }

  /**
   r is the start of the first run of count free bits among the first length ones,
   or NONE when count is zero or there is no such run.
   */
  ghost predicate FirstFit(bytes: seq<bv8>, length: nat, count: nat, r: Word)
    requires length <= 8 * |bytes|
  {
    && (r == NONE <==> count == 0 || forall s: nat :: s + count <= length ==> !RunFree(bytes, s, count))
    && (r != NONE ==>
          && r + count <= length
          && RunFree(bytes, r, count)
          && forall s: nat :: s < r ==> !RunFree(bytes, s, count))
  }

  /** Byte arrays with the same bits are the same bytes. */
  lemma BytesFromBits(a: seq<bv8>, b: seq<bv8>)
    requires |a| == |b| && forall i {:trigger BitAt(a, i)} :: 0 <= i < 8 * |a| ==> BitAt(a, i) == BitAt(b, i)
    ensures a == b
  {
    forall k | 0 <= k < |a| ensures a[k] == b[k] {
      forall o | 0 <= o < 8 ensures (a[k] & BitMask(o) != 0) == (b[k] & BitMask(o) != 0) {
        var i := 8 * k + o;
        assert i / 8 == k && i % 8 == o;
        assert BitAt(a, i) == BitAt(b, i);
      }
      ByteFromBits(a[k], b[k]);
    }
  }

  /** Releasing a run that was free before it was taken restores the bitmap byte for byte. */
  lemma SetThenClear(bytes: seq<bv8>, taken: seq<bv8>, back: seq<bv8>, start: nat, count: nat)
    requires start + count <= 8 * |bytes| && RunFree(bytes, start, count)
    requires RunSet(bytes, taken, start, count, true) && RunSet(taken, back, start, count, false)
    ensures back == bytes
  {
    forall i | 0 <= i < 8 * |bytes| ensures BitAt(back, i) == BitAt(bytes, i) {
      assert BitAt(taken, i) == if start <= i < start + count then true else BitAt(bytes, i);
    }
    BytesFromBits(back, bytes);
  }

  // ------------------------------------------------------------------- the class

  class BitMap {
    const bitmap: array<bv8>
    const length: nat

    ghost predicate Valid() {
      length <= 8 * bitmap.Length && length < NONE
    }

    /** Takes over the given bytes and marks every resource free. */
    constructor (bitmap: array<bv8>, length: nat)
      requires length <= 8 * bitmap.Length && length < NONE
      modifies bitmap
      ensures Valid() && this.bitmap == bitmap && this.length == length
      ensures forall i :: 0 <= i < length ==> !BitAt(bitmap[..], i)
      ensures forall k :: (length + 7) / 8 <= k < bitmap.Length ==> bitmap[k] == old(bitmap[k])
    {
      this.bitmap := bitmap;
      this.length := length;
      new;
      var bytes := (length + 8 - 1) / 8;
      var i := 0;
      while i < bytes
        invariant 0 <= i <= bytes <= bitmap.Length
        invariant forall k :: 0 <= k < i ==> bitmap[k] == 0
        invariant forall k :: i <= k < bitmap.Length ==> bitmap[k] == old(bitmap[k])
      {
        bitmap[i] := 0;
        i := i + 1;
      }
      forall j | 0 <= j < length ensures !BitAt(bitmap[..], j) {
        assert bitmap[..][j / 8] == 0;
      }
    }

    method Get(index: nat) returns (taken: bool)
      requires Valid() && index < length
      ensures taken == BitAt(bitmap[..], index)
    {
      var pos, offset := index / 8, index % 8;
      taken := bitmap[pos] & BitMask(offset) != 0;
    }

    method Set(index: nat, status: bool)
      requires Valid() && index < length
      modifies bitmap
      ensures RunSet(old(bitmap[..]), bitmap[..], index, 1, status)
    {
      SetBitInBytes(bitmap[..], index, status);
      StoreBit(index / 8, index % 8, status);
    }

    /** The two statements of set: clear the bit, then set it if asked to. */
    method StoreBit(pos: nat, offset: nat, status: bool)
      requires pos < bitmap.Length && offset < 8
      modifies bitmap
      ensures bitmap[..] == old(bitmap[..])[pos := SetBit(old(bitmap[..])[pos], offset, status)]
    {
      bitmap[pos] := ClearBit(bitmap[pos], offset);
      if status {
        bitmap[pos] := RaiseBit(bitmap[pos], offset);
      }
    }

    /** Takes the first run of count free resources. */
    method Allocate(count: nat) returns (r: Word)
      requires Valid()
      modifies bitmap
      ensures FirstFit(old(bitmap[..]), length, count, r)
      ensures r == NONE ==> bitmap[..] == old(bitmap[..])
      ensures r != NONE ==> RunSet(old(bitmap[..]), bitmap[..], r, count, true)
    {
      if count == 0 {
        return NONE;
      }
      ghost var bytes := bitmap[..];
      var index := 0;
      while index < length
        invariant index <= length && bitmap[..] == bytes
        invariant forall s: nat :: s < index && s + count <= length ==> !RunFree(bytes, s, count)
      {
        var start := SkipUsed(index);
        forall s: nat | index <= s < start && s + count <= length ensures !RunFree(bytes, s, count) {
          assert BitAt(bytes, s);
        }
        if start == length {
          return NONE;
        }
        var empty := CountFree(start, count);
        index := start + empty;
        if empty == count {
          SetRun(start, count);
          return start;
        }
        forall s: nat | start <= s < index && s + count <= length ensures !RunFree(bytes, s, count) {
          assert s + count > index && BitAt(bytes, index);
        }
      }
      return NONE;
    }

    /** The first inner loop of allocate: the next free position, or length. */
    method SkipUsed(from: nat) returns (index: nat)
      requires Valid() && from < length
      ensures from <= index <= length && forall k :: from <= k < index ==> BitAt(bitmap[..], k)
      ensures index < length ==> !BitAt(bitmap[..], index)
    {
      index := from;
      var used := Get(index);
      while used
        invariant from <= index <= length && forall k :: from <= k < index ==> BitAt(bitmap[..], k)
        invariant used == (index < length && BitAt(bitmap[..], index))
        decreases length - index
      {
        index := index + 1;
        if index < length {
          used := Get(index);
        } else {
          used := false;
        }
      }
    }

    /** The second inner loop: how many positions from start on are free, up to count. */
    method CountFree(start: nat, count: nat) returns (empty: nat)
      requires Valid() && start < length && !BitAt(bitmap[..], start) && count > 0
      ensures 0 < empty <= count && start + empty <= length && RunFree(bitmap[..], start, empty)
      ensures empty < count && start + empty < length ==> BitAt(bitmap[..], start + empty)
    {
      empty := 0;
      var free := true;
      while free && empty < count
        invariant empty <= count && start + empty <= length && RunFree(bitmap[..], start, empty)
        invariant free == (start + empty < length && !BitAt(bitmap[..], start + empty))
        decreases count - empty
      {
        empty := empty + 1;
        if start + empty < length {
          var used := Get(start + empty);
          free := !used;
        } else {
          free := false;
        }
      }
    }

    /** The loop of allocate that marks the run found. */
    method SetRun(start: nat, count: nat)
      requires Valid() && start + count <= length
      modifies bitmap
      ensures RunSet(old(bitmap[..]), bitmap[..], start, count, true)
    {
      var i := 0;
      while i < count
        invariant i <= count && RunSet(old(bitmap[..]), bitmap[..], start, i, true)
      {
        Set(start + i, true);
        i := i + 1;
      }
    }

    method Release(index: nat, count: nat)
      requires Valid() && index + count <= length
      modifies bitmap
      ensures RunSet(old(bitmap[..]), bitmap[..], index, count, false)
    {
      var i := 0;
      while i < count
        invariant i <= count && RunSet(old(bitmap[..]), bitmap[..], index, i, false)
      {
        Set(index + i, false);
        i := i + 1;
      }
    }
  }
}
