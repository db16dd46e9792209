/**
 kernel/address_pool.cpp: page addresses on top of the bitmap, and what holds over
 any sequence of allocations and matching releases.
 */
module AddressPools {
  import opened Words
  import opened Bitmaps

  class AddressPool {
    const resources: BitMap
    const startAddress: Word

    ghost predicate Valid() {
      resources.Valid() && startAddress + 4096 * resources.length < NONE
    }

    constructor (bitmap: array<bv8>, length: nat, startAddress: Word)
      requires length <= 8 * bitmap.Length && startAddress + 4096 * length < NONE
      modifies bitmap
      ensures Valid() && fresh(resources)
      ensures resources.bitmap == bitmap && resources.length == length && this.startAddress == startAddress
      ensures forall i :: 0 <= i < length ==> !BitAt(bitmap[..], i)
    {
      var bits := new BitMap(bitmap, length);
      resources := bits;
      this.startAddress := startAddress;
    }

    /** The address of the first run of count free pages, or NONE. */
    method Allocate(count: nat) returns (address: Word)
      requires Valid()
      modifies resources.bitmap
      ensures address == NONE ==>
                && FirstFit(old(resources.bitmap[..]), resources.length, count, NONE)
                && resources.bitmap[..] == old(resources.bitmap[..])
      ensures address != NONE ==>
                && startAddress <= address && (address - startAddress) % 4096 == 0
                && FirstFit(old(resources.bitmap[..]), resources.length, count, (address - startAddress) / 4096)
                && RunSet(old(resources.bitmap[..]), resources.bitmap[..], (address - startAddress) / 4096, count, true)
    {
      var start := resources.Allocate(count);
      address := if start == NONE then NONE else start * 4096 + startAddress;
    }

    method Release(address: Word, amount: nat)
      requires Valid()
      requires startAddress <= address && (address - startAddress) / 4096 + amount <= resources.length
      modifies resources.bitmap
      ensures RunSet(old(resources.bitmap[..]), resources.bitmap[..], (address - startAddress) / 4096, amount, false)
    {
      resources.Release((address - startAddress) / 4096, amount);
    }
  }

  // -------------------------------------------------------------- allocator runs

  /** A run of count pages starting at page number start of the pool. */
  datatype Block = Block(start: nat, count: nat) {
    predicate Has(i: nat) {
      start <= i < start + count
    }
  }

  /** The bitmap together with the blocks handed out and not yet returned. */
  datatype Pool = Pool(bytes: seq<bv8>, length: nat, blocks: set<Block>)

  ghost predicate Covered(p: Pool, i: nat) {
    exists b :: b in p.blocks && b.Has(i)
  }

  /** Outstanding blocks lie in the pool, are disjoint, and are exactly the set bits. */
  ghost predicate Consistent(p: Pool) {
    && p.length <= 8 * |p.bytes| && p.length < NONE
    && (forall b :: b in p.blocks ==> b.count > 0 && b.start + b.count <= p.length)
    && (forall b, c, i :: b in p.blocks && c in p.blocks && b.Has(i) && c.Has(i) ==> b == c)
    && (forall i {:trigger Covered(p, i)} {:trigger BitAt(p.bytes, i)} :: 0 <= i < p.length ==>
          (BitAt(p.bytes, i) <==> Covered(p, i)))
  }

  datatype Op = Take(count: nat) | Return(block: Block)

  /** One allocation, as Allocate promises it, or the return of an outstanding block. */
  ghost predicate Step(p: Pool, op: Op, p': Pool)
    requires p.length <= 8 * |p.bytes|
  {
    && p'.length == p.length
    && match op
       case Take(count) =>
         exists r: Word :: FirstFit(p.bytes, p.length, count, r) &&
           if r == NONE then p' == p
           else RunSet(p.bytes, p'.bytes, r, count, true) && p'.blocks == p.blocks + {Block(r, count)}
       case Return(b) =>
         b in p.blocks && RunSet(p.bytes, p'.bytes, b.start, b.count, false) && p'.blocks == p.blocks - {b}
  }

  lemma TakeKeepsConsistent(p: Pool, count: nat, p': Pool)
    requires Consistent(p) && Step(p, Take(count), p')
    ensures Consistent(p')
    ensures p'.blocks == p.blocks
         || exists b :: b !in p.blocks && b.count == count && p'.blocks == p.blocks + {b}
  {
    var r: Word :| FirstFit(p.bytes, p.length, count, r) &&
      if r == NONE then p' == p
      else RunSet(p.bytes, p'.bytes, r, count, true) && p'.blocks == p.blocks + {Block(r, count)};
    if r != NONE {
      var given := Block(r, count);
      forall b, i | b in p.blocks && given.Has(i) ensures !b.Has(i) {
        assert !BitAt(p.bytes, i) && !Covered(p, i);
      }
      assert given.Has(r);
      assert given !in p.blocks;
      forall i | 0 <= i < p.length ensures BitAt(p'.bytes, i) <==> Covered(p', i) {
        assert BitAt(p'.bytes, i) == if given.Has(i) then true else BitAt(p.bytes, i);
        if Covered(p, i) {
          var b :| b in p.blocks && b.Has(i);
          assert b in p'.blocks;
        }
        if given.Has(i) {
          assert given in p'.blocks;
        }
      }
    }
  }

  lemma ReturnKeepsConsistent(p: Pool, b: Block, p': Pool)
    requires Consistent(p) && Step(p, Return(b), p')
    ensures Consistent(p')
  {
    forall i | 0 <= i < p.length ensures BitAt(p'.bytes, i) <==> Covered(p', i) {
      assert BitAt(p'.bytes, i) == if b.Has(i) then false else BitAt(p.bytes, i);
      if Covered(p, i) {
        var c :| c in p.blocks && c.Has(i);
        if !b.Has(i) {
          assert c in p'.blocks;
        }
      }
    }
  }

  /** A run: consecutive states related by the operations. */
  ghost predicate IsRun(states: seq<Pool>, ops: seq<Op>) {
    && |states| == |ops| + 1
    && forall k :: 0 <= k < |ops| ==>
         states[k].length <= 8 * |states[k].bytes| && Step(states[k], ops[k], states[k + 1])
  }

  /** Over every run of allocations and matching releases the pool stays consistent. */
  lemma {:induction false} RunsStayConsistent(states: seq<Pool>, ops: seq<Op>, k: nat)
    requires IsRun(states, ops) && Consistent(states[0]) && k <= |ops|
    ensures Consistent(states[k])
  {
    if k > 0 {
      RunsStayConsistent(states, ops, k - 1);
      assert Step(states[k - 1], ops[k - 1], states[k]);
      match ops[k - 1]
      case Take(count) => TakeKeepsConsistent(states[k - 1], count, states[k]);
      case Return(b) => ReturnKeepsConsistent(states[k - 1], b, states[k]);
    }
  }

  /** Taking a block and giving it straight back leaves every byte of the bitmap as it was. */
  lemma TakeThenReturn(p: Pool, count: nat, q: Pool, b: Block, p': Pool)
    requires Consistent(p) && Step(p, Take(count), q) && b !in p.blocks && Step(q, Return(b), p')
    ensures p' == p
  {
    var r: Word :| FirstFit(p.bytes, p.length, count, r) &&
      if r == NONE then q == p
      else RunSet(p.bytes, q.bytes, r, count, true) && q.blocks == p.blocks + {Block(r, count)};
    assert b == Block(r, count);
    SetThenClear(p.bytes, q.bytes, p'.bytes, r, count);
  }
}
