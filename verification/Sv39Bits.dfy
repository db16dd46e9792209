/**
 The bit manipulation of kernel/mem.cpp and kernel/process.cpp on Sv39 virtual
 addresses, page table entries and the satp register: each expression is written
 with the operators of the source and proved equal to its arithmetic meaning.
 */
module Sv39Bits {
  import opened Words

  const PTE_V: Word := 1
  const PTE_R: Word := 2
  const PTE_W: Word := 4
  const PTE_X: Word := 8
  const PTE_U: Word := 16

  /** A place in the three-level tree: the entry followed at each level. */
  datatype Path = Path(i2: nat, i1: nat, i0: nat) {
    predicate InRange() {
      i2 < 512 && i1 < 512 && i0 < 512
    }
  }

  // ----------------------------------------------------- fields of an address

  lemma MaskPpn2(w: Word)
    ensures And(w, 0x7f_c000_0000) == w / 0x4000_0000 % 512 * 0x4000_0000
  {
    hide And;
    SmallPowers();
    LargePowers();
    FieldOfWord(w, 9, 30);
  }

  lemma MaskPpn1(w: Word)
    ensures And(w, 0x3fe0_0000) == w / 0x20_0000 % 512 * 0x20_0000
  {
    hide And;
    SmallPowers();
    LargePowers();
    FieldOfWord(w, 9, 21);
  }

  lemma MaskPpn0(w: Word)
    ensures And(w, 0x1f_f000) == w / 4096 % 512 * 4096
  {
    hide And;
    SmallPowers();
    FieldOfWord(w, 9, 12);
  }

  /** (va & PPN2_MASK) >> 30 */
  function L2Index(va: Word): (i: nat)
    ensures i < 512 && i == va / 0x4000_0000 % 512
  {
    MaskPpn2(va);
    And(va, 0x7f_c000_0000) / 0x4000_0000
  }

  /** (va & PPN1_MASK) >> 21 */
  function L1Index(va: Word): (i: nat)
    ensures i < 512 && i == va / 0x20_0000 % 512
  {
    MaskPpn1(va);
    And(va, 0x3fe0_0000) / 0x20_0000
  }

  /** (va & PPN0_MASK) >> 12 */
  function L0Index(va: Word): (i: nat)
    ensures i < 512 && i == va / 4096 % 512
  {
    MaskPpn0(va);
    And(va, 0x1f_f000) / 4096
  }

  function PathOf(va: Word): (t: Path)
    ensures t.InRange()
  {
    Path(L2Index(va), L1Index(va), L0Index(va))
  }

  lemma PathFields(va: Word)
    ensures PathOf(va).InRange() && PathOf(va).i2 == L2Index(va) && PathOf(va).i1 == L1Index(va)
    ensures PathOf(va).i0 == L0Index(va)
  {
  }

  // ------------------------------------------------------- page table entries

  lemma MaskValid(w: Word)
    ensures And(w, 1) == w % 2
  {
    hide And;
    SmallPowers();
    FieldOfWord(w, 1, 0);
  }

  lemma MaskPpn(w: Word)
    ensures And(w, 0x3f_ffff_ffff_fc00) == w / 1024 % 0x1000_0000_0000 * 1024
  {
    hide And;
    SmallPowers();
    LargePowers();
    FieldOfWord(w, 44, 10);
  }

  /** pte & PTE_V */
  predicate HasV(pte: Word)
    ensures HasV(pte) <==> pte % 2 == 1
  {
    MaskValid(pte);
    And(pte, PTE_V) != 0
  }

  /** ((paddr >> 12) << 10) | flags */
  function MakePte(paddr: Word, flags: Word): (pte: Word)
    requires flags < 1024
    ensures pte == paddr / 4096 * 1024 + flags
    ensures pte / 1024 == paddr / 4096 && pte % 1024 == flags
  {
    SmallPowers();
    OrAdds(paddr / 4096, flags, 10);
    Or(paddr / 4096 * 1024, flags)
  }

  /** pte | flags, for an entry whose low bits are still clear. */
  function WithFlags(pte: Word, flags: Word): (r: Word)
    requires pte % 1024 == 0 && flags < 1024
    ensures r == pte + flags
  {
    SmallPowers();
    OrAdds(pte / 1024, flags, 10);
    Or(pte, flags)
  }

  /** (pte >> 10) << 12, the form used while a mapping is built. */
  function ShiftTarget(pte: Word): Word {
    pte / 1024 * 4096 % WORD_LIMIT
  }

  /** (pte & PTE_PPN_MASK) << 2, the form used by the read-only walker. */
  function MaskTarget(pte: Word): (a: Word)
    ensures a == pte / 1024 % 0x1000_0000_0000 * 4096
  {
    MaskPpn(pte);
    And(pte, 0x3f_ffff_ffff_fc00) * 4 % WORD_LIMIT
  }

  /** pte & 0x3ff */
  function LowFlags(pte: Word): (f: Word)
    ensures f == pte % 1024
  {
    SmallPowers();
    FieldOfWord(pte, 10, 0);
    And(pte, 0x3ff)
  }

  /**
   The two ways the kernel follows an entry agree exactly when the bits that only
   the shifted form keeps, 54 to 61 of the entry, are zero.
   */
  lemma TargetsAgreeIff(pte: Word)
    ensures ShiftTarget(pte) == MaskTarget(pte) <==> pte / 0x40_0000_0000_0000 % 256 == 0
  {
    hide And;
    var n := pte / 1024;
    assert n * 4096 % WORD_LIMIT == n % 0x10_0000_0000_0000 * 4096;
    assert pte / 0x40_0000_0000_0000 == n / 0x1000_0000_0000;
  }

  // ---------------------------------------------------------- other expressions

  lemma MaskOffset(w: Word)
    ensures And(w, 0xffff_ffff_ffff_f000) == w / 4096 * 4096
  {
    hide And;
    hide Pow2;
    SmallPowers();
    LargePowers();
    PowersMultiply(30, 10);
    PowersMultiply(40, 12);
    FieldOfWord(w, 52, 12);
  }

  /** a & ~0xfff */
  function PageStart(a: Word): (r: Word)
    ensures r == a / 4096 * 4096
  {
    MaskOffset(a);
    And(a, 0xffff_ffff_ffff_f000)
  }

  /** page | (va & 0xfff) */
  function WithOffset(page: Word, va: Word): (r: nat)
    requires page % 4096 == 0
    ensures r == page + va % 4096
  {
    SmallPowers();
    FieldOfWord(va, 12, 0);
    OrAdds(page / 4096, va % 4096, 12);
    Or(page, And(va, 0xfff))
  }

  /** Addresses of one page have one path. */
  lemma SamePage(va: Word)
    ensures PathOf(va) == PathOf(va / 4096 * 4096)
  {
    hide And;
    var w := va / 4096 * 4096;
    assert w / 4096 == va / 4096;
    assert w / 0x20_0000 == w / 4096 / 512 && w / 0x4000_0000 == w / 4096 / 512 / 512;
    assert va / 0x20_0000 == va / 4096 / 512 && va / 0x4000_0000 == va / 4096 / 512 / 512;
  }

  lemma MaskSign(w: Word)
    ensures And(w, 0x40_0000_0000) == w / 0x40_0000_0000 % 2 * 0x40_0000_0000
  {
    hide And;
    SmallPowers();
    LargePowers();
    FieldOfWord(w, 1, 38);
  }

  /** (i2 << 30) | (i1 << 21) | (i0 << 12) */
  function JoinPath(t: Path): (va: Word)
    requires t.InRange()
    ensures va == t.i2 * 0x4000_0000 + t.i1 * 0x20_0000 + t.i0 * 4096
  {
    LargePowers();
    OrAdds(t.i2, t.i1 * 0x20_0000, 30);
    OrAdds(t.i2 * 512 + t.i1, t.i0 * 4096, 21);
    Or(Or(t.i2 * 0x4000_0000, t.i1 * 0x20_0000), t.i0 * 4096)
  }

  lemma SignExtend(t: Path)
    requires t.InRange()
    ensures And(JoinPath(t), 0x40_0000_0000) != 0 <==> t.i2 >= 256
    ensures Or(JoinPath(t), 0xffff_ff80_0000_0000) == JoinPath(t) + 0xffff_ff80_0000_0000
  {
    hide And;
    hide Or;
    var va := JoinPath(t);
    MaskSign(va);
    LargePowers();
    OrAdds(0x1ff_ffff, va, 39);
  }

  /** The address copy_process rebuilds for a path: bits 63..39 copy bit 38. */
  function AddressOfPath(t: Path): (va: Word)
    requires t.InRange()
    ensures va == JoinPath(t) + (if t.i2 >= 256 then 0xffff_ff80_0000_0000 else 0)
  {
    var va := JoinPath(t);
    SignExtend(t);
    if And(va, 0x40_0000_0000) != 0 then Or(va, 0xffff_ff80_0000_0000) else va
  }

  /** Quotients of an address given by its fields, with off in the page. */
  lemma SplitFields(h: nat, i1: nat, i0: nat, off: nat)
    requires i1 < 512 && i0 < 512 && off < 4096
    ensures var va := h * 0x4000_0000 + i1 * 0x20_0000 + i0 * 4096 + off;
            va / 0x4000_0000 == h && va / 0x20_0000 % 512 == i1 && va / 4096 % 512 == i0 && va % 4096 == off
  {
    var va := h * 0x4000_0000 + i1 * 0x20_0000 + i0 * 4096 + off;
    assert va / 0x20_0000 == h * 512 + i1;
    assert va / 4096 == (h * 512 + i1) * 512 + i0;
  }

  /** Fields of an address given by its quotients. */
  lemma JoinFields(va: nat)
    ensures va == va / 0x4000_0000 * 0x4000_0000 + va / 0x20_0000 % 512 * 0x20_0000 + va / 4096 % 512 * 4096 + va % 4096
  {
    assert va / 0x20_0000 == va / 4096 / 512;
    assert va / 0x4000_0000 == va / 0x20_0000 / 512;
  }

  /** Rebuilding an address from a path and splitting it again is the identity. */
  lemma PathOfAddress(t: Path)
    requires t.InRange()
    ensures PathOf(AddressOfPath(t)) == t
    ensures AddressOfPath(t) % 4096 == 0 && Canonical(AddressOfPath(t))
  {
    hide And;
    hide Or;
    var high := if t.i2 >= 256 then 0x3_ffff_fe00 else 0;
    SplitFields(high + t.i2, t.i1, t.i0, 0);
    var va := AddressOfPath(t);
    assert va == (high + t.i2) * 0x4000_0000 + t.i1 * 0x20_0000 + t.i0 * 4096;
    assert L0Index(va) == t.i0;
    assert L1Index(va) == t.i1;
    assert L2Index(va) == (high + t.i2) % 512 == t.i2;
  }

  lemma MaskTop(w: Word)
    ensures And(w, 0xffff_f000_0000_0000) == w / 0x1000_0000_0000 * 0x1000_0000_0000
  {
    hide And;
    LargePowers();
    FieldOfWord(w, 20, 44);
  }

  /** (satp & 0xfffff00000000000) | (address >> 12): a new root under the old mode and ASID. */
  function SatpFor(satp: Word, address: Word): (r: Word)
    requires address / 4096 < 0x1000_0000_0000
    ensures r / 0x1000_0000_0000 == satp / 0x1000_0000_0000
    ensures r % 0x1000_0000_0000 == address / 4096
  {
    MaskTop(satp);
    LargePowers();
    OrAdds(satp / 0x1000_0000_0000, address / 4096, 44);
    Or(And(satp, 0xffff_f000_0000_0000), address / 4096)
  }

  /** The upper 20 bits and the page number determine satp. */
  lemma SatpIs(satp: Word, address: Word, r: Word)
    requires address / 4096 < 0x1000_0000_0000
    requires r / 0x1000_0000_0000 == satp / 0x1000_0000_0000 && r % 0x1000_0000_0000 == address / 4096
    ensures r == SatpFor(satp, address)
  {
    hide And;
    hide Or;
  }

  lemma {:induction false} HighOfSmall(w: nat, k: nat)
    requires w < Pow2(k)
    ensures High(w, k) == 0
  {
    if k > 0 {
      HighOfSmall(w / 2, k - 1);
    }
  }

  lemma AllOnes62(v: nat)
    requires v < 0x4000_0000_0000_0000
    ensures And(v, 0x3fff_ffff_ffff_ffff) == v
  {
    hide And;
    PowersMultiply(30, 30);
    PowersMultiply(60, 2);
    SmallPowers();
    LargePowers();
    assert Pow2(2) == 4;
    AndLowOnes(v, 62);
    SplitBits(v, 62);
    HighOfSmall(v, 62);
  }

  lemma ClearBitOne(w: Word)
    ensures And(w, 0xffff_ffff_ffff_fffd) == w / 4 * 4 + w % 2
  {
    hide And;
    var m := 0x7fff_ffff_ffff_fffe;
    AndStep(w, 0xffff_ffff_ffff_fffd);
    AndStep(w / 2, m);
    AllOnes62(w / 2 / 2);
  }

  /** sstatus & (~(1UL << 1)) */
  function ClearSie(sstatus: Word): (r: Word)
    ensures r / 2 % 2 == 0 && r / 4 == sstatus / 4 && r % 2 == sstatus % 2
  {
    ClearBitOne(sstatus);
    And(sstatus, 0xffff_ffff_ffff_fffd)
  }

  /** satp | (8UL << 60) | (address >> 12), from zero. */
  function SatpFirst(address: Word): (r: Word)
    ensures r / 0x1000_0000_0000_0000 == 8 && r % 0x1000_0000_0000_0000 == address / 4096
  {
    LargePowers();
    PowersMultiply(30, 30);
    OrAdds(8, address / 4096, 60);
    Or(Or(0, 0x8000_0000_0000_0000), address / 4096)
  }

  /** Bits 63..39 of an Sv39 address must all equal bit 38. */
  predicate Canonical(va: Word) {
    va < 0x40_0000_0000 || va >= 0xffff_ffc0_0000_0000
  }

  /** A canonical address is determined by its path and page offset. */
  lemma CanonicalAddress(va: Word)
    requires Canonical(va)
    ensures va == AddressOfPath(PathOf(va)) + va % 4096
  {
    hide *;
    JoinFields(va);
    var t, h := PathOf(va), va / 0x4000_0000;
    PathFields(va);
    TopOfCanonical(va);
    assert h * 0x4000_0000 == t.i2 * 0x4000_0000 + (if t.i2 >= 256 then 0xffff_ff80_0000_0000 else 0);
    assert AddressOfPath(t) == h * 0x4000_0000 + t.i1 * 0x20_0000 + t.i0 * 4096;
  }

  lemma TopOfCanonical(va: Word)
    requires Canonical(va)
    ensures var h := va / 0x4000_0000; h == h % 512 + (if h % 512 >= 256 then 0x3_ffff_fe00 else 0)
  {
    var h := va / 0x4000_0000;
    if va >= 0xffff_ffc0_0000_0000 {
      assert 0x3_ffff_ff00 <= h < 0x4_0000_0000;
    } else {
      assert h < 256;
    }
  }
}
