/**
 kernel/mem.cpp: the memory manager, which owns physical memory and the page pool
 and builds page tables in place.

 The field phys is the ghost reading of that memory: the same pages, the role of
 every allocated page, and the roots of the address spaces.
 */
module MemoryManagers {
  import opened Words
  import opened Sv39Bits
  import opened Bitmaps
  import AddressPools
  import opened PhysicalMemories
  import opened PageTables
  import opened Mappings
  import opened AddressSpaces
  import opened BootMaps

  const KERNEL_SIZE: nat := 0x10_0000
  const PAGE_SIZE: nat := 4096

  /** The n page numbers from start on. */
  function PageRun(start: nat, n: nat): (r: set<nat>)
    ensures |r| == n
    ensures forall p {:trigger p in r} :: p in r <==> start <= p < start + n
  {
    if n == 0 then {} else PageRun(start, n - 1) + {start + n - 1}
  }

  function Ceil(dividend: nat, divisor: nat): nat
    requires divisor > 0
  {
    (dividend + divisor - 1) / divisor
  }

  /** The allocator hands out the pages p .. p + amount - 1. */
  function TakeRun(s: Phys, p: nat, amount: nat): Phys {
    s.(own := s.own + (map q | q in PageRun(p, amount) :: Loose))
  }

  /** The bits of the pool's bitmap are the pages that have a role. */
  ghost predicate BitsAreRoles(bytes: seq<bv8>, own: map<nat, Role>) {
    && |bytes| * 8 >= 0x7eff
    && (forall p :: p in own ==> 0x8_0101 <= p < 0x8_8000)
    && (forall i {:trigger BitAt(bytes, i)} :: 0 <= i < 0x7eff ==> (BitAt(bytes, i) <==> 0x8_0101 + i in own))
  }

  /** A search for one page fails exactly when all pages of the pool have a role. */
  lemma OnePageLeft(bytes: seq<bv8>, own: map<nat, Role>, r: Word)
    requires BitsAreRoles(bytes, own) && FirstFit(bytes, 0x7eff, 1, r)
    ensures |own| <= 0x7eff && (r == NONE <==> |own| == 0x7eff)
  {
    hide BitsAreRoles;
    hide FirstFit;
    hide PageRun;
    OwnInPool(bytes, own);
    var all := PageRun(0x8_0101, 0x7eff);
    SubsetSize(own.Keys, all);
    if r == NONE {
      forall p | p in all ensures p in own {
        NoneFree(bytes, own, p);
      }
      assert own.Keys == all;
    } else {
      OneFree(bytes, own, r);
      assert 0x8_0101 + r in all && 0x8_0101 + r !in own;
    }
  }

  lemma OwnInPool(bytes: seq<bv8>, own: map<nat, Role>)
    requires BitsAreRoles(bytes, own)
    ensures own.Keys <= PageRun(0x8_0101, 0x7eff)
  {
    hide PageRun;
  }

  lemma NoneFree(bytes: seq<bv8>, own: map<nat, Role>, p: nat)
    requires BitsAreRoles(bytes, own) && FirstFit(bytes, 0x7eff, 1, NONE) && 0x8_0101 <= p < 0x8_8000
    ensures p in own
  {
    assert !RunFree(bytes, p - 0x8_0101, 1);
    assert BitAt(bytes, p - 0x8_0101);
  }

  lemma OneFree(bytes: seq<bv8>, own: map<nat, Role>, r: Word)
    requires BitsAreRoles(bytes, own) && FirstFit(bytes, 0x7eff, 1, r) && r != NONE
    ensures r < 0x7eff && 0x8_0101 + r !in own
  {
    assert !BitAt(bytes, r);
  }

  lemma NothingUsed(s: Phys)
    requires s.own == map[] && s.roots == map[]
    ensures Used(s) == 0
    ensures forall p: nat {:trigger Take(s, p)} :: Take(s, p).own.Keys == {p} && Take(s, p).mem == s.mem
    ensures Shaped(s.mem) ==> forall p: nat {:trigger Take(s, p)} :: IsPage(p) ==>
              var s' := Fill(Take(s, p), p, Zeros(512));
              s'.own.Keys == {p} && Shaped(s'.mem) && PageAt(s'.mem, p) == Zeros(512)
  {
  }

  lemma FirstPage(s: Phys, p: nat)
    requires Shaped(s.mem) && IsPage(p) && PageAt(s.mem, p) == Zeros(512)
    ensures var b := Phys(s.mem, map[p := Root(Boot)], map[Boot := p]);
      && BootOnly(b, p * 4096) && Used(b) == 1 && Footprint(b, Boot) == {Root(Boot)} && b.own.Keys == {p}
      && forall t: Path {:trigger LeafAt(b, Boot, t)} :: t.InRange() ==> LeafAt(b, Boot, t) == 0
  {
    hide WellFormed;
    hide LeafAt;
    ClearedPage(s.mem, p);
    EmptyBootTable(s.mem, p);
    var b := Phys(s.mem, map[p := Root(Boot)], map[Boot := p]);
    assert b.own[p] == Root(Boot);
  }

  lemma EntryAddress(table: nat, i: nat)
    requires table % 4096 == 0 && i < 512
    ensures (table + 8 * i) / 4096 == table / 4096 && (table + 8 * i) % 4096 / 8 == i && (table + 8 * i) % 8 == 0
  {
    QuotientIs(table + 8 * i, 4096, table / 4096, 8 * i);
  }

  lemma ExtendRoot(s: Phys, a: Space, i2: nat)
    requires WellFormed(s) && MayExtend(s, a, i2)
    ensures Shaped(s.mem) && RootsFit(s) && a in s.roots && IsPage(s.roots[a]) && s.roots[a] in s.own && Half(a, i2)
    ensures i2 < 512
  {
    hide RootEntriesFit;
    hide KernelShared;
    hide L1EntriesFit;
    hide L0EntriesFit;
    hide AllReached;
  }

  lemma HasL1Page(s: Phys, a: Space, i2: nat)
    requires RootsFit(s) && HasL1(s, a, i2)
    ensures IsPage(Table1(s, a, i2)) && Table1(s, a, i2) in s.own
  {
    hide Table1;
  }

  lemma ValidBit(e: Word)
    ensures HasV(e) <==> V(e)
  {
    hide And;
  }

  lemma LinkL1Is(s: Phys, a: Space, i2: nat, p: nat)
    requires Shaped(s.mem) && RootsFit(s) && a in s.roots && i2 < 512 && IsPage(p)
    ensures var s1 := Zeroed(s, p);
      && Shaped(s1.mem) && s1.own == s.own[p := Loose] && s1.roots == s.roots && IsPage(s.roots[a])
      && LinkL1(s1, a, i2, p) == s.(mem := SetEntry(s1.mem, s.roots[a], i2, TableEntry(p)),
                                     own := s.own[p := L1(a, i2)])
  {
  }

  lemma LinkL0Is(s: Phys, a: Space, i2: nat, i1: nat, p: nat)
    requires WellFormed(s) && p !in s.own && HasL1(s, a, i2) && a in s.roots && i2 < 512 && i1 < 512 && IsPage(p)
    ensures var s1 := Zeroed(s, p);
      && Shaped(s1.mem) && s1.own == s.own[p := Loose] && IsPage(Table1(s, a, i2))
      && Table1(s1, a, i2) == Table1(s, a, i2)
      && LinkL0(s1, a, i2, i1, p) ==
           s.(mem := SetEntry(s1.mem, Table1(s, a, i2), i1, TableEntry(p)), own := s.own[p := L0(a, i2, i1)])
  {
    hide Table1;
    hide WellFormed;
    Basics(s);
    ZeroedKeeps(s, p);
  }

  class MemoryManager {
    const mem: PhysicalMemory
    const pool: AddressPools.AddressPool
    var l2PageTable: Word
    ghost var phys: Phys

    /** Everything a method of this class may change. */
    ghost function Footprint(): set<object> {
      {this, mem, mem.words, pool.resources.bitmap}
    }

    ghost predicate Valid()
      reads this, mem, mem.words, pool.resources.bitmap
    {
      && mem.Valid() && pool.Valid()
      && pool.startAddress == 0x8010_1000 && pool.resources.length == 0x7eff
      && phys.mem == mem.pages
      && (mem.words as object) != pool.resources.bitmap
      && BitsAreRoles(pool.resources.bitmap[..], phys.own)
    }

    /**
     init_physical_space: the pool starts behind the kernel image and the bitmap and
     runs to the end of DRAM; every page of it is free.
     */
    constructor (words: array<Word>, bitmap: array<bv8>)
      requires words.Length == 0x100_0000 && bitmap.Length == 4064 && (words as object) != bitmap
      modifies bitmap
      ensures Valid() && fresh(Footprint() - {words, bitmap})
      ensures mem.words == words && pool.resources.bitmap == bitmap && words[..] == old(words[..])
      ensures phys.own == map[] && phys.roots == map[]
      // the pool lies behind the bitmap and ends where DRAM ends
      ensures pool.startAddress >= DRAM_BASE + KERNEL_SIZE + bitmap.Length
      ensures pool.startAddress + 4096 * pool.resources.length == DRAM_BASE + MEMORY_SIZE
    {
      var totalMemory := MEMORY_SIZE;
      var usedMemory := KERNEL_SIZE;
      var freeMemory := totalMemory - usedMemory;
      var freePages := freeMemory / PAGE_SIZE;
      var bitmapBytes := Ceil(freePages, 8);
      freeMemory := totalMemory - Ceil(usedMemory + bitmapBytes, PAGE_SIZE) * PAGE_SIZE;
      freePages := freeMemory / PAGE_SIZE;
      var start := DRAM_BASE + Ceil(usedMemory + bitmapBytes, PAGE_SIZE) * PAGE_SIZE;
      assert bitmapBytes == 4064 && start == 0x8010_1000 && freePages == 0x7eff;
      pool := new AddressPools.AddressPool(bitmap, freePages, start);
      mem := new PhysicalMemory(words);
      l2PageTable := 0;
      new;
      phys := Phys(mem.pages, map[], map[]);
    }

    method AllocatePhysicalPages(amount: nat) returns (r: Word)
      requires Valid()
      modifies pool.resources.bitmap, this`phys
      ensures Valid() && r != NONE
      ensures r == 0 ==> phys == old(phys) && FirstFit(old(pool.resources.bitmap[..]), 0x7eff, amount, NONE)
      ensures r != 0 ==>
                && r % 4096 == 0 && amount > 0 && 0x8_0101 <= r / 4096 && r / 4096 + amount <= 0x8_8000
                && FirstFit(old(pool.resources.bitmap[..]), 0x7eff, amount, r / 4096 - 0x8_0101)
                && (forall q :: r / 4096 <= q < r / 4096 + amount ==> q !in old(phys.own))
                && phys == TakeRun(old(phys), r / 4096, amount)
    {
      var start := pool.Allocate(amount);
      if start != NONE {
        ghost var p := start / 4096;
        phys := TakeRun(phys, p, amount);
        assert (start - 0x8010_1000) / 4096 == p - 0x8_0101;
        ghost var before, after := old(pool.resources.bitmap[..]), pool.resources.bitmap[..];
        forall i | 0 <= i < 0x7eff ensures BitAt(after, i) <==> 0x8_0101 + i in phys.own {
          assert BitAt(after, i) == if p - 0x8_0101 <= i < p - 0x8_0101 + amount then true else BitAt(before, i);
        }
        forall q | p <= q < p + amount ensures q !in old(phys.own) {
          assert !BitAt(before, q - 0x8_0101);
        }
      }
      r := if start == NONE then 0 else start;
    }

    /** allocate_physical_pages(1): a page nobody holds, or 0 exactly when every page is taken. */
    method AllocatePage() returns (r: Word)
      requires Valid()
      modifies pool.resources.bitmap, this`phys
      ensures Valid() && r != NONE
      ensures r == 0 <==> old(Used(phys)) == 0x7eff
      ensures r == 0 ==> phys == old(phys)
      ensures r != 0 ==> r % 4096 == 0 && IsPage(r / 4096) && r / 4096 !in old(phys.own)
      ensures r != 0 ==> phys == Take(old(phys), r / 4096)
      ensures old(Used(phys)) <= 0x7eff
    {
      ghost var bits := pool.resources.bitmap[..];
      r := AllocatePhysicalPages(1);
      OnePageLeft(bits, old(phys.own), if r == 0 then NONE else r / 4096 - 0x8_0101);
      if r != 0 {
        assert phys.own == old(phys.own)[r / 4096 := Loose];
      }
    }

    /** memset((void *)address, 0, PAGE_SIZE) */
    method ClearPage(address: Word)
      requires Valid() && address % 4096 == 0 && IsPage(address / 4096)
      modifies mem, mem.words, this`phys
      ensures Valid() && phys == Fill(old(phys), address / 4096, Zeros(512))
    {
      ghost var p, was := address / 4096, mem.pages;
      ghost var zeroed := Fill(phys, p, Zeros(512));
      mem.MemSet(address, 0, PAGE_SIZE);
      forall o: nat | o < 4096 ensures PageByte(mem.pages, p, o) == PageByte(zeroed.mem, p, o) {
        ZeroBytes(zeroed.mem, p, o);
      }
      OnePageChanged(was, mem.pages, p, zeroed.mem, p);
      phys := zeroed;
    }

    /** memcpy((void *)src, (void *)dst, PAGE_SIZE) */
    method CopyPage(src: Word, dst: Word)
      requires Valid() && src % 4096 == 0 && IsPage(src / 4096) && dst % 4096 == 0 && IsPage(dst / 4096) && src != dst
      modifies mem, mem.words, this`phys
      ensures Valid() && phys == Fill(old(phys), dst / 4096, PageAt(old(phys.mem), src / 4096))
    {
      hide CopyOrigin;
      hide ByteAt;
      ghost var p, q, was := dst / 4096, src / 4096, mem.pages;
      mem.MemCpy(src, dst, PAGE_SIZE);
      forall o: nat | o < 4096 ensures PageByte(mem.pages, p, o) == PageByte(was, q, o) {
        CopyOriginApart(src, dst, o, PAGE_SIZE);
        assert ByteAt(mem.pages, dst + o) == ByteAt(was, src + o);
      }
      OnePageChanged(was, mem.pages, p, was, q);
      phys := Fill(phys, p, PageAt(was, q));
    }

    /** memcpy of constant bytes to a place inside one page. */
    method CopyIn(bytes: seq<Byte>, from: nat, dst: Word, length: nat)
      requires Valid() && from + length <= |bytes| && IsPage(dst / 4096) && dst % 4096 + length <= 4096
      modifies mem, mem.words, this`phys
      ensures Valid() && Shaped(old(phys.mem)) && Shaped(phys.mem)
      ensures phys == Fill(old(phys), dst / 4096, PageAt(phys.mem, dst / 4096))
      ensures forall o: nat {:trigger PageByte(phys.mem, dst / 4096, o)} :: o < 4096 ==>
                PageByte(phys.mem, dst / 4096, o) ==
                  if dst % 4096 <= o < dst % 4096 + length then bytes[from + (o - dst % 4096)]
                  else PageByte(old(phys.mem), dst / 4096, o)
    {
      ghost var p, was := dst / 4096, mem.pages;
      mem.MemCpyFrom(bytes, from, dst, length);
      InsideOnePage(was, mem.pages, p);
      phys := phys.(mem := mem.pages);
    }

    /** Writes entry i of the table at page p, as the raw assignment pte[i] = w does. */
    method StoreEntry(table: Word, i: nat, w: Word)
      requires Valid() && table % 4096 == 0 && IsPage(table / 4096) && i < 512
      modifies mem, mem.words, this`phys
      ensures Valid() && phys == old(phys).(mem := SetEntry(old(phys.mem), table / 4096, i, w))
    {
      EntryAddress(table, i);
      mem.Store(table + 8 * i, w);
      phys := phys.(mem := mem.pages);
    }

    method LoadEntry(table: Word, i: nat) returns (w: Word)
      requires Valid() && table % 4096 == 0 && IsPage(table / 4096) && i < 512
      ensures w == Entry(phys.mem, table / 4096, i)
    {
      EntryAddress(table, i);
      w := mem.Load(table + 8 * i);
    }

    /** pte[i] = (paddr >> 12) << 10; pte[i] = pte[i] | flags; */
    method StoreTwice(table: Word, i: nat, paddr: Word, flags: Word)
      requires Valid() && table % 4096 == 0 && IsPage(table / 4096) && i < 512 && flags < 1024
      modifies mem, mem.words, this`phys
      ensures Valid()
      ensures phys == old(phys).(mem := SetEntry(old(phys.mem), table / 4096, i, MakePte(paddr, flags)))
    {
      hide And;
      hide Or;
      SetTwice(phys.mem, table / 4096, i, paddr / 4096 * 1024, MakePte(paddr, flags));
      StoreEntry(table, i, paddr / 4096 * 1024);
      var pte := LoadEntry(table, i);
      StoreEntry(table, i, WithFlags(pte, flags));
    }

    /**
     The body of either if of connect_virtual_physical_address: allocate a page, zero it
     and enter it at index i of the given table.
     */
    method HangNewPage(table: Word, i: nat) returns (trapped: bool, ghost p: nat)
      requires Valid() && table % 4096 == 0 && IsPage(table / 4096) && table / 4096 in phys.own && i < 512
      modifies mem, mem.words, pool.resources.bitmap, this`phys
      ensures Valid() && old(Used(phys)) <= 0x7eff
      ensures trapped <==> old(Used(phys)) == 0x7eff
      ensures !trapped ==> p !in old(phys.own) && IsPage(p)
      ensures !trapped ==> phys == old(phys).(
                mem := SetEntry(Zeroed(old(phys), p).mem, table / 4096, i, TableEntry(p)),
                own := old(phys.own)[p := Loose])
    {
      p := 0;
      var newPage := AllocatePage();
      if newPage == NONE {
        assert false; // allocation reports failure as 0, so this test of the source never fires
      }
      if newPage == 0 {
        return true, 0; // memset stores to address 0, which is not mapped
      }
      p := newPage / 4096;
      ClearPage(newPage);
      StoreTwice(table, i, newPage, PTE_V);
      trapped := false;
    }

    /** The first if: make sure entry i2 of the root has a table. */
    method NeedL1(l2: Word, i2: nat, ghost a: Space) returns (trapped: bool)
      requires Valid() && WellFormed(phys) && MayExtend(phys, a, i2) && l2 == phys.roots[a] * 4096
      modifies mem, mem.words, pool.resources.bitmap, this`phys
      ensures Valid() && old(Used(phys)) <= 0x7eff
      ensures trapped <==> old(Table1(phys, a, i2) == 0 && Used(phys) == 0x7eff)
      ensures !trapped ==> Grew(old(phys), phys, a, {L1(a, i2)}) && HasL1(phys, a, i2)
      ensures !trapped ==> Used(phys) == old(Used(phys) + if Table1(phys, a, i2) == 0 then 1 else 0)
      ensures !trapped ==> forall j1: nat {:trigger Table0(phys, a, i2, j1)} :: j1 < 512 ==>
                Table0(phys, a, i2, j1) == old(Table0(phys, a, i2, j1))
    {
      hide *;
      ghost var s := phys;
      ExtendRoot(s, a, i2);
      UsedFits();
      var pte := LoadEntry(l2, i2);
      ValidBit(pte);
      RootEntry(s, a, i2);
      trapped := false;
      if !HasV(pte) {
        ghost var p;
        trapped, p := HangNewPage(l2, i2);
        if !trapped {
          GrowL1(s, a, i2, p);
          LinkL1Is(s, a, i2, p);
          Relabel(LinkL1(Zeroed(s, p), a, i2, p));
        }
      } else {
        GrewNot(s, a, {L1(a, i2)});
      }
    }

    /** The second if: make sure entry i1 of the level-1 table has a table. */
    method NeedL0(l1: Word, i1: nat, ghost a: Space, ghost i2: nat) returns (trapped: bool)
      requires Valid() && WellFormed(phys) && MayExtend(phys, a, i2) && HasL1(phys, a, i2) && i1 < 512
      requires l1 == Table1(phys, a, i2) * 4096
      modifies mem, mem.words, pool.resources.bitmap, this`phys
      ensures Valid() && old(Used(phys)) <= 0x7eff
      ensures trapped <==> old(Table0(phys, a, i2, i1) == 0 && Used(phys) == 0x7eff)
      ensures !trapped ==> Grew(old(phys), phys, a, {L0(a, i2, i1)}) && HasL0(phys, a, i2, i1)
      ensures !trapped ==> Used(phys) == old(Used(phys) + if Table0(phys, a, i2, i1) == 0 then 1 else 0)
      ensures !trapped ==> Table1(phys, a, i2) == old(Table1(phys, a, i2))
    {
      hide *;
      ghost var s := phys;
      ExtendRoot(s, a, i2);
      HasL1Page(s, a, i2);
      UsedFits();
      var pte := LoadEntry(l1, i1);
      ValidBit(pte);
      L1Entry(s, a, i2, i1);
      trapped := false;
      if !HasV(pte) {
        ghost var p;
        trapped, p := HangNewPage(l1, i1);
        if !trapped {
          LinkL0Is(s, a, i2, i1, p);
          GrowL0(s, a, i2, i1, p);
          Relabel(LinkL0(Zeroed(s, p), a, i2, i1, p));
        }
      } else {
        GrewNot(s, a, {L0(a, i2, i1)});
      }
    }

    /** Gives allocated pages other roles. */
    ghost method Relabel(s: Phys)
      requires Valid() && s.mem == phys.mem && s.own.Keys == phys.own.Keys
      modifies this`phys
      ensures Valid() && phys == s
    {
      phys := s;
    }

    lemma MemShaped()
      requires Valid()
      ensures Shaped(phys.mem)
    {
    }

    lemma UsedFits()
      requires Valid()
      ensures Used(phys) <= 0x7eff
    {
      hide BitsAreRoles;
      hide PageRun;
      OwnInPool(pool.resources.bitmap[..], phys.own);
      SubsetSize(phys.own.Keys, PageRun(0x8_0101, 0x7eff));
    }

    /** The last two statements: write the leaf. */
    method StoreLeaf(l0: Word, i0: nat, paddr: Word, flags: Word, ghost a: Space, ghost t: Path)
      requires Valid() && flags < 1024 && CanSetLeaf(phys, a, t, MakePte(paddr, flags))
      requires l0 == Table0(phys, a, t.i2, t.i1) * 4096 && i0 == t.i0
      modifies mem, mem.words, this`phys
      ensures Valid() && phys == SetLeaf(old(phys), a, t, MakePte(paddr, flags))
    {
      hide WellFormed;
      hide Entry;
      hide Down;
      hide And;
      hide Or;
      ghost var s := phys;
      Basics(s);
      SetLeafPages(s, a, t, MakePte(paddr, flags));
      StoreTwice(l0, i0, paddr, flags);
      Relabel(SetLeaf(s, a, t, MakePte(paddr, flags)));
    }

    /** The way down from the root, making the tables that are missing; l0 is the level-0 table. */
    method FollowTables(l2: Word, i2: nat, i1: nat, ghost a: Space, ghost t: Path) returns (trapped: bool, l0: Word)
      requires Valid() && WellFormed(phys) && t.InRange() && i2 == t.i2 && i1 == t.i1
      requires MayExtend(phys, a, i2) && l2 == phys.roots[a] * 4096
      modifies mem, mem.words, pool.resources.bitmap, this`phys
      ensures Valid()
      ensures trapped <==> old(Used(phys)) + Missing(old(phys), a, t) > 0x7eff
      ensures !trapped ==> Grew(old(phys), phys, a, {L1(a, i2), L0(a, i2, i1)}) && HasL0(phys, a, i2, i1)
      ensures !trapped ==> Used(phys) == old(Used(phys)) + Missing(old(phys), a, t)
      ensures !trapped ==> l0 == Table0(phys, a, i2, i1) * 4096
    {
      hide *;
      ghost var s := phys;
      l0 := 0;
      ExtendRange(s, a, t);
      WalkMeets(s, a, t);
      MissingIs(s, a, t);
      trapped := NeedL1(l2, i2, a);
      if trapped {
        return;
      }
      ghost var s1 := phys;
      GrewMayExtend(s, s1, a, {L1(a, i2)}, i2);
      var pte := LoadEntry(l2, i2);
      RootEntry(s1, a, i2);
      TargetOf(pte, Table1(s1, a, i2));
      trapped := NeedL0(ShiftTarget(pte), i1, a, i2);
      if trapped {
        return;
      }
      GrewKeepsL1(s1, phys, a, {L0(a, i2, i1)}, i2);
      GrewMayExtend(s1, phys, a, {L0(a, i2, i1)}, i2);
      pte := LoadEntry(ShiftTarget(pte), i1);
      L1Entry(phys, a, i2, i1);
      TargetOf(pte, Table0(phys, a, i2, i1));
      GrownTwice(s, s1, phys, a, t);
      l0 := ShiftTarget(pte);
    }

    /**
     Maps the page of vaddr to the page of paddr with the given flags in the space a whose
     root is at l2.  The call traps, and the kernel stops, exactly when the tables that are
     missing on the way are more than the pages left.
     */
    method ConnectVirtualPhysicalAddress(l2: Word, paddr: Word, vaddr: Word, flags: Word, ghost a: Space)
      returns (trapped: bool)
      requires Valid() && WellFormed(phys)
      requires MayExtend(phys, a, L2Index(vaddr)) && l2 == phys.roots[a] * 4096
      requires flags < 1024
      requires Used(phys) + Missing(phys, a, PathOf(vaddr)) <= 0x7eff ==> MayHold(phys, a, MakePte(paddr, flags))
      modifies mem, mem.words, pool.resources.bitmap, this`phys
      ensures Valid()
      ensures trapped <==> old(Used(phys)) + Missing(old(phys), a, PathOf(vaddr)) > 0x7eff
      ensures !trapped ==> Connected(old(phys), phys, a, PathOf(vaddr), MakePte(paddr, flags))
    {
      hide *;
      ghost var s, t, pte := phys, PathOf(vaddr), MakePte(paddr, flags);
      PathFields(vaddr);
      var i2, i1, i0 := L2Index(vaddr), L1Index(vaddr), L0Index(vaddr);
      var l0;
      trapped, l0 := FollowTables(l2, i2, i1, a, t);
      if !trapped {
        ghost var s1 := phys;
        GrownHolds(s, s1, a, t, pte);
        StoreLeaf(l0, i0, paddr, flags, a, t);
        GrownThenSet(s, s1, a, t, pte);
      }
    }

    /** One round of the inner loop of open_page_mechanism: map the page at current to itself. */
    method MapToItself(current: Word, ghost s: Phys, ghost lo: nat) returns (trapped: bool)
      requires Valid() && BootOnly(phys, l2PageTable) && current % 4096 == 0 && lo <= current / 4096 < 0x800_0000
      requires IdentityBetween(s, phys, lo, current / 4096) && TablesAdded(s, phys, PathsBetween(lo, current / 4096))
      modifies mem, mem.words, pool.resources.bitmap, this`phys
      ensures Valid()
      ensures trapped <==> UseWith(s, PathsBetween(lo, current / 4096 + 1)) > 0x7eff
      ensures !trapped ==> BootOnly(phys, l2PageTable) && IdentityBetween(s, phys, lo, current / 4096 + 1)
      ensures !trapped ==> TablesAdded(s, phys, PathsBetween(lo, current / 4096 + 1))
    {
      hide *;
      ghost var v, now := current / 4096, phys;
      MapReady(s, phys, l2PageTable, lo, current);
      trapped := ConnectVirtualPhysicalAddress(l2PageTable, current, current, KERNEL_FLAGS, Boot);
      if !trapped {
        OneMorePage(s, now, phys, lo, v);
        StillBootOnly(now, phys, l2PageTable, PathOf(current), MakePte(current, KERNEL_FLAGS));
        MorePaths(lo, v);
        IdentityLeafIsV(v);
        OneMoreAdded(s, now, phys, PathsBetween(lo, v), PathOf(current), MakePte(current, KERNEL_FLAGS));
      }
    }

    /** The inner loop: map every page of one range to itself. */
    method MapRange(range: Range) returns (trapped: bool)
      requires Valid() && BootOnly(phys, l2PageTable) && range.second <= 0x80_0000_0000
      modifies mem, mem.words, pool.resources.bitmap, this`phys
      ensures Valid()
      ensures trapped <==> UseWith(old(phys), PathsBetween(range.Low(), range.High())) > 0x7eff
      ensures !trapped ==> BootOnly(phys, l2PageTable) && IdentityBetween(old(phys), phys, range.Low(), range.High())
      ensures !trapped ==> TablesAdded(old(phys), phys, PathsBetween(range.Low(), range.High()))
    {
      hide Valid;
      hide BootOnly;
      hide IdentityBetween;
      hide UseWith;
      hide AddressSpaces.Footprint;
      hide TablesFor;
      hide PathsBetween;
      ghost var s, lo := phys, range.Low();
      var current := PageStart(range.first);
      StartOfRange(s, l2PageTable, lo);
      while current < range.second
        invariant current % 4096 == 0 && lo <= current / 4096
        invariant current / 4096 <= range.High() || current / 4096 == lo
        invariant Valid() && BootOnly(phys, l2PageTable) && IdentityBetween(s, phys, lo, current / 4096)
        invariant TablesAdded(s, phys, PathsBetween(lo, current / 4096))
        decreases range.second - current
      {
        FewerPaths(s, lo, current / 4096 + 1, range.High());
        trapped := MapToItself(current, s, lo);
        if trapped {
          return;
        }
        current := current + PAGE_SIZE;
      }
      RangeEnds(s, phys, lo, current / 4096, range.High());
      UsedFits();
      trapped := false;
    }

    /**
     open_page_mechanism: identity maps for all ranges, then satp.  The returned word is the
     value written to satp: mode 8 and the page number of the boot table.
     */
    method OpenPageMechanism(address: seq<Range>) returns (trapped: bool, satp: Word)
      requires Valid() && BootOnly(phys, l2PageTable)
      requires forall k :: 0 <= k < |address| ==> address[k].second <= 0x80_0000_0000
      modifies mem, mem.words, pool.resources.bitmap, this`phys
      ensures Valid()
      ensures trapped <==> UseWith(old(phys), PathsOf(address)) > 0x7eff
      ensures !trapped ==> BootOnly(phys, l2PageTable) && IdentityOn(old(phys), phys, address)
      ensures !trapped ==> TablesAdded(old(phys), phys, PathsOf(address))
      ensures !trapped ==> satp / 0x1000_0000_0000_0000 == 8 && satp % 0x1000_0000_0000_0000 == l2PageTable / 4096
    {
      hide Valid;
      hide WellFormed;
      hide LeafAt;
      hide And;
      hide Or;
      hide UseWith;
      hide AddressSpaces.Footprint;
      hide TablesFor;
      hide PathsOf;
      hide PathsBetween;
      hide TablesAdded;
      satp := 0;
      ghost var s := phys;
      var i := 0;
      NoRangeYet(s, address);
      while i < |address|
        invariant 0 <= i <= |address| && Valid() && BootOnly(phys, l2PageTable) && IdentityOn(s, phys, address[..i])
        invariant TablesAdded(s, phys, PathsOf(address[..i]))
      {
        ghost var now := phys;
        RangeAdds(s, phys, address, i);
        trapped := MapRange(address[i]);
        if trapped {
          return;
        }
        OneMoreRange(s, now, phys, address, i);
        i := i + 1;
      }
      assert address[..i] == address;
      UsedFits();
      AddedUse(s, phys, PathsOf(address));
      satp := SatpFirst(l2PageTable);
      trapped := false;
    }

    /** The first lines of initialize: an empty boot table. */
    method MakeBootTable()
      requires Valid() && phys.own == map[] && phys.roots == map[]
      modifies this, mem, mem.words, pool.resources.bitmap
      ensures Valid() && BootOnly(phys, l2PageTable)
      ensures Used(phys) == 1 && AddressSpaces.Footprint(phys, Boot) == {Root(Boot)}
      ensures forall t: Path {:trigger LeafAt(phys, Boot, t)} :: t.InRange() ==> LeafAt(phys, Boot, t) == 0
    {
      hide *;
      MemShaped();
      NothingUsed(phys);
      var table := AllocatePage();
      SetRoot(table);
      ClearPage(table);
      FirstPage(phys, table / 4096);
      Relabel(Phys(phys.mem, map[table / 4096 := Root(Boot)], map[Boot := table / 4096]));
    }

    /**
     initialize, after init_physical_space: the boot table, and identity maps of the CLINT,
     the UART and all of DRAM.  Boot never runs out of pages, and maps nothing else.
     */
    method Initialize() returns (satp: Word)
      requires Valid() && phys.own == map[] && phys.roots == map[]
      modifies this, mem, mem.words, pool.resources.bitmap
      ensures Valid() && BootOnly(phys, l2PageTable)
      ensures forall t: Path {:trigger LeafAt(phys, Boot, t)} :: t.InRange() ==>
                LeafAt(phys, Boot, t) == if Covered(BootRanges(), Vpn(t)) then IdentityLeaf(Vpn(t)) else 0
      ensures Used(phys) == 69
      ensures AddressSpaces.Footprint(phys, Boot) == {Root(Boot)} + TablesFor(Boot, PathsOf(BootRanges()))
      ensures satp / 0x1000_0000_0000_0000 == 8 && satp % 0x1000_0000_0000_0000 == l2PageTable / 4096
    {
      hide Valid;
      hide BootOnly;
      hide LeafAt;
      hide Covered;
      hide WellFormed;
      hide TablesFor;
      hide AddressSpaces.Footprint;
      hide PathsOf;
      MakeBootTable();
      ghost var s := phys;
      var clint := Range(0x200_0000, 0x200_0000 + 0x1_0000);
      var uart := Range(0x1000_0000, 0x1000_0000 + 0x100);
      var kernel := Range(DRAM_BASE, DRAM_BASE + MEMORY_SIZE);
      var address := [clint, uart, kernel];
      assert address == BootRanges();
      BootCost();
      NoRoot(PathsOf(address));
      var trapped;
      trapped, satp := OpenPageMechanism(address);
      assert !trapped;
    }

    /** An assignment to l2_page_table. */
    method SetRoot(table: Word)
      requires Valid()
      modifies this`l2PageTable
      ensures Valid() && l2PageTable == table
    {
      l2PageTable := table;
    }

    /** Page p, which the allocator has handed out, becomes the root of the new space a. */
    ghost method AdoptRoot(a: Space, p: nat)
      requires Valid() && p in phys.own
      modifies this`phys
      ensures Valid() && phys == NewRoot(old(phys), a, p)
    {
      phys := NewRoot(phys, a, p);
    }

    // ------------------------------------------------- the read-only walker

    function L2PtePointer(va: Word): nat
      reads this
    {
      l2PageTable + 8 * L2Index(va)
    }

    /** *p, where p points to entry i of the page table at page number table. */
    method Deref(p: nat, ghost table: nat, ghost i: nat) returns (w: Word)
      requires Valid() && IsPage(table) && i < 512 && p == table * 4096 + 8 * i
      ensures w == Entry(phys.mem, table, i)
    {
      assert p / 4096 == table && p % 4096 / 8 == i && p % 8 == 0;
      w := mem.Load(p);
    }

    /** Follows the level-2 entry of va by masking. */
    method L1PtePointer(va: Word, ghost a: Space) returns (p: nat)
      requires Valid() && WellFormed(phys) && a in phys.roots && l2PageTable == phys.roots[a] * 4096
      requires Table1(phys, a, L2Index(va)) != 0
      ensures p == Table1(phys, a, L2Index(va)) * 4096 + 8 * L1Index(va)
    {
      hide *;
      WalkEntries(phys, a, PathOf(va));
      PathFields(va);
      L2PointerValue(va);
      var pte := Deref(L2PtePointer(va), phys.roots[a], L2Index(va));
      p := MaskTarget(pte) + 8 * L1Index(va);
    }

    lemma L2PointerValue(va: Word)
      ensures L2PtePointer(va) == l2PageTable + 8 * L2Index(va)
    {
    }

    /** Follows the level-1 entry of va by masking. */
    method L0PtePointer(va: Word, ghost a: Space) returns (p: nat)
      requires Valid() && WellFormed(phys) && a in phys.roots && l2PageTable == phys.roots[a] * 4096
      requires Table0(phys, a, L2Index(va), L1Index(va)) != 0
      ensures p == Table0(phys, a, L2Index(va), L1Index(va)) * 4096 + 8 * L0Index(va)
    {
      hide *;
      WalkEntries(phys, a, PathOf(va));
      PathFields(va);
      var q := L1PtePointer(va, a);
      var pte := Deref(q, Table1(phys, a, L2Index(va)), L1Index(va));
      p := MaskTarget(pte) + 8 * L0Index(va);
    }

    /**
     vaddr2paddr: on an address that is mapped in the space a whose root is installed, the
     masked walker ends in the page and offset that connect_virtual_physical_address entered.
     */
    method Vaddr2Paddr(va: Word, ghost a: Space) returns (paddr: Word)
      requires Valid() && WellFormed(phys) && a in phys.roots && l2PageTable == phys.roots[a] * 4096
      requires Mapped(phys, a, PathOf(va))
      ensures paddr == PhysicalAddress(phys, a, va)
    {
      hide *;
      WalkEntries(phys, a, PathOf(va));
      PathFields(va);
      LeafEntry(phys, a, PathOf(va));
      var p := L0PtePointer(va, a);
      var pte := Deref(p, Table0(phys, a, L2Index(va), L1Index(va)), L0Index(va));
      paddr := WithOffset(MaskTarget(pte), va);
      PhysicalAddressIs(phys, a, va);
    }
  }
}
