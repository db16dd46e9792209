/**
 The parts of kernel/process.cpp that build and copy address spaces.
 */
module ProcessMemory {
  import opened Words
  import opened Sv39Bits
  import opened Bitmaps
  import opened PhysicalMemories
  import opened PageTables
  import opened Mappings
  import opened BootMaps
  import opened AddressSpaces
  import opened Copying
  import opened MemoryManagers

  const USER_SPACE_BASE: Word := 0xffff_ffc0_0000_0000
  const USER_SPACE_END: Word := 0xffff_ffff_ffff_f000

  /** The space whose root the memory manager uses as its template. */
  ghost predicate Template(s: Phys, l2: Word, b: Space) {
    WellFormed(s) && b in s.roots && l2 == s.roots[b] * 4096
  }

  /** Page p, zeroed, with the first n kernel entries copied into it. */
  ghost predicate PartRoot(s: Phys, s': Phys, b: Space, p: nat, n: nat) {
    && b in s.roots && Shaped(s.mem) && IsPage(p) && n <= 256
    && Shaped(s'.mem) && KernelEntries(s, b, PageAt(s'.mem, p), n)
    && s' == Fill(Take(s, p), p, PageAt(s'.mem, p))
  }

  lemma PartRootStarts(s: Phys, b: Space, p: nat)
    requires WellFormed(s) && b in s.roots && IsPage(p)
    ensures PartRoot(s, Fill(Take(s, p), p, Zeros(512)), b, p, 0)
  {
  }

  lemma PartRootGrows(s: Phys, s': Phys, b: Space, p: nat, n: nat)
    requires WellFormed(s) && b in s.roots && p !in s.own && PartRoot(s, s', b, p, n) && n < 256
    ensures Entry(s'.mem, s.roots[b], n) == Entry(s.mem, s.roots[b], n)
    ensures PartRoot(s, s'.(mem := SetEntry(s'.mem, p, n, Entry(s'.mem, s.roots[b], n))), b, p, n + 1)
  {
    hide WellFormed;
    Basics(s);
    var w := Entry(s'.mem, s.roots[b], n);
    SetEntryIsFill(s', p, n, w);
    FillTwice(Take(s, p), p, PageAt(s'.mem, p), PageAt(s'.mem, p)[n := w]);
  }

  /** The inner loop of create_process_l2_page_table over one range of addresses. */
  method CopyKernelEntries(mm: MemoryManager, table: Word, first: nat, second: nat, ghost s: Phys, ghost b: Space)
    requires mm.Valid() && Template(s, mm.l2PageTable, b)
    requires first % 0x4000_0000 == 0 && second % 0x4000_0000 == 0 && first <= second <= 256 * 0x4000_0000
    requires table % 4096 == 0 && IsPage(table / 4096) && table / 4096 !in s.own
    requires PartRoot(s, mm.phys, b, table / 4096, first / 0x4000_0000)
    modifies mm.mem, mm.mem.words, mm`phys
    ensures mm.Valid() && PartRoot(s, mm.phys, b, table / 4096, second / 0x4000_0000)
  {
    hide *;
    TemplatePage(s, mm.l2PageTable, b);
    var addr := first;
    while addr < second
      invariant first <= addr <= second && addr % 0x4000_0000 == 0
      invariant mm.Valid() && PartRoot(s, mm.phys, b, table / 4096, addr / 0x4000_0000)
    {
      RootIndex(addr);
      PartRootGrows(s, mm.phys, b, table / 4096, addr / 0x4000_0000);
      mm.L2PointerValue(addr);
      var entry := mm.Deref(mm.L2PtePointer(addr), s.roots[b], L2Index(addr));
      mm.StoreEntry(table, L2Index(addr), entry);
      addr := addr + 0x4000_0000;
    }
  }

  lemma TemplatePage(s: Phys, l2: Word, b: Space)
    requires Template(s, l2, b)
    ensures WellFormed(s) && b in s.roots && IsPage(s.roots[b]) && l2 == s.roots[b] * 4096 && Shaped(s.mem)
  {
  }

  lemma RootIndex(addr: nat)
    requires addr % 0x4000_0000 == 0 && addr < 0x40_0000_0000
    ensures L2Index(addr) == addr / 0x4000_0000 < 256 && (addr + 0x4000_0000) / 0x4000_0000 == addr / 0x4000_0000 + 1
  {
    hide And;
  }

  /** create_process_l2_page_table: traps exactly when no page is left for the root. */
  method CreateProcessL2PageTable(mm: MemoryManager, ghost a: Space, ghost b: Space)
      returns (trapped: bool, table: Word)
    requires mm.Valid() && Template(mm.phys, mm.l2PageTable, b) && a !in mm.phys.roots
    modifies mm.mem, mm.mem.words, mm.pool.resources.bitmap, mm`phys
    ensures mm.Valid()
    ensures trapped <==> old(Used(mm.phys)) == 0x7eff
    ensures !trapped ==> SpaceAdded(old(mm.phys), mm.phys, a) && table == mm.phys.roots[a] * 4096
  {
    hide *;
    ghost var s := mm.phys;
    TemplatePage(s, mm.l2PageTable, b);
    var newPage := mm.AllocatePage();
    if newPage == NONE {
      assert false; // allocation reports failure as 0, so this test of the source never fires
    }
    if newPage == 0 {
      return true, 0; // memset stores to address 0
    }
    mm.ClearPage(newPage);
    ghost var p := newPage / 4096;
    PartRootStarts(s, b, p);
    CopyKernelEntries(mm, newPage, 0, 0x8000_0000, s, b);
    CopyKernelEntries(mm, newPage, 0x8000_0000, 0x40_0000_0000, s, b);
    PartRootDone(s, mm.phys, b, p, a);
    mm.AdoptRoot(a, p);
    return false, newPage;
  }

  lemma PartRootDone(s: Phys, s': Phys, b: Space, p: nat, a: Space)
    requires PartRoot(s, s', b, p, 256) && WellFormed(s) && p !in s.own && a !in s.roots
    ensures p in s'.own && SpaceAdded(s, NewRoot(s', a, p), a) && NewRoot(s', a, p).roots[a] == p
  {
    hide WellFormed;
    hide LeafAt;
    Basics(s);
    NewSpace(s, a, b, p, PageAt(s'.mem, p));
  }

  // --------------------------------------------------------------- copy_process

  /** What copying one page asks of connect_virtual_physical_address. */
  lemma CopyReady(s0: Phys, s: Phys, a: Space, c: Space, t: Path, leaf: Word, page: Word)
    requires CopyState(s0, s, a, c, Vpn(t)) && UserPath(t) && leaf == LeafAt(s0, a, t) && V(leaf)
    requires page % 4096 == 0 && IsPage(page / 4096) && page / 4096 !in s.own
    ensures Shaped(s.mem) && IsPage(leaf / 1024) && MaskTarget(leaf) == leaf / 1024 * 4096 && leaf / 1024 != page / 4096
    ensures LowFlags(leaf) < 1024
    ensures var s2 := CopiedPage(s0, s, a, t, page / 4096);
      && WellFormed(s2) && s2.roots == s0.roots && c in s2.roots
      && MayExtend(s2, c, t.i2) && MayHold(s2, c, MakePte(page, LowFlags(leaf)))
      && Missing(s2, c, t) == Missing(s, c, t) && Used(s2) == Used(s) + 1
  {
    hide *;
    OpenState(s0, s, a, c, Vpn(t));
    LeafEntry(s0, a, t);
    UserPathInRange(t);
    CopyBits(t, leaf, page);
    PageCopied(s0, s, a, c, t, page / 4096);
    TargetOf(leaf, leaf / 1024);
    var s2 := CopiedPage(s0, s, a, t, page / 4096);
    KeptWellFormed(s0, s2, c);
    CopyReads(s0, s, a, c, Vpn(t), t);
    CountMissing(s, c, t);
    CountMissing(s2, c, t);
    CanHold(s2, c, MakePte(page, LowFlags(leaf)));
    MayExtendUser(s2, c, t);
  }

  lemma KeptWellFormed(s: Phys, s': Phys, a: Space)
    requires KeptBut(s, s', a)
    ensures WellFormed(s) && WellFormed(s')
  {
  }

  lemma CopyBits(t: Path, leaf: Word, page: Word)
    requires UserPath(t) && V(leaf) && page % 4096 == 0
    ensures PathOf(AddressOfPath(t)) == t && L2Index(AddressOfPath(t)) == t.i2
    ensures var pte := MakePte(page, LowFlags(leaf)); pte / 1024 == page / 4096 && pte % 1024 == leaf % 1024 && V(pte)
  {
    hide And;
    hide Or;
    hide PathOf;
    hide L2Index;
    hide LowFlags;
    hide MakePte;
    hide AddressOfPath;
    PathOfAddress(t);
    PathFields(AddressOfPath(t));
    SameLowBits(MakePte(page, LowFlags(leaf)), leaf);
  }

  lemma SameLowBits(x: Word, y: Word)
    requires x % 1024 == y % 1024
    ensures V(x) == V(y)
  {
    LowBit(x);
    LowBit(y);
  }

  lemma LowBit(x: nat)
    ensures x % 2 == x % 1024 % 2
  {
    var q, r := x / 1024, x % 1024;
    assert x == 2 * (512 * q) + r;
  }

  /**
   The body of the innermost loop of copy_process: a new page for the child, filled from
   the parent's and mapped at the same address with the same flags.
   */
  method CopyOnePage(mm: MemoryManager, leaf: Word, t: Path, childRoot: Word, ghost s0: Phys, ghost a: Space,
      ghost c: Space)
    returns (trapped: bool, ok: bool)
    requires mm.Valid() && CopyState(s0, mm.phys, a, c, Vpn(t)) && UserPath(t)
    requires leaf == LeafAt(s0, a, t) && V(leaf) && c in s0.roots && childRoot == s0.roots[c] * 4096
    modifies mm.mem, mm.mem.words, mm.pool.resources.bitmap, mm`phys
    ensures mm.Valid()
    ensures !trapped && ok ==> CopyState(s0, mm.phys, a, c, Vpn(t) + 1)
    ensures !trapped && !ok ==> CopyState(s0, mm.phys, a, c, Vpn(t)) && Used(mm.phys) == 0x7eff
    ensures !trapped && !ok <==> old(Used(mm.phys)) == 0x7eff
    ensures trapped <==> old(Used(mm.phys)) < 0x7eff < old(Used(mm.phys)) + 1 + Missing(old(mm.phys), c, t)
  {
    hide *;
    ghost var s := mm.phys;
    LeafEntry(s0, a, t);
    var childPage := mm.AllocatePage();
    if childPage == 0 {
      return false, false;
    }
    CopyReady(s0, s, a, c, t, leaf, childPage);
    CopyBits(t, leaf, childPage);
    mm.CopyPage(MaskTarget(leaf), childPage);
    CopiedPageIs(s0, s, a, t, childPage / 4096);
    trapped := mm.ConnectVirtualPhysicalAddress(childRoot, childPage, AddressOfPath(t), LowFlags(leaf), c);
    ok := true;
    if !trapped {
      CopyStep(s0, s, mm.phys, a, c, t, childPage / 4096, MakePte(childPage, LowFlags(leaf)));
    }
  }

  lemma CopiedPageIs(s0: Phys, s: Phys, a: Space, t: Path, p: nat)
    requires Shaped(s.mem) && IsPage(LeafAt(s0, a, t) / 1024) && IsPage(p)
    ensures Take(s, p).mem == s.mem
    ensures CopiedPage(s0, s, a, t, p) == Fill(Take(s, p), p, PageAt(s.mem, LeafAt(s0, a, t) / 1024))
  {
  }

  /** The loop over i0. */
  method CopyL0Table(mm: MemoryManager, l0: Word, i2: nat, i1: nat, childRoot: Word, ghost s0: Phys, ghost a: Space,
      ghost c: Space)
    returns (trapped: bool, ok: bool)
    requires mm.Valid() && 256 <= i2 < 512 && i1 < 512 && CopyState(s0, mm.phys, a, c, i2 * 0x4_0000 + i1 * 512)
    requires Table0(s0, a, i2, i1) != 0 && l0 == Table0(s0, a, i2, i1) * 4096
    requires c in s0.roots && childRoot == s0.roots[c] * 4096
    modifies mm.mem, mm.mem.words, mm.pool.resources.bitmap, mm`phys
    ensures mm.Valid()
    ensures !trapped && ok ==> CopyState(s0, mm.phys, a, c, i2 * 0x4_0000 + (i1 + 1) * 512)
    ensures !trapped && !ok ==> Stuck(s0, mm.phys, a, c)
    ensures !trapped && !ok <==> RunsOut(s0, a, c, i2 * 0x4_0000 + i1 * 512, i2 * 0x4_0000 + (i1 + 1) * 512)
    ensures trapped <==> BreaksOff(s0, a, c, i2 * 0x4_0000 + i1 * 512, i2 * 0x4_0000 + (i1 + 1) * 512)
  {
    hide *;
    ghost var lo, hi := i2 * 0x4_0000 + i1 * 512, i2 * 0x4_0000 + (i1 + 1) * 512;
    var i0 := 0;
    while i0 < 512
      invariant i0 <= 512 && mm.Valid() && CopyState(s0, mm.phys, a, c, lo + i0)
    {
      var t := Path(i2, i1, i0);
      IsUserPath(t);
      CopyWalk(s0, mm.phys, a, c, i2 * 0x4_0000 + i1 * 512 + i0, t);
      LeafEntry(s0, a, t);
      var leaf := mm.LoadEntry(l0, i0);
      ValidBit(leaf);
      if !HasV(leaf) {
        SkipOne(s0, mm.phys, a, c, t);
      } else {
        ghost var s := mm.phys;
        trapped, ok := CopyOnePage(mm, leaf, t, childRoot, s0, a, c);
        if trapped || !ok {
          PageEnds(s0, s, mm.phys, a, c, t, lo, hi, trapped);
          return;
        }
      }
      i0 := i0 + 1;
    }
    mm.UsedFits();
    CopyGotTo(s0, mm.phys, a, c, lo, hi);
    return false, true;
  }

  lemma IsUserPath(t: Path)
    requires 256 <= t.i2 < 512 && t.i1 < 512 && t.i0 < 512
    ensures UserPath(t) && t.InRange() && Vpn(t) == t.i2 * 0x4_0000 + t.i1 * 512 + t.i0
  {
  }

  /** The loop over i1. */
  method CopyL1Table(mm: MemoryManager, l1: Word, i2: nat, childRoot: Word, ghost s0: Phys, ghost a: Space,
      ghost c: Space)
    returns (trapped: bool, ok: bool)
    requires mm.Valid() && 256 <= i2 < 512 && CopyState(s0, mm.phys, a, c, i2 * 0x4_0000)
    requires Table1(s0, a, i2) != 0 && l1 == Table1(s0, a, i2) * 4096
    requires c in s0.roots && childRoot == s0.roots[c] * 4096
    modifies mm.mem, mm.mem.words, mm.pool.resources.bitmap, mm`phys
    ensures mm.Valid()
    ensures !trapped && ok ==> CopyState(s0, mm.phys, a, c, (i2 + 1) * 0x4_0000)
    ensures !trapped && !ok ==> Stuck(s0, mm.phys, a, c)
    ensures !trapped && !ok <==> RunsOut(s0, a, c, i2 * 0x4_0000, (i2 + 1) * 0x4_0000)
    ensures trapped <==> BreaksOff(s0, a, c, i2 * 0x4_0000, (i2 + 1) * 0x4_0000)
  {
    hide *;
    ghost var lo, hi := i2 * 0x4_0000, (i2 + 1) * 0x4_0000;
    OpenState(s0, mm.phys, a, c, lo);
    var i1 := 0;
    while i1 < 512
      invariant i1 <= 512 && mm.Valid() && CopyState(s0, mm.phys, a, c, i2 * 0x4_0000 + i1 * 512)
    {
      IsUserPath(Path(i2, i1, 0));
      CopyWalk(s0, mm.phys, a, c, i2 * 0x4_0000 + i1 * 512, Path(i2, i1, 0));
      var entry := mm.LoadEntry(l1, i1);
      ValidBit(entry);
      if !HasV(entry) {
        SkipL0(s0, mm.phys, a, c, i2, i1);
      } else {
        trapped, ok := CopyL0Table(mm, MaskTarget(entry), i2, i1, childRoot, s0, a, c);
        if trapped || !ok {
          WiderEnds(s0, a, c, i2 * 0x4_0000 + i1 * 512, i2 * 0x4_0000 + (i1 + 1) * 512, lo, hi);
          return;
        }
      }
      i1 := i1 + 1;
    }
    mm.UsedFits();
    CopyGotTo(s0, mm.phys, a, c, lo, hi);
    return false, true;
  }

  /**
   The page table part of copy_process: every user page of a, from USER_SPACE_BASE to
   USER_SPACE_END, is copied to c.  It succeeds exactly when the pool has room for all of it;
   otherwise the first page that does not fit decides: with no page for its frame the call
   returns false, with a frame but not all tables it traps.
   */
  method CopyUserMemory(mm: MemoryManager, parentRoot: Word, childRoot: Word, ghost a: Space, ghost c: Space)
    returns (trapped: bool, ok: bool)
    requires mm.Valid() && CanCopy(mm.phys, a, c)
    requires parentRoot == mm.phys.roots[a] * 4096 && childRoot == mm.phys.roots[c] * 4096
    modifies mm.mem, mm.mem.words, mm.pool.resources.bitmap, mm`phys
    ensures mm.Valid()
    ensures !trapped && ok ==> CopyState(old(mm.phys), mm.phys, a, c, 0x800_0000)
    ensures !trapped && !ok ==> Stuck(old(mm.phys), mm.phys, a, c)
    ensures !trapped && ok <==> old(Used(mm.phys)) + Need(old(mm.phys), a, c) <= 0x7eff
    ensures !trapped && !ok <==> RunsOut(old(mm.phys), a, c, 0x400_0000, 0x800_0000)
    ensures trapped <==> BreaksOff(old(mm.phys), a, c, 0x400_0000, 0x800_0000)
  {
    hide *;
    ghost var s0 := mm.phys;
    UserIndices();
    var i2, end := L2Index(USER_SPACE_BASE), L2Index(USER_SPACE_END);
    CopyStarts(s0, a, c, 0x400_0000);
    OpenState(s0, s0, a, c, 0x400_0000);
    RootsThere(s0, a, c);
    while i2 <= end
      invariant 256 <= i2 <= 512 && mm.Valid() && CopyState(s0, mm.phys, a, c, i2 * 0x4_0000)
    {
      IsUserPath(Path(i2, 0, 0));
      CopyWalk(s0, mm.phys, a, c, i2 * 0x4_0000, Path(i2, 0, 0));
      var entry := mm.LoadEntry(parentRoot, i2);
      ValidBit(entry);
      if !HasV(entry) {
        SkipL1(s0, mm.phys, a, c, i2);
      } else {
        trapped, ok := CopyL1Table(mm, MaskTarget(entry), i2, childRoot, s0, a, c);
        if trapped || !ok {
          WiderEnds(s0, a, c, i2 * 0x4_0000, (i2 + 1) * 0x4_0000, 0x400_0000, 0x800_0000);
          EndsMeanNoRoom(s0, a, c, 0x400_0000);
          return;
        }
      }
      i2 := i2 + 1;
    }
    CopyEnds(s0, mm.phys, a, c);
    mm.UsedFits();
    CopyGotTo(s0, mm.phys, a, c, 0x400_0000, 0x800_0000);
    return false, true;
  }

  lemma UserIndices()
    ensures L2Index(USER_SPACE_BASE) == 256 && L2Index(USER_SPACE_END) == 511
  {
    hide And;
  }

  lemma RootsThere(s: Phys, a: Space, c: Space)
    requires CanCopy(s, a, c)
    ensures a in s.roots && c in s.roots
  {
  }
}
