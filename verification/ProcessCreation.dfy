/**
 The memory part of create_process in kernel/process.cpp: a root, a stack page, and the program.
 */
module ProcessCreation {
  import opened Words
  import opened Sv39Bits
  import opened Bitmaps
  import opened PhysicalMemories
  import opened PageTables
  import opened Mappings
  import opened AddressSpaces
  import opened Copying
  import opened MemoryManagers
  import opened ProcessMemory
  import opened Elf
  import opened ElfLoading
  import opened ElfLoader
  import opened KernelState
  import opened KernelSteps
  import opened KernelRuns
  import opened Sv39

  /** The pages a new process maps: its stack page, and every page that a segment touches. */
  ghost function BuiltSet(gs: seq<Segment>): set<Path> {
    set t | t in AllUserPaths() && (t == StackPath() || (UserPath(t) && LastCover(gs, |gs|, PageOfPath(t)) >= 0))
  }

  /** Pages in use after create_process: the root, the stack page, the program's pages, and the tables. */
  ghost function BuildUse(s: Phys, a: Space, gs: seq<Segment>): int {
    Used(s) + 2 + PagesBefore(gs, |gs|) + |TablesFor(a, BuiltSet(gs))|
  }

  lemma TwoTables(a: Space, t: Path)
    ensures |TablesFor(a, {t})| == 2
  {
    assert TablesFor(a, {}) == {};
    hide TablesFor;
    TablesForMore(a, {}, t);
    assert {} + {t} == {t};
  }

  lemma BuiltIsFinal(s: Phys, a: Space, gs: seq<Segment>)
    requires MappedSet(s, a) == {StackPath()}
    ensures FinalSet(s, a, gs) == BuiltSet(gs)
  {
    hide StackPath;
    hide MappedSet;
    hide PageOfPath;
    hide LastCover;
    hide AllUserPaths;
  }

  lemma BuildUseIs(s: Phys, s2: Phys, a: Space, gs: seq<Segment>)
    requires MappedSet(s2, a) == {StackPath()} && Used(s2) == Used(s) + 4
    ensures LoadedUse(s2, a, gs) == BuildUse(s, a, gs)
  {
    hide StackPath;
    hide MappedSet;
    hide TablesFor;
    hide BuiltSet;
    hide FinalSet;
    hide Used;
    TwoTables(a, StackPath());
    BuiltIsFinal(s2, a, gs);
  }

  lemma BuildUseAtLeast(s: Phys, a: Space, gs: seq<Segment>)
    ensures BuildUse(s, a, gs) >= Used(s) + 4
    ensures gs == [] ==> BuildUse(s, a, gs) == Used(s) + 4
  {
    hide TablesFor;
    hide Used;
    hide StackPath;
    StackIsUser();
    InAllUserPaths(StackPath());
    TwoTables(a, StackPath());
    assert {StackPath()} <= BuiltSet(gs);
    TablesForMonotone(a, {StackPath()}, BuiltSet(gs));
    SubsetSize(TablesFor(a, {StackPath()}), TablesFor(a, BuiltSet(gs)));
    if gs == [] {
      forall t | t in BuiltSet(gs) ensures t == StackPath() {
        NoCover(gs, PageOfPath(t));
      }
      assert BuiltSet(gs) == {StackPath()};
    }
  }

  /** A fresh root has no tables on the way to the stack page. */
  lemma StackReady(s: Phys, s1: Phys, a: Space)
    requires SpaceAdded(s, s1, a) && a != Boot
    ensures WellFormed(s1) && a in s1.roots && MayExtend(s1, a, 511) && Missing(s1, a, StackPath()) == 2
  {
    hide WellFormed;
    hide Missing;
    hide Footprint;
    StackIsUser();
    CountMissing(s1, a, StackPath());
  }

  lemma StackReadyTaken(s: Phys, s1: Phys, a: Space, page: Word)
    requires SpaceAdded(s, s1, a) && a != Boot
    requires page % 4096 == 0 && IsPage(page / 4096) && page / 4096 !in s1.own
    ensures var s1' := Take(s1, page / 4096);
      && WellFormed(s1') && s1'.roots == s1.roots && MayExtend(s1', a, 511) && Missing(s1', a, StackPath()) == 2
      && MayHold(s1', a, MakePte(page, STACK_FLAGS)) && Used(s1') == Used(s1) + 1
  {
    hide *;
    StackIsUser();
    StackReady(s, s1, a);
    StackPte(page / 4096);
    StackFlagsAre(page);
    TakeKeeps(s1, page / 4096);
    TakeIs(s1, page / 4096, a, 511);
    KeptSelf(s1, a);
    KeptTake(s1, s1, a, page / 4096);
    CountMissing(s1, a, StackPath());
    CountMissing(Take(s1, page / 4096), a, StackPath());
    CanHold(Take(s1, page / 4096), a, MakePte(page, STACK_FLAGS));
  }

  lemma StackFlagsAre(page: Word)
    requires page % 4096 == 0
    ensures page / 4096 * 4096 == page
  {
  }

  lemma TakeIs(s: Phys, p: nat, a: Space, i2: nat)
    requires MayExtend(s, a, i2) && p !in s.own
    ensures Take(s, p).roots == s.roots && MayExtend(Take(s, p), a, i2)
    ensures p in Take(s, p).own && Take(s, p).own[p] == Loose
  {
  }

  /** The user stack: one page below USER_SPACE_END, readable and writable by the user. */
  method AddStack(mm: MemoryManager, table: Word, ghost s: Phys, ghost a: Space) returns (trapped: bool, ghost p: nat)
    requires mm.Valid() && a != Boot && SpaceAdded(s, mm.phys, a) && table == mm.phys.roots[a] * 4096
    modifies mm.mem, mm.mem.words, mm.pool.resources.bitmap, mm`phys
    ensures mm.Valid()
    ensures trapped <==> old(Used(mm.phys)) + 3 > 0x7eff
    ensures !trapped ==> p !in old(mm.phys.own) && IsPage(p)
    ensures !trapped ==> Connected(Take(old(mm.phys), p), mm.phys, a, StackPath(), MakePte(p * 4096, STACK_FLAGS))
  {
    hide *;
    ghost var s1 := mm.phys;
    StackIsUser();
    StackIs();
    StackReady(s, s1, a);
    var newPage := mm.AllocatePage();
    if newPage == NONE {
      assert false; // allocation reports failure as 0, so this test of the source never fires
    }
    if newPage != 0 {
      StackReadyTaken(s, s1, a, newPage);
    }
    trapped := mm.ConnectVirtualPhysicalAddress(table, newPage, 0xffff_ffff_ffff_f000 - 4096, 23, a);
    p := newPage / 4096;
  }

  lemma StackIs()
    ensures StackPath() == PathOf(0xffff_ffff_ffff_e000) && STACK_FLAGS == 23
  {
  }

  lemma RootWord(s: Phys, a: Space)
    requires WellFormed(s) && a in s.roots
    ensures IsPage(s.roots[a])
  {
  }

  /**
   Root, stack and program.  The call traps exactly when the pool is too small for all of it.
   */
  method BuildSpace(mm: MemoryManager, program: Program, ghost a: Space, ghost b: Space, junk: Word)
    returns (trapped: bool, table: Word, entry: Word)
    requires mm.Valid() && a != Boot && Template(mm.phys, mm.l2PageTable, b) && a !in mm.phys.roots
    requires program.Program? ==> HeadersInside(program.file)
    requires FileFits(FileOf(program), SegmentsOf(program))
    modifies mm.mem, mm.mem.words, mm.pool.resources.bitmap, mm`phys
    ensures mm.Valid()
    ensures trapped <==> BuildUse(old(mm.phys), a, SegmentsOf(program)) > 0x7eff
    ensures !trapped ==> SpaceBuilt(old(mm.phys), mm.phys, a, FileOf(program), SegmentsOf(program), junk)
    ensures !trapped ==> a in mm.phys.roots && IsPage(mm.phys.roots[a]) && table == mm.phys.roots[a] * 4096
    ensures !trapped ==> entry == if program.Program? then Entry64(program.file) else 0
  {
    hide *;
    ghost var s, gs := mm.phys, SegmentsOf(program);
    BuildUseAtLeast(s, a, gs);
    entry := 0;
    trapped, table := CreateProcessL2PageTable(mm, a, b);
    mm.UsedFits();
    if trapped {
      return;
    }
    ghost var s1 := mm.phys;
    AddedFacts(s, s1, a);
    ghost var p;
    trapped, p := AddStack(mm, table, s, a);
    if trapped {
      return;
    }
    ghost var s2 := mm.phys;
    StackAdded(s, s1, p, s2, a);
    BuildUseIs(s, s2, a, gs);
    StackLoads(s, s2, a, FileOf(program), gs);
    trapped, entry := LoadElf(mm, program, table, a, junk);
    if !trapped {
      BuiltByIs(s, s1, p, s2, mm.phys, a, FileOf(program), gs, junk);
      SpaceBuiltFacts(s, mm.phys, a, FileOf(program), gs, junk);
      RootWord(mm.phys, a);
      LoadKeepsRoots(s2, mm.phys, a, FileOf(program), gs, junk);
    }
  }

  lemma StackLoads(s: Phys, s2: Phys, a: Space, file: File, gs: seq<Segment>)
    requires KeptBut(s, s2, a) && a in s2.roots && a != Boot && NoIdleTables(s2, a) && FileFits(file, gs)
    ensures CanLoad(s2, a, file, gs)
  {
    hide WellFormed;
    hide NoIdleTables;
    hide FileFits;
  }

  lemma BuiltByIs(s: Phys, s1: Phys, p: nat, s2: Phys, s': Phys, a: Space, file: File, gs: seq<Segment>, junk: Word)
    requires a != Boot && SpaceAdded(s, s1, a) && p !in s1.own && IsPage(p)
    requires Connected(Take(s1, p), s2, a, StackPath(), MakePte(p * 4096, STACK_FLAGS))
    requires LoadState(s2, s', a, file, gs, |gs|, 0, junk)
    ensures SpaceBuilt(s, s', a, file, gs, junk)
  {
    hide SpaceAdded;
    hide Connected;
    hide LoadState;
    assert SpaceBuiltBy(s, s1, p, s2, s', a, file, gs, junk);
  }

  lemma LoadKeepsRoots(s2: Phys, s': Phys, a: Space, file: File, gs: seq<Segment>, junk: Word)
    requires LoadState(s2, s', a, file, gs, |gs|, 0, junk)
    ensures s'.roots == s2.roots
  {
    hide CanLoad;
    hide KeptBut;
    hide NoIdleTables;
    hide AllShown;
    hide LoadCount;
  }

  // ------------------------------------------------------- what a new process sees

  /**
   The user memory of a new process: every page that a segment covers shows the last such segment,
   the stack page is there unless a segment replaced it, and nothing else is mapped.
   */
  ghost predicate ProgramInPlace(s: Phys, a: Space, file: File, gs: seq<Segment>, junk: Word)
    requires FileFits(file, gs)
  {
    forall t: Path {:trigger View(s, a, t)} :: UserPath(t) ==> PageInPlace(s, a, file, gs, junk, t)
  }

  ghost predicate PageInPlace(s: Phys, a: Space, file: File, gs: seq<Segment>, junk: Word, t: Path)
    requires FileFits(file, gs) && UserPath(t)
  {
    var k := LastCover(gs, |gs|, PageOfPath(t));
    if k >= 0 then LoadedPage(View(s, a, t), file, gs, k, PageOfPath(t), junk)
    else if t == StackPath() then View(s, a, t).Present? && View(s, a, t).flags == STACK_FLAGS
    else View(s, a, t) == Absent
  }

  lemma BuiltInPlace(s: Phys, s': Phys, a: Space, file: File, gs: seq<Segment>, junk: Word)
    requires SpaceBuilt(s, s', a, file, gs, junk)
    ensures FileFits(file, gs) && ProgramInPlace(s', a, file, gs, junk)
    ensures Used(s') == BuildUse(s, a, gs)
  {
    hide *;
    var s1, p, s2 := BuiltInStages(s, s', a, file, gs, junk);
    BuiltByMeans(s, s1, p, s2, s', a, file, gs, junk);
    StackAdded(s, s1, p, s2, a);
    LoadFits(s2, s', a, file, gs, |gs|, 0, junk);
    LoadEnds(s2, s', a, file, gs, junk);
    BuildUseIs(s, s2, a, gs);
    forall t: Path | UserPath(t) ensures PageInPlace(s', a, file, gs, junk, t) {
      PageFromStages(s2, s', a, file, gs, junk, t);
    }
    CloseInPlace(s', a, file, gs, junk);
  }

  lemma PageFromStages(s2: Phys, s': Phys, a: Space, file: File, gs: seq<Segment>, junk: Word, t: Path)
    requires LoadState(s2, s', a, file, gs, |gs|, 0, junk) && UserPath(t)
    requires t == StackPath() ==> View(s2, a, t).Present? && View(s2, a, t).flags == STACK_FLAGS
    requires t != StackPath() ==> View(s2, a, t) == Absent
    ensures FileFits(file, gs) && PageInPlace(s', a, file, gs, junk, t)
  {
    hide View;
    hide KeptBut;
    hide NoIdleTables;
    hide LoadCount;
    hide CanLoad;
    hide LoadedPage;
    hide StackPath;
    hide PageOfPath;
    LoadFits(s2, s', a, file, gs, |gs|, 0, junk);
    ShowsAll(gs, PageOfPath(t));
    assert Shown(s2, s', a, file, gs, |gs|, 0, junk, t);
  }

  lemma CloseInPlace(s: Phys, a: Space, file: File, gs: seq<Segment>, junk: Word)
    requires FileFits(file, gs) && forall t: Path :: UserPath(t) ==> PageInPlace(s, a, file, gs, junk, t)
    ensures ProgramInPlace(s, a, file, gs, junk)
  {
    hide PageInPlace;
  }

  lemma InPlaceAt(s: Phys, a: Space, file: File, gs: seq<Segment>, junk: Word, t: Path)
    requires FileFits(file, gs) && ProgramInPlace(s, a, file, gs, junk) && UserPath(t)
    ensures PageInPlace(s, a, file, gs, junk, t)
  {
    hide PageInPlace;
    hide View;
    assert View(s, a, t) == View(s, a, t);
  }

  /** With disjoint segments: every file byte at its address, zeros around it, and the flags of the page. */
  lemma InPlaceBytes(s: Phys, a: Space, file: File, gs: seq<Segment>, junk: Word, i: nat, va: Word)
    requires FileFits(file, gs) && ProgramInPlace(s, a, file, gs, junk) && PagesDisjoint(gs)
    requires i < |gs| && gs[i].Covers(va / 4096)
    ensures var view := View(s, a, PathOf(va));
      && UserPath(PathOf(va)) && view.Present? && |view.page| == 512 && view.flags == PageFlags(gs, i, va / 4096, junk)
      && (gs[i].p_vaddr <= va < gs[i].p_vaddr + gs[i].p_filesz ==>
            && gs[i].p_offset + (va - gs[i].p_vaddr) < |file|
            && ByteInPage(view.page, va % 4096) == file[gs[i].p_offset + (va - gs[i].p_vaddr)])
      && (!(gs[i].p_vaddr <= va < gs[i].p_vaddr + gs[i].p_filesz) ==> ByteInPage(view.page, va % 4096) == 0)
  {
    hide View;
    hide PagesDisjoint;
    hide PageFlags;
    hide ByteInPage;
    hide StackPath;
    hide And;
    hide ProgramInPlace;
    FitsSegment(file, gs, i);
    SegmentInFile(file, gs[i]);
    SamePage(va);
    PathsArePages(va / 4096);
    CoverExists(gs, i, va / 4096);
    InPlaceAt(s, a, file, gs, junk, PathOf(va));
    assert va / 4096 * 4096 + va % 4096 == va;
  }

  /** When no segment covers the stack page, the program can load and store in the 4096 bytes below its stack
      pointer. */
  lemma StackUsable(s: Phys, a: Space, file: File, gs: seq<Segment>, junk: Word, d: nat, access: Access)
    requires WellFormed(s) && a in s.roots && a != Boot && FileFits(file, gs) && ProgramInPlace(s, a, file, gs, junk)
    requires forall i :: 0 <= i < |gs| ==> !gs[i].Covers(0xf_ffff_ffff_fffe)
    requires 0 < d <= 4096 && (access == Read || access == Write)
    ensures TranslateUser(s.mem, s.roots[a], 0xffff_ffff_ffff_f000 - d, access) != Fault
  {
    hide *;
    var va := 0xffff_ffff_ffff_f000 - d;
    StackIsUser();
    StackBelow(d);
    StackNumber();
    InPlaceAt(s, a, file, gs, junk, StackPath());
    StackInPlace(s, a, file, gs, junk);
    UserTranslation(s, a, va, access);
    StackLeaf(s, a, LeafAt(s, a, StackPath()));
    IsCanonical(va);
    AllowsBoth(LeafAt(s, a, StackPath()), access);
  }

  lemma StackNumber()
    ensures UserPath(StackPath())
    ensures PageOfPath(StackPath()) == 0xf_ffff_ffff_fffe
  {
    StackIsUser();
    PathsArePages(0xf_ffff_ffff_fffe);
    hide PageOfPath;
    hide PathOf;
  }

  lemma StackInPlace(s: Phys, a: Space, file: File, gs: seq<Segment>, junk: Word)
    requires FileFits(file, gs) && UserPath(StackPath()) && PageInPlace(s, a, file, gs, junk, StackPath())
    requires PageOfPath(StackPath()) == 0xf_ffff_ffff_fffe
    requires forall i :: 0 <= i < |gs| ==> !gs[i].Covers(0xf_ffff_ffff_fffe)
    ensures View(s, a, StackPath()).Present? && View(s, a, StackPath()).flags == 23
  {
    hide View;
    hide StackPath;
    hide PageOfPath;
    hide LoadedPage;
    hide FileFits;
  }

  lemma StackLeaf(s: Phys, a: Space, e: Word)
    requires e == LeafAt(s, a, StackPath())
    requires View(s, a, StackPath()).Present? && View(s, a, StackPath()).flags == 23
    ensures V(e) && R(e) && W(e) && U(e)
  {
    hide LeafAt;
    hide StackPath;
    FlagBits(e);
  }

  lemma IsCanonical(va: Word)
    requires va >= 0xffff_ffff_ffff_e000
    ensures Canonical(va)
  {
  }

  lemma AllowsBoth(e: Word, access: Access)
    requires V(e) && R(e) && W(e) && U(e) && (access == Read || access == Write)
    ensures ProperLeaf(e) && U(e) && Allows(e, access)
  {
  }
}
