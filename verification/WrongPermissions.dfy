/**
 The wrong permissions are reached from boot: a program with code and, half a page behind it,
 data gets its data page without W, and its first store there faults.
 */
module WrongPermissions {
  import opened Words
  import opened Sv39Bits
  import opened PageTables
  import opened Mappings
  import opened AddressSpaces
  import opened MemoryManagers
  import opened Elf
  import opened ElfFiles
  import opened ElfLoading
  import opened ElfLoader
  import opened Sv39
  import opened KernelState
  import opened KernelSteps
  import opened ProcessCreation
  import opened ProcessManagers

  function DataFile(entry: Word): File {
    WriteFile(entry, CodeAndData(), seq(0x3000, _ => 0))
  }

  lemma DataFileFits(entry: Word)
    ensures HeadersInside(DataFile(entry)) && Segments(DataFile(entry)) == CodeAndData()
    ensures FileFits(DataFile(entry), CodeAndData()) && |DataFile(entry)| <= KERNEL_SIZE
  {
    hide WriteFile;
    hide HeadersInside;
    hide Segments;
    WriteThenRead(entry, CodeAndData(), seq(0x3000, _ => 0));
    CodeAndDataFlags(0);
  }

  lemma TwoPages(pn: nat)
    ensures |CodeAndData()| == 2 && PagesBefore(CodeAndData(), 2) == 2
    ensures LastCover(CodeAndData(), 2, pn) >= 0 ==> 0xf_ffff_fc00_0000 <= pn <= 0xf_ffff_fc00_0001
  {
    var gs := CodeAndData();
    assert PagesBefore(gs, 1) == PagesBefore(gs, 0) + gs[0].PageCount() == 1;
    assert PagesBefore(gs, 2) == PagesBefore(gs, 1) + gs[1].PageCount();
  }

  lemma PlaceOfPage(t: Path)
    requires UserPath(t) && 0xf_ffff_fc00_0000 <= PageOfPath(t) <= 0xf_ffff_fc00_0001
    ensures t.i2 == 256 && t.i1 == 0
  {
    hide And;
    hide Or;
    assert AddressOfPath(t) / 4096 == 0xf_ffff_fc00_0000 + (t.i2 - 256) * 0x4_0000 + t.i1 * 512 + t.i0;
  }

  /** The two pages and the stack page need two tables of each level. */
  lemma FourTables(a: Space)
    ensures |TablesFor(a, BuiltSet(CodeAndData()))| <= 4
  {
    hide StackPath;
    hide AllUserPaths;
    hide PageOfPath;
    hide LastCover;
    hide CodeAndData;
    StackIsUser();
    forall t | t in BuiltSet(CodeAndData()) ensures t.i2 == t.i1 == 511 || (t.i2 == 256 && t.i1 == 0) {
      if t != StackPath() {
        TwoPages(PageOfPath(t));
        PlaceOfPage(t);
      }
    }
    FewTables(a, BuiltSet(CodeAndData()));
  }

  lemma FewTables(a: Space, m: set<Path>)
    requires forall t :: t in m ==> t.i2 == t.i1 == 511 || (t.i2 == 256 && t.i1 == 0)
    ensures |TablesFor(a, m)| <= 4
  {
    forall r | r in TablesFor(a, m)
      ensures r == L1(a, 511) || r == L0(a, 511, 511) || r == L1(a, 256) || r == L0(a, 256, 0)
    {
    }
    hide TablesFor;
    AtMostFour(TablesFor(a, m), L1(a, 511), L0(a, 511, 511), L1(a, 256), L0(a, 256, 0));
  }

  lemma AtMostFour<T>(f: set<T>, x: T, y: T, z: T, w: T)
    requires forall r :: r in f ==> r == x || r == y || r == z || r == w
    ensures |f| <= 4
  {
    assert f <= {x, y, z, w};
    SubsetSize(f, {x, y, z, w});
  }

  /** The data segment asks for W, but its page has R, X and no W, and the current process cannot store there. */
  ghost predicate DataWithoutW(k: Kernel) {
    var g, va := CodeAndData()[1], 0xffff_ffc0_0000_1800;
    var page := View(k.phys, Proc(0), PathOf(va));
    && W(g.Flags()) && g.Covers(va / 4096)
    && page.Present? && page.flags < WORD_LIMIT && R(page.flags) && X(page.flags) && !W(page.flags)
    && TranslateUser(k.phys.mem, k.satp % 0x1000_0000_0000, va, Write) == Fault
  }

  lemma WithoutW(k: Kernel)
    requires CodeAndData()[1].Flags() == 23 && CodeAndData()[1].Covers(0xffff_ffc0_0000_1800 / 4096)
    requires View(k.phys, Proc(0), PathOf(0xffff_ffc0_0000_1800)).Present?
    requires View(k.phys, Proc(0), PathOf(0xffff_ffc0_0000_1800)).flags == 27
    requires R(27) && X(27) && !W(27) && W(23)
    requires TranslateUser(k.phys.mem, k.satp % 0x1000_0000_0000, 0xffff_ffc0_0000_1800, Write) == Fault
    ensures DataWithoutW(k)
  {
    hide View;
    hide PathOf;
    hide TranslateUser;
  }

  /**
   Boot with this program: the page of its data segment, which asks for R and W, is mapped with
   R and X, and the hardware refuses the program's stores there.
   */
  method BootWithoutW(words: array<Word>, bitmap: array<bv8>, pcbSet: array<Pcb>, entry: Word, env: Env, junk: Word)
    returns (trapped: bool, kernel: ProcessManager)
    requires words.Length == 0x100_0000 && bitmap.Length == 4064 && pcbSet.Length == 32
    requires (words as object) != bitmap && (pcbSet as object) != words && (pcbSet as object) != bitmap
    modifies words, bitmap, pcbSet
    ensures !trapped && kernel.Valid() && kernel.current == 0 && Good(kernel.State()) && Clean(kernel.State())
    ensures DataWithoutW(kernel.State())
  {
    hide *;
    DataFileFits(entry);
    TwoPages(0);
    FourTables(Proc(0));
    CodeAndDataFlags(junk);
    trapped, kernel := KernelEntry(words, bitmap, pcbSet, DataFile(entry), env, junk);
    kernel.StateIs();
    ghost var k := kernel.State();
    InPlaceBytes(k.phys, Proc(0), DataFile(entry), CodeAndData(), junk, 1, 0xffff_ffc0_0000_1800);
    GoodRoot(k);
    Bits(k.phys, Proc(0), 0xffff_ffc0_0000_1800);
    WithoutW(k);
  }

  /** 23 has V, R, W and U; 27 has V, R, X and U. */
  lemma Bits(s: Phys, a: Space, va: Word)
    requires WellFormed(s) && a in s.roots && View(s, a, PathOf(va)).Present? && View(s, a, PathOf(va)).flags == 27
    ensures R(27) && X(27) && !W(27) && W(23)
    ensures TranslateUser(s.mem, s.roots[a], va, Write) == Fault
  {
    hide WellFormed;
    hide LeafAt;
    hide PathOf;
    hide TranslateUser;
    UserTranslation(s, a, va, Write);
    BitTwo(LeafAt(s, a, PathOf(va)));
  }

  lemma BitTwo(e: Word)
    requires e % 1024 == 27
    ensures !W(e)
  {
    var q := e / 1024;
    assert e == 1024 * q + 27;
    QuotientIs(e, 4, 256 * q + 6, 3);
    QuotientIs(256 * q + 6, 2, 128 * q + 3, 0);
  }
}
