/**
 The failing fork is reached from boot: a program of 16384 pages leaves too few of them for a
 copy, and the pool runs out at a frame.  Its file is small, because all segments load the same
 bytes, so that it can be linked into the kernel.
 */
module ForkFailure {
  import opened Words
  import opened Sv39Bits
  import opened Bitmaps
  import opened PageTables
  import opened Mappings
  import opened BootMaps
  import opened AddressSpaces
  import opened MemoryManagers
  import opened Copying
  import opened Elf
  import opened ElfFiles
  import opened ElfLoading
  import opened KernelState
  import opened KernelSteps
  import opened KernelRuns
  import opened ProcessCreation
  import opened ForkSteps
  import opened ProcessManagers

  /** 256 segments of 256 KB, one behind the other from the beginning of the user half, all from the same file bytes. */
  function BigProgram(): seq<Segment> {
    seq(256, i requires 0 <= i < 256 => BigSegment(i))
  }

  function BigSegment(i: nat): Segment
    requires i < 256
  {
    Segment(1, 7, 0x4000, 0xffff_ffc0_0000_0000 + i * 0x4_0000, 0x4_0000)
  }

  function BigFile(entry: Word): File {
    WriteFile(entry, BigProgram(), seq(0x4_07c0, _ => 0))
  }

  lemma BigLength()
    ensures |BigProgram()| == 256 && forall i {:trigger BigProgram()[i]} :: 0 <= i < 256 ==>
              BigProgram()[i] == BigSegment(i)
  {
  }

  lemma BigSegmentIs(i: nat)
    requires i < 256
    ensures var g := BigSegment(i); g.Loads() && g.p_vaddr % 4096 == 0 && Writable(g) && g.PageCount() == 64
    ensures forall pn: nat {:trigger BigSegment(i).Covers(pn)} ::
              BigSegment(i).Covers(pn) <==> 0xf_ffff_fc00_0000 + 64 * i <= pn < 0xf_ffff_fc00_0000 + 64 * (i + 1)
  {
    var g := BigSegment(i);
    assert g.p_vaddr == (0xf_ffff_fc00_0000 + 64 * i) * 4096;
    assert g.p_vaddr + g.p_filesz - 1 == (0xf_ffff_fc00_0000 + 64 * i + 63) * 4096 + 4095;
  }

  lemma BigFileFits(entry: Word)
    ensures HeadersInside(BigFile(entry)) && Segments(BigFile(entry)) == BigProgram()
    ensures FileFits(BigFile(entry), BigProgram()) && |BigFile(entry)| == 0x4_4000 <= KERNEL_SIZE
  {
    hide WriteFile;
    hide HeadersInside;
    hide Segments;
    hide BigProgram;
    hide Writable;
    BigLength();
    var gs := BigProgram();
    forall i | 0 <= i < 256 ensures Writable(gs[i]) && !StartsUnaligned(gs, i) && Fine(BigFile(entry), gs[i]) {
      BigSegmentIs(i);
      if i > 0 {
        BigSegmentIs(i - 1);
      }
    }
    WriteThenRead(entry, gs, seq(0x4_07c0, _ => 0));
  }

  // --------------------------------------------------------- its pages and tables

  /** The stack page and the first n pages of the user half. */
  ghost function FirstPages(n: nat): set<Path> {
    if n == 0 then {StackPath()} else FirstPages(n - 1) + {PageAtPlace(n - 1)}
  }

  /** The path of page q of the user half, for the first level-2 entry. */
  function PageAtPlace(q: nat): Path {
    Path(256, q / 512, q % 512)
  }

  lemma PlaceOf(q: nat)
    requires q < 0x4_0000
    ensures UserPath(PageAtPlace(q)) && Vpn(PageAtPlace(q)) == 0x400_0000 + q
  {
  }

  lemma {:induction false} InFirstPages(n: nat, t: Path)
    requires n <= 0x4000
    ensures t in FirstPages(n) <==> t == StackPath() || (UserPath(t) && Vpn(t) < 0x400_0000 + n)
  {
    hide StackPath;
    if n == 0 {
      if UserPath(t) {
        VpnRange(t);
      }
    } else {
      InFirstPages(n - 1, t);
      PlaceOf(n - 1);
      if UserPath(t) && Vpn(t) == 0x400_0000 + (n - 1) {
        SameVpn(t, PageAtPlace(n - 1));
      }
    }
  }

  lemma RolesIn(a: Space, m: set<Path>, i2: nat, i1: nat)
    ensures L1(a, i2) in RolesFor(a, m) <==> exists t :: t in m && t.i2 == i2
    ensures L0(a, i2, i1) in RolesFor(a, m) <==> exists t :: t in m && t.i2 == i2 && t.i1 == i1
    ensures L1(a, i2) in TablesFor(a, m) <==> L1(a, i2) in RolesFor(a, m)
    ensures L0(a, i2, i1) in TablesFor(a, m) <==> L0(a, i2, i1) in RolesFor(a, m)
  {
  }

  /** Which tables page n shares with the pages before it. */
  lemma SharedTables(a: Space, n: nat)
    requires n < 0x4000
    ensures var t := PageAtPlace(n);
      && t !in FirstPages(n)
      && (L1(a, t.i2) in RolesFor(a, FirstPages(n)) <==> n > 0)
      && (L0(a, t.i2, t.i1) in RolesFor(a, FirstPages(n)) <==> n % 512 != 0)
  {
    hide FirstPages;
    hide RolesFor;
    hide TablesFor;
    var t := PageAtPlace(n);
    StackIsUser();
    PlaceOf(n);
    InFirstPages(n, t);
    RolesIn(a, FirstPages(n), t.i2, t.i1);
    if n > 0 {
      var u := PageAtPlace(n - 1);
      PlaceOf(n - 1);
      InFirstPages(n, u);
      assert n % 512 != 0 ==> u.i1 == t.i1;
    }
    forall u | u in FirstPages(n) && u.i2 == 256 ensures n > 0 && (u.i1 == t.i1 ==> n % 512 != 0) {
      InFirstPages(n, u);
      VpnRange(u);
    }
  }

  lemma {:induction false} FirstPagesCost(a: Space, n: nat)
    requires n <= 0x4000
    ensures |RolesFor(a, FirstPages(n))| == n + (n + 511) / 512 + if n > 0 then 5 else 4
    ensures |TablesFor(a, FirstPages(n))| == (n + 511) / 512 + if n > 0 then 3 else 2
  {
    hide *;
    if n == 0 {
      StackRoles(a);
      TwoTables(a, StackPath());
      NoPages();
    } else {
      FirstPagesCost(a, n - 1);
      OnePageCost(a, n - 1);
      TablesOf(n - 1);
    }
  }

  lemma TablesOf(q: nat)
    ensures (q + 1 + 511) / 512 == (q + 511) / 512 + if q % 512 == 0 then 1 else 0
    ensures NewTables(q) == (if q == 0 then 1 else 0) + (if q % 512 == 0 then 1 else 0)
  {
  }

  lemma NoPages()
    ensures FirstPages(0) == {StackPath()}
  {
  }

  lemma OnePageCost(a: Space, q: nat)
    requires q < 0x4000
    ensures |RolesFor(a, FirstPages(q + 1))| == |RolesFor(a, FirstPages(q))| + 1 + NewTables(q)
    ensures |TablesFor(a, FirstPages(q + 1))| == |TablesFor(a, FirstPages(q))| + NewTables(q)
  {
    hide RolesFor;
    hide TablesFor;
    var t, m := PageAtPlace(q), FirstPages(q);
    assert FirstPages(q + 1) == m + {t};
    SharedTables(a, q);
    RolesForMore(a, m, t);
    FrameInRoles(a, m, t);
    AddThree(RolesFor(a, m), L1(a, t.i2), L0(a, t.i2, t.i1), Frame(a, t));
    RolesIn(a, m, t.i2, t.i1);
    TablesForMore(a, m, t);
    AddTwo(TablesFor(a, m), L1(a, t.i2), L0(a, t.i2, t.i1));
  }

  /** The tables that page q is the first one to need. */
  function NewTables(q: nat): nat {
    (if q == 0 then 1 else 0) + (if q % 512 == 0 then 1 else 0)
  }

  lemma AddTwo<T>(f: set<T>, x: T, y: T)
    requires x != y
    ensures |f + {x} + {y}| == |f| + (if x in f then 0 else 1) + (if y in f then 0 else 1)
  {
    AddOne(f, x);
    AddOne(f + {x}, y);
  }

  // ------------------------------------------------------------- the first fork fails

  lemma BigCovers(pn: nat)
    ensures LastCover(BigProgram(), |BigProgram()|, pn) >= 0 <==> 0xf_ffff_fc00_0000 <= pn < 0xf_ffff_fc00_4000
  {
    hide BigProgram;
    hide BigSegment;
    BigLength();
    var gs := BigProgram();
    var k := LastCover(gs, 256, pn);
    if k >= 0 {
      BigSegmentIs(k);
      assert BigSegment(k).Covers(pn);
    }
    if 0xf_ffff_fc00_0000 <= pn < 0xf_ffff_fc00_4000 {
      var i := (pn - 0xf_ffff_fc00_0000) / 64;
      BigSegmentIs(i);
      assert BigSegment(i).Covers(pn);
      assert gs[i].Covers(pn);
    }
  }

  lemma {:induction false} BigPages(n: nat)
    requires n <= |BigProgram()|
    ensures PagesBefore(BigProgram(), n) == 64 * n
  {
    hide BigProgram;
    hide BigSegment;
    BigLength();
    if n > 0 {
      BigPages(n - 1);
      BigSegmentIs(n - 1);
      assert BigProgram()[n - 1] == BigSegment(n - 1);
    }
  }

  lemma PageNumber(t: Path)
    requires UserPath(t)
    ensures PageOfPath(t) == 0xf_ffff_fc00_0000 + (Vpn(t) - 0x400_0000) && Vpn(t) >= 0x400_0000
  {
    hide And;
    hide Or;
    assert AddressOfPath(t) == (0xf_ffff_fc00_0000 + (Vpn(t) - 0x400_0000)) * 4096;
  }

  lemma BigSet()
    ensures BuiltSet(BigProgram()) == FirstPages(0x4000)
  {
    hide StackPath;
    hide FirstPages;
    hide AllUserPaths;
    hide PageOfPath;
    hide LastCover;
    hide BigProgram;
    StackIsUser();
    forall t ensures t in BuiltSet(BigProgram()) <==> t in FirstPages(0x4000) {
      InFirstPages(0x4000, t);
      InAllUserPaths(t);
      if UserPath(t) {
        PageNumber(t);
        BigCovers(PageOfPath(t));
      }
    }
  }

  /** The mapped pages of a process that was made from the program. */
  lemma BigMapped(s: Phys, a: Space, file: File, junk: Word)
    requires WellFormed(s) && a in s.roots && a != Boot
    requires FileFits(file, BigProgram()) && ProgramInPlace(s, a, file, BigProgram(), junk)
    ensures MappedSet(s, a) == FirstPages(0x4000)
  {
    hide WellFormed;
    hide MappedSet;
    hide StackPath;
    hide View;
    hide FirstPages;
    hide PageOfPath;
    hide LastCover;
    hide BigProgram;
    hide LoadedPage;
    hide LeafAt;
    forall t ensures t in MappedSet(s, a) <==> t in FirstPages(0x4000) {
      InFirstPages(0x4000, t);
      StackIsUser();
      if UserPath(t) {
        PageNumber(t);
        BigCovers(PageOfPath(t));
        assert PageInPlace(s, a, file, BigProgram(), junk, t);
        SeenWhenLoaded(s, a, file, junk, t);
        ViewIsMapped(s, a, t);
        InMappedSet(s, a, t);
      } else if t in MappedSet(s, a) {
        MappedInRange(s, a, t);
      }
    }
  }

  lemma SeenWhenLoaded(s: Phys, a: Space, file: File, junk: Word, t: Path)
    requires FileFits(file, BigProgram()) && UserPath(t) && PageInPlace(s, a, file, BigProgram(), junk, t)
    ensures View(s, a, t).Present? <==> t == StackPath() || LastCover(BigProgram(), |BigProgram()|, PageOfPath(t)) >= 0
  {
    hide View;
    hide StackPath;
    hide PageOfPath;
    hide LastCover;
    hide BigProgram;
  }

  /** The copy of 16384 pages on top of what 69 pages of boot and the process itself take runs out at page 15984. */
  lemma FirstForkFails(s: Phys, a: Space)
    requires MappedSet(s, a) == FirstPages(0x4000) && Used(s) == 69 + 0x4000 + 37
    ensures ForkFails(s, a)
  {
    hide MappedSet;
    hide StackPath;
    hide FirstPages;
    hide Vpn;
    hide RolesFor;
    hide TablesFor;
    hide Used;
    var j := 15984;
    var t := PageAtPlace(j);
    PlaceOf(j);
    InFirstPages(0x4000, t);
    StackVpn();
    forall u ensures u in {StackPath()} + MappedBelow(s, a, Vpn(t)) <==> u in FirstPages(j) {
      InFirstPages(j, u);
      InFirstPages(0x4000, u);
    }
    assert {StackPath()} + MappedBelow(s, a, Vpn(t)) == FirstPages(j);
    FirstPagesCost(a, j);
    assert (j + 511) / 512 == 32;
    assert ForkUse(s, a, Vpn(t)) == 0x7eff;
  }

  lemma StackVpn()
    ensures Vpn(StackPath()) == 0x7ff_fffe && UserPath(StackPath())
  {
    StackIsUser();
  }

  lemma BigCost(a: Space)
    ensures PagesBefore(BigProgram(), |BigProgram()|) == 0x4000 && |TablesFor(a, BuiltSet(BigProgram()))| == 35
  {
    hide *;
    BigSet();
    BigLength();
    BigPages(256);
    FirstPagesCost(a, 0x4000);
  }

  lemma SlotOne(used: seq<bool>)
    requires used == seq(32, i => i == 0)
    ensures FirstFree(used) == 1 && |used| == 32
  {
    assert used[0] && !used[1];
  }

  /**
   Boot with this program and fork once: the call returns -1, and the child is DEAD and in the
   ready list.
   */
  method BootThenFork(words: array<Word>, bitmap: array<bv8>, pcbSet: array<Pcb>, entry: Word, env: Env, junk: Word)
    returns (trapped: bool, pid: Word, kernel: ProcessManager)
    requires words.Length == 0x100_0000 && bitmap.Length == 4064 && pcbSet.Length == 32
    requires (words as object) != bitmap && (pcbSet as object) != words && (pcbSet as object) != bitmap
    modifies words, bitmap, pcbSet
    ensures !trapped && pid == NONE && kernel.Valid() && kernel.current >= 0
    ensures var k := kernel.State();
      Good(k) && |k.pcbs| == 32 && k.pcbs[1].status == DEAD && 1 in k.ready && !Clean(k)
  {
    hide *;
    NoneIs();
    ghost var file, gs := BigFile(entry), BigProgram();
    BigFileFits(entry);
    BigCost(Proc(0));
    trapped, kernel := KernelEntry(words, bitmap, pcbSet, BigFile(entry), env, junk);
    ghost var k := kernel.State();
    GoodRoot(k);
    kernel.StateIs();
    BigMapped(k.phys, Proc(0), file, junk);
    FirstForkFails(k.phys, Proc(0));
    SlotOne(k.used);
    kernel.ObjectsIn();
    trapped, pid := kernel.DoFork(env);
    ForkOutcomeIs(k.used, pid, env);
    ForkEndsAs(k, kernel.State(), false, env);
    NextIsGood(k, Fork(false, env), kernel.State());
    GoodCurrent(kernel.State());
    assert kernel.State().ready[|k.ready|] == 1;
  }
}
