/**
 load_elf of kernel/process.cpp.
 */
module ElfLoader {
  import opened Words
  import opened Sv39Bits
  import opened Bitmaps
  import opened PhysicalMemories
  import opened PageTables
  import opened Mappings
  import opened AddressSpaces
  import opened MemoryManagers
  import opened Elf
  import opened ElfFiles
  import opened ElfLoading

  // ------------------------------------------------------------ bytes of one page

  lemma BytesAreInPage(m: Mem, p: nat, o: nat)
    requires Shaped(m) && IsPage(p) && o < 4096
    ensures ByteInPage(PageAt(m, p), o) == PageByte(m, p, o)
  {
    ByteOfPage(m, p, o / 8, o % 8);
  }

  /** The page a round fills: segment bytes copied over zeros. */
  lemma FilledPage(was: Mem, m: Mem, p: nat, file: File, g: Segment, pn: nat, from: nat, lo: nat, length: nat)
    requires Shaped(was) && Shaped(m) && IsPage(p) && PageAt(was, p) == Zeros(512)
    requires Fine(file, g) && g.Loads() && lo + length <= 4096 && from + length <= |file|
    requires forall o: nat {:trigger PageByte(m, p, o)} :: o < 4096 ==>
               PageByte(m, p, o) == if lo <= o < lo + length then file[from + (o - lo)] else PageByte(was, p, o)
    requires RightBytes(g, pn, from, lo, length)
    ensures HoldsSegment(PageAt(m, p), file, g, pn)
  {
    hide PageByte;
    hide ByteInPage;
    forall o: nat | o < 4096 ensures ByteInPage(PageAt(m, p), o) == SegmentByte(file, g, pn, o) {
      BytesAreInPage(m, p, o);
      ZeroBytes(was, p, o);
      assert lo <= o < lo + length <==> SegmentHas(g, pn, o);
      assert PageByte(m, p, o) == if lo <= o < lo + length then file[from + (o - lo)] else 0;
    }
  }

  predicate SegmentHas(g: Segment, pn: nat, o: nat) {
    g.p_vaddr <= pn * 4096 + o < g.p_vaddr + g.p_filesz
  }

  /** Offsets lo .. lo + length - 1 of page pn are the bytes of the segment in that page, from this place of the
      file. */
  ghost predicate RightBytes(g: Segment, pn: nat, from: nat, lo: nat, length: nat) {
    && g.Loads()
    && (forall o: nat {:trigger SegmentHas(g, pn, o)} :: o < 4096 ==> (lo <= o < lo + length <==> SegmentHas(g, pn, o)))
    && from + g.p_vaddr == g.p_offset + pn * 4096 + lo
  }

  lemma UnalignedBytes(g: Segment, length: nat)
    requires g.Loads()
    requires length == if g.p_filesz >= 4096 - g.p_vaddr % 4096 then 4096 - g.p_vaddr % 4096 else g.p_filesz
    ensures RightBytes(g, g.First(), g.p_offset, g.p_vaddr % 4096, length)
  {
  }

  lemma AlignedBytes(g: Segment, offset: nat, length: nat)
    requires g.Loads() && offset < g.p_filesz && (g.p_vaddr + offset) % 4096 == 0
    requires length == if g.p_filesz - offset >= 4096 then 4096 else g.p_filesz - offset
    ensures RightBytes(g, (g.p_vaddr + offset) / 4096, g.p_offset + offset, 0, length)
  {
  }

  // ------------------------------------------------------------------- one round

  /** What a round needs of connect_virtual_physical_address. */
  lemma ReadyToMap(s: Phys, a: Space, v: nat, page: Word, flags: Word)
    requires WellFormed(s) && a in s.roots && a != Boot && UserPage64(v) && UserFlags(flags)
    requires page % 4096 == 0 && page / 4096 in s.own && s.own[page / 4096] == Loose
    ensures flags < 1024 && MayExtend(s, a, L2Index(v * 4096)) && MayHold(s, a, MakePte(page, flags))
    ensures PathOf(v * 4096) == PathOfPage(v) && UserPath(PathOfPage(v))
    ensures var pte := MakePte(page, flags); pte / 1024 == page / 4096 && pte % 1024 == flags && V(pte)
  {
    hide And;
    hide Or;
    hide WellFormed;
    hide PathOf;
    PathsArePages(v);
    OddFlags(page, flags);
  }

  lemma OddFlags(page: Word, flags: Word)
    requires UserFlags(flags)
    ensures flags < 1024 && V(MakePte(page, flags))
  {
    hide And;
    hide Or;
    hide MakePte;
    OddSum(page / 4096, flags);
  }

  lemma OddSum(q: nat, f: nat)
    requires f % 2 == 1
    ensures (q * 1024 + f) % 2 == 1
  {
    var k := 512 * q + f / 2;
    assert q * 1024 + f == 2 * k + 1;
  }

  /** One round on an unaligned start: fill the new page, then map it with the flags at hand. */
  method LoadUnalignedPage(mm: MemoryManager, file: File, g: Segment, l2: Word, flags: Word, ghost s0: Phys,
      ghost a: Space)
    returns (trapped: bool, ghost page: Page)
    requires mm.Valid() && KeptBut(s0, mm.phys, a) && NoIdleTables(mm.phys, a) && a in mm.phys.roots && a != Boot
    requires l2 == mm.phys.roots[a] * 4096 && UserFlags(flags)
    requires g.Loads() && Fine(file, g) && UserPage64(g.First())
    modifies mm.mem, mm.mem.words, mm.pool.resources.bitmap, mm`phys
    ensures mm.Valid()
    ensures trapped <==> old(Used(mm.phys)) + 1 + Missing(old(mm.phys), a, PathOfPage(g.First())) > 0x7eff
    ensures !trapped ==>
              && HoldsSegment(page, file, g, g.First())
              && PageMapped(s0, old(mm.phys), mm.phys, a, PathOfPage(g.First()), flags, page)
  {
    hide *;
    ghost var s, v, t := mm.phys, g.First(), PathOfPage(g.First());
    page := [];
    SegmentInFile(file, g);
    PathsArePages(v);
    mm.UsedFits();
    var newPage := mm.AllocatePage();
    if newPage == NONE {
      assert false; // allocation reports failure as 0, so this test of the source never fires
    }
    if newPage == 0 {
      return true, page; // memset stores to address 0
    }
    ghost var p := newPage / 4096;
    RoundStarts(s0, s, a, t, p, Zeros(512));
    mm.ClearPage(newPage);
    var offsetInPage := g.p_vaddr % 4096;
    var length := if g.p_filesz >= 4096 - offsetInPage then 4096 - offsetInPage else g.p_filesz;
    UnalignedBytes(g, length);
    ghost var zeroed := mm.phys;
    mm.CopyIn(file, g.p_offset, newPage + offsetInPage, length);
    page := PageAt(mm.phys.mem, p);
    FilledPage(zeroed.mem, mm.phys.mem, p, file, g, v, g.p_offset, offsetInPage, length);
    HoldsLength(page, file, g, v);
    FilledTwice(s, p, page);
    RoundStarts(s0, s, a, t, p, page);
    ReadyToMap(mm.phys, a, v, newPage, flags);
    trapped := mm.ConnectVirtualPhysicalAddress(l2, newPage, g.p_vaddr - offsetInPage, flags, a);
    if !trapped {
      FillThenMap(s0, s, mm.phys, a, t, p, page, MakePte(newPage, flags));
    }
  }

  lemma SegmentInFile(file: File, g: Segment)
    requires Fine(file, g) && g.Loads()
    ensures g.p_filesz > 0 && g.p_offset + g.p_filesz <= |file| && g.p_vaddr + g.p_filesz <= 0x1_0000_0000_0000_0000
    ensures g.First() == g.p_vaddr / 4096 && g.Last() == (g.p_vaddr + g.p_filesz - 1) / 4096
    ensures UserPage64(g.First()) && UserPage64(g.Last())
  {
  }

  lemma HoldsLength(page: Page, file: File, g: Segment, pn: nat)
    requires g.Loads() && Fine(file, g) && HoldsSegment(page, file, g, pn)
    ensures |page| == 512
  {
  }

  lemma FilledTwice(s: Phys, p: nat, page: Page)
    requires Shaped(s.mem) && IsPage(p) && |page| == 512
    ensures Fill(Fill(Take(s, p), p, Zeros(512)), p, page) == Fill(Take(s, p), p, page)
  {
  }

  /** One round on an aligned page: map the new page with the flags of the segment, then fill it. */
  method LoadAlignedPage(mm: MemoryManager, file: File, g: Segment, offset: nat, l2: Word, flags: Word,
      ghost s0: Phys, ghost a: Space)
    returns (trapped: bool, ghost page: Page)
    requires mm.Valid() && KeptBut(s0, mm.phys, a) && NoIdleTables(mm.phys, a) && a in mm.phys.roots && a != Boot
    requires l2 == mm.phys.roots[a] * 4096 && UserFlags(flags)
    requires g.Loads() && Fine(file, g) && offset < g.p_filesz && (g.p_vaddr + offset) % 4096 == 0
    requires UserPage64((g.p_vaddr + offset) / 4096)
    modifies mm.mem, mm.mem.words, mm.pool.resources.bitmap, mm`phys
    ensures mm.Valid()
    ensures trapped <==>
              old(Used(mm.phys)) + 1 + Missing(old(mm.phys), a, PathOfPage((g.p_vaddr + offset) / 4096)) > 0x7eff
    ensures !trapped ==>
              && HoldsSegment(page, file, g, (g.p_vaddr + offset) / 4096)
              && PageMapped(s0, old(mm.phys), mm.phys, a, PathOfPage((g.p_vaddr + offset) / 4096), flags, page)
  {
    hide *;
    ghost var s, v := mm.phys, (g.p_vaddr + offset) / 4096;
    ghost var t := PathOfPage(v);
    page := [];
    SegmentInFile(file, g);
    PathsArePages(v);
    mm.UsedFits();
    var newPage := mm.AllocatePage();
    if newPage == NONE {
      assert false; // as above
    }
    if newPage == 0 {
      return true, page;
    }
    ghost var p := newPage / 4096;
    RoundStarts(s0, s, a, t, p, Zeros(512));
    mm.ClearPage(newPage);
    ReadyToMap(mm.phys, a, v, newPage, flags);
    trapped := mm.ConnectVirtualPhysicalAddress(l2, newPage, g.p_vaddr + offset, flags, a);
    if !trapped {
      ghost var mapped := mm.phys;
      MapThenFill(s0, s, mapped, a, t, p, Zeros(512), MakePte(newPage, flags));
      var length := if g.p_filesz - offset >= 4096 then 4096 else g.p_filesz - offset;
      AlignedBytes(g, offset, length);
      mm.CopyIn(file, g.p_offset + offset, newPage, length);
      page := PageAt(mm.phys.mem, p);
      FilledPage(mapped.mem, mm.phys.mem, p, file, g, v, g.p_offset + offset, 0, length);
      HoldsLength(page, file, g, v);
      MapThenFill(s0, s, mapped, a, t, p, page, MakePte(newPage, flags));
    }
  }

  // ------------------------------------------------------------- the page loop

  /** The page that the round at this offset loads; past the last one when the segment is done. */
  function NextPage(g: Segment, offset: nat): nat
    requires g.Loads()
  {
    if offset == 0 then g.First() else if offset < g.p_filesz then (g.p_vaddr + offset) / 4096 else g.Last() + 1
  }

  /** The variables offset, is_align and flags between two rounds on segment i. */
  ghost predicate RoundState(gs: seq<Segment>, i: nat, offset: nat, isAlign: bool, flags: Word, junk: Word) {
    && i < |gs| && gs[i].Loads()
    && (!isAlign ==> offset == 0 && StartsUnaligned(gs, i))
    && (isAlign && offset == 0 ==> !StartsUnaligned(gs, i))
    && (isAlign && offset < gs[i].p_filesz ==> (gs[i].p_vaddr + offset) % 4096 == 0)
    && gs[i].First() <= NextPage(gs[i], offset) <= gs[i].Last() + 1
    && (offset > 0 ==> NextPage(gs[i], offset) > gs[i].First())
    && (offset < gs[i].p_filesz ==> NextPage(gs[i], offset) <= gs[i].Last())
    && flags == if offset > 0 && (NextPage(gs[i], offset) > gs[i].First() + 1 || !StartsUnaligned(gs, i))
                then gs[i].Flags()
                else FlagsBefore(gs, i, junk)
  }

  lemma RoundsBegin(gs: seq<Segment>, i: nat, junk: Word)
    requires i < |gs| && gs[i].Loads()
    ensures RoundState(gs, i, 0, !StartsUnaligned(gs, i), FlagsBefore(gs, i, junk), junk)
    ensures NextPage(gs[i], 0) == gs[i].First()
  {
  }

  lemma AfterUnaligned(gs: seq<Segment>, i: nat, flags: Word, junk: Word)
    requires RoundState(gs, i, 0, false, flags, junk)
    ensures var g := gs[i];
      && flags == PageFlags(gs, i, g.First(), junk)
      && RoundState(gs, i, 4096 - g.p_vaddr % 4096, true, flags, junk)
      && NextPage(g, 4096 - g.p_vaddr % 4096) == g.First() + 1
  {
    hide FlagsBefore;
    hide StartsUnaligned;
    NextAfterUnaligned(gs[i]);
  }

  lemma NextAfterUnaligned(g: Segment)
    requires g.Loads()
    ensures NextPage(g, 4096 - g.p_vaddr % 4096) == g.First() + 1
    ensures (g.p_vaddr + (4096 - g.p_vaddr % 4096)) % 4096 == 0
    ensures g.First() <= g.Last() && (4096 - g.p_vaddr % 4096 < g.p_filesz ==> g.First() + 1 <= g.Last())
  {
  }

  lemma AfterAligned(gs: seq<Segment>, i: nat, offset: nat, flags: Word, junk: Word)
    requires RoundState(gs, i, offset, true, flags, junk) && offset < gs[i].p_filesz
    ensures var g := gs[i]; var offset' := if g.p_filesz - offset >= 4096 then offset + 4096 else g.p_filesz;
      && g.Flags() == PageFlags(gs, i, NextPage(g, offset), junk)
      && (g.p_vaddr + offset) / 4096 == NextPage(g, offset) && (g.p_vaddr + offset) % 4096 == 0
      && RoundState(gs, i, offset', true, g.Flags(), junk)
      && NextPage(g, offset') == NextPage(g, offset) + 1
  {
    hide FlagsBefore;
    hide StartsUnaligned;
    NextAfterAligned(gs[i], offset);
  }

  lemma NextAfterAligned(g: Segment, offset: nat)
    requires g.Loads() && offset < g.p_filesz && (g.p_vaddr + offset) % 4096 == 0
    ensures var offset' := if g.p_filesz - offset >= 4096 then offset + 4096 else g.p_filesz;
      && (g.p_vaddr + offset) / 4096 == NextPage(g, offset)
      && NextPage(g, offset') == NextPage(g, offset) + 1
      && (offset' < g.p_filesz ==> (g.p_vaddr + offset') % 4096 == 0 && NextPage(g, offset') <= g.Last())
      && NextPage(g, offset') <= g.Last() + 1
  {
    var v, last := (g.p_vaddr + offset) / 4096, g.p_vaddr + g.p_filesz - 1;
    assert g.p_vaddr + offset == v * 4096;
    if g.p_filesz - offset <= 4096 {
      assert v * 4096 <= last < v * 4096 + 4096;
      assert last / 4096 == v;
    } else {
      assert (g.p_vaddr + (offset + 4096)) / 4096 == v + 1;
      assert v * 4096 + 4096 <= last;
    }
  }

  lemma RoundsEnd(gs: seq<Segment>, i: nat, offset: nat, isAlign: bool, flags: Word, junk: Word)
    requires RoundState(gs, i, offset, isAlign, flags, junk) && offset >= gs[i].p_filesz
    ensures isAlign && AlignedBefore(gs, i + 1) && flags == FlagsBefore(gs, i + 1, junk)
    ensures NextPage(gs[i], offset) == gs[i].Last() + 1
  {
    ReachesSecondPage(gs[i]);
  }

  /** A segment goes past its first page exactly when its bytes do. */
  lemma ReachesSecondPage(g: Segment)
    requires g.Loads()
    ensures g.Last() > g.First() <==> g.p_filesz > 4096 - g.p_vaddr % 4096
  {
  }

  /** The body of the loop over program headers for a PT_LOAD segment: the page loop. */
  method LoadSegment(mm: MemoryManager, file: File, ghost gs: seq<Segment>, i: nat, g: Segment, l2: Word,
      isAlign0: bool, flags0: Word,
                     ghost s0: Phys, ghost a: Space, ghost junk: Word)
    returns (trapped: bool, isAlign: bool, flags: Word)
    requires mm.Valid() && i < |gs| && gs[i] == g && g.Loads() && LoadState(s0, mm.phys, a, file, gs, i, 0, junk)
    requires a in s0.roots && l2 == s0.roots[a] * 4096
    requires isAlign0 == !StartsUnaligned(gs, i) && flags0 == FlagsBefore(gs, i, junk)
    modifies mm.mem, mm.mem.words, mm.pool.resources.bitmap, mm`phys
    ensures mm.Valid()
    ensures trapped ==> LoadedUse(s0, a, gs) > 0x7eff
    ensures !trapped ==> LoadState(s0, mm.phys, a, file, gs, i + 1, 0, junk)
    ensures !trapped ==> isAlign == AlignedBefore(gs, i + 1) && flags == FlagsBefore(gs, i + 1, junk)
  {
    hide *;
    isAlign, flags := isAlign0, flags0;
    var offset := 0;
    LoadFits(s0, mm.phys, a, file, gs, i, 0, junk);
    FitsSegment(file, gs, i);
    SegmentInFile(file, g);
    RoundsBegin(gs, i, junk);
    EnterSegment(s0, mm.phys, a, file, gs, i, junk);
    while offset < g.p_filesz
      invariant mm.Valid() && RoundState(gs, i, offset, isAlign, flags, junk)
      invariant LoadState(s0, mm.phys, a, file, gs, i, NextPage(g, offset), junk)
      decreases g.p_filesz - offset
    {
      ghost var s, v := mm.phys, NextPage(g, offset);
      ghost var page;
      LoadFits(s0, s, a, file, gs, i, v, junk);
      RoundRange(file, gs, i, offset, isAlign, flags, junk);
      StateKept(s0, s, a, file, gs, i, v, junk);
      NoRoomToLoad(s0, s, a, file, gs, i, v, junk);
      if !isAlign {
        AfterUnaligned(gs, i, flags, junk);
        FlagsAreUserFlags(gs, i, v, junk);
        trapped, page := LoadUnalignedPage(mm, file, g, l2, flags, s0, a);
        if trapped {
          return;
        }
        offset := 4096 - g.p_vaddr % 4096;
        isAlign := true;
      } else {
        AfterAligned(gs, i, offset, flags, junk);
        FlagsWordIs(g);
        flags := FlagsWord(g.p_flags);
        SegmentFlags(g);
        trapped, page := LoadAlignedPage(mm, file, g, offset, l2, flags, s0, a);
        if trapped {
          return;
        }
        offset := if g.p_filesz - offset >= 4096 then offset + 4096 else g.p_filesz;
      }
      LoadStep(s0, s, mm.phys, a, file, gs, i, v, junk, page);
    }
    RoundsEnd(gs, i, offset, isAlign, flags, junk);
    NextSegment(s0, mm.phys, a, file, gs, i, NextPage(g, offset), junk);
    trapped := false;
  }

  lemma FitsSegment(file: File, gs: seq<Segment>, i: nat)
    requires FileFits(file, gs) && i < |gs|
    ensures Fine(file, gs[i]) && FlagsKnown(gs)
  {
  }

  lemma StateKept(s0: Phys, s: Phys, a: Space, file: File, gs: seq<Segment>, i: nat, v: nat, junk: Word)
    requires LoadState(s0, s, a, file, gs, i, v, junk)
    ensures KeptBut(s0, s, a)
  {
  }

  /** The page of a round lies in the segment, and its position is offset when aligned. */
  lemma RoundRange(file: File, gs: seq<Segment>, i: nat, offset: nat, isAlign: bool, flags: Word, junk: Word)
    requires RoundState(gs, i, offset, isAlign, flags, junk) && offset < gs[i].p_filesz && Fine(file, gs[i])
    ensures gs[i].First() <= NextPage(gs[i], offset) <= gs[i].Last() && UserPage64(NextPage(gs[i], offset))
    ensures !isAlign ==> offset == 0 && NextPage(gs[i], offset) == gs[i].First()
  {
    hide FlagsBefore;
    hide StartsUnaligned;
    SegmentInFile(file, gs[i]);
  }

  // ------------------------------------------------------------------- the file

  /** The program to load, if any; do_fork passes none. */
  datatype Program = NoProgram | Program(file: File)

  /** The segments of the program; none when there is no program. */
  function SegmentsOf(program: Program): seq<Segment>
    requires program.Program? ==> HeadersInside(program.file)
  {
    match program
    case NoProgram => []
    case Program(file) => Segments(file)
  }

  function FileOf(program: Program): File {
    match program
    case NoProgram => []
    case Program(file) => file
  }

  lemma ProgramEntry(program: Program)
    requires program.Program? ==> HeadersInside(program.file)
    ensures program.Program? ==> HasHeader(program.file) && EntryIs(program.file, Entry64(program.file))
  {
    hide EntryIs;
    hide Entry64;
    if program.Program? {
      EntryBytes(program.file);
    }
  }

  /**
   load_elf.  The variable flags starts with whatever junk is in its place.  The call traps
   exactly when the pool is too small for the whole file.
   */
  method LoadElf(mm: MemoryManager, program: Program, l2: Word, ghost a: Space, junk: Word)
      returns (trapped: bool, entry: Word)
    requires program.Program? ==> HeadersInside(program.file)
    requires mm.Valid() && CanLoad(mm.phys, a, FileOf(program), SegmentsOf(program)) && l2 == mm.phys.roots[a] * 4096
    modifies mm.mem, mm.mem.words, mm.pool.resources.bitmap, mm`phys
    ensures mm.Valid()
    ensures trapped <==> LoadedUse(old(mm.phys), a, SegmentsOf(program)) > 0x7eff
    ensures !trapped ==>
              LoadState(old(mm.phys), mm.phys, a, FileOf(program), SegmentsOf(program), |SegmentsOf(program)|, 0, junk)
    ensures entry == if program.Program? && !trapped then Entry64(program.file) else 0
    ensures program.Program? && !trapped ==> EntryIs(program.file, entry)
  {
    hide *;
    ProgramEntry(program);
    ghost var s0, gs := mm.phys, SegmentsOf(program);
    SpaceThere(s0, a, FileOf(program), gs);
    LoadStarts(s0, a, FileOf(program), gs, junk);
    ProgramSegments(program);
    if program.NoProgram? {
      LoadEnds(s0, mm.phys, a, FileOf(program), gs, junk);
      mm.UsedFits();
      return false, 0;
    }
    var file := program.file;
    var isAlign, flags := true, junk;
    var i := 0;
    FirstSegment(gs, junk);
    while i < PhNum(file)
      invariant i <= PhNum(file) && mm.Valid() && LoadState(s0, mm.phys, a, file, gs, i, 0, junk)
      invariant isAlign == AlignedBefore(gs, i) && flags == FlagsBefore(gs, i, junk)
    {
      var g := SegmentAt(file, i);
      HeaderStep(gs, i, junk);
      if g.p_type == 1 && g.p_vaddr % 4096 != 0 {
        isAlign := false;
      }
      if g.p_type == 1 && g.p_filesz > 0 {
        trapped, isAlign, flags := LoadSegment(mm, file, gs, i, g, l2, isAlign, flags, s0, a, junk);
        if trapped {
          return true, 0;
        }
      } else {
        NextSegment(s0, mm.phys, a, file, gs, i, 0, junk);
      }
      i := i + 1;
    }
    LoadEnds(s0, mm.phys, a, file, gs, junk);
    mm.UsedFits();
    return false, Entry64(file);
  }

  lemma SpaceThere(s: Phys, a: Space, file: File, gs: seq<Segment>)
    requires CanLoad(s, a, file, gs)
    ensures a in s.roots && FileFits(file, gs)
  {
  }

  lemma ProgramSegments(program: Program)
    requires program.Program? ==> HeadersInside(program.file)
    ensures program.NoProgram? ==> SegmentsOf(program) == []
    ensures program.Program? ==>
              && FileOf(program) == program.file && HasHeader(program.file)
              && |SegmentsOf(program)| == PhNum(program.file)
              && forall i :: 0 <= i < PhNum(program.file) ==> SegmentsOf(program)[i] == SegmentAt(program.file, i)
  {
  }

  lemma FirstSegment(gs: seq<Segment>, junk: Word)
    ensures AlignedBefore(gs, 0) && FlagsBefore(gs, 0, junk) == junk
  {
  }

  /** What is_align and flags are at a segment, and after one that is not loaded. */
  lemma HeaderStep(gs: seq<Segment>, i: nat, junk: Word)
    requires i < |gs|
    ensures var g := gs[i];
      && (g.Loads() <==> g.p_type == 1 && g.p_filesz > 0)
      && (StartsUnaligned(gs, i) <==> !AlignedBefore(gs, i) || g.p_vaddr % 4096 != 0)
      && (!g.Loads() ==>
            && AlignedBefore(gs, i + 1) == (AlignedBefore(gs, i) && !(g.p_type == 1 && g.p_vaddr % 4096 != 0))
            && FlagsBefore(gs, i + 1, junk) == FlagsBefore(gs, i, junk))
  {
  }

  // ------------------------------------------------------ what a loaded file means

  /** No two segments share a page. */
  ghost predicate PagesDisjoint(gs: seq<Segment>) {
    forall i, j, pn {:trigger gs[i].Covers(pn), gs[j].Covers(pn)} ::
      0 <= i < j < |gs| ==> !(gs[i].Covers(pn) && gs[j].Covers(pn))
  }

  /** A page of the program shows the bytes and the flags of the last segment that covers it. */
  lemma LoadedByte(s0: Phys, s: Phys, a: Space, file: File, gs: seq<Segment>, junk: Word, va: Word)
    requires LoadState(s0, s, a, file, gs, |gs|, 0, junk) && LastCover(gs, |gs|, va / 4096) >= 0
    ensures var k, view := LastCover(gs, |gs|, va / 4096), View(s, a, PathOf(va));
      && Fine(file, gs[k]) && gs[k].Loads() && UserPath(PathOf(va)) && view.Present? && |view.page| == 512
      && ByteInPage(view.page, va % 4096) == SegmentByte(file, gs[k], va / 4096, va % 4096)
      && view.flags == PageFlags(gs, k, va / 4096, junk)
  {
    hide View;
    hide KeptBut;
    hide NoIdleTables;
    hide LoadCount;
    hide CanLoad;
    hide PageFlags;
    hide ByteInPage;
    hide SegmentByte;
    hide And;
    var k := LastCover(gs, |gs|, va / 4096);
    LoadFits(s0, s, a, file, gs, |gs|, 0, junk);
    FitsSegment(file, gs, k);
    SegmentInFile(file, gs[k]);
    SamePage(va);
    PathsArePages(va / 4096);
    ShowsAll(gs, va / 4096);
    assert Shown(s0, s, a, file, gs, |gs|, 0, junk, PathOf(va));
  }

  lemma CoverExists(gs: seq<Segment>, i: nat, pn: nat)
    requires i < |gs| && gs[i].Covers(pn)
    ensures i <= LastCover(gs, |gs|, pn) < |gs|
    ensures PagesDisjoint(gs) ==> LastCover(gs, |gs|, pn) == i
  {
  }

  /**
   A file byte of segment i is readable at its address exactly when no later segment covers the
   page, or the last one that does wants the same byte there.
   */
  lemma ByteSurvives(s0: Phys, s: Phys, a: Space, file: File, gs: seq<Segment>, junk: Word, i: nat, va: Word)
    requires LoadState(s0, s, a, file, gs, |gs|, 0, junk)
    requires i < |gs| && gs[i].p_type == 1 && gs[i].p_vaddr <= va < gs[i].p_vaddr + gs[i].p_filesz
    ensures var k, view := LastCover(gs, |gs|, va / 4096), View(s, a, PathOf(va));
            var at := gs[i].p_offset + (va - gs[i].p_vaddr);
      && i <= k && Fine(file, gs[k]) && gs[k].Loads() && view.Present? && |view.page| == 512 && at < |file|
      && (ByteInPage(view.page, va % 4096) == file[at] <==>
          (forall j :: i < j < |gs| ==> !gs[j].Covers(va / 4096)) ||
          SegmentByte(file, gs[k], va / 4096, va % 4096) == file[at])
  {
    hide *;
    LoadFits(s0, s, a, file, gs, |gs|, 0, junk);
    FitsSegment(file, gs, i);
    OwnByte(file, gs[i], va);
    CoverExists(gs, i, va / 4096);
    LoadedByte(s0, s, a, file, gs, junk, va);
  }

  /** The byte that a segment wants at an address inside it. */
  lemma OwnByte(file: File, g: Segment, va: Word)
    requires Fine(file, g) && g.p_type == 1 && g.p_vaddr <= va < g.p_vaddr + g.p_filesz
    ensures g.Loads() && g.Covers(va / 4096) && g.p_offset + (va - g.p_vaddr) < |file|
    ensures SegmentByte(file, g, va / 4096, va % 4096) == file[g.p_offset + (va - g.p_vaddr)]
  {
    assert va / 4096 * 4096 + va % 4096 == va;
  }

  /**
   With page ranges disjoint, every file byte of every segment is in user memory at its
   address, whatever the alignment, and the rest of the segment's pages is zero.
   */
  lemma LoadedBytes(s0: Phys, s: Phys, a: Space, file: File, gs: seq<Segment>, junk: Word, k: nat, va: Word)
    requires LoadState(s0, s, a, file, gs, |gs|, 0, junk) && PagesDisjoint(gs)
    requires k < |gs| && gs[k].Covers(va / 4096)
    ensures UserPath(PathOf(va))
    ensures View(s, a, PathOf(va)).Present? && |View(s, a, PathOf(va)).page| == 512
    ensures gs[k].p_vaddr <= va < gs[k].p_vaddr + gs[k].p_filesz ==>
              && gs[k].p_offset + (va - gs[k].p_vaddr) < |file|
              && ByteInPage(View(s, a, PathOf(va)).page, va % 4096) == file[gs[k].p_offset + (va - gs[k].p_vaddr)]
    ensures !(gs[k].p_vaddr <= va < gs[k].p_vaddr + gs[k].p_filesz) ==>
              ByteInPage(View(s, a, PathOf(va)).page, va % 4096) == 0
    ensures View(s, a, PathOf(va)).flags == PageFlags(gs, k, va / 4096, junk)
  {
    hide View;
    hide LoadState;
    hide PagesDisjoint;
    hide PageFlags;
    hide ByteInPage;
    hide PathOf;
    CoverExists(gs, k, va / 4096);
    LoadedByte(s0, s, a, file, gs, junk, va);
    assert va / 4096 * 4096 + va % 4096 == va;
  }

  // ------------------------------------------------------------------ permissions

  /** Every page of a segment is mapped with the segment's own permissions. */
  ghost predicate OwnFlags(s: Phys, a: Space, g: Segment) {
    forall va: Word {:trigger PathOf(va)} :: g.Covers(va / 4096) ==>
      View(s, a, PathOf(va)).Present? && View(s, a, PathOf(va)).flags == g.Flags()
  }

  /**
   In the loaded space all pages of a segment carry its own permissions exactly when the loader
   does not treat its first page as unaligned, or the flags left over from an earlier segment
   are the same.
   */
  lemma FlagsRightIff(s0: Phys, s: Phys, a: Space, file: File, gs: seq<Segment>, junk: Word, i: nat)
    requires LoadState(s0, s, a, file, gs, |gs|, 0, junk) && PagesDisjoint(gs) && i < |gs| && gs[i].Loads()
    ensures OwnFlags(s, a, gs[i]) <==> !StartsUnaligned(gs, i) || FlagsBefore(gs, i, junk) == gs[i].Flags()
  {
    hide LoadState;
    hide PagesDisjoint;
    hide View;
    hide PathOf;
    hide StartsUnaligned;
    hide FlagsBefore;
    hide ByteInPage;
    forall va: Word | gs[i].Covers(va / 4096)
      ensures View(s, a, PathOf(va)).Present? && View(s, a, PathOf(va)).flags == PageFlags(gs, i, va / 4096, junk)
    {
      LoadedBytes(s0, s, a, file, gs, junk, i, va);
    }
    var va := gs[i].p_vaddr;
    assert gs[i].Covers(va / 4096);
    assert OwnFlags(s, a, gs[i]) ==> View(s, a, PathOf(va)).flags == gs[i].Flags();
  }

  /** When every segment that loads starts on a page boundary, each page has exactly its own segment's permissions. */
  lemma AlignedFlags(s0: Phys, s: Phys, a: Space, file: File, gs: seq<Segment>, junk: Word, i: nat)
    requires LoadState(s0, s, a, file, gs, |gs|, 0, junk) && PagesDisjoint(gs) && i < |gs| && gs[i].Loads()
    requires forall k :: 0 <= k < |gs| && gs[k].p_type == 1 ==> gs[k].p_vaddr % 4096 == 0
    ensures OwnFlags(s, a, gs[i])
  {
    hide LoadState;
    hide PagesDisjoint;
    hide OwnFlags;
    FlagsRightIff(s0, s, a, file, gs, junk, i);
    StaysAligned(gs, i);
  }

  lemma {:induction false} StaysAligned(gs: seq<Segment>, n: nat)
    requires forall k :: 0 <= k < |gs| && gs[k].p_type == 1 ==> gs[k].p_vaddr % 4096 == 0
    requires n <= |gs|
    ensures AlignedBefore(gs, n)
  {
    if n > 0 {
      StaysAligned(gs, n - 1);
    }
  }

  /** Code at 0xffffffc000000000, and data half a page behind its end. */
  function CodeAndData(): seq<Segment> {
    [Segment(1, 5, 0x1000, 0xffff_ffc0_0000_0000, 0x1000), Segment(1, 6, 0x2800, 0xffff_ffc0_0000_1800, 0x400)]
  }

  /**
   A file with these two segments, of which the loaded data page is executable and not writable
   (27 is V, R, X and U), although the segment asks for R and W (23 is V, R, W and U).
   */
  lemma WrongFirstPage(entry: Word, s0: Phys, s: Phys, a: Space, junk: Word)
    ensures var file := WriteFile(entry, CodeAndData(), seq(0x3000, _ => 0));
      && HeadersInside(file) && Segments(file) == CodeAndData()
      && FileFits(file, CodeAndData()) && PagesDisjoint(CodeAndData()) && CodeAndData()[1].Flags() == 23
      && (LoadState(s0, s, a, file, CodeAndData(), 2, 0, junk) ==>
            && !OwnFlags(s, a, CodeAndData()[1])
            && View(s, a, PathOf(0xffff_ffc0_0000_1800)).Present?
            && View(s, a, PathOf(0xffff_ffc0_0000_1800)).flags == 27)
  {
    hide LoadState;
    hide View;
    hide PathOf;
    hide OwnFlags;
    hide WriteFile;
    hide HeadersInside;
    hide Segments;
    hide ByteInPage;
    var gs := CodeAndData();
    var file := WriteFile(entry, gs, seq(0x3000, _ => 0));
    WriteThenRead(entry, gs, seq(0x3000, _ => 0));
    CodeAndDataFlags(junk);
    assert FileFits(file, gs);
    if LoadState(s0, s, a, file, gs, 2, 0, junk) {
      FlagsRightIff(s0, s, a, file, gs, junk, 1);
      LoadedBytes(s0, s, a, file, gs, junk, 1, 0xffff_ffc0_0000_1800);
    }
  }

  lemma CodeAndDataFlags(junk: Word)
    ensures var gs := CodeAndData();
      && FlagsKnown(gs) && PagesDisjoint(gs) && gs[0].Loads() && gs[1].Loads() && gs[1].Flags() == 23
      && StartsUnaligned(gs, 1) && FlagsBefore(gs, 1, junk) == 27
      && PageFlags(gs, 1, 0xffff_ffc0_0000_1800 / 4096, junk) == 27 && gs[1].Covers(0xffff_ffc0_0000_1800 / 4096)
  {
    var gs := CodeAndData();
    assert SetsFlags(gs, 0) && gs[0].Flags() == 27 && gs[1].Flags() == 23;
    assert FlagsBefore(gs, 1, junk) == 27;
    assert StartsUnaligned(gs, 1);
  }

  /** The uninitialised flags are never seen. */
  lemma {:induction false} JunkUnseen(gs: seq<Segment>, i: nat, pn: nat, junk: Word, junk': Word)
    requires i < |gs| && FlagsKnown(gs) && gs[i].Loads()
    ensures PageFlags(gs, i, pn, junk) == PageFlags(gs, i, pn, junk')
  {
    if StartsUnaligned(gs, i) {
      SameFlags(gs, i, junk, junk');
    }
  }

  lemma {:induction false} SameFlags(gs: seq<Segment>, n: nat, junk: Word, junk': Word)
    requires n <= |gs| && exists k :: 0 <= k < n && SetsFlags(gs, k)
    ensures FlagsBefore(gs, n, junk) == FlagsBefore(gs, n, junk')
  {
    if !SetsFlags(gs, n - 1) {
      SameFlags(gs, n - 1, junk, junk');
    }
  }
}
