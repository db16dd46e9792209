/**
 The state of load_elf, page by page.
 */
module ElfLoading {
  import opened Words
  import opened Sv39Bits
  import opened PhysicalMemories
  import opened PageTables
  import opened Mappings
  import opened AddressSpaces
  import opened Copying
  import opened Elf

  /** A page that shows the bytes and flags segment k wants at page number pn. */
  ghost predicate LoadedPage(view: UserPage, file: File, gs: seq<Segment>, k: nat, pn: nat, junk: Word)
    requires k < |gs| && gs[k].Loads() && Fine(file, gs[k])
  {
    && view.Present? && |view.page| == 512 && view.flags == PageFlags(gs, k, pn, junk)
    && forall o :: 0 <= o < 4096 ==> ByteInPage(view.page, o) == SegmentByte(file, gs[k], pn, o)
  }

  /** The segment page pn shows once the first i segments, and segment i below page v, are loaded; -1 for none. */
  function Shows(gs: seq<Segment>, i: nat, v: nat, pn: nat): int
    requires i <= |gs|
  {
    if i < |gs| && gs[i].Covers(pn) && pn < v then i else LastCover(gs, i, pn)
  }

  ghost predicate Shown(s0: Phys, s: Phys, a: Space, file: File, gs: seq<Segment>, i: nat, v: nat, junk: Word, t: Path)
    requires FileFits(file, gs) && i <= |gs| && UserPath(t)
  {
    var k := Shows(gs, i, v, PageOfPath(t));
    if k < 0 then View(s, a, t) == View(s0, a, t) else LoadedPage(View(s, a, t), file, gs, k, PageOfPath(t), junk)
  }

  // --------------------------------------------------------------------- counting

  function PagesBefore(gs: seq<Segment>, i: nat): nat
    requires i <= |gs|
  {
    if i == 0 then 0 else PagesBefore(gs, i - 1) + gs[i - 1].PageCount()
  }

  /** How many pages of segment i below page v there are. */
  function PagesDone(gs: seq<Segment>, i: nat, v: nat): nat
    requires i <= |gs|
  {
    if i < |gs| && gs[i].Loads() && gs[i].First() < v then v - gs[i].First() else 0
  }

  function AllUserPaths(): set<Path> {
    set i2: nat, i1: nat, i0: nat | 256 <= i2 < 512 && i1 < 512 && i0 < 512 :: Path(i2, i1, i0)
  }

  lemma InAllUserPaths(t: Path)
    ensures t in AllUserPaths() <==> UserPath(t)
  {
    if UserPath(t) {
      assert t == Path(t.i2, t.i1, t.i0);
    }
  }

  /** The user pages of a once everything is loaded. */
  ghost function FinalSet(s0: Phys, a: Space, gs: seq<Segment>): set<Path> {
    set t | t in AllUserPaths() && (t in MappedSet(s0, a) || (UserPath(t) && LastCover(gs, |gs|, PageOfPath(t)) >= 0))
  }

  /** Pages in use after loading: one for every page of every segment, and the tables that are missing. */
  ghost function LoadedUse(s0: Phys, a: Space, gs: seq<Segment>): int {
    Used(s0) + PagesBefore(gs, |gs|) + |TablesFor(a, FinalSet(s0, a, gs))| - |TablesFor(a, MappedSet(s0, a))|
  }

  // -------------------------------------------------------------------- the state

  ghost predicate CanLoad(s0: Phys, a: Space, file: File, gs: seq<Segment>) {
    WellFormed(s0) && a in s0.roots && a != Boot && NoIdleTables(s0, a) && FileFits(file, gs)
  }

  ghost predicate LoadCount(s0: Phys, s: Phys, a: Space, gs: seq<Segment>, i: nat, v: nat)
    requires i <= |gs|
  {
    Used(s) + |TablesFor(a, MappedSet(s0, a))| ==
      Used(s0) + PagesBefore(gs, i) + PagesDone(gs, i, v) + |TablesFor(a, MappedSet(s, a))|
  }

  ghost predicate AllShown(s0: Phys, s: Phys, a: Space, file: File, gs: seq<Segment>, i: nat, v: nat, junk: Word)
    requires FileFits(file, gs) && i <= |gs|
  {
    forall t: Path {:trigger View(s, a, t)} :: UserPath(t) ==> Shown(s0, s, a, file, gs, i, v, junk, t)
  }

  /** The first i segments, and segment i below page v, are loaded. */
  ghost predicate LoadState(s0: Phys, s: Phys, a: Space, file: File, gs: seq<Segment>, i: nat, v: nat, junk: Word) {
    && CanLoad(s0, a, file, gs) && i <= |gs|
    && KeptBut(s0, s, a) && s.roots == s0.roots && NoIdleTables(s, a)
    && AllShown(s0, s, a, file, gs, i, v, junk)
    && LoadCount(s0, s, a, gs, i, v)
  }

  lemma LoadStarts(s0: Phys, a: Space, file: File, gs: seq<Segment>, junk: Word)
    requires CanLoad(s0, a, file, gs)
    ensures LoadState(s0, s0, a, file, gs, 0, 0, junk)
  {
    hide WellFormed;
    hide View;
    hide NoIdleTables;
    KeptSelf(s0, a);
    forall t: Path | UserPath(t) ensures Shown(s0, s0, a, file, gs, 0, 0, junk, t) {
      assert Shows(gs, 0, 0, PageOfPath(t)) == -1;
    }
  }

  /** Going on to the next segment. */
  lemma NextSegment(s0: Phys, s: Phys, a: Space, file: File, gs: seq<Segment>, i: nat, v: nat, junk: Word)
    requires LoadState(s0, s, a, file, gs, i, v, junk) && i < |gs|
    requires gs[i].Loads() ==> v == gs[i].Last() + 1
    ensures LoadState(s0, s, a, file, gs, i + 1, 0, junk)
  {
    hide KeptBut;
    hide NoIdleTables;
    hide View;
    hide CanLoad;
    hide LoadedPage;
    LoadFits(s0, s, a, file, gs, i, v, junk);
    hide FileFits;
    forall t: Path | UserPath(t) ensures Shown(s0, s, a, file, gs, i + 1, 0, junk, t) {
      assert Shown(s0, s, a, file, gs, i, v, junk, t);
      NextShows(gs, i, v, PageOfPath(t));
    }
    NextCount(gs, i, v);
  }

  lemma LoadFits(s0: Phys, s: Phys, a: Space, file: File, gs: seq<Segment>, i: nat, v: nat, junk: Word)
    requires LoadState(s0, s, a, file, gs, i, v, junk)
    ensures FileFits(file, gs) && CanLoad(s0, a, file, gs) && WellFormed(s0) && WellFormed(s)
    ensures a in s0.roots && s.roots == s0.roots && a != Boot
    ensures NoIdleTables(s, a) && NoIdleTables(s0, a)
  {
  }

  lemma NextShows(gs: seq<Segment>, i: nat, v: nat, pn: nat)
    requires i < |gs| && (gs[i].Loads() ==> v == gs[i].Last() + 1)
    ensures Shows(gs, i + 1, 0, pn) == Shows(gs, i, v, pn)
  {
  }

  lemma NextCount(gs: seq<Segment>, i: nat, v: nat)
    requires i < |gs| && (gs[i].Loads() ==> v == gs[i].Last() + 1)
    ensures PagesBefore(gs, i + 1) + PagesDone(gs, i + 1, 0) == PagesBefore(gs, i) + PagesDone(gs, i, v)
  {
  }

  /** Entering a segment: nothing of it is loaded below its first page. */
  lemma EnterSegment(s0: Phys, s: Phys, a: Space, file: File, gs: seq<Segment>, i: nat, junk: Word)
    requires LoadState(s0, s, a, file, gs, i, 0, junk) && i < |gs| && gs[i].Loads()
    ensures LoadState(s0, s, a, file, gs, i, gs[i].First(), junk)
  {
    hide KeptBut;
    hide NoIdleTables;
    hide View;
    hide CanLoad;
    hide LoadedPage;
    LoadFits(s0, s, a, file, gs, i, 0, junk);
    hide FileFits;
    forall t: Path | UserPath(t) ensures Shown(s0, s, a, file, gs, i, gs[i].First(), junk, t) {
      assert Shown(s0, s, a, file, gs, i, 0, junk, t);
    }
  }

  // --------------------------------------------------------------------- one page

  /** A page of a, mapped at t to a new frame with these flags and contents; nothing else changed. */
  ghost predicate PageMapped(s0: Phys, s: Phys, s': Phys, a: Space, t: Path, flags: nat, page: Page) {
    && KeptBut(s0, s', a) && s'.roots == s.roots
    && (forall u: Path {:trigger View(s', a, u)} :: UserPath(u) ==>
          View(s', a, u) == if u == t then Present(flags, page) else View(s, a, u))
    && MappedSet(s', a) == MappedSet(s, a) + {t}
    && NoIdleTables(s', a)
    && Used(s') == Used(s) + 1 + Missing(s, a, t)
  }

  ghost predicate HoldsSegment(page: Page, file: File, g: Segment, pn: nat)
    requires g.Loads() && Fine(file, g)
  {
    |page| == 512 && forall o :: 0 <= o < 4096 ==> ByteInPage(page, o) == SegmentByte(file, g, pn, o)
  }

  lemma LoadStep(s0: Phys, s: Phys, s': Phys, a: Space, file: File, gs: seq<Segment>, i: nat, v: nat, junk: Word,
      page: Page)
    requires LoadState(s0, s, a, file, gs, i, v, junk) && i < |gs| && gs[i].Loads()
    requires gs[i].First() <= v <= gs[i].Last()
    requires UserPage64(v) && Fine(file, gs[i]) && HoldsSegment(page, file, gs[i], v)
    requires PageMapped(s0, s, s', a, PathOfPage(v), PageFlags(gs, i, v, junk), page)
    ensures LoadState(s0, s', a, file, gs, i, v + 1, junk)
  {
    hide CanLoad;
    LoadFits(s0, s, a, file, gs, i, v, junk);
    StepShown(s0, s, s', a, file, gs, i, v, junk, page);
    StepCount(s0, s, s', a, file, gs, i, v, junk, page);
    hide PageMapped;
    PageMappedKeeps(s0, s, s', a, PathOfPage(v), PageFlags(gs, i, v, junk), page);
    hide AllShown;
    hide LoadCount;
    hide WellFormed;
    hide KeptBut;
    hide NoIdleTables;
  }

  lemma PageMappedKeeps(s0: Phys, s: Phys, s': Phys, a: Space, t: Path, flags: nat, page: Page)
    requires PageMapped(s0, s, s', a, t, flags, page)
    ensures KeptBut(s0, s', a) && s'.roots == s.roots && NoIdleTables(s', a)
  {
  }

  lemma StepShown(s0: Phys, s: Phys, s': Phys, a: Space, file: File, gs: seq<Segment>, i: nat, v: nat, junk: Word,
      page: Page)
    requires LoadState(s0, s, a, file, gs, i, v, junk) && i < |gs| && gs[i].Loads()
    requires gs[i].First() <= v <= gs[i].Last()
    requires UserPage64(v) && Fine(file, gs[i]) && HoldsSegment(page, file, gs[i], v)
    requires PageMapped(s0, s, s', a, PathOfPage(v), PageFlags(gs, i, v, junk), page)
    requires FileFits(file, gs)
    ensures AllShown(s0, s', a, file, gs, i, v + 1, junk)
  {
    hide CanLoad;
    hide KeptBut;
    hide NoIdleTables;
    hide View;
    hide MappedSet;
    hide PathOfPage;
    hide PageOfPath;
    hide FileFits;
    hide LoadedPage;
    hide HoldsSegment;
    hide Shows;
    hide PageFlags;
    forall t: Path | UserPath(t) ensures Shown(s0, s', a, file, gs, i, v + 1, junk, t) {
      assert Shown(s0, s, a, file, gs, i, v, junk, t);
      PagesArePaths(t);
      PathsArePages(v);
      NextPageShows(gs, i, v, PageOfPath(t));
      LoadedNow(file, gs, i, v, junk, page);
    }
  }

  lemma NextPageShows(gs: seq<Segment>, i: nat, v: nat, pn: nat)
    requires i < |gs| && gs[i].Covers(v)
    ensures Shows(gs, i, v + 1, pn) == if pn == v then i else Shows(gs, i, v, pn)
  {
  }

  lemma LoadedNow(file: File, gs: seq<Segment>, i: nat, v: nat, junk: Word, page: Page)
    requires i < |gs| && gs[i].Loads() && Fine(file, gs[i]) && HoldsSegment(page, file, gs[i], v)
    ensures LoadedPage(Present(PageFlags(gs, i, v, junk), page), file, gs, i, v, junk)
  {
  }

  lemma StepCount(s0: Phys, s: Phys, s': Phys, a: Space, file: File, gs: seq<Segment>, i: nat, v: nat, junk: Word,
      page: Page)
    requires LoadState(s0, s, a, file, gs, i, v, junk) && i < |gs| && gs[i].Loads() && gs[i].First() <= v
    requires UserPage64(v)
    requires PageMapped(s0, s, s', a, PathOfPage(v), PageFlags(gs, i, v, junk), page)
    ensures LoadCount(s0, s', a, gs, i, v + 1)
  {
    LoadFits(s0, s, a, file, gs, i, v, junk);
    PathsArePages(v);
    hide WellFormed;
    hide KeptBut;
    hide View;
    hide AllShown;
    hide MappedSet;
    hide TablesFor;
    hide PathOfPage;
    hide CanLoad;
    TablesGrow(s, a, PathOfPage(v));
  }

  /** The tables of a grow by what is missing on the way to the new page. */
  lemma TablesGrow(s: Phys, a: Space, t: Path)
    requires WellFormed(s) && a in s.roots && a != Boot && NoIdleTables(s, a) && UserPath(t)
    ensures |TablesFor(a, MappedSet(s, a) + {t})| == |TablesFor(a, MappedSet(s, a))| + Missing(s, a, t)
  {
    hide *;
    CountMissing(s, a, t);
    NoIdleMeans(s, a);
    var m := MappedSet(s, a);
    TablesInRoles(a, m, t);
    TablesForMore(a, m, t);
    AddOne(TablesFor(a, m), L1(a, t.i2));
    AddOne(TablesFor(a, m) + {L1(a, t.i2)}, L0(a, t.i2, t.i1));
  }

  lemma TablesInRoles(a: Space, m: set<Path>, t: Path)
    ensures L1(a, t.i2) in TablesFor(a, m) <==> L1(a, t.i2) in RolesFor(a, m)
    ensures L0(a, t.i2, t.i1) in TablesFor(a, m) <==> L0(a, t.i2, t.i1) in RolesFor(a, m)
  {
  }

  /** The zeroed page that every round begins with. */
  lemma RoundStarts(s0: Phys, s: Phys, a: Space, t: Path, p: nat, page: Page)
    requires KeptBut(s0, s, a) && NoIdleTables(s, a) && a in s.roots && a != Boot && UserPath(t)
    requires p !in s.own && IsPage(p) && |page| == 512
    ensures Shaped(s.mem) && p !in s0.own
    ensures var s1 := Fill(Take(s, p), p, page);
      && KeptBut(s0, s1, a) && s1.roots == s.roots && WellFormed(s1) && p in s1.own && s1.own[p] == Loose
      && NoIdleTables(s1, a) && MappedSet(s1, a) == MappedSet(s, a) && SameUserMemory(s, s1, a)
      && Used(s1) == Used(s) + 1 && Missing(s1, a, t) == Missing(s, a, t)
      && Shaped(s1.mem) && PageAt(s1.mem, p) == page
  {
    hide LeafAt;
    hide WellFormed;
    hide Footprint;
    hide MappedSet;
    hide RolesFor;
    hide View;
    hide Missing;
    KeptAndWellFormed(s0, s, a);
    Basics(s);
    KeptTake(s0, s, a, p);
    KeptFill(s0, Take(s, p), a, p, page);
    CountMissing(s, a, t);
    KeptAndWellFormed(s0, Fill(Take(s, p), p, page), a);
    CountMissing(Fill(Take(s, p), p, page), a, t);
  }

  lemma KeptAndWellFormed(s: Phys, s': Phys, a: Space)
    requires KeptBut(s, s', a)
    ensures WellFormed(s) && WellFormed(s') && forall q :: q !in s'.own ==> q !in s.own
  {
  }

  /** Mapping the filled page: the order of the path for unaligned starts. */
  lemma FillThenMap(s0: Phys, s: Phys, s': Phys, a: Space, t: Path, p: nat, page: Page, pte: Word)
    requires KeptBut(s0, s, a) && NoIdleTables(s, a) && a in s.roots && a != Boot && UserPath(t)
    requires p !in s.own && IsPage(p) && |page| == 512 && Shaped(s.mem)
    requires V(pte) && pte / 1024 == p && Connected(Fill(Take(s, p), p, page), s', a, t, pte)
    ensures PageMapped(s0, s, s', a, t, pte % 1024, page)
    ensures p in s'.own && s'.own[p] == Frame(a, t) && LeafAt(s', a, t) == pte && a in s'.roots
  {
    hide LeafAt;
    hide WellFormed;
    hide Footprint;
    hide MappedSet;
    hide View;
    hide Missing;
    hide KeptBut;
    hide NoIdleTables;
    RoundStarts(s0, s, a, t, p, page);
    var s1 := Fill(Take(s, p), p, page);
    KeptConnect(s0, s1, s', a, t, pte);
    ConnectedFootprint(s1, s', a, t, pte);
    ConnectedCounts(s1, s', a, t, pte);
    ConnectedPte(s1, s', a, t, pte);
    forall u: Path | UserPath(u)
      ensures View(s', a, u) == if u == t then Present(pte % 1024, page) else View(s, a, u)
    {
      ConnectedView(s1, s', a, t, pte, u);
      assert View(s1, a, u) == View(s, a, u);
    }
    hide Connected;
  }

  lemma ConnectedPte(s: Phys, s': Phys, a: Space, t: Path, pte: Word)
    requires Connected(s, s', a, t, pte) && a != Boot && UserPath(t) && MayHold(s, a, pte)
    ensures pte / 1024 in s'.own && s'.own[pte / 1024] == Frame(a, t) && LeafAt(s', a, t) == pte
    ensures a in s'.roots && s'.roots == s.roots && Used(s') == Used(s) + Missing(s, a, t)
  {
    hide WellFormed;
    hide LeafAt;
    hide OnlyTablesWritten;
    assert s'.own[pte / 1024] == RoleAfter(s, a, t, pte, pte / 1024);
  }

  /** Filling the mapped page: the order of the path for aligned pages. */
  lemma MapThenFill(s0: Phys, s: Phys, s2: Phys, a: Space, t: Path, p: nat, page: Page, pte: Word)
    requires KeptBut(s0, s, a) && NoIdleTables(s, a) && a in s.roots && a != Boot && UserPath(t)
    requires p !in s.own && IsPage(p) && |page| == 512 && Shaped(s.mem)
    requires V(pte) && pte / 1024 == p && Connected(Fill(Take(s, p), p, Zeros(512)), s2, a, t, pte)
    ensures Shaped(s2.mem) && PageAt(s2.mem, p) == Zeros(512)
    ensures PageMapped(s0, s, Fill(s2, p, page), a, t, pte % 1024, page)
  {
    hide LeafAt;
    hide WellFormed;
    hide Footprint;
    hide MappedSet;
    hide View;
    hide Missing;
    hide KeptBut;
    hide RolesFor;
    hide Connected;
    FillThenMap(s0, s, s2, a, t, p, Zeros(512), pte);
    KeptAndWellFormed(s0, s2, a);
    Basics(s2);
    FillFrame(s0, s2, a, t, p, page);
    ViewOfLeaf(s2, a, t);
  }

  lemma ViewOfLeaf(s: Phys, a: Space, t: Path)
    requires Shaped(s.mem) && V(LeafAt(s, a, t)) && IsPage(LeafAt(s, a, t) / 1024)
    ensures View(s, a, t) == Present(LeafAt(s, a, t) % 1024, PageAt(s.mem, LeafAt(s, a, t) / 1024))
  {
  }

  // --------------------------------------------------------------- the whole file

  lemma MoreCovers(gs: seq<Segment>, i: nat, v: nat, pn: nat)
    requires i <= |gs| && Shows(gs, i, v, pn) >= 0
    ensures LastCover(gs, |gs|, pn) >= 0
  {
  }

  lemma MappedAt(s0: Phys, s: Phys, a: Space, file: File, gs: seq<Segment>, i: nat, v: nat, junk: Word, t: Path)
    requires LoadState(s0, s, a, file, gs, i, v, junk) && UserPath(t) && i <= |gs|
    ensures Mapped(s, a, t) <==> Shows(gs, i, v, PageOfPath(t)) >= 0 || Mapped(s0, a, t)
  {
    hide *;
    LoadFits(s0, s, a, file, gs, i, v, junk);
    ViewShows(s0, s, a, file, gs, i, v, junk, t);
    MappedView(s, a, t);
    MappedView(s0, a, t);
  }

  lemma ViewShows(s0: Phys, s: Phys, a: Space, file: File, gs: seq<Segment>, i: nat, v: nat, junk: Word, t: Path)
    requires LoadState(s0, s, a, file, gs, i, v, junk) && UserPath(t) && i <= |gs|
    ensures if Shows(gs, i, v, PageOfPath(t)) < 0 then View(s, a, t) == View(s0, a, t) else View(s, a, t).Present?
  {
    hide View;
    hide WellFormed;
    hide KeptBut;
    hide NoIdleTables;
    hide LoadCount;
    hide CanLoad;
    hide PageFlags;
    hide SegmentByte;
    hide PageOfPath;
    LoadFits(s0, s, a, file, gs, i, v, junk);
    assert Shown(s0, s, a, file, gs, i, v, junk, t);
  }

  lemma MappedView(s: Phys, a: Space, t: Path)
    requires WellFormed(s) && a in s.roots && a != Boot && UserPath(t)
    ensures View(s, a, t).Present? <==> Mapped(s, a, t)
    ensures t in MappedSet(s, a) <==> Mapped(s, a, t)
  {
    hide WellFormed;
    hide LeafAt;
    hide View;
    ViewIsMapped(s, a, t);
    InMappedSet(s, a, t);
  }

  lemma MappedIsFinal(s0: Phys, s: Phys, a: Space, file: File, gs: seq<Segment>, i: nat, v: nat, junk: Word)
    requires LoadState(s0, s, a, file, gs, i, v, junk) && i <= |gs|
    ensures MappedSet(s, a) <= FinalSet(s0, a, gs)
  {
    hide *;
    LoadFits(s0, s, a, file, gs, i, v, junk);
    forall t | t in MappedSet(s, a) ensures t in FinalSet(s0, a, gs) {
      MappedInRange(s, a, t);
      MappedAt(s0, s, a, file, gs, i, v, junk, t);
      MappedView(s0, a, t);
      if Shows(gs, i, v, PageOfPath(t)) >= 0 {
        MoreCovers(gs, i, v, PageOfPath(t));
      }
      InFinalSet(s0, a, gs, t);
    }
  }

  lemma InFinalSet(s0: Phys, a: Space, gs: seq<Segment>, t: Path)
    requires UserPath(t)
    ensures t in FinalSet(s0, a, gs) <==> t in MappedSet(s0, a) || LastCover(gs, |gs|, PageOfPath(t)) >= 0
  {
    hide PageOfPath;
    hide MappedSet;
    InAllUserPaths(t);
  }

  lemma {:induction false} PagesBeforeMonotone(gs: seq<Segment>, i: nat, j: nat)
    requires i <= j <= |gs|
    ensures PagesBefore(gs, i) <= PagesBefore(gs, j)
  {
    if i < j {
      PagesBeforeMonotone(gs, i, j - 1);
    }
  }

  /** If the next page does not fit into the pool, neither does the whole file. */
  lemma NoRoomToLoad(s0: Phys, s: Phys, a: Space, file: File, gs: seq<Segment>, i: nat, v: nat, junk: Word)
    requires LoadState(s0, s, a, file, gs, i, v, junk) && i < |gs| && gs[i].Loads()
    requires gs[i].First() <= v <= gs[i].Last()
    requires UserPage64(v)
    ensures Used(s) + 1 + Missing(s, a, PathOfPage(v)) <= LoadedUse(s0, a, gs)
  {
    hide *;
    var t := PathOfPage(v);
    LoadFits(s0, s, a, file, gs, i, v, junk);
    PathsArePages(v);
    MappedIsFinal(s0, s, a, file, gs, i, v, junk);
    NextIsFinal(s0, a, gs, i, v);
    var m := MappedSet(s, a) + {t};
    TablesGrow(s, a, t);
    TablesForMonotone(a, m, FinalSet(s0, a, gs));
    SubsetSize(TablesFor(a, m), TablesFor(a, FinalSet(s0, a, gs)));
    RoomFor(s0, s, a, file, gs, i, v, junk);
  }

  lemma NextIsFinal(s0: Phys, a: Space, gs: seq<Segment>, i: nat, v: nat)
    requires i < |gs| && gs[i].Loads() && gs[i].First() <= v <= gs[i].Last() && UserPage64(v)
    ensures PathOfPage(v) in FinalSet(s0, a, gs)
  {
    hide PathOfPage;
    hide PageOfPath;
    PathsArePages(v);
    InAllUserPaths(PathOfPage(v));
    assert gs[i].Covers(v);
  }

  lemma RoomFor(s0: Phys, s: Phys, a: Space, file: File, gs: seq<Segment>, i: nat, v: nat, junk: Word)
    requires LoadState(s0, s, a, file, gs, i, v, junk) && i < |gs| && gs[i].Loads()
    requires gs[i].First() <= v <= gs[i].Last()
    ensures Used(s) + 1 <=
              Used(s0) + PagesBefore(gs, |gs|) + |TablesFor(a, MappedSet(s, a))| - |TablesFor(a, MappedSet(s0, a))|
    ensures LoadedUse(s0, a, gs) ==
      Used(s0) + PagesBefore(gs, |gs|) + |TablesFor(a, FinalSet(s0, a, gs))| - |TablesFor(a, MappedSet(s0, a))|
  {
    hide AllShown;
    hide CanLoad;
    hide KeptBut;
    hide NoIdleTables;
    hide MappedSet;
    hide TablesFor;
    hide FinalSet;
    PagesBeforeMonotone(gs, i + 1, |gs|);
  }

  /** What loading leaves: the segments in memory, and exactly LoadedUse pages in use. */
  lemma LoadEnds(s0: Phys, s: Phys, a: Space, file: File, gs: seq<Segment>, junk: Word)
    requires LoadState(s0, s, a, file, gs, |gs|, 0, junk)
    ensures MappedSet(s, a) == FinalSet(s0, a, gs)
    ensures Used(s) == LoadedUse(s0, a, gs)
  {
    MappedIsFinal(s0, s, a, file, gs, |gs|, 0, junk);
    FinalIsMapped(s0, s, a, file, gs, junk);
    hide AllShown;
    hide CanLoad;
    hide KeptBut;
    hide NoIdleTables;
    hide MappedSet;
    hide TablesFor;
    hide FinalSet;
  }

  lemma FinalIsMapped(s0: Phys, s: Phys, a: Space, file: File, gs: seq<Segment>, junk: Word)
    requires LoadState(s0, s, a, file, gs, |gs|, 0, junk)
    ensures FinalSet(s0, a, gs) <= MappedSet(s, a)
  {
    hide *;
    LoadFits(s0, s, a, file, gs, |gs|, 0, junk);
    forall t | t in FinalSet(s0, a, gs) ensures t in MappedSet(s, a) {
      FinalInRange(s0, a, gs, t);
      MappedAt(s0, s, a, file, gs, |gs|, 0, junk, t);
      MappedView(s0, a, t);
      MappedView(s, a, t);
      InFinalSet(s0, a, gs, t);
      ShowsAll(gs, PageOfPath(t));
    }
  }

  lemma FinalInRange(s0: Phys, a: Space, gs: seq<Segment>, t: Path)
    requires t in FinalSet(s0, a, gs)
    ensures UserPath(t)
  {
    InAllUserPaths(t);
  }

  lemma ShowsAll(gs: seq<Segment>, pn: nat)
    ensures Shows(gs, |gs|, 0, pn) == LastCover(gs, |gs|, pn)
  {
  }
}
