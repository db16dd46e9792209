/**
 What one address space owns and sees, and what working on one space leaves alone in
 all the others.
 */
module AddressSpaces {
  import opened Words
  import opened Sv39Bits
  import opened PhysicalMemories
  import opened PageTables
  import opened Mappings

  // --------------------------------------------------------------- the user half

  /** A page as a program sees it: its permissions and its contents. */
  datatype UserPage = Absent | Present(flags: nat, page: Page)

  predicate UserPath(t: Path) {
    t.InRange() && t.i2 >= 256
  }

  function View(s: Phys, a: Space, t: Path): UserPage {
    var e := LeafAt(s, a, t);
    if V(e) && 0x8_0000 <= e / 1024 < 0x8_0000 + |s.mem| then Present(e % 1024, s.mem[e / 1024 - 0x8_0000]) else Absent
  }

  /** In well-formed tables a page is seen exactly when it is mapped. */
  lemma ViewIsMapped(s: Phys, a: Space, t: Path)
    requires WellFormed(s) && a in s.roots && a != Boot && UserPath(t)
    ensures View(s, a, t).Present? <==> Mapped(s, a, t)
    ensures Mapped(s, a, t) ==> LeafAt(s, a, t) / 1024 in s.own && s.own[LeafAt(s, a, t) / 1024] == Frame(a, t)
    ensures Mapped(s, a, t) ==>
              View(s, a, t) == Present(LeafAt(s, a, t) % 1024, PageAt(s.mem, LeafAt(s, a, t) / 1024))
    ensures forall p {:trigger s.own[p]} :: p in s.own && s.own[p] == Frame(a, t) ==>
              Mapped(s, a, t) && LeafAt(s, a, t) / 1024 == p
  {
    hide LeafAt;
    WalkMeets(s, a, t);
    forall p | p in s.own && s.own[p] == Frame(a, t) ensures Mapped(s, a, t) && LeafAt(s, a, t) / 1024 == p {
      assert Reached(s, p, s.own[p]);
    }
  }

  ghost predicate SameUserMemory(s: Phys, s': Phys, a: Space) {
    forall t: Path {:trigger View(s', a, t)} :: UserPath(t) ==> View(s', a, t) == View(s, a, t)
  }

  // ------------------------------------------------------------------ ownership

  predicate Belongs(r: Role, a: Space) {
    !r.Loose? && r.a == a
  }

  /** The places of a's trees that hold a page: root, tables and frames. */
  ghost function Footprint(s: Phys, a: Space): set<Role> {
    set q | q in s.own && Belongs(s.own[q], a) :: s.own[q]
  }

  /** The places that mapping exactly the pages of m demands. */
  ghost function RolesFor(a: Space, m: set<Path>): set<Role> {
    {Root(a)} + (set t | t in m :: L1(a, t.i2)) + (set t | t in m :: L0(a, t.i2, t.i1))
    + (set t | t in m :: Frame(a, t))
  }

  /** The tables among them. */
  ghost function TablesFor(a: Space, m: set<Path>): set<Role> {
    (set t | t in m :: L1(a, t.i2)) + (set t | t in m :: L0(a, t.i2, t.i1))
  }

  lemma TablesForMore(a: Space, m: set<Path>, t: Path)
    ensures TablesFor(a, m + {t}) == TablesFor(a, m) + {L1(a, t.i2)} + {L0(a, t.i2, t.i1)}
  {
  }

  lemma TablesForBoth(a: Space, m: set<Path>, n: set<Path>)
    ensures TablesFor(a, m + n) == TablesFor(a, m) + TablesFor(a, n)
  {
  }

  lemma TablesForMonotone(a: Space, m: set<Path>, n: set<Path>)
    requires m <= n
    ensures TablesFor(a, m) <= TablesFor(a, n)
  {
  }

  /** The mapped user pages of a. */
  ghost function MappedSet(s: Phys, a: Space): set<Path> {
    set q | q in s.own && s.own[q].Frame? && s.own[q].a == a :: s.own[q].t
  }

  /** The tables of a are exactly those its mapped pages need: no table is empty. */
  ghost predicate NoIdleTables(s: Phys, a: Space) {
    Footprint(s, a) == RolesFor(a, MappedSet(s, a))
  }

  lemma InMappedSet(s: Phys, a: Space, t: Path)
    requires WellFormed(s) && a in s.roots && a != Boot && UserPath(t)
    ensures t in MappedSet(s, a) <==> Mapped(s, a, t)
    ensures Frame(a, t) in Footprint(s, a) <==> Mapped(s, a, t)
  {
    hide WellFormed;
    hide LeafAt;
    ViewIsMapped(s, a, t);
    if t in MappedSet(s, a) {
      var q :| q in s.own && s.own[q].Frame? && s.own[q].a == a && s.own[q].t == t;
      assert s.own[q] == Frame(a, t);
    }
  }

  lemma TablesInFootprint(s: Phys, a: Space, i2: nat, i1: nat)
    requires WellFormed(s) && a in s.roots && Half(a, i2) && i1 < 512
    ensures L1(a, i2) in Footprint(s, a) <==> Table1(s, a, i2) != 0
    ensures L0(a, i2, i1) in Footprint(s, a) <==> Table0(s, a, i2, i1) != 0
  {
    WalkMeets(s, a, Path(i2, i1, 0));
    if L1(a, i2) in Footprint(s, a) {
      var q :| q in s.own && Belongs(s.own[q], a) && s.own[q] == L1(a, i2);
      assert Reached(s, q, s.own[q]);
    }
    if L0(a, i2, i1) in Footprint(s, a) {
      var q :| q in s.own && Belongs(s.own[q], a) && s.own[q] == L0(a, i2, i1);
      assert Reached(s, q, s.own[q]);
    }
  }

  // --------------------------------------------------- work that is local to a space

  /** All pages that do not belong to a keep their role and contents, and no root moves. */
  ghost predicate KeptBut(s: Phys, s': Phys, a: Space) {
    && WellFormed(s) && WellFormed(s')
    && (forall b :: b in s.roots ==> b in s'.roots && s'.roots[b] == s.roots[b])
    && (forall q :: q in s.own ==> q in s'.own)
    && (forall q :: q in s.own && !Belongs(s.own[q], a) ==>
          s'.own[q] == s.own[q] && PageAt(s'.mem, q) == PageAt(s.mem, q))
    && (forall q :: q in s'.own && !Belongs(s'.own[q], a) && s'.own[q] != Loose ==> q in s.own && s.own[q] == s'.own[q])
  }

  lemma KeptEntries(s: Phys, s': Phys, a: Space, q: nat, i: nat)
    requires KeptBut(s, s', a) && q in s.own && !Belongs(s.own[q], a) && i < 512
    ensures Entry(s'.mem, q, i) == Entry(s.mem, q, i)
  {
    assert PageAt(s'.mem, q)[i] == PageAt(s.mem, q)[i];
  }

  /** In every other space all walks, and all user memory, stay the same. */
  lemma KeptSpaces(s: Phys, s': Phys, a: Space, b: Space)
    requires KeptBut(s, s', a) && a != Boot && b in s.roots && b != a
    ensures forall t: Path {:trigger LeafAt(s', b, t)} :: t.InRange() ==> LeafAt(s', b, t) == LeafAt(s, b, t)
    ensures b != Boot ==> SameUserMemory(s, s', b)
    ensures Footprint(s', b) == Footprint(s, b) && MappedSet(s', b) == MappedSet(s, b)
  {
    forall t: Path | t.InRange() ensures LeafAt(s', b, t) == LeafAt(s, b, t) {
      KeptLeaf(s, s', a, b, t);
    }
    if b != Boot {
      forall t: Path | UserPath(t) ensures View(s', b, t) == View(s, b, t) {
        KeptView(s, s', a, b, t);
      }
    }
    KeptFootprint(s, s', a, b);
  }

  lemma KeptFootprint(s: Phys, s': Phys, a: Space, b: Space)
    requires KeptBut(s, s', a) && b != a
    ensures Footprint(s', b) == Footprint(s, b) && MappedSet(s', b) == MappedSet(s, b)
  {
    hide WellFormed;
    forall q | q in s.own && Belongs(s.own[q], b) ensures q in s'.own && s'.own[q] == s.own[q] {
      assert !Belongs(s.own[q], a);
    }
    forall q | q in s'.own && Belongs(s'.own[q], b) ensures q in s.own && s.own[q] == s'.own[q] {
      assert !Belongs(s'.own[q], a);
    }
    SameRoles(s, s', b);
  }

  lemma SameRoles(s: Phys, s': Phys, b: Space)
    requires forall q :: q in s.own && Belongs(s.own[q], b) ==> q in s'.own && s'.own[q] == s.own[q]
    requires forall q :: q in s'.own && Belongs(s'.own[q], b) ==> q in s.own && s.own[q] == s'.own[q]
    ensures Footprint(s', b) == Footprint(s, b) && MappedSet(s', b) == MappedSet(s, b)
  {
    forall r ensures r in Footprint(s', b) <==> r in Footprint(s, b) {
      if r in Footprint(s', b) {
        var q :| q in s'.own && Belongs(s'.own[q], b) && s'.own[q] == r;
        assert q in s.own && s.own[q] == r;
      }
      if r in Footprint(s, b) {
        var q :| q in s.own && Belongs(s.own[q], b) && s.own[q] == r;
        assert q in s'.own && s'.own[q] == r;
      }
    }
    forall t ensures t in MappedSet(s', b) <==> t in MappedSet(s, b) {
      if t in MappedSet(s', b) {
        var q :| q in s'.own && s'.own[q].Frame? && s'.own[q].a == b && s'.own[q].t == t;
        assert q in s.own && s.own[q] == s'.own[q];
      }
      if t in MappedSet(s, b) {
        var q :| q in s.own && s.own[q].Frame? && s.own[q].a == b && s.own[q].t == t;
        assert q in s'.own && s'.own[q] == s.own[q];
      }
    }
  }

  lemma KeptLeaf(s: Phys, s': Phys, a: Space, b: Space, t: Path)
    requires KeptBut(s, s', a) && a != Boot && b in s.roots && b != a && t.InRange()
    ensures Table1(s', b, t.i2) == Table1(s, b, t.i2) && Table0(s', b, t.i2, t.i1) == Table0(s, b, t.i2, t.i1)
    ensures LeafAt(s', b, t) == LeafAt(s, b, t)
  {
    hide WellFormed;
    hide KeptBut;
    KeptRoots(s, s', a, b);
    WalkMeets(s, b, t);
    ValidMeets(s, b, t);
    KeptEntries(s, s', a, s.roots[b], t.i2);
    var p1, p0 := Table1(s, b, t.i2), Table0(s, b, t.i2, t.i1);
    if p1 != 0 {
      KeptEntries(s, s', a, p1, t.i1);
      if p0 != 0 {
        KeptEntries(s, s', a, p0, t.i0);
      }
    }
  }

  lemma KeptRoots(s: Phys, s': Phys, a: Space, b: Space)
    requires KeptBut(s, s', a) && b in s.roots && b != a
    ensures WellFormed(s) && WellFormed(s') && b in s'.roots && s'.roots[b] == s.roots[b]
    ensures s.roots[b] in s.own && s.own[s.roots[b]] == Root(b)
  {
  }

  lemma KeptView(s: Phys, s': Phys, a: Space, b: Space, t: Path)
    requires KeptBut(s, s', a) && a != Boot && b in s.roots && b != a && b != Boot && UserPath(t)
    ensures View(s', b, t) == View(s, b, t)
  {
    hide WellFormed;
    hide LeafAt;
    KeptLeaf(s, s', a, b, t);
    Basics(s);
    Basics(s');
    ViewIsMapped(s, b, t);
    if Mapped(s, b, t) {
      var q := LeafAt(s, b, t) / 1024;
      assert PageAt(s'.mem, q) == PageAt(s.mem, q);
    }
  }

  lemma KeptSelf(s: Phys, a: Space)
    requires WellFormed(s)
    ensures KeptBut(s, s, a)
  {
  }

  lemma KeptTwice(s: Phys, s1: Phys, s2: Phys, a: Space)
    requires KeptBut(s, s1, a) && KeptBut(s1, s2, a)
    ensures KeptBut(s, s2, a)
  {
    hide WellFormed;
  }

  // ----------------------------------------------------------- what each step keeps

  lemma KeptTake(s0: Phys, s: Phys, a: Space, p: nat)
    requires KeptBut(s0, s, a) && p !in s.own && IsPage(p)
    ensures KeptBut(s0, Take(s, p), a)
    ensures Footprint(Take(s, p), a) == Footprint(s, a) && MappedSet(Take(s, p), a) == MappedSet(s, a)
    ensures Used(Take(s, p)) == Used(s) + 1
    ensures forall b, t :: LeafAt(Take(s, p), b, t) == LeafAt(s, b, t)
    ensures forall b, t :: View(Take(s, p), b, t) == View(s, b, t)
  {
    hide *;
    TakeKeptBut(s0, s, a, p);
    TakeCounts(s, a, p);
    TakeViews(s, p);
  }

  lemma TakeKeptBut(s0: Phys, s: Phys, a: Space, p: nat)
    requires KeptBut(s0, s, a) && p !in s.own && IsPage(p)
    ensures KeptBut(s0, Take(s, p), a)
  {
    hide WellFormed;
    hide LeafAt;
    TakeKeeps(s, p);
  }

  lemma TakeCounts(s: Phys, a: Space, p: nat)
    requires p !in s.own
    ensures Footprint(Take(s, p), a) == Footprint(s, a) && MappedSet(Take(s, p), a) == MappedSet(s, a)
    ensures Used(Take(s, p)) == Used(s) + 1
  {
    hide Footprint;
    hide MappedSet;
    SameRoles(s, Take(s, p), a);
  }

  lemma TakeViews(s: Phys, p: nat)
    ensures forall b, t :: LeafAt(Take(s, p), b, t) == LeafAt(s, b, t)
    ensures forall b, t :: View(Take(s, p), b, t) == View(s, b, t)
  {
  }

  /** Filling a page that no tree holds yet. */
  lemma KeptFill(s0: Phys, s: Phys, a: Space, p: nat, page: Page)
    requires KeptBut(s0, s, a) && p in s.own && s.own[p] == Loose && p !in s0.own && |page| == 512 && IsPage(p)
    ensures KeptBut(s0, Fill(s, p, page), a)
    ensures Footprint(Fill(s, p, page), a) == Footprint(s, a) && MappedSet(Fill(s, p, page), a) == MappedSet(s, a)
    ensures forall t: Path {:trigger LeafAt(Fill(s, p, page), a, t)} :: a in s.roots && t.InRange() ==>
              LeafAt(Fill(s, p, page), a, t) == LeafAt(s, a, t)
    ensures a in s.roots && a != Boot ==> SameUserMemory(s, Fill(s, p, page), a)
  {
    hide *;
    KeptBasics(s0, s, a);
    LooseIsData(s.own[p]);
    FillKeptBut(s0, s, a, p, page);
    FillCounts(s, a, p, page);
    FillLeaves(s, a, p, page);
    if a in s.roots && a != Boot {
      FillViews(s, a, p, page);
    }
  }

  lemma OwnedPages(s: Phys)
    requires WellFormed(s)
    ensures Shaped(s.mem) && forall q :: q in s.own ==> IsPage(q)
  {
  }

  lemma LooseIsData(r: Role)
    ensures r == Loose ==> IsData(r)
  {
  }

  lemma KeptBasics(s0: Phys, s: Phys, a: Space)
    requires KeptBut(s0, s, a)
    ensures WellFormed(s0) && WellFormed(s) && Shaped(s.mem)
  {
    Basics(s);
    hide WellFormed;
  }

  lemma FillKeptBut(s0: Phys, s: Phys, a: Space, p: nat, page: Page)
    requires KeptBut(s0, s, a) && Shaped(s.mem) && p in s.own && IsData(s.own[p]) && |page| == 512 && IsPage(p)
    requires p in s0.own ==> Belongs(s0.own[p], a)
    ensures KeptBut(s0, Fill(s, p, page), a)
  {
    hide WellFormed;
    hide LeafAt;
    FillKeeps(s, p, page);
    OwnedPages(s0);
    forall q | q in s0.own && !Belongs(s0.own[q], a) ensures PageAt(Fill(s, p, page).mem, q) == PageAt(s0.mem, q) {
      assert q != p && PageAt(s.mem, q) == PageAt(s0.mem, q);
    }
  }

  lemma FillCounts(s: Phys, a: Space, p: nat, page: Page)
    requires Shaped(s.mem) && |page| == 512 && IsPage(p)
    ensures Footprint(Fill(s, p, page), a) == Footprint(s, a) && MappedSet(Fill(s, p, page), a) == MappedSet(s, a)
  {
  }

  lemma FillLeaves(s: Phys, a: Space, p: nat, page: Page)
    requires WellFormed(s) && Shaped(s.mem) && p in s.own && IsData(s.own[p]) && |page| == 512 && IsPage(p)
    ensures forall t: Path {:trigger LeafAt(Fill(s, p, page), a, t)} :: a in s.roots && t.InRange() ==>
              LeafAt(Fill(s, p, page), a, t) == LeafAt(s, a, t)
  {
    hide LeafAt;
    hide WellFormed;
    FillKeeps(s, p, page);
  }

  lemma FillViews(s: Phys, a: Space, p: nat, page: Page)
    requires WellFormed(s) && a in s.roots && a != Boot && p in s.own && s.own[p] == Loose && |page| == 512 && IsPage(p)
    ensures SameUserMemory(s, Fill(s, p, page), a)
  {
    hide LeafAt;
    hide WellFormed;
    Basics(s);
    FillWalks(s, p, page);
    forall t: Path | UserPath(t) ensures View(Fill(s, p, page), a, t) == View(s, a, t) {
      ViewIsMapped(s, a, t);
    }
  }

  /** A new mapping of a touches no page of another space and no loose page but the new frame. */
  lemma KeptConnect(s0: Phys, s: Phys, s': Phys, a: Space, t: Path, pte: Word)
    requires KeptBut(s0, s, a) && Connected(s, s', a, t, pte) && a != Boot && MayHold(s, a, pte)
    requires pte / 1024 !in s0.own && UserPath(t)
    ensures KeptBut(s0, s', a)
  {
    hide Connected;
    hide WellFormed;
    hide MayHold;
    ConnectedShape(s, s', a, t, pte);
    OwnedPages(s);
    forall q | q in s.own && !Belongs(s.own[q], a) && q != pte / 1024
      ensures q in s'.own && s'.own[q] == s.own[q] && PageAt(s'.mem, q) == PageAt(s.mem, q)
    {
      ConnectedPage(s, s', a, t, pte, q);
    }
    forall q | q in s'.own && !Belongs(s'.own[q], a) && s'.own[q] != Loose
      ensures q in s.own && s.own[q] == s'.own[q]
    {
      ConnectedRole(s, s', a, t, pte, q);
    }
  }

  lemma ConnectedShape(s: Phys, s': Phys, a: Space, t: Path, pte: Word)
    requires Connected(s, s', a, t, pte)
    ensures WellFormed(s) && WellFormed(s') && Shaped(s.mem) && Shaped(s'.mem) && s'.roots == s.roots && a in s.roots
    ensures forall q :: q in s.own ==> q in s'.own
  {
    Basics(s);
    Basics(s');
    hide WellFormed;
    hide LeafReplaced;
    hide OnlyTablesWritten;
    hide RoleAfter;
  }

  lemma ConnectedPage(s: Phys, s': Phys, a: Space, t: Path, pte: Word, q: nat)
    requires Connected(s, s', a, t, pte) && a != Boot && UserPath(t)
    requires q in s.own && !Belongs(s.own[q], a) && q != pte / 1024
    ensures Shaped(s.mem) && Shaped(s'.mem) && IsPage(q)
    ensures q in s'.own && s'.own[q] == s.own[q] && PageAt(s'.mem, q) == PageAt(s.mem, q)
  {
    hide WellFormed;
    hide LeafAt;
    hide LeafReplaced;
    Basics(s);
    Basics(s');
    ViewIsMapped(s, a, t);
    assert s'.own[q] == RoleAfter(s, a, t, pte, q);
  }

  lemma ConnectedRole(s: Phys, s': Phys, a: Space, t: Path, pte: Word, q: nat)
    requires Connected(s, s', a, t, pte) && a != Boot && UserPath(t)
    requires q in s'.own && !Belongs(s'.own[q], a) && s'.own[q] != Loose
    ensures q in s.own && s.own[q] == s'.own[q]
  {
    hide WellFormed;
    hide LeafAt;
    hide LeafReplaced;
    hide OnlyTablesWritten;
    if q in s.own {
      assert s'.own[q] == RoleAfter(s, a, t, pte, q);
    }
  }

  lemma ConnectedView(s: Phys, s': Phys, a: Space, t: Path, pte: Word, u: Path)
    requires Connected(s, s', a, t, pte) && a != Boot && MayHold(s, a, pte) && UserPath(t) && UserPath(u)
    ensures View(s', a, u) == if u == t then Present(pte % 1024, PageAt(s.mem, pte / 1024)) else View(s, a, u)
  {
    hide WellFormed;
    hide LeafAt;
    hide RolesReassigned;
    Basics(s);
    Basics(s');
    assert LeafAt(s', a, u) == if u == t then pte else LeafAt(s, a, u);
    ViewIsMapped(s', a, u);
  }

  lemma ConnectedFootprint(s: Phys, s': Phys, a: Space, t: Path, pte: Word)
    requires Connected(s, s', a, t, pte) && a != Boot && MayHold(s, a, pte) && UserPath(t)
    ensures Footprint(s', a) == Footprint(s, a) + {L1(a, t.i2), L0(a, t.i2, t.i1), Frame(a, t)}
    ensures MappedSet(s', a) == MappedSet(s, a) + {t}
  {
    hide *;
    ConnectedShape(s, s', a, t, pte);
    ConnectedHas(s, s', a, t, pte);
    var added := {L1(a, t.i2), L0(a, t.i2, t.i1), Frame(a, t)};
    forall r ensures r in Footprint(s', a) <==> r in Footprint(s, a) + added {
      ConnectedOnly(s, s', a, t, pte, r);
      ConnectedStill(s, s', a, t, pte, r);
    }
    forall u ensures u in MappedSet(s', a) <==> u in MappedSet(s, a) + {t} {
      FrameInSets(s', a, u);
      FrameInSets(s, a, u);
    }
  }

  /** The new mapping's places are held. */
  lemma ConnectedHas(s: Phys, s': Phys, a: Space, t: Path, pte: Word)
    requires Connected(s, s', a, t, pte) && a != Boot && MayHold(s, a, pte) && UserPath(t)
    ensures L1(a, t.i2) in Footprint(s', a) && L0(a, t.i2, t.i1) in Footprint(s', a) && Frame(a, t) in Footprint(s', a)
  {
    hide WellFormed;
    hide LeafAt;
    hide OnlyTablesWritten;
    assert LeafAt(s', a, t) == pte;
    WalkMeets(s', a, t);
    assert s'.own[pte / 1024] == RoleAfter(s, a, t, pte, pte / 1024);
  }

  /** No other place is new. */
  lemma ConnectedOnly(s: Phys, s': Phys, a: Space, t: Path, pte: Word, r: Role)
    requires Connected(s, s', a, t, pte) && a != Boot
    ensures r in Footprint(s', a) ==> r in Footprint(s, a) + {L1(a, t.i2), L0(a, t.i2, t.i1), Frame(a, t)}
  {
    hide WellFormed;
    hide LeafAt;
    hide LeafReplaced;
    hide OnlyTablesWritten;
    if r in Footprint(s', a) {
      var q :| q in s'.own && Belongs(s'.own[q], a) && s'.own[q] == r;
      if q in s.own {
        assert r == RoleAfter(s, a, t, pte, q);
      }
    }
  }

  /** And none is lost. */
  lemma ConnectedStill(s: Phys, s': Phys, a: Space, t: Path, pte: Word, r: Role)
    requires Connected(s, s', a, t, pte) && a != Boot && MayHold(s, a, pte) && UserPath(t)
    ensures r in Footprint(s, a) && r != Frame(a, t) ==> r in Footprint(s', a)
  {
    hide WellFormed;
    hide LeafAt;
    hide LeafReplaced;
    hide OnlyTablesWritten;
    if r in Footprint(s, a) && r != Frame(a, t) {
      var q :| q in s.own && Belongs(s.own[q], a) && s.own[q] == r;
      ViewIsMapped(s, a, t);
      assert s'.own[q] == RoleAfter(s, a, t, pte, q) == r;
    }
  }

  lemma FrameInSets(s: Phys, a: Space, t: Path)
    ensures t in MappedSet(s, a) <==> Frame(a, t) in Footprint(s, a)
  {
    if t in MappedSet(s, a) {
      var q :| q in s.own && s.own[q].Frame? && s.own[q].a == a && s.own[q].t == t;
      assert Belongs(s.own[q], a) && s.own[q] == Frame(a, t);
    }
  }

  /** One more mapping: the tables it lacked, a frame unless the page was mapped already, and no idle table. */
  lemma ConnectedCounts(s: Phys, s': Phys, a: Space, t: Path, pte: Word)
    requires Connected(s, s', a, t, pte) && a != Boot && MayHold(s, a, pte) && UserPath(t)
    ensures |Footprint(s', a)| == |Footprint(s, a)| + Missing(s, a, t) + if Mapped(s, a, t) then 0 else 1
    ensures NoIdleTables(s, a) ==> NoIdleTables(s', a)
  {
    ConnectedFootprint(s, s', a, t, pte);
    CountMissing(s, a, t);
    RolesForMore(a, MappedSet(s, a), t);
    hide *;
    AddThree(Footprint(s, a), L1(a, t.i2), L0(a, t.i2, t.i1), Frame(a, t));
    NoIdleMeans(s, a);
    NoIdleMeans(s', a);
  }

  lemma NoIdleMeans(s: Phys, a: Space)
    ensures NoIdleTables(s, a) <==> Footprint(s, a) == RolesFor(a, MappedSet(s, a))
  {
  }

  lemma CountMissing(s: Phys, a: Space, t: Path)
    requires WellFormed(s) && a in s.roots && a != Boot && UserPath(t)
    ensures Missing(s, a, t) ==
      (if L1(a, t.i2) in Footprint(s, a) then 0 else 1) + (if L0(a, t.i2, t.i1) in Footprint(s, a) then 0 else 1)
    ensures Frame(a, t) in Footprint(s, a) <==> Mapped(s, a, t)
  {
    hide WellFormed;
    hide LeafAt;
    hide Footprint;
    InMappedSet(s, a, t);
    TablesInFootprint(s, a, t.i2, t.i1);
    WalkMeets(s, a, t);
  }

  lemma AddOne<T>(f: set<T>, x: T)
    ensures |f + {x}| == |f| + if x in f then 0 else 1
  {
    if x in f {
      assert f + {x} == f;
    }
  }

  lemma AddThree<T>(f: set<T>, x: T, y: T, z: T)
    requires x != y && y != z && x != z
    ensures |f + {x, y, z}| ==
      |f| + (if x in f then 0 else 1) + (if y in f then 0 else 1) + (if z in f then 0 else 1)
  {
    AddOne(f, x);
    AddOne(f + {x}, y);
    AddOne(f + {x} + {y}, z);
    assert f + {x, y, z} == f + {x} + {y} + {z};
  }

  lemma RolesForMore(a: Space, m: set<Path>, t: Path)
    ensures RolesFor(a, m + {t}) == RolesFor(a, m) + {L1(a, t.i2), L0(a, t.i2, t.i1), Frame(a, t)}
  {
  }

  lemma RolesForMonotone(a: Space, m: set<Path>, n: set<Path>)
    requires m <= n
    ensures RolesFor(a, m) <= RolesFor(a, n)
  {
  }

  /** New contents for a frame that a holds at t: only that page of a changes. */
  lemma FillFrame(s0: Phys, s: Phys, a: Space, t: Path, p: nat, page: Page)
    requires KeptBut(s0, s, a) && a != Boot && a in s.roots && UserPath(t)
    requires p in s.own && s.own[p] == Frame(a, t) && |page| == 512 && IsPage(p)
    ensures KeptBut(s0, Fill(s, p, page), a)
    ensures Footprint(Fill(s, p, page), a) == Footprint(s, a) && MappedSet(Fill(s, p, page), a) == MappedSet(s, a)
    ensures forall u: Path {:trigger View(Fill(s, p, page), a, u)} :: UserPath(u) ==>
              View(Fill(s, p, page), a, u) == if u == t then Present(LeafAt(s, a, t) % 1024, page) else View(s, a, u)
  {
    hide *;
    KeptBasics(s0, s, a);
    FrameIsKept(s0, s, a, t, p);
    FillKeptBut(s0, s, a, p, page);
    FillCounts(s, a, p, page);
    forall u: Path | UserPath(u)
      ensures View(Fill(s, p, page), a, u) == if u == t then Present(LeafAt(s, a, t) % 1024, page) else View(s, a, u)
    {
      FillFrameView(s, a, t, p, page, u);
    }
  }

  lemma FrameIsKept(s0: Phys, s: Phys, a: Space, t: Path, p: nat)
    requires KeptBut(s0, s, a) && p in s.own && s.own[p] == Frame(a, t)
    ensures IsData(s.own[p]) && (p in s0.own ==> Belongs(s0.own[p], a))
  {
    hide WellFormed;
  }

  lemma FillFrameView(s: Phys, a: Space, t: Path, p: nat, page: Page, u: Path)
    requires WellFormed(s) && a != Boot && a in s.roots && UserPath(t) && UserPath(u)
    requires p in s.own && s.own[p] == Frame(a, t) && |page| == 512 && IsPage(p)
    ensures View(Fill(s, p, page), a, u) == if u == t then Present(LeafAt(s, a, t) % 1024, page) else View(s, a, u)
  {
    hide LeafAt;
    hide WellFormed;
    Basics(s);
    FillWalks(s, p, page);
    ViewIsMapped(s, a, t);
    ViewIsMapped(s, a, u);
  }

  // -------------------------------------------------------------- a new space

  lemma SetEntryIsFill(s: Phys, p: nat, i: nat, w: Word)
    requires Shaped(s.mem) && IsPage(p) && i < 512
    ensures s.(mem := SetEntry(s.mem, p, i, w)) == Fill(s, p, PageAt(s.mem, p)[i := w])
  {
  }

  lemma FillTwice(s: Phys, p: nat, page: Page, page': Page)
    requires Shaped(s.mem) && IsPage(p) && |page| == 512 && |page'| == 512
    ensures Shaped(Fill(s, p, page).mem) && PageAt(Fill(s, p, page).mem, p) == page
    ensures Fill(Fill(s, p, page), p, page') == Fill(s, p, page')
  {
  }

  /** The first n entries of the root b, and zeros. */
  predicate KernelEntries(s: Phys, b: Space, page: Page, n: nat)
    requires b in s.roots
  {
    && |page| == 512
    && (forall i {:trigger page[i]} :: 0 <= i < 512 && i < n ==> page[i] == Entry(s.mem, s.roots[b], i))
    && (forall i {:trigger page[i]} :: n <= i < 512 ==> page[i] == 0)
  }

  /** What a page that received the kernel entries of any root becomes when it is made the root of a. */
  lemma NewSpace(s: Phys, a: Space, b: Space, p: nat, page: Page)
    requires WellFormed(s) && a !in s.roots && b in s.roots && p !in s.own && IsPage(p)
    requires KernelEntries(s, b, page, 256)
    ensures var s' := NewRoot(Fill(Take(s, p), p, page), a, p);
      && WellFormed(s') && KeptBut(s, s', a) && Footprint(s', a) == {Root(a)} && MappedSet(s', a) == {}
      && Used(s') == Used(s) + 1 && a in s'.roots && s'.roots.Keys == s.roots.Keys + {a} && s'.roots[a] == p
      && (forall t: Path {:trigger LeafAt(s', a, t)} :: t.InRange() ==>
            LeafAt(s', a, t) == if t.i2 < 256 then LeafAt(s, Boot, t) else 0)
  {
    hide *;
    Basics(s);
    TakeKeeps(s, p);
    TakenIs(s, p);
    var s1 := Take(s, p);
    PageLength(s, b, page);
    FillKeeps(s1, p, page);
    var s2 := Fill(s1, p, page);
    FilledIs(s1, p, page);
    NewRootReady(s, b, p, page);
    NewRootKeeps(s2, a, p);
    NewRootWalks(s2, a, p);
    NewSpaceRoles(s, a, p, page);
    NewSpaceKept(s, a, p, page);
    forall t: Path | t.InRange()
      ensures LeafAt(NewRoot(s2, a, p), a, t) == if t.i2 < 256 then LeafAt(s, Boot, t) else 0
    {
      assert LeafAt(s2, Boot, t) == LeafAt(s1, Boot, t) == LeafAt(s, Boot, t);
    }
  }

  lemma TakenIs(s: Phys, p: nat)
    ensures Take(s, p).mem == s.mem && Take(s, p).roots == s.roots && p in Take(s, p).own && Take(s, p).own[p] == Loose
    ensures IsData(Loose)
  {
  }

  lemma FilledIs(s: Phys, p: nat, page: Page)
    requires Shaped(s.mem) && IsPage(p) && |page| == 512
    ensures Fill(s, p, page).own == s.own && Fill(s, p, page).roots == s.roots
  {
  }

  lemma PageLength(s: Phys, b: Space, page: Page)
    requires b in s.roots && KernelEntries(s, b, page, 256)
    ensures |page| == 512
  {
  }

  lemma NewSpaceKept(s: Phys, a: Space, p: nat, page: Page)
    requires WellFormed(s) && a !in s.roots && p !in s.own && IsPage(p) && |page| == 512
    requires WellFormed(NewRoot(Fill(Take(s, p), p, page), a, p))
    ensures var s' := NewRoot(Fill(Take(s, p), p, page), a, p);
      KeptBut(s, s', a) && a in s'.roots && s'.roots.Keys == s.roots.Keys + {a} && s'.roots[a] == p && Boot in s.roots
  {
    hide WellFormed;
    OwnedPages(s);
    BootRoot(s);
    var s' := NewRoot(Fill(Take(s, p), p, page), a, p);
    assert s'.own == s.own[p := Root(a)];
    forall q | q in s.own ensures PageAt(s'.mem, q) == PageAt(s.mem, q) {
      assert q != p;
    }
  }

  lemma BootRoot(s: Phys)
    requires WellFormed(s)
    ensures Boot in s.roots
  {
  }

  lemma NewRootReady(s: Phys, b: Space, p: nat, page: Page)
    requires WellFormed(s) && b in s.roots && p !in s.own && IsPage(p) && KernelEntries(s, b, page, 256)
    ensures FreshRoot(Fill(Take(s, p), p, page), p)
  {
    var s' := Fill(Take(s, p), p, page);
    forall i | 0 <= i < 512 ensures Entry(s'.mem, p, i) == if i < 256 then Entry(s'.mem, s.roots[Boot], i) else 0 {
      assert Entry(s'.mem, p, i) == page[i];
      assert i < 256 ==> Entry(s.mem, s.roots[b], i) == Entry(s.mem, s.roots[Boot], i);
      assert Entry(s'.mem, s.roots[Boot], i) == Entry(s.mem, s.roots[Boot], i);
    }
  }

  lemma NewSpaceRoles(s: Phys, a: Space, p: nat, page: Page)
    requires WellFormed(s) && a !in s.roots && p !in s.own && IsPage(p) && |page| == 512
    ensures var s' := NewRoot(Fill(Take(s, p), p, page), a, p);
      Footprint(s', a) == {Root(a)} && MappedSet(s', a) == {} && Used(s') == Used(s) + 1
  {
    var s' := NewRoot(Fill(Take(s, p), p, page), a, p);
    assert s'.own == s.own[p := Root(a)];
    forall q | q in s.own ensures !Belongs(s.own[q], a) {
      assert Reached(s, q, s.own[q]);
    }
    assert Belongs(s'.own[p], a);
  }

  /** What create_process_l2_page_table leaves behind: a root for a that sees the kernel and nothing else. */
  ghost predicate SpaceAdded(s: Phys, s': Phys, a: Space) {
    && WellFormed(s) && WellFormed(s') && KeptBut(s, s', a) && a !in s.roots && a in s'.roots
    && s'.roots == s.roots[a := s'.roots[a]]
    && Footprint(s', a) == {Root(a)} && MappedSet(s', a) == {}
    && Used(s') == Used(s) + 1
    && (forall t: Path {:trigger LeafAt(s', a, t)} :: t.InRange() ==>
          LeafAt(s', a, t) == if t.i2 < 256 then LeafAt(s, Boot, t) else 0)
  }

  // ------------------------------------------------------------- counting by renaming

  function Rename(r: Role, b: Space): Role {
    match r
    case Root(_) => Root(b)
    case L1(_, i2) => L1(b, i2)
    case L0(_, i2, i1) => L0(b, i2, i1)
    case Frame(_, t) => Frame(b, t)
    case Loose => Loose
  }

  ghost function Renamed(rs: set<Role>, b: Space): set<Role> {
    set r | r in rs :: Rename(r, b)
  }

  lemma RenamedMore(rest: set<Role>, x: Role, a: Space, b: Space)
    requires x !in rest && Belongs(x, a) && forall r :: r in rest ==> Belongs(r, a)
    ensures Renamed(rest + {x}, b) == Renamed(rest, b) + {Rename(x, b)} && Rename(x, b) !in Renamed(rest, b)
  {
    assert x in rest + {x};
  }

  lemma {:induction false} RenameKeepsSize(rs: set<Role>, a: Space, b: Space)
    requires forall r :: r in rs ==> Belongs(r, a)
    ensures |Renamed(rs, b)| == |rs|
  {
    if rs == {} {
      assert Renamed(rs, b) == {};
    } else {
      var x :| x in rs;
      RenameKeepsSize(rs - {x}, a, b);
      hide *;
      RenamedMore(rs - {x}, x, a, b);
      assert rs == rs - {x} + {x};
    }
  }

  lemma RenameRole(a: Space, b: Space, m: set<Path>, r: Role)
    requires r in RolesFor(a, m)
    ensures Belongs(r, a) && Rename(r, b) in RolesFor(b, m) && Rename(Rename(r, b), a) == r
  {
  }

  /** The pages a set of mappings needs do not depend on whose they are. */
  lemma RolesForSize(a: Space, b: Space, m: set<Path>)
    ensures |RolesFor(a, m)| == |RolesFor(b, m)|
  {
    hide RolesFor;
    hide Rename;
    hide Belongs;
    var rs, target := RolesFor(a, m), RolesFor(b, m);
    forall r | r in rs ensures Belongs(r, a) && Rename(r, b) in target {
      RenameRole(a, b, m, r);
    }
    RenameKeepsSize(rs, a, b);
    forall r | r in target ensures r in Renamed(rs, b) {
      RenameRole(b, a, m, r);
      assert Rename(r, a) in rs && Rename(Rename(r, a), b) == r;
    }
    assert Renamed(rs, b) == target;
  }
}
