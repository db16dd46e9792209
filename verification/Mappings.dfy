/**
 What building one mapping does to the page tables of all address spaces.
 */
module Mappings {
  import opened Words
  import opened Sv39Bits
  import opened PhysicalMemories
  import opened PageTables

  /** How many pages the allocator has handed out. */
  function Used(s: Phys): nat {
    |s.own|
  }

  /** A subset has no more elements, and with as many it is the whole set. */
  lemma {:induction false} SubsetSize<T>(a: set<T>, b: set<T>)
    requires a <= b
    ensures |a| <= |b|
    ensures |a| == |b| ==> a == b
  {
    if a != {} {
      var x :| x in a;
      SubsetSize(a - {x}, b - {x});
    }
  }

  /** What vaddr2paddr returns for a mapped address. */
  function PhysicalAddress(s: Phys, a: Space, va: Word): nat {
    LeafAt(s, a, PathOf(va)) / 1024 * 4096 + va % 4096
  }

  predicate IsTableOf(r: Role, a: Space) {
    (r.Root? || r.L1? || r.L0?) && r.a == a
  }

  predicate HasL1(s: Phys, a: Space, i2: nat) {
    Table1(s, a, i2) in s.own && s.own[Table1(s, a, i2)] == L1(a, i2)
  }

  predicate HasL0(s: Phys, a: Space, i2: nat, i1: nat) {
    Table0(s, a, i2, i1) in s.own && s.own[Table0(s, a, i2, i1)] == L0(a, i2, i1)
  }

  /** Every page of DRAM that is not a table of a in s' reads as it did in s. */
  ghost predicate OnlyTablesWritten(s: Phys, s': Phys, a: Space)
    requires Shaped(s.mem) && Shaped(s'.mem)
  {
    forall q {:trigger PageAt(s'.mem, q)} :: IsPage(q) && !(q in s'.own && IsTableOf(s'.own[q], a)) ==>
      PageAt(s'.mem, q) == PageAt(s.mem, q)
  }

  ghost predicate SameLeaves(s: Phys, s': Phys) {
    forall b, t: Path {:trigger LeafAt(s', b, t)} :: b in s.roots && t.InRange() ==> LeafAt(s', b, t) == LeafAt(s, b, t)
  }

  /** Roles are kept, and every page that is new has one of the given roles. */
  ghost predicate RolesAdded(s: Phys, s': Phys, roles: set<Role>) {
    && (forall q :: q in s.own ==> q in s'.own && s'.own[q] == s.own[q])
    && (forall q :: q in s'.own && q !in s.own ==> s'.own[q] in roles)
  }

  /** s' has more tables of a, with the given roles, and every walk still ends where it did. */
  ghost predicate Grew(s: Phys, s': Phys, a: Space, roles: set<Role>) {
    && WellFormed(s) && WellFormed(s') && s'.roots == s.roots
    && RolesAdded(s, s', roles)
    && SameLeaves(s, s')
    && OnlyTablesWritten(s, s', a)
  }

  // ------------------------------------------------------------- a fresh table page

  /** Page p, taken from the allocator and zeroed. */
  function Zeroed(s: Phys, p: nat): Phys
    requires Shaped(s.mem) && IsPage(p)
  {
    Fill(Take(s, p), p, Zeros(512))
  }

  ghost predicate SameWalks(s: Phys, s': Phys) {
    && s'.roots == s.roots
    && (forall b, j2: nat {:trigger Table1(s', b, j2)} :: b in s.roots && j2 < 512 ==>
         Table1(s', b, j2) == Table1(s, b, j2))
    && (forall b, j2: nat, j1: nat {:trigger Table0(s', b, j2, j1)} :: b in s.roots && j2 < 512 && j1 < 512 ==>
          Table0(s', b, j2, j1) == Table0(s, b, j2, j1))
    && (forall b, t: Path {:trigger LeafAt(s', b, t)} :: b in s.roots && t.InRange() ==>
         LeafAt(s', b, t) == LeafAt(s, b, t))
  }

  lemma FillAt(s: Phys, p: nat, page: Page, b: Space, t: Path)
    requires WellFormed(s) && IsPage(p) && |page| == 512
    requires p !in s.own || IsData(s.own[p])
    requires b in s.roots && t.InRange()
    ensures var s' := Fill(s, p, page);
      && Table1(s', b, t.i2) == Table1(s, b, t.i2)
      && Table0(s', b, t.i2, t.i1) == Table0(s, b, t.i2, t.i1)
      && LeafAt(s', b, t) == LeafAt(s, b, t)
  {
    hide L1EntriesFit;
    hide L0EntriesFit;
    hide RootEntriesFit;
    hide KernelShared;
    hide AllReached;
    WalkMeets(s, b, t);
  }

  lemma FillWalks(s: Phys, p: nat, page: Page)
    requires WellFormed(s) && IsPage(p) && |page| == 512
    requires p !in s.own || IsData(s.own[p])
    ensures SameWalks(s, Fill(s, p, page))
  {
    hide WellFormed;
    hide LeafAt;
    hide Table0;
    hide Table1;
    Basics(s);
    var s' := Fill(s, p, page);
    forall b, t: Path | b in s.roots && t.InRange() ensures LeafAt(s', b, t) == LeafAt(s, b, t) {
      FillAt(s, p, page, b, t);
    }
    forall b, j2: nat, j1: nat | b in s.roots && j2 < 512 && j1 < 512
      ensures Table0(s', b, j2, j1) == Table0(s, b, j2, j1) && Table1(s', b, j2) == Table1(s, b, j2)
    {
      FillAt(s, p, page, b, Path(j2, j1, 0));
    }
    forall b, j2: nat | b in s.roots && j2 < 512 ensures Table1(s', b, j2) == Table1(s, b, j2) {
      FillAt(s, p, page, b, Path(j2, 0, 0));
    }
  }

  lemma ZeroedKeeps(s: Phys, p: nat)
    requires WellFormed(s) && p !in s.own && IsPage(p)
    ensures var s' := Zeroed(s, p);
      && WellFormed(s') && SameWalks(s, s') && s'.own == s.own[p := Loose] && ZeroPage(s'.mem, p)
      && (forall q {:trigger PageAt(s'.mem, q)} :: IsPage(q) && q != p ==> PageAt(s'.mem, q) == PageAt(s.mem, q))
      && (forall q: nat, i: nat {:trigger Entry(s'.mem, q, i)} :: q != p ==> Entry(s'.mem, q, i) == Entry(s.mem, q, i))
  {
    TakeKeeps(s, p);
    FillKeeps(Take(s, p), p, Zeros(512));
    FillWalks(Take(s, p), p, Zeros(512));
  }

  lemma Basics(s: Phys)
    requires WellFormed(s)
    ensures Shaped(s.mem) && RootsFit(s)
  {
  }

  /** Roles and pages once page p, zeroed, hangs below entry i2 of the root. */
  lemma GrowL1Pages(s: Phys, a: Space, i2: nat, p: nat)
    requires Shaped(s.mem) && RootsFit(s) && a in s.roots && i2 < 512 && p !in s.own && IsPage(p)
    ensures var s' := LinkL1(Zeroed(s, p), a, i2, p);
      && Shaped(s'.mem) && s'.own == s.own[p := L1(a, i2)] && |s'.own| == |s.own| + 1
      && OnlyTablesWritten(s, s', a)
  {
  }

  lemma GrowL0Pages(s: Phys, a: Space, i2: nat, i1: nat, p: nat)
    requires Shaped(s.mem) && RootsFit(s) && HasL1(s, a, i2) && i1 < 512 && p !in s.own && IsPage(p)
    requires Table1(Zeroed(s, p), a, i2) == Table1(s, a, i2)
    ensures var s' := LinkL0(Zeroed(s, p), a, i2, i1, p);
      && Shaped(s'.mem) && s'.own == s.own[p := L0(a, i2, i1)] && |s'.own| == |s.own| + 1
      && OnlyTablesWritten(s, s', a)
  {
    hide Table1;
  }

  lemma GrowL1(s: Phys, a: Space, i2: nat, p: nat)
    requires WellFormed(s) && MayExtend(s, a, i2) && !V(Entry(s.mem, s.roots[a], i2))
    requires p !in s.own && IsPage(p)
    ensures var s' := LinkL1(Zeroed(s, p), a, i2, p);
      && Grew(s, s', a, {L1(a, i2)}) && HasL1(s', a, i2) && Used(s') == Used(s) + 1
      && forall j1: nat {:trigger Table0(s', a, i2, j1)} :: j1 < 512 ==> Table0(s', a, i2, j1) == Table0(s, a, i2, j1)
  {
    hide WellFormed;
    hide OnlyTablesWritten;
    hide Entry;
    hide Down;
    Basics(s);
    ZeroedKeeps(s, p);
    var s1 := Zeroed(s, p);
    LinkL1Keeps(s1, a, i2, p);
    LinkL1Walks(s1, a, i2, p);
    GrowL1Pages(s, a, i2, p);
  }

  lemma GrowL0(s: Phys, a: Space, i2: nat, i1: nat, p: nat)
    requires WellFormed(s) && MayExtend(s, a, i2) && HasL1(s, a, i2) && i1 < 512
    requires !V(Entry(s.mem, Table1(s, a, i2), i1))
    requires p !in s.own && IsPage(p)
    ensures var s' := LinkL0(Zeroed(s, p), a, i2, i1, p);
      && Grew(s, s', a, {L0(a, i2, i1)}) && HasL0(s', a, i2, i1) && Used(s') == Used(s) + 1
      && Table1(s', a, i2) == Table1(s, a, i2)
  {
    hide *;
    Basics(s);
    ZeroedKeeps(s, p);
    ZeroedLinks(s, a, i2, i1, p);
    GrowL0Pages(s, a, i2, i1, p);
    LinkL0Keeps(Zeroed(s, p), a, i2, i1, p);
    GrowL0Leaves(s, a, i2, i1, p);
    GrewBy(s, LinkL0(Zeroed(s, p), a, i2, i1, p), a, p, L0(a, i2, i1));
  }

  /** The zeroed page may hang below entry i1 of the level-1 table. */
  lemma ZeroedLinks(s: Phys, a: Space, i2: nat, i1: nat, p: nat)
    requires WellFormed(s) && MayExtend(s, a, i2) && HasL1(s, a, i2) && i1 < 512
    requires !V(Entry(s.mem, Table1(s, a, i2), i1))
    requires p !in s.own && IsPage(p)
    ensures Shaped(s.mem) && CanLinkL0(Zeroed(s, p), a, i2, i1, p) && Table1(Zeroed(s, p), a, i2) == Table1(s, a, i2)
    ensures Shaped(Zeroed(s, p).mem) && IsPage(Table1(Zeroed(s, p), a, i2))
  {
    hide WellFormed;
    hide Entry;
    hide Table1;
    Basics(s);
    ZeroedKeeps(s, p);
  }

  lemma GrowL0Leaves(s: Phys, a: Space, i2: nat, i1: nat, p: nat)
    requires WellFormed(s) && MayExtend(s, a, i2) && HasL1(s, a, i2) && i1 < 512
    requires !V(Entry(s.mem, Table1(s, a, i2), i1))
    requires p !in s.own && IsPage(p)
    ensures Shaped(s.mem) && Shaped(Zeroed(s, p).mem) && IsPage(Table1(Zeroed(s, p), a, i2))
    ensures var s' := LinkL0(Zeroed(s, p), a, i2, i1, p);
      SameLeaves(s, s') && HasL0(s', a, i2, i1) && s'.roots == s.roots && Table1(s', a, i2) == Table1(s, a, i2)
  {
    hide WellFormed;
    hide Entry;
    hide LeafAt;
    hide Table1;
    hide Table0;
    ZeroedKeeps(s, p);
    ZeroedLinks(s, a, i2, i1, p);
    LinkL0Walks(Zeroed(s, p), a, i2, i1, p);
  }

  /** One more page with one more role. */
  lemma GrewBy(s: Phys, s': Phys, a: Space, p: nat, r: Role)
    requires WellFormed(s) && WellFormed(s') && s'.roots == s.roots && p !in s.own && s'.own == s.own[p := r]
    requires SameLeaves(s, s') && Shaped(s.mem) && Shaped(s'.mem) && OnlyTablesWritten(s, s', a)
    ensures Grew(s, s', a, {r}) && Used(s') == Used(s) + 1
  {
    hide WellFormed;
    hide SameLeaves;
    hide OnlyTablesWritten;
    assert |s'.own| == |s.own| + 1;
  }

  lemma GrewNot(s: Phys, a: Space, roles: set<Role>)
    requires WellFormed(s)
    ensures Grew(s, s, a, roles)
  {
  }

  /** Entry i2 of a root and the table below it. */
  lemma RootEntry(s: Phys, a: Space, i2: nat)
    requires WellFormed(s) && a in s.roots && Half(a, i2)
    ensures var e := Entry(s.mem, s.roots[a], i2);
      && (V(e) <==> Table1(s, a, i2) != 0)
      && (V(e) <==> HasL1(s, a, i2))
      && (V(e) ==> e / 1024 == Table1(s, a, i2) && IsPage(Table1(s, a, i2)))
  {
  }

  /** Entry i1 of a level-1 table and the table below it. */
  lemma L1Entry(s: Phys, a: Space, i2: nat, i1: nat)
    requires WellFormed(s) && a in s.roots && Half(a, i2) && HasL1(s, a, i2) && i1 < 512
    ensures var e := Entry(s.mem, Table1(s, a, i2), i1);
      && (V(e) <==> Table0(s, a, i2, i1) != 0)
      && (V(e) <==> HasL0(s, a, i2, i1))
      && (V(e) ==> e / 1024 == Table0(s, a, i2, i1) && IsPage(Table0(s, a, i2, i1)))
  {
  }

  /** The entries on the way down from any root, and that shifting and masking both follow them. */
  lemma WalkEntries(s: Phys, a: Space, t: Path)
    requires WellFormed(s) && a in s.roots && t.InRange()
    ensures IsPage(s.roots[a])
    ensures var e, p := Entry(s.mem, s.roots[a], t.i2), Table1(s, a, t.i2);
      (V(e) <==> p != 0) && (p != 0 ==> IsPage(p) && ShiftTarget(e) == MaskTarget(e) == p * 4096)
    ensures var e, p := Entry(s.mem, Table1(s, a, t.i2), t.i1), Table0(s, a, t.i2, t.i1);
      (V(e) <==> p != 0) && (p != 0 ==> Table1(s, a, t.i2) != 0 && IsPage(p)
                                           && ShiftTarget(e) == MaskTarget(e) == p * 4096)
    ensures var e := LeafAt(s, a, t);
      V(e) ==> Table0(s, a, t.i2, t.i1) != 0 && ShiftTarget(e) == MaskTarget(e) == e / 1024 * 4096
  {
    hide And;
    hide WellFormed;
    Basics(s);
    WalkMeets(s, a, t);
    ValidMeets(s, a, t);
    var e2, e1, e0 := Entry(s.mem, s.roots[a], t.i2), Entry(s.mem, Table1(s, a, t.i2), t.i1), LeafAt(s, a, t);
    if V(e2) {
      TargetsInDram(e2);
    }
    if V(e1) {
      TargetsInDram(e1);
    }
    if V(e0) {
      TargetsInDram(e0);
    }
  }

  lemma LeafEntry(s: Phys, a: Space, t: Path)
    ensures LeafAt(s, a, t) == Entry(s.mem, Table0(s, a, t.i2, t.i1), t.i0)
    ensures Mapped(s, a, t) <==> V(LeafAt(s, a, t))
  {
  }

  lemma PhysicalAddressIs(s: Phys, a: Space, va: Word)
    ensures PhysicalAddress(s, a, va) == LeafAt(s, a, PathOf(va)) / 1024 * 4096 + va % 4096
  {
  }

  lemma TargetsInDram(e: Word)
    requires e / 1024 < 0x1000_0000_0000
    ensures ShiftTarget(e) == MaskTarget(e) == e / 1024 * 4096
  {
    hide And;
  }

  lemma GrewTwice(s: Phys, s1: Phys, s2: Phys, a: Space, r1: set<Role>, r2: set<Role>)
    requires Grew(s, s1, a, r1) && Grew(s1, s2, a, r2)
    ensures Grew(s, s2, a, r1 + r2)
  {
  }

  // ---------------------------------------------------------------- one mapping

  /** How many tables are missing on the way to t. */
  function Missing(s: Phys, a: Space, t: Path): nat {
    if Table1(s, a, t.i2) == 0 then 2 else if Table0(s, a, t.i2, t.i1) == 0 then 1 else 0
  }

  lemma MissingIs(s: Phys, a: Space, t: Path)
    ensures Missing(s, a, t) == if Table1(s, a, t.i2) == 0 then 2 else if Table0(s, a, t.i2, t.i1) == 0 then 1 else 0
  {
  }

  lemma GrewMayExtend(s: Phys, s1: Phys, a: Space, roles: set<Role>, i2: nat)
    requires Grew(s, s1, a, roles) && MayExtend(s, a, i2)
    ensures WellFormed(s1) && s1.roots == s.roots && MayExtend(s1, a, i2)
    ensures i2 < 512 && a in s.roots && Half(a, i2) && IsPage(s.roots[a])
  {
    Basics(s);
    hide WellFormed;
    hide SameLeaves;
    hide OnlyTablesWritten;
  }

  lemma GrewKeepsL1(s: Phys, s1: Phys, a: Space, roles: set<Role>, i2: nat)
    requires Grew(s, s1, a, roles) && HasL1(s, a, i2) && Table1(s1, a, i2) == Table1(s, a, i2)
    ensures HasL1(s1, a, i2)
  {
    hide WellFormed;
    hide SameLeaves;
    hide OnlyTablesWritten;
    hide Table1;
  }

  lemma ExtendRange(s: Phys, a: Space, t: Path)
    requires MayExtend(s, a, t.i2) && t.InRange()
    ensures a in s.roots && t.i2 < 512 && t.i1 < 512 && t.i0 < 512 && Half(a, t.i2)
  {
  }

  /** pte may become a leaf of a: kernel memory for the boot table, a loose page for a process. */
  predicate MayHold(s: Phys, a: Space, pte: Word) {
    && V(pte)
    && if a == Boot then pte % 1024 == 15 && pte / 1024 < 0x1000_0000_0000
       else pte / 1024 in s.own && s.own[pte / 1024] == Loose
  }

  /** The role of page q once a maps t to pte: the new page joins, the old one is let go. */
  function RoleAfter(s: Phys, a: Space, t: Path, pte: Word, q: nat): Role
    requires q in s.own
  {
    if a == Boot then s.own[q]
    else if q == pte / 1024 then Frame(a, t)
    else if Mapped(s, a, t) && q == LeafAt(s, a, t) / 1024 then Loose
    else s.own[q]
  }

  ghost predicate LeafReplaced(s: Phys, s': Phys, a: Space, t: Path, pte: Word) {
    forall b, u: Path {:trigger LeafAt(s', b, u)} :: b in s.roots && u.InRange() ==>
      LeafAt(s', b, u) == if b == a && u == t then pte else LeafAt(s, b, u)
  }

  ghost predicate RolesReassigned(s: Phys, s': Phys, a: Space, t: Path, pte: Word) {
    && (forall q :: q in s.own ==> q in s'.own && s'.own[q] == RoleAfter(s, a, t, pte, q))
    && (forall q :: q in s'.own && q !in s.own ==> s'.own[q] == L1(a, t.i2) || s'.own[q] == L0(a, t.i2, t.i1))
  }

  /**
   The whole effect of connect_virtual_physical_address: in every address space exactly
   the walk of t in a changes, only tables of a are written, and only the tables that
   were missing are allocated.
   */
  ghost predicate Connected(s: Phys, s': Phys, a: Space, t: Path, pte: Word) {
    && WellFormed(s) && WellFormed(s') && s'.roots == s.roots && a in s.roots
    && LeafReplaced(s, s', a, t, pte)
    && RolesReassigned(s, s', a, t, pte)
    && Used(s') == Used(s) + Missing(s, a, t)
    && OnlyTablesWritten(s, s', a)
  }

  lemma SetLeafPages(s: Phys, a: Space, t: Path, pte: Word)
    requires CanSetLeaf(s, a, t, pte)
    ensures var s' := SetLeaf(s, a, t, pte);
      && Shaped(s'.mem) && OnlyTablesWritten(s, s', a) && s'.own.Keys == s.own.Keys && |s'.own| == |s.own|
  {
    hide WellFormed;
    Basics(s);
    WalkMeets(s, a, t);
    var s' := SetLeaf(s, a, t, pte);
    assert s'.own.Keys == s.own.Keys;
    assert |s'.own| == |s'.own.Keys|;
  }

  lemma SetConnects(s: Phys, a: Space, t: Path, pte: Word)
    requires CanSetLeaf(s, a, t, pte)
    ensures Connected(s, SetLeaf(s, a, t, pte), a, t, pte)
  {
    hide *;
    SetLeafShape(s, a, t, pte);
    SetLeafKeeps(s, a, t, pte);
    SetLeafReplaces(s, a, t, pte);
    SetLeafReassigns(s, a, t, pte);
    SetLeafPages(s, a, t, pte);
    CloseConnected(s, SetLeaf(s, a, t, pte), a, t, pte);
  }

  lemma CloseConnected(s: Phys, s': Phys, a: Space, t: Path, pte: Word)
    requires WellFormed(s) && WellFormed(s') && s'.roots == s.roots && a in s.roots
    requires LeafReplaced(s, s', a, t, pte) && RolesReassigned(s, s', a, t, pte)
    requires Shaped(s.mem) && Shaped(s'.mem) && OnlyTablesWritten(s, s', a)
    requires |s'.own| == |s.own| && Missing(s, a, t) == 0
    ensures Connected(s, s', a, t, pte)
  {
    hide WellFormed;
    hide LeafReplaced;
    hide RolesReassigned;
    hide OnlyTablesWritten;
    hide Missing;
  }

  lemma SetLeafReplaces(s: Phys, a: Space, t: Path, pte: Word)
    requires CanSetLeaf(s, a, t, pte)
    ensures Shaped(s.mem) && IsPage(Table0(s, a, t.i2, t.i1)) && t.InRange()
    ensures LeafReplaced(s, SetLeaf(s, a, t, pte), a, t, pte)
  {
    hide LeafAt;
    hide WellFormed;
    SetLeafShape(s, a, t, pte);
    SetLeafWalks(s, a, t, pte);
  }

  lemma SetLeafReassigns(s: Phys, a: Space, t: Path, pte: Word)
    requires CanSetLeaf(s, a, t, pte)
    ensures WellFormed(s) && a in s.roots && Missing(s, a, t) == 0
    ensures Shaped(s.mem) && IsPage(Table0(s, a, t.i2, t.i1)) && t.InRange()
    ensures SetLeaf(s, a, t, pte).roots == s.roots && RolesReassigned(s, SetLeaf(s, a, t, pte), a, t, pte)
  {
    hide LeafAt;
    hide Table0;
    hide Table1;
    hide WellFormed;
    SetLeafShape(s, a, t, pte);
    WalkMeets(s, a, t);
  }

  lemma GrownThenSet(s: Phys, s1: Phys, a: Space, t: Path, pte: Word)
    requires Grew(s, s1, a, {L1(a, t.i2), L0(a, t.i2, t.i1)}) && a in s.roots && t.InRange()
    requires MayExtend(s, a, t.i2) && HasL0(s1, a, t.i2, t.i1) && MayHold(s, a, pte)
    requires Used(s1) == Used(s) + Missing(s, a, t)
    ensures Connected(s, SetLeaf(s1, a, t, pte), a, t, pte)
  {
    hide WellFormed;
    Basics(s);
    Basics(s1);
    WalkMeets(s1, a, t);
    var s' := SetLeaf(s1, a, t, pte);
    SetConnects(s1, a, t, pte);
    ConnectedAfterGrowing(s, s1, s', a, t, pte);
  }

  lemma LeavesCompose(s: Phys, s1: Phys, s': Phys, a: Space, t: Path, pte: Word)
    requires s1.roots == s.roots && SameLeaves(s, s1) && LeafReplaced(s1, s', a, t, pte)
    ensures LeafReplaced(s, s', a, t, pte)
  {
    hide LeafAt;
  }

  lemma RolesCompose(s: Phys, s1: Phys, s': Phys, a: Space, t: Path, pte: Word)
    requires RolesAdded(s, s1, {L1(a, t.i2), L0(a, t.i2, t.i1)}) && RolesReassigned(s1, s', a, t, pte)
    requires LeafAt(s1, a, t) == LeafAt(s, a, t) && MayHold(s, a, pte)
    requires a != Boot && Mapped(s, a, t) ==> LeafAt(s, a, t) / 1024 in s.own
    ensures RolesReassigned(s, s', a, t, pte)
  {
    hide LeafAt;
    forall q | q in s.own ensures q in s'.own && s'.own[q] == RoleAfter(s, a, t, pte, q) {
      assert q in s1.own && s'.own[q] == RoleAfter(s1, a, t, pte, q);
    }
    forall q | q in s'.own && q !in s.own ensures s'.own[q] == L1(a, t.i2) || s'.own[q] == L0(a, t.i2, t.i1) {
      if q in s1.own {
        assert s'.own[q] == RoleAfter(s1, a, t, pte, q);
      }
    }
  }

  lemma PagesCompose(s: Phys, s1: Phys, s': Phys, a: Space)
    requires Shaped(s.mem) && Shaped(s1.mem) && Shaped(s'.mem)
    requires OnlyTablesWritten(s, s1, a) && OnlyTablesWritten(s1, s', a)
    requires forall q :: q in s1.own && IsTableOf(s1.own[q], a) ==> q in s'.own && s'.own[q] == s1.own[q]
    ensures OnlyTablesWritten(s, s', a)
  {
    forall q | IsPage(q) && !(q in s'.own && IsTableOf(s'.own[q], a)) ensures PageAt(s'.mem, q) == PageAt(s.mem, q) {
      assert PageAt(s'.mem, q) == PageAt(s1.mem, q);
    }
  }

  /** Mapping a page does not change the role of any table. */
  lemma TablesStay(s: Phys, s': Phys, a: Space, t: Path, pte: Word)
    requires Connected(s, s', a, t, pte) && MayHold(s, a, pte) && t.InRange()
    requires a != Boot ==> Serving(a, t.i2) == a
    ensures forall q {:trigger s.own[q]} :: q in s.own && IsTableOf(s.own[q], a) ==>
              q in s'.own && s'.own[q] == s.own[q]
  {
    hide WellFormed;
    hide LeafReplaced;
    hide OnlyTablesWritten;
    WalkMeets(s, a, t);
    forall q | q in s.own && IsTableOf(s.own[q], a) ensures q in s'.own && s'.own[q] == s.own[q] {
      assert s'.own[q] == RoleAfter(s, a, t, pte, q);
    }
  }

  lemma ConnectedAfterGrowing(s: Phys, s1: Phys, s': Phys, a: Space, t: Path, pte: Word)
    requires Grew(s, s1, a, {L1(a, t.i2), L0(a, t.i2, t.i1)}) && MayExtend(s, a, t.i2) && t.InRange()
    requires Connected(s1, s', a, t, pte) && MayHold(s, a, pte)
    requires Missing(s1, a, t) == 0 && Used(s1) == Used(s) + Missing(s, a, t)
    ensures Connected(s, s', a, t, pte)
  {
    hide WellFormed;
    hide LeafReplaced;
    hide OnlyTablesWritten;
    hide Entry;
    hide Down;
    hide LeafAt;
    WalkMeets(s, a, t);
    Basics(s);
    Basics(s1);
    Basics(s');
    assert LeafAt(s1, a, t) == LeafAt(s, a, t);
    LeavesCompose(s, s1, s', a, t, pte);
    RolesCompose(s, s1, s', a, t, pte);
    TablesStay(s1, s', a, t, pte);
    PagesCompose(s, s1, s', a);
  }

  lemma GrownTwice(s: Phys, s1: Phys, s2: Phys, a: Space, t: Path)
    requires Grew(s, s1, a, {L1(a, t.i2)}) && Grew(s1, s2, a, {L0(a, t.i2, t.i1)})
    ensures Grew(s, s2, a, {L1(a, t.i2), L0(a, t.i2, t.i1)})
  {
    hide Grew;
    GrewTwice(s, s1, s2, a, {L1(a, t.i2)}, {L0(a, t.i2, t.i1)});
    assert {L1(a, t.i2)} + {L0(a, t.i2, t.i1)} == {L1(a, t.i2), L0(a, t.i2, t.i1)};
  }

  /** Once both tables are there, the leaf can be written. */
  lemma GrownHolds(s: Phys, s1: Phys, a: Space, t: Path, pte: Word)
    requires Grew(s, s1, a, {L1(a, t.i2), L0(a, t.i2, t.i1)}) && t.InRange()
    requires MayExtend(s, a, t.i2) && HasL0(s1, a, t.i2, t.i1) && MayHold(s, a, pte)
    ensures CanSetLeaf(s1, a, t, pte) && a in s.roots
  {
    hide WellFormed;
    hide OnlyTablesWritten;
    hide SameLeaves;
    hide Table0;
  }

  /** Following a table entry by shifting lands on the table it names. */
  lemma TargetOf(e: Word, p: nat)
    requires e / 1024 == p && IsPage(p)
    ensures ShiftTarget(e) == p * 4096 == MaskTarget(e)
  {
  }
}
