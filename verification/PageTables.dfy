/**
 The page tables of all address spaces, as they lie in physical memory.

 Every page the allocator has handed out carries a role.  The role of a table or
 frame names its address space and its place in the tree, so two different places
 can never be the same page: that is what WellFormed says, in both directions.
 */
module PageTables {
  import opened Words
  import opened Sv39Bits
  import opened PhysicalMemories

  /** The kernel's own boot table, or the table of a process. */
  datatype Space = Boot | Proc(pid: nat)

  datatype Role =
    | Root(a: Space)
    | L1(a: Space, i2: nat)
    | L0(a: Space, i2: nat, i1: nat)
    | Frame(a: Space, t: Path)
    | Loose

  /** Memory, the role of every allocated page, and the root page of every address space. */
  datatype Phys = Phys(mem: Mem, own: map<nat, Role>, roots: map<Space, nat>)

  // ---------------------------------------------------------------- the walk

  predicate V(e: Word) {
    e % 2 == 1
  }

  /** The page below entry i of table p, or 0 when the entry is not valid. */
  function Down(m: Mem, p: nat, i: nat): nat {
    if V(Entry(m, p, i)) then Entry(m, p, i) / 1024 else 0
  }

  function Table1(s: Phys, a: Space, i2: nat): nat {
    if a in s.roots then Down(s.mem, s.roots[a], i2) else 0
  }

  function Table0(s: Phys, a: Space, i2: nat, i1: nat): nat {
    Down(s.mem, Table1(s, a, i2), i1)
  }

  /** The level-0 entry that the path t reaches from the root of a; 0 when a table is missing. */
  function LeafAt(s: Phys, a: Space, t: Path): Word {
    Entry(s.mem, Table0(s, a, t.i2, t.i1), t.i0)
  }

  predicate Mapped(s: Phys, a: Space, t: Path) {
    V(LeafAt(s, a, t))
  }

  // ------------------------------------------------------------ well-formedness

  /** The entries of a root that belong to its own space: entries below 256 are the kernel's. */
  predicate Half(a: Space, i2: nat) {
    i2 < 512 && (a == Boot || i2 >= 256)
  }

  /** The space whose tables serve entry i2 of the root of a. */
  function Serving(a: Space, i2: nat): Space {
    if i2 < 256 then Boot else a
  }

  ghost predicate RootsFit(s: Phys) {
    && Boot in s.roots
    && (forall p :: p in s.own ==> IsPage(p))
    && (forall a :: a in s.roots ==> s.roots[a] in s.own && s.own[s.roots[a]] == Root(a))
    && (forall p :: p in s.own && s.own[p].Root? ==> s.own[p].a in s.roots && s.roots[s.own[p].a] == p)
  }

  /** A valid entry leads to a table page with the expected role and has no other flag. */
  ghost predicate LeadsTo(s: Phys, e: Word, r: Role) {
    e / 1024 in s.own && s.own[e / 1024] == r && e % 1024 == 1
  }

  ghost predicate RootEntriesFit(s: Phys) {
    forall a, i2 {:trigger Entry(s.mem, s.roots[a], i2)} ::
      a in s.roots && Half(a, i2) && V(Entry(s.mem, s.roots[a], i2)) ==>
        LeadsTo(s, Entry(s.mem, s.roots[a], i2), L1(a, i2))
  }

  /** Entries 0..255 of every root are those of the boot table. */
  ghost predicate KernelShared(s: Phys) {
    Boot in s.roots && forall a, i2 {:trigger Entry(s.mem, s.roots[a], i2)} ::
      a in s.roots && 0 <= i2 < 256 ==> Entry(s.mem, s.roots[a], i2) == Entry(s.mem, s.roots[Boot], i2)
  }

  ghost predicate L1EntriesFit(s: Phys) {
    forall p, i1 {:trigger Entry(s.mem, p, i1)} ::
      p in s.own && s.own[p].L1? && 0 <= i1 < 512 && V(Entry(s.mem, p, i1)) ==>
        LeadsTo(s, Entry(s.mem, p, i1), L0(s.own[p].a, s.own[p].i2, i1))
  }

  /** What a valid leaf looks like: a private frame of a process, or kernel memory out of user reach. */
  ghost predicate LeafFits(s: Phys, a: Space, t: Path, e: Word) {
    if a == Boot then e % 1024 == 15 && e / 1024 < 0x1000_0000_0000
    else e / 1024 in s.own && s.own[e / 1024] == Frame(a, t)
  }

  ghost predicate L0EntriesFit(s: Phys) {
    forall p, i0 {:trigger Entry(s.mem, p, i0)} ::
      p in s.own && s.own[p].L0? && 0 <= i0 < 512 && V(Entry(s.mem, p, i0)) ==>
        LeafFits(s, s.own[p].a, Path(s.own[p].i2, s.own[p].i1, i0), Entry(s.mem, p, i0))
  }

  /** Every page with a place in a tree is reached by walking to that place. */
  ghost predicate Reached(s: Phys, p: nat, r: Role) {
    match r
    case L1(a, i2) => a in s.roots && Half(a, i2) && Table1(s, a, i2) == p
    case L0(a, i2, i1) => a in s.roots && Half(a, i2) && i1 < 512 && Table0(s, a, i2, i1) == p
    case Frame(a, t) =>
      a != Boot && a in s.roots && t.InRange() && Half(a, t.i2) && Mapped(s, a, t) && LeafAt(s, a, t) / 1024 == p
    case _ => true
  }

  ghost predicate AllReached(s: Phys) {
    forall p {:trigger s.own[p]} :: p in s.own ==> Reached(s, p, s.own[p])
  }

  ghost predicate WellFormed(s: Phys) {
    && Shaped(s.mem)
    && RootsFit(s)
    && RootEntriesFit(s)
    && KernelShared(s)
    && L1EntriesFit(s)
    && L0EntriesFit(s)
    && AllReached(s)
  }

  // -------------------------------------------------------- following the walk

  /** Walking down from any root meets tables of the serving space, at their place. */
  lemma WalkMeets(s: Phys, a: Space, t: Path)
    requires WellFormed(s) && a in s.roots && t.InRange()
    ensures var p1, p0 := Table1(s, a, t.i2), Table0(s, a, t.i2, t.i1);
      && (p1 != 0 ==> p1 in s.own && s.own[p1] == L1(Serving(a, t.i2), t.i2))
      && (p0 != 0 ==> p1 != 0 && p0 in s.own && s.own[p0] == L0(Serving(a, t.i2), t.i2, t.i1))
      && (Mapped(s, a, t) ==> p0 != 0 && LeafFits(s, Serving(a, t.i2), t, LeafAt(s, a, t)))
  {
    var r := Serving(a, t.i2);
    assert Half(r, t.i2);
    assert Entry(s.mem, s.roots[a], t.i2) == Entry(s.mem, s.roots[r], t.i2);
    var p1, p0 := Table1(s, a, t.i2), Table0(s, a, t.i2, t.i1);
    if V(Entry(s.mem, s.roots[a], t.i2)) {
      assert LeadsTo(s, Entry(s.mem, s.roots[a], t.i2), L1(r, t.i2));
      if V(Entry(s.mem, p1, t.i1)) {
        assert LeadsTo(s, Entry(s.mem, p1, t.i1), L0(r, t.i2, t.i1));
      }
    }
  }

  /** A valid entry on the way down is never the null one. */
  lemma ValidMeets(s: Phys, a: Space, t: Path)
    requires WellFormed(s) && a in s.roots && t.InRange()
    ensures V(Entry(s.mem, s.roots[a], t.i2)) <==> Table1(s, a, t.i2) != 0
    ensures V(Entry(s.mem, Table1(s, a, t.i2), t.i1)) <==> Table0(s, a, t.i2, t.i1) != 0
  {
    WalkMeets(s, a, t);
    var r := Serving(a, t.i2);
    assert Half(r, t.i2);
    assert Entry(s.mem, s.roots[a], t.i2) == Entry(s.mem, s.roots[r], t.i2);
  }

  /** A role with a place in a tree belongs to one page only. */
  lemma RolesUnique(s: Phys, p: nat, q: nat)
    requires WellFormed(s) && p in s.own && q in s.own && s.own[p] == s.own[q] != Loose
    ensures p == q
  {
    assert Reached(s, p, s.own[p]) && Reached(s, q, s.own[q]);
  }

  // ---------------------------------------------------------------- small steps

  /** The allocator hands out page p. */
  function Take(s: Phys, p: nat): Phys {
    s.(own := s.own[p := Loose])
  }

  /** New contents for a page that is not a table. */
  function Fill(s: Phys, p: nat, page: Page): Phys
    requires Shaped(s.mem) && IsPage(p) && |page| == 512
  {
    s.(mem := s.mem[p - 0x8_0000 := page])
  }

  predicate IsData(r: Role) {
    r.Loose? || r.Frame?
  }

  lemma TakeKeeps(s: Phys, p: nat)
    requires WellFormed(s) && p !in s.own && IsPage(p)
    ensures WellFormed(Take(s, p))
    ensures forall a, t :: LeafAt(Take(s, p), a, t) == LeafAt(s, a, t)
  {
  }

  /** Data pages are not read by any walk. */
  lemma FillKeeps(s: Phys, p: nat, page: Page)
    requires WellFormed(s) && IsPage(p) && |page| == 512
    requires p !in s.own || IsData(s.own[p])
    ensures WellFormed(Fill(s, p, page))
    ensures forall a, t: Path :: a in s.roots && t.InRange() ==> LeafAt(Fill(s, p, page), a, t) == LeafAt(s, a, t)
  {
    var s' := Fill(s, p, page);
    assert forall q: nat, i: nat {:trigger Entry(s'.mem, q, i)} :: q != p ==> Entry(s'.mem, q, i) == Entry(s.mem, q, i);
    forall a, t: Path | a in s.roots && t.InRange()
      ensures Table1(s', a, t.i2) == Table1(s, a, t.i2)
      ensures Table0(s', a, t.i2, t.i1) == Table0(s, a, t.i2, t.i1)
      ensures LeafAt(s', a, t) == LeafAt(s, a, t)
    {
      WalkMeets(s, a, t);
    }
    assert AllReached(s') by {
      forall q | q in s'.own ensures Reached(s', q, s'.own[q]) {
        assert Reached(s, q, s.own[q]);
        match s.own[q]
        case L1(a, i2) =>
        case L0(a, i2, i1) => WalkMeets(s, a, Path(i2, i1, 0));
        case Frame(a, t) => WalkMeets(s, a, t);
        case _ =>
      }
    }
  }

  /** The entry that connect_virtual_physical_address writes for a new table: the page number and V. */
  function TableEntry(p: nat): (e: Word)
    requires IsPage(p)
    ensures V(e) && e / 1024 == p && e % 1024 == 1
  {
    p * 1024 + 1
  }

  ghost predicate ZeroPage(m: Mem, p: nat) {
    forall i {:trigger Entry(m, p, i)} :: 0 <= i < 512 ==> Entry(m, p, i) == 0
  }

  /** A space may be extended in its own half; the boot table only while it is alone. */
  predicate MayExtend(s: Phys, a: Space, i2: nat) {
    a in s.roots && Half(a, i2) && (a == Boot ==> s.roots.Keys == {Boot})
  }

  function LinkL1(s: Phys, a: Space, i2: nat, p: nat): Phys
    requires Shaped(s.mem) && a in s.roots && IsPage(s.roots[a]) && i2 < 512 && IsPage(p)
  {
    s.(mem := SetEntry(s.mem, s.roots[a], i2, TableEntry(p)), own := s.own[p := L1(a, i2)])
  }

  /** What the new level-1 table changes on the walk of t from the root of b. */
  lemma LinkL1At(s: Phys, a: Space, i2: nat, p: nat, b: Space, t: Path)
    requires WellFormed(s) && MayExtend(s, a, i2) && !V(Entry(s.mem, s.roots[a], i2))
    requires p in s.own && s.own[p] == Loose && ZeroPage(s.mem, p)
    requires b in s.roots && t.InRange()
    ensures var s' := LinkL1(s, a, i2, p);
      && Table1(s', b, t.i2) == (if b == a && t.i2 == i2 then p else Table1(s, b, t.i2))
      && Table0(s', b, t.i2, t.i1) == Table0(s, b, t.i2, t.i1)
      && LeafAt(s', b, t) == LeafAt(s, b, t)
  {
    EntryOfSet(s.mem, s.roots[a], i2, TableEntry(p));
    assert b != a ==> s.roots[b] != s.roots[a];
    WalkMeets(s, b, t);
    if b == a && t.i2 == i2 {
      assert Entry(s.mem, p, t.i1) == 0;
    }
  }

  lemma LinkL1Walks(s: Phys, a: Space, i2: nat, p: nat)
    requires WellFormed(s) && MayExtend(s, a, i2) && !V(Entry(s.mem, s.roots[a], i2))
    requires p in s.own && s.own[p] == Loose && ZeroPage(s.mem, p)
    ensures var s' := LinkL1(s, a, i2, p);
      && (forall b, j2: nat {:trigger Table1(s', b, j2)} :: b in s.roots && j2 < 512 ==>
            Table1(s', b, j2) == if b == a && j2 == i2 then p else Table1(s, b, j2))
      && (forall b, j2: nat, j1: nat {:trigger Table0(s', b, j2, j1)} :: b in s.roots && j2 < 512 && j1 < 512 ==>
            Table0(s', b, j2, j1) == Table0(s, b, j2, j1))
      && (forall b, t: Path {:trigger LeafAt(s', b, t)} :: b in s.roots && t.InRange() ==>
           LeafAt(s', b, t) == LeafAt(s, b, t))
  {
    var s' := LinkL1(s, a, i2, p);
    forall b, j2: nat, j1: nat, j0: nat | b in s.roots && j2 < 512 && j1 < 512 && j0 < 512
      ensures Table1(s', b, j2) == if b == a && j2 == i2 then p else Table1(s, b, j2)
      ensures Table0(s', b, j2, j1) == Table0(s, b, j2, j1)
      ensures LeafAt(s', b, Path(j2, j1, j0)) == LeafAt(s, b, Path(j2, j1, j0))
    {
      LinkL1At(s, a, i2, p, b, Path(j2, j1, j0));
    }
    forall b, j2: nat | b in s.roots && j2 < 512
      ensures Table1(s', b, j2) == if b == a && j2 == i2 then p else Table1(s, b, j2)
    {
      LinkL1At(s, a, i2, p, b, Path(j2, 0, 0));
    }
    forall b, j2: nat, j1: nat | b in s.roots && j2 < 512 && j1 < 512
      ensures Table0(s', b, j2, j1) == Table0(s, b, j2, j1)
    {
      LinkL1At(s, a, i2, p, b, Path(j2, j1, 0));
    }
  }

  lemma LinkL1Keeps(s: Phys, a: Space, i2: nat, p: nat)
    requires WellFormed(s) && MayExtend(s, a, i2) && !V(Entry(s.mem, s.roots[a], i2))
    requires p in s.own && s.own[p] == Loose && ZeroPage(s.mem, p)
    ensures WellFormed(LinkL1(s, a, i2, p))
  {
    var s' := LinkL1(s, a, i2, p);
    EntryOfSet(s.mem, s.roots[a], i2, TableEntry(p));
    LinkL1Walks(s, a, i2, p);
    assert RootsFit(s');
    assert RootEntriesFit(s') && KernelShared(s') by {
      assert forall b :: b in s.roots && b != a ==> s.roots[b] != s.roots[a];
    }
    LinkL1Tables(s, a, i2, p);
    forall q | q in s'.own ensures Reached(s', q, s'.own[q]) {
      if q != p {
        assert Reached(s, q, s.own[q]);
      }
    }
  }

  lemma LinkL1Tables(s: Phys, a: Space, i2: nat, p: nat)
    requires WellFormed(s) && MayExtend(s, a, i2) && !V(Entry(s.mem, s.roots[a], i2))
    requires p in s.own && s.own[p] == Loose && ZeroPage(s.mem, p)
    ensures L1EntriesFit(LinkL1(s, a, i2, p)) && L0EntriesFit(LinkL1(s, a, i2, p))
  {
    EntryOfSet(s.mem, s.roots[a], i2, TableEntry(p));
  }

  function LinkL0(s: Phys, a: Space, i2: nat, i1: nat, p: nat): Phys
    requires Shaped(s.mem) && IsPage(Table1(s, a, i2)) && i1 < 512 && IsPage(p)
  {
    s.(mem := SetEntry(s.mem, Table1(s, a, i2), i1, TableEntry(p)), own := s.own[p := L0(a, i2, i1)])
  }

  /** Table i2 of a is there and its entry i1 is free, and p is a zeroed page to hang below it. */
  ghost predicate CanLinkL0(s: Phys, a: Space, i2: nat, i1: nat, p: nat) {
    && WellFormed(s) && MayExtend(s, a, i2) && i1 < 512
    && Table1(s, a, i2) in s.own && s.own[Table1(s, a, i2)] == L1(a, i2)
    && !V(Entry(s.mem, Table1(s, a, i2), i1))
    && p in s.own && s.own[p] == Loose && ZeroPage(s.mem, p)
  }

  lemma LinkL0At(s: Phys, a: Space, i2: nat, i1: nat, p: nat, b: Space, t: Path)
    requires CanLinkL0(s, a, i2, i1, p) && b in s.roots && t.InRange()
    ensures var s' := LinkL0(s, a, i2, i1, p);
      && Table1(s', b, t.i2) == Table1(s, b, t.i2)
      && Table0(s', b, t.i2, t.i1) == (if b == a && t.i2 == i2 && t.i1 == i1 then p else Table0(s, b, t.i2, t.i1))
      && LeafAt(s', b, t) == LeafAt(s, b, t)
  {
    var q := Table1(s, a, i2);
    EntryOfSet(s.mem, q, i1, TableEntry(p));
    WalkMeets(s, b, t);
    assert s.own[s.roots[b]] == Root(b);
    if b == a && t.i2 == i2 && t.i1 == i1 {
      assert Entry(s.mem, p, t.i0) == 0;
    }
  }

  lemma LinkL0Walks(s: Phys, a: Space, i2: nat, i1: nat, p: nat)
    requires CanLinkL0(s, a, i2, i1, p)
    ensures var s' := LinkL0(s, a, i2, i1, p);
      && (forall b, j2: nat {:trigger Table1(s', b, j2)} :: b in s.roots && j2 < 512 ==>
           Table1(s', b, j2) == Table1(s, b, j2))
      && (forall b, j2: nat, j1: nat {:trigger Table0(s', b, j2, j1)} :: b in s.roots && j2 < 512 && j1 < 512 ==>
            Table0(s', b, j2, j1) == if b == a && j2 == i2 && j1 == i1 then p else Table0(s, b, j2, j1))
      && (forall b, t: Path {:trigger LeafAt(s', b, t)} :: b in s.roots && t.InRange() ==>
           LeafAt(s', b, t) == LeafAt(s, b, t))
  {
    var s' := LinkL0(s, a, i2, i1, p);
    forall b, t: Path | b in s.roots && t.InRange() ensures LeafAt(s', b, t) == LeafAt(s, b, t) {
      LinkL0At(s, a, i2, i1, p, b, t);
    }
    forall b, j2: nat | b in s.roots && j2 < 512 ensures Table1(s', b, j2) == Table1(s, b, j2) {
      LinkL0At(s, a, i2, i1, p, b, Path(j2, 0, 0));
    }
    forall b, j2: nat, j1: nat | b in s.roots && j2 < 512 && j1 < 512
      ensures Table0(s', b, j2, j1) == if b == a && j2 == i2 && j1 == i1 then p else Table0(s, b, j2, j1)
    {
      LinkL0At(s, a, i2, i1, p, b, Path(j2, j1, 0));
    }
  }

  lemma LinkL0Keeps(s: Phys, a: Space, i2: nat, i1: nat, p: nat)
    requires CanLinkL0(s, a, i2, i1, p)
    ensures WellFormed(LinkL0(s, a, i2, i1, p))
  {
    var s' := LinkL0(s, a, i2, i1, p);
    EntryOfSet(s.mem, Table1(s, a, i2), i1, TableEntry(p));
    LinkL0Walks(s, a, i2, i1, p);
    assert RootsFit(s') && RootEntriesFit(s') && KernelShared(s');
    LinkL0Tables(s, a, i2, i1, p);
    forall q | q in s'.own ensures Reached(s', q, s'.own[q]) {
      if q != p {
        assert Reached(s, q, s.own[q]);
      }
    }
  }

  lemma LinkL0Tables(s: Phys, a: Space, i2: nat, i1: nat, p: nat)
    requires CanLinkL0(s, a, i2, i1, p)
    ensures L1EntriesFit(LinkL0(s, a, i2, i1, p)) && L0EntriesFit(LinkL0(s, a, i2, i1, p))
  {
    hide AllReached;
    hide RootEntriesFit;
    hide KernelShared;
    hide Table1;
    EntryOfSet(s.mem, Table1(s, a, i2), i1, TableEntry(p));
  }

  /** The page that leaves the tree when the leaf at t is overwritten becomes loose. */
  function Detach(s: Phys, a: Space, t: Path): map<nat, Role> {
    if a != Boot && Mapped(s, a, t) then s.own[LeafAt(s, a, t) / 1024 := Loose] else s.own
  }

  function SetLeaf(s: Phys, a: Space, t: Path, pte: Word): Phys
    requires Shaped(s.mem) && IsPage(Table0(s, a, t.i2, t.i1)) && t.InRange()
  {
    s.(mem := SetEntry(s.mem, Table0(s, a, t.i2, t.i1), t.i0, pte),
       own := if a == Boot then s.own else Detach(s, a, t)[pte / 1024 := Frame(a, t)])
  }

  /** Both tables on the way to t are there, and pte is a leaf that a may hold. */
  ghost predicate CanSetLeaf(s: Phys, a: Space, t: Path, pte: Word) {
    && WellFormed(s) && MayExtend(s, a, t.i2) && t.InRange()
    && Table0(s, a, t.i2, t.i1) in s.own && s.own[Table0(s, a, t.i2, t.i1)] == L0(a, t.i2, t.i1)
    && V(pte)
    && if a == Boot then pte % 1024 == 15 && pte / 1024 < 0x1000_0000_0000
       else pte / 1024 in s.own && s.own[pte / 1024] == Loose
  }

  lemma SetLeafAt(s: Phys, a: Space, t: Path, pte: Word, b: Space, u: Path)
    requires CanSetLeaf(s, a, t, pte) && b in s.roots && u.InRange()
    ensures var s' := SetLeaf(s, a, t, pte);
      && Table1(s', b, u.i2) == Table1(s, b, u.i2)
      && Table0(s', b, u.i2, u.i1) == Table0(s, b, u.i2, u.i1)
      && LeafAt(s', b, u) == if b == a && u == t then pte else LeafAt(s, b, u)
  {
    var q := Table0(s, a, t.i2, t.i1);
    EntryOfSet(s.mem, q, t.i0, pte);
    WalkMeets(s, b, u);
    assert s.own[s.roots[b]] == Root(b);
  }

  lemma SetLeafWalks(s: Phys, a: Space, t: Path, pte: Word)
    requires CanSetLeaf(s, a, t, pte)
    ensures var s' := SetLeaf(s, a, t, pte);
      && (forall b, j2: nat {:trigger Table1(s', b, j2)} :: b in s.roots && j2 < 512 ==>
           Table1(s', b, j2) == Table1(s, b, j2))
      && (forall b, j2: nat, j1: nat {:trigger Table0(s', b, j2, j1)} :: b in s.roots && j2 < 512 && j1 < 512 ==>
            Table0(s', b, j2, j1) == Table0(s, b, j2, j1))
      && (forall b, u: Path {:trigger LeafAt(s', b, u)} :: b in s.roots && u.InRange() ==>
            LeafAt(s', b, u) == if b == a && u == t then pte else LeafAt(s, b, u))
  {
    var s' := SetLeaf(s, a, t, pte);
    forall b, u: Path | b in s.roots && u.InRange()
      ensures LeafAt(s', b, u) == if b == a && u == t then pte else LeafAt(s, b, u)
    {
      SetLeafAt(s, a, t, pte, b, u);
    }
    forall b, j2: nat | b in s.roots && j2 < 512 ensures Table1(s', b, j2) == Table1(s, b, j2) {
      SetLeafAt(s, a, t, pte, b, Path(j2, 0, 0));
    }
    forall b, j2: nat, j1: nat | b in s.roots && j2 < 512 && j1 < 512
      ensures Table0(s', b, j2, j1) == Table0(s, b, j2, j1)
    {
      SetLeafAt(s, a, t, pte, b, Path(j2, j1, 0));
    }
  }

  lemma SetLeafKeeps(s: Phys, a: Space, t: Path, pte: Word)
    requires CanSetLeaf(s, a, t, pte)
    ensures WellFormed(SetLeaf(s, a, t, pte))
  {
    hide *;
    SetLeafShape(s, a, t, pte);
    SetLeafRoots(s, a, t, pte);
    SetLeafL1Entries(s, a, t, pte);
    SetLeafL0Entries(s, a, t, pte);
    SetLeafReached(s, a, t, pte);
    PartsAreWell(SetLeaf(s, a, t, pte));
  }

  lemma SetLeafShape(s: Phys, a: Space, t: Path, pte: Word)
    requires CanSetLeaf(s, a, t, pte)
    ensures Shaped(s.mem) && IsPage(Table0(s, a, t.i2, t.i1)) && t.InRange()
  {
    hide Table0;
  }

  lemma SetLeafRoots(s: Phys, a: Space, t: Path, pte: Word)
    requires CanSetLeaf(s, a, t, pte)
    ensures var s' := SetLeaf(s, a, t, pte); Shaped(s'.mem) && RootsFit(s') && RootEntriesFit(s') && KernelShared(s')
  {
    hide L1EntriesFit;
    hide L0EntriesFit;
    hide AllReached;
    EntryOfSet(s.mem, Table0(s, a, t.i2, t.i1), t.i0, pte);
    WalkMeets(s, a, t);
  }

  lemma SetLeafReached(s: Phys, a: Space, t: Path, pte: Word)
    requires CanSetLeaf(s, a, t, pte)
    ensures AllReached(SetLeaf(s, a, t, pte))
  {
    var s' := SetLeaf(s, a, t, pte);
    SetLeafWalks(s, a, t, pte);
    WalkMeets(s, a, t);
    forall q | q in s'.own ensures Reached(s', q, s'.own[q]) {
      assert q in s.own && Reached(s, q, s.own[q]);
    }
  }

  lemma SetLeafL1Entries(s: Phys, a: Space, t: Path, pte: Word)
    requires CanSetLeaf(s, a, t, pte)
    ensures L1EntriesFit(SetLeaf(s, a, t, pte))
  {
    hide RootEntriesFit;
    hide KernelShared;
    hide AllReached;
    EntryOfSet(s.mem, Table0(s, a, t.i2, t.i1), t.i0, pte);
    WalkMeets(s, a, t);
  }

  lemma SetLeafL0Entries(s: Phys, a: Space, t: Path, pte: Word)
    requires CanSetLeaf(s, a, t, pte)
    ensures L0EntriesFit(SetLeaf(s, a, t, pte))
  {
    hide RootEntriesFit;
    hide KernelShared;
    hide L1EntriesFit;
    EntryOfSet(s.mem, Table0(s, a, t.i2, t.i1), t.i0, pte);
    WalkMeets(s, a, t);
  }

  /** Page p becomes the root of the new space a. */
  function NewRoot(s: Phys, a: Space, p: nat): Phys {
    s.(own := s.own[p := Root(a)], roots := s.roots[a := p])
  }

  /** Page p holds the kernel's entries and nothing else. */
  ghost predicate FreshRoot(s: Phys, p: nat) {
    && Boot in s.roots
    && (forall i {:trigger Entry(s.mem, p, i)} :: 0 <= i < 256 ==> Entry(s.mem, p, i) == Entry(s.mem, s.roots[Boot], i))
    && (forall i {:trigger Entry(s.mem, p, i)} :: 256 <= i < 512 ==> Entry(s.mem, p, i) == 0)
  }

  lemma NewRootKeeps(s: Phys, a: Space, p: nat)
    requires WellFormed(s) && a !in s.roots && p in s.own && s.own[p] == Loose && FreshRoot(s, p)
    ensures WellFormed(NewRoot(s, a, p))
  {
    hide *;
    NewRootRoots(s, a, p);
    NewRootTables(s, a, p);
    NewRootReached(s, a, p);
    PartsAreWell(NewRoot(s, a, p));
  }

  lemma PartsAreWell(s: Phys)
    requires Shaped(s.mem) && RootsFit(s) && RootEntriesFit(s) && KernelShared(s)
    requires L1EntriesFit(s) && L0EntriesFit(s) && AllReached(s)
    ensures WellFormed(s)
  {
  }

  lemma NewRootRoots(s: Phys, a: Space, p: nat)
    requires WellFormed(s) && a !in s.roots && p in s.own && s.own[p] == Loose && FreshRoot(s, p)
    ensures var s' := NewRoot(s, a, p); Shaped(s'.mem) && RootsFit(s') && RootEntriesFit(s') && KernelShared(s')
  {
    hide L1EntriesFit;
    hide L0EntriesFit;
    hide AllReached;
    assert a != Boot;
  }

  lemma NewRootReached(s: Phys, a: Space, p: nat)
    requires WellFormed(s) && a !in s.roots && p in s.own && s.own[p] == Loose && FreshRoot(s, p)
    ensures AllReached(NewRoot(s, a, p))
  {
    hide L1EntriesFit;
    hide L0EntriesFit;
    hide RootEntriesFit;
    hide KernelShared;
    var s' := NewRoot(s, a, p);
    forall q | q in s'.own ensures Reached(s', q, s'.own[q]) {
      if q != p {
        assert Reached(s, q, s.own[q]);
      }
    }
  }

  lemma NewRootTables(s: Phys, a: Space, p: nat)
    requires WellFormed(s) && a !in s.roots && p in s.own && s.own[p] == Loose && FreshRoot(s, p)
    ensures L1EntriesFit(NewRoot(s, a, p)) && L0EntriesFit(NewRoot(s, a, p))
  {
  }

  /** The other spaces see what they saw; the new one sees the kernel half of the boot table. */
  lemma NewRootWalks(s: Phys, a: Space, p: nat)
    requires WellFormed(s) && a !in s.roots && p in s.own && s.own[p] == Loose && FreshRoot(s, p)
    ensures forall b, t: Path {:trigger LeafAt(NewRoot(s, a, p), b, t)} :: b in s.roots && t.InRange() ==>
              LeafAt(NewRoot(s, a, p), b, t) == LeafAt(s, b, t)
    ensures forall t: Path {:trigger LeafAt(NewRoot(s, a, p), a, t)} :: t.InRange() ==>
              LeafAt(NewRoot(s, a, p), a, t) == if t.i2 < 256 then LeafAt(s, Boot, t) else 0
  {
    forall t: Path | t.InRange()
      ensures LeafAt(NewRoot(s, a, p), a, t) == if t.i2 < 256 then LeafAt(s, Boot, t) else 0
    {
      assert Entry(s.mem, p, t.i2) == if t.i2 < 256 then Entry(s.mem, s.roots[Boot], t.i2) else 0;
    }
  }
}
