/**
 Virtual address translation as section 4.3.2 of the RISC-V Privileged Specification
 gives it for Sv39, and its agreement with the walks the kernel builds and reads.
 */
module Sv39 {
  import opened Words
  import opened Sv39Bits
  import opened PhysicalMemories
  import opened PageTables
  import opened Mappings

  datatype Access = Read | Write | Execute

  /** Where the walk ends: no translation, or a leaf entry at some level. */
  datatype WalkResult = NoLeaf | LeafAtLevel(level: nat, pte: Word)

  predicate R(e: Word) { e / 2 % 2 == 1 }
  predicate W(e: Word) { e / 4 % 2 == 1 }
  predicate X(e: Word) { e / 8 % 2 == 1 }
  predicate U(e: Word) { e / 16 % 2 == 1 }

  /** va.vpn[level] */
  function VpnField(va: Word, level: nat): nat {
    if level == 0 then va / 4096 % 512 else if level == 1 then va / 0x20_0000 % 512 else va / 0x4000_0000 % 512
  }

  /** Steps 2 to 5: from the table at page number table, at the given level. */
  function Walk(m: Mem, table: nat, va: Word, level: nat): WalkResult
    decreases level
  {
    var pte := Entry(m, table, VpnField(va, level));
    if !V(pte) || (!R(pte) && W(pte)) || pte >= 0x40_0000_0000_0000 then NoLeaf // bits 63..54 are reserved
    else if R(pte) || X(pte) then LeafAtLevel(level, pte)
    else if level == 0 then NoLeaf
    else Walk(m, pte / 1024, va, level - 1)
  }

  /** A superpage must be aligned to its size. */
  predicate Misaligned(level: nat, pte: Word) {
    if level == 0 then false else if level == 1 then pte / 1024 % 512 != 0 else pte / 1024 % 0x4_0000 != 0
  }

  predicate Allows(pte: Word, access: Access) {
    match access
    case Read => R(pte)
    case Write => W(pte)
    case Execute => X(pte)
  }

  function PageOffsetMask(level: nat): nat {
    if level == 0 then 4096 else if level == 1 then 0x20_0000 else 0x4000_0000
  }

  datatype Translation = Fault | To(paddr: nat)

  /** The translation of an access made in user mode. */
  function TranslateUser(m: Mem, root: nat, va: Word, access: Access): Translation {
    if !Canonical(va) then Fault
    else match Walk(m, root, va, 2)
      case NoLeaf => Fault
      case LeafAtLevel(level, pte) =>
        if !U(pte) || !Allows(pte, access) || Misaligned(level, pte) then Fault
        else To(pte / 1024 * 4096 / PageOffsetMask(level) * PageOffsetMask(level) + va % PageOffsetMask(level))
  }

  /** An entry that the algorithm accepts as a leaf. */
  predicate ProperLeaf(e: Word) {
    V(e) && (R(e) || X(e)) && (W(e) ==> R(e))
  }

  /** On the tables of the kernel the algorithm ends exactly in the kernel's own leaf. */
  lemma WalkIsLeafAt(s: Phys, a: Space, va: Word)
    requires WellFormed(s) && a in s.roots
    ensures var e := LeafAt(s, a, PathOf(va));
      Walk(s.mem, s.roots[a], va, 2) == if ProperLeaf(e) then LeafAtLevel(0, e) else NoLeaf
  {
    hide And;
    hide WellFormed;
    var t := PathOf(va);
    WalkMeets(s, a, t);
    ValidMeets(s, a, t);
    Basics(s);
    TableEntries(s, a, t);
    var m, p1, p0, e := s.mem, Table1(s, a, t.i2), Table0(s, a, t.i2, t.i1), LeafAt(s, a, t);
    assert Walk(m, s.roots[a], va, 2) == if p1 != 0 then Walk(m, p1, va, 1) else NoLeaf;
    if p1 != 0 {
      assert Walk(m, p1, va, 1) == if p0 != 0 then Walk(m, p0, va, 0) else NoLeaf;
    } else {
      assert !V(e);
    }
    assert V(e) ==> e < 0x40_0000_0000_0000;
  }

  /** Entries that lead to tables carry V and nothing else, so the algorithm descends through them. */
  lemma TableEntries(s: Phys, a: Space, t: Path)
    requires WellFormed(s) && a in s.roots && t.InRange()
    ensures var e := Entry(s.mem, s.roots[a], t.i2);
      V(e) ==> !R(e) && !W(e) && !X(e) && e < 0x40_0000_0000_0000 && e / 1024 == Table1(s, a, t.i2)
    ensures var e := Entry(s.mem, Table1(s, a, t.i2), t.i1);
      V(e) ==> !R(e) && !W(e) && !X(e) && e < 0x40_0000_0000_0000 && e / 1024 == Table0(s, a, t.i2, t.i1)
  {
    var r := Serving(a, t.i2);
    assert Half(r, t.i2);
    assert Entry(s.mem, s.roots[a], t.i2) == Entry(s.mem, s.roots[r], t.i2);
    var e2, e1 := Entry(s.mem, s.roots[a], t.i2), Entry(s.mem, Table1(s, a, t.i2), t.i1);
    if V(e2) {
      assert LeadsTo(s, e2, L1(r, t.i2));
      OnlyV(e2);
      if V(e1) {
        assert LeadsTo(s, e1, L0(r, t.i2, t.i1));
        OnlyV(e1);
      }
    }
  }

  lemma OnlyV(e: Word)
    requires e % 1024 == 1
    ensures V(e) && !R(e) && !W(e) && !X(e) && !U(e)
  {
  }

  /**
   A user access in a succeeds exactly when the address is canonical and its leaf is a proper
   one that has U and the permission; it then hits the leaf's page.
   */
  lemma UserTranslation(s: Phys, a: Space, va: Word, access: Access)
    requires WellFormed(s) && a in s.roots
    ensures var e := LeafAt(s, a, PathOf(va));
      TranslateUser(s.mem, s.roots[a], va, access) ==
        if Canonical(va) && ProperLeaf(e) && U(e) && Allows(e, access) then To(e / 1024 * 4096 + va % 4096) else Fault
  {
    hide WellFormed;
    hide LeafAt;
    hide PathOf;
    hide Walk;
    WalkIsLeafAt(s, a, va);
  }

  /** Kernel leaves have no U, so a user access only ever hits a frame of its own space, in the user half. */
  lemma UserHitsOwnFrame(s: Phys, a: Space, va: Word, access: Access)
    requires WellFormed(s) && a in s.roots && TranslateUser(s.mem, s.roots[a], va, access) != Fault
    ensures var t := PathOf(va); var p := TranslateUser(s.mem, s.roots[a], va, access).paddr;
      && a != Boot && t.i2 >= 256 && Mapped(s, a, t)
      && p / 4096 in s.own && s.own[p / 4096] == Frame(a, t) && p / 4096 == LeafAt(s, a, t) / 1024
      && p % 4096 == va % 4096
  {
    hide WellFormed;
    hide LeafAt;
    hide And;
    hide TranslateUser;
    var t := PathOf(va);
    UserTranslation(s, a, va, access);
    WalkMeets(s, a, t);
    KernelLeafNotUser(LeafAt(s, a, t));
  }

  lemma KernelLeafNotUser(e: Word)
    ensures e % 1024 == 15 ==> !U(e)
  {
  }
}
