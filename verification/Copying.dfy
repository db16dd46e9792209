/**
 The state of a copy of one user address space into another, page by page.
 */
module Copying {
  import opened Words
  import opened Sv39Bits
  import opened PhysicalMemories
  import opened PageTables
  import opened Mappings
  import opened BootMaps
  import opened AddressSpaces

  /** How many pages of c, among those before v, the copy has replaced by new frames. */
  ghost function Replaced(s0: Phys, c: Space, v: nat): nat {
    |set t | t in MappedSet(s0, c) && Vpn(t) < v|
  }

  /** What copying from a to c can start from. */
  ghost predicate CanCopy(s0: Phys, a: Space, c: Space) {
    && WellFormed(s0) && a in s0.roots && c in s0.roots && a != c && a != Boot && c != Boot
    && NoIdleTables(s0, a) && NoIdleTables(s0, c)
    && MappedSet(s0, c) <= MappedSet(s0, a)
  }

  /** Pages of c before v look like those of a, and lie on frames that were free before. */
  ghost predicate CopiedBefore(s0: Phys, s: Phys, a: Space, c: Space, v: nat) {
    && (forall t: Path {:trigger View(s, c, t)} :: UserPath(t) ==>
          View(s, c, t) == if Vpn(t) < v && Mapped(s0, a, t) then View(s0, a, t) else View(s0, c, t))
    && (forall t: Path {:trigger LeafAt(s, c, t)} :: UserPath(t) && Vpn(t) < v && Mapped(s0, a, t) ==>
          LeafAt(s, c, t) / 1024 !in s0.own)
  }

  /** Each page allocated so far is a page of c, or replaced one. */
  ghost predicate Accounted(s0: Phys, s: Phys, a: Space, c: Space, v: nat) {
    && NoIdleTables(s, c) && MappedSet(s, c) <= MappedSet(s0, a)
    && Used(s) + |Footprint(s0, c)| == Used(s0) + |Footprint(s, c)| + Replaced(s0, c, v)
  }

  /** The invariant of the copy when all paths below v have been dealt with. */
  ghost predicate CopyState(s0: Phys, s: Phys, a: Space, c: Space, v: nat) {
    && CanCopy(s0, a, c) && KeptBut(s0, s, c) && s.roots == s0.roots
    && CopiedBefore(s0, s, a, c, v)
    && Accounted(s0, s, a, c, v)
  }

  /** The pages that remain to be allocated for the whole copy. */
  ghost function Need(s0: Phys, a: Space, c: Space): int {
    |RolesFor(c, MappedSet(s0, a))| - |Footprint(s0, c)| + |MappedSet(s0, c)|
  }

  lemma CopyStarts(s0: Phys, a: Space, c: Space, v: nat)
    requires CanCopy(s0, a, c) && v <= 0x400_0000
    ensures CopyState(s0, s0, a, c, v)
  {
    hide WellFormed;
    hide LeafAt;
    hide Footprint;
    KeptSelf(s0, c);
    Basics(s0);
    assert (set t | t in MappedSet(s0, c) && Vpn(t) < v) == {} by {
      forall t | t in MappedSet(s0, c) ensures Vpn(t) >= v {
        MappedInRange(s0, c, t);
      }
    }
  }

  lemma MappedInRange(s: Phys, a: Space, t: Path)
    requires WellFormed(s) && t in MappedSet(s, a)
    ensures UserPath(t) && a in s.roots && a != Boot && Mapped(s, a, t)
  {
    var q :| q in s.own && s.own[q].Frame? && s.own[q].a == a && s.own[q].t == t;
    assert Reached(s, q, s.own[q]);
  }

  /** Paths that a does not map need no work. */
  lemma SkipUnmapped(s0: Phys, s: Phys, a: Space, c: Space, v: nat, w: nat)
    requires CopyState(s0, s, a, c, v) && v <= w
    requires forall t: Path :: UserPath(t) && v <= Vpn(t) < w ==> !Mapped(s0, a, t)
    ensures CopyState(s0, s, a, c, w)
  {
    hide WellFormed;
    hide KeptBut;
    hide NoIdleTables;
    hide Footprint;
    hide Replaced;
    hide View;
    ReplacedSkips(s0, a, c, v, w);
  }

  lemma ReplacedSkips(s0: Phys, a: Space, c: Space, v: nat, w: nat)
    requires CanCopy(s0, a, c) && v <= w
    requires forall t: Path :: UserPath(t) && v <= Vpn(t) < w ==> !Mapped(s0, a, t)
    ensures Replaced(s0, c, w) == Replaced(s0, c, v)
  {
    hide WellFormed;
    hide LeafAt;
    hide NoIdleTables;
    forall t | t in MappedSet(s0, c) && Vpn(t) < w ensures Vpn(t) < v {
      MappedInRange(s0, a, t);
    }
    assert (set t | t in MappedSet(s0, c) && Vpn(t) < w) == (set t | t in MappedSet(s0, c) && Vpn(t) < v);
  }

  lemma ReplacedOne(s0: Phys, c: Space, t: Path)
    requires WellFormed(s0) && UserPath(t)
    ensures Replaced(s0, c, Vpn(t) + 1) == Replaced(s0, c, Vpn(t)) + if t in MappedSet(s0, c) then 1 else 0
    ensures Replaced(s0, c, Vpn(t) + 1) <= |MappedSet(s0, c)|
  {
    hide MappedSet;
    hide WellFormed;
    hide Vpn;
    var m := MappedSet(s0, c);
    var before, after := set u | u in m && Vpn(u) < Vpn(t), set u | u in m && Vpn(u) < Vpn(t) + 1;
    forall u | u in m && Vpn(u) == Vpn(t) ensures u == t {
      MappedInRange(s0, c, u);
      SameVpn(t, u);
    }
    assert after == if t in m then before + {t} else before;
    SubsetSize(after, m);
  }

  /** What the loops read of a is what was there at the start. */
  lemma CopyReads(s0: Phys, s: Phys, a: Space, c: Space, v: nat, t: Path)
    requires CopyState(s0, s, a, c, v) && t.InRange()
    ensures WellFormed(s) && WellFormed(s0) && a in s.roots && a in s0.roots && c in s.roots && a != Boot && c != Boot
    ensures Table1(s, a, t.i2) == Table1(s0, a, t.i2) && Table0(s, a, t.i2, t.i1) == Table0(s0, a, t.i2, t.i1)
    ensures LeafAt(s, a, t) == LeafAt(s0, a, t)
    ensures s.roots == s0.roots
  {
    hide LeafAt;
    hide Table0;
    hide Table1;
    KeptLeaf(s0, s, c, a, t);
  }

  /** A missing table or entry means that the paths through it are not mapped. */
  lemma NothingBelow(s: Phys, a: Space, i2: nat, i1: nat, i0: nat)
    ensures Table1(s, a, i2) == 0 ==> forall t: Path :: t.i2 == i2 ==> !Mapped(s, a, t)
    ensures Table0(s, a, i2, i1) == 0 ==> forall t: Path :: t.i2 == i2 && t.i1 == i1 ==> !Mapped(s, a, t)
  {
  }

  // ------------------------------------------------------------------- one page

  /** The page of t in a, copied to the fresh page p. */
  function CopiedPage(s0: Phys, s: Phys, a: Space, t: Path, p: nat): Phys
    requires Shaped(s.mem) && IsPage(LeafAt(s0, a, t) / 1024) && IsPage(p)
  {
    Fill(Take(s, p), p, PageAt(s.mem, LeafAt(s0, a, t) / 1024))
  }

  /** All of what one round of the copy loop relies on and does before it maps the page. */
  lemma PageCopied(s0: Phys, s: Phys, a: Space, c: Space, t: Path, p: nat)
    requires CopyState(s0, s, a, c, Vpn(t)) && UserPath(t) && Mapped(s0, a, t) && p !in s.own && IsPage(p)
    ensures Shaped(s.mem) && Shaped(s0.mem) && IsPage(LeafAt(s0, a, t) / 1024)
    ensures LeafAt(s0, a, t) / 1024 in s.own && LeafAt(s0, a, t) / 1024 != p
    ensures PageAt(s.mem, LeafAt(s0, a, t) / 1024) == PageAt(s0.mem, LeafAt(s0, a, t) / 1024)
    ensures View(s0, a, t) == Present(LeafAt(s0, a, t) % 1024, PageAt(s0.mem, LeafAt(s0, a, t) / 1024))
    ensures var s2 := CopiedPage(s0, s, a, t, p);
      && KeptBut(s0, s2, c) && p in s2.own && s2.own[p] == Loose && s2.roots == s.roots
      && Footprint(s2, c) == Footprint(s, c) && MappedSet(s2, c) == MappedSet(s, c) && Used(s2) == Used(s) + 1
      && SameUserMemory(s, s2, c)
      && (forall u: Path {:trigger LeafAt(s2, c, u)} :: u.InRange() ==> LeafAt(s2, c, u) == LeafAt(s, c, u))
      && PageAt(s2.mem, p) == PageAt(s0.mem, LeafAt(s0, a, t) / 1024)
  {
    hide LeafAt;
    hide CopiedBefore;
    hide Accounted;
    hide Footprint;
    Basics(s0);
    Basics(s);
    ViewIsMapped(s0, a, t);
    KeptTake(s0, s, c, p);
    var page := PageAt(s.mem, LeafAt(s0, a, t) / 1024);
    KeptFill(s0, Take(s, p), c, p, page);
    hide WellFormed;
  }

  lemma MappedCopied(s0: Phys, s: Phys, s2: Phys, s3: Phys, a: Space, c: Space, t: Path, pte: Word)
    requires CopyState(s0, s, a, c, Vpn(t)) && UserPath(t) && Mapped(s0, a, t)
    requires KeptBut(s0, s2, c) && SameUserMemory(s, s2, c)
    requires forall u: Path {:trigger LeafAt(s2, c, u)} :: u.InRange() ==> LeafAt(s2, c, u) == LeafAt(s, c, u)
    requires MayHold(s2, c, pte) && pte / 1024 !in s0.own && Connected(s2, s3, c, t, pte)
    requires View(s0, a, t) == Present(pte % 1024, PageAt(s2.mem, pte / 1024))
    ensures CopiedBefore(s0, s3, a, c, Vpn(t) + 1)
  {
    hide *;
    OpenState(s0, s, a, c, Vpn(t));
    forall u: Path | UserPath(u)
      ensures View(s3, c, u) == if Vpn(u) < Vpn(t) + 1 && Mapped(s0, a, u) then View(s0, a, u) else View(s0, c, u)
      ensures Vpn(u) < Vpn(t) + 1 && Mapped(s0, a, u) ==> LeafAt(s3, c, u) / 1024 !in s0.own
    {
      UserPathInRange(u);
      UserPathInRange(t);
      ConnectedView(s2, s3, c, t, pte, u);
      ConnectedLeaf(s2, s3, c, t, pte, u);
      StateAt(s0, s, a, c, Vpn(t), u);
      SameViewAt(s, s2, c, u);
      if Vpn(u) == Vpn(t) {
        SameVpn(t, u);
      }
    }
    CloseCopied(s0, s3, a, c, Vpn(t) + 1);
  }

  lemma CloseCopied(s0: Phys, s: Phys, a: Space, c: Space, v: nat)
    requires forall t: Path {:trigger View(s, c, t)} :: UserPath(t) ==>
               View(s, c, t) == if Vpn(t) < v && Mapped(s0, a, t) then View(s0, a, t) else View(s0, c, t)
    requires forall t: Path {:trigger LeafAt(s, c, t)} :: UserPath(t) && Vpn(t) < v && Mapped(s0, a, t) ==>
               LeafAt(s, c, t) / 1024 !in s0.own
    ensures CopiedBefore(s0, s, a, c, v)
  {
    hide View;
    hide LeafAt;
    hide Mapped;
  }

  lemma ConnectedLeaf(s: Phys, s': Phys, a: Space, t: Path, pte: Word, u: Path)
    requires Connected(s, s', a, t, pte) && u.InRange()
    ensures LeafAt(s', a, u) == if u == t then pte else LeafAt(s, a, u)
  {
    hide WellFormed;
    hide LeafAt;
    hide RolesReassigned;
    hide OnlyTablesWritten;
  }

  lemma StateAt(s0: Phys, s: Phys, a: Space, c: Space, v: nat, u: Path)
    requires CopyState(s0, s, a, c, v) && UserPath(u)
    ensures View(s, c, u) == if Vpn(u) < v && Mapped(s0, a, u) then View(s0, a, u) else View(s0, c, u)
    ensures Vpn(u) < v && Mapped(s0, a, u) ==> LeafAt(s, c, u) / 1024 !in s0.own
  {
    hide WellFormed;
    hide View;
    hide Accounted;
    hide KeptBut;
    hide LeafAt;
    hide NoIdleTables;
  }

  lemma SameViewAt(s: Phys, s': Phys, a: Space, t: Path)
    requires SameUserMemory(s, s', a) && UserPath(t)
    ensures View(s', a, t) == View(s, a, t)
  {
    hide View;
  }

  /** Different user paths have different page numbers. */
  lemma SameVpn(t: Path, u: Path)
    requires t.InRange() && u.InRange() && Vpn(t) == Vpn(u)
    ensures t == u
  {
    PathVpns(t);
    PathVpns(u);
  }

  lemma AccountedCopied(s0: Phys, s: Phys, s2: Phys, s3: Phys, a: Space, c: Space, t: Path, pte: Word)
    requires CopyState(s0, s, a, c, Vpn(t)) && UserPath(t) && Mapped(s0, a, t)
    requires Footprint(s2, c) == Footprint(s, c) && MappedSet(s2, c) == MappedSet(s, c) && Used(s2) == Used(s) + 1
    requires MayHold(s2, c, pte) && Connected(s2, s3, c, t, pte)
    requires LeafAt(s2, c, t) == LeafAt(s, c, t)
    ensures Accounted(s0, s3, a, c, Vpn(t) + 1)
  {
    hide *;
    OpenState(s0, s, a, c, Vpn(t));
    ConnectedCounts(s2, s3, c, t, pte);
    ConnectedFootprint(s2, s3, c, t, pte);
    NoIdleMeans(s, c);
    NoIdleMeans(s2, c);
    ReplacedOne(s0, c, t);
    StillToReplace(s0, s, a, c, t);
    UsedByConnect(s2, s3, c, t, pte);
    InMappedSet(s0, a, t);
    LeafEntry(s, c, t);
    LeafEntry(s2, c, t);
    CloseAccount(s0, s3, a, c, Vpn(t) + 1);
  }

  lemma OpenState(s0: Phys, s: Phys, a: Space, c: Space, v: nat)
    requires CopyState(s0, s, a, c, v)
    ensures WellFormed(s0) && WellFormed(s) && a in s0.roots && c in s0.roots && c in s.roots && a != Boot && c != Boot
    ensures NoIdleTables(s, c) && MappedSet(s, c) <= MappedSet(s0, a) && MappedSet(s0, c) <= MappedSet(s0, a)
    ensures Used(s) + |Footprint(s0, c)| == Used(s0) + |Footprint(s, c)| + Replaced(s0, c, v)
  {
  }

  lemma CloseAccount(s0: Phys, s: Phys, a: Space, c: Space, v: nat)
    requires NoIdleTables(s, c) && MappedSet(s, c) <= MappedSet(s0, a)
    requires Used(s) + |Footprint(s0, c)| == Used(s0) + |Footprint(s, c)| + Replaced(s0, c, v)
    ensures Accounted(s0, s, a, c, v)
  {
  }

  lemma UsedByConnect(s: Phys, s': Phys, a: Space, t: Path, pte: Word)
    requires Connected(s, s', a, t, pte)
    ensures Used(s') == Used(s) + Missing(s, a, t) && WellFormed(s) && a in s.roots && WellFormed(s')
    ensures s'.roots == s.roots
  {
  }

  /** A path not yet dealt with is mapped in c exactly when it was at the start. */
  lemma StillToReplace(s0: Phys, s: Phys, a: Space, c: Space, t: Path)
    requires CopyState(s0, s, a, c, Vpn(t)) && UserPath(t)
    ensures Mapped(s, c, t) <==> t in MappedSet(s0, c)
  {
    hide WellFormed;
    hide LeafAt;
    hide Accounted;
    hide View;
    ViewIsMapped(s, c, t);
    ViewIsMapped(s0, c, t);
    InMappedSet(s0, c, t);
    assert View(s, c, t) == View(s0, c, t);
  }

  /** One round of the copy. */
  lemma CopyStep(s0: Phys, s: Phys, s3: Phys, a: Space, c: Space, t: Path, p: nat, pte: Word)
    requires CopyState(s0, s, a, c, Vpn(t)) && UserPath(t) && Mapped(s0, a, t) && p !in s.own && IsPage(p)
    requires Shaped(s.mem) && IsPage(LeafAt(s0, a, t) / 1024)
    requires pte / 1024 == p && pte % 1024 == LeafAt(s0, a, t) % 1024 && V(pte)
    requires Connected(CopiedPage(s0, s, a, t, p), s3, c, t, pte)
    ensures CopyState(s0, s3, a, c, Vpn(t) + 1)
  {
    hide *;
    PageCopied(s0, s, a, c, t, p);
    var s2 := CopiedPage(s0, s, a, t, p);
    OpenState(s0, s, a, c, Vpn(t));
    CanHold(s2, c, pte);
    FreshStays(s0, s, a, c, Vpn(t), p);
    KeptConnect(s0, s2, s3, c, t, pte);
    MappedCopied(s0, s, s2, s3, a, c, t, pte);
    UserPathInRange(t);
    AccountedCopied(s0, s, s2, s3, a, c, t, pte);
    UsedByConnect(s2, s3, c, t, pte);
    CloseState(s0, s, s3, a, c, Vpn(t), Vpn(t) + 1);
  }

  lemma MayExtendUser(s: Phys, c: Space, t: Path)
    requires c in s.roots && c != Boot && UserPath(t)
    ensures MayExtend(s, c, t.i2)
  {
  }

  lemma UserPathInRange(t: Path)
    requires UserPath(t)
    ensures t.InRange()
  {
  }

  lemma CanHold(s: Phys, c: Space, pte: Word)
    requires c != Boot && V(pte) && pte / 1024 in s.own && s.own[pte / 1024] == Loose
    ensures MayHold(s, c, pte)
  {
  }

  lemma FreshStays(s0: Phys, s: Phys, a: Space, c: Space, v: nat, p: nat)
    requires CopyState(s0, s, a, c, v) && p !in s.own
    ensures p !in s0.own
  {
  }

  lemma CloseState(s0: Phys, s: Phys, s': Phys, a: Space, c: Space, v: nat, w: nat)
    requires CopyState(s0, s, a, c, v) && KeptBut(s0, s', c) && s'.roots == s.roots
    requires Shaped(s0.mem) && Shaped(s'.mem) && CopiedBefore(s0, s', a, c, w) && Accounted(s0, s', a, c, w)
    ensures CopyState(s0, s', a, c, w)
  {
  }

  lemma NeedIs(s0: Phys, a: Space, c: Space)
    ensures Need(s0, a, c) == |RolesFor(c, MappedSet(s0, a))| - |Footprint(s0, c)| + |MappedSet(s0, c)|
  {
  }

  // -------------------------------------------------------------- running out of pages

  /** The pages of c when the copy reaches v. */
  ghost function CopiedSet(s0: Phys, a: Space, c: Space, v: nat): set<Path> {
    MappedSet(s0, c) + set t | t in MappedSet(s0, a) && Vpn(t) < v
  }

  /** The pages in use when the copy reaches v. */
  ghost function UseAt(s0: Phys, a: Space, c: Space, v: nat): int {
    Used(s0) + |RolesFor(c, CopiedSet(s0, a, c, v))| - |Footprint(s0, c)| + Replaced(s0, c, v)
  }

  /** Between lo and hi the copy comes to a page with no page left for the frame: copy_process returns false. */
  ghost predicate RunsOut(s0: Phys, a: Space, c: Space, lo: nat, hi: nat) {
    exists t :: t in MappedSet(s0, a) && lo <= Vpn(t) < hi && UseAt(s0, a, c, Vpn(t)) == 0x7eff
  }

  /** Between lo and hi it comes to a page for which there is a frame but not all tables: the kernel traps. */
  ghost predicate BreaksOff(s0: Phys, a: Space, c: Space, lo: nat, hi: nat) {
    exists t ::
      t in MappedSet(s0, a) && lo <= Vpn(t) < hi && UseAt(s0, a, c, Vpn(t)) < 0x7eff < UseAt(s0, a, c, Vpn(t) + 1)
  }

  /** What a copy that returned false leaves: everything before some page, and a full pool. */
  ghost predicate Stuck(s0: Phys, s: Phys, a: Space, c: Space) {
    exists t :: t in MappedSet(s0, a) && CopyState(s0, s, a, c, Vpn(t)) && Used(s) == 0x7eff
  }

  lemma MappedIsCopied(s0: Phys, s: Phys, a: Space, c: Space, v: nat)
    requires CopyState(s0, s, a, c, v)
    ensures MappedSet(s, c) == CopiedSet(s0, a, c, v)
  {
    hide *;
    OpenState(s0, s, a, c, v);
    forall t ensures t in MappedSet(s, c) <==> t in CopiedSet(s0, a, c, v) {
      InCopiedSet(s0, a, c, v, t);
      if t in MappedSet(s, c) {
        MappedInRange(s, c, t);
      } else if t in MappedSet(s0, c) {
        MappedInRange(s0, c, t);
      } else if t in MappedSet(s0, a) {
        MappedInRange(s0, a, t);
      }
      if UserPath(t) {
        StateAt(s0, s, a, c, v, t);
        InMappedSet(s, c, t);
        InMappedSet(s0, c, t);
        InMappedSet(s0, a, t);
        ViewIsMapped(s, c, t);
        ViewIsMapped(s0, c, t);
        ViewIsMapped(s0, a, t);
      }
    }
  }

  lemma InCopiedSet(s0: Phys, a: Space, c: Space, v: nat, t: Path)
    ensures t in CopiedSet(s0, a, c, v) <==> t in MappedSet(s0, c) || (t in MappedSet(s0, a) && Vpn(t) < v)
  {
    hide MappedSet;
    hide Vpn;
  }

  lemma UseAtIs(s0: Phys, a: Space, c: Space, v: nat)
    ensures UseAt(s0, a, c, v) ==
              Used(s0) + |RolesFor(c, CopiedSet(s0, a, c, v))| - |Footprint(s0, c)| + Replaced(s0, c, v)
  {
  }

  /** The prediction is what the copy makes true. */
  lemma UsedIsUseAt(s0: Phys, s: Phys, a: Space, c: Space, v: nat)
    requires CopyState(s0, s, a, c, v)
    ensures Used(s) == UseAt(s0, a, c, v)
  {
    hide *;
    OpenState(s0, s, a, c, v);
    MappedIsCopied(s0, s, a, c, v);
    NoIdleMeans(s, c);
    UseAtIs(s0, a, c, v);
  }

  /** One page more costs a frame and the tables it lacks. */
  lemma UseOfPage(s0: Phys, s: Phys, a: Space, c: Space, t: Path)
    requires CopyState(s0, s, a, c, Vpn(t)) && UserPath(t) && Mapped(s0, a, t)
    ensures UseAt(s0, a, c, Vpn(t) + 1) == Used(s) + 1 + Missing(s, c, t)
  {
    hide *;
    OpenState(s0, s, a, c, Vpn(t));
    MappedIsCopied(s0, s, a, c, Vpn(t));
    NoIdleMeans(s, c);
    InMappedSet(s0, a, t);
    CopiedOneMore(s0, a, c, t);
    CountMissing(s, c, t);
    RolesForMore(c, MappedSet(s, c), t);
    AddThree(Footprint(s, c), L1(c, t.i2), L0(c, t.i2, t.i1), Frame(c, t));
    ReplacedOne(s0, c, t);
    StillToReplace(s0, s, a, c, t);
    UseAtIs(s0, a, c, Vpn(t));
    UseAtIs(s0, a, c, Vpn(t) + 1);
  }

  lemma CopiedOneMore(s0: Phys, a: Space, c: Space, t: Path)
    requires WellFormed(s0) && t in MappedSet(s0, a)
    ensures CopiedSet(s0, a, c, Vpn(t) + 1) == CopiedSet(s0, a, c, Vpn(t)) + {t}
  {
    hide *;
    MappedInRange(s0, a, t);
    UserPathInRange(t);
    forall u ensures u in CopiedSet(s0, a, c, Vpn(t) + 1) <==> u in CopiedSet(s0, a, c, Vpn(t)) + {t} {
      InCopiedSet(s0, a, c, Vpn(t) + 1, u);
      InCopiedSet(s0, a, c, Vpn(t), u);
      if u in MappedSet(s0, a) && Vpn(u) == Vpn(t) {
        MappedInRange(s0, a, u);
        UserPathInRange(u);
        SameVpn(t, u);
      }
    }
  }

  /** The copy only ever takes pages. */
  lemma UseGrows(s0: Phys, a: Space, c: Space, v: nat, w: nat)
    requires v <= w
    ensures UseAt(s0, a, c, v) <= UseAt(s0, a, c, w)
  {
    hide *;
    forall t | t in CopiedSet(s0, a, c, v) ensures t in CopiedSet(s0, a, c, w) {
      InCopiedSet(s0, a, c, v, t);
      InCopiedSet(s0, a, c, w, t);
    }
    RolesForMonotone(c, CopiedSet(s0, a, c, v), CopiedSet(s0, a, c, w));
    SubsetSize(RolesFor(c, CopiedSet(s0, a, c, v)), RolesFor(c, CopiedSet(s0, a, c, w)));
    ReplacedGrows(s0, c, v, w);
    UseAtIs(s0, a, c, v);
    UseAtIs(s0, a, c, w);
  }

  lemma ReplacedGrows(s0: Phys, c: Space, v: nat, w: nat)
    requires v <= w
    ensures Replaced(s0, c, v) <= Replaced(s0, c, w)
  {
    hide MappedSet;
    hide Vpn;
    SubsetSize(set t | t in MappedSet(s0, c) && Vpn(t) < v, set t | t in MappedSet(s0, c) && Vpn(t) < w);
  }

  /** And at least one for every page it comes to. */
  lemma UseOfMapped(s0: Phys, a: Space, c: Space, t: Path)
    requires WellFormed(s0) && t in MappedSet(s0, a)
    ensures UseAt(s0, a, c, Vpn(t)) < UseAt(s0, a, c, Vpn(t) + 1)
  {
    hide *;
    MappedInRange(s0, a, t);
    ReplacedOne(s0, c, t);
    CopiedOneMore(s0, a, c, t);
    var m := CopiedSet(s0, a, c, Vpn(t));
    RolesForMore(c, m, t);
    InCopiedSet(s0, a, c, Vpn(t), t);
    FrameInRoles(c, m, t);
    SubsetSize(RolesFor(c, m), RolesFor(c, m + {t}));
    UseAtIs(s0, a, c, Vpn(t));
    UseAtIs(s0, a, c, Vpn(t) + 1);
  }

  lemma FrameInRoles(c: Space, m: set<Path>, t: Path)
    ensures Frame(c, t) in RolesFor(c, m) <==> t in m
  {
  }

  /** A copy that got as far as hi with pages to spare has met neither end on its way. */
  lemma StillFits(s0: Phys, a: Space, c: Space, lo: nat, hi: nat)
    requires WellFormed(s0) && UseAt(s0, a, c, hi) <= 0x7eff
    ensures !RunsOut(s0, a, c, lo, hi) && !BreaksOff(s0, a, c, lo, hi)
  {
    hide UseAt;
    hide WellFormed;
    hide MappedSet;
    hide Vpn;
    forall t | t in MappedSet(s0, a) && Vpn(t) < hi
      ensures UseAt(s0, a, c, Vpn(t)) < UseAt(s0, a, c, Vpn(t) + 1) <= 0x7eff
    {
      UseOfMapped(s0, a, c, t);
      UseGrows(s0, a, c, Vpn(t) + 1, hi);
    }
  }

  /** The first page that does not fit decides which end it is. */
  lemma OneEnd(s0: Phys, a: Space, c: Space, lo: nat, hi: nat, lo': nat, hi': nat)
    requires WellFormed(s0)
    ensures !(RunsOut(s0, a, c, lo, hi) && BreaksOff(s0, a, c, lo', hi'))
  {
    hide UseAt;
    hide WellFormed;
    hide MappedSet;
    hide Vpn;
    if RunsOut(s0, a, c, lo, hi) && BreaksOff(s0, a, c, lo', hi') {
      var t :| t in MappedSet(s0, a) && lo <= Vpn(t) < hi && UseAt(s0, a, c, Vpn(t)) == 0x7eff;
      var u :| u in MappedSet(s0, a) && lo' <= Vpn(u) < hi'
        && UseAt(s0, a, c, Vpn(u)) < 0x7eff < UseAt(s0, a, c, Vpn(u) + 1);
      if Vpn(t) <= Vpn(u) {
        UseGrows(s0, a, c, Vpn(t), Vpn(u));
      } else {
        UseGrows(s0, a, c, Vpn(u) + 1, Vpn(t));
      }
    }
  }

  /** At the end the prediction is the whole need. */
  lemma UseEnds(s0: Phys, a: Space, c: Space)
    requires CanCopy(s0, a, c)
    ensures UseAt(s0, a, c, 0x800_0000) == Used(s0) + Need(s0, a, c)
  {
    hide *;
    CopyRoots(s0, a, c);
    forall t ensures t in CopiedSet(s0, a, c, 0x800_0000) <==> t in MappedSet(s0, a) {
      InCopiedSet(s0, a, c, 0x800_0000, t);
      if t in MappedSet(s0, a) {
        MappedInRange(s0, a, t);
        UserPathInRange(t);
        VpnRange(t);
      }
    }
    assert CopiedSet(s0, a, c, 0x800_0000) == MappedSet(s0, a);
    ReplacedAll(s0, c);
    NeedIs(s0, a, c);
    UseAtIs(s0, a, c, 0x800_0000);
  }

  lemma CopyRoots(s0: Phys, a: Space, c: Space)
    requires CanCopy(s0, a, c)
    ensures WellFormed(s0) && a in s0.roots && c in s0.roots && MappedSet(s0, c) <= MappedSet(s0, a)
  {
    hide WellFormed;
    hide MappedSet;
    hide NoIdleTables;
  }

  lemma VpnRange(t: Path)
    requires t.InRange()
    ensures Vpn(t) < 0x800_0000
    ensures UserPath(t) ==> Vpn(t) >= 0x400_0000
  {
  }

  /** Only a copy that does not fit as a whole meets one of the two ends. */
  lemma EndsMeanNoRoom(s0: Phys, a: Space, c: Space, lo: nat)
    requires CanCopy(s0, a, c)
    ensures RunsOut(s0, a, c, lo, 0x800_0000) || BreaksOff(s0, a, c, lo, 0x800_0000) ==>
              Used(s0) + Need(s0, a, c) > 0x7eff
  {
    hide *;
    CopyRoots(s0, a, c);
    UseEnds(s0, a, c);
    if Used(s0) + Need(s0, a, c) <= 0x7eff {
      StillFits(s0, a, c, lo, 0x800_0000);
    }
  }

  /** The page at which a round failed, as the loops report it. */
  lemma PageEnds(s0: Phys, s: Phys, s': Phys, a: Space, c: Space, t: Path, lo: nat, hi: nat, trapped: bool)
    requires CopyState(s0, s, a, c, Vpn(t)) && UserPath(t) && Mapped(s0, a, t) && lo <= Vpn(t) < hi
    requires trapped ==> Used(s) < 0x7eff < Used(s) + 1 + Missing(s, c, t)
    requires !trapped ==> Used(s) == 0x7eff && CopyState(s0, s', a, c, Vpn(t)) && Used(s') == 0x7eff
    ensures !trapped ==> Stuck(s0, s', a, c)
    ensures !trapped <==> RunsOut(s0, a, c, lo, hi)
    ensures trapped <==> BreaksOff(s0, a, c, lo, hi)
  {
    hide *;
    OpenState(s0, s, a, c, Vpn(t));
    InMappedSet(s0, a, t);
    UsedIsUseAt(s0, s, a, c, Vpn(t));
    UseOfPage(s0, s, a, c, t);
    if trapped {
      BreaksAt(s0, a, c, t, lo, hi);
    } else {
      RunsOutAt(s0, a, c, t, lo, hi);
      StuckAt(s0, s', a, c, t);
    }
    OneEnd(s0, a, c, lo, hi, lo, hi);
  }

  lemma BreaksAt(s0: Phys, a: Space, c: Space, t: Path, lo: nat, hi: nat)
    requires t in MappedSet(s0, a) && lo <= Vpn(t) < hi
    requires UseAt(s0, a, c, Vpn(t)) < 0x7eff < UseAt(s0, a, c, Vpn(t) + 1)
    ensures BreaksOff(s0, a, c, lo, hi)
  {
    hide UseAt;
    hide MappedSet;
    hide Vpn;
  }

  lemma RunsOutAt(s0: Phys, a: Space, c: Space, t: Path, lo: nat, hi: nat)
    requires t in MappedSet(s0, a) && lo <= Vpn(t) < hi && UseAt(s0, a, c, Vpn(t)) == 0x7eff
    ensures RunsOut(s0, a, c, lo, hi)
  {
    hide UseAt;
    hide MappedSet;
    hide Vpn;
  }

  lemma StuckAt(s0: Phys, s: Phys, a: Space, c: Space, t: Path)
    requires t in MappedSet(s0, a) && CopyState(s0, s, a, c, Vpn(t)) && Used(s) == 0x7eff
    ensures Stuck(s0, s, a, c)
  {
    hide CopyState;
    hide MappedSet;
    hide Used;
  }

  /** A table that was copied whole met neither end. */
  lemma CopyGotTo(s0: Phys, s: Phys, a: Space, c: Space, lo: nat, hi: nat)
    requires CopyState(s0, s, a, c, hi) && Used(s) <= 0x7eff
    ensures !RunsOut(s0, a, c, lo, hi) && !BreaksOff(s0, a, c, lo, hi)
  {
    hide *;
    OpenState(s0, s, a, c, hi);
    UsedIsUseAt(s0, s, a, c, hi);
    StillFits(s0, a, c, lo, hi);
  }

  /** What ends a part of the copy ends the whole. */
  lemma WiderEnds(s0: Phys, a: Space, c: Space, lo: nat, hi: nat, lo': nat, hi': nat)
    requires WellFormed(s0) && lo' <= lo && hi <= hi'
    requires RunsOut(s0, a, c, lo, hi) || BreaksOff(s0, a, c, lo, hi)
    ensures RunsOut(s0, a, c, lo', hi') <==> RunsOut(s0, a, c, lo, hi)
    ensures BreaksOff(s0, a, c, lo', hi') <==> BreaksOff(s0, a, c, lo, hi)
  {
    hide UseAt;
    hide MappedSet;
    hide WellFormed;
    hide Vpn;
    OneEnd(s0, a, c, lo', hi', lo, hi);
    OneEnd(s0, a, c, lo, hi, lo', hi');
  }

  /** When every path is dealt with, c sees what a sees, and exactly Need pages were allocated. */
  lemma CopyEnds(s0: Phys, s: Phys, a: Space, c: Space)
    requires CopyState(s0, s, a, c, 0x800_0000)
    ensures forall t: Path {:trigger View(s, c, t)} :: UserPath(t) ==> View(s, c, t) == View(s0, a, t)
    ensures forall t: Path {:trigger LeafAt(s, c, t)} :: UserPath(t) && Mapped(s0, a, t) ==>
              LeafAt(s, c, t) / 1024 !in s0.own
    ensures MappedSet(s, c) == MappedSet(s0, a)
    ensures Used(s) == Used(s0) + Need(s0, a, c)
  {
    hide WellFormed;
    hide LeafAt;
    hide View;
    hide KeptBut;
    hide Footprint;
    hide MappedSet;
    hide RolesFor;
    forall t: Path | UserPath(t) ensures View(s, c, t) == View(s0, a, t) && Vpn(t) < 0x800_0000 {
      PathVpns(t);
      NotMappedEither(s0, a, c, t);
    }
    OpenState(s0, s, a, c, 0x800_0000);
    AllMapped(s0, s, a, c);
    ReplacedAll(s0, c);
    NeedIs(s0, a, c);
  }

  lemma NotMappedEither(s0: Phys, a: Space, c: Space, t: Path)
    requires CanCopy(s0, a, c) && UserPath(t)
    ensures !Mapped(s0, a, t) ==> View(s0, c, t) == View(s0, a, t)
  {
    hide WellFormed;
    hide LeafAt;
    hide NoIdleTables;
    ViewIsMapped(s0, a, t);
    ViewIsMapped(s0, c, t);
    InMappedSet(s0, c, t);
    InMappedSet(s0, a, t);
  }

  lemma ReplacedAll(s0: Phys, c: Space)
    requires WellFormed(s0)
    ensures Replaced(s0, c, 0x800_0000) == |MappedSet(s0, c)|
  {
    hide WellFormed;
    hide LeafAt;
    forall t | t in MappedSet(s0, c) ensures Vpn(t) < 0x800_0000 {
      MappedInRange(s0, c, t);
      PathVpns(t);
    }
    assert (set t | t in MappedSet(s0, c) && Vpn(t) < 0x800_0000) == MappedSet(s0, c);
  }

  lemma AllMapped(s0: Phys, s: Phys, a: Space, c: Space)
    requires CanCopy(s0, a, c) && WellFormed(s) && c in s.roots && MappedSet(s, c) <= MappedSet(s0, a)
    requires forall t: Path {:trigger View(s, c, t)} :: UserPath(t) ==> View(s, c, t) == View(s0, a, t)
    ensures MappedSet(s, c) == MappedSet(s0, a)
  {
    hide WellFormed;
    hide LeafAt;
    hide View;
    hide MappedSet;
    hide NoIdleTables;
    forall t | t in MappedSet(s0, a) ensures t in MappedSet(s, c) {
      MappedInRange(s0, a, t);
      assert View(s, c, t) == View(s0, a, t);
      ViewIsMapped(s0, a, t);
      ViewIsMapped(s, c, t);
      InMappedSet(s, c, t);
    }
  }

  // ------------------------------------------------------------------ skipping

  lemma SkipOne(s0: Phys, s: Phys, a: Space, c: Space, t: Path)
    requires CopyState(s0, s, a, c, Vpn(t)) && t.InRange() && !Mapped(s0, a, t)
    ensures CopyState(s0, s, a, c, Vpn(t) + 1)
  {
    hide CopyState;
    hide Mapped;
    forall u: Path | UserPath(u) && Vpn(t) <= Vpn(u) < Vpn(t) + 1 ensures !Mapped(s0, a, u) {
      PathVpns(u);
      PathVpns(t);
    }
    SkipUnmapped(s0, s, a, c, Vpn(t), Vpn(t) + 1);
  }

  lemma SkipL0(s0: Phys, s: Phys, a: Space, c: Space, i2: nat, i1: nat)
    requires CopyState(s0, s, a, c, i2 * 0x4_0000 + i1 * 512) && i1 < 512 && Table0(s0, a, i2, i1) == 0
    ensures CopyState(s0, s, a, c, i2 * 0x4_0000 + (i1 + 1) * 512)
  {
    hide CopyState;
    NothingBelow(s0, a, i2, i1, 0);
    hide Mapped;
    hide Table0;
    SkipUnmapped(s0, s, a, c, i2 * 0x4_0000 + i1 * 512, i2 * 0x4_0000 + (i1 + 1) * 512);
  }

  lemma SkipL1(s0: Phys, s: Phys, a: Space, c: Space, i2: nat)
    requires CopyState(s0, s, a, c, i2 * 0x4_0000) && Table1(s0, a, i2) == 0
    ensures CopyState(s0, s, a, c, (i2 + 1) * 0x4_0000)
  {
    hide CopyState;
    NothingBelow(s0, a, i2, 0, 0);
    hide Mapped;
    hide Table1;
    SkipUnmapped(s0, s, a, c, i2 * 0x4_0000, (i2 + 1) * 0x4_0000);
  }

  /** The three reads of the copy loops give what a held at the start, and masking follows them. */
  lemma CopyWalk(s0: Phys, s: Phys, a: Space, c: Space, v: nat, t: Path)
    requires CopyState(s0, s, a, c, v) && t.InRange()
    ensures a in s0.roots && a in s.roots && s.roots[a] == s0.roots[a] && IsPage(s0.roots[a])
    ensures var e, p := Entry(s.mem, s0.roots[a], t.i2), Table1(s0, a, t.i2);
      (V(e) <==> p != 0) && (p != 0 ==> IsPage(p) && MaskTarget(e) == p * 4096)
    ensures var e, p := Entry(s.mem, Table1(s0, a, t.i2), t.i1), Table0(s0, a, t.i2, t.i1);
      (V(e) <==> p != 0) && (p != 0 ==> IsPage(p) && MaskTarget(e) == p * 4096)
    ensures Entry(s.mem, Table0(s0, a, t.i2, t.i1), t.i0) == LeafAt(s0, a, t)
  {
    hide *;
    CopyReads(s0, s, a, c, v, t);
    WalkEntries(s, a, t);
    LeafEntry(s, a, t);
  }
}
