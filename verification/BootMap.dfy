/**
 The identity map that open_page_mechanism builds, page number by page number, and
 exactly how many tables it costs.
 */
module BootMaps {
  import opened Words
  import opened Sv39Bits
  import opened PhysicalMemories
  import opened PageTables
  import opened Mappings
  import opened AddressSpaces

  /** A range of addresses, second not included. */
  datatype Range = Range(first: Word, second: Word) {
    predicate Has(vpn: nat) {
      first / 4096 <= vpn && vpn * 4096 < second
    }

    /** The page numbers low .. high - 1 are those of the range. */
    function Low(): nat {
      first / 4096
    }

    function High(): nat {
      (second + 4095) / 4096
    }
  }

  /** The virtual page number of a path, and back. */
  function Vpn(t: Path): nat {
    t.i2 * 0x4_0000 + t.i1 * 512 + t.i0
  }

  function PathOfVpn(v: nat): Path {
    Path(v / 0x4_0000, v / 512 % 512, v % 512)
  }

  lemma VpnPaths(v: nat)
    requires v < 0x800_0000
    ensures PathOfVpn(v).InRange() && Vpn(PathOfVpn(v)) == v && PathOf(v * 4096) == PathOfVpn(v)
  {
    hide And;
    hide Or;
    var va := v * 4096;
    assert va / 4096 == v && va / 0x20_0000 == v / 512 && va / 0x4000_0000 == v / 512 / 512 == v / 0x4_0000;
  }

  lemma PathVpns(t: Path)
    requires t.InRange()
    ensures Vpn(t) < 0x800_0000 && PathOfVpn(Vpn(t)) == t
  {
    var v := Vpn(t);
    assert v / 512 == t.i2 * 512 + t.i1;
    assert v / 0x4_0000 == v / 512 / 512;
  }

  const KERNEL_FLAGS: Word := 15 // V, R, W and X

  /** The leaf that maps a page to itself. */
  function IdentityLeaf(v: nat): nat {
    v * 1024 + 15
  }

  ghost predicate Covered(ranges: seq<Range>, v: nat) {
    exists k :: 0 <= k < |ranges| && ranges[k].Has(v)
  }

  /** The walks of the boot table once the pages in [lo, hi) are mapped to themselves. */
  ghost predicate IdentityBetween(s: Phys, s': Phys, lo: nat, hi: nat) {
    && WellFormed(s') && s'.roots == s.roots && Boot in s.roots
    && forall t: Path {:trigger LeafAt(s', Boot, t)} :: t.InRange() ==>
         LeafAt(s', Boot, t) == if lo <= Vpn(t) < hi then IdentityLeaf(Vpn(t)) else LeafAt(s, Boot, t)
  }

  ghost predicate IdentityOn(s: Phys, s': Phys, ranges: seq<Range>) {
    && WellFormed(s') && s'.roots == s.roots && Boot in s.roots
    && forall t: Path {:trigger LeafAt(s', Boot, t)} :: t.InRange() ==>
         LeafAt(s', Boot, t) == if Covered(ranges, Vpn(t)) then IdentityLeaf(Vpn(t)) else LeafAt(s, Boot, t)
  }

  // --------------------------------------------------------------------- costs

  /** How many blocks of m consecutive numbers the numbers lo .. hi - 1 meet: one begins at lo, others at multiples
      of m. */
  function Blocks(lo: nat, hi: nat, m: nat): nat
    requires m > 0
  {
    if hi <= lo then 0 else Blocks(lo, hi - 1, m) + if hi - 1 == lo || (hi - 1) % m == 0 then 1 else 0
  }

  /** The level-0 and the level-1 tables that a contiguous range needs. */
  function RangeCost(lo: nat, hi: nat): nat {
    Blocks(lo, hi, 512) + Blocks(lo, hi, 0x4_0000)
  }

  /** The paths of the page numbers lo .. hi - 1. */
  ghost function PathsBetween(lo: nat, hi: nat): set<Path> {
    set v: nat | lo <= v < hi :: PathOfVpn(v)
  }

  ghost function PathsOf(ranges: seq<Range>): set<Path> {
    if ranges == [] then {}
    else PathsOf(ranges[..|ranges| - 1]) + PathsBetween(ranges[|ranges| - 1].Low(), ranges[|ranges| - 1].High())
  }

  lemma MorePaths(lo: nat, v: nat)
    requires lo <= v
    ensures PathsBetween(lo, v + 1) == PathsBetween(lo, v) + {PathOfVpn(v)}
  {
    hide PathOfVpn;
    forall t ensures t in PathsBetween(lo, v + 1) <==> t in PathsBetween(lo, v) || t == PathOfVpn(v) {
      if t in PathsBetween(lo, v + 1) {
        var u: nat :| lo <= u < v + 1 && t == PathOfVpn(u);
      }
    }
  }

  /** The first page of a range, and the first page of every block, need a table that those before do not. */
  lemma {:induction false} RangeTables(lo: nat, hi: nat)
    ensures |TablesFor(Boot, PathsBetween(lo, hi))| == RangeCost(lo, hi)
  {
    hide TablesFor;
    hide PathsBetween;
    hide PathOfVpn;
    if hi <= lo {
      NoTables(lo, hi);
    } else {
      var v := hi - 1;
      var t, m := PathOfVpn(v), PathsBetween(lo, v);
      RangeTables(lo, v);
      MorePaths(lo, v);
      TablesForMore(Boot, m, t);
      SharedBlocks(lo, v);
      AddOne(TablesFor(Boot, m), L1(Boot, t.i2));
      AddOne(TablesFor(Boot, m) + {L1(Boot, t.i2)}, L0(Boot, t.i2, t.i1));
    }
  }

  lemma NoTables(lo: nat, hi: nat)
    requires hi <= lo
    ensures TablesFor(Boot, PathsBetween(lo, hi)) == {} && RangeCost(lo, hi) == 0
  {
    assert PathsBetween(lo, hi) == {};
  }

  lemma SharedBlocks(lo: nat, v: nat)
    requires lo <= v
    ensures var t, m := PathOfVpn(v), PathsBetween(lo, v);
      && (L1(Boot, t.i2) in TablesFor(Boot, m) <==> v > lo && v % 0x4_0000 != 0)
      && (L0(Boot, t.i2, t.i1) in TablesFor(Boot, m) <==> v > lo && v % 512 != 0)
  {
    var t, m := PathOfVpn(v), PathsBetween(lo, v);
    if v > lo {
      assert PathOfVpn(v - 1) in m;
      NextInBlock(v);
    }
    forall u: nat | lo <= u < v
      ensures PathOfVpn(u).i2 == t.i2 ==> v % 0x4_0000 != 0
      ensures PathOfVpn(u).i2 == t.i2 && PathOfVpn(u).i1 == t.i1 ==> v % 512 != 0
    {
      BlockBefore(u, v);
    }
    forall p | p in m ensures exists u: nat :: lo <= u < v && p == PathOfVpn(u) {
    }
    hide PathOfVpn;
    hide PathsBetween;
  }

  lemma BlockBefore(u: nat, v: nat)
    requires u < v
    ensures u / 0x4_0000 == v / 0x4_0000 ==> v % 0x4_0000 != 0
    ensures u / 0x4_0000 == v / 0x4_0000 && u / 512 % 512 == v / 512 % 512 ==> v % 512 != 0
  {
    assert u / 0x4_0000 == u / 512 / 512 && v / 0x4_0000 == v / 512 / 512;
  }

  /** n pages need at most n/512 + 2 level-0 tables and n/2^18 + 2 level-1 tables. */
  lemma CostBound(lo: nat, n: nat)
    ensures |TablesFor(Boot, PathsBetween(lo, lo + n))| <= n / 512 + n / 0x4_0000 + 4
    ensures Blocks(lo, lo + n, 512) <= n / 512 + 2
    ensures Blocks(lo, lo + n, 0x4_0000) <= n / 0x4_0000 + 2
  {
    hide TablesFor;
    hide PathsBetween;
    hide Blocks;
    RangeTables(lo, lo + n);
    BlocksBound(lo, n, 512);
    BlocksBound(lo, n, 0x4_0000);
  }

  lemma BlocksBound(lo: nat, n: nat, m: nat)
    requires m == 512 || m == 0x4_0000
    ensures Blocks(lo, lo + n, m) <= n / m + 2
  {
    hide Blocks;
    BlocksClosed(lo, lo + n, m);
  }

  lemma {:induction false} BlocksClosed(lo: nat, hi: nat, m: nat)
    requires m > 0
    ensures Blocks(lo, hi, m) == if hi <= lo then 0 else (hi - 1) / m - lo / m + 1
  {
    if hi > lo + 1 {
      BlocksClosed(lo, hi - 1, m);
      QuotientStep(hi - 1, m);
    }
  }

  lemma QuotientStep(v: nat, m: nat)
    requires v > 0 && m > 0
    ensures v / m == (v - 1) / m + if v % m == 0 then 1 else 0
  {
    var q, r := v / m, v % m;
    assert v == q * m + r;
    if r == 0 {
      assert v - 1 == (q - 1) * m + (m - 1);
      assert q >= 1;
      QuotientIs(v - 1, m, q - 1, m - 1);
    } else {
      QuotientIs(v - 1, m, q, r - 1);
    }
  }

  // ------------------------------------------------- the tables of the boot table

  /** Pages in use when the boot table has got the tables that the paths of m need and lacked. */
  ghost function UseWith(s: Phys, m: set<Path>): int {
    Used(s) + |TablesFor(Boot, m) - Footprint(s, Boot)|
  }

  /** Exactly these tables have been added. */
  ghost predicate TablesAdded(s: Phys, s': Phys, m: set<Path>) {
    Footprint(s', Boot) == Footprint(s, Boot) + TablesFor(Boot, m) && Used(s') == UseWith(s, m)
  }

  lemma NothingAdded(s: Phys)
    ensures TablesAdded(s, s, {})
  {
    hide Footprint;
    assert TablesFor(Boot, {}) == {};
  }

  lemma BootMissing(s: Phys, t: Path)
    requires WellFormed(s) && Boot in s.roots && t.InRange()
    ensures var f := Footprint(s, Boot);
      Missing(s, Boot, t) == (if L1(Boot, t.i2) in f then 0 else 1) + (if L0(Boot, t.i2, t.i1) in f then 0 else 1)
  {
    hide WellFormed;
    hide Footprint;
    TablesInFootprint(s, Boot, t.i2, t.i1);
    WalkMeets(s, Boot, t);
  }

  lemma BootGrows(s: Phys, s': Phys, t: Path, pte: Word)
    requires Connected(s, s', Boot, t, pte) && V(pte) && t.InRange()
    ensures Footprint(s', Boot) == Footprint(s, Boot) + {L1(Boot, t.i2)} + {L0(Boot, t.i2, t.i1)}
  {
    hide *;
    BootHas(s, s', t, pte);
    forall r ensures r in Footprint(s', Boot) <==> r in Footprint(s, Boot) + {L1(Boot, t.i2)} + {L0(Boot, t.i2, t.i1)} {
      BootRole(s, s', t, pte, r);
    }
  }

  lemma BootHas(s: Phys, s': Phys, t: Path, pte: Word)
    requires Connected(s, s', Boot, t, pte) && V(pte) && t.InRange()
    ensures L1(Boot, t.i2) in Footprint(s', Boot) && L0(Boot, t.i2, t.i1) in Footprint(s', Boot)
  {
    hide WellFormed;
    hide LeafAt;
    hide OnlyTablesWritten;
    assert LeafAt(s', Boot, t) == pte;
    WalkMeets(s', Boot, t);
    TablesInFootprint(s', Boot, t.i2, t.i1);
  }

  /** Places of the boot table are kept, and only those two can be new. */
  lemma BootRole(s: Phys, s': Phys, t: Path, pte: Word, r: Role)
    requires Connected(s, s', Boot, t, pte)
    ensures r in Footprint(s, Boot) ==> r in Footprint(s', Boot)
    ensures r in Footprint(s', Boot) ==> r in Footprint(s, Boot) || r == L1(Boot, t.i2) || r == L0(Boot, t.i2, t.i1)
  {
    hide WellFormed;
    hide LeafAt;
    hide LeafReplaced;
    hide OnlyTablesWritten;
    if r in Footprint(s, Boot) {
      var q :| q in s.own && Belongs(s.own[q], Boot) && s.own[q] == r;
      assert s'.own[q] == RoleAfter(s, Boot, t, pte, q) == r;
    }
    if r in Footprint(s', Boot) {
      var q :| q in s'.own && Belongs(s'.own[q], Boot) && s'.own[q] == r;
      if q in s.own {
        assert s'.own[q] == RoleAfter(s, Boot, t, pte, q) == s.own[q];
      }
    }
  }

  lemma AddOutside<T>(m: set<T>, f: set<T>, x: T)
    ensures |m + {x} - f| == |m - f| + if x in f + m then 0 else 1
  {
    if x in f {
      assert m + {x} - f == m - f;
    } else {
      assert m + {x} - f == (m - f) + {x};
      AddOne(m - f, x);
    }
  }

  /** What the next path will cost. */
  lemma NextUse(s: Phys, s': Phys, m: set<Path>, t: Path)
    requires TablesAdded(s, s', m) && WellFormed(s') && Boot in s'.roots && t.InRange()
    ensures Used(s') + Missing(s', Boot, t) == UseWith(s, m + {t})
  {
    hide WellFormed;
    hide Footprint;
    hide TablesFor;
    hide Missing;
    var f, w := Footprint(s, Boot), TablesFor(Boot, m);
    BootMissing(s', t);
    TablesForMore(Boot, m, t);
    AddOutside(w, f, L1(Boot, t.i2));
    AddOutside(w + {L1(Boot, t.i2)}, f, L0(Boot, t.i2, t.i1));
  }

  lemma OneMoreAdded(s: Phys, s': Phys, s'': Phys, m: set<Path>, t: Path, pte: Word)
    requires TablesAdded(s, s', m) && Connected(s', s'', Boot, t, pte) && V(pte) && t.InRange()
    ensures TablesAdded(s, s'', m + {t})
  {
    hide WellFormed;
    hide Footprint;
    hide TablesFor;
    hide Missing;
    hide UseWith;
    hide LeafReplaced;
    hide RolesReassigned;
    hide OnlyTablesWritten;
    NextUse(s, s', m, t);
    BootGrows(s', s'', t, pte);
    TablesForMore(Boot, m, t);
  }

  lemma UseWithGrows(s: Phys, m: set<Path>, n: set<Path>)
    requires m <= n
    ensures UseWith(s, m) <= UseWith(s, n)
  {
    hide TablesFor;
    hide Footprint;
    TablesForMonotone(Boot, m, n);
    SubsetSize(TablesFor(Boot, m) - Footprint(s, Boot), TablesFor(Boot, n) - Footprint(s, Boot));
  }

  /** Two maps one after the other cost what the tables of both cost. */
  lemma UseTwice(s: Phys, s': Phys, m: set<Path>, n: set<Path>)
    requires TablesAdded(s, s', m)
    ensures UseWith(s', n) == UseWith(s, m + n)
    ensures Footprint(s', Boot) + TablesFor(Boot, n) == Footprint(s, Boot) + TablesFor(Boot, m + n)
  {
    hide TablesFor;
    hide Footprint;
    TablesForBoth(Boot, m, n);
    var f, w, u := Footprint(s, Boot), TablesFor(Boot, m), TablesFor(Boot, n);
    assert w + u - f == (w - f) + (u - (f + w));
  }

  lemma IdentityLeafValid(v: nat)
    ensures IdentityLeaf(v) % 2 == 1 && IdentityLeaf(v) % 1024 == 15 && IdentityLeaf(v) / 1024 == v
  {
  }

  lemma NextInBlock(v: nat)
    requires v > 0
    ensures v % 512 != 0 ==> v / 512 == (v - 1) / 512 && v / 0x4_0000 == (v - 1) / 0x4_0000
    ensures v % 0x4_0000 != 0 ==> v / 0x4_0000 == (v - 1) / 0x4_0000
  {
    QuotientStep(v, 512);
    QuotientStep(v, 0x4_0000);
    assert v / 0x4_0000 == v / 512 / 512 && (v - 1) / 0x4_0000 == (v - 1) / 512 / 512;
  }

  /** One more identity page. */
  lemma OneMorePage(s: Phys, s': Phys, s'': Phys, lo: nat, v: nat)
    requires IdentityBetween(s, s', lo, v) && lo <= v < 0x800_0000
    requires Connected(s', s'', Boot, PathOfVpn(v), IdentityLeaf(v))
    ensures IdentityBetween(s, s'', lo, v + 1)
  {
    hide WellFormed;
    hide LeafAt;
    forall t: Path | t.InRange()
      ensures LeafAt(s'', Boot, t) == if lo <= Vpn(t) < v + 1 then IdentityLeaf(Vpn(t)) else LeafAt(s, Boot, t)
    {
      PathVpns(t);
      VpnPaths(v);
    }
  }

  /** CLINT, UART and DRAM. */
  function BootRanges(): seq<Range> {
    [Range(0x200_0000, 0x201_0000), Range(0x1000_0000, 0x1000_0100), Range(0x8000_0000, 0x8800_0000)]
  }

  /** Two level-1 tables, of which CLINT and UART share one, and 1 + 1 + 64 level-0 tables. */
  lemma BootCost()
    ensures |TablesFor(Boot, PathsOf(BootRanges()))| == 68
  {
    hide TablesFor;
    hide PathsBetween;
    var clint, uart, dram := PathsBetween(0x2000, 0x2010), PathsBetween(0x1_0000, 0x1_0001),
      PathsBetween(0x8_0000, 0x8_8000);
    BootPaths();
    TablesForBoth(Boot, clint, uart);
    TablesForBoth(Boot, clint + uart, dram);
    DeviceTables();
    AddOne(TablesFor(Boot, clint), L0(Boot, 0, 128));
    RangeTables(0x2000, 0x2010);
    RangeTables(0x8_0000, 0x8_8000);
    BootBlocks();
    assert TablesFor(Boot, clint) + TablesFor(Boot, uart) == TablesFor(Boot, clint) + {L0(Boot, 0, 128)};
    DramTables();
    assert TablesFor(Boot, dram) !! TablesFor(Boot, clint) + {L0(Boot, 0, 128)};
  }

  lemma NoRoot(m: set<Path>)
    ensures TablesFor(Boot, m) - {Root(Boot)} == TablesFor(Boot, m)
  {
  }

  lemma BootPaths()
    ensures PathsOf(BootRanges()) ==
              PathsBetween(0x2000, 0x2010) + PathsBetween(0x1_0000, 0x1_0001) + PathsBetween(0x8_0000, 0x8_8000)
  {
    hide PathsBetween;
    var r := BootRanges();
    assert r[..2][..1] == r[..1] && r[..1][..0] == [];
    assert PathsOf(r[..1]) == PathsOf([]) + PathsBetween(0x2000, 0x2010);
    assert PathsOf(r[..2]) == PathsOf(r[..1]) + PathsBetween(0x1_0000, 0x1_0001);
    assert PathsOf(r) == PathsOf(r[..2]) + PathsBetween(0x8_0000, 0x8_8000);
  }

  lemma BootBlocks()
    ensures RangeCost(0x2000, 0x2010) == 2 && RangeCost(0x8_0000, 0x8_8000) == 65
  {
    hide Blocks;
    BlocksClosed(0x8_0000, 0x8_8000, 512);
    BlocksClosed(0x8_0000, 0x8_8000, 0x4_0000);
    BlocksClosed(0x2000, 0x2010, 512);
    BlocksClosed(0x2000, 0x2010, 0x4_0000);
  }

  lemma DeviceTables()
    ensures TablesFor(Boot, PathsBetween(0x2000, 0x2010)) == {L1(Boot, 0), L0(Boot, 0, 16)}
    ensures TablesFor(Boot, PathsBetween(0x1_0000, 0x1_0001)) == {L1(Boot, 0), L0(Boot, 0, 128)}
  {
    OneBlock(0x2000, 0x2010);
    OneBlock(0x1_0000, 0x1_0001);
  }

  /** A range within one level-0 block. */
  lemma OneBlock(lo: nat, hi: nat)
    requires lo < hi && lo / 512 == (hi - 1) / 512
    ensures TablesFor(Boot, PathsBetween(lo, hi)) == {L1(Boot, lo / 0x4_0000), L0(Boot, lo / 0x4_0000, lo / 512 % 512)}
  {
    forall v: nat | lo <= v < hi ensures PathOfVpn(v).i2 == lo / 0x4_0000 && PathOfVpn(v).i1 == lo / 512 % 512 {
      assert v / 512 == lo / 512 && v / 0x4_0000 == v / 512 / 512 && lo / 0x4_0000 == lo / 512 / 512;
    }
    assert PathOfVpn(lo) in PathsBetween(lo, hi);
    forall t | t in PathsBetween(lo, hi) ensures t.i2 == lo / 0x4_0000 && t.i1 == lo / 512 % 512 {
    }
    hide PathsBetween;
  }

  lemma DramTables()
    ensures forall r :: r in TablesFor(Boot, PathsBetween(0x8_0000, 0x8_8000)) ==> (r.L1? || r.L0?) && r.i2 == 2
  {
    forall v: nat | 0x8_0000 <= v < 0x8_8000 ensures PathOfVpn(v).i2 == 2 {
    }
    forall t | t in PathsBetween(0x8_0000, 0x8_8000) ensures t.i2 == 2 {
    }
  }

  lemma OneMoreRange(s: Phys, s': Phys, s'': Phys, ranges: seq<Range>, k: nat)
    requires k < |ranges| && IdentityOn(s, s', ranges[..k])
    requires IdentityBetween(s', s'', ranges[k].Low(), ranges[k].High())
    ensures IdentityOn(s, s'', ranges[..k + 1])
  {
    hide WellFormed;
    hide LeafAt;
    var now, next := ranges[..k], ranges[..k + 1];
    assert next[..|next| - 1] == now && next[k] == ranges[k];
    forall t: Path | t.InRange()
      ensures LeafAt(s'', Boot, t) == if Covered(next, Vpn(t)) then IdentityLeaf(Vpn(t)) else LeafAt(s, Boot, t)
    {
      var v := Vpn(t);
      assert ranges[k].Has(v) <==> ranges[k].Low() <= v < ranges[k].High();
      if Covered(now, v) {
        var j :| 0 <= j < |now| && now[j].Has(v);
        assert next[j].Has(v);
      }
      if ranges[k].Has(v) {
        assert next[k].Has(v);
      }
      if Covered(next, v) && !ranges[k].Has(v) {
        var j :| 0 <= j < |next| && next[j].Has(v);
        assert now[j].Has(v);
      }
    }
  }

  /** The boot table is the only address space, and l2 is its address. */
  ghost predicate BootOnly(s: Phys, l2: nat) {
    WellFormed(s) && s.roots.Keys == {Boot} && l2 == s.roots[Boot] * 4096
  }

  /** After identity maps of some ranges, vaddr2paddr gives back every address of every range. */
  lemma IdentityTranslates(s: Phys, s': Phys, ranges: seq<Range>, k: nat, va: Word)
    requires IdentityOn(s, s', ranges) && k < |ranges| && ranges[k].first <= va < ranges[k].second <= 0x80_0000_0000
    ensures Mapped(s', Boot, PathOf(va)) && PhysicalAddress(s', Boot, va) == va
  {
    hide And;
    hide Or;
    hide LeafAt;
    hide WellFormed;
    var v := va / 4096;
    assert ranges[k].Has(v);
    VpnPaths(v);
    SamePage(va);
    IdentityLeafValid(v);
  }

  lemma StartOfRange(s: Phys, l2: nat, lo: nat)
    requires BootOnly(s, l2)
    ensures IdentityBetween(s, s, lo, lo) && TablesAdded(s, s, PathsBetween(lo, lo))
  {
    assert PathsBetween(lo, lo) == {};
    NothingAdded(s);
  }

  /** All that mapping the page at current to itself demands, and what it costs. */
  lemma MapReady(s: Phys, s': Phys, l2: nat, lo: nat, current: Word)
    requires BootOnly(s', l2) && current % 4096 == 0 && lo <= current / 4096 < 0x800_0000
    requires IdentityBetween(s, s', lo, current / 4096) && TablesAdded(s, s', PathsBetween(lo, current / 4096))
    ensures WellFormed(s') && Boot in s'.roots && l2 == s'.roots[Boot] * 4096 && MayExtend(s', Boot, L2Index(current))
    ensures KERNEL_FLAGS < 1024 && MakePte(current, KERNEL_FLAGS) == IdentityLeaf(current / 4096)
    ensures MayHold(s', Boot, MakePte(current, KERNEL_FLAGS)) && PathOf(current) == PathOfVpn(current / 4096)
    ensures PathOf(current).i2 == L2Index(current)
    ensures Used(s') + Missing(s', Boot, PathOf(current)) == UseWith(s, PathsBetween(lo, current / 4096 + 1))
  {
    hide And;
    hide Or;
    hide WellFormed;
    hide LeafAt;
    hide PathsBetween;
    hide UseWith;
    hide TablesAdded;
    hide Missing;
    VpnPaths(current / 4096);
    MorePaths(lo, current / 4096);
    NextUse(s, s', PathsBetween(lo, current / 4096), PathOf(current));
    IdentityLeafValid(current / 4096);
  }

  lemma StillBootOnly(s: Phys, s': Phys, l2: nat, t: Path, pte: Word)
    requires BootOnly(s, l2) && Connected(s, s', Boot, t, pte)
    ensures BootOnly(s', l2)
  {
  }

  lemma FewerPaths(s: Phys, lo: nat, hi: nat, end: nat)
    requires hi <= end
    ensures UseWith(s, PathsBetween(lo, hi)) <= UseWith(s, PathsBetween(lo, end))
  {
    hide PathOfVpn;
    UseWithGrows(s, PathsBetween(lo, hi), PathsBetween(lo, end));
  }

  /** When a range turns out empty the map stops where it began. */
  lemma RangeEnds(s: Phys, s': Phys, lo: nat, v: nat, hi: nat)
    requires IdentityBetween(s, s', lo, v) && (v == hi || (v == lo && hi <= lo))
    ensures IdentityBetween(s, s', lo, hi) && PathsBetween(lo, v) == PathsBetween(lo, hi)
  {
    hide LeafAt;
    hide WellFormed;
  }

  lemma NoRangeYet(s: Phys, ranges: seq<Range>)
    ensures TablesAdded(s, s, PathsOf(ranges[..0]))
  {
    NothingAdded(s);
  }

  lemma AddedUse(s: Phys, s': Phys, m: set<Path>)
    requires TablesAdded(s, s', m)
    ensures Used(s') == UseWith(s, m)
  {
  }

  lemma IdentityLeafIsV(v: nat)
    requires v < 0x800_0000
    ensures V(IdentityLeaf(v)) && PathOfVpn(v).InRange()
  {
    hide PathOf;
    VpnPaths(v);
    IdentityLeafValid(v);
  }

  lemma MorePathsOf(ranges: seq<Range>, k: nat)
    requires k < |ranges|
    ensures PathsOf(ranges[..k + 1]) == PathsOf(ranges[..k]) + PathsBetween(ranges[k].Low(), ranges[k].High())
  {
    assert ranges[..k + 1][..k] == ranges[..k];
  }

  lemma {:induction false} PathsOfGrow(ranges: seq<Range>, k: nat)
    requires k <= |ranges|
    ensures PathsOf(ranges[..k]) <= PathsOf(ranges)
    decreases |ranges|
  {
    if k < |ranges| {
      var init := ranges[..|ranges| - 1];
      PathsOfGrow(init, k);
      assert init[..k] == ranges[..k];
    } else {
      assert ranges[..k] == ranges;
    }
  }

  /** The pages of one more range, on top of those of the first k. */
  lemma RangeAdds(s: Phys, s': Phys, ranges: seq<Range>, k: nat)
    requires k < |ranges| && TablesAdded(s, s', PathsOf(ranges[..k]))
    ensures var n := PathsBetween(ranges[k].Low(), ranges[k].High());
      && UseWith(s', n) == UseWith(s, PathsOf(ranges[..k + 1])) <= UseWith(s, PathsOf(ranges))
      && forall s'' :: TablesAdded(s', s'', n) ==> TablesAdded(s, s'', PathsOf(ranges[..k + 1]))
  {
    hide UseWith;
    hide Footprint;
    hide TablesFor;
    hide PathsBetween;
    hide PathsOf;
    MorePathsOf(ranges, k);
    PathsOfGrow(ranges, k + 1);
    UseTwice(s, s', PathsOf(ranges[..k]), PathsBetween(ranges[k].Low(), ranges[k].High()));
    UseWithGrows(s, PathsOf(ranges[..k + 1]), PathsOf(ranges));
  }

  lemma ClearedPage(m: Mem, p: nat)
    requires Shaped(m) && IsPage(p) && PageAt(m, p) == Zeros(512)
    ensures ZeroPage(m, p)
  {
  }

  /** The boot table on its own: an empty root. */
  lemma EmptyBootTable(m: Mem, p: nat)
    requires Shaped(m) && IsPage(p) && ZeroPage(m, p)
    ensures var s := Phys(m, map[p := Root(Boot)], map[Boot := p]);
      WellFormed(s) && forall t: Path {:trigger LeafAt(s, Boot, t)} :: t.InRange() ==> LeafAt(s, Boot, t) == 0
  {
  }
}
