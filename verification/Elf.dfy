/**
 Executable files as load_elf reads them, and the user memory that loading one must
 produce: which segment each page comes from, its bytes and its permissions.
 */
module Elf {
  import opened Words
  import opened Sv39Bits
  import opened PhysicalMemories
  import opened AddressSpaces

  type File = seq<Byte>

  // -------------------------------------------------------------- header fields

  /** The n bytes at position at, least significant first. */
  function LittleEndian(file: File, at: nat, n: nat): nat
    requires at + n <= |file|
    decreases n
  {
    if n == 0 then 0 else file[at] + 256 * LittleEndian(file, at + 1, n - 1)
  }

  lemma {:induction false} LittleEndianFits(file: File, at: nat, n: nat)
    requires at + n <= |file|
    ensures Fits(LittleEndian(file, at, n), n)
    decreases n
  {
    if n > 0 {
      LittleEndianFits(file, at + 1, n - 1);
    }
  }

  function Field64(file: File, at: nat): Word
    requires at + 8 <= |file|
  {
    LittleEndianFits(file, at, 8);
    WordFits(LittleEndian(file, at, 8));
    LittleEndian(file, at, 8)
  }

  predicate HasHeader(file: File) {
    |file| >= 64
  }

  /** e_entry, e_phoff, e_phentsize and e_phnum of the file header. */
  function Entry64(file: File): Word requires HasHeader(file) { Field64(file, 24) }
  function PhOff(file: File): nat requires HasHeader(file) { Field64(file, 32) }
  function PhEntSize(file: File): nat requires HasHeader(file) { LittleEndian(file, 54, 2) }
  function PhNum(file: File): nat requires HasHeader(file) { LittleEndian(file, 56, 2) }

  /** A number read from a file has the bytes at its place. */
  lemma {:induction false} BytesBack(file: File, at: nat, n: nat)
    requires at + n <= |file|
    ensures forall k: nat {:trigger ByteOf(LittleEndian(file, at, n), k)} :: k < n ==>
              ByteOf(LittleEndian(file, at, n), k) == file[at + k]
    decreases n
  {
    if n > 0 {
      var w, rest := LittleEndian(file, at, n), LittleEndian(file, at + 1, n - 1);
      BytesBack(file, at + 1, n - 1);
      assert w % 256 == file[at] && w / 256 == rest;
      forall k: nat | k < n ensures ByteOf(w, k) == file[at + k] {
        if k > 0 {
          assert ByteOf(w, k) == ByteOf(rest, k - 1) == file[at + 1 + (k - 1)];
        }
      }
    }
  }

  /** The entry point of a file is the number in its bytes 24 to 31. */
  ghost predicate EntryIs(file: File, entry: Word) {
    |file| >= 32 && forall k: nat {:trigger ByteOf(entry, k)} :: k < 8 ==> ByteOf(entry, k) == file[24 + k]
  }

  lemma EntryBytes(file: File)
    requires HasHeader(file)
    ensures EntryIs(file, Entry64(file))
  {
    BytesBack(file, 24, 8);
  }

  datatype Segment = Segment(p_type: nat, p_flags: nat, p_offset: nat, p_vaddr: Word, p_filesz: nat) {
    /** The loader works on this segment at all. */
    predicate Loads() {
      p_type == 1 && p_filesz > 0
    }

    /** The page numbers first .. last that the bytes of the segment touch. */
    function First(): nat {
      p_vaddr / 4096
    }

    function Last(): nat
      requires p_filesz > 0
    {
      (p_vaddr + p_filesz - 1) / 4096
    }

    predicate Covers(pn: nat) {
      Loads() && First() <= pn <= Last()
    }

    /** How many pages the loader allocates for it. */
    function PageCount(): nat {
      if Loads() then Last() - First() + 1 else 0
    }

    /** V and U, and the permissions of p_flags. */
    function Flags(): Word {
      17 + (if p_flags % 2 == 1 then 8 else 0)
         + (if p_flags / 4 % 2 == 1 then 2 else 0)
         + (if p_flags / 2 % 2 == 1 then 4 else 0)
    }
  }

  lemma FlagBit(p: nat, k: nat)
    requires k <= 2
    ensures And(p, Pow2(k)) == p / Pow2(k) % 2 * Pow2(k)
  {
    hide And;
    FieldOfWord(p, 1, k);
    assert Pow2(1) == 2;
  }

  lemma FlagMasks(p: nat)
    ensures And(p, 1) == p % 2 && And(p, 2) == p / 2 % 2 * 2 && And(p, 4) == p / 4 % 2 * 4
  {
    hide And;
    FlagBit(p, 0);
    FlagBit(p, 1);
    FlagBit(p, 2);
    assert Pow2(0) == 1 && Pow2(1) == 2 && Pow2(2) == 4;
  }

  lemma OrStep(a: nat, b: nat)
    requires a > 0 && b > 0
    ensures Or(a, b) == 2 * Or(a / 2, b / 2) + if a % 2 == 1 || b % 2 == 1 then 1 else 0
  {
  }

  /** A flag that is clear in x is added to it. */
  lemma AddFlag2(x: nat)
    requires x / 2 % 2 == 0 && x > 0
    ensures Or(x, 2) == x + 2
  {
    hide Or;
    OrStep(x, 2);
    OrOne(x / 2);
  }

  lemma AddFlag4(x: nat)
    requires x / 2 / 2 % 2 == 0 && x > 1
    ensures Or(x, 4) == x + 4
  {
    hide Or;
    OrStep(x, 4);
    AddFlag2(x / 2);
  }

  lemma AddFlag8(x: nat)
    requires x / 2 / 2 / 2 % 2 == 0 && x > 3
    ensures Or(x, 8) == x + 8
  {
    hide Or;
    OrStep(x, 8);
    AddFlag4(x / 2);
  }

  lemma OrOne(x: nat)
    requires x % 2 == 0
    ensures Or(x, 1) == x + 1
  {
    hide Or;
    OrNothing(x / 2);
    NothingOr(1);
    if x > 0 {
      OrStep(x, 1);
    }
  }

  lemma OrNothing(x: nat)
    ensures Or(x, 0) == x
  {
  }

  lemma NothingOr(x: nat)
    ensures Or(0, x) == x
  {
  }

  /** PTE_V | PTE_U, then PTE_X, PTE_R and PTE_W as p_flags & PF_X, PF_R and PF_W say. */
  function FlagsWord(p: nat): nat {
    var f0 := Or(PTE_V, PTE_U);
    var f1 := if And(p, 1) != 0 then Or(f0, PTE_X) else f0;
    var f2 := if And(p, 4) != 0 then Or(f1, PTE_R) else f1;
    if And(p, 2) != 0 then Or(f2, PTE_W) else f2
  }

  lemma FlagsFrom(x: bool, r: bool, w: bool)
    ensures Or(PTE_V, PTE_U) == 17
    ensures var f1 := if x then 25 else 17; var f2 := if r then f1 + 2 else f1;
      Or(17, 8) == 25 && Or(f1, 2) == f1 + 2 && Or(f2, 4) == f2 + 4
  {
    hide Or;
    OrStep(1, 16);
    NothingOr(8);
    AddFlag8(17);
    AddFlag2(if x then 25 else 17);
    AddFlag4((if x then 25 else 17) + (if r then 2 else 0));
  }

  lemma FlagsWordIs(g: Segment)
    ensures FlagsWord(g.p_flags) == g.Flags()
  {
    hide And;
    hide Or;
    FlagMasks(g.p_flags);
    var p := g.p_flags;
    FlagsFrom(p % 2 == 1, p / 4 % 2 == 1, p / 2 % 2 == 1);
  }

  /** i entries of a table with entries of the given size. */
  function TableOffset(size: nat, i: nat): nat {
    size * i
  }

  /** Where program header i begins. */
  function HeaderAt(file: File, i: nat): nat
    requires HasHeader(file)
  {
    PhOff(file) + TableOffset(PhEntSize(file), i)
  }

  predicate HeadersInside(file: File) {
    HasHeader(file) && forall i :: 0 <= i < PhNum(file) ==> HeaderAt(file, i) + 56 <= |file|
  }

  function SegmentAt(file: File, i: nat): Segment
    requires HeadersInside(file) && i < PhNum(file)
  {
    var at := HeaderAt(file, i);
    Segment(LittleEndian(file, at, 4), LittleEndian(file, at + 4, 4),
            Field64(file, at + 8), Field64(file, at + 16), Field64(file, at + 32))
  }

  // -------------------------------------------------- what loading must produce

  /** The bytes of the segment lie in the file, and its addresses in the user half. */
  predicate Fine(file: File, g: Segment) {
    g.Loads() ==>
      && g.p_offset + g.p_filesz <= |file|
      && g.p_vaddr >= 0xffff_ffc0_0000_0000 && g.p_vaddr + g.p_filesz <= WORD_LIMIT
  }

  /** The byte at offset o of page pn, as segment g wants it: file contents, and zeros around them. */
  function SegmentByte(file: File, g: Segment, pn: nat, o: nat): Byte
    requires Fine(file, g) && g.Loads()
  {
    var a := pn * 4096 + o;
    if g.p_vaddr <= a < g.p_vaddr + g.p_filesz then file[g.p_offset + (a - g.p_vaddr)] else 0
  }

  /** Byte o of a page. */
  function ByteInPage(page: Page, o: nat): Byte
    requires |page| == 512 && o < 4096
  {
    ByteOf(page[o / 8], o % 8)
  }

  /** The last of the first n segments that covers a page, or -1. */
  function LastCover(gs: seq<Segment>, n: nat, pn: nat): int
    requires n <= |gs|
    ensures -1 <= LastCover(gs, n, pn) < n
    ensures LastCover(gs, n, pn) >= 0 ==> gs[LastCover(gs, n, pn)].Covers(pn)
    ensures forall k :: LastCover(gs, n, pn) < k < n ==> !gs[k].Covers(pn)
  {
    if n == 0 then -1 else if gs[n - 1].Covers(pn) then n - 1 else LastCover(gs, n - 1, pn)
  }

  /** The variable is_align when the loader reaches segment n. */
  predicate AlignedBefore(gs: seq<Segment>, n: nat)
    requires n <= |gs|
  {
    n == 0 || if gs[n - 1].p_type != 1 then AlignedBefore(gs, n - 1)
              else gs[n - 1].p_filesz > 0 || (AlignedBefore(gs, n - 1) && gs[n - 1].p_vaddr % 4096 == 0)
  }

  /** The first page of segment i goes through the path for unaligned starts. */
  predicate StartsUnaligned(gs: seq<Segment>, i: nat)
    requires i < |gs|
  {
    !AlignedBefore(gs, i) || gs[i].p_vaddr % 4096 != 0
  }

  /** Segment i computes the flags from its own p_flags at some point. */
  predicate SetsFlags(gs: seq<Segment>, i: nat)
    requires i < |gs|
  {
    gs[i].Loads() && (!StartsUnaligned(gs, i) || gs[i].p_filesz > 4096 - gs[i].p_vaddr % 4096)
  }

  /** The variable flags when the loader reaches segment n; it starts uninitialised, as junk. */
  function FlagsBefore(gs: seq<Segment>, n: nat, junk: Word): Word
    requires n <= |gs|
  {
    if n == 0 then junk else if SetsFlags(gs, n - 1) then gs[n - 1].Flags() else FlagsBefore(gs, n - 1, junk)
  }

  /** The flags with which page pn of segment i is mapped. */
  function PageFlags(gs: seq<Segment>, i: nat, pn: nat, junk: Word): Word
    requires i < |gs|
  {
    if pn == gs[i].First() && StartsUnaligned(gs, i) then FlagsBefore(gs, i, junk) else gs[i].Flags()
  }

  /** The loader never uses the uninitialised flags: the first segment that loads starts aligned. */
  predicate FlagsKnown(gs: seq<Segment>) {
    forall i :: 0 <= i < |gs| && gs[i].Loads() && StartsUnaligned(gs, i) ==> exists k :: 0 <= k < i && SetsFlags(gs, k)
  }

  predicate UserFlags(f: nat) {
    f < 32 && f % 2 == 1 && f / 16 % 2 == 1
  }

  lemma SegmentFlags(g: Segment)
    ensures UserFlags(g.Flags())
    ensures g.Flags() / 8 % 2 == g.p_flags % 2 && g.Flags() / 2 % 2 == g.p_flags / 4 % 2
    ensures g.Flags() / 4 % 2 == g.p_flags / 2 % 2
  {
  }

  lemma {:induction false} KnownFlags(gs: seq<Segment>, n: nat, junk: Word)
    requires n <= |gs|
    ensures (exists k :: 0 <= k < n && SetsFlags(gs, k)) ==> UserFlags(FlagsBefore(gs, n, junk))
  {
    if n > 0 {
      KnownFlags(gs, n - 1, junk);
      SegmentFlags(gs[n - 1]);
    }
  }

  lemma FlagsAreUserFlags(gs: seq<Segment>, i: nat, pn: nat, junk: Word)
    requires i < |gs| && FlagsKnown(gs) && gs[i].Loads()
    ensures UserFlags(PageFlags(gs, i, pn, junk))
  {
    SegmentFlags(gs[i]);
    KnownFlags(gs, i, junk);
  }

  predicate FileFits(file: File, gs: seq<Segment>) {
    && FlagsKnown(gs)
    && forall i :: 0 <= i < |gs| ==> Fine(file, gs[i])
  }

  /** All program headers of the file. */
  function Segments(file: File): (gs: seq<Segment>)
    requires HeadersInside(file)
    ensures |gs| == PhNum(file) && forall i :: 0 <= i < |gs| ==> gs[i] == SegmentAt(file, i)
  {
    seq(PhNum(file), i requires 0 <= i < PhNum(file) => SegmentAt(file, i))
  }

  /** The 56 bytes at position at are the program header g; those of p_paddr, p_memsz and p_align are not read. */
  ghost predicate HeaderOf(file: File, at: nat, g: Segment) {
    && at + 56 <= |file| && g.p_type < 0x1_0000_0000 && g.p_flags < 0x1_0000_0000
    && g.p_offset < WORD_LIMIT && g.p_filesz < WORD_LIMIT
    && (forall k: nat {:trigger ByteOf(g.p_type, k)} :: k < 4 ==> ByteOf(g.p_type, k) == file[at + k])
    && (forall k: nat {:trigger ByteOf(g.p_flags, k)} :: k < 4 ==> ByteOf(g.p_flags, k) == file[at + 4 + k])
    && (forall k: nat {:trigger ByteOf(g.p_offset, k)} :: k < 8 ==> ByteOf(g.p_offset, k) == file[at + 8 + k])
    && (forall k: nat {:trigger ByteOf(g.p_vaddr, k)} :: k < 8 ==> ByteOf(g.p_vaddr, k) == file[at + 16 + k])
    && (forall k: nat {:trigger ByteOf(g.p_filesz, k)} :: k < 8 ==> ByteOf(g.p_filesz, k) == file[at + 32 + k])
  }

  lemma SegmentBytes(file: File, i: nat)
    requires HeadersInside(file) && i < PhNum(file)
    ensures HeaderOf(file, HeaderAt(file, i), SegmentAt(file, i))
  {
    hide ByteOf;
    hide LittleEndian;
    hide PhNum;
    var at := HeaderAt(file, i);
    hide HeaderAt;
    BytesBack(file, at, 4);
    BytesBack(file, at + 4, 4);
    BytesBack(file, at + 8, 8);
    BytesBack(file, at + 16, 8);
    BytesBack(file, at + 32, 8);
    ShortNumber(file, at, 4);
    ShortNumber(file, at + 4, 4);
  }

  lemma ShortNumber(file: File, at: nat, n: nat)
    requires at + n <= |file|
    ensures n == 2 ==> LittleEndian(file, at, n) < 0x1_0000
    ensures n == 4 ==> LittleEndian(file, at, n) < 0x1_0000_0000
  {
    var w := LittleEndian(file, at, n);
    LittleEndianFits(file, at, n);
    hide LittleEndian;
    if n == 2 {
      assert Fits(w, 2) == Fits(w / 256, 1) == Fits(w / 256 / 256, 0);
    } else if n == 4 {
      FourBytes(w, 0);
    }
  }

  /**
   Where the program headers are: the table begins at the number in bytes 32 to 39 of the file,
   its entries have the size in bytes 54 and 55, and there are as many as bytes 56 and 57 say.
   */
  lemma TableBytes(file: File) returns (offset: Word, size: nat, count: nat)
    requires HeadersInside(file)
    ensures size < 0x1_0000 && count < 0x1_0000 && |Segments(file)| == count
    ensures forall k: nat {:trigger ByteOf(offset, k)} :: k < 8 ==> ByteOf(offset, k) == file[32 + k]
    ensures forall k: nat {:trigger ByteOf(size, k)} :: k < 2 ==> ByteOf(size, k) == file[54 + k]
    ensures forall k: nat {:trigger ByteOf(count, k)} :: k < 2 ==> ByteOf(count, k) == file[56 + k]
    ensures forall i: nat {:trigger Segments(file)[i]} :: i < count ==>
              HeaderOf(file, offset + size * i, Segments(file)[i])
  {
    hide ByteOf;
    hide LittleEndian;
    offset, size, count := PhOff(file), PhEntSize(file), PhNum(file);
    BytesBack(file, 32, 8);
    BytesBack(file, 54, 2);
    BytesBack(file, 56, 2);
    ShortNumber(file, 54, 2);
    ShortNumber(file, 56, 2);
    forall i: nat | i < count ensures HeaderOf(file, offset + size * i, Segments(file)[i]) {
      SegmentBytes(file, i);
      TableStep(file, i);
    }
  }

  lemma TableStep(file: File, i: nat)
    requires HasHeader(file)
    ensures HeaderAt(file, i) == PhOff(file) + PhEntSize(file) * i
  {
  }

  // ------------------------------------------------------ page numbers and paths

  predicate UserPage64(pn: nat) {
    0xf_ffff_fc00_0000 <= pn < 0x10_0000_0000_0000
  }

  function PathOfPage(pn: nat): Path
    requires UserPage64(pn)
  {
    PathOf(pn * 4096)
  }

  function PageOfPath(t: Path): nat
    requires UserPath(t)
  {
    AddressOfPath(t) / 4096
  }

  lemma PagesArePaths(t: Path)
    requires UserPath(t)
    ensures UserPage64(PageOfPath(t)) && PathOfPage(PageOfPath(t)) == t
  {
    hide And;
    hide Or;
    PathOfAddress(t);
    assert AddressOfPath(t) == PageOfPath(t) * 4096;
  }

  lemma PathsArePages(pn: nat)
    requires UserPage64(pn)
    ensures UserPath(PathOfPage(pn)) && PageOfPath(PathOfPage(pn)) == pn
    ensures L2Index(pn * 4096) == PathOfPage(pn).i2 && PathOfPage(pn) == PathOf(pn * 4096)
  {
    hide And;
    hide Or;
    var va := pn * 4096;
    PathFields(va);
    CanonicalAddress(va);
  }
}
