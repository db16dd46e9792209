/**
 Writing what load_elf reads: a file header, program headers behind it, and a body.  It shows
 that files with given segments exist, and that the field positions fit together.
 */
module ElfFiles {
  import opened Words
  import opened PhysicalMemories
  import opened Elf

  predicate Writable(g: Segment) {
    && g.p_type < 0x1_0000_0000 && g.p_flags < 0x1_0000_0000
    && g.p_offset < 0x1_0000_0000_0000_0000 && g.p_filesz < 0x1_0000_0000_0000_0000
  }

  /** Byte o of the 64 bytes of the file header: e_entry, e_phoff, e_phentsize and e_phnum. */
  function HeaderByte(entry: Word, n: nat, o: nat): Byte {
    if 24 <= o < 32 then ByteOf(entry, o - 24)
    else if 32 <= o < 40 then ByteOf(64, o - 32)
    else if 54 <= o < 56 then ByteOf(56, o - 54)
    else if 56 <= o < 58 then ByteOf(n, o - 56)
    else 0
  }

  /** Byte o of the 56 bytes of a program header. */
  function SegmentHeaderByte(g: Segment, o: nat): Byte {
    if o < 4 then ByteOf(g.p_type, o)
    else if o < 8 then ByteOf(g.p_flags, o - 4)
    else if o < 16 then ByteOf(g.p_offset, o - 8)
    else if o < 24 then ByteOf(g.p_vaddr, o - 16)
    else if 32 <= o < 40 then ByteOf(g.p_filesz, o - 32)
    else 0
  }

  function FileByte(entry: Word, gs: seq<Segment>, body: File, i: nat): Byte
    requires i < 64 + 56 * |gs| + |body|
  {
    if i < 64 then HeaderByte(entry, |gs|, i)
    else if i < 64 + 56 * |gs| then SegmentHeaderByte(gs[(i - 64) / 56], (i - 64) % 56)
    else body[i - 64 - 56 * |gs|]
  }

  function WriteFile(entry: Word, gs: seq<Segment>, body: File): (file: File)
    ensures |file| == 64 + 56 * |gs| + |body|
  {
    seq(64 + 56 * |gs| + |body|, i requires 0 <= i < 64 + 56 * |gs| + |body| => FileByte(entry, gs, body, i))
  }

  // ---------------------------------------------------------------- reading back

  /** A number is read back from its bytes. */
  lemma {:induction false} ReadBack(file: File, at: nat, n: nat, w: nat)
    requires at + n <= |file| && Fits(w, n)
    requires forall k {:trigger ByteOf(w, k)} :: 0 <= k < n ==> file[at + k] == ByteOf(w, k)
    ensures LittleEndian(file, at, n) == w
    decreases n
  {
    if n > 0 {
      assert file[at + 0] == ByteOf(w, 0) == w % 256;
      forall k | 0 <= k < n - 1 ensures file[at + 1 + k] == ByteOf(w / 256, k) {
        assert file[at + (k + 1)] == ByteOf(w, k + 1);
      }
      ReadBack(file, at + 1, n - 1, w / 256);
    }
  }

  lemma ShortFits(w: nat)
    ensures w < 0x1_0000_0000 ==> Fits(w, 4)
    ensures w < 0x1_0000 ==> Fits(w, 2)
  {
    FourBytes(w, 0);
    assert Fits(w, 2) == Fits(w / 256, 1) == Fits(w / 256 / 256, 0);
  }

  lemma HeaderReadBack(entry: Word, gs: seq<Segment>, body: File)
    requires |gs| < 0x1_0000
    ensures var file := WriteFile(entry, gs, body);
      HasHeader(file) && Entry64(file) == entry && PhOff(file) == 64 && PhEntSize(file) == 56 && PhNum(file) == |gs|
  {
    hide LittleEndian;
    hide ByteOf;
    hide Fits;
    var file := WriteFile(entry, gs, body);
    WordFits(entry);
    WordFits(64);
    ShortFits(56);
    ShortFits(|gs|);
    ReadBack(file, 24, 8, entry);
    ReadBack(file, 32, 8, 64);
    ReadBack(file, 54, 2, 56);
    ReadBack(file, 56, 2, |gs|);
  }

  lemma SegmentHeaderAt(entry: Word, gs: seq<Segment>, body: File, i: nat, o: nat)
    requires i < |gs| && o < 56
    ensures 64 + 56 * i + o < |WriteFile(entry, gs, body)|
    ensures WriteFile(entry, gs, body)[64 + 56 * i + o] == SegmentHeaderByte(gs[i], o)
  {
    hide SegmentHeaderByte;
    QuotientIs(56 * i + o, 56, i, o);
  }

  /** A field of n bytes at offset off of program header i. */
  lemma FieldReadBack(entry: Word, gs: seq<Segment>, body: File, i: nat, off: nat, n: nat, w: nat)
    requires i < |gs| && off + n <= 56 && Fits(w, n)
    requires forall k {:trigger ByteOf(w, k)} :: 0 <= k < n ==> SegmentHeaderByte(gs[i], off + k) == ByteOf(w, k)
    ensures var file := WriteFile(entry, gs, body); var at := 64 + 56 * i;
      at + 56 <= |file| && LittleEndian(file, at + off, n) == w
  {
    hide *;
    var file, at := WriteFile(entry, gs, body), 64 + 56 * i + off;
    assert 56 * i + 56 <= 56 * |gs|;
    forall k | 0 <= k < n ensures file[at + k] == ByteOf(w, k) {
      SegmentHeaderAt(entry, gs, body, i, off + k);
    }
    ReadBack(file, at, n, w);
  }

  lemma SegmentReadBack(entry: Word, gs: seq<Segment>, body: File, i: nat)
    requires i < |gs| < 0x1_0000 && Writable(gs[i])
    ensures var file := WriteFile(entry, gs, body); var at := 64 + 56 * i;
      && at + 56 <= |file| && LittleEndian(file, at, 4) == gs[i].p_type
      && LittleEndian(file, at + 4, 4) == gs[i].p_flags
      && LittleEndian(file, at + 8, 8) == gs[i].p_offset && LittleEndian(file, at + 16, 8) == gs[i].p_vaddr
      && LittleEndian(file, at + 32, 8) == gs[i].p_filesz
  {
    hide LittleEndian;
    hide ByteOf;
    hide Fits;
    hide WriteFile;
    var g := gs[i];
    ShortFits(g.p_type);
    ShortFits(g.p_flags);
    WordFits(g.p_offset);
    WordFits(g.p_vaddr);
    WordFits(g.p_filesz);
    FieldReadBack(entry, gs, body, i, 0, 4, g.p_type);
    FieldReadBack(entry, gs, body, i, 4, 4, g.p_flags);
    FieldReadBack(entry, gs, body, i, 8, 8, g.p_offset);
    FieldReadBack(entry, gs, body, i, 16, 8, g.p_vaddr);
    FieldReadBack(entry, gs, body, i, 32, 8, g.p_filesz);
  }

  /** What is written is what load_elf reads. */
  lemma WriteThenRead(entry: Word, gs: seq<Segment>, body: File)
    requires |gs| < 0x1_0000 && forall g :: g in gs ==> Writable(g)
    ensures var file := WriteFile(entry, gs, body);
      HeadersInside(file) && Segments(file) == gs && Entry64(file) == entry
  {
    hide LittleEndian;
    hide WriteFile;
    var file := WriteFile(entry, gs, body);
    HeaderReadBack(entry, gs, body);
    forall i: nat | i < |gs| ensures HeaderAt(file, i) == 64 + 56 * i && 64 + 56 * i + 56 <= |file| {
    }
    forall i: nat | i < |gs| ensures SegmentAt(file, i) == gs[i] {
      SegmentReadBack(entry, gs, body, i);
    }
  }
}
