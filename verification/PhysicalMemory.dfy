/**
 Physical memory: the 128 MB of DRAM that the kernel maps one to one, as an array of
 64-bit words, with the byte loops memset and memcpy of kernel/utils.cpp on top.

 The ghost field pages presents the same words page by page; all reasoning about
 page tables and frames is about pages.
 */
module PhysicalMemories {
  import opened Words

  const DRAM_BASE: nat := 0x8000_0000
  const MEMORY_SIZE: nat := 0x800_0000

  type Page = seq<Word>
  type Mem = seq<Page>

  predicate InDram(a: nat) {
    0x8000_0000 <= a < 0x8800_0000
  }

  /** ppn is the page number of a page of DRAM. */
  predicate IsPage(ppn: nat) {
    0x8_0000 <= ppn < 0x8_8000
  }

  ghost predicate Shaped(m: Mem) {
    |m| == 0x8000 && forall p :: 0 <= p < |m| ==> |m[p]| == 512
  }

  /** Word i of the page with number ppn; zero outside DRAM. */
  function Entry(m: Mem, ppn: nat, i: nat): Word {
    if 0x8_0000 <= ppn < 0x8_0000 + |m| && i < |m[ppn - 0x8_0000]| then m[ppn - 0x8_0000][i] else 0
  }

  function SetEntry(m: Mem, ppn: nat, i: nat, w: Word): Mem
    requires Shaped(m) && IsPage(ppn) && i < 512
  {
    var page: Page := m[ppn - 0x8_0000][i := w];
    m[ppn - 0x8_0000 := page]
  }

  function PageAt(m: Mem, ppn: nat): Page
    requires Shaped(m) && IsPage(ppn)
  {
    m[ppn - 0x8_0000]
  }

  lemma EntryOfSet(m: Mem, ppn: nat, i: nat, w: Word)
    requires Shaped(m) && IsPage(ppn) && i < 512
    ensures Shaped(SetEntry(m, ppn, i, w))
    ensures forall q: nat, j: nat {:trigger Entry(SetEntry(m, ppn, i, w), q, j)} ::
              Entry(SetEntry(m, ppn, i, w), q, j) == if q == ppn && j == i then w else Entry(m, q, j)
  {
  }

  lemma SetTwice(m: Mem, ppn: nat, i: nat, v: Word, w: Word)
    requires Shaped(m) && IsPage(ppn) && i < 512
    ensures SetEntry(SetEntry(m, ppn, i, v), ppn, i, w) == SetEntry(m, ppn, i, w)
  {
    var page: Page := m[ppn - 0x8_0000];
    assert page[i := v][i := w] == page[i := w];
  }

  // ------------------------------------------------------------- bytes of words

  /** Byte k of a word, least significant first. */
  function ByteOf(w: nat, k: nat): Byte {
    if k == 0 then w % 256 else ByteOf(w / 256, k - 1)
  }

  function SetByte(w: nat, k: nat, b: Byte): nat {
    if k == 0 then w / 256 * 256 + b else 256 * SetByte(w / 256, k - 1, b) + w % 256
  }

  predicate Fits(w: nat, n: nat) {
    if n == 0 then w == 0 else Fits(w / 256, n - 1)
  }

  lemma {:induction false} ByteOfSetByte(w: nat, k: nat, b: Byte, j: nat)
    ensures ByteOf(SetByte(w, k, b), j) == if j == k then b else ByteOf(w, j)
  {
    if k > 0 && j > 0 {
      ByteOfSetByte(w / 256, k - 1, b, j - 1);
    }
  }

  lemma {:induction false} SetByteFits(w: nat, k: nat, b: Byte, n: nat)
    requires Fits(w, n) && k < n
    ensures Fits(SetByte(w, k, b), n)
  {
    if k > 0 {
      SetByteFits(w / 256, k - 1, b, n - 1);
    }
  }

  lemma {:induction false} BytesDetermine(v: nat, w: nat, n: nat)
    requires Fits(v, n) && Fits(w, n) && forall k :: 0 <= k < n ==> ByteOf(v, k) == ByteOf(w, k)
    ensures v == w
  {
    if n > 0 {
      forall k | 0 <= k < n - 1 ensures ByteOf(v / 256, k) == ByteOf(w / 256, k) {
        assert ByteOf(v, k + 1) == ByteOf(w, k + 1);
      }
      assert ByteOf(v, 0) == ByteOf(w, 0);
      BytesDetermine(v / 256, w / 256, n - 1);
    }
  }

  lemma WordFits(w: nat)
    ensures Fits(w, 8) <==> w < WORD_LIMIT
  {
    FourBytes(w, 4);
    FourBytes(w / 0x1_0000_0000, 0);
  }

  lemma FourBytes(w: nat, n: nat)
    ensures Fits(w, n + 4) == Fits(w / 0x1_0000_0000, n)
  {
    assert Fits(w, n + 4) == Fits(w / 256, n + 3) == Fits(w / 256 / 256, n + 2);
    assert Fits(w / 256 / 256, n + 2) == Fits(w / 256 / 256 / 256, n + 1) == Fits(w / 256 / 256 / 256 / 256, n);
  }

  /** The byte at a physical address. */
  function ByteAt(m: Mem, a: nat): Byte {
    ByteOf(Entry(m, a / 4096, a % 4096 / 8), a % 8)
  }

  /** The byte at offset o of page p. */
  function PageByte(m: Mem, p: nat, o: nat): Byte {
    ByteAt(m, p * 4096 + o)
  }

  /** Replacing one byte of the word that holds it changes that byte only. */
  lemma ByteOfStore(m: Mem, a: nat, b: Byte, c: nat)
    requires Shaped(m) && InDram(a)
    ensures var w := SetByte(Entry(m, a / 4096, a % 4096 / 8), a % 8, b);
            && w < WORD_LIMIT
            && ByteAt(SetEntry(m, a / 4096, a % 4096 / 8, w), c) == if c == a then b else ByteAt(m, c)
  {
    var v := Entry(m, a / 4096, a % 4096 / 8);
    var w := SetByte(v, a % 8, b);
    WordFits(v);
    SetByteFits(v, a % 8, b, 8);
    WordFits(w);
    EntryOfSet(m, a / 4096, a % 4096 / 8, w);
    ByteOfSetByte(v, a % 8, b, c % 8);
    SplitAddress(a);
    SplitAddress(c);
  }

  lemma SplitAddress(a: nat)
    ensures a == a / 4096 * 4096 + a % 4096 / 8 * 8 + a % 8
  {
    assert a % 4096 % 8 == a % 8;
  }

  /** Two pages that agree on every byte agree on every word. */
  lemma BytesMakePage(m: Mem, p: nat, n: Mem, q: nat)
    requires Shaped(m) && Shaped(n) && IsPage(p) && IsPage(q)
    requires forall o :: 0 <= o < 4096 ==> PageByte(m, p, o) == PageByte(n, q, o)
    ensures PageAt(m, p) == PageAt(n, q)
  {
    forall i | 0 <= i < 512 ensures PageAt(m, p)[i] == PageAt(n, q)[i] {
      var v, w := PageAt(m, p)[i], PageAt(n, q)[i];
      forall k | 0 <= k < 8 ensures ByteOf(v, k) == ByteOf(w, k) {
        ByteOfPage(m, p, i, k);
        ByteOfPage(n, q, i, k);
        assert PageByte(m, p, i * 8 + k) == PageByte(n, q, i * 8 + k);
      }
      WordFits(v);
      WordFits(w);
      BytesDetermine(v, w, 8);
    }
  }

  lemma ByteOfPage(m: Mem, p: nat, i: nat, k: nat)
    requires Shaped(m) && IsPage(p) && i < 512 && k < 8
    ensures PageByte(m, p, i * 8 + k) == ByteOf(PageAt(m, p)[i], k)
  {
    var a := p * 4096 + (i * 8 + k);
    assert a / 4096 == p && a % 4096 == i * 8 + k;
    assert a % 4096 / 8 == i && a % 8 == k;
  }

  /** Memory that differs only inside page p, and there byte for byte looks like page q of n. */
  lemma OnePageChanged(m: Mem, m': Mem, p: nat, n: Mem, q: nat)
    requires Shaped(m) && Shaped(m') && Shaped(n) && IsPage(p) && IsPage(q)
    requires forall c: nat {:trigger ByteAt(m', c)} :: c / 4096 != p ==> ByteAt(m', c) == ByteAt(m, c)
    requires forall o: nat {:trigger PageByte(m', p, o)} :: o < 4096 ==> PageByte(m', p, o) == PageByte(n, q, o)
    ensures m' == m[p - 0x8_0000 := PageAt(n, q)]
  {
    BytesMakePage(m', p, n, q);
    forall i | 0 <= i < 0x8000 && i != p - 0x8_0000 ensures m'[i] == m[i] {
      var r := i + 0x8_0000;
      forall o | 0 <= o < 4096 ensures PageByte(m', r, o) == PageByte(m, r, o) {
        assert (r * 4096 + o) / 4096 == r;
      }
      BytesMakePage(m', r, m, r);
    }
  }

  /** Memory that differs only inside page p. */
  lemma InsideOnePage(m: Mem, m': Mem, p: nat)
    requires Shaped(m) && Shaped(m') && IsPage(p)
    requires forall c: nat {:trigger ByteAt(m', c)} :: c / 4096 != p ==> ByteAt(m', c) == ByteAt(m, c)
    ensures m' == m[p - 0x8_0000 := PageAt(m', p)]
  {
    OnePageChanged(m, m', p, m', p);
  }

  function Zeros(n: nat): (page: Page)
    ensures |page| == n && forall i :: 0 <= i < n ==> page[i] == 0
  {
    if n == 0 then [] else Zeros(n - 1) + [0]
  }

  lemma {:induction false} ByteOfZero(k: nat)
    ensures ByteOf(0, k) == 0
  {
    if k > 0 {
      ByteOfZero(k - 1);
    }
  }

  /** Bytes of a page of zeros. */
  lemma ZeroBytes(m: Mem, p: nat, o: nat)
    requires Shaped(m) && IsPage(p) && PageAt(m, p) == Zeros(512) && o < 4096
    ensures PageByte(m, p, o) == 0
  {
    assert (p * 4096 + o) / 4096 == p && (p * 4096 + o) % 4096 == o;
    ByteOfZero((p * 4096 + o) % 8);
  }

  // ------------------------------------------------------------------- the class

  /** Where byte i of a target comes from when bytes are copied upwards one by one. */
  function CopyOrigin(src: nat, dst: nat, i: nat): nat {
    if src < dst then src + i % (dst - src) else src + i
  }

  /** Without overlap that is byte i of the source. */
  lemma CopyOriginApart(src: nat, dst: nat, i: nat, length: nat)
    requires i < length && (src + length <= dst || dst <= src)
    ensures CopyOrigin(src, dst, i) == src + i
  {
  }

  /** Remainders repeat after one divisor. */
  lemma SameRemainder(i: nat, d: nat)
    requires 0 < d <= i
    ensures (i - d) % d == i % d
  {
    var q, r := (i - d) / d, (i - d) % d;
    assert i == q * d + d + r;
    QuotientIs(i, d, q + 1, r);
  }

  /** What the loop reads in round i: a byte of the source, or one that it has already copied. */
  lemma CopyOriginStep(src: nat, dst: nat, i: nat)
    ensures CopyOrigin(src, dst, i) ==
              if dst <= src + i < dst + i then CopyOrigin(src, dst, src + i - dst) else src + i
  {
    if src < dst <= src + i {
      SameRemainder(i, dst - src);
      assert src + i - dst == i - (dst - src);
    }
  }

  /** After i rounds of copying upwards. */
  ghost predicate CopiedBytes(was: Mem, now: Mem, src: nat, dst: nat, i: nat) {
    forall c: nat {:trigger ByteAt(now, c)} ::
      ByteAt(now, c) == ByteAt(was, if dst <= c < dst + i then CopyOrigin(src, dst, c - dst) else c)
  }

  lemma CopyRound(was: Mem, before: Mem, now: Mem, src: nat, dst: nat, i: nat)
    requires CopiedBytes(was, before, src, dst, i)
    requires forall c: nat {:trigger ByteAt(now, c)} ::
               ByteAt(now, c) == if c == dst + i then ByteAt(before, src + i) else ByteAt(before, c)
    ensures CopiedBytes(was, now, src, dst, i + 1)
  {
    hide CopyOrigin;
    hide ByteAt;
    CopyOriginStep(src, dst, i);
  }

  class PhysicalMemory {
    const words: array<Word>
    ghost var pages: Mem

    ghost predicate Valid()
      reads this, words
    {
      && words.Length == 0x100_0000
      && Shaped(pages)
      && forall p, i {:trigger pages[p][i]} :: 0 <= p < 0x8000 && 0 <= i < 512 ==> words[p * 512 + i] == pages[p][i]
    }

    /** Memory with arbitrary contents, as the machine starts. */
    constructor (words: array<Word>)
      requires words.Length == 0x100_0000
      ensures Valid() && this.words == words
    {
      this.words := words;
      pages := seq(0x8000, p requires 0 <= p < 0x8000 reads words => words[p * 512..p * 512 + 512]);
    }

    method Load(a: nat) returns (w: Word)
      requires Valid() && InDram(a) && a % 8 == 0
      ensures w == Entry(pages, a / 4096, a % 4096 / 8)
    {
      var k := (a - DRAM_BASE) / 8;
      assert k == (a / 4096 - 0x8_0000) * 512 + a % 4096 / 8;
      w := words[k];
      assert w == pages[a / 4096 - 0x8_0000][a % 4096 / 8];
    }

    method Store(a: nat, w: Word)
      requires Valid() && InDram(a) && a % 8 == 0
      modifies this, words
      ensures Valid() && pages == SetEntry(old(pages), a / 4096, a % 4096 / 8, w)
    {
      var k := (a - DRAM_BASE) / 8;
      assert k == (a / 4096 - 0x8_0000) * 512 + a % 4096 / 8;
      words[k] := w;
      pages := SetEntry(pages, a / 4096, a % 4096 / 8, w);
    }

    method LoadByte(a: nat) returns (b: Byte)
      requires Valid() && InDram(a)
      ensures b == ByteAt(pages, a)
    {
      var w := Load(a - a % 8);
      b := ByteOf(w, a % 8);
    }

    method StoreByte(a: nat, b: Byte)
      requires Valid() && InDram(a)
      modifies this, words
      ensures Valid()
      ensures forall c: nat {:trigger ByteAt(pages, c)} ::
                ByteAt(pages, c) == if c == a then b else ByteAt(old(pages), c)
    {
      var w := Load(a - a % 8);
      ByteOfStore(pages, a, b, a);
      forall c: nat {
        ByteOfStore(pages, a, b, c);
      }
      SplitAddress(a);
      assert (a - a % 8) / 4096 == a / 4096 && (a - a % 8) % 4096 / 8 == a % 4096 / 8;
      Store(a - a % 8, SetByte(w, a % 8, b));
    }

    /** memset */
    method MemSet(memory: nat, value: Byte, length: nat)
      requires Valid() && 0x8000_0000 <= memory && memory + length <= 0x8800_0000
      modifies this, words
      ensures Valid()
      ensures forall c: nat {:trigger ByteAt(pages, c)} ::
                ByteAt(pages, c) == if memory <= c < memory + length then value else ByteAt(old(pages), c)
    {
      var i := 0;
      while i < length
        invariant i <= length && Valid()
        invariant forall c: nat {:trigger ByteAt(pages, c)} ::
                    ByteAt(pages, c) == if memory <= c < memory + i then value else ByteAt(old(pages), c)
      {
        StoreByte(memory + i, value);
        i := i + 1;
      }
    }

    /**
     memcpy, source first as in the source program.  It runs upwards, so a target that begins
     inside the source range repeats what lies between the two.
     */
    method MemCpy(src: nat, dst: nat, length: nat)
      requires Valid()
      requires 0x8000_0000 <= src && src + length <= 0x8800_0000
      requires 0x8000_0000 <= dst && dst + length <= 0x8800_0000
      modifies this, words
      ensures Valid()
      ensures forall c: nat {:trigger ByteAt(pages, c)} ::
                ByteAt(pages, c) ==
                  ByteAt(old(pages), if dst <= c < dst + length then CopyOrigin(src, dst, c - dst) else c)
    {
      hide CopyOrigin;
      hide ByteAt;
      var i := 0;
      while i < length
        invariant i <= length && Valid()
        invariant CopiedBytes(old(pages), pages, src, dst, i)
      {
        hide Valid;
        hide CopiedBytes;
        ghost var before := pages;
        var b := LoadByte(src + i);
        StoreByte(dst + i, b);
        CopyRound(old(pages), before, pages, src, dst, i);
        i := i + 1;
      }
    }

    /** memcpy from constant bytes outside the pool, such as a program linked into the kernel. */
    method MemCpyFrom(bytes: seq<Byte>, from: nat, dst: nat, length: nat)
      requires Valid() && from + length <= |bytes| && 0x8000_0000 <= dst && dst + length <= 0x8800_0000
      modifies this, words
      ensures Valid()
      ensures forall c: nat {:trigger ByteAt(pages, c)} ::
                ByteAt(pages, c) == if dst <= c < dst + length then bytes[from + (c - dst)] else ByteAt(old(pages), c)
    {
      var i := 0;
      while i < length
        invariant i <= length && Valid()
        invariant forall c: nat {:trigger ByteAt(pages, c)} ::
                    ByteAt(pages, c) == if dst <= c < dst + i then bytes[from + (c - dst)] else ByteAt(old(pages), c)
      {
        StoreByte(dst + i, bytes[from + i]);
        i := i + 1;
      }
    }
  }
}
