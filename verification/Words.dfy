/**
 64-bit machine words and the C++ operators & and | that the kernel applies to them.

 A word is a natural number below 2^64.  The two operators are defined on binary digits;
 the lemmas turn masked words into quotients and remainders by powers of two.  Shifts are
 divisions and multiplications by powers of two.
 */
module Words {

  const WORD_LIMIT: nat := 0x1_0000_0000_0000_0000

  type Word = w: nat | w < 0x1_0000_0000_0000_0000
  type Byte = b: nat | b < 256

  // ---------------------------------------------------------------- operators

  function BothOdd(a: nat, b: nat): nat {
    if a % 2 == 1 && b % 2 == 1 then 1 else 0
  }

  /** The operator & of the source. */
  function And(a: nat, b: nat): (r: nat)
    ensures r <= a && r <= b
  {
    if a == 0 || b == 0 then 0 else 2 * And(a / 2, b / 2) + BothOdd(a, b)
  }

  /** The operator | of the source. */
  function Or(a: nat, b: nat): (r: nat)
    ensures a <= r && b <= r <= a + b
    decreases a + b
  {
    if a == 0 then b
    else if b == 0 then a
    else 2 * Or(a / 2, b / 2) + (if a % 2 == 1 || b % 2 == 1 then 1 else 0)
  }

  function Pow2(k: nat): (r: nat)
    ensures r >= 1
  {
    if k == 0 then 1 else 2 * Pow2(k - 1)
  }

  // ------------------------------------------------------ splitting off low bits

  /** w without its low s bits, moved down. */
  function High(w: nat, s: nat): nat {
    if s == 0 then w else High(w / 2, s - 1)
  }

  /** The low k bits of w. */
  function Low(w: nat, k: nat): nat {
    if k == 0 then 0 else 2 * Low(w / 2, k - 1) + w % 2
  }

  /** x moved up by s bits. */
  function Raise(x: nat, s: nat): nat {
    if s == 0 then x else 2 * Raise(x, s - 1)
  }

  lemma {:induction false} RaiseMultiplies(x: nat, s: nat)
    ensures Raise(x, s) == x * Pow2(s)
  {
    if s > 0 {
      RaiseMultiplies(x, s - 1);
      assert x * (2 * Pow2(s - 1)) == 2 * (x * Pow2(s - 1));
    }
  }

  lemma {:induction false} SplitBits(w: nat, k: nat)
    ensures w == High(w, k) * Pow2(k) + Low(w, k)
    ensures Low(w, k) < Pow2(k)
  {
    if k > 0 {
      var v, b := w / 2, w % 2;
      SplitBits(v, k - 1);
      Doubling(v, b, High(v, k - 1), Pow2(k - 1), Low(v, k - 1));
    }
  }

  lemma Doubling(v: nat, b: nat, h: nat, p: nat, l: nat)
    requires v == h * p + l
    ensures 2 * v + b == h * (2 * p) + (2 * l + b)
  {
    assert h * (2 * p) == 2 * (h * p);
  }

  // ------------------------------------------------------------------- masks

  lemma AndStep(a: nat, b: nat)
    ensures And(a, b) == 2 * And(a / 2, b / 2) + BothOdd(a, b)
  {
  }

  /** Masking with k low ones keeps the low k bits. */
  lemma {:induction false} AndLowOnes(w: nat, k: nat)
    ensures And(w, Pow2(k) - 1) == Low(w, k)
  {
    if k > 0 {
      var mask := Pow2(k) - 1;
      assert mask / 2 == Pow2(k - 1) - 1 && mask % 2 == 1;
      AndLowOnes(w / 2, k - 1);
      hide And;
      AndStep(w, mask);
    }
  }

  /** Masking with k ones starting at bit s keeps exactly that field. */
  lemma {:induction false} AndField(w: nat, k: nat, s: nat)
    ensures And(w, Raise(Pow2(k) - 1, s)) == Raise(Low(High(w, s), k), s)
  {
    hide And;
    if s == 0 {
      AndLowOnes(w, k);
    } else {
      AndField(w / 2, k, s - 1);
      AndOfDouble(w, Raise(Pow2(k) - 1, s - 1));
    }
  }

  lemma AndOfDouble(w: nat, mask: nat)
    ensures And(w, 2 * mask) == 2 * And(w / 2, mask)
  {
    hide And;
    var m := 2 * mask;
    assert m / 2 == mask && m % 2 == 0;
    AndStep(w, m);
  }

  /** Or adds when one operand only has bits from k up and the other only bits below k. */
  lemma {:induction false} OrDisjoint(a: nat, b: nat, k: nat)
    requires b < Pow2(k)
    ensures Or(Raise(a, k), b) == Raise(a, k) + b == Or(b, Raise(a, k))
  {
    if k > 0 && Raise(a, k) > 0 && b > 0 {
      OrDisjoint(a, b / 2, k - 1);
    }
  }

  // ---------------------------------------------------- concrete powers and masks

  lemma {:induction false} PowersMultiply(a: nat, b: nat)
    ensures Pow2(a + b) == Pow2(a) * Pow2(b)
  {
    if a > 0 {
      PowersMultiply(a - 1, b);
      assert 2 * (Pow2(a - 1) * Pow2(b)) == (2 * Pow2(a - 1)) * Pow2(b);
    }
  }

  lemma SmallPowers()
    ensures Pow2(0) == 1 && Pow2(1) == 2 && Pow2(9) == 512 && Pow2(10) == 1024 && Pow2(12) == 4096
  {
    assert Pow2(4) == 16;
    assert Pow2(8) == 256;
  }

  lemma LargePowers()
    ensures Pow2(20) == 0x10_0000 && Pow2(21) == 0x20_0000 && Pow2(30) == 0x4000_0000
    ensures Pow2(38) == 0x40_0000_0000 && Pow2(39) == 0x80_0000_0000 && Pow2(44) == 0x1000_0000_0000
  {
    SmallPowers();
    PowersMultiply(10, 10);
    PowersMultiply(12, 9);
    PowersMultiply(20, 10);
    PowersMultiply(30, 9);
    PowersMultiply(44 - 12, 12);
    PowersMultiply(20, 12);
    PowersMultiply(38, 1);
  }

  lemma QuotientIs(x: nat, m: nat, q: nat, r: nat)
    requires r < m && x == q * m + r
    ensures x / m == q && x % m == r
  {
    var q0, r0 := x / m, x % m;
    assert x == m * q0 + r0;
    assert m * (q - q0) == m * q - m * q0 == r0 - r;
    if q > q0 {
      ProductAtLeast(m, q - q0);
      assert false;
    }
    if q < q0 {
      ProductAtLeast(m, q0 - q);
      assert false;
    }
  }

  lemma ProductAtLeast(m: nat, d: nat)
    requires d >= 1
    ensures m * d >= m
  {
  }

  /** Masking a word with k ones at bit s keeps the field w / 2^s modulo 2^k in place. */
  lemma FieldOfWord(w: nat, k: nat, s: nat)
    ensures And(w, (Pow2(k) - 1) * Pow2(s)) == w / Pow2(s) % Pow2(k) * Pow2(s)
  {
    RaiseMultiplies(Pow2(k) - 1, s);
    AndField(w, k, s);
    RaiseMultiplies(Low(High(w, s), k), s);
    SplitBits(w, s);
    QuotientIs(w, Pow2(s), High(w, s), Low(w, s));
    SplitBits(High(w, s), k);
    QuotientIs(High(w, s), Pow2(k), High(High(w, s), k), Low(High(w, s), k));
  }

  /** Or of a multiple of 2^k and a number below 2^k is their sum. */
  lemma OrAdds(a: nat, b: nat, k: nat)
    requires b < Pow2(k)
    ensures Or(a * Pow2(k), b) == a * Pow2(k) + b == Or(b, a * Pow2(k))
  {
    RaiseMultiplies(a, k);
    OrDisjoint(a, b, k);
  }
}
