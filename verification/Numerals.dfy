/**
 itos and litos of kernel/utils.cpp: numbers as text in a base from 2 to 26.
 */
module Numerals {
  import opened Words

  /** temp > 9 ? temp - 10 + 'A' : temp + '0' */
  function Digit(d: nat): char
    requires d < 26
  {
    if d > 9 then (d - 10 + 65) as char else (d + 48) as char
  }

  function DigitValue(c: char): nat {
    if '0' <= c <= '9' then c as nat - 48 else if 'A' <= c <= 'Z' then c as nat - 65 + 10 else 0
  }

  predicate GoodBase(base: nat) {
    2 <= base <= 26
  }

  /** The digits of num, most significant first; none for zero. */
  function Digits(num: nat, base: nat): string
    requires GoodBase(base)
  {
    if num == 0 then "" else
      Smaller(num, base);
      Digits(num / base, base) + [Digit(num % base)]
  }

  function Numeral(num: nat, base: nat): string
    requires GoodBase(base)
  {
    if num == 0 then "0" else Digits(num, base)
  }

  /** The number that a text of digits stands for, most significant first. */
  function Value(s: string, base: nat): nat {
    if s == "" then 0 else Value(s[..|s| - 1], base) * base + DigitValue(s[|s| - 1])
  }

  lemma Smaller(num: nat, base: nat)
    requires GoodBase(base) && num > 0
    ensures num / base < num && num / base <= num / 2
  {
    var q := num / base;
    DivMod(num, base);
    assert q * base >= q * 2;
  }

  lemma DivMod(num: nat, base: nat)
    requires GoodBase(base)
    ensures num == num / base * base + num % base && num % base < base
  {
  }

  // ---------------------------------------------------------------- what the text is

  lemma DigitRoundTrip(d: nat)
    requires d < 26
    ensures DigitValue(Digit(d)) == d && Digit(d) != '\0' && (Digit(d) == '0' <==> d == 0)
  {
  }

  /** The digits themselves, in order. */
  lemma DigitTable(d: nat, base: nat)
    requires GoodBase(base) && d < base
    ensures Numeral(d, base) == ["0123456789ABCDEFGHIJKLMNOP"[d]]
  {
    hide Digit;
    DigitNames(d);
    if d > 0 {
      assert d / base == 0 && d % base == d && Digits(0, base) == "";
      assert Digits(d, base) == [Digit(d)];
    }
  }

  lemma DigitNames(d: nat)
    requires d < 26
    ensures Digit(d) == "0123456789ABCDEFGHIJKLMNOP"[d]
  {
  }

  lemma ValueOfAppend(s: string, c: char, base: nat)
    ensures Value(s + [c], base) == Value(s, base) * base + DigitValue(c)
  {
    assert (s + [c])[..|s + [c]| - 1] == s;
  }

  lemma {:induction false} DigitsValue(num: nat, base: nat)
    requires GoodBase(base)
    ensures Value(Digits(num, base), base) == num
  {
    hide Value;
    hide DigitValue;
    if num > 0 {
      Smaller(num, base);
      DivMod(num, base);
      DigitsValue(num / base, base);
      DigitRoundTrip(num % base);
      ValueOfAppend(Digits(num / base, base), Digit(num % base), base);
    } else {
      ValueOfNothing(base);
    }
  }

  lemma ValueOfNothing(base: nat)
    ensures Value("", base) == 0 && Value("0", base) == 0
  {
    ValueOfAppend("", '0', base);
    assert "" + ['0'] == "0";
  }

  /** The text evaluates back to the number. */
  lemma NumeralValue(num: nat, base: nat)
    requires GoodBase(base)
    ensures Value(Numeral(num, base), base) == num
  {
    DigitsValue(num, base);
    ValueOfNothing(base);
  }

  lemma {:induction false} DigitsStart(num: nat, base: nat)
    requires GoodBase(base) && num > 0
    ensures Digits(num, base) != "" && Digits(num, base)[0] != '0'
  {
    hide Digit;
    hide Digits;
    DigitsStep(num, base);
    Smaller(num, base);
    DigitRoundTrip(num % base);
    if num / base > 0 {
      DigitsStart(num / base, base);
    } else {
      NoDigits(base);
      DivMod(num, base);
    }
  }

  /** No leading zero, except for zero itself. */
  lemma NoLeadingZero(num: nat, base: nat)
    requires GoodBase(base)
    ensures Numeral(num, base) != "" && (Numeral(num, base)[0] == '0' <==> num == 0)
  {
    if num > 0 {
      DigitsStart(num, base);
    }
  }

  /** Every character is a digit of the base; none is NUL. */
  lemma {:induction false} DigitsOnly(num: nat, base: nat)
    requires GoodBase(base)
    ensures forall c :: c in Digits(num, base) ==> c != '\0' && DigitValue(c) < base && Digit(DigitValue(c)) == c
  {
    if num > 0 {
      Smaller(num, base);
      DigitsOnly(num / base, base);
      DigitRoundTrip(num % base);
    }
  }

  lemma NumeralOnly(num: nat, base: nat)
    requires GoodBase(base)
    ensures forall c :: c in Numeral(num, base) ==> c != '\0' && DigitValue(c) < base
  {
    DigitsOnly(num, base);
  }

  /** A number below 2^k has at most k digits. */
  lemma {:induction false} DigitsFit(num: nat, base: nat, k: nat)
    requires GoodBase(base) && num < Pow2(k)
    ensures |Digits(num, base)| <= k
  {
    if num > 0 {
      Smaller(num, base);
      assert k > 0;
      DigitsFit(num / base, base, k - 1);
    }
  }

  lemma WordPowers()
    ensures Pow2(32) == 0x1_0000_0000 && Pow2(64) == 0x1_0000_0000_0000_0000
  {
    hide Pow2;
    SmallPowers();
    LargePowers();
    PowersMultiply(20, 12);
    PowersMultiply(44, 20);
  }

  /** So long_number[65] holds every 64-bit number, and number[33] every 32-bit one. */
  lemma NumeralFits(num: nat, base: nat)
    requires GoodBase(base)
    ensures num < 0x1_0000_0000_0000_0000 ==> |Numeral(num, base)| <= 64
    ensures num < 0x1_0000_0000 ==> |Numeral(num, base)| <= 32
  {
    WordPowers();
    if 0 < num < 0x1_0000_0000_0000_0000 {
      DigitsFit(num, base, 64);
    }
    if 0 < num < 0x1_0000_0000 {
      DigitsFit(num, base, 32);
    }
  }

  /** Different numbers have different numerals. */
  lemma NumeralsDiffer(m: nat, n: nat, base: nat)
    requires GoodBase(base) && Numeral(m, base) == Numeral(n, base)
    ensures m == n
  {
    NumeralValue(m, base);
    NumeralValue(n, base);
  }

  // ------------------------------------------------------------------- the loops

  function Reversed(s: string): (r: string)
    ensures |r| == |s| && forall k :: 0 <= k < |s| ==> r[k] == s[|s| - 1 - k]
  {
    if s == "" then "" else Reversed(s[1..]) + [s[0]]
  }

  lemma DigitsStep(n: nat, base: nat)
    requires GoodBase(base) && n > 0
    ensures n / base < n && n % base < 26 && Digits(n, base) == Digits(n / base, base) + [Digit(n % base)]
  {
    Smaller(n, base);
    DivMod(n, base);
  }

  lemma NoDigits(base: nat)
    requires GoodBase(base)
    ensures Digits(0, base) == ""
  {
  }

  lemma LastOfPrefix(whole: string, now: string, rest: string, c: char, length: nat)
    requires now == rest + [c] && length + |now| == |whole| && now == whole[..|now|]
    ensures length + 1 + |rest| == |whole| && rest == whole[..|rest|] && whole[|whole| - 1 - length] == c
  {
    assert rest == now[..|rest|];
    assert whole[|now| - 1] == now[|now| - 1] == c;
  }

  /** The digits of num, least significant first, at the start of the buffer. */
  method Convert(numStr: array<char>, num: nat, base: nat) returns (length: nat)
    requires GoodBase(base) && |Digits(num, base)| < numStr.Length
    modifies numStr
    ensures length == |Digits(num, base)| && numStr[..length] == Reversed(Digits(num, base))
  {
    hide Digits;
    hide Digit;
    hide Reversed;
    NoDigits(base);
    ghost var whole := Digits(num, base);
    var n: nat := num;
    length := 0;
    while n != 0
      invariant length + |Digits(n, base)| == |whole| && Digits(n, base) == whole[..|Digits(n, base)|]
      invariant forall k :: 0 <= k < length ==> numStr[k] == whole[|whole| - 1 - k]
    {
      DigitsStep(n, base);
      var temp := n % base;
      LastOfPrefix(whole, Digits(n, base), Digits(n / base, base), Digit(temp), length);
      n := n / base;
      numStr[length] := Digit(temp);
      length := length + 1;
    }
    IsReversed(numStr[..length], whole);
  }

  lemma IsReversed(back: string, s: string)
    requires |back| == |s| && forall k :: 0 <= k < |s| ==> back[k] == s[|s| - 1 - k]
    ensures back == Reversed(s)
  {
    hide Reversed;
  }

  /** Swaps from both ends towards the middle. */
  method ReverseInPlace(numStr: array<char>, length: nat)
    requires length <= numStr.Length
    modifies numStr
    ensures numStr[..length] == Reversed(old(numStr[..length]))
    ensures forall k :: length <= k < numStr.Length ==> numStr[k] == old(numStr[k])
  {
    hide Reversed;
    var i, j: int := 0, length - 1;
    while i < j
      invariant 0 <= i && i + j == length - 1 && j >= i - 1
      invariant forall k :: 0 <= k < i ==>
                numStr[k] == old(numStr[length - 1 - k]) && numStr[length - 1 - k] == old(numStr[k])
      invariant forall k :: i <= k <= j ==> numStr[k] == old(numStr[k])
      invariant forall k :: length <= k < numStr.Length ==> numStr[k] == old(numStr[k])
    {
      numStr[i], numStr[j] := numStr[j], numStr[i];
      i, j := i + 1, j - 1;
    }
    forall k | 0 <= k < length ensures numStr[k] == old(numStr[length - 1 - k]) {
    }
  }

  /**
   The common body of itos and litos.  In a base they cannot do, both leave the buffer alone.
   */
  method ToText(numStr: array<char>, num: nat, base: nat)
    requires GoodBase(base) ==> |Numeral(num, base)| < numStr.Length
    modifies numStr
    ensures !GoodBase(base) ==> numStr[..] == old(numStr[..])
    ensures GoodBase(base) ==>
              var text := Numeral(num, base); numStr[..|text|] == text && numStr[|text|] == '\0'
  {
    hide Digits;
    hide Numeral;
    hide Reversed;
    hide Digit;
    if base < 2 || base > 26 {
      return;
    }
    DigitsNoLonger(num, base);
    var length := Convert(numStr, num, base);
    if length == 0 {
      numStr[0] := '0';
      length := 1;
    }
    ghost var before := numStr[..length];
    BackToFront(num, base, before);
    ReverseInPlace(numStr, length);
    ghost var text := Numeral(num, base);
    numStr[length] := '\0';
    assert numStr[..length] == text;
  }

  lemma DigitsNoLonger(num: nat, base: nat)
    requires GoodBase(base)
    ensures |Digits(num, base)| <= |Numeral(num, base)| && Numeral(num, base) != ""
  {
    NoLeadingZero(num, base);
  }

  /** What Convert leaves, with a zero put in for nothing, is the numeral read backwards. */
  lemma BackToFront(num: nat, base: nat, before: string)
    requires GoodBase(base)
    requires before == if Digits(num, base) == "" then "0" else Reversed(Digits(num, base))
    ensures Reversed(before) == Numeral(num, base) && |before| == |Numeral(num, base)|
  {
    hide Reversed;
    var text := Numeral(num, base);
    assert text == if Digits(num, base) == "" then "0" else Digits(num, base);
    hide Digits;
    hide Numeral;
    assert |before| == |text|;
    forall k | 0 <= k < |text| ensures Reversed(before)[k] == text[k] {
    }
  }

  /** litos into a buffer such as long_number[65]. */
  method Litos(numStr: array<char>, num: Word, base: nat)
    requires numStr.Length >= 65
    modifies numStr
    ensures !(2 <= base <= 26) ==> numStr[..] == old(numStr[..])
    ensures 2 <= base <= 26 ==>
              var text := Numeral(num, base); |text| <= 64 && numStr[..|text|] == text && numStr[|text|] == '\0'
  {
    if 2 <= base <= 26 {
      NumeralFits(num, base);
    }
    ToText(numStr, num, base);
  }

  /** itos into a buffer such as number[33]. */
  method Itos(numStr: array<char>, num: nat, base: nat)
    requires numStr.Length >= 33 && num < 0x1_0000_0000
    modifies numStr
    ensures !(2 <= base <= 26) ==> numStr[..] == old(numStr[..])
    ensures 2 <= base <= 26 ==>
              var text := Numeral(num, base); |text| <= 32 && numStr[..|text|] == text && numStr[|text|] == '\0'
  {
    if 2 <= base <= 26 {
      NumeralFits(num, base);
    }
    ToText(numStr, num, base);
  }
}
