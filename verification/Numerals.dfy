/** Numbers as text: what put_ulong of utils/misc.c writes for a number, and what hextoi reads.
  */
module Numerals {
  import opened Powers

  const ULONG_MAX_32: nat := 0xFFFF_FFFF
  const ULONG_MAX_64: nat := 0xFFFF_FFFF_FFFF_FFFF
  const UINT_RANGE: nat := 0x1_0000_0000

  predicate IsBase(base: nat) { base == 8 || base == 10 || base == 16 }

  function Digit(d: nat, upper: bool): char
    requires d < 16
  {
    if d < 10 then '0' + d as char else (if upper then 'A' else 'a') + (d - 10) as char
  }

  // The canonical numeral: no leading zero, except for 0 itself.
  function Numeral(v: nat, base: nat, upper: bool): seq<char>
    requires 2 <= base <= 16
  {
    if v < base then [Digit(v, upper)] else Numeral(v / base, base, upper) + [Digit(v % base, upper)]
  }

  // What the digit characters stand for, whatever made them.
  function DigitOf(c: char): int {
    if '0' <= c <= '9' then c as int - '0' as int
    else if 'A' <= c <= 'F' then c as int - 'A' as int + 10
    else if 'a' <= c <= 'f' then c as int - 'a' as int + 10
    else -1
  }

  lemma DigitOfTells(c: char)
    ensures DigitOf(c) >= 0 <==> c in "0123456789abcdefABCDEF"
    ensures DigitOf(c) < 16
  {
  }

  // The number a text of digits stands for in a base.
  function ReadIn(base: nat, s: seq<char>): int {
    if s == [] then 0 else base * ReadIn(base, s[..|s| - 1]) + DigitOf(s[|s| - 1])
  }

  predicate RightCase(c: char, upper: bool) {
    '0' <= c <= '9' || if upper then 'A' <= c <= 'F' else 'a' <= c <= 'f'
  }

  lemma DigitShows(d: nat, upper: bool)
    requires d < 16
    ensures DigitOf(Digit(d, upper)) == d && RightCase(Digit(d, upper), upper)
    ensures Digit(d, upper) == (if upper then "0123456789ABCDEF" else "0123456789abcdef")[d]
  {
  }

  lemma ReadInMore(base: nat, s: seq<char>, c: char)
    ensures ReadIn(base, s + [c]) == base * ReadIn(base, s) + DigitOf(c)
    ensures ReadIn(base, []) == 0
  {
    assert (s + [c])[..|s|] == s;
  }

  lemma DivMod(v: nat, base: nat)
    requires base >= 2
    ensures base * (v / base) + v % base == v && v % base < base
    ensures v >= base ==> 0 < v / base < v
  {
    if v >= base {
      WithinQuotient(1, base, v);
      WithinQuotient(v, base, v);
      MulMono(v, 2, base);
    }
  }

  // The numeral of a number stands for it in its base.
  lemma {:induction false} NumeralReads(v: nat, base: nat, upper: bool)
    requires 2 <= base <= 16
    ensures ReadIn(base, Numeral(v, base, upper)) == v
  {
    hide ReadIn, Numeral, DigitOf, Digit;
    DivMod(v, base);
    DigitShows(v % base, upper);
    NumeralStep(v, base, upper);
    ReadInMore(base, if v < base then [] else Numeral(v / base, base, upper), Digit(v % base, upper));
    if v < base {
      SmallMod(v, base);
    } else {
      NumeralReads(v / base, base, upper);
    }
  }

  lemma SmallMod(v: nat, base: nat)
    requires v < base
    ensures v % base == v
  {
  }

  // It has no leading zero, its digits are digits of the base, and its letters have the right case.
  lemma {:induction false} NumeralShows(v: nat, base: nat, upper: bool)
    requires 2 <= base <= 16
    ensures var num := Numeral(v, base, upper);
            && num != [] && (num[0] == '0' ==> v == 0 && |num| == 1)
            && forall i :: 0 <= i < |num| ==> RightCase(num[i], upper) && 0 <= DigitOf(num[i]) < base
  {
    DivMod(v, base);
    DigitShows(v % base, upper);
    NumeralStep(v, base, upper);
    hide Numeral, Digit, RightCase;
    if v < base {
      SmallMod(v, base);
      assert DigitOf('0') == 0;
    } else {
      NumeralShows(v / base, base, upper);
    }
    hide DigitOf;
  }

  // The last n digits.
  function LastDigits(v: nat, base: nat, upper: bool, n: nat): seq<char>
    requires 2 <= base <= 16
  {
    if n == 0 then [] else LastDigits(v / base, base, upper, n - 1) + [Digit(v % base, upper)]
  }

  /// Arithmetic of digits

  lemma MulMono(c: nat, a: nat, b: nat)
    requires a <= b
    ensures c * a <= c * b
  {
  }

  // A factor is within the quotient exactly when the product is within the dividend.
  lemma WithinQuotient(x: nat, base: nat, max: nat)
    requires base > 0
    ensures x <= max / base <==> base * x <= max
  {
    var m := max / base;
    assert max == base * m + max % base;
    if x <= m {
      MulMono(base, x, m);
    } else {
      MulMono(base, m + 1, x);
      assert base * (m + 1) == base * m + base;
    }
  }

  // Dividing twice is dividing by the product d.
  lemma DivDiv(v: nat, a: nat, b: nat, d: nat)
    requires a > 0 && b > 0 && d > 0 && d == a * b
    ensures v / a / b == v / d
  {
    InBoth(v, a, b, d, v / a / b);
    InBoth(v, a, b, d, v / d);
  }

  lemma InBoth(v: nat, a: nat, b: nat, d: nat, x: nat)
    requires a > 0 && b > 0 && d > 0 && d == a * b
    ensures x <= v / a / b <==> x <= v / d
  {
    WithinQuotient(x, b, v / a);
    WithinQuotient(b * x, a, v);
    WithinQuotient(x, d, v);
    Regroup(a, b, x);
  }

  lemma Regroup(a: nat, b: nat, x: nat)
    ensures a * (b * x) == a * b * x
  {
  }

  lemma Quotient(v: nat, d: nat, q: nat, r: nat)
    requires v == d * q + r && r < d
    ensures v / d == q && v % d == r
  {
    WithinQuotient(q, d, v);
    WithinQuotient(q + 1, d, v);
    assert d * (q + 1) == d * q + d;
  }

  // The first of n + 1 digits comes from the power it stands for.
  lemma {:induction false} FirstDigit(v: nat, base: nat, upper: bool, n: nat)
    requires 2 <= base <= 16
    ensures LastDigits(v, base, upper, n + 1)
         == [Digit(v / Pow(base, n) % base, upper)] + LastDigits(v, base, upper, n)
    decreases n
  {
    hide Digit, LastDigits, Pow;
    PowOne(base);
    LastStep(v, base, upper, n + 1);
    if n == 0 {
      LastNone(v / base, base, upper);
      LastNone(v, base, upper);
    } else {
      FirstDigit(v / base, base, upper, n - 1);
      LastStep(v, base, upper, n);
      PowStep(base, n - 1);
      DivDiv(v, base, Pow(base, n - 1), Pow(base, n));
    }
  }

  // As many digits as the number has are its numeral.
  lemma {:induction false} AllDigits(v: nat, base: nat, upper: bool, n: nat)
    requires 2 <= base <= 16 && n > 0
    requires v < Pow(base, n) && (n > 1 ==> Pow(base, n - 1) <= v)
    ensures LastDigits(v, base, upper, n) == Numeral(v, base, upper)
    ensures |Numeral(v, base, upper)| == n
  {
    hide Pow, Numeral, LastDigits;
    PowOne(base);
    LastStep(v, base, upper, n);
    NumeralStep(v, base, upper);
    if n == 1 {
      LastNone(v / base, base, upper);
    } else {
      PowBounds(v, base, n);
      AllDigits(v / base, base, upper, n - 1);
    }
  }

  lemma LastStep(v: nat, base: nat, upper: bool, n: nat)
    requires 2 <= base <= 16 && n > 0
    ensures LastDigits(v, base, upper, n) == LastDigits(v / base, base, upper, n - 1) + [Digit(v % base, upper)]
  {
  }

  lemma LastNone(v: nat, base: nat, upper: bool)
    requires 2 <= base <= 16
    ensures LastDigits(v, base, upper, 0) == []
  {
  }

  lemma NumeralStep(v: nat, base: nat, upper: bool)
    requires 2 <= base <= 16
    ensures Numeral(v, base, upper)
         == (if v < base then [] else Numeral(v / base, base, upper)) + [Digit(v % base, upper)]
  {
  }

  lemma PowOne(base: nat)
    ensures Pow(base, 0) == 1 && Pow(base, 1) == base
  {
  }

  lemma PowStep(base: nat, n: nat)
    requires base >= 2
    ensures Pow(base, n + 1) == base * Pow(base, n) && Pow(base, n + 1) >= base
  {
    assert base * Pow(base, n) >= base * 1;
  }

  lemma PowBounds(v: nat, base: nat, n: nat)
    requires base >= 2 && n > 1 && Pow(base, n - 1) <= v < Pow(base, n)
    ensures v >= base && v / base < Pow(base, n - 1) && Pow(base, n - 2) <= v / base
  {
    PowStep(base, n - 2);
    WithinQuotient(Pow(base, n - 1), base, v);
    WithinQuotient(Pow(base, n - 2), base, v);
  }

  lemma {:induction false} PowMonotone(base: nat, a: nat, b: nat)
    requires base >= 2 && a < b
    ensures Pow(base, a) < Pow(base, b)
  {
    if a + 1 < b {
      PowMonotone(base, a, b - 1);
    }
    MulMono(Pow(base, b - 1), 2, base);
  }

  /// The scan for the leading digit

  // No power of the base is exactly the bound the scan compares with.
  ghost predicate ScanSafe(base: nat, max: nat)
    requires base > 0
  {
    forall k: nat :: Pow(base, k) != max / base
  }

  // x ends up as the largest power of the base that is not above value (or 1); every product
  // formed on the way is within the type.
  method LeadingPower(value: nat, base: nat, max: nat) returns (x: nat, len: nat)
    requires 2 <= base && value <= max && ScanSafe(base, max)
    ensures len > 0 && x == Pow(base, len - 1)
    ensures value < Pow(base, len) && (len > 1 ==> x <= value)
  {
    len, x := 1, 1;
    while x < max / base
      invariant len > 0 && x == Pow(base, len - 1) && (len > 1 ==> x <= value)
      decreases max / base - x
    {
      WithinQuotient(x, base, max);
      assert x * base <= max;
      var x2 := x * base;
      if x2 > value {
        return;
      }
      PowMonotone(base, len - 1, len);
      len, x := len + 1, x2;
    }
    WithinQuotient(x, base, max);
  }

  // The scan's guard turns false only where the next power is out of reach anyway exactly when
  // no power meets the bound.
  lemma ScanSafeMeans(base: nat, max: nat)
    requires base >= 2
    ensures ScanSafe(base, max)
            <==> forall k: nat :: Pow(base, k) >= max / base ==> base * Pow(base, k) > max
  {
    var m := max / base;
    forall k: nat ensures base * Pow(base, k) > max <==> Pow(base, k) > m {
      WithinQuotient(Pow(base, k), base, max);
    }
    if ScanSafe(base, max) {
      forall k: nat | Pow(base, k) >= m ensures base * Pow(base, k) > max {
        assert Pow(base, k) != m;
      }
    } else {
      var k: nat :| Pow(base, k) == m;
      assert !(base * Pow(base, k) > max);
    }
  }

  lemma BetweenPowers(base: nat, k: nat, m: nat)
    requires base >= 2 && Pow(base, k) < m < Pow(base, k + 1)
    ensures forall n: nat :: Pow(base, n) != m
  {
    forall n: nat ensures Pow(base, n) != m {
      if n < k {
        PowMonotone(base, n, k);
      } else if n > k + 1 {
        PowMonotone(base, k + 1, n);
      }
    }
  }

  lemma {:induction false} PowAdd(base: nat, a: nat, b: nat)
    ensures Pow(base, a + b) == Pow(base, a) * Pow(base, b)
  {
    if a > 0 {
      PowAdd(base, a - 1, b);
      Regroup(base, Pow(base, a - 1), Pow(base, b));
    }
  }

  lemma SmallPowers()
    ensures Pow(8, 5) == 32768 && Pow(10, 4) == 10000 && Pow(10, 5) == 100000 && Pow(16, 3) == 4096 && Pow(16, 4) == 65536
  {
  }

  lemma LargePowers()
    ensures Pow(8, 9) == 134217728 && Pow(8, 10) == 1073741824
    ensures Pow(10, 8) == 100000000 && Pow(10, 9) == 1000000000 && Pow(10, 10) == 10000000000
    ensures Pow(16, 6) == 16777216 && Pow(16, 7) == 268435456 && Pow(16, 8) == 4294967296
  {
    SmallPowers();
    PowAdd(8, 5, 5);
    PowStep(8, 9);
    PowAdd(10, 4, 4);
    PowAdd(10, 4, 5);
    PowAdd(10, 5, 5);
    PowAdd(16, 3, 3);
    PowAdd(16, 3, 4);
    PowAdd(16, 4, 4);
    hide Pow;
  }

  lemma ScanSafe32(base: nat)
    requires IsBase(base)
    ensures ScanSafe(base, ULONG_MAX_32)
  {
    LargePowers();
    hide Pow;
    BetweenPowers(base, if base == 8 then 9 else if base == 10 then 8 else 6, ULONG_MAX_32 / base);
  }

  lemma ScanSafe64(base: nat)
    requires IsBase(base)
    ensures ScanSafe(base, ULONG_MAX_64)
  {
    LargePowers();
    PowAdd(8, 10, 10);
    PowStep(8, 20);
    PowAdd(10, 9, 9);
    PowAdd(10, 9, 10);
    PowAdd(16, 7, 7);
    PowAdd(16, 7, 8);
    hide Pow;
    BetweenPowers(base, if base == 8 then 20 else if base == 10 then 18 else 14, ULONG_MAX_64 / base);
  }

  // For the bases and the word sizes the program uses, the scan is right.
  lemma ScanSafeHere(base: nat, max: nat)
    requires IsBase(base) && (max == ULONG_MAX_32 || max == ULONG_MAX_64)
    ensures ScanSafe(base, max)
  {
    hide ScanSafe;
    if max == ULONG_MAX_32 {
      ScanSafe32(base);
    } else {
      ScanSafe64(base);
    }
  }
}
