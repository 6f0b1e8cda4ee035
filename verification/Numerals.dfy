/** Positional numerals: what a written number means. */
module Numerals {

  function DigitChar(d: nat, upper: bool): (c: char)
    requires d < 16
    ensures d < 10 ==> '0' <= c <= '9'
  {
    if d < 10 then '0' + d as char
    else if upper then 'A' + (d - 10) as char
    else 'a' + (d - 10) as char
  }

  function DigitValue(c: char): (d: int)
    ensures d < 16
  {
    if '0' <= c <= '9' then c as int - '0' as int
    else if 'a' <= c <= 'f' then c as int - 'a' as int + 10
    else if 'A' <= c <= 'F' then c as int - 'A' as int + 10
    else -1
  }

  /** The numeral of `n`, most significant digit first and without leading zeros. */
  function Numeral(n: nat, base: nat, upper: bool): (s: string)
    requires 2 <= base <= 16
    ensures |s| > 0
  {
    if n < base then [DigitChar(n, upper)]
    else Numeral(n / base, base, upper) + [DigitChar(n % base, upper)]
  }

  function Decimal(n: nat): string {
    Numeral(n, 10, false)
  }

  /** The digits are the usual characters, the letters all small or all capital. */
  predicate Spelled(s: string, upper: bool) {
    forall k :: 0 <= k < |s| ==> '0' <= s[k] <= '9' || (if upper then 'A' <= s[k] <= 'F' else 'a' <= s[k] <= 'f')
  }

  lemma {:induction false} NumeralIsSpelled(n: nat, base: nat, upper: bool)
    requires 2 <= base <= 16
    ensures Spelled(Numeral(n, base, upper), upper)
  {
    hide Numeral;
    NumeralUnfolds(n, base, upper);
    if n >= base {
      DivPositive(n, base);
      var q, r := n / base, n % base;
      NumeralIsSpelled(q, base, upper);
    }
  }

  /** The sixteen digits. */
  lemma DigitsSpelled()
    ensures forall d: nat :: d < 16 ==> DigitChar(d, false) == "0123456789abcdef"[d]
    ensures forall d: nat :: d < 16 ==> DigitChar(d, true) == "0123456789ABCDEF"[d]
  {
  }

  /** Horner's rule: the number a digit string stands for. */
  function Value(s: string, base: nat): int {
    if s == [] then 0 else Value(s[..|s| - 1], base) * base + DigitValue(s[|s| - 1])
  }

  lemma {:induction false} NumeralMeans(n: nat, base: nat, upper: bool)
    requires 2 <= base <= 16
    ensures Value(Numeral(n, base, upper), base) == n
  {
    hide *;
    NumeralUnfolds(n, base, upper);
    if n >= base {
      DivPositive(n, base);
      DivMod(n, base);
      var q, r := n / base, n % base;
      NumeralMeans(q, base, upper);
      Horner(Numeral(q, base, upper), DigitChar(r, upper), base);
      DigitMeans(r, upper);
    } else {
      assert [] + [DigitChar(n, upper)] == [DigitChar(n, upper)];
      Horner([], DigitChar(n, upper), base);
      DigitMeans(n, upper);
    }
  }

  lemma Horner(s: string, c: char, base: nat)
    ensures Value([], base) == 0 && Value(s + [c], base) == Value(s, base) * base + DigitValue(c)
  {
    assert (s + [c])[..|s|] == s;
  }

  lemma DigitMeans(d: nat, upper: bool)
    requires d < 16
    ensures DigitValue(DigitChar(d, upper)) == d
    ensures d > 0 ==> DigitChar(d, upper) != '0'
  {
  }

  lemma DivMod(n: nat, base: nat)
    requires base > 0
    ensures n / base * base + n % base == n
  {
  }

  ghost predicate AllDigits(s: string, base: nat) {
    forall k :: 0 <= k < |s| ==> 0 <= DigitValue(s[k]) < base
  }

  lemma {:induction false} NumeralDigits(n: nat, base: nat, upper: bool)
    requires 2 <= base <= 16
    ensures AllDigits(Numeral(n, base, upper), base)
    ensures n > 0 ==> Numeral(n, base, upper)[0] != '0'
  {
    hide Numeral, DigitChar, DigitValue;
    NumeralUnfolds(n, base, upper);
    if n >= base {
      DivPositive(n, base);
      NumeralDigits(n / base, base, upper);
      DigitMeans(n % base, upper);
    } else {
      DigitMeans(n, upper);
    }
  }

  lemma NumeralUnfolds(n: nat, base: nat, upper: bool)
    requires 2 <= base <= 16
    ensures n < base ==> Numeral(n, base, upper) == [DigitChar(n, upper)]
    ensures n >= base ==>
              Numeral(n, base, upper) == Numeral(n / base, base, upper) + [DigitChar(n % base, upper)]
  {
  }

  lemma DivPositive(n: nat, base: nat)
    requires 0 < base <= n
    ensures 0 < n / base && (base > 1 ==> n / base < n)
  {
    DivMod(n, base);
    Smaller(n, base, n / base, n % base);
  }

  lemma Smaller(n: nat, base: nat, q: int, r: int)
    requires n == q * base + r && 0 <= r < base <= n
    ensures 0 < q && (base > 1 ==> q < n)
  {
    assert q <= 0 ==> q * base <= 0;
    assert q > 0 && base > 1 ==> q * base >= q * 2;
  }

  function Pow(base: nat, e: nat): nat {
    if e == 0 then 1 else base * Pow(base, e - 1)
  }

  /** A numeral has exactly as many digits as its value calls for. */
  lemma {:induction false} NumeralLength(n: nat, base: nat, upper: bool)
    requires 2 <= base <= 16
    ensures n < Pow(base, |Numeral(n, base, upper)|)
    ensures n > 0 ==> Pow(base, |Numeral(n, base, upper)| - 1) <= n
  {
    hide *;
    NumeralUnfolds(n, base, upper);
    if n >= base {
      DivPositive(n, base);
      var q := n / base;
      NumeralLength(q, base, upper);
      PowAround(n, base, |Numeral(q, base, upper)|);
    } else {
      PowStep(base, 0);
    }
  }

  lemma PowAround(n: nat, base: nat, len: nat)
    requires base > 0 && len > 0 && Pow(base, len - 1) <= n / base < Pow(base, len)
    ensures Pow(base, len) <= n < Pow(base, len + 1)
  {
    PowStep(base, len);
    PowStep(base, len - 1);
    hide Pow;
    DivBound(n, base, Pow(base, len));
    DivBelow(n, base, Pow(base, len - 1));
  }

  lemma PowStep(base: nat, e: nat)
    ensures Pow(base, e + 1) == base * Pow(base, e) && Pow(base, 0) == 1
  {
  }

  lemma DivBound(n: nat, base: nat, p: nat)
    requires base > 0 && n / base < p
    ensures n < base * p
  {
    assert n / base + 1 <= p;
    assert base * (n / base + 1) <= base * p;
  }

  lemma DivBelow(n: nat, base: nat, p: nat)
    requires base > 0 && p <= n / base
    ensures base * p <= n
  {
    assert base * p <= base * (n / base);
  }

  lemma {:induction false} PowMonotone(base: nat, a: nat, b: nat)
    requires base > 0 && a <= b
    ensures Pow(base, a) <= Pow(base, b)
    decreases b - a
  {
    if a < b {
      PowMonotone(base, a + 1, b);
      PowPositive(base, a);
      assert base * Pow(base, a) >= Pow(base, a);
    }
  }

  lemma {:induction false} PowPositive(base: nat, e: nat)
    requires base > 0
    ensures Pow(base, e) > 0
  {
    if e > 0 {
      PowPositive(base, e - 1);
    }
  }

  /** The length is the only number of digits whose range contains the value. */
  lemma LengthIsUnique(n: nat, base: nat, upper: bool, len: nat)
    requires 2 <= base <= 16 && len > 0
    requires n < Pow(base, len) && (len > 1 ==> Pow(base, len - 1) <= n)
    ensures |Numeral(n, base, upper)| == len
  {
    var k := |Numeral(n, base, upper)|;
    NumeralLength(n, base, upper);
    if n == 0 {
      if len > 1 {
        PowPositive(base, len - 1);
      }
    } else if k < len {
      PowMonotone(base, k, len - 1);
    } else if k > len {
      PowMonotone(base, len, k - 1);
    }
  }
}
