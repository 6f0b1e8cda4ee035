/** fmt's digit counting and decimal output. */
module DecimalDigits {
  import opened Words
  import opened Numerals

  // ----- count_digits, table form -------------------------------------------------------------------------

  /** The position of the highest set bit, counted from 1: the word size minus its leading zeros. */
  function BitLength(n: nat): nat {
    if n == 0 then 0 else 1 + BitLength(n / 2)
  }

  /** `n | 1` */
  function OrOne(n: nat): nat {
    if n % 2 == 0 then n + 1 else n
  }

  const POWERS_OF_10_32: seq<nat> := [
    0, 10, 100, 1000, 10000, 100000, 1000000, 10000000, 100000000, 1000000000]

  const POWERS_OF_10_64: seq<nat> := [
    0, 10, 100, 1000, 10000, 100000, 1000000, 10000000, 100000000, 1000000000,
    10000000000, 100000000000, 1000000000000, 10000000000000, 100000000000000,
    1000000000000000, 10000000000000000, 100000000000000000, 1000000000000000000,
    10000000000000000000]

  predicate RowOk(bits: nat)
    requires bits > 0
  {
    var t := bits * 1233 / 4096;
    (t > 0 ==> Pow(10, t - 1) <= Pow(2, bits - 1)) && Pow(2, bits) <= Pow(10, t + 1)
  }

  lemma Pow10Values()
    ensures Pow(10, 0) == 1 && Pow(10, 1) == 10 && Pow(10, 2) == 100
    ensures Pow(10, 3) == 1000 && Pow(10, 4) == 10000 && Pow(10, 5) == 100000
    ensures Pow(10, 6) == 1000000 && Pow(10, 7) == 10000000 && Pow(10, 8) == 100000000
    ensures Pow(10, 9) == 1000000000 && Pow(10, 10) == 10000000000
    ensures Pow(10, 11) == 100000000000 && Pow(10, 12) == 1000000000000 && Pow(10, 13) == 10000000000000
    ensures Pow(10, 14) == 100000000000000 && Pow(10, 15) == 1000000000000000 && Pow(10, 16) == 10000000000000000
    ensures Pow(10, 17) == 100000000000000000 && Pow(10, 18) == 1000000000000000000
    ensures Pow(10, 19) == 10000000000000000000
    ensures Pow(10, 20) == 100000000000000000000
  {
    PowStep(10, 0);
    PowStep(10, 1);
    PowStep(10, 2);
    PowStep(10, 3);
    PowStep(10, 4);
    PowStep(10, 5);
    PowStep(10, 6);
    PowStep(10, 7);
    PowStep(10, 8);
    PowStep(10, 9);
    PowStep(10, 10);
    PowStep(10, 11);
    PowStep(10, 12);
    PowStep(10, 13);
    PowStep(10, 14);
    PowStep(10, 15);
    PowStep(10, 16);
    PowStep(10, 17);
    PowStep(10, 18);
    PowStep(10, 19);
    hide Pow;
  }

  lemma Pow2Values1()
    ensures Pow(2, 0) == 1 && Pow(2, 1) == 2 && Pow(2, 2) == 4
    ensures Pow(2, 3) == 8 && Pow(2, 4) == 16 && Pow(2, 5) == 32
    ensures Pow(2, 6) == 64 && Pow(2, 7) == 128 && Pow(2, 8) == 256
    ensures Pow(2, 9) == 512 && Pow(2, 10) == 1024 && Pow(2, 11) == 2048
    ensures Pow(2, 12) == 4096 && Pow(2, 13) == 8192 && Pow(2, 14) == 16384
    ensures Pow(2, 15) == 32768 && Pow(2, 16) == 65536
  {
    PowStep(2, 0);
    PowStep(2, 1);
    PowStep(2, 2);
    PowStep(2, 3);
    PowStep(2, 4);
    PowStep(2, 5);
    PowStep(2, 6);
    PowStep(2, 7);
    PowStep(2, 8);
    PowStep(2, 9);
    PowStep(2, 10);
    PowStep(2, 11);
    PowStep(2, 12);
    PowStep(2, 13);
    PowStep(2, 14);
    PowStep(2, 15);
    hide Pow;
  }

  lemma Pow2Values2()
    ensures Pow(2, 17) == 131072 && Pow(2, 18) == 262144 && Pow(2, 19) == 524288
    ensures Pow(2, 20) == 1048576 && Pow(2, 21) == 2097152 && Pow(2, 22) == 4194304
    ensures Pow(2, 23) == 8388608 && Pow(2, 24) == 16777216 && Pow(2, 25) == 33554432
    ensures Pow(2, 26) == 67108864 && Pow(2, 27) == 134217728 && Pow(2, 28) == 268435456
    ensures Pow(2, 29) == 536870912 && Pow(2, 30) == 1073741824 && Pow(2, 31) == 2147483648
    ensures Pow(2, 32) == 4294967296
  {
    Pow2Values1();
    PowStep(2, 16);
    PowStep(2, 17);
    PowStep(2, 18);
    PowStep(2, 19);
    PowStep(2, 20);
    PowStep(2, 21);
    PowStep(2, 22);
    PowStep(2, 23);
    PowStep(2, 24);
    PowStep(2, 25);
    PowStep(2, 26);
    PowStep(2, 27);
    PowStep(2, 28);
    PowStep(2, 29);
    PowStep(2, 30);
    PowStep(2, 31);
    hide Pow;
  }

  lemma Pow2Values3()
    ensures Pow(2, 33) == 8589934592 && Pow(2, 34) == 17179869184 && Pow(2, 35) == 34359738368
    ensures Pow(2, 36) == 68719476736 && Pow(2, 37) == 137438953472 && Pow(2, 38) == 274877906944
    ensures Pow(2, 39) == 549755813888 && Pow(2, 40) == 1099511627776 && Pow(2, 41) == 2199023255552
    ensures Pow(2, 42) == 4398046511104 && Pow(2, 43) == 8796093022208 && Pow(2, 44) == 17592186044416
    ensures Pow(2, 45) == 35184372088832 && Pow(2, 46) == 70368744177664 && Pow(2, 47) == 140737488355328
    ensures Pow(2, 48) == 281474976710656
  {
    Pow2Values2();
    PowStep(2, 32);
    PowStep(2, 33);
    PowStep(2, 34);
    PowStep(2, 35);
    PowStep(2, 36);
    PowStep(2, 37);
    PowStep(2, 38);
    PowStep(2, 39);
    PowStep(2, 40);
    PowStep(2, 41);
    PowStep(2, 42);
    PowStep(2, 43);
    PowStep(2, 44);
    PowStep(2, 45);
    PowStep(2, 46);
    PowStep(2, 47);
    hide Pow;
  }

  lemma Pow2Values4()
    ensures Pow(2, 49) == 562949953421312 && Pow(2, 50) == 1125899906842624 && Pow(2, 51) == 2251799813685248
    ensures Pow(2, 52) == 4503599627370496 && Pow(2, 53) == 9007199254740992 && Pow(2, 54) == 18014398509481984
    ensures Pow(2, 55) == 36028797018963968 && Pow(2, 56) == 72057594037927936 && Pow(2, 57) == 144115188075855872
    ensures Pow(2, 58) == 288230376151711744 && Pow(2, 59) == 576460752303423488 && Pow(2, 60) == 1152921504606846976
    ensures Pow(2, 61) == 2305843009213693952 && Pow(2, 62) == 4611686018427387904 && Pow(2, 63) == 9223372036854775808
    ensures Pow(2, 64) == 18446744073709551616
  {
    Pow2Values3();
    PowStep(2, 48);
    PowStep(2, 49);
    PowStep(2, 50);
    PowStep(2, 51);
    PowStep(2, 52);
    PowStep(2, 53);
    PowStep(2, 54);
    PowStep(2, 55);
    PowStep(2, 56);
    PowStep(2, 57);
    PowStep(2, 58);
    PowStep(2, 59);
    PowStep(2, 60);
    PowStep(2, 61);
    PowStep(2, 62);
    PowStep(2, 63);
    hide Pow;
  }

  lemma Rows1()
    ensures RowOk(1) && RowOk(2) && RowOk(3) && RowOk(4)
    ensures RowOk(5) && RowOk(6) && RowOk(7) && RowOk(8)
    ensures RowOk(9) && RowOk(10) && RowOk(11) && RowOk(12)
    ensures RowOk(13) && RowOk(14) && RowOk(15) && RowOk(16)
  {
    Pow10Values();
    Pow2Values1();
    hide Pow;
  }

  lemma Rows2()
    ensures RowOk(17) && RowOk(18) && RowOk(19) && RowOk(20)
    ensures RowOk(21) && RowOk(22) && RowOk(23) && RowOk(24)
    ensures RowOk(25) && RowOk(26) && RowOk(27) && RowOk(28)
    ensures RowOk(29) && RowOk(30) && RowOk(31) && RowOk(32)
  {
    Pow10Values();
    Pow2Values2();
    Pow2Values1();
    hide Pow;
  }

  lemma Rows3()
    ensures RowOk(33) && RowOk(34) && RowOk(35) && RowOk(36)
    ensures RowOk(37) && RowOk(38) && RowOk(39) && RowOk(40)
    ensures RowOk(41) && RowOk(42) && RowOk(43) && RowOk(44)
    ensures RowOk(45) && RowOk(46) && RowOk(47) && RowOk(48)
  {
    Pow10Values();
    Pow2Values3();
    Pow2Values2();
    hide Pow;
  }

  lemma Rows4()
    ensures RowOk(49) && RowOk(50) && RowOk(51) && RowOk(52)
    ensures RowOk(53) && RowOk(54) && RowOk(55) && RowOk(56)
    ensures RowOk(57) && RowOk(58) && RowOk(59) && RowOk(60)
    ensures RowOk(61) && RowOk(62) && RowOk(63) && RowOk(64)
  {
    Pow10Values();
    Pow2Values4();
    Pow2Values3();
    hide Pow;
  }

  lemma EveryRow(bits: nat)
    requires 1 <= bits <= 64
    ensures RowOk(bits)
  {
    Rows1();
    Rows2();
    Rows3();
    Rows4();
    hide RowOk;
  }

  lemma {:induction false} BitLengthBounds(n: nat)
    requires n > 0
    ensures BitLength(n) > 0 && Pow(2, BitLength(n) - 1) <= n < Pow(2, BitLength(n))
  {
    if n > 1 {
      BitLengthBounds(n / 2);
      PowStep(2, BitLength(n / 2));
      PowStep(2, BitLength(n / 2) - 1);
    } else {
      assert BitLength(1) == 1 + BitLength(0);
      PowStep(2, 0);
    }
  }

  lemma BitLengthFits(n: nat, bits: nat)
    requires 0 < n < Pow(2, bits)
    ensures BitLength(n) <= bits
  {
    BitLengthBounds(n);
    if BitLength(n) > bits {
      PowMonotone(2, bits, BitLength(n) - 1);
    }
  }

  /** Setting the lowest bit changes the length of 0 only. */
  lemma OrOneLength(n: nat)
    ensures BitLength(OrOne(n)) == if n == 0 then 1 else BitLength(n)
  {
    if n == 0 {
      assert BitLength(1) == 1 + BitLength(0);
    } else {
      assert OrOne(n) / 2 == n / 2;
    }
  }

  function TableCount(n: nat, powers: seq<nat>): nat
    requires BitLength(OrOne(n)) * 1233 / 4096 < |powers|
    requires powers != [] && powers[0] == 0
  {
    var t := BitLength(OrOne(n)) * 1233 / 4096;
    t - (if n < powers[t] then 1 else 0) + 1
  }

  predicate PowerTable(powers: seq<nat>) {
    powers != [] && powers[0] == 0 && forall t :: 1 <= t < |powers| ==> powers[t] == Pow(10, t)
  }

  lemma TableIsRight(n: nat, powers: seq<nat>)
    requires n < TWO64 && PowerTable(powers)
    requires BitLength(OrOne(n)) * 1233 / 4096 < |powers|
    ensures TableCount(n, powers) == |Decimal(n)|
  {
    hide BitLength, Numeral, DigitChar, RowOk;
    OrOneLength(n);
    var bits := BitLength(OrOne(n));
    if n == 0 {
      LengthIsUnique(0, 10, false, 1);
      PowStep(10, 0);
    } else {
      BitLengthBounds(n);
      Pow2Values4();
      BitLengthFits(n, 64);
      CountFromBits(n, bits);
    }
  }

  /** The approximation of log10 by 1233/4096 is off by at most one, which the comparison repairs. */
  lemma CountFromBits(n: nat, bits: nat)
    requires n > 0 && 1 <= bits <= 64 && Pow(2, bits - 1) <= n < Pow(2, bits)
    ensures var t := bits * 1233 / 4096;
      |Decimal(n)| == if t > 0 && n < Pow(10, t) then t else t + 1
  {
    EveryRow(bits);
    hide Numeral, DigitChar, Pow;
    var t := bits * 1233 / 4096;
    PowStep(10, 0);
    if t > 0 && n < Pow(10, t) {
      LengthIsUnique(n, 10, false, t);
    } else {
      LengthIsUnique(n, 10, false, t + 1);
    }
  }

  lemma TablesHoldPowers()
    ensures PowerTable(POWERS_OF_10_32) && |POWERS_OF_10_32| == 10
    ensures PowerTable(POWERS_OF_10_64) && |POWERS_OF_10_64| == 20
  {
    Pow10Values();
    hide Pow;
  }

  /** `count_digits` for 64-bit values where the compiler can count leading zeros. */
  function CountDigits64(n: nat): (count: nat)
    requires n < TWO64
    ensures count == |Decimal(n)|
  {
    TablesHoldPowers();
    IndexFits(n, 64);
    TableIsRight(n, POWERS_OF_10_64);
    TableCount(n, POWERS_OF_10_64)
  }

  function CountDigits32(n: nat): (count: nat)
    requires n < TWO32
    ensures count == |Decimal(n)|
  {
    TablesHoldPowers();
    IndexFits(n, 32);
    TableIsRight(n, POWERS_OF_10_32);
    TableCount(n, POWERS_OF_10_32)
  }

  /** The table is long enough for every value of the word. */
  lemma IndexFits(n: nat, bits: nat)
    requires bits in {32, 64} && n < if bits == 32 then TWO32 else TWO64
    ensures BitLength(OrOne(n)) * 1233 / 4096 < if bits == 32 then 10 else 20
  {
    hide BitLength, Pow;
    OrOneLength(n);
    Pow2Values4();
    Pow2Values2();
    if n > 0 {
      BitLengthFits(n, bits);
    }
  }

  /** The fallback without a leading-zero count: four digits per division. */
  method CountDigitsByDivision(value: nat) returns (count: nat)
    requires value < TWO64
    ensures count == |Decimal(value)|
  {
    var n := value;
    count := 1;
    while true
      invariant count - 1 + |Decimal(n)| == |Decimal(value)|
      decreases n
    {
      hide Numeral, Decimal;
      SmallLengths(n);
      if n < 10 { return; }
      if n < 100 { return count + 1; }
      if n < 1000 { return count + 2; }
      if n < 10000 { return count + 3; }
      FourDigits(n);
      n := n / 10000;
      count := count + 4;
    }
  }

  lemma SmallLengths(n: nat)
    ensures n < 10 ==> |Decimal(n)| == 1
    ensures 10 <= n < 100 ==> |Decimal(n)| == 2
    ensures 100 <= n < 1000 ==> |Decimal(n)| == 3
    ensures 1000 <= n < 10000 ==> |Decimal(n)| == 4
  {
    Pow10Values();
    hide Pow, Numeral;
    if n < 10 {
      LengthIsUnique(n, 10, false, 1);
    } else if n < 100 {
      LengthIsUnique(n, 10, false, 2);
    } else if n < 1000 {
      LengthIsUnique(n, 10, false, 3);
    } else if n < 10000 {
      LengthIsUnique(n, 10, false, 4);
    }
  }

  lemma OneDigitLess(n: nat)
    requires n >= 10
    ensures Decimal(n) == Decimal(n / 10) + [DigitChar(n % 10, false)]
  {
    NumeralUnfolds(n, 10, false);
  }

  lemma FourDigits(n: nat)
    requires n >= 10000
    ensures |Decimal(n)| == |Decimal(n / 10000)| + 4
  {
    hide Decimal, DigitChar;
    OneDigitLess(n);
    OneDigitLess(n / 10);
    OneDigitLess(n / 10 / 10);
    OneDigitLess(n / 10 / 10 / 10);
    assert n / 10 / 10 / 10 / 10 == n / 10000;
  }

  // ----- two digits at a time -----------------------------------------------------------------------------

  const D0 := "00010203040506070809"
  const D1 := "10111213141516171819"
  const D2 := "20212223242526272829"
  const D3 := "30313233343536373839"
  const D4 := "40414243444546474849"
  const D5 := "50515253545556575859"
  const D6 := "60616263646566676869"
  const D7 := "70717273747576777879"
  const D8 := "80818283848586878889"
  const D9 := "90919293949596979899"
  const LOW: string := D0 + D1 + D2 + D3 + D4
  const HIGH: string := D5 + D6 + D7 + D8 + D9
  const DIGITS: string := LOW + HIGH

  predicate RowOfPairs(s: string, tens: nat)
    requires tens < 10
  {
    |s| == 20 && forall i :: 0 <= i < 10 ==> s[2 * i] == DigitChar(tens, false) && s[2 * i + 1] == DigitChar(i, false)
  }

  lemma PairsD0()
    ensures RowOfPairs(D0, 0)
  {
  }

  lemma PairsD1()
    ensures RowOfPairs(D1, 1)
  {
  }

  lemma PairsD2()
    ensures RowOfPairs(D2, 2)
  {
  }

  lemma PairsD3()
    ensures RowOfPairs(D3, 3)
  {
  }

  lemma PairsD4()
    ensures RowOfPairs(D4, 4)
  {
  }

  lemma PairsD5()
    ensures RowOfPairs(D5, 5)
  {
  }

  lemma PairsD6()
    ensures RowOfPairs(D6, 6)
  {
  }

  lemma PairsD7()
    ensures RowOfPairs(D7, 7)
  {
  }

  lemma PairsD8()
    ensures RowOfPairs(D8, 8)
  {
  }

  lemma PairsD9()
    ensures RowOfPairs(D9, 9)
  {
  }

  lemma RowSizes(a: string, b: string, c: string, d: string, e: string, tens: nat)
    requires tens <= 5
    requires RowOfPairs(a, tens) && RowOfPairs(b, tens + 1) && RowOfPairs(c, tens + 2)
    requires RowOfPairs(d, tens + 3) && RowOfPairs(e, tens + 4)
    ensures |a| == |b| == |c| == |d| == |e| == 20
  {
  }

  lemma CutRows(a: string, b: string, c: string, d: string, e: string)
    requires |a| == |b| == |c| == |d| == |e| == 20
    ensures var s := a + b + c + d + e;
            |s| == 100 && s[0..20] == a && s[20..40] == b && s[40..60] == c && s[60..80] == d && s[80..100] == e
  {
  }

  lemma InRow(s: string, row: string, at: nat, tens: nat, i: nat)
    requires tens < 10 && i < 10 && RowOfPairs(row, tens) && at + 20 <= |s| && s[at..at + 20] == row
    ensures s[at + 2 * i] == DigitChar(tens, false) && s[at + 2 * i + 1] == DigitChar(i, false)
  {
    hide DigitChar;
    assert s[at + 2 * i] == row[2 * i] && s[at + 2 * i + 1] == row[2 * i + 1];
  }

  /** Five rows of ten pairs in a row. */
  lemma FiveRows(a: string, b: string, c: string, d: string, e: string, tens: nat, v: nat)
    requires v < 50 && tens <= 5
    requires RowOfPairs(a, tens) && RowOfPairs(b, tens + 1) && RowOfPairs(c, tens + 2)
    requires RowOfPairs(d, tens + 3) && RowOfPairs(e, tens + 4)
    ensures var s := a + b + c + d + e;
      |s| == 100 && s[2 * v] == DigitChar(tens + v / 10, false) && s[2 * v + 1] == DigitChar(v % 10, false)
  {
    hide DigitChar, RowOfPairs;
    RowSizes(a, b, c, d, e, tens);
    var s := a + b + c + d + e;
    CutRows(a, b, c, d, e);
    if v < 10 {
      InRow(s, a, 0, tens, v);
    } else if v < 20 {
      InRow(s, b, 20, tens + 1, v - 10);
    } else if v < 30 {
      InRow(s, c, 40, tens + 2, v - 20);
    } else if v < 40 {
      InRow(s, d, 60, tens + 3, v - 30);
    } else {
      InRow(s, e, 80, tens + 4, v - 40);
    }
  }

  /** The table of two-digit numerals. */
  lemma DigitsTable(v: nat)
    requires v < 100
    ensures |DIGITS| == 200
    ensures DIGITS[2 * v] == DigitChar(v / 10, false) && DIGITS[2 * v + 1] == DigitChar(v % 10, false)
  {
    PairsD0();
    PairsD1();
    PairsD2();
    PairsD3();
    PairsD4();
    PairsD5();
    PairsD6();
    PairsD7();
    PairsD8();
    PairsD9();
    hide DigitChar, RowOfPairs, D0, D1, D2, D3, D4, D5, D6, D7, D8, D9;
    FiveRows(D0, D1, D2, D3, D4, 0, if v < 50 then v else 0);
    FiveRows(D5, D6, D7, D8, D9, 5, if v < 50 then 0 else v - 50);
    hide LOW, HIGH;
    TwoHalves(LOW, HIGH, v);
  }

  lemma TwoHalves(low: string, high: string, v: nat)
    requires |low| == |high| == 100 && v < 100
    requires v < 50 ==> low[2 * v] == DigitChar(v / 10, false) && low[2 * v + 1] == DigitChar(v % 10, false)
    requires v >= 50 ==>
               high[2 * (v - 50)] == DigitChar(5 + (v - 50) / 10, false) &&
               high[2 * (v - 50) + 1] == DigitChar((v - 50) % 10, false)
    ensures (low + high)[2 * v] == DigitChar(v / 10, false) && (low + high)[2 * v + 1] == DigitChar(v % 10, false)
  {
    hide DigitChar;
    if v >= 50 {
      assert 5 + (v - 50) / 10 == v / 10 && (v - 50) % 10 == v % 10;
    }
  }

  lemma Mods(n: nat)
    ensures n / 10 / 10 == n / 100 && n / 10 % 10 == n % 100 / 10 && n % 10 == n % 100 % 10
  {
  }

  /** The two characters the table holds for a pair of digits. */
  function PairText(v: nat): (s: string)
    requires v < 100
    ensures |DIGITS| == 200 && s == [DIGITS[v * 2], DIGITS[v * 2 + 1]]
  {
    DigitsTable(v);
    [DIGITS[v * 2], DIGITS[v * 2 + 1]]
  }

  /** The last two digits of a numeral come from the table. */
  lemma TwoDigits(n: nat)
    requires n >= 100
    ensures Decimal(n) == Decimal(n / 100) + PairText(n % 100)
  {
    hide *;
    DigitsTable(n % 100);
    Mods(n);
    OneDigitLess(n);
    OneDigitLess(n / 10);
    assert n % 100 * 2 == 2 * (n % 100);
  }

  lemma LastDigits(n: nat)
    requires n < 100
    ensures n < 10 ==> Decimal(n) == ['0' + n as char]
    ensures n >= 10 ==> Decimal(n) == PairText(n)
  {
    hide *;
    OneDigit(n);
    if n >= 10 {
      DigitsTable(n);
      OneDigit(n / 10);
      OneDigitLess(n);
    }
  }

  lemma OneDigit(n: nat)
    requires n < 100
    ensures n < 10 ==> Decimal(n) == [DigitChar(n, false)] && DigitChar(n, false) == '0' + n as char
  {
    NumeralUnfolds(n, 10, false);
    hide Numeral;
  }
}
