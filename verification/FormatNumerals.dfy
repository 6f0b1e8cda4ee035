/** Which numbers fmt's parser reads: accumulation in an unsigned word with a test that does not notice
    every wrap. */
module FormatNumerals {
  import opened Words
  import opened Numerals
  import opened FormatParser

  lemma {:induction false} AccumulateDigits(ds: string, rest: string)
    requires AllDigits(ds, 10) && Value(ds, 10) <= UINT_MAX
    ensures 0 <= Value(ds, 10) && Accumulate(0, ds + rest) == Accumulate(Value(ds, 10), rest)
  {
    hide *;
    Horner("", '0', 10);
    if ds == "" {
      assert ds + rest == rest;
    } else {
      var front, last := ds[..|ds| - 1], ds[|ds| - 1];
      assert front + [last] == ds;
      AllDigitsFront(ds);
      Horner(front, last, 10);
      AccumulateDigits(front, [last] + rest);
      AccumulateOne(Value(front, 10), last, rest);
      assert front + ([last] + rest) == ds + rest;
    }
  }

  lemma AccumulateOne(value: nat, c: char, rest: string)
    requires IsDigit(c) && value * 10 + DigitValue(c) <= UINT_MAX
    ensures DigitValue(c) >= 0
    ensures Accumulate(value, [c] + rest) == Accumulate(value * 10 + DigitValue(c), rest)
  {
    assert ([c] + rest)[1..] == rest;
  }

  lemma {:induction false} AllDigitsFront(ds: string)
    requires ds != "" && AllDigits(ds, 10)
    ensures AllDigits(ds[..|ds| - 1], 10) && IsDigit(ds[|ds| - 1])
    ensures 0 <= Value(ds[..|ds| - 1], 10) <= Value(ds, 10)
  {
    var front := ds[..|ds| - 1];
    assert forall k :: 0 <= k < |front| ==> front[k] == ds[k];
    if front != "" {
      AllDigitsFront(front);
    }
  }

  /** The value of the first `k` digits as the unsigned word sees it. */
  function Seen(ds: string, k: nat): int
    requires k <= |ds|
  {
    Value(ds[..k], 10) % TWO32
  }

  /** From the `k`-th digit on, no digit makes the word smaller: the parser notices no wrap. */
  ghost predicate RisingFrom(ds: string, k: nat)
    requires k <= |ds|
    decreases |ds| - k
  {
    k < |ds| ==> Seen(ds, k) <= Seen(ds, k + 1) && RisingFrom(ds, k + 1)
  }

  ghost predicate Rising(ds: string) {
    forall k :: 0 <= k < |ds| ==> Seen(ds, k) <= Seen(ds, k + 1)
  }

  lemma {:induction false} RisingThroughout(ds: string, k: nat)
    requires k <= |ds|
    ensures RisingFrom(ds, k) <==> forall i :: k <= i < |ds| ==> Seen(ds, i) <= Seen(ds, i + 1)
    decreases |ds| - k
  {
    hide Seen;
    if k < |ds| {
      RisingThroughout(ds, k + 1);
    }
  }

  /** One digit more, in the word. */
  lemma SeenStep(ds: string, k: nat)
    requires k < |ds| && AllDigits(ds, 10)
    ensures IsDigit(ds[k]) && DigitValue(ds[k]) >= 0
    ensures Seen(ds, k + 1) == (Seen(ds, k) * 10 + DigitValue(ds[k])) % TWO32
  {
    var v, d := Value(ds[..k], 10), DigitValue(ds[k]);
    assert ds[..k] + [ds[k]] == ds[..k + 1];
    assert 0 <= d < 10;
    Horner(ds[..k], ds[k], 10);
    hide Value, DigitValue;
    ModStep(v, d);
  }

  lemma ModStep(v: int, d: int)
    ensures (v * 10 + d) % TWO32 == (v % TWO32 * 10 + d) % TWO32
  {
    var q := v / TWO32;
    assert v * 10 + d == v % TWO32 * 10 + d + 10 * q * TWO32;
    ModShift(v % TWO32 * 10 + d, 10 * q);
  }

  lemma ModShift(x: int, q: int)
    ensures (x + q * TWO32) % TWO32 == x % TWO32
  {
  }

  /** Accumulation from the `k`-th digit on: the value in the word, or the largest word as soon as a wrap
      is noticed. */
  lemma {:induction false} AccumulateSeen(ds: string, k: nat, rest: string)
    requires k <= |ds| && AllDigits(ds, 10) && !IsDigit(First(rest))
    ensures Seen(ds, k) >= 0
    ensures RisingFrom(ds, k) ==> Accumulate(Seen(ds, k), ds[k..] + rest) == At(Seen(ds, |ds|), rest)
    ensures !RisingFrom(ds, k) ==> Accumulate(Seen(ds, k), ds[k..] + rest).value == UINT_MAX
    decreases |ds| - k
  {
    var s := ds[k..] + rest;
    if k == |ds| {
      assert s == rest;
    } else {
      SeenStep(ds, k);
      assert s[0] == ds[k] && s[1..] == ds[k + 1..] + rest;
      hide Seen, AllDigits;
      AccumulateSeen(ds, k + 1, rest);
    }
  }

  /** What a numeral is read as, whatever its size: its value modulo 2^32 if no digit made the word smaller
      on the way and the result is an int, and an error otherwise. */
  lemma ParseIntExactly(ds: string, rest: string)
    requires ds != "" && AllDigits(ds, 10) && !IsDigit(First(rest))
    ensures Value(ds, 10) >= 0
    ensures ParseInt(ds + rest) ==
            if Rising(ds) && Value(ds, 10) % TWO32 <= INT_MAX then Done(At(Value(ds, 10) % TWO32, rest))
            else Fail("number is too big")
  {
    hide Accumulate, AllDigits, RisingFrom, First, IsDigit;
    ValueNonnegative(ds);
    AccumulateSeen(ds, 0, rest);
    RisingThroughout(ds, 0);
    Horner("", '0', 10);
    assert ds[..0] == "" && ds[0..] == ds && ds[..|ds|] == ds;
    assert Seen(ds, 0) == 0;
    hide Value;
  }

  lemma {:induction false} ValueNonnegative(ds: string)
    requires AllDigits(ds, 10)
    ensures Value(ds, 10) >= 0
  {
    if ds != "" {
      AllDigitsFront(ds);
    }
  }

  lemma {:induction false} ValueGrows(ds: string, k: nat)
    requires k <= |ds| && AllDigits(ds, 10)
    ensures 0 <= Value(ds[..k], 10) <= Value(ds, 10)
    decreases |ds| - k
  {
    if k == |ds| {
      assert ds[..k] == ds;
      ValueNonnegative(ds);
    } else {
      AllDigitsFront(ds);
      ValueGrows(ds[..|ds| - 1], k);
      assert ds[..|ds| - 1][..k] == ds[..k];
    }
  }

  lemma SmallIsRising(ds: string)
    requires AllDigits(ds, 10) && Value(ds, 10) <= UINT_MAX
    ensures Rising(ds) && Value(ds, 10) % TWO32 == Value(ds, 10)
  {
    hide Value, AllDigits;
    forall k | 0 <= k < |ds| ensures Seen(ds, k) <= Seen(ds, k + 1) {
      ValueGrows(ds, k);
      ValueGrows(ds, k + 1);
      DigitsOfFront(ds, k + 1);
      ValueGrows(ds[..k + 1], k);
      assert ds[..k + 1][..k] == ds[..k];
    }
    ValueNonnegative(ds);
  }

  lemma DigitsOfFront(ds: string, k: nat)
    requires k <= |ds| && AllDigits(ds, 10)
    ensures AllDigits(ds[..k], 10)
  {
    assert forall i :: 0 <= i < k ==> ds[..k][i] == ds[i];
  }

  /** The parsed number is the written one exactly when that fits an int. */
  lemma ParseIntIsExact(ds: string, rest: string)
    requires ds != "" && AllDigits(ds, 10) && !IsDigit(First(rest))
    ensures Value(ds, 10) >= 0
    ensures ParseInt(ds + rest) == Done(At(Value(ds, 10), rest)) <==> Value(ds, 10) <= INT_MAX
    ensures INT_MAX < Value(ds, 10) <= UINT_MAX ==> ParseInt(ds + rest) == Fail("number is too big")
  {
    hide Rising, Value, ParseInt, AllDigits;
    ParseIntExactly(ds, rest);
    if Value(ds, 10) <= UINT_MAX {
      SmallIsRising(ds);
    }
  }

  /** Beyond the unsigned range a wrap can go unnoticed. */
  lemma UnnoticedWrap()
    ensures Value("5368709120", 10) == 5368709120
    ensures ParseInt("5368709120") == Done(At(1073741824, ""))
  {
    NineDigits();
    WrapSpelled();
    LastZero();
    WrapValue();
    hide Value, Accumulate, AllDigits, ParseInt;
    ParsedFrom("536870912", "0", At(1073741824, ""));
  }

  lemma WrapValue()
    ensures Value("536870912" + "0", 10) == 5368709120
  {
    NineDigits();
    Horner("536870912", '0', 10);
    hide Value, AllDigits;
  }

  lemma ParsedFrom(ds: string, rest: string, end: Cursor<nat>)
    requires AllDigits(ds, 10) && 0 <= Value(ds, 10) <= UINT_MAX
    requires Accumulate(Value(ds, 10), rest) == end && end.value <= INT_MAX
    ensures ParseInt(ds + rest) == Done(end)
  {
    hide Value, Accumulate, AllDigits;
    AccumulateDigits(ds, rest);
  }

  lemma WrapSpelled()
    ensures "536870912" + "0" == "5368709120"
  {
  }

  lemma LastZero()
    ensures Accumulate(536870912, "0") == At(1073741824, "")
  {
    assert "0"[1..] == "";
    assert Accumulate(1073741824, "") == At(1073741824, "");
  }

  lemma NineDigits()
    ensures Value("536870912", 10) == 536870912 && AllDigits("536870912", 10)
  {
    Horner("", '5', 10);
    Horner("5", '3', 10);
    Horner("53", '6', 10);
    Horner("536", '8', 10);
    Horner("5368", '7', 10);
    Horner("53687", '0', 10);
    Horner("536870", '9', 10);
    Horner("5368709", '1', 10);
    Horner("53687091", '2', 10);
    assert Value("", 10) == 0;
    hide Value;
    Spelled();
  }

  lemma Spelled()
    ensures "" + "5" == "5" && "5" + "3" == "53" && "53" + "6" == "536" && "536" + "8" == "5368"
    ensures "5368" + "7" == "53687" && "53687" + "0" == "536870" && "536870" + "9" == "5368709"
    ensures "5368709" + "1" == "53687091" && "53687091" + "2" == "536870912"
  {
  }

  // ----- numerals as part of a format string --------------------------------------------------------------

  /** A numeral the parser accepts, with leading zeros or without. */
  ghost predicate GoodNumeral(ds: string) {
    ds != "" && AllDigits(ds, 10) && Rising(ds) && Value(ds, 10) % TWO32 <= INT_MAX
  }

  /** What it is taken for. */
  function NumeralMeant(ds: string): nat {
    Value(ds, 10) % TWO32
  }

  lemma ReadNumeral(ds: string, rest: string)
    requires GoodNumeral(ds) && !IsDigit(First(rest))
    ensures First(ds + rest) == ds[0] && IsDigit(ds[0])
    ensures ParseInt(ds + rest) == Done(At(NumeralMeant(ds), rest))
  {
    ParseIntExactly(ds, rest);
    FirstDigit(ds);
    hide Value, ParseInt, Rising, AllDigits;
  }

  lemma FirstDigit(ds: string)
    requires ds != "" && AllDigits(ds, 10)
    ensures IsDigit(ds[0])
  {
  }

  /** The numerals of ints are accepted and mean themselves. */
  lemma DecimalIsGood(n: nat)
    requires n <= INT_MAX
    ensures GoodNumeral(Decimal(n)) && NumeralMeant(Decimal(n)) == n
  {
    NumeralMeans(n, 10, false);
    NumeralDigits(n, 10, false);
    hide Numeral, Value, Rising;
    SmallIsRising(Decimal(n));
  }

  /** The digits at the cursor. */
  function TakeDigits(s: string): (ds: string)
    ensures ds <= s
  {
    if IsDigit(First(s)) then [s[0]] + TakeDigits(s[1..]) else ""
  }

  lemma {:induction false} DigitsTaken(s: string)
    ensures AllDigits(TakeDigits(s), 10) && !IsDigit(First(s[|TakeDigits(s)|..]))
    ensures TakeDigits(s) == "" <==> !IsDigit(First(s))
  {
    if IsDigit(First(s)) {
      DigitsTaken(s[1..]);
      assert s[1..][|TakeDigits(s[1..])|..] == s[|TakeDigits(s)|..];
    }
  }

  /** Conversely a number is read only from a numeral that is accepted. */
  lemma NumeralRead(s: string) returns (ds: string)
    requires IsDigit(First(s)) && ParseInt(s).Done?
    ensures GoodNumeral(ds) && s == ds + ParseInt(s).value.rest && ds[0] == s[0]
    ensures ParseInt(s).value.value == NumeralMeant(ds) && !IsDigit(First(ParseInt(s).value.rest))
  {
    ds := TakeDigits(s);
    DigitsTaken(s);
    assert s == ds + s[|ds|..];
    ParseIntExactly(ds, s[|ds|..]);
    hide Value, ParseInt, Rising, AllDigits, TakeDigits;
  }
}
