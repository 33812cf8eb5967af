/** Decimal notation of non-negative integers: `str(n)` as a digit sequence
    and `int(s)` back. Days 7 and 11 build numbers by cutting and gluing
    these digit strings. */
module Decimal {

  function Pow10(k: nat): (p: nat)
    ensures p >= 1
  {
    if k == 0 then 1 else 10 * Pow10(k - 1)
  }

  /** `int(ds)` for a string of decimal digits (leading zeros allowed). */
  function FromDigits(ds: seq<nat>): nat
  {
    if ds == [] then 0 else FromDigits(ds[..|ds| - 1]) * 10 + ds[|ds| - 1]
  }

  /** `str(n)`: the digits of `n`, most significant first, without leading
      zeros (zero itself is the single digit 0). The length is the number
      of decimal digits: the least `k` with `n < 10^k`, and at least 1. */
  function ToDigits(n: nat): (ds: seq<nat>)
    ensures |ds| >= 1
    ensures forall i :: 0 <= i < |ds| ==> ds[i] < 10
    ensures n < Pow10(|ds|)
    ensures n >= Pow10(|ds| - 1) || n == 0
    ensures |ds| > 1 ==> ds[0] != 0
  {
    if n < 10 then [n] else ToDigits(n / 10) + [n % 10]
  }

  /** `int(str(n)) == n`. */
  lemma {:induction false} DigitsRoundTrip(n: nat)
    ensures FromDigits(ToDigits(n)) == n
  {
    if n >= 10 {
      DigitsRoundTrip(n / 10);
      var ds := ToDigits(n);
      assert ds[..|ds| - 1] == ToDigits(n / 10);
    }
  }

  /** Appending digit strings shifts the first by the length of the second. */
  lemma {:induction false} FromDigitsAppend(x: seq<nat>, y: seq<nat>)
    ensures FromDigits(x + y) == FromDigits(x) * Pow10(|y|) + FromDigits(y)
  {
    if y == [] {
      assert x + y == x;
    } else {
      var init := y[..|y| - 1];
      var last := y[|y| - 1];
      assert (x + y)[..|x + y| - 1] == x + init;
      FromDigitsAppend(x, init);
      var a, b, p := FromDigits(x), FromDigits(init), Pow10(|init|);
      assert FromDigits(x + y) == FromDigits(x + init) * 10 + last;
      assert FromDigits(y) == b * 10 + last;
      assert Pow10(|y|) == p * 10;
      hide *;
      ShiftByTen(a, p, b);
    }
  }

  lemma ShiftByTen(a: int, p: int, b: int)
    ensures (a * p + b) * 10 == a * (p * 10) + b * 10
  {
  }

  /** Reading digits with a leading zero gives the same number. */
  lemma {:induction false} FromDigitsLeadingZero(ds: seq<nat>)
    ensures FromDigits([0] + ds) == FromDigits(ds)
  {
    FromDigitsAppend([0], ds);
    assert FromDigits([0]) == FromDigits([]) * 10 + 0;
  }

  /** `int` of a digit string is below 10 to the power of its length. */
  lemma {:induction false} FromDigitsBound(ds: seq<nat>)
    requires forall i :: 0 <= i < |ds| ==> ds[i] < 10
    ensures FromDigits(ds) < Pow10(|ds|)
  {
    if ds != [] {
      FromDigitsBound(ds[..|ds| - 1]);
    }
  }

  /** Without a leading zero, a digit string of length `k` reads as at
      least `10^(k-1)`. */
  lemma {:induction false} FromDigitsLower(ds: seq<nat>)
    requires |ds| >= 1 && ds[0] != 0
    ensures FromDigits(ds) >= Pow10(|ds| - 1)
  {
    if |ds| > 1 {
      var init := ds[..|ds| - 1];
      assert init[0] == ds[0];
      FromDigitsLower(init);
    }
  }

  /** The characters of `str(n)`. */
  function Show(n: nat): string
  {
    var ds := ToDigits(n);
    seq(|ds|, i requires 0 <= i < |ds| => ('0' as int + ds[i]) as char)
  }

  /** A value below 10 prints as its single digit. */
  lemma ShowDigit(v: nat)
    requires v < 10
    ensures Show(v) == [('0' as int + v) as char]
  {
  }

  /** `str(n)` for an integer: a minus sign before the digits of a
      negative value. */
  function ShowInt(n: int): string
  {
    if n < 0 then "-" + Show(-n) else Show(n)
  }
}
