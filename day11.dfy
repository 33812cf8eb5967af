/** Day 11: stones that change on every blink. A 0 becomes 1; a stone
    with an even number of decimal digits splits into its left and right
    halves; any other stone is multiplied by 2024. The answers count the
    stones after 25 and 75 blinks. */
module Day11 {
  import opened Decimal
  import opened Bits

  /** `transform`'s result: one stone, or the pair of halves. */
  datatype Stones = One(v: nat) | Two(left: nat, right: nat)

  /** `transform(stone)`. Splitting cuts `str(stone)` in the middle and
      reads both halves back with `int`, so the right half loses any
      leading zeros. */
  function Transform(stone: nat): Stones
  {
    if stone == 0 then One(1)
    else
      var text := ToDigits(stone);
      if |text| % 2 == 0 then Two(FromDigits(text[..|text| / 2]), FromDigits(text[|text| / 2..]))
      else One(stone * 2024)
  }

  /** What `transform` does to each kind of stone: 0 becomes 1; a stone of
      `2k` digits splits into a `k`-digit high part and a low part below
      `10^k` that put back together give the stone; any other stone is
      multiplied by 2024. */
  lemma TransformCases(stone: nat)
    ensures stone == 0 ==> Transform(stone) == One(1)
    ensures Transform(stone).Two? <==> stone != 0 && |ToDigits(stone)| % 2 == 0
    ensures Transform(stone).Two? ==>
      var r := Transform(stone);
      var k := |ToDigits(stone)| / 2;
      stone == r.left * Pow10(k) + r.right
      && Pow10(k - 1) <= r.left < Pow10(k) && r.right < Pow10(k)
    ensures Transform(stone).One? && stone != 0 ==> Transform(stone).v == stone * 2024
  {
    if stone != 0 && |ToDigits(stone)| % 2 == 0 {
      SplitFacts(stone, ToDigits(stone), |ToDigits(stone)| / 2);
    }
  }

  /** The two halves of the decimal digits of `stone` read back as the
      high and low part of `stone`. */
  lemma SplitFacts(stone: nat, text: seq<nat>, k: nat)
    requires text == ToDigits(stone) && |text| == 2 * k && k >= 1
    ensures stone == FromDigits(text[..k]) * Pow10(k) + FromDigits(text[k..])
    ensures Pow10(k - 1) <= FromDigits(text[..k]) < Pow10(k)
    ensures FromDigits(text[k..]) < Pow10(k)
  {
    hide FromDigits, Pow10, ToDigits;
    assert text == text[..k] + text[k..];
    FromDigitsAppend(text[..k], text[k..]);
    DigitsRoundTrip(stone);
    FromDigitsBound(text[..k]);
    FromDigitsBound(text[k..]);
    FromDigitsLower(text[..k]);
  }

  /** The stones a single stone turns into, left to right. */
  function Pieces(t: Stones): seq<nat>
  {
    match t
    case One(v) => [v]
    case Two(a, b) => [a, b]
  }

  /** `blink(stone, n)`: the number of stones one stone becomes after `n`
      blinks. Each blink at most doubles the count. */
  function Blink(stone: nat, n: nat): (r: nat)
    ensures 1 <= r <= Pow2(n)
    decreases n
  {
    if n == 0 then 1
    else
      match Transform(stone)
      case Two(a, b) => Blink(a, n - 1) + Blink(b, n - 1)
      case One(v) => Blink(v, n - 1)
  }

  /** One blink of the whole row, every stone replaced in place by its
      pieces: the process the puzzle describes. */
  function Step(row: seq<nat>): seq<nat>
  {
    if row == [] then [] else Step(row[..|row| - 1]) + Pieces(Transform(row[|row| - 1]))
  }

  /** The row after `n` blinks. */
  function Evolve(row: seq<nat>, n: nat): seq<nat>
    decreases n
  {
    if n == 0 then row else Evolve(Step(row), n - 1)
  }

  /** `sum(blink(stone, n) for stone in stones)`. */
  function Total(row: seq<nat>, n: nat): nat
  {
    if row == [] then 0 else Total(row[..|row| - 1], n) + Blink(row[|row| - 1], n)
  }

  lemma {:induction false} TotalAppend(a: seq<nat>, b: seq<nat>, n: nat)
    ensures Total(a + b, n) == Total(a, n) + Total(b, n)
  {
    if b == [] {
      assert a + b == a;
    } else {
      assert (a + b)[..|a + b| - 1] == a + b[..|b| - 1];
      TotalAppend(a, b[..|b| - 1], n);
    }
  }

  /** Counting `n + 1` blinks per stone is counting `n` blinks on the row
      after one blink. */
  lemma {:induction false} TotalStep(row: seq<nat>, n: nat)
    ensures Total(row, n + 1) == Total(Step(row), n)
  {
    if row != [] {
      var init := row[..|row| - 1];
      var last := row[|row| - 1];
      TotalStep(init, n);
      TotalAppend(Step(init), Pieces(Transform(last)), n);
      TotalPieces(last, n);
    }
  }

  /** The pieces of one stone count `blink(stone, n + 1)` between them. */
  lemma TotalPieces(stone: nat, n: nat)
    ensures Total(Pieces(Transform(stone)), n) == Blink(stone, n + 1)
  {
    var p := Pieces(Transform(stone));
    if Transform(stone).Two? {
      assert p[..1] == [p[0]] && [p[0]][..0] == [];
      assert Total([p[0]], n) == Blink(p[0], n);
      assert Total(p, n) == Total([p[0]], n) + Blink(p[1], n);
    } else {
      assert p[..0] == [];
    }
  }

  /** `blink` counts the stones of the simulated row: the sum over the
      stones is the length of the row after `n` blinks. */
  lemma {:induction false} TotalIsRowLength(row: seq<nat>, n: nat)
    ensures Total(row, n) == |Evolve(row, n)|
    decreases n
  {
    hide Total, Blink, Step, Transform, Pieces, ToDigits;
    if n == 0 {
      TotalOfZeroBlinks(row);
    } else {
      TotalStep(row, n - 1);
      TotalIsRowLength(Step(row), n - 1);
    }
  }

  lemma {:induction false} TotalOfZeroBlinks(row: seq<nat>)
    ensures Total(row, 0) == |row|
  {
    if row != [] {
      TotalOfZeroBlinks(row[..|row| - 1]);
    }
  }

  /** The answer lies between the number of stones and that number times
      `2^n`. */
  lemma {:induction false} TotalBounds(row: seq<nat>, n: nat)
    ensures |row| <= Total(row, n) <= |row| * Pow2(n)
  {
    hide Blink, Transform, ToDigits;
    if row != [] {
      var init := row[..|row| - 1];
      TotalBounds(init, n);
      MulSucc(|init|, Pow2(n));
    }
  }

  lemma MulSucc(a: nat, b: nat)
    ensures (a + 1) * b == a * b + b
  {
  }

  /** part1: the number of stones after 25 blinks. */
  function Part1(stones: seq<nat>): (r: nat)
    ensures r == |Evolve(stones, 25)|
  {
    TotalIsRowLength(stones, 25);
    Total(stones, 25)
  }

  /** part2: the number of stones after 75 blinks. */
  function Part2(stones: seq<nat>): (r: nat)
    ensures r == |Evolve(stones, 75)|
  {
    TotalIsRowLength(stones, 75);
    Total(stones, 75)
  }
}
