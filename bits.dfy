/** Bitwise arithmetic on unbounded non-negative integers, as Python
    does it: powers of two, single bits, exclusive or and division by a
    power of two. Days 17 and 22 compute with these. */
module Bits {

  function Pow2(k: nat): (p: nat)
    ensures p >= 1
  {
    if k == 0 then 1 else 2 * Pow2(k - 1)
  }

  /** Bit k of n. */
  predicate Bit(n: nat, k: nat)
  {
    (n / Pow2(k)) % 2 == 1
  }

  /** Python's `x ^ y` on non-negative integers, one bit at a time from
      the least significant end. */
  function Xor(x: nat, y: nat): nat
    decreases x + y
  {
    if x == 0 && y == 0 then 0
    else 2 * Xor(x / 2, y / 2) + (x % 2 + y % 2) % 2
  }

  /** Python's `n << j`. */
  function Shl(n: nat, j: nat): nat
  {
    n * Pow2(j)
  }

  lemma MulAtLeast(a: int, d: int)
    requires a >= 1 && d > 0
    ensures a * d >= d
    decreases a
  {
    if a > 1 {
      MulAtLeast(a - 1, d);
      assert a * d == (a - 1) * d + d;
    }
  }

  /** Division is determined by quotient and remainder. */
  lemma DivUnique(n: int, d: int, q: int, s: int)
    requires d > 0 && 0 <= s < d && n == q * d + s
    ensures n / d == q
  {
    var q', s' := n / d, n % d;
    assert n == q' * d + s';
    if q > q' {
      MulAtLeast(q - q', d);
    } else if q < q' {
      MulAtLeast(q' - q, d);
    }
  }

  lemma Pow2Halves(n: nat, k: nat)
    ensures n / Pow2(k + 1) == (n / 2) / Pow2(k)
  {
    var p := Pow2(k);
    var q := (n / 2) / p;
    var r := (n / 2) % p;
    assert n / 2 == q * p + r;
    assert n == q * (2 * p) + (2 * r + n % 2);
    DivUnique(n, 2 * p, q, 2 * r + n % 2);
  }

  /** Every bit of x ^ y is set exactly when it is set in one of x and y. */
  lemma {:induction false} XorBits(x: nat, y: nat, k: nat)
    ensures Bit(Xor(x, y), k) <==> Bit(x, k) != Bit(y, k)
    decreases k
  {
    var z := Xor(x, y);
    if x == 0 && y == 0 {
      assert z == 0;
      assert 0 / Pow2(k) == 0;
    } else if k == 0 {
    } else {
      assert z / 2 == Xor(x / 2, y / 2);
      XorBits(x / 2, y / 2, k - 1);
      Pow2Halves(x, k - 1);
      Pow2Halves(y, k - 1);
      Pow2Halves(z, k - 1);
    }
  }

  /** The recursion of Xor also holds when both arguments are 0. */
  lemma XorUnfold(x: nat, y: nat)
    ensures Xor(x, y) == 2 * Xor(x / 2, y / 2) + (x % 2 + y % 2) % 2
  {
  }

  /** Xor with the same value twice gives the value back. */
  lemma {:induction false} XorTwice(x: nat, y: nat)
    ensures Xor(Xor(x, y), y) == x
    decreases x + y
  {
    if x == 0 && y == 0 {
    } else {
      hide *;
      var z := Xor(x, y);
      var half := Xor(x / 2, y / 2);
      XorUnfold(x, y);
      XorUnfold(z, y);
      XorTwice(x / 2, y / 2);
      assert z / 2 == half && z % 2 == (x % 2 + y % 2) % 2;
      assert x % 2 == 0 || x % 2 == 1;
      assert y % 2 == 0 || y % 2 == 1;
    }
  }

  /** Xor of two values below 2^k stays below 2^k. */
  lemma {:induction false} XorBelow(x: nat, y: nat, k: nat)
    requires x < Pow2(k) && y < Pow2(k)
    ensures Xor(x, y) < Pow2(k)
    decreases k
  {
    if k > 0 && !(x == 0 && y == 0) {
      XorBelow(x / 2, y / 2, k - 1);
    }
  }

  /** `a // 2**k`, which is also `a >> k`, by halving k times. */
  function DivPow2(a: nat, k: nat): nat
  {
    if k == 0 then a else DivPow2(a / 2, k - 1)
  }

  /** Halving k times is floor division by 2^k. */
  lemma {:induction false} DivPow2Exact(a: nat, k: nat)
    ensures DivPow2(a, k) == a / Pow2(k)
  {
    if k > 0 {
      DivPow2Exact(a / 2, k - 1);
      Pow2Halves(a, k - 1);
    }
  }

  lemma {:induction false} Pow2Add(a: nat, b: nat)
    ensures Pow2(a + b) == Pow2(a) * Pow2(b)
    decreases b
  {
    if b > 0 {
      Pow2Add(a, b - 1);
      assert Pow2(a + b) == 2 * Pow2(a + b - 1);
      assert Pow2(b) == 2 * Pow2(b - 1);
    }
  }

  /** Dividing by a, then by b, is dividing by a * b. */
  lemma DivDiv(x: nat, a: nat, b: nat)
    requires a > 0 && b > 0
    ensures x / (a * b) == (x / a) / b
  {
    var q1, r1 := x / a, x % a;
    var q2, r2 := q1 / b, q1 % b;
    assert x == a * q1 + r1;
    assert q1 == b * q2 + r2;
    assert x == q2 * (a * b) + (a * r2 + r1) by {
      assert a * q1 == a * (b * q2) + a * r2;
    }
    assert a * r2 + r1 < a * b by {
      assert r2 <= b - 1;
      MulLe(a, r2, b - 1);
      assert a * (b - 1) == a * b - a;
    }
    DivUnique(x, a * b, q2, a * r2 + r1);
  }

  lemma MulLe(a: nat, x: nat, y: nat)
    requires x <= y
    ensures a * x <= a * y
  {
  }

  /** Bit k of n >> j is bit k + j of n. */
  lemma ShiftRightBits(n: nat, j: nat, k: nat)
    ensures Bit(DivPow2(n, j), k) <==> Bit(n, k + j)
  {
    DivPow2Exact(n, j);
    Pow2Add(j, k);
    DivDiv(n, Pow2(j), Pow2(k));
  }

  /** (n * a) / (a * b) is n / b. */
  lemma MulDivCancel(n: nat, a: nat, b: nat)
    requires a > 0 && b > 0
    ensures (n * a) / (a * b) == n / b
  {
    DivDiv(n * a, a, b);
    DivUnique(n * a, a, n, 0);
  }

  /** An even multiple of a, divided by a, is even. */
  lemma EvenQuotient(n: nat, a: nat, e: nat)
    requires a > 0 && e % 2 == 0
    ensures (n * (a * e)) / a % 2 == 0
  {
    assert n * (a * e) == (n * e) * a;
    DivUnique(n * (a * e), a, n * e, 0);
    assert (n * e) % 2 == 0 by {
      assert n * e == 2 * (n * (e / 2));
    }
  }

  /** Adding an even multiple of a above the low part leaves bit 0 of
      the quotient by a alone. */
  lemma HighEven(q: nat, a: nat, e: nat, r: nat)
    requires a > 0 && e % 2 == 0
    ensures (q * (a * e) + r) / a % 2 == (r / a) % 2
  {
    assert q * (a * e) + r == (q * e + r / a) * a + r % a;
    DivUnique(q * (a * e) + r, a, q * e + r / a, r % a);
    assert (q * e) % 2 == 0 by {
      assert q * e == 2 * (q * (e / 2));
    }
  }

  /** Reducing modulo an even multiple of a leaves bit 0 of the
      quotient by a alone. */
  lemma ModLowBit(n: nat, a: nat, e: nat)
    requires a > 0 && e > 0 && e % 2 == 0
    ensures (n % (a * e)) / a % 2 == n / a % 2
  {
    var q, r := n / (a * e), n % (a * e);
    assert n == q * (a * e) + r;
    HighEven(q, a, e, r);
  }

  /** Bit k of n << j is bit k - j of n, and clear below j. */
  lemma ShiftLeftBits(n: nat, j: nat, k: nat)
    ensures Bit(Shl(n, j), k) <==> k >= j && Bit(n, k - j)
  {
    if k >= j {
      ShiftLeftHigh(n, j, k);
    } else {
      ShiftLeftLow(n, j, k);
    }
  }

  lemma ShiftLeftHigh(n: nat, j: nat, k: nat)
    requires k >= j
    ensures (n * Pow2(j)) / Pow2(k) == n / Pow2(k - j)
  {
    hide Pow2;
    Pow2Positive(j);
    Pow2Positive(k - j);
    Pow2Add(j, k - j);
    MulDivCancel(n, Pow2(j), Pow2(k - j));
  }

  lemma ShiftLeftLow(n: nat, j: nat, k: nat)
    requires k < j
    ensures (n * Pow2(j)) / Pow2(k) % 2 == 0
  {
    hide Pow2;
    Pow2Positive(k);
    Pow2Add(k, j - k);
    Pow2Even(j - k);
    EvenQuotient(n, Pow2(k), Pow2(j - k));
  }

  /** `n & ((1 << w) - 1)` is `n % 2**w`: bit k survives exactly when
      k < w. */
  lemma MaskBits(n: nat, w: nat, k: nat)
    ensures Bit(n % Pow2(w), k) <==> k < w && Bit(n, k)
  {
    if k < w {
      MaskLow(n, w, k);
    } else {
      MaskHigh(n, w, k);
    }
  }

  lemma MaskLow(n: nat, w: nat, k: nat)
    requires k < w
    ensures (n % Pow2(w)) / Pow2(k) % 2 == n / Pow2(k) % 2
  {
    hide Pow2;
    Pow2Positive(k);
    Pow2Positive(w - k);
    Pow2Even(w - k);
    Pow2Add(k, w - k);
    ModLowBit(n, Pow2(k), Pow2(w - k));
  }

  lemma MaskHigh(n: nat, w: nat, k: nat)
    requires k >= w
    ensures (n % Pow2(w)) / Pow2(k) == 0
  {
    Pow2Monotone(w, k);
    DivUnique(n % Pow2(w), Pow2(k), 0, n % Pow2(w));
  }

  lemma Pow2Even(n: nat)
    requires n > 0
    ensures Pow2(n) % 2 == 0
  {
  }

  lemma Pow2Positive(n: nat)
    ensures Pow2(n) > 0 && Pow2(1) == 2
  {
  }

  lemma {:induction false} Pow2Monotone(a: nat, b: nat)
    requires a <= b
    ensures Pow2(a) <= Pow2(b)
    decreases b
  {
    if a < b {
      Pow2Monotone(a, b - 1);
    }
  }
}
