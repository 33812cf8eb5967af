/** Day 7: calibration equations `lval: rvals...`. An equation holds when
    some choice of operators, applied strictly left to right without
    precedence, turns the right-hand values into `lval`. Part 1 allows
    addition and multiplication, part 2 also decimal concatenation. */
module Day07 {
  import opened Common
  import opened Decimal

  datatype Op = Add | Mul | Concat

  type Equation = (nat, seq<nat>)

  /** `concat(a, b)`: `int(f"{a}{b}")`. */
  function ConcatNum(a: nat, b: nat): nat
  {
    FromDigits(ToDigits(a) + ToDigits(b))
  }

  /** Concatenation shifts `a` left by the number of decimal digits of `b`. */
  lemma ConcatArithmetic(a: nat, b: nat)
    ensures ConcatNum(a, b) == a * Pow10(|ToDigits(b)|) + b
    ensures b < Pow10(|ToDigits(b)|) && (b == 0 || Pow10(|ToDigits(b)| - 1) <= b)
  {
    FromDigitsAppend(ToDigits(a), ToDigits(b));
    DigitsRoundTrip(a);
    DigitsRoundTrip(b);
  }

  function ApplyOp(op: Op, x: nat, y: nat): nat
  {
    match op
    case Add => x + y
    case Mul => x * y
    case Concat => ConcatNum(x, y)
  }

  /** The inner loop of `evaluate`: start from `rvals[0]` and fold in
      `rvals[i + 1]` with `ops[i]`, left to right. */
  function Fold(rvals: seq<nat>, ops: seq<Op>): nat
    requires |rvals| == |ops| + 1
  {
    if ops == [] then rvals[0]
    else ApplyOp(ops[|ops| - 1], Fold(rvals[..|rvals| - 1], ops[..|ops| - 1]), rvals[|rvals| - 1])
  }

  /** Some sequence of allowed operators folds `rvals` into `lval`. */
  ghost predicate Solvable(lval: nat, rvals: seq<nat>, allowed: seq<Op>)
    requires |rvals| >= 1
  {
    exists ops: seq<Op> :: |ops| == |rvals| - 1 && (forall i :: 0 <= i < |ops| ==> ops[i] in allowed)
                           && Fold(rvals, ops) == lval
  }

  /** `[x] + c` for every `c` in `cs`, for each `x` of `ops` in turn. */
  function Prefixed(ops: seq<Op>, cs: seq<seq<Op>>): seq<seq<Op>>
  {
    if ops == [] then []
    else seq(|cs|, i requires 0 <= i < |cs| => [ops[0]] + cs[i]) + Prefixed(ops[1..], cs)
  }

  lemma {:induction false} PrefixedMembers(ops: seq<Op>, cs: seq<seq<Op>>)
    ensures forall t :: t in Prefixed(ops, cs) <==> |t| > 0 && t[0] in ops && t[1..] in cs
  {
    if ops != [] {
      PrefixedMembers(ops[1..], cs);
      var head := seq(|cs|, i requires 0 <= i < |cs| => [ops[0]] + cs[i]);
      assert Prefixed(ops, cs) == head + Prefixed(ops[1..], cs);
      forall t | |t| > 0 && t[0] == ops[0] && t[1..] in cs ensures t in head {
        var i :| 0 <= i < |cs| && cs[i] == t[1..];
        assert head[i] == t;
      }
      forall t | t in head ensures |t| > 0 && t[0] == ops[0] && t[1..] in cs {
        var i :| 0 <= i < |cs| && head[i] == t;
        assert t[1..] == cs[i];
      }
    }
  }

  /** `itertools.product(ops, repeat=n)`, in its order: the first position
      varies slowest. */
  function Product(ops: seq<Op>, n: nat): seq<seq<Op>>
  {
    if n == 0 then [[]] else Prefixed(ops, Product(ops, n - 1))
  }

  /** `t` is a word of length `n` over `ops`. */
  predicate IsWord(t: seq<Op>, ops: seq<Op>, n: nat)
  {
    |t| == n && forall i :: 0 <= i < n ==> t[i] in ops
  }

  /** A non-empty word is a letter followed by a shorter word. */
  lemma WordCons(t: seq<Op>, ops: seq<Op>, n: nat)
    requires n > 0
    ensures IsWord(t, ops, n) <==> |t| > 0 && t[0] in ops && IsWord(t[1..], ops, n - 1)
  {
    if |t| == n {
      assert forall i :: 0 <= i < n - 1 ==> t[1..][i] == t[i + 1];
      assert forall i :: 1 <= i < n ==> t[i] == t[1..][i - 1];
    }
  }

  /** The product lists exactly the length-`n` words over `ops`. */
  lemma {:induction false} ProductMembers(ops: seq<Op>, n: nat)
    ensures forall t :: t in Product(ops, n) <==> IsWord(t, ops, n)
  {
    if n > 0 {
      ProductMembers(ops, n - 1);
      PrefixedMembers(ops, Product(ops, n - 1));
      hide IsWord, Prefixed;
      forall t ensures t in Product(ops, n) <==> IsWord(t, ops, n) {
        WordCons(t, ops, n);
      }
    }
  }

  /** The loop `result = op(result, rvals[i + 1])` over one operator word. */
  method FoldLeft(rvals: seq<nat>, word: seq<Op>) returns (result: nat)
    requires |rvals| == |word| + 1
    ensures result == Fold(rvals, word)
  {
    result := rvals[0];
    var i := 0;
    while i < |word|
      invariant 0 <= i <= |word|
      invariant result == Fold(rvals[..i + 1], word[..i])
    {
      assert rvals[..i + 2][..i + 1] == rvals[..i + 1];
      assert word[..i + 1][..i] == word[..i];
      result := ApplyOp(word[i], result, rvals[i + 1]);
      i := i + 1;
    }
    assert rvals[..i + 1] == rvals && word[..i] == word;
  }

  /** The operator word does not fold `rvals` into `lval`. */
  predicate Misses(lval: nat, rvals: seq<nat>, word: seq<Op>)
  {
    |rvals| == |word| + 1 && Fold(rvals, word) != lval
  }

  /** `evaluate`: try the operator words in product order; on the first one
      that folds to `lval`, return `lval`. It succeeds exactly when the
      equation is solvable, and then returns the target itself. */
  method Evaluate(lval: nat, rvals: seq<nat>, ops: seq<Op>) returns (res: Option<nat>)
    requires |rvals| >= 1
    ensures res.Some? <==> Solvable(lval, rvals, ops)
    ensures res.Some? ==> res.value == lval
  {
    hide Fold, Solvable, Product, ApplyOp;
    var words := Product(ops, |rvals| - 1);
    ProductMembers(ops, |rvals| - 1);
    assert forall k :: 0 <= k < |words| ==> |words[k]| == |rvals| - 1 by {
      forall k | 0 <= k < |words| ensures |words[k]| == |rvals| - 1 {
        assert words[k] in words;
      }
    }
    var j := 0;
    res := None;
    while j < |words|
      invariant 0 <= j <= |words|
      invariant forall k :: 0 <= k < |words| ==> |words[k]| == |rvals| - 1
      invariant forall k :: 0 <= k < j ==> Misses(lval, rvals, words[k])
    {
      var result := FoldLeft(rvals, words[j]);
      if result == lval {
        WordSolves(lval, rvals, ops, words[j]);
        return Some(lval);
      }
      j := j + 1;
    }
    NoWordSolves(lval, rvals, ops, words);
  }

  lemma WordSolves(lval: nat, rvals: seq<nat>, ops: seq<Op>, w: seq<Op>)
    requires |rvals| >= 1
    requires |w| == |rvals| - 1 && w in Product(ops, |rvals| - 1) && Fold(rvals, w) == lval
    ensures Solvable(lval, rvals, ops)
  {
    hide Fold, Product;
    ProductMembers(ops, |rvals| - 1);
    assert IsWord(w, ops, |rvals| - 1);
  }

  lemma NoWordSolves(lval: nat, rvals: seq<nat>, ops: seq<Op>, words: seq<seq<Op>>)
    requires |rvals| >= 1
    requires words == Product(ops, |rvals| - 1)
    requires forall k :: 0 <= k < |words| ==> Misses(lval, rvals, words[k])
    ensures !Solvable(lval, rvals, ops)
  {
    hide Fold, Product;
    ProductMembers(ops, |rvals| - 1);
    forall w: seq<Op> | IsWord(w, ops, |rvals| - 1) ensures Fold(rvals, w) != lval {
      assert w in words;
      var k :| 0 <= k < |words| && words[k] == w;
      assert Misses(lval, rvals, words[k]);
    }
  }

  /** The calibration result: the sum of `lval` over solvable equations. */
  ghost function Calibration(eqs: seq<Equation>, ops: seq<Op>): nat
    requires forall i :: 0 <= i < |eqs| ==> |eqs[i].1| >= 1
  {
    if eqs == [] then 0
    else
      var last := eqs[|eqs| - 1];
      Calibration(eqs[..|eqs| - 1], ops) + (if Solvable(last.0, last.1, ops) then last.0 else 0)
  }

  /** `solve`: add `lval` for every equation `evaluate` accepts. */
  method Solve(eqs: seq<Equation>, ops: seq<Op>) returns (total: nat)
    requires forall i :: 0 <= i < |eqs| ==> |eqs[i].1| >= 1
    ensures total == Calibration(eqs, ops)
  {
    total := 0;
    var i := 0;
    while i < |eqs|
      invariant 0 <= i <= |eqs|
      invariant total == Calibration(eqs[..i], ops)
    {
      assert eqs[..i + 1][..i] == eqs[..i];
      var res := Evaluate(eqs[i].0, eqs[i].1, ops);
      if res.Some? {
        total := total + res.value;
      }
      i := i + 1;
    }
    assert eqs[..i] == eqs;
  }

  method Part1(eqs: seq<Equation>) returns (total: nat)
    requires forall i :: 0 <= i < |eqs| ==> |eqs[i].1| >= 1
    ensures total == Calibration(eqs, [Add, Mul])
  {
    total := Solve(eqs, [Add, Mul]);
  }

  method Part2(eqs: seq<Equation>) returns (total: nat)
    requires forall i :: 0 <= i < |eqs| ==> |eqs[i].1| >= 1
    ensures total == Calibration(eqs, [Add, Mul, Concat])
  {
    total := Solve(eqs, [Add, Mul, Concat]);
  }

  /** With one right-hand value the only candidate is that value, whatever
      the operators. */
  lemma SingleValue(lval: nat, x: nat, ops: seq<Op>)
    ensures Solvable(lval, [x], ops) <==> lval == x
  {
    if lval == x {
      assert Fold([x], []) == lval;
    }
  }

  /** Allowing more operators never loses a solution. */
  lemma {:induction false} SolvableMonotone(lval: nat, rvals: seq<nat>, ops: seq<Op>, more: seq<Op>)
    requires |rvals| >= 1
    requires forall o :: o in ops ==> o in more
    requires Solvable(lval, rvals, ops)
    ensures Solvable(lval, rvals, more)
  {
    var w: seq<Op> :| |w| == |rvals| - 1 && (forall i :: 0 <= i < |w| ==> w[i] in ops) && Fold(rvals, w) == lval;
    assert forall i :: 0 <= i < |w| ==> w[i] in more;
  }

  lemma {:induction false} CalibrationMonotone(eqs: seq<Equation>, ops: seq<Op>, more: seq<Op>)
    requires forall i :: 0 <= i < |eqs| ==> |eqs[i].1| >= 1
    requires forall o :: o in ops ==> o in more
    ensures Calibration(eqs, ops) <= Calibration(eqs, more)
  {
    if eqs != [] {
      var last := eqs[|eqs| - 1];
      CalibrationMonotone(eqs[..|eqs| - 1], ops, more);
      if Solvable(last.0, last.1, ops) {
        SolvableMonotone(last.0, last.1, ops, more);
      }
    }
  }

  /** Every equation solvable with {add, mul} is solvable with concatenation
      added, so the part 2 answer is at least the part 1 answer. */
  lemma Part2AtLeastPart1(eqs: seq<Equation>)
    requires forall i :: 0 <= i < |eqs| ==> |eqs[i].1| >= 1
    ensures Calibration(eqs, [Add, Mul]) <= Calibration(eqs, [Add, Mul, Concat])
  {
    CalibrationMonotone(eqs, [Add, Mul], [Add, Mul, Concat]);
  }
}
