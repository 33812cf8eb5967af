/** Day 3: sums of the products of `mul(a,b)` instructions found in corrupted
    memory, optionally switched off and on by `don't()` and `do()` markers.
    The matches are given already extracted: `muls` maps the offset of each
    `mul` to its two factors, `dos` and `donts` hold the marker offsets. */
module Day03 {
  import opened Common

  type Muls = map<nat, (nat, nat)>

  function Product(f: (nat, nat)): nat { f.0 * f.1 }

  /** The sum of `a * b` over all recorded muls, in no particular order. */
  ghost function SumProducts(muls: Muls): nat
    decreases |muls|
  {
    if muls == map[] then 0
    else
      var k :| k in muls;
      Product(muls[k]) + SumProducts(muls - {k})
  }

  /** Whichever offset is taken out first, the sum is the same. */
  lemma {:induction false} SumProductsRemove(muls: Muls, k: nat)
    requires k in muls
    ensures SumProducts(muls) == Product(muls[k]) + SumProducts(muls - {k})
    decreases |muls|
  {
    var j :| j in muls && SumProducts(muls) == Product(muls[j]) + SumProducts(muls - {j});
    if j != k {
      assert |muls - {j}| == |muls| - 1 by { assert (muls - {j}).Keys == muls.Keys - {j}; }
      assert |muls - {k}| == |muls| - 1 by { assert (muls - {k}).Keys == muls.Keys - {k}; }
      SumProductsRemove(muls - {j}, k);
      SumProductsRemove(muls - {k}, j);
      assert (muls - {j}) - {k} == (muls - {k}) - {j};
    }
  }

  /** part1: every mul contributes, markers are ignored. */
  method Part1(muls: Muls) returns (total: nat)
    ensures total == SumProducts(muls)
  {
    total := 0;
    var rest := muls;
    while rest != map[]
      invariant total + SumProducts(rest) == SumProducts(muls)
      decreases |rest|
    {
      var k :| k in rest;
      SumProductsRemove(rest, k);
      total := total + Product(rest[k]);
      assert (rest - {k}).Keys == rest.Keys - {k};
      rest := rest - {k};
    }
  }

  /** Offset `i` is scanned as a `do()`: the elif chain tests muls first. */
  predicate IsDo(muls: Muls, dos: set<nat>, i: nat)
  {
    i !in muls && i in dos
  }

  predicate IsDont(muls: Muls, dos: set<nat>, donts: set<nat>, i: nat)
  {
    i !in muls && i !in dos && i in donts
  }

  /** The `disabled` flag just before offset `i` is scanned. */
  function Disabled(muls: Muls, dos: set<nat>, donts: set<nat>, i: nat): bool
  {
    if i == 0 then false
    else
      var prev := Disabled(muls, dos, donts, i - 1);
      if i - 1 in muls then prev
      else if i - 1 in dos then false
      else if i - 1 in donts then true
      else prev
  }

  /** The products of the enabled muls at offsets below `n`. */
  function EnabledSum(muls: Muls, dos: set<nat>, donts: set<nat>, n: nat): nat
  {
    if n == 0 then 0
    else
      EnabledSum(muls, dos, donts, n - 1)
      + (if n - 1 in muls && !Disabled(muls, dos, donts, n - 1) then Product(muls[n - 1]) else 0)
  }

  /** The products of all muls at offsets below `n`. */
  function SumBelow(muls: Muls, n: nat): nat
  {
    if n == 0 then 0
    else SumBelow(muls, n - 1) + (if n - 1 in muls then Product(muls[n - 1]) else 0)
  }

  function RestrictBelow(muls: Muls, n: nat): Muls
  {
    map k | k in muls && k < n :: muls[k]
  }

  /** A mul is disabled exactly when the nearest earlier marker is a
      `don't()`; with no earlier marker it is enabled. */
  lemma {:induction false} DisabledIff(muls: Muls, dos: set<nat>, donts: set<nat>, i: nat)
    ensures Disabled(muls, dos, donts, i)
        <==> exists j :: 0 <= j < i && IsDont(muls, dos, donts, j)
                         && forall k :: j < k < i ==> !IsDo(muls, dos, k)
  {
    if i > 0 {
      DisabledIff(muls, dos, donts, i - 1);
      if IsDont(muls, dos, donts, i - 1) {
        assert Disabled(muls, dos, donts, i);
      } else if IsDo(muls, dos, i - 1) {
        assert !Disabled(muls, dos, donts, i);
      } else if Disabled(muls, dos, donts, i) {
        var j :| 0 <= j < i - 1 && IsDont(muls, dos, donts, j)
                 && forall k :: j < k < i - 1 ==> !IsDo(muls, dos, k);
        assert forall k :: j < k < i ==> !IsDo(muls, dos, k);
      }
    }
  }

  lemma {:induction false} SumBelowIsSumProducts(muls: Muls, n: nat)
    ensures SumBelow(muls, n) == SumProducts(RestrictBelow(muls, n))
  {
    if n == 0 {
      assert RestrictBelow(muls, 0) == map[];
    } else {
      SumBelowIsSumProducts(muls, n - 1);
      if n - 1 in muls {
        SumProductsRemove(RestrictBelow(muls, n), n - 1);
        assert RestrictBelow(muls, n) - {n - 1} == RestrictBelow(muls, n - 1);
      } else {
        assert RestrictBelow(muls, n) == RestrictBelow(muls, n - 1);
      }
    }
  }

  /** Without `don't()` markers every mul is enabled, so part 2 agrees with
      part 1; in general part 2 never exceeds it. */
  lemma {:induction false} EnabledSumBounds(muls: Muls, dos: set<nat>, donts: set<nat>, n: nat)
    ensures EnabledSum(muls, dos, donts, n) <= SumBelow(muls, n)
    ensures donts == {} ==> EnabledSum(muls, dos, donts, n) == SumBelow(muls, n)
  {
    if n > 0 {
      EnabledSumBounds(muls, dos, donts, n - 1);
      if donts == {} {
        DisabledIff(muls, dos, donts, n - 1);
      }
    }
  }

  predicate IsUpperBound(n: nat, offsets: set<nat>)
  {
    forall k :: k in offsets ==> k < n
  }

  /** Scanning past the last mul adds nothing. */
  lemma {:induction false} EnabledSumStable(muls: Muls, dos: set<nat>, donts: set<nat>, lo: nat, hi: nat)
    requires lo <= hi
    requires IsUpperBound(lo, muls.Keys)
    ensures EnabledSum(muls, dos, donts, hi) == EnabledSum(muls, dos, donts, lo)
    ensures SumBelow(muls, hi) == SumBelow(muls, lo)
    decreases hi - lo
  {
    if lo < hi {
      EnabledSumStable(muls, dos, donts, lo, hi - 1);
    }
  }

  lemma SumBelowPastAll(muls: Muls, n: nat)
    requires IsUpperBound(n, muls.Keys)
    ensures SumBelow(muls, n) == SumProducts(muls)
  {
    SumBelowIsSumProducts(muls, n);
    assert RestrictBelow(muls, n) == muls;
  }

  /** `max(...)` of a set of offsets; None for the empty set, where Python
      raises an error. */
  method MaxOffset(offsets: set<nat>) returns (m: Option<nat>)
    ensures m.None? <==> offsets == {}
    ensures m.Some? ==> m.value in offsets && forall k :: k in offsets ==> k <= m.value
  {
    m := None;
    var rest := offsets;
    while rest != {}
      invariant rest <= offsets
      invariant m.None? <==> rest == offsets
      invariant m.Some? ==> m.value in offsets && forall x :: x in offsets && x !in rest ==> x <= m.value
      decreases |rest|
    {
      var k :| k in rest;
      if m.None? || k > m.value {
        m := Some(k);
      }
      rest := rest - {k};
    }
  }

  /** part2: scan offsets 0..limit in order, starting enabled. The result
      is the enabled sum taken to any point beyond the last mul; with no
      matches at all there is no result. */
  method Part2(muls: Muls, dos: set<nat>, donts: set<nat>) returns (result: Option<nat>)
    ensures result.None? <==> muls.Keys + dos + donts == {}
    ensures result.Some? ==> forall n: nat :: IsUpperBound(n, muls.Keys) ==> result.value == EnabledSum(muls, dos, donts, n)
  {
    var limit := MaxOffset(muls.Keys + dos + donts);
    if limit.None? {
      return None;
    }
    var total, disabled := 0, false;
    var i := 0;
    while i < limit.value + 1
      invariant 0 <= i <= limit.value + 1
      invariant disabled == Disabled(muls, dos, donts, i)
      invariant total == EnabledSum(muls, dos, donts, i)
    {
      if i in muls {
        if !disabled {
          total := total + Product(muls[i]);
        }
      } else if i in dos {
        disabled := false;
      } else if i in donts {
        disabled := true;
      }
      i := i + 1;
    }
    result := Some(total);
    forall n: nat | IsUpperBound(n, muls.Keys) ensures total == EnabledSum(muls, dos, donts, n) {
      if n <= i {
        EnabledSumStable(muls, dos, donts, n, i);
      } else {
        EnabledSumStable(muls, dos, donts, i, n);
      }
    }
  }

  /** The two answers compared: part 2 ≤ part 1, with equality when there
      are no `don't()` markers. */
  lemma Part2AtMostPart1(muls: Muls, dos: set<nat>, donts: set<nat>, n: nat)
    requires IsUpperBound(n, muls.Keys)
    ensures EnabledSum(muls, dos, donts, n) <= SumProducts(muls)
    ensures donts == {} ==> EnabledSum(muls, dos, donts, n) == SumProducts(muls)
  {
    EnabledSumBounds(muls, dos, donts, n);
    SumBelowPastAll(muls, n);
  }
}
