/** Day 2: reports of levels that are safe when they change monotonically
    by one to three per step, possibly after dropping one level. */
module Day02 {

  /** Adjacent differences `b - a` of consecutive levels. */
  function Diffs(vals: seq<int>): (d: seq<int>)
    ensures |d| == if |vals| < 2 then 0 else |vals| - 1
    ensures forall k :: 0 <= k < |d| ==> d[k] == vals[k + 1] - vals[k]
  {
    if |vals| < 2 then [] else [vals[1] - vals[0]] + Diffs(vals[1..])
  }

  predicate AllIncreasing(d: seq<int>)
  {
    forall k :: 0 <= k < |d| ==> 1 <= d[k] <= 3
  }

  predicate AllDecreasing(d: seq<int>)
  {
    forall k :: 0 <= k < |d| ==> 1 <= -d[k] <= 3
  }

  /** `is_save`: all differences in 1..3, or all in -3..-1. */
  predicate IsSafe(vals: seq<int>)
  {
    var d := Diffs(vals);
    AllIncreasing(d) || AllDecreasing(d)
  }

  /** `drop_level`: the report without the level at index `i`. */
  function DropLevel(vals: seq<int>, i: nat): (r: seq<int>)
    requires i < |vals|
    ensures |r| == |vals| - 1
    ensures forall k :: 0 <= k < i ==> r[k] == vals[k]
    ensures forall k :: i <= k < |r| ==> r[k] == vals[k + 1]
  {
    vals[..i] + vals[i + 1..]
  }

  /** Safe as-is, or safe after dropping exactly one level. */
  predicate IsTolerable(vals: seq<int>)
  {
    IsSafe(vals) || exists i :: 0 <= i < |vals| && IsSafe(DropLevel(vals, i))
  }

  function CountSafe(data: seq<seq<int>>): nat
  {
    if data == [] then 0
    else CountSafe(data[..|data| - 1]) + (if IsSafe(data[|data| - 1]) then 1 else 0)
  }

  function CountTolerable(data: seq<seq<int>>): nat
  {
    if data == [] then 0
    else CountTolerable(data[..|data| - 1]) + (if IsTolerable(data[|data| - 1]) then 1 else 0)
  }

  /** Fewer than two levels: no differences, hence safe. */
  lemma ShortReportIsSafe(vals: seq<int>)
    requires |vals| < 2
    ensures IsSafe(vals)
  {
  }

  /** A safe report is strictly monotone, with steps of at most 3. */
  lemma {:induction false} SafeIsStrictlyMonotone(vals: seq<int>)
    requires IsSafe(vals)
    ensures (forall i, j :: 0 <= i < j < |vals| ==> vals[i] < vals[j] <= vals[i] + 3 * (j - i))
         || (forall i, j :: 0 <= i < j < |vals| ==> vals[i] > vals[j] >= vals[i] - 3 * (j - i))
  {
    var d := Diffs(vals);
    if AllIncreasing(d) {
      forall i, j | 0 <= i < j < |vals| ensures vals[i] < vals[j] <= vals[i] + 3 * (j - i) {
        StepBound(vals, i, j, true);
      }
    } else {
      forall i, j | 0 <= i < j < |vals| ensures vals[i] > vals[j] >= vals[i] - 3 * (j - i) {
        StepBound(vals, i, j, false);
      }
    }
  }

  lemma {:induction false} StepBound(vals: seq<int>, i: nat, j: nat, inc: bool)
    requires i < j < |vals|
    requires inc ==> AllIncreasing(Diffs(vals))
    requires !inc ==> AllDecreasing(Diffs(vals))
    ensures inc ==> vals[i] < vals[j] <= vals[i] + 3 * (j - i)
    ensures !inc ==> vals[i] > vals[j] >= vals[i] - 3 * (j - i)
  {
    var d := Diffs(vals);
    assert d[j - 1] == vals[j] - vals[j - 1];
    if i < j - 1 {
      StepBound(vals, i, j - 1, inc);
    }
  }

  /** Dropping the first level of a safe report keeps it safe, so a
      tolerable report needs no level removed in that case. */
  lemma DropFirstKeepsSafe(vals: seq<int>)
    requires IsSafe(vals) && |vals| > 0
    ensures IsSafe(DropLevel(vals, 0))
  {
    var v' := DropLevel(vals, 0);
    var d, d' := Diffs(vals), Diffs(v');
    forall k | 0 <= k < |d'| ensures d'[k] == d[k + 1] {
      assert d'[k] == v'[k + 1] - v'[k] == vals[k + 2] - vals[k + 1];
    }
  }

  lemma {:induction false} CountSafeBound(data: seq<seq<int>>)
    ensures CountSafe(data) <= CountTolerable(data) <= |data|
  {
    if data != [] {
      CountSafeBound(data[..|data| - 1]);
    }
  }

  method Part1(data: seq<seq<int>>) returns (safe: nat)
    ensures safe == CountSafe(data)
    ensures safe <= |data|
  {
    safe := 0;
    var n := 0;
    while n < |data|
      invariant 0 <= n <= |data|
      invariant safe == CountSafe(data[..n])
    {
      assert data[..n + 1][..n] == data[..n];
      if IsSafe(data[n]) {
        safe := safe + 1;
      }
      n := n + 1;
    }
    assert data[..n] == data;
    CountSafeBound(data);
  }

  /** `any(is_save(d) for d in dampened)` as a search over the indices. */
  method AnyDampenedSafe(vals: seq<int>) returns (found: bool)
    ensures found <==> exists i :: 0 <= i < |vals| && IsSafe(DropLevel(vals, i))
  {
    found := false;
    var i := 0;
    while i < |vals| && !found
      invariant 0 <= i <= |vals|
      invariant found <==> exists k :: 0 <= k < i && IsSafe(DropLevel(vals, k))
    {
      found := IsSafe(DropLevel(vals, i));
      i := i + 1;
    }
  }

  method Part2(data: seq<seq<int>>) returns (safe: nat)
    ensures safe == CountTolerable(data)
    ensures CountSafe(data) <= safe <= |data|
  {
    safe := 0;
    var n := 0;
    while n < |data|
      invariant 0 <= n <= |data|
      invariant safe == CountTolerable(data[..n])
    {
      assert data[..n + 1][..n] == data[..n];
      var ok := IsSafe(data[n]);
      if !ok {
        ok := AnyDampenedSafe(data[n]);
      }
      if ok {
        safe := safe + 1;
      }
      n := n + 1;
    }
    assert data[..n] == data;
    CountSafeBound(data);
  }
}
