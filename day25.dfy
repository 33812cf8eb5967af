/** Day 25: code chronicle.

    A schematic is a 5-column, 7-row picture of filled and empty cells,
    stored column by column (`schematic[c][r]`, row 0 at the top). A lock
    has its whole top row filled and its pins hang down from it; anything
    else is a key, whose teeth rise from the bottom. A height is the
    length of the filled run from the top (lock) or the bottom (key) minus
    one, and a lock and a key fit when in no column their heights add up
    to more than 5. */
module Day25 {

  const Width: nat := 5
  const Height: nat := 7
  const Slot: int := 5

  /** The shape the input reader builds: 5 columns of 7 cells. */
  predicate ValidSchematic(s: seq<seq<bool>>)
  {
    |s| == Width && forall c :: 0 <= c < Width ==> |s[c]| == Height
  }

  datatype Kind = Lock | Key

  /** `is_lock`: the top row is filled in every column. */
  predicate IsLock(s: seq<seq<bool>>)
    requires ValidSchematic(s)
  {
    forall c :: 0 <= c < Width ==> s[c][0]
  }

  // ---------------------------------------------------------------------
  // Heights

  /** The length of the filled run at the top of a column. */
  function TopRun(col: seq<bool>): nat
  {
    if col == [] || !col[0] then 0 else 1 + TopRun(col[1..])
  }

  /** The length of the filled run at the bottom of a column. */
  function BottomRun(col: seq<bool>): nat
  {
    if col == [] || !col[|col| - 1] then 0 else 1 + BottomRun(col[..|col| - 1])
  }

  /** The top run has length n exactly when the first n cells are filled
      and the next one, if any, is empty. */
  lemma {:induction false} TopRunIff(col: seq<bool>, n: nat)
    ensures TopRun(col) == n <==>
            n <= |col| && (forall i :: 0 <= i < n ==> col[i]) && (n == |col| || !col[n])
  {
    if col != [] && col[0] {
      if n > 0 {
        TopRunIff(col[1..], n - 1);
      }
    }
  }

  /** The bottom run has length n exactly when the last n cells are
      filled and the one above them, if any, is empty. */
  lemma {:induction false} BottomRunIff(col: seq<bool>, n: nat)
    ensures BottomRun(col) == n <==>
            n <= |col| && (forall i :: |col| - n <= i < |col| ==> col[i]) &&
            (n == |col| || !col[|col| - 1 - n])
  {
    if col != [] && col[|col| - 1] {
      var init := col[..|col| - 1];
      if n > 0 {
        BottomRunIff(init, n - 1);
        assert forall i :: 0 <= i < |init| ==> init[i] == col[i];
      }
    }
  }

  lemma {:induction false} RunsBounded(col: seq<bool>)
    ensures TopRun(col) <= |col| && BottomRun(col) <= |col|
  {
    if col != [] {
      RunsBounded(col[1..]);
      RunsBounded(col[..|col| - 1]);
    }
  }

  /** A column's height: the run from the top for a lock, from the
      bottom for a key, less one. */
  function ColumnHeight(col: seq<bool>, kind: Kind): (h: int)
    ensures -1 <= h <= |col| - 1
  {
    RunsBounded(col);
    (if kind == Lock then TopRun(col) else BottomRun(col)) - 1
  }

  /** One height per column, each in -1..6. */
  function HeightsOf(s: seq<seq<bool>>, kind: Kind): (r: seq<int>)
    requires ValidSchematic(s)
    ensures |r| == Width
    ensures forall c :: 0 <= c < Width ==> r[c] == ColumnHeight(s[c], kind) && -1 <= r[c] <= Height - 1
  {
    seq(Width, c requires 0 <= c < Width => ColumnHeight(s[c], kind))
  }

  /** `heights`: for each column, counts filled cells from the top (lock)
      or the bottom (key) up to the first empty one, starting at -1. */
  method Heights(s: seq<seq<bool>>, kind: Kind) returns (sizes: seq<int>)
    requires ValidSchematic(s)
    ensures sizes == HeightsOf(s, kind)
  {
    sizes := seq(Width, _ => -1);
    for c := 0 to Width
      invariant |sizes| == Width
      invariant forall c' :: 0 <= c' < c ==> sizes[c'] == HeightsOf(s, kind)[c']
      invariant forall c' :: c <= c' < Width ==> sizes[c'] == -1
    {
      var col := s[c];
      ghost var before := sizes;
      if kind == Lock {
        var r := 0;
        while r < Height && col[r]
          invariant 0 <= r <= Height && |sizes| == Width
          invariant forall i :: 0 <= i < r ==> col[i]
          invariant sizes[c] == r - 1
          invariant forall c' :: 0 <= c' < Width && c' != c ==> sizes[c'] == before[c']
        {
          sizes := sizes[c := sizes[c] + 1];
          r := r + 1;
        }
        TopRunIff(col, r);
      } else {
        var r := Height;
        while r > 0 && col[r - 1]
          invariant 0 <= r <= Height && |sizes| == Width
          invariant forall i :: r <= i < Height ==> col[i]
          invariant sizes[c] == Height - r - 1
          invariant forall c' :: 0 <= c' < Width && c' != c ==> sizes[c'] == before[c']
        {
          sizes := sizes[c := sizes[c] + 1];
          r := r - 1;
        }
        BottomRunIff(col, Height - r);
      }
    }
  }

  // ---------------------------------------------------------------------
  // Fitting

  /** `fits`: no column's lock and key heights add up to more than 5. */
  predicate Fits(lock: seq<int>, key: seq<int>)
    requires |lock| == Width && |key| == Width
  {
    forall c :: 0 <= c < Width ==> lock[c] + key[c] <= Slot
  }

  /** A lock and a key fit exactly when in every column the lock's pin
      and the key's tooth leave each other room: their filled runs
      together take no more than the 7 cells. */
  lemma FitsIffRoom(lock: seq<seq<bool>>, key: seq<seq<bool>>)
    requires ValidSchematic(lock) && ValidSchematic(key)
    ensures Fits(HeightsOf(lock, Lock), HeightsOf(key, Key)) <==>
            forall c :: 0 <= c < Width ==> TopRun(lock[c]) + BottomRun(key[c]) <= Height
  {
  }

  /** The fitting keys for one lock. */
  function CountKeys(lock: seq<int>, keys: seq<seq<int>>): (r: nat)
    requires |lock| == Width && forall j :: 0 <= j < |keys| ==> |keys[j]| == Width
    ensures r <= |keys|
  {
    if keys == [] then 0
    else CountKeys(lock, keys[..|keys| - 1]) + (if Fits(lock, keys[|keys| - 1]) then 1 else 0)
  }

  /** The fitting (lock, key) pairs. */
  function CountPairs(locks: seq<seq<int>>, keys: seq<seq<int>>): nat
    requires forall i :: 0 <= i < |locks| ==> |locks[i]| == Width
    requires forall j :: 0 <= j < |keys| ==> |keys[j]| == Width
  {
    if locks == [] then 0
    else CountPairs(locks[..|locks| - 1], keys) + CountKeys(locks[|locks| - 1], keys)
  }

  /** No more pairs fit than there are pairs. */
  lemma {:induction false} CountPairsBound(locks: seq<seq<int>>, keys: seq<seq<int>>)
    requires forall i :: 0 <= i < |locks| ==> |locks[i]| == Width
    requires forall j :: 0 <= j < |keys| ==> |keys[j]| == Width
    ensures CountPairs(locks, keys) <= |locks| * |keys|
  {
    if locks != [] {
      CountPairsBound(locks[..|locks| - 1], keys);
      assert (|locks| - 1) * |keys| + |keys| == |locks| * |keys|;
    }
  }

  // ---------------------------------------------------------------------
  // Part 1

  /** The heights of the locks, in input order. */
  function LockHeights(schematics: seq<seq<seq<bool>>>): (r: seq<seq<int>>)
    requires forall i :: 0 <= i < |schematics| ==> ValidSchematic(schematics[i])
    ensures forall i :: 0 <= i < |r| ==> |r[i]| == Width
  {
    if schematics == [] then []
    else
      var last := schematics[|schematics| - 1];
      LockHeights(schematics[..|schematics| - 1]) +
      (if IsLock(last) then [HeightsOf(last, Lock)] else [])
  }

  /** The heights of the keys, in input order. */
  function KeyHeights(schematics: seq<seq<seq<bool>>>): (r: seq<seq<int>>)
    requires forall i :: 0 <= i < |schematics| ==> ValidSchematic(schematics[i])
    ensures forall i :: 0 <= i < |r| ==> |r[i]| == Width
  {
    if schematics == [] then []
    else
      var last := schematics[|schematics| - 1];
      KeyHeights(schematics[..|schematics| - 1]) +
      (if IsLock(last) then [] else [HeightsOf(last, Key)])
  }

  /** Every schematic is exactly one of a lock and a key. */
  lemma {:induction false} Partition(schematics: seq<seq<seq<bool>>>)
    requires forall i :: 0 <= i < |schematics| ==> ValidSchematic(schematics[i])
    ensures |LockHeights(schematics)| + |KeyHeights(schematics)| == |schematics|
  {
    if schematics != [] {
      Partition(schematics[..|schematics| - 1]);
    }
  }

  /** The fitting keys for one lock, by a loop. */
  method CountFitting(lock: seq<int>, keys: seq<seq<int>>) returns (count: nat)
    requires |lock| == Width && forall j :: 0 <= j < |keys| ==> |keys[j]| == Width
    ensures count == CountKeys(lock, keys)
  {
    count := 0;
    for j := 0 to |keys|
      invariant count == CountKeys(lock, keys[..j])
    {
      assert keys[..j + 1][..j] == keys[..j];
      if Fits(lock, keys[j]) {
        count := count + 1;
      }
    }
    assert keys[..|keys|] == keys;
  }

  /** `part1`: sorts the schematics into locks and keys, then counts the
      pairs that fit. */
  method Part1(schematics: seq<seq<seq<bool>>>) returns (count: nat)
    requires forall i :: 0 <= i < |schematics| ==> ValidSchematic(schematics[i])
    ensures count == CountPairs(LockHeights(schematics), KeyHeights(schematics))
  {
    var locks: seq<seq<int>> := [];
    var keys: seq<seq<int>> := [];
    for i := 0 to |schematics|
      invariant locks == LockHeights(schematics[..i]) && keys == KeyHeights(schematics[..i])
    {
      assert schematics[..i + 1][..i] == schematics[..i];
      var schematic := schematics[i];
      if IsLock(schematic) {
        var h := Heights(schematic, Lock);
        locks := locks + [h];
      } else {
        var h := Heights(schematic, Key);
        keys := keys + [h];
      }
    }
    assert schematics[..|schematics|] == schematics;
    count := 0;
    for i := 0 to |locks|
      invariant count == CountPairs(locks[..i], keys)
    {
      assert locks[..i + 1][..i] == locks[..i];
      var n := CountFitting(locks[i], keys);
      count := count + n;
    }
    assert locks[..|locks|] == locks;
  }
}
