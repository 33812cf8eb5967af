/** Day 14: robots on a torus of w × h tiles, each with a position and a
    constant velocity. Every second each robot moves by its velocity and
    wraps around the edges. Part 1 multiplies the robot counts of the four
    quadrants after 100 seconds (robots on the middle row or column are in
    none); part 2 reports the first second at which at least three rows of
    the occupancy grid hold a run of at least five occupied tiles. */
module Day14 {
  import opened Common

  datatype Robot = Robot(pos: Point, vel: Point)

  predicate InRange(p: Point, w: nat, h: nat)
  {
    0 <= p.re < w && 0 <= p.im < h
  }

  // ---------------------------------------------------------------------
  // Wrapping

  /** The unique quotient and remainder: if x = q·w + r with 0 <= r < w,
      then r is x % w (floor remainder, as in Python for w > 0). */
  lemma ModUnique(x: int, q: int, r: int, w: int)
    requires w > 0 && 0 <= r < w && x == q * w + r
    ensures x % w == r
  {
    var q', r' := x / w, x % w;
    assert x == q' * w + r';
    if q > q' {
      MulAtLeast(q - q', w);
    } else if q < q' {
      MulAtLeast(q' - q, w);
    }
  }

  lemma {:induction false} MulAtLeast(d: int, w: int)
    requires d >= 1 && w >= 0
    ensures d * w >= w
  {
    if d > 1 {
      MulAtLeast(d - 1, w);
      assert d * w == (d - 1) * w + w;
    }
  }

  /** Reduction of each coordinate into [0, w) × [0, h), with the floor
      remainder that keeps negative coordinates on the board. */
  function Wrap(p: Point, w: nat, h: nat): (r: Point)
    requires w > 0 && h > 0
    ensures InRange(r, w, h)
  {
    Point(p.re % w, p.im % h)
  }

  /** Wrap is the only in-range point congruent to p in both coordinates. */
  lemma WrapUnique(p: Point, qx: int, qy: int, r: Point, w: nat, h: nat)
    requires w > 0 && h > 0 && InRange(r, w, h)
    requires p.re == qx * w + r.re && p.im == qy * h + r.im
    ensures Wrap(p, w, h) == r
  {
    ModUnique(p.re, qx, r.re, w);
    ModUnique(p.im, qy, r.im, h);
  }

  lemma WrapCongruent(p: Point, w: nat, h: nat)
    requires w > 0 && h > 0
    ensures p.re == (p.re / w) * w + Wrap(p, w, h).re
    ensures p.im == (p.im / h) * h + Wrap(p, w, h).im
  {
  }

  /** A negative coordinate wraps to the far edge. */
  lemma WrapNegative(w: nat, h: nat)
    requires w > 0 && h > 0
    ensures Wrap(Point(-1, -1), w, h) == Point(w - 1, h - 1)
  {
    WrapUnique(Point(-1, -1), -1, -1, Point(w - 1, h - 1), w, h);
  }

  /** Wrapping before adding makes no difference after the next wrap. */
  lemma {:induction false} WrapAdd(p: Point, v: Point, w: nat, h: nat)
    requires w > 0 && h > 0
    ensures Wrap(Wrap(p, w, h).Add(v), w, h) == Wrap(p.Add(v), w, h)
  {
    var a := Wrap(p, w, h).Add(v);
    var r := Wrap(a, w, h);
    WrapCongruent(p, w, h);
    WrapCongruent(a, w, h);
    assert p.Add(v).re == (p.re / w + a.re / w) * w + r.re;
    assert p.Add(v).im == (p.im / h + a.im / h) * h + r.im;
    WrapUnique(p.Add(v), p.re / w + a.re / w, p.im / h + a.im / h, r, w, h);
  }

  lemma WrapInRange(p: Point, w: nat, h: nat)
    requires w > 0 && h > 0 && InRange(p, w, h)
    ensures Wrap(p, w, h) == p
  {
    WrapUnique(p, 0, 0, p, w, h);
  }

  // ---------------------------------------------------------------------
  // Moving

  function Step(r: Robot, w: nat, h: nat): (s: Robot)
    requires w > 0 && h > 0
    ensures s.vel == r.vel && InRange(s.pos, w, h)
  {
    Robot(Wrap(r.pos.Add(r.vel), w, h), r.vel)
  }

  function StepAll(rs: seq<Robot>, w: nat, h: nat): (s: seq<Robot>)
    requires w > 0 && h > 0
    ensures |s| == |rs|
  {
    seq(|rs|, i requires 0 <= i < |rs| => Step(rs[i], w, h))
  }

  /** The robots after k seconds. */
  function Iterate(rs: seq<Robot>, k: nat, w: nat, h: nat): (s: seq<Robot>)
    requires w > 0 && h > 0
    ensures |s| == |rs|
  {
    if k == 0 then rs else StepAll(Iterate(rs, k - 1, w, h), w, h)
  }

  /** One more second is one more step of every robot. */
  lemma IterateSucc(rs: seq<Robot>, k: nat, w: nat, h: nat)
    requires w > 0 && h > 0
    ensures Iterate(rs, 0, w, h) == rs
    ensures Iterate(rs, k + 1, w, h) == StepAll(Iterate(rs, k, w, h), w, h)
  {
  }

  /** Every robot moves by its velocity, in place. */
  method Move(robots: array<Robot>, w: nat, h: nat)
    requires w > 0 && h > 0
    modifies robots
    ensures robots[..] == StepAll(old(robots[..]), w, h)
  {
    for i := 0 to robots.Length
      invariant forall j :: 0 <= j < i ==> robots[j] == Step(old(robots[j]), w, h)
      invariant forall j :: i <= j < robots.Length ==> robots[j] == old(robots[j])
    {
      var pos := Wrap(robots[i].pos.Add(robots[i].vel), w, h);
      robots[i] := Robot(pos, robots[i].vel);
    }
  }

  /** After k >= 1 seconds a robot stands at wrap(p + k·v), keeping its
      velocity, whatever positions it passed in between. */
  lemma {:induction false} IterateClosed(rs: seq<Robot>, k: nat, w: nat, h: nat)
    requires w > 0 && h > 0 && k >= 1
    ensures forall i :: 0 <= i < |rs| ==>
      Iterate(rs, k, w, h)[i] == Robot(Wrap(rs[i].pos.Add(rs[i].vel.Scale(k)), w, h), rs[i].vel)
  {
    if k > 1 {
      IterateClosed(rs, k - 1, w, h);
      forall i | 0 <= i < |rs|
        ensures Iterate(rs, k, w, h)[i] == Robot(Wrap(rs[i].pos.Add(rs[i].vel.Scale(k)), w, h), rs[i].vel)
      {
        var p, v := rs[i].pos, rs[i].vel;
        WrapAdd(p.Add(v.Scale(k - 1)), v, w, h);
        assert p.Add(v.Scale(k - 1)).Add(v) == p.Add(v.Scale(k));
      }
    }
  }

  /** Once moved, every robot is on the board. */
  lemma IterateInRange(rs: seq<Robot>, k: nat, w: nat, h: nat)
    requires w > 0 && h > 0 && k >= 1
    ensures forall i :: 0 <= i < |rs| ==> InRange(Iterate(rs, k, w, h)[i].pos, w, h)
  {
  }

  // ---------------------------------------------------------------------
  // Quadrants

  /** The quadrant a position is counted in (1 to 4, in the order of the
      tests), or 0 on the middle row or column. */
  function Quadrant(p: Point, w: nat, h: nat): nat
  {
    var midx, midy := w / 2, h / 2;
    if p.re < midx && p.im < midy then 1
    else if p.re > midx && p.im < midy then 2
    else if p.re < midx && p.im > midy then 3
    else if p.re > midx && p.im > midy then 4
    else 0
  }

  /** The tests are mutually exclusive, so each quadrant is exactly its own
      open rectangle, and the middle lines belong to none. */
  lemma QuadrantExact(p: Point, w: nat, h: nat)
    ensures Quadrant(p, w, h) == 1 <==> p.re < w / 2 && p.im < h / 2
    ensures Quadrant(p, w, h) == 2 <==> p.re > w / 2 && p.im < h / 2
    ensures Quadrant(p, w, h) == 3 <==> p.re < w / 2 && p.im > h / 2
    ensures Quadrant(p, w, h) == 4 <==> p.re > w / 2 && p.im > h / 2
    ensures Quadrant(p, w, h) == 0 <==> p.re == w / 2 || p.im == h / 2
  {
  }

  /** The number of robots in quadrant q. */
  function QuadCount(rs: seq<Robot>, w: nat, h: nat, q: nat): nat
  {
    if rs == [] then 0
    else QuadCount(rs[..|rs| - 1], w, h, q) + (if Quadrant(rs[|rs| - 1].pos, w, h) == q then 1 else 0)
  }

  method CountQuadrants(robots: seq<Robot>, w: nat, h: nat) returns (q1: nat, q2: nat, q3: nat, q4: nat)
    ensures q1 == QuadCount(robots, w, h, 1) && q2 == QuadCount(robots, w, h, 2)
    ensures q3 == QuadCount(robots, w, h, 3) && q4 == QuadCount(robots, w, h, 4)
  {
    var midx, midy := w / 2, h / 2;
    q1, q2, q3, q4 := 0, 0, 0, 0;
    for i := 0 to |robots|
      invariant q1 == QuadCount(robots[..i], w, h, 1) && q2 == QuadCount(robots[..i], w, h, 2)
      invariant q3 == QuadCount(robots[..i], w, h, 3) && q4 == QuadCount(robots[..i], w, h, 4)
    {
      assert robots[..i + 1][..i] == robots[..i];
      var pos := robots[i].pos;
      if pos.re < midx && pos.im < midy {
        q1 := q1 + 1;
      } else if pos.re > midx && pos.im < midy {
        q2 := q2 + 1;
      } else if pos.re < midx && pos.im > midy {
        q3 := q3 + 1;
      } else if pos.re > midx && pos.im > midy {
        q4 := q4 + 1;
      }
    }
    assert robots[..|robots|] == robots;
  }

  /** Every robot is in exactly one quadrant or on a middle line, so the
      four counts add up to at most the number of robots. */
  lemma {:induction false} QuadrantsPartition(rs: seq<Robot>, w: nat, h: nat)
    ensures QuadCount(rs, w, h, 1) + QuadCount(rs, w, h, 2) + QuadCount(rs, w, h, 3)
          + QuadCount(rs, w, h, 4) + QuadCount(rs, w, h, 0) == |rs|
    ensures QuadCount(rs, w, h, 1) + QuadCount(rs, w, h, 2) + QuadCount(rs, w, h, 3)
          + QuadCount(rs, w, h, 4) <= |rs|
  {
    if rs != [] {
      QuadrantsPartition(rs[..|rs| - 1], w, h);
    }
  }

  /** The safety factor after 100 seconds. */
  method Part1(robots: array<Robot>, w: nat, h: nat) returns (result: int)
    requires w > 0 && h > 0
    modifies robots
    ensures robots[..] == Iterate(old(robots[..]), 100, w, h)
    ensures result == QuadCount(robots[..], w, h, 1) * QuadCount(robots[..], w, h, 2)
                    * QuadCount(robots[..], w, h, 3) * QuadCount(robots[..], w, h, 4)
  {
    hide Iterate, StepAll, QuadCount;
    IterateSucc(robots[..], 0, w, h);
    for k := 0 to 100
      invariant robots[..] == Iterate(old(robots[..]), k, w, h)
    {
      IterateSucc(old(robots[..]), k, w, h);
      Move(robots, w, h);
    }
    var q1, q2, q3, q4 := CountQuadrants(robots[..], w, h);
    result := q1 * q2 * q3 * q4;
  }

  // ---------------------------------------------------------------------
  // The occupancy grid

  /** The number of robots standing on p. */
  function CountAt(rs: seq<Robot>, p: Point): nat
  {
    if rs == [] then 0
    else CountAt(rs[..|rs| - 1], p) + (if rs[|rs| - 1].pos == p then 1 else 0)
  }

  /** An h × w grid of zeros where every robot adds one to its tile. */
  method MakeGrid(robots: seq<Robot>, w: nat, h: nat) returns (grid: array2<nat>)
    requires forall i :: 0 <= i < |robots| ==> InRange(robots[i].pos, w, h)
    ensures fresh(grid) && grid.Length0 == h && grid.Length1 == w
    ensures forall y, x :: 0 <= y < h && 0 <= x < w ==> grid[y, x] == CountAt(robots, Point(x, y))
  {
    grid := new nat[h, w]((y, x) => 0);
    for i := 0 to |robots|
      invariant forall y, x :: 0 <= y < h && 0 <= x < w ==> grid[y, x] == CountAt(robots[..i], Point(x, y))
    {
      assert robots[..i + 1][..i] == robots[..i];
      var pos := robots[i].pos;
      grid[pos.im, pos.re] := grid[pos.im, pos.re] + 1;
    }
    assert robots[..|robots|] == robots;
  }

  /** Σ over x < n of the robots on (x, y). */
  function RowTotal(rs: seq<Robot>, y: int, n: nat): nat
  {
    if n == 0 then 0 else RowTotal(rs, y, n - 1) + CountAt(rs, Point(n - 1, y))
  }

  /** Σ over the first m rows of the row totals. */
  function GridTotal(rs: seq<Robot>, w: nat, m: nat): nat
  {
    if m == 0 then 0 else GridTotal(rs, w, m - 1) + RowTotal(rs, m - 1, w)
  }

  function Indicator(b: bool): nat { if b then 1 else 0 }

  lemma {:induction false} RowTotalSnoc(rs: seq<Robot>, r: Robot, y: int, n: nat)
    ensures RowTotal(rs + [r], y, n) == RowTotal(rs, y, n)
      + Indicator(r.pos.im == y && 0 <= r.pos.re < n)
  {
    if n > 0 {
      RowTotalSnoc(rs, r, y, n - 1);
      assert (rs + [r])[..|rs + [r]| - 1] == rs;
    }
  }

  lemma {:induction false} GridTotalSnoc(rs: seq<Robot>, r: Robot, w: nat, m: nat)
    ensures GridTotal(rs + [r], w, m) == GridTotal(rs, w, m)
      + Indicator(0 <= r.pos.im < m && 0 <= r.pos.re < w)
  {
    if m > 0 {
      GridTotalSnoc(rs, r, w, m - 1);
      RowTotalSnoc(rs, r, m - 1, w);
    }
  }

  /** The grid's counts add up to the number of robots, when all of them
      are on the board. */
  lemma {:induction false} GridTotalIsCount(rs: seq<Robot>, w: nat, h: nat)
    requires forall i :: 0 <= i < |rs| ==> InRange(rs[i].pos, w, h)
    ensures GridTotal(rs, w, h) == |rs|
  {
    if rs == [] {
      GridTotalEmpty(w, h);
    } else {
      var init := rs[..|rs| - 1];
      GridTotalIsCount(init, w, h);
      GridTotalSnoc(init, rs[|rs| - 1], w, h);
      assert init + [rs[|rs| - 1]] == rs;
    }
  }

  lemma {:induction false} GridTotalEmpty(w: nat, m: nat)
    ensures GridTotal([], w, m) == 0
  {
    if m > 0 {
      GridTotalEmpty(w, m - 1);
      RowTotalEmpty(m - 1, w);
    }
  }

  lemma {:induction false} RowTotalEmpty(y: int, n: nat)
    ensures RowTotal([], y, n) == 0
  {
    if n > 0 {
      RowTotalEmpty(y, n - 1);
    }
  }

  // ---------------------------------------------------------------------
  // Runs of occupied tiles

  /** The run lengths that the row scan records: a new 0 at every empty
      tile, the last entry incremented at every occupied one. */
  function Runs(row: seq<nat>): (spans: seq<nat>)
    ensures |spans| >= 1
  {
    if row == [] then [0]
    else
      var s := Runs(row[..|row| - 1]);
      if row[|row| - 1] > 0 then s[..|s| - 1] + [s[|s| - 1] + 1] else s + [0]
  }

  /** Python's max over a non-empty list. */
  function SeqMax(s: seq<nat>): (m: nat)
    requires |s| >= 1
    ensures m in s && forall k :: 0 <= k < |s| ==> s[k] <= m
  {
    if |s| == 1 then s[0] else Max(SeqMax(s[..|s| - 1]), s[|s| - 1])
  }

  /** The number of occupied tiles at the end of the row. */
  function Trail(row: seq<nat>): nat
  {
    if row == [] then 0 else if row[|row| - 1] > 0 then Trail(row[..|row| - 1]) + 1 else 0
  }

  /** The length of the longest run of occupied tiles. */
  function Longest(row: seq<nat>): nat
  {
    if row == [] then 0 else Max(Longest(row[..|row| - 1]), Trail(row))
  }

  predicate Occupied(row: seq<nat>, i: int, j: int)
    requires 0 <= i <= j <= |row|
  {
    forall k :: i <= k < j ==> row[k] > 0
  }

  /** The m tiles from i on lie in the row and are all occupied. */
  predicate RunAt(row: seq<nat>, i: int, m: nat)
  {
    0 <= i <= |row| - m && Occupied(row, i, i + m)
  }

  /** The scan's last entry is the trailing run, and its maximum the
      longest run. */
  lemma {:induction false} RunsMax(row: seq<nat>)
    ensures Runs(row)[|Runs(row)| - 1] == Trail(row)
    ensures SeqMax(Runs(row)) == Longest(row)
  {
    if row != [] {
      var init := row[..|row| - 1];
      RunsMax(init);
      var s := Runs(init);
      if row[|row| - 1] > 0 && |s| > 1 {
        var p := s[..|s| - 1];
        assert Runs(row)[..|Runs(row)| - 1] == p;
        assert s[..|s| - 1] == p;
      } else if row[|row| - 1] == 0 {
        assert Runs(row)[..|Runs(row)| - 1] == s;
      }
    }
  }

  /** The trailing run is occupied and bounded by an empty tile or the
      start of the row. */
  lemma {:induction false} TrailShape(row: seq<nat>)
    ensures Trail(row) <= |row| && Occupied(row, |row| - Trail(row), |row|)
    ensures Trail(row) < |row| ==> row[|row| - Trail(row) - 1] == 0
  {
    if row != [] && row[|row| - 1] > 0 {
      TrailShape(row[..|row| - 1]);
    }
  }

  /** Every occupied suffix is no longer than the trailing run. */
  lemma {:induction false} TrailMaximal(row: seq<nat>, i: nat)
    requires i <= |row| && Occupied(row, i, |row|)
    ensures |row| - i <= Trail(row)
  {
    if i < |row| {
      var init := row[..|row| - 1];
      assert Occupied(init, i, |init|) by {
        forall k | i <= k < |init| ensures init[k] > 0 {
          assert init[k] == row[k];
        }
      }
      TrailMaximal(init, i);
    }
  }

  /** Longest(row) is the length of a longest run of occupied tiles: one
      run has that length and none is longer. */
  lemma {:induction false} LongestIsLongest(row: seq<nat>)
    ensures Longest(row) <= |row|
    ensures exists i :: RunAt(row, i, Longest(row))
    ensures forall i, j :: 0 <= i <= j <= |row| && Occupied(row, i, j) ==> j - i <= Longest(row)
  {
    if row == [] {
      assert RunAt(row, 0, 0);
    } else {
      var init := row[..|row| - 1];
      LongestIsLongest(init);
      TrailShape(row);
      if Longest(row) == Trail(row) {
        assert RunAt(row, |row| - Trail(row), Longest(row));
      } else {
        var i :| RunAt(init, i, Longest(init));
        assert RunAt(row, i, Longest(row));
      }
      forall i, j | 0 <= i <= j <= |row| && Occupied(row, i, j)
        ensures j - i <= Longest(row)
      {
        if j == |row| {
          TrailMaximal(row, i);
        } else {
          assert Occupied(init, i, j);
        }
      }
    }
  }

  // ---------------------------------------------------------------------
  // The tree heuristic and part 2

  /** Row y of the occupancy grid. */
  function Row(rs: seq<Robot>, y: int, w: nat): (row: seq<nat>)
    ensures |row| == w
  {
    seq(w, x => CountAt(rs, Point(x, y)))
  }

  /** The longest run of every row. */
  function LongestPerRow(rs: seq<Robot>, w: nat, h: nat): (m: seq<nat>)
    ensures |m| == h
  {
    seq(h, y => Longest(Row(rs, y, w)))
  }

  /** How many entries are at least 5. */
  function CountLong(spans: seq<nat>): nat
  {
    if spans == [] then 0
    else CountLong(spans[..|spans| - 1]) + (if spans[|spans| - 1] >= 5 then 1 else 0)
  }

  /** CountLong counts exactly the entries that are at least 5. */
  lemma {:induction false} CountLongExact(spans: seq<nat>)
    ensures CountLong(spans) == |set k | 0 <= k < |spans| && spans[k] >= 5|
  {
    if spans != [] {
      var n := |spans| - 1;
      CountLongExact(spans[..n]);
      var a := set k | 0 <= k < n && spans[..n][k] >= 5;
      var b := set k | 0 <= k < |spans| && spans[k] >= 5;
      if spans[n] >= 5 {
        assert b == a + {n};
      } else {
        assert b == a;
      }
    }
  }

  /** At least three rows hold a run of at least five occupied tiles. */
  predicate IsTree(rs: seq<Robot>, w: nat, h: nat)
  {
    CountLong(LongestPerRow(rs, w, h)) >= 3
  }

  /** The spans of row y: a new 0 at every empty tile, the last entry
      incremented at every occupied one. */
  method ScanRow(grid: array2<nat>, y: nat, ghost row: seq<nat>) returns (spans: seq<nat>)
    requires y < grid.Length0 && |row| == grid.Length1
    requires forall x :: 0 <= x < |row| ==> grid[y, x] == row[x]
    ensures spans == Runs(row)
  {
    spans := [0];
    for x := 0 to grid.Length1
      invariant spans == Runs(row[..x])
    {
      assert row[..x + 1][..x] == row[..x];
      if grid[y, x] > 0 {
        spans := spans[..|spans| - 1] + [spans[|spans| - 1] + 1];
      } else {
        spans := spans + [0];
      }
    }
    assert row[..grid.Length1] == row;
  }

  /** Appending the next row's longest run extends the per-row list. */
  lemma LongestPerRowSnoc(rs: seq<Robot>, w: nat, y: nat)
    ensures LongestPerRow(rs, w, y + 1) == LongestPerRow(rs, w, y) + [Longest(Row(rs, y, w))]
  {
    assert forall k :: 0 <= k < y ==> LongestPerRow(rs, w, y + 1)[k] == LongestPerRow(rs, w, y)[k];
  }

  /** The longest run of every row of the grid, row by row. */
  method LongestRows(grid: array2<nat>, robots: seq<Robot>, w: nat, h: nat) returns (maxspans: seq<nat>)
    requires grid.Length0 == h && grid.Length1 == w
    requires forall y, x :: 0 <= y < h && 0 <= x < w ==> grid[y, x] == CountAt(robots, Point(x, y))
    ensures maxspans == LongestPerRow(robots, w, h)
  {
    maxspans := [];
    for y := 0 to h
      invariant maxspans == LongestPerRow(robots, w, y)
    {
      ghost var row := Row(robots, y, w);
      var spans := ScanRow(grid, y, row);
      RunsMax(row);
      LongestPerRowSnoc(robots, w, y);
      maxspans := maxspans + [SeqMax(spans)];
    }
  }

  method TreeHeuristic(robots: seq<Robot>, w: nat, h: nat) returns (tree: bool)
    requires forall i :: 0 <= i < |robots| ==> InRange(robots[i].pos, w, h)
    ensures tree <==> IsTree(robots, w, h)
  {
    var grid := MakeGrid(robots, w, h);
    var maxspans := LongestRows(grid, robots, w, h);
    tree := CountLong(maxspans) >= 3;
  }

  /** The first second, up to `fuel`, after which the robots pass the tree
      heuristic; None when none of the first `fuel` seconds does. */
  method Part2(robots: array<Robot>, w: nat, h: nat, fuel: nat) returns (r: Option<nat>)
    requires w > 0 && h > 0
    modifies robots
    ensures r.Some? ==> 1 <= r.value <= fuel && robots[..] == Iterate(old(robots[..]), r.value, w, h)
    ensures r.Some? ==> IsTree(robots[..], w, h)
    ensures r.Some? ==> forall j :: 1 <= j < r.value ==> !IsTree(Iterate(old(robots[..]), j, w, h), w, h)
    ensures r.None? ==> forall j :: 1 <= j <= fuel ==> !IsTree(Iterate(old(robots[..]), j, w, h), w, h)
  {
    var i := 1;
    while i <= fuel
      invariant 1 <= i <= fuel + 1
      invariant robots[..] == Iterate(old(robots[..]), i - 1, w, h)
      invariant forall j :: 1 <= j < i ==> !IsTree(Iterate(old(robots[..]), j, w, h), w, h)
    {
      Move(robots, w, h);
      IterateInRange(old(robots[..]), i, w, h);
      var tree := TreeHeuristic(robots[..], w, h);
      if tree {
        return Some(i);
      }
      i := i + 1;
    }
    return None;
  }
}
