/** Day 6: a guard walks a grid, turning right in front of walls, until it
    leaves the grid. Part 1 counts the cells it visits; part 2 counts the
    cells where one extra wall would trap it in a loop.

    Coordinates are complex numbers `c + r·i` (column, row); the guard's
    heading starts at -i (north) and a right turn multiplies it by i. The
    walls are the keys of the source's wall dictionary. Loops the source
    runs without bound take a `fuel` parameter; running out of fuel, or a
    guard walled in on all four sides (where the source's turning loop never
    ends), yields None. */
module Day06 {
  import opened Common

  datatype Guard = Guard(pos: Point, heading: Point)

  const North: Point := Point(0, -1)

  /** `within_bounds(pos, (height, width))`. */
  predicate WithinBounds(pos: Point, height: int, width: int)
  {
    0 <= pos.im < height && 0 <= pos.re < width
  }

  /** Turn right while the cell ahead is a wall, trying at most `tries`
      more headings. */
  function Turn(walls: set<Point>, pos: Point, heading: Point, tries: nat): Point
    decreases tries
  {
    if tries == 0 || pos.Add(heading) !in walls then heading
    else Turn(walls, pos, heading.MulI(), tries - 1)
  }

  /** All four cells around the guard are walls. */
  predicate Boxed(walls: set<Point>, g: Guard)
  {
    g.pos.Add(Turn(walls, g.pos, g.heading, 4)) in walls
  }

  /** One round of the walk: turn right while blocked, then advance. A
      boxed-in guard stays where it is. */
  function Step(walls: set<Point>, g: Guard): (r: Guard)
    ensures g.heading in Units ==> r.heading in Units
    ensures Boxed(walls, g) ==> r == g
    ensures !Boxed(walls, g) ==> r.pos == g.pos.Add(r.heading) && r.pos !in walls
    ensures g.pos.Add(g.heading) !in walls ==> r.heading == g.heading
  {
    if Boxed(walls, g) then g
    else
      var h := Turn(walls, g.pos, g.heading, 4);
      TurnFacts(walls, g.pos, g.heading, 4);
      Guard(g.pos.Add(h), h)
  }

  lemma {:induction false} TurnFacts(walls: set<Point>, pos: Point, heading: Point, tries: nat)
    ensures heading in Units ==> Turn(walls, pos, heading, tries) in Units
    decreases tries
  {
    if tries > 0 && pos.Add(heading) in walls {
      TurnFacts(walls, pos, heading.MulI(), tries - 1);
    }
  }

  /** The guard after `n` rounds, starting at `start` facing north. */
  function StateAt(walls: set<Point>, start: Point, n: nat): Guard
  {
    if n == 0 then Guard(start, North) else Step(walls, StateAt(walls, start, n - 1))
  }

  /** The states of the first `n` rounds, in order. */
  function Trace(walls: set<Point>, start: Point, n: nat): (t: seq<Guard>)
    ensures |t| == n
  {
    if n == 0 then [] else Trace(walls, start, n - 1) + [StateAt(walls, start, n - 1)]
  }

  lemma {:induction false} TraceAt(walls: set<Point>, start: Point, n: nat, k: nat)
    requires k < n
    ensures Trace(walls, start, n)[k] == StateAt(walls, start, k)
  {
    if k < n - 1 {
      TraceAt(walls, start, n - 1, k);
    }
  }

  /** The positions occupied during the first `n` rounds. */
  ghost function Visited(walls: set<Point>, start: Point, n: nat): set<Point>
  {
    set k | 0 <= k < n :: StateAt(walls, start, k).pos
  }

  /** The walk is inside the grid for rounds 0 .. n-1. */
  ghost predicate InsideUntil(walls: set<Point>, start: Point, height: int, width: int, n: nat)
  {
    forall k :: 0 <= k < n ==> WithinBounds(StateAt(walls, start, k).pos, height, width)
  }

  /** The inner `while guard + heading in walls` loop; `stuck` when it
      would never end. */
  method TurnRight(walls: set<Point>, g: Guard) returns (heading: Point, stuck: bool)
    ensures stuck <==> Boxed(walls, g)
    ensures !stuck ==> heading == Turn(walls, g.pos, g.heading, 4) && g.pos.Add(heading) !in walls
  {
    heading := g.heading;
    var tries := 0;
    while g.pos.Add(heading) in walls && tries < 4
      invariant 0 <= tries <= 4
      invariant Turn(walls, g.pos, g.heading, 4) == Turn(walls, g.pos, heading, 4 - tries)
    {
      heading := heading.MulI();
      tries := tries + 1;
    }
    stuck := g.pos.Add(heading) in walls;
  }

  lemma VisitedStep(walls: set<Point>, start: Point, n: nat)
    ensures Visited(walls, start, n + 1) == Visited(walls, start, n) + {StateAt(walls, start, n).pos}
  {
  }

  /** part1: the number of distinct cells the guard visits before leaving
      the grid, the start included. */
  method Part1(walls: set<Point>, start: Point, height: int, width: int, fuel: nat) returns (r: Option<nat>)
    ensures r.Some? ==> exists n: nat :: InsideUntil(walls, start, height, width, n)
                          && !WithinBounds(StateAt(walls, start, n).pos, height, width)
                          && r.value == |Visited(walls, start, n)|
    ensures r.Some? && WithinBounds(start, height, width) ==> r.value >= 1
  {
    var visited: set<Point> := {};
    var g := Guard(start, North);
    var n: nat := 0;
    while WithinBounds(g.pos, height, width)
      invariant g == StateAt(walls, start, n)
      invariant visited == Visited(walls, start, n)
      invariant InsideUntil(walls, start, height, width, n)
      invariant n > 0 ==> start in visited
      decreases fuel - n
    {
      if n >= fuel {
        return None;
      }
      VisitedStep(walls, start, n);
      visited := visited + {g.pos};
      var heading, stuck := TurnRight(walls, g);
      if stuck {
        return None;
      }
      g := Guard(g.pos.Add(heading), heading);
      n := n + 1;
    }
    if WithinBounds(start, height, width) {
      assert n > 0;
    }
    r := Some(|visited|);
  }

  /** `detect_cycle`: Floyd's tortoise and hare over the recorded states.
      It finds a repeat exactly when some entry k ≥ 1 equals entry 2k. */
  method DetectCycle(visited: seq<Guard>) returns (found: bool)
    ensures found <==> exists k :: 1 <= k && 2 * k < |visited| && visited[k] == visited[2 * k]
  {
    if |visited| < 2 {
      return false;
    }
    var tortoise, hare := 0, 0;
    while true
      invariant hare == 2 * tortoise && hare < |visited|
      invariant forall k :: 1 <= k <= tortoise ==> visited[k] != visited[2 * k]
      decreases |visited| - hare
    {
      if hare + 1 >= |visited| || hare + 2 >= |visited| {
        return false;
      }
      tortoise := tortoise + 1;
      hare := hare + 2;
      if visited[tortoise] == visited[hare] {
        assert 1 <= tortoise && 2 * tortoise < |visited| && visited[tortoise] == visited[2 * tortoise];
        return true;
      }
    }
  }

  /** The walk is deterministic: a repeated state repeats forever. */
  lemma {:induction false} ShiftRepeat(walls: set<Point>, start: Point, a: nat, b: nat, j: nat)
    requires StateAt(walls, start, a) == StateAt(walls, start, b)
    ensures StateAt(walls, start, a + j) == StateAt(walls, start, b + j)
  {
    if j > 0 {
      ShiftRepeat(walls, start, a, b, j - 1);
    }
  }

  /** Every later state equals one of the states before the first repeat
      ends. */
  lemma {:induction false} FoldIntoPeriod(walls: set<Point>, start: Point, k: nat, p: nat, n: nat) returns (m: nat)
    requires p >= 1
    requires StateAt(walls, start, k) == StateAt(walls, start, k + p)
    ensures m < k + p && StateAt(walls, start, n) == StateAt(walls, start, m)
    decreases n
  {
    if n < k + p {
      m := n;
    } else {
      ShiftRepeat(walls, start, k, k + p, n - p - k);
      m := FoldIntoPeriod(walls, start, k, p, n - p);
    }
  }

  /** A repeat found among the recorded in-bounds states means the guard
      never leaves the grid. */
  lemma RepeatMeansLoop(walls: set<Point>, start: Point, height: int, width: int, k: nat, len: nat)
    requires 1 <= k && 2 * k < len
    requires StateAt(walls, start, k) == StateAt(walls, start, 2 * k)
    requires InsideUntil(walls, start, height, width, len)
    ensures forall n: nat :: WithinBounds(StateAt(walls, start, n).pos, height, width)
  {
    forall n: nat ensures WithinBounds(StateAt(walls, start, n).pos, height, width) {
      var m := FoldIntoPeriod(walls, start, k, k, n);
    }
  }

  const CheckInterval: nat := 10_000

  /** `is_guard_looping`: walk, recording each state, and look for a cycle
      whenever the record's length is a multiple of 10 000. True is only
      reported for a guard that never leaves, false only for one that
      does. */
  method IsGuardLooping(walls: set<Point>, start: Point, height: int, width: int, fuel: nat) returns (r: Option<bool>)
    ensures r == Some(true) ==> forall n: nat :: WithinBounds(StateAt(walls, start, n).pos, height, width)
    ensures r == Some(false) ==> exists n: nat :: !WithinBounds(StateAt(walls, start, n).pos, height, width)
    ensures r.Some? ==> (r.value <==> Loops(walls, start, height, width))
  {
    var visited: seq<Guard> := [];
    var g := Guard(start, North);
    while WithinBounds(g.pos, height, width)
      invariant g == StateAt(walls, start, |visited|)
      invariant visited == Trace(walls, start, |visited|)
      invariant InsideUntil(walls, start, height, width, |visited|)
      decreases fuel - |visited|
    {
      if |visited| % CheckInterval == 0 {
        var cycle := DetectCycle(visited);
        if cycle {
          var k :| 1 <= k && 2 * k < |visited| && visited[k] == visited[2 * k];
          TraceAt(walls, start, |visited|, k);
          TraceAt(walls, start, |visited|, 2 * k);
          RepeatMeansLoop(walls, start, height, width, k, |visited|);
          return Some(true);
        }
      }
      if |visited| >= fuel {
        return None;
      }
      var heading, stuck := TurnRight(walls, g);
      if stuck {
        return None;
      }
      assert Guard(g.pos.Add(heading), heading) == StateAt(walls, start, |visited| + 1);
      visited := visited + [g];
      g := Guard(g.pos.Add(heading), heading);
    }
    assert !WithinBounds(StateAt(walls, start, |visited|).pos, height, width);
    return Some(false);
  }

  /** The guard, started on `start`, stays inside the grid forever. */
  ghost predicate Loops(walls: set<Point>, start: Point, height: int, width: int)
  {
    forall n: nat :: WithinBounds(StateAt(walls, start, n).pos, height, width)
  }

  /** The cells part 2 tries: `cmplx(r, c)` for r < rowLimit, c < colLimit,
      skipping the start and the existing walls. */
  ghost predicate IsCandidate(walls: set<Point>, start: Point, rowLimit: int, colLimit: int, p: Point)
  {
    0 <= p.im < rowLimit && 0 <= p.re < colLimit && p != start && p !in walls
  }

  /** An obstruction at `p` is one part 2 tries and that traps the guard. */
  ghost predicate Traps(walls: set<Point>, start: Point, height: int, width: int,
                        rowLimit: int, colLimit: int, p: Point)
  {
    IsCandidate(walls, start, rowLimit, colLimit, p) && Loops(walls + {p}, start, height, width)
  }

  ghost function LoopingObstructions(walls: set<Point>, start: Point, height: int, width: int,
                                     rowLimit: int, colLimit: int): set<Point>
  {
    set r, c | 0 <= r < rowLimit && 0 <= c < colLimit
               && Traps(walls, start, height, width, rowLimit, colLimit, Point(c, r)) :: Point(c, r)
  }

  /** Inside the ranges, a cell traps the guard exactly when it is free,
      not the start, and blocking it makes the guard loop. */
  lemma TrapsCell(walls: set<Point>, start: Point, height: int, width: int,
                  rowLimit: int, colLimit: int, cell: Point)
    requires 0 <= cell.im < rowLimit && 0 <= cell.re < colLimit
    ensures Traps(walls, start, height, width, rowLimit, colLimit, cell)
        <==> cell != start && cell !in walls && Loops(walls + {cell}, start, height, width)
  {
  }

  /** Every trapping cell lies in the ranges part 2 scans. */
  lemma TrapsInRange(walls: set<Point>, start: Point, height: int, width: int,
                     rowLimit: int, colLimit: int, p: Point)
    requires Traps(walls, start, height, width, rowLimit, colLimit, p)
    ensures 0 <= p.im < rowLimit && 0 <= p.re < colLimit
  {
  }

  /** The candidate loop of part 2 over rows 0 .. rowLimit-1 and columns
      0 .. colLimit-1: each candidate is tested on its own copy of the
      walls. When every test gives an answer, the count is exactly the
      number of candidates that trap the guard. */
  method CountObstructions(walls: set<Point>, start: Point, height: int, width: int,
                           rowLimit: int, colLimit: int, fuel: nat) returns (r: Option<nat>)
    ensures r.Some? ==> r.value == |LoopingObstructions(walls, start, height, width, rowLimit, colLimit)|
  {
    hide Traps, Loops, StateAt, IsCandidate;
    var obstructions := 0;
    ghost var found: set<Point> := {};
    var row := 0;
    while row < rowLimit
      invariant 0 <= row
      invariant obstructions == |found|
      invariant forall p :: p in found <==> 0 <= p.im < row && Traps(walls, start, height, width, rowLimit, colLimit, p)
    {
      var col := 0;
      while col < colLimit
        invariant 0 <= col
        invariant obstructions == |found|
        invariant forall p :: p in found <==> (0 <= p.im < row || (p.im == row && 0 <= p.re < col))
                                              && Traps(walls, start, height, width, rowLimit, colLimit, p)
      {
        var cell := Point(col, row);
        TrapsCell(walls, start, height, width, rowLimit, colLimit, cell);
        if cell != start && cell !in walls {
          var looping := IsGuardLooping(walls + {cell}, start, height, width, fuel);
          if looping.None? {
            return None;
          }
          if looping.value {
            found := found + {cell};
            obstructions := obstructions + 1;
          }
        }
        col := col + 1;
      }
      forall p: Point | p.im == row && Traps(walls, start, height, width, rowLimit, colLimit, p) ensures 0 <= p.re < col {
        TrapsInRange(walls, start, height, width, rowLimit, colLimit, p);
      }
      row := row + 1;
    }
    assert found == LoopingObstructions(walls, start, height, width, rowLimit, colLimit) by {
      forall p | p in found ensures p in LoopingObstructions(walls, start, height, width, rowLimit, colLimit) {
        TrapsInRange(walls, start, height, width, rowLimit, colLimit, p);
      }
    }
    r := Some(obstructions);
  }

  /** part2: `limits` is (number of rows, number of columns) as the input
      reader builds it. part2 unpacks it as `width, height` and
      `within_bounds` as `height, width`, so `for r in range(width)` runs
      over the rows and `for c in range(height)` over the columns. */
  method Part2(walls: set<Point>, start: Point, limits: (int, int), fuel: nat) returns (r: Option<nat>)
    ensures r.Some? ==> r.value == |LoopingObstructions(walls, start, limits.0, limits.1, limits.0, limits.1)|
  {
    var (width, height) := limits;
    r := CountObstructions(walls, start, limits.0, limits.1, width, height, fuel);
  }

  /** With the row and column ranges of part2, the candidates are exactly
      the free in-grid cells other than the start. */
  lemma CandidatesAreGridCells(walls: set<Point>, start: Point, height: int, width: int, p: Point)
    ensures IsCandidate(walls, start, height, width, p)
        <==> WithinBounds(p, height, width) && p != start && p !in walls
  {
  }
}
