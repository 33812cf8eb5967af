/** Day 20: a race track with cheats.

    The track is the single path from start to end through the cells that
    are not walls. It is followed one move at a time, trying up, down,
    left and right in that order and never stepping straight back. A
    cheat jumps from a track cell to any non-wall cell within a Manhattan
    radius. It counts when the target is on the track and the jump saves
    at least `min_gain` steps. */
module Day20 {
  import opened Common

  // ---------------------------------------------------------------------
  // build_track

  const Up := Point(0, -1)
  const Down := Point(0, 1)
  const Left := Point(-1, 0)
  const Right := Point(1, 0)

  /** The order in which moves are tried. */
  const Moves: seq<Point> := [Up, Down, Left, Right]

  function Last(track: seq<Point>): Point
    requires track != []
  {
    track[|track| - 1]
  }

  /** The cell reached by move k from the last cell, when it is neither a
      wall nor the cell just left. */
  predicate Allowed(track: seq<Point>, walls: set<Point>, k: nat)
    requires track != [] && k < |Moves|
  {
    var pos := Last(track).Add(Moves[k]);
    pos !in walls && !(|track| > 1 && track[|track| - 2] == pos)
  }

  /** The first allowed move from move k on, as a cell. */
  function NextFrom(track: seq<Point>, walls: set<Point>, k: nat): (r: Option<Point>)
    requires track != [] && k <= |Moves|
    ensures r.Some? ==> Manhattan(Last(track), r.value) == 1 && r.value !in walls &&
                        (|track| > 1 ==> r.value != track[|track| - 2])
    decreases |Moves| - k
  {
    if k == |Moves| then None
    else if Allowed(track, walls, k) then Some(Last(track).Add(Moves[k]))
    else NextFrom(track, walls, k + 1)
  }

  /** Extends the track until it reaches `end`; None when no move is
      allowed (the loop would spin forever) or when `fuel` moves are not
      enough. */
  function Follow(track: seq<Point>, end: Point, walls: set<Point>, fuel: nat): Option<seq<Point>>
    requires track != []
    decreases fuel
  {
    if Last(track) == end then Some(track)
    else if fuel == 0 then None
    else
      match NextFrom(track, walls, 0)
      case None => None
      case Some(p) => Follow(track + [p], end, walls, fuel - 1)
  }

  /** The cell after index i is one step from it, is not a wall, and is
      not the cell before it. */
  ghost predicate GoodStep(t: seq<Point>, walls: set<Point>, i: nat)
    requires i + 1 < |t|
  {
    Manhattan(t[i], t[i + 1]) == 1 && t[i + 1] !in walls && (i >= 1 ==> t[i + 1] != t[i - 1])
  }

  ghost predicate StepsFrom(t: seq<Point>, walls: set<Point>, from: nat)
  {
    forall i: nat :: from <= i < |t| - 1 ==> GoodStep(t, walls, i)
  }

  /** A followed track extends the given one, ends at `end`, meets `end`
      nowhere before, and moves one step at a time without turning back. */
  lemma {:induction false} FollowShape(track: seq<Point>, end: Point, walls: set<Point>, fuel: nat)
    requires track != [] && Follow(track, end, walls, fuel).Some?
    ensures var t := Follow(track, end, walls, fuel).value;
            |track| <= |t| <= |track| + fuel && t[..|track|] == track && Last(t) == end &&
            (forall i :: |track| - 1 <= i < |t| - 1 ==> t[i] != end) &&
            StepsFrom(t, walls, |track| - 1)
    decreases fuel
  {
    if Last(track) != end {
      var p := NextFrom(track, walls, 0).value;
      var next := track + [p];
      FollowShape(next, end, walls, fuel - 1);
      var t := Follow(track, end, walls, fuel).value;
      assert t[..|next|][..|track|] == t[..|track|];
      assert t[|track| - 1] == track[|track| - 1] && t[|track|] == p;
      assert |track| > 1 ==> t[|track| - 2] == track[|track| - 2];
    }
  }

  /** The first allowed move, tried in order. */
  method NextMove(track: seq<Point>, walls: set<Point>) returns (next: Option<Point>)
    requires track != []
    ensures next == NextFrom(track, walls, 0)
  {
    for k := 0 to |Moves|
      invariant NextFrom(track, walls, 0) == NextFrom(track, walls, k)
    {
      var pos := Last(track).Add(Moves[k]);
      if pos in walls {
        continue;
      }
      if |track| > 1 && track[|track| - 2] == pos {
        continue;
      }
      return Some(pos);
    }
    return None;
  }

  /** `build_track(start, end, walls)`, at most `fuel` moves. */
  method BuildTrack(start: Point, end: Point, walls: set<Point>, fuel: nat) returns (r: Option<seq<Point>>)
    ensures r == Follow([start], end, walls, fuel)
  {
    var track := [start];
    var left := fuel;
    while Last(track) != end
      invariant track != [] && Follow(track, end, walls, left) == Follow([start], end, walls, fuel)
      decreases left
    {
      if left == 0 {
        return None;
      }
      var next := NextMove(track, walls);
      if next.None? {
        return None;
      }
      track := track + [next.value];
      left := left - 1;
    }
    return Some(track);
  }

  // ---------------------------------------------------------------------
  // cheat_positions, distance and the track index

  /** Every cell pos + h·dx + v·dy with dx, dy >= 0 and dx + dy at most
      `size`. */
  function Quadrant(pos: Point, h: Point, v: Point, size: nat): set<Point>
  {
    set dx: int, dy: int | 0 <= dx <= size && 0 <= dy <= size - dx :: pos.Add(h.Scale(dx)).Add(v.Scale(dy))
  }

  /** The four quadrants around pos (LEFT or RIGHT, UP or DOWN), minus the
      walls. */
  function CheatPositions(pos: Point, walls: set<Point>, size: nat): set<Point>
  {
    (Quadrant(pos, Left, Up, size) + Quadrant(pos, Left, Down, size) +
     Quadrant(pos, Right, Up, size) + Quadrant(pos, Right, Down, size))
    - walls
  }

  lemma QuadrantWithin(pos: Point, h: Point, v: Point, size: nat, t: Point)
    requires (h == Left || h == Right) && (v == Up || v == Down) && t in Quadrant(pos, h, v, size)
    ensures Manhattan(pos, t) <= size
  {
    var dx: int, dy: int :| 0 <= dx <= size && 0 <= dy <= size - dx && t == pos.Add(h.Scale(dx)).Add(v.Scale(dy));
    assert h.Scale(dx) == Point(h.re * dx, 0) && v.Scale(dy) == Point(0, v.im * dy);
    assert Abs(h.re * dx) == dx by {
      if h == Left { assert h.re * dx == -dx; } else { assert h.re * dx == dx; }
    }
    assert Abs(v.im * dy) == dy by {
      if v == Up { assert v.im * dy == -dy; } else { assert v.im * dy == dy; }
    }
  }

  /** Every cheat target is a non-wall cell within Manhattan distance
      `size`. */
  lemma CheatPositionsWithin(pos: Point, walls: set<Point>, size: nat, t: Point)
    requires t in CheatPositions(pos, walls, size)
    ensures Manhattan(pos, t) <= size && t !in walls
  {
    hide Quadrant;
    if t in Quadrant(pos, Left, Up, size) {
      QuadrantWithin(pos, Left, Up, size, t);
    } else if t in Quadrant(pos, Left, Down, size) {
      QuadrantWithin(pos, Left, Down, size, t);
    } else if t in Quadrant(pos, Right, Up, size) {
      QuadrantWithin(pos, Right, Up, size, t);
    } else {
      QuadrantWithin(pos, Right, Down, size, t);
    }
  }

  /** Every non-wall cell within Manhattan distance `size` is a cheat
      target, the position itself included. */
  lemma CheatPositionsCover(pos: Point, walls: set<Point>, size: nat, t: Point)
    requires Manhattan(pos, t) <= size && t !in walls
    ensures t in CheatPositions(pos, walls, size)
  {
    var dx, dy := Abs(t.re - pos.re), Abs(t.im - pos.im);
    if t.re <= pos.re && t.im <= pos.im {
      assert t == pos.Add(Left.Scale(dx)).Add(Up.Scale(dy));
    } else if t.re <= pos.re {
      assert t == pos.Add(Left.Scale(dx)).Add(Down.Scale(dy));
    } else if t.im <= pos.im {
      assert t == pos.Add(Right.Scale(dx)).Add(Up.Scale(dy));
    } else {
      assert t == pos.Add(Right.Scale(dx)).Add(Down.Scale(dy));
    }
  }

  /** The cheat targets are exactly the non-wall cells within Manhattan
      distance `size`. */
  lemma CheatPositionsExact(pos: Point, walls: set<Point>, size: nat, t: Point)
    ensures t in CheatPositions(pos, walls, size) <==> Manhattan(pos, t) <= size && t !in walls
  {
    if t in CheatPositions(pos, walls, size) {
      CheatPositionsWithin(pos, walls, size, t);
    }
    if Manhattan(pos, t) <= size && t !in walls {
      CheatPositionsCover(pos, walls, size, t);
    }
  }

  /** `{pos: i for i, pos in enumerate(track)}`: a later index overwrites
      an earlier one. */
  function Positions(track: seq<Point>): (m: map<Point, nat>)
    ensures forall p :: p in m <==> p in track
    ensures forall p :: p in m ==> m[p] < |track| && track[m[p]] == p
  {
    if track == [] then map[]
    else Positions(track[..|track| - 1])[Last(track) := |track| - 1]
  }

  /** The index recorded for a cell is its last occurrence on the track. */
  lemma {:induction false} PositionsLast(track: seq<Point>, p: Point, j: nat)
    requires p in track && Positions(track)[p] < j < |track|
    ensures track[j] != p
  {
    var init := track[..|track| - 1];
    if Last(track) != p {
      if j < |track| - 1 {
        assert init[j] == track[j];
        PositionsLast(init, p, j);
      }
    }
  }

  // ---------------------------------------------------------------------
  // solve

  /** The cheats from track index i that save at least `minGain` steps,
      as the set of their targets. */
  function Cheats(track: seq<Point>, walls: set<Point>, maxSkip: nat, minGain: int, i: nat): set<Point>
    requires i < |track|
  {
    var positions := Positions(track);
    set t | t in CheatPositions(track[i], walls, maxSkip) && t in positions &&
            positions[t] - i - Manhattan(track[i], t) >= minGain
  }

  /** The cheats from the first n track cells, each pair counted once. */
  function CountCheats(track: seq<Point>, walls: set<Point>, maxSkip: nat, minGain: int, n: nat): nat
    requires n <= |track|
  {
    if n == 0 then 0
    else CountCheats(track, walls, maxSkip, minGain, n - 1) + |Cheats(track, walls, maxSkip, minGain, n - 1)|
  }

  /** With a positive `minGain` every counted cheat jumps forward along
      the track. */
  lemma CheatsForward(track: seq<Point>, walls: set<Point>, maxSkip: nat, minGain: int, i: nat, t: Point)
    requires i < |track| && minGain > 0 && t in Cheats(track, walls, maxSkip, minGain, i)
    ensures Positions(track)[t] > i
  {
  }

  lemma {:induction false} CardSubset(a: set<Point>, b: set<Point>)
    requires a <= b
    ensures |a| <= |b|
    decreases |b|
  {
    if a != {} {
      var x :| x in a;
      CardSubset(a - {x}, b - {x});
    }
  }

  /** A larger `maxSkip` never lowers the count. */
  lemma {:induction false} CountMonotone(track: seq<Point>, walls: set<Point>, small: nat, large: nat,
                                         minGain: int, n: nat)
    requires small <= large && n <= |track|
    ensures CountCheats(track, walls, small, minGain, n) <= CountCheats(track, walls, large, minGain, n)
  {
    if n > 0 {
      CountMonotone(track, walls, small, large, minGain, n - 1);
      var a := Cheats(track, walls, small, minGain, n - 1);
      var b := Cheats(track, walls, large, minGain, n - 1);
      hide CheatPositions, Quadrant, Positions;
      forall t | t in a ensures t in b {
        CheatsMember(track, walls, small, minGain, n - 1, t);
        CheatsMember(track, walls, large, minGain, n - 1, t);
        CheatPositionsExact(track[n - 1], walls, small, t);
        CheatPositionsExact(track[n - 1], walls, large, t);
      }
      hide Cheats;
      CardSubset(a, b);
    }
  }

  lemma CheatsMember(track: seq<Point>, walls: set<Point>, maxSkip: nat, minGain: int, i: nat, t: Point)
    requires i < |track|
    ensures t in Cheats(track, walls, maxSkip, minGain, i) <==>
            t in CheatPositions(track[i], walls, maxSkip) && t in Positions(track) &&
            Positions(track)[t] - i - Manhattan(track[i], t) >= minGain
    ensures Cheats(track, walls, maxSkip, minGain, i) <= CheatPositions(track[i], walls, maxSkip)
  {
  }

  /** The loop invariant of `CountFrom`: the cheats are those counted
      and those among the targets still to visit. */
  ghost predicate Tally(cheats: set<Point>, counted: set<Point>, targets: set<Point>, universe: set<Point>)
  {
    targets <= universe && cheats <= counted + targets && counted <= cheats && counted !! targets
  }

  lemma TallyStart(cheats: set<Point>, universe: set<Point>)
    requires cheats <= universe
    ensures Tally(cheats, {}, universe, universe)
  {
  }

  lemma TallyDone(cheats: set<Point>, counted: set<Point>, universe: set<Point>)
    requires Tally(cheats, counted, {}, universe)
    ensures counted == cheats
  {
  }

  lemma TallyMember(cheats: set<Point>, counted: set<Point>, targets: set<Point>, universe: set<Point>,
                    target: Point)
    requires Tally(cheats, counted, targets, universe) && target in targets
    ensures target in universe && target !in counted
  {
  }

  lemma TallyStep(cheats: set<Point>, counted: set<Point>, targets: set<Point>, universe: set<Point>,
                  target: Point, hit: bool)
    requires Tally(cheats, counted, targets, universe) && target in targets
    requires hit <==> target in cheats
    ensures Tally(cheats, if hit then counted + {target} else counted, targets - {target}, universe)
    ensures hit ==> |counted + {target}| == |counted| + 1
  {
  }

  /** The inner loop over the cheat targets of track index i. */
  method CountFrom(track: seq<Point>, positions: map<Point, nat>, walls: set<Point>, maxSkip: nat,
                   minGain: int, i: nat) returns (count: nat)
    requires i < |track| && positions == Positions(track)
    ensures count == |Cheats(track, walls, maxSkip, minGain, i)|
  {
    hide Cheats, CheatPositions, Positions, Tally;
    var pos := track[i];
    var targets := CheatPositions(pos, walls, maxSkip);
    ghost var universe := targets;
    ghost var cheats := Cheats(track, walls, maxSkip, minGain, i);
    CheatsMember(track, walls, maxSkip, minGain, i, pos);
    ghost var counted: set<Point> := {};
    TallyStart(cheats, universe);
    count := 0;
    while targets != {}
      invariant Tally(cheats, counted, targets, universe)
      invariant count == |counted|
      decreases |targets|
    {
      var target :| target in targets;
      TallyMember(cheats, counted, targets, universe, target);
      CheatsMember(track, walls, maxSkip, minGain, i, target);
      var hit := false;
      if target in positions {
        var j := positions[target];
        var gain := j - i - Manhattan(pos, target);
        hit := gain >= minGain;
      }
      TallyStep(cheats, counted, targets, universe, target, hit);
      targets := targets - {target};
      if hit {
        count := count + 1;
        counted := counted + {target};
      }
    }
    TallyDone(cheats, counted, universe);
  }

  /** `solve(walls, start, end, max_skip, min_gain)`: None when the track
      cannot be followed within `fuel` moves. */
  method Solve(walls: set<Point>, start: Point, end: Point, maxSkip: nat, minGain: int, fuel: nat)
    returns (r: Option<nat>)
    ensures var track := Follow([start], end, walls, fuel);
            (track.None? ==> r.None?) &&
            (track.Some? ==> r == Some(CountCheats(track.value, walls, maxSkip, minGain, |track.value|)))
  {
    var built := BuildTrack(start, end, walls, fuel);
    if built.None? {
      return None;
    }
    var track := built.value;
    var positions := Positions(track);
    var count := 0;
    for i := 0 to |track|
      invariant count == CountCheats(track, walls, maxSkip, minGain, i)
    {
      var n := CountFrom(track, positions, walls, maxSkip, minGain, i);
      count := count + n;
    }
    return Some(count);
  }

  /** Part 1 allows cheats of 2 steps, part 2 of 20; both need a gain of
      100. */
  method Part1(walls: set<Point>, start: Point, end: Point, fuel: nat) returns (r: Option<nat>)
    ensures var track := Follow([start], end, walls, fuel);
            (track.None? ==> r.None?) &&
            (track.Some? ==> r == Some(CountCheats(track.value, walls, 2, 100, |track.value|)))
  {
    r := Solve(walls, start, end, 2, 100, fuel);
  }

  method Part2(walls: set<Point>, start: Point, end: Point, fuel: nat) returns (r: Option<nat>)
    ensures var track := Follow([start], end, walls, fuel);
            (track.None? ==> r.None?) &&
            (track.Some? ==> r == Some(CountCheats(track.value, walls, 20, 100, |track.value|)))
  {
    r := Solve(walls, start, end, 20, 100, fuel);
  }

  /** Part 2 counts at least as many cheats as part 1 on the same track. */
  lemma PartsOrdered(track: seq<Point>, walls: set<Point>)
    ensures CountCheats(track, walls, 2, 100, |track|) <= CountCheats(track, walls, 20, 100, |track|)
  {
    CountMonotone(track, walls, 2, 20, 100, |track|);
  }
}
