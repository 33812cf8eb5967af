/** Day 15: a robot pushes boxes around a warehouse. The grid is a dict
    from positions to characters that the moves rewrite in place; absent
    positions are empty floor. In part 1 a box is one "O" cell and a push
    shifts the whole run of boxes ahead of the robot; in part 2 boxes are
    two cells wide ("[" "]"), horizontal pushes use the same rule, and a
    vertical push moves the whole tree of boxes resting on each other.
    The answer is the sum of 100·row + column over all boxes. */
module Day15 {
  import opened Common

  const Robot: char := '@'
  const Box: char := 'O'
  const Wall: char := '#'
  const Empty: char := '.'
  const BoxStart: char := '['
  const BoxEnd: char := ']'

  /** The cell to the right: the complex number 1. */
  const RightStep: Point := Point(1, 0)

  type Grid = map<Point, char>

  /** Python's `grid.get(p)`. */
  function Get(g: Grid, p: Point): Option<char>
  {
    if p in g then Some(g[p]) else None
  }

  predicate IsWall(g: Grid, p: Point)
  {
    p in g && g[p] == Wall
  }

  /** A cell holding a box or half of one. */
  predicate IsBoxCell(g: Grid, p: Point)
  {
    p in g && (g[p] == Box || g[p] == BoxStart || g[p] == BoxEnd)
  }

  /** `grid.get(p, EMPTY) == EMPTY`. */
  predicate IsFree(g: Grid, p: Point)
  {
    p !in g || g[p] == Empty
  }

  predicate IsDir(mv: Point)
  {
    mv in Units
  }

  // ---------------------------------------------------------------------
  // Coordinates along a move

  /** The coordinate that grows along the move. */
  function Ahead(p: Point, mv: Point): int
    requires IsDir(mv)
  {
    if mv == Point(1, 0) then p.re
    else if mv == Point(-1, 0) then -p.re
    else if mv == Point(0, 1) then p.im
    else -p.im
  }

  /** The coordinate a move leaves unchanged. */
  function Lateral(p: Point, mv: Point): int
  {
    if mv.re != 0 then p.im else p.re
  }

  /** The cell k steps from o along mv, o + k·mv. */
  function Along(o: Point, mv: Point, k: int): Point
    requires IsDir(mv)
  {
    if mv == Point(1, 0) then Point(o.re + k, o.im)
    else if mv == Point(-1, 0) then Point(o.re - k, o.im)
    else if mv == Point(0, 1) then Point(o.re, o.im + k)
    else Point(o.re, o.im - k)
  }

  lemma AlongFacts(o: Point, mv: Point, k: int)
    requires IsDir(mv)
    ensures Ahead(Along(o, mv, k), mv) == Ahead(o, mv) + k
    ensures Lateral(Along(o, mv, k), mv) == Lateral(o, mv)
    ensures Along(o, mv, k).Add(mv) == Along(o, mv, k + 1)
    ensures Along(o, mv, k).Sub(mv) == Along(o, mv, k - 1)
    ensures Along(o, mv, 0) == o
  {
  }

  lemma AlongShift(o: Point, mv: Point, k: int)
    requires IsDir(mv)
    ensures Along(o.Add(mv), mv, k - 1) == Along(o, mv, k)
  {
  }

  /** Two cells are equal iff both coordinates relative to the move are. */
  lemma SameCell(p: Point, q: Point, mv: Point)
    requires IsDir(mv)
    ensures p == q <==> Ahead(p, mv) == Ahead(q, mv) && Lateral(p, mv) == Lateral(q, mv)
  {
  }

  lemma StepFacts(p: Point, mv: Point)
    requires IsDir(mv)
    ensures Ahead(p.Add(mv), mv) == Ahead(p, mv) + 1 && Lateral(p.Add(mv), mv) == Lateral(p, mv)
    ensures Ahead(p.Sub(mv), mv) == Ahead(p, mv) - 1 && Lateral(p.Sub(mv), mv) == Lateral(p, mv)
  {
  }

  /** A bound on the coordinates of the finitely many grid cells. */
  ghost function Bound(s: set<Point>): (b: nat)
    ensures forall p :: p in s ==> Abs(p.re) <= b && Abs(p.im) <= b
  {
    if s == {} then 0
    else
      var p :| p in s;
      var rest := Bound(s - {p});
      var here := if Abs(p.re) >= Abs(p.im) then Abs(p.re) else Abs(p.im);
      if here >= rest then here else rest
  }

  lemma AheadBounded(s: set<Point>, p: Point, mv: Point)
    requires IsDir(mv) && p in s
    ensures Ahead(p, mv) <= Bound(s)
  {
  }

  // ---------------------------------------------------------------------
  // The simple push

  /** The number of box cells in a row directly ahead of o. */
  ghost function RunLength(g: Grid, o: Point, mv: Point): nat
    requires IsDir(mv)
    decreases Bound(g.Keys) - Ahead(o, mv)
  {
    if IsBoxCell(g, o.Add(mv)) then
      AheadBounded(g.Keys, o.Add(mv), mv);
      StepFacts(o, mv);
      1 + RunLength(g, o.Add(mv), mv)
    else 0
  }

  /** `grid[c + mv] = grid[c]; del grid[c]`. */
  function MoveCell(g: Grid, c: Point, mv: Point): Grid
  {
    if c in g then g[c.Add(mv) := g[c]] - {c} else g
  }

  /** Moving the j-th cell keeps the cells before it. */
  lemma MoveCellKeeps(g: Grid, o: Point, mv: Point, j: int)
    requires IsDir(mv)
    ensures forall k :: 1 <= k < j && Along(o, mv, k) in g ==> Along(o, mv, k) in MoveCell(g, Along(o, mv, j), mv)
  {
    forall k | 1 <= k < j && Along(o, mv, k) in g
      ensures Along(o, mv, k) in MoveCell(g, Along(o, mv, j), mv)
    {
      AlongFacts(o, mv, k);
      AlongFacts(o, mv, j);
      SameCell(Along(o, mv, k), Along(o, mv, j), mv);
    }
  }

  /** Moves the cells j, j-1, …, 1 steps ahead of o one step further, the
      farthest first. */
  function ShiftBack(g: Grid, o: Point, mv: Point, j: nat): Grid
    requires IsDir(mv)
    decreases j
  {
    if j == 0 then g else ShiftBack(MoveCell(g, Along(o, mv, j), mv), o, mv, j - 1)
  }

  /** The grid and robot position after a simple push. */
  ghost function SimpleMoved(g: Grid, o: Point, mv: Point): (r: (Grid, Point))
    requires IsDir(mv)
    ensures r.1 == o ==> r.0 == g
    ensures r.1 != o ==> r.1 == o.Add(mv) && r.1 in r.0 && r.0[r.1] == Robot
  {
    var pos := o.Add(mv);
    if IsWall(g, pos) then (g, o)
    else
      var n := RunLength(g, o, mv);
      if IsWall(g, Along(o, mv, n + 1)) then (g, o)
      else (ShiftBack(g, o, mv, n)[pos := Robot] - {o}, pos)
  }

  /** What ShiftBack leaves at each cell: the j + 1 cells ahead of o take
      the content of the cell behind them, the first becomes absent, and
      nothing else changes. */
  ghost function ShiftedGet(g: Grid, o: Point, mv: Point, j: nat, p: Point): Option<char>
    requires IsDir(mv)
  {
    var d := Ahead(p, mv) - Ahead(o, mv);
    if j >= 1 && Lateral(p, mv) == Lateral(o, mv) && 1 <= d <= j + 1 then
      if d == 1 then None else Get(g, p.Sub(mv))
    else Get(g, p)
  }

  lemma {:induction false} ShiftBackGet(g: Grid, o: Point, mv: Point, j: nat, p: Point)
    requires IsDir(mv)
    requires forall k :: 1 <= k <= j ==> Along(o, mv, k) in g
    ensures Get(ShiftBack(g, o, mv, j), p) == ShiftedGet(g, o, mv, j, p)
    decreases j
  {
    if j > 0 {
      var c := Along(o, mv, j);
      var g1 := MoveCell(g, c, mv);
      AlongFacts(o, mv, j);
      forall k | 1 <= k <= j - 1
        ensures Along(o, mv, k) in g1
      {
        AlongFacts(o, mv, k);
        SameCell(Along(o, mv, k), c, mv);
        SameCell(Along(o, mv, k), c.Add(mv), mv);
        StepFacts(c, mv);
      }
      ShiftBackGet(g1, o, mv, j - 1, p);
      StepFacts(p, mv);
      StepFacts(c, mv);
      SameCell(p, c, mv);
      SameCell(p, c.Add(mv), mv);
      SameCell(p.Sub(mv), c, mv);
      SameCell(p.Sub(mv), c.Add(mv), mv);
    }
  }

  lemma RunLengthUnfold(g: Grid, o: Point, mv: Point)
    requires IsDir(mv)
    ensures RunLength(g, o, mv) ==
      if IsBoxCell(g, o.Add(mv)) then 1 + RunLength(g, o.Add(mv), mv) else 0
  {
  }

  /** The run found by RunLength is made of box cells and stops at a cell
      that is not one. */
  lemma {:induction false} RunLengthCells(g: Grid, o: Point, mv: Point)
    requires IsDir(mv)
    ensures forall k :: 1 <= k <= RunLength(g, o, mv) ==> IsBoxCell(g, Along(o, mv, k))
    ensures !IsBoxCell(g, Along(o, mv, RunLength(g, o, mv) + 1))
    decreases Bound(g.Keys) - Ahead(o, mv)
  {
    RunLengthUnfold(g, o, mv);
    AlongShift(o, mv, 1);
    AlongFacts(o, mv, 0);
    hide RunLength, Along, Bound, Ahead, Lateral;
    if IsBoxCell(g, o.Add(mv)) {
      AheadBounded(g.Keys, o.Add(mv), mv);
      StepFacts(o, mv);
      hide *;
      RunLengthCells(g, o.Add(mv), mv);
      RunStep(g, o, mv, RunLength(g, o.Add(mv), mv));
    }
  }

  /** A run of n box cells ahead of o + mv, with a box cell at o + mv,
      is a run of n + 1 box cells ahead of o. */
  lemma RunStep(g: Grid, o: Point, mv: Point, n: nat)
    requires IsDir(mv) && IsBoxCell(g, o.Add(mv))
    requires forall k :: 1 <= k <= n ==> IsBoxCell(g, Along(o.Add(mv), mv, k))
    requires !IsBoxCell(g, Along(o.Add(mv), mv, n + 1))
    ensures forall k :: 1 <= k <= n + 1 ==> IsBoxCell(g, Along(o, mv, k))
    ensures !IsBoxCell(g, Along(o, mv, n + 2))
  {
    forall k | 1 <= k <= n + 1
      ensures IsBoxCell(g, Along(o, mv, k))
    {
      AlongShift(o, mv, k);
    }
    AlongShift(o, mv, n + 2);
  }

  /** The effect of a simple push that is not blocked: the robot steps
      into the next cell, every box of the run moves one cell along, the
      robot's old cell is emptied (deleted), and nothing else changes. */
  lemma SimpleMoveEffect(g: Grid, o: Point, mv: Point, p: Point)
    requires IsDir(mv)
    requires SimpleMoved(g, o, mv).1 != o
    ensures var n := RunLength(g, o, mv);
            var d := Ahead(p, mv) - Ahead(o, mv);
            var r := SimpleMoved(g, o, mv);
            r.1 == o.Add(mv) && !IsWall(g, o.Add(mv)) && !IsWall(g, Along(o, mv, n + 1)) &&
            Get(r.0, p) ==
              if p == o then None
              else if p == o.Add(mv) then Some(Robot)
              else if Lateral(p, mv) == Lateral(o, mv) && 2 <= d <= n + 1 then Get(g, p.Sub(mv))
              else Get(g, p)
  {
    var n := RunLength(g, o, mv);
    RunLengthCells(g, o, mv);
    ShiftBackGet(g, o, mv, n, p);
    StepFacts(o, mv);
    SameCell(p, o, mv);
    SameCell(p, o.Add(mv), mv);
  }

  /** A wall directly ahead, or at the end of the run of boxes, blocks the
      push and changes nothing. */
  lemma SimpleMoveBlocked(g: Grid, o: Point, mv: Point)
    requires IsDir(mv)
    ensures SimpleMoved(g, o, mv) == (g, o) <==>
      IsWall(g, o.Add(mv)) || IsWall(g, Along(o, mv, RunLength(g, o, mv) + 1))
  {
    if !IsWall(g, o.Add(mv)) && !IsWall(g, Along(o, mv, RunLength(g, o, mv) + 1)) {
      StepFacts(o, mv);
      SameCell(o, o.Add(mv), mv);
    }
  }

  ghost predicate SameWalls(g: Grid, g': Grid)
  {
    forall p :: IsWall(g', p) <==> IsWall(g, p)
  }

  function BoxCells(g: Grid): set<Point>
  {
    set p | p in g && IsBoxCell(g, p)
  }

  /** One cell of a push that is not blocked: walls stay, and the box
      cells are the old ones with the first of the run traded for the cell
      after its end. */
  lemma SimpleMoveAt(g: Grid, o: Point, mv: Point, p: Point)
    requires IsDir(mv) && o in g && g[o] == Robot
    requires SimpleMoved(g, o, mv).1 != o
    ensures var n := RunLength(g, o, mv);
            var g' := SimpleMoved(g, o, mv).0;
            (IsWall(g', p) <==> IsWall(g, p)) &&
            (IsBoxCell(g', p) <==>
               (IsBoxCell(g, p) && (n == 0 || p != o.Add(mv))) || (n >= 1 && p == Along(o, mv, n + 1)))
  {
    var n := RunLength(g, o, mv);
    RunLengthCells(g, o, mv);
    var last := Along(o, mv, n + 1);
    AlongFacts(o, mv, n + 1);
    SimpleMoveEffect(g, o, mv, p);
    var d := Ahead(p, mv) - Ahead(o, mv);
    StepFacts(p, mv);
    StepFacts(o, mv);
    SameCell(p, last, mv);
    SameCell(p, o.Add(mv), mv);
    if Lateral(p, mv) == Lateral(o, mv) && 1 <= d <= n + 1 {
      AlongFacts(o, mv, d);
      AlongFacts(o, mv, d - 1);
      SameCell(p, Along(o, mv, d), mv);
      SameCell(p.Sub(mv), Along(o, mv, d - 1), mv);
      if d >= 2 {
        SameCell(o, Along(o, mv, d - 1), mv);
      }
    }
  }

  /** A simple push never writes or deletes a wall and keeps the number of
      box cells (the robot's own cell holds the robot). */
  lemma SimpleMoveKeeps(g: Grid, o: Point, mv: Point)
    requires IsDir(mv) && o in g && g[o] == Robot
    ensures SameWalls(g, SimpleMoved(g, o, mv).0)
    ensures |BoxCells(SimpleMoved(g, o, mv).0)| == |BoxCells(g)|
  {
    var r := SimpleMoved(g, o, mv);
    if r.1 != o {
      var n := RunLength(g, o, mv);
      var last := Along(o, mv, n + 1);
      forall p
        ensures IsWall(r.0, p) <==> IsWall(g, p)
        ensures p in BoxCells(r.0) <==> (p in BoxCells(g) && (n == 0 || p != o.Add(mv))) || (n >= 1 && p == last)
      {
        SimpleMoveAt(g, o, mv, p);
      }
      if n >= 1 {
        RunLengthCells(g, o, mv);
        AlongFacts(o, mv, 1);
        assert o.Add(mv) in BoxCells(g) && last !in BoxCells(g);
        assert BoxCells(r.0) == BoxCells(g) - {o.Add(mv)} + {last};
      } else {
        assert BoxCells(r.0) == BoxCells(g);
      }
    }
  }

  // ---------------------------------------------------------------------
  // Wide boxes

  predicate IsVertical(mv: Point)
  {
    mv == Point(0, 1) || mv == Point(0, -1)
  }

  predicate StartAt(g: Grid, p: Point)
  {
    p in g && g[p] == BoxStart
  }

  predicate EndAt(g: Grid, p: Point)
  {
    p in g && g[p] == BoxEnd
  }

  /** Every "[" has its "]" to the right and every "]" its "[" to the left. */
  ghost predicate WellFormed(g: Grid)
  {
    forall p :: StartAt(g, p) <==> EndAt(g, p.Add(RightStep))
  }

  /** The left half of the box a "[" or "]" cell belongs to. */
  function LeftOf(g: Grid, p: Point): Point
  {
    if EndAt(g, p) then p.Sub(RightStep) else p
  }

  /** Collects the left halves of the boxes that a vertical push into pos
      moves, after those already in `boxes`; None when a wall, or anything
      that is neither floor nor box, is in the way. */
  function CollectBoxes(g: Grid, pos: Point, mv: Point, boxes: seq<Point>): (r: Option<seq<Point>>)
    requires IsVertical(mv)
    decreases Bound(g.Keys) - Ahead(pos, mv)
  {
    if IsWall(g, pos) then None
    else if IsFree(g, pos) then Some(boxes)
    else if StartAt(g, pos) || EndAt(g, pos) then
      var b := LeftOf(g, pos);
      AheadBounded(g.Keys, pos, mv);
      Combine(boxes, CollectBoxes(g, b.Add(mv), mv, boxes + [b]),
                     CollectBoxes(g, b.Add(RightStep).Add(mv), mv, boxes + [b]))
    else None
  }

  /** Joins the boxes collected to the left and to the right; an empty or
      missing list on either side (Python's `not`) blocks the push. */
  function Combine(boxes: seq<Point>, left: Option<seq<Point>>, right: Option<seq<Point>>): Option<seq<Point>>
  {
    if left.None? || left.value == [] || right.None? || right.value == [] then None
    else Some(boxes + left.value + right.value)
  }

  /** One unfolding of CollectBoxes, for proofs that keep it hidden. */
  lemma CollectCases(g: Grid, pos: Point, mv: Point, boxes: seq<Point>)
    requires IsVertical(mv)
    ensures IsWall(g, pos) ==> CollectBoxes(g, pos, mv, boxes) == None
    ensures !IsWall(g, pos) && IsFree(g, pos) ==> CollectBoxes(g, pos, mv, boxes) == Some(boxes)
    ensures !IsWall(g, pos) && !IsFree(g, pos) && !StartAt(g, pos) && !EndAt(g, pos) ==>
      CollectBoxes(g, pos, mv, boxes) == None
    ensures !IsFree(g, pos) && (StartAt(g, pos) || EndAt(g, pos)) ==>
      var b := LeftOf(g, pos);
      Ahead(b.Add(mv), mv) == Ahead(pos, mv) + 1 &&
      Ahead(b.Add(RightStep).Add(mv), mv) == Ahead(pos, mv) + 1 &&
      pos in g && Ahead(pos, mv) <= Bound(g.Keys) &&
      CollectBoxes(g, pos, mv, boxes) ==
        Combine(boxes, CollectBoxes(g, b.Add(mv), mv, boxes + [b]),
                       CollectBoxes(g, b.Add(RightStep).Add(mv), mv, boxes + [b]))
  {
    if pos in g {
      AheadBounded(g.Keys, pos, mv);
    }
  }

  function Elems(s: seq<Point>): set<Point>
  {
    set x | x in s
  }

  lemma ElemsConcat(a: seq<Point>, b: seq<Point>)
    ensures Elems(a + b) == Elems(a) + Elems(b)
  {
  }

  /** A push may enter cell c when it is floor, or half of a box that is
      itself pushed (its left half is in S). */
  predicate Enterable(g: Grid, c: Point, s: set<Point>)
  {
    IsFree(g, c) || ((StartAt(g, c) || EndAt(g, c)) && LeftOf(g, c) in s)
  }

  lemma EnterableMono(g: Grid, c: Point, s: set<Point>, t: set<Point>)
    requires s <= t && Enterable(g, c, s)
    ensures Enterable(g, c, t)
  {
  }

  /** b is the left half of a box whose two cells ahead can be entered. */
  predicate Pushable(g: Grid, b: Point, mv: Point, s: set<Point>)
  {
    (StartAt(g, b) || EndAt(g, b.Add(RightStep)))
      && Enterable(g, b.Add(mv), s) && Enterable(g, b.Add(RightStep).Add(mv), s)
  }

  lemma PushableMono(g: Grid, b: Point, mv: Point, s: set<Point>, t: set<Point>)
    requires s <= t && Pushable(g, b, mv, s)
    ensures Pushable(g, b, mv, t)
  {
  }

  /** A set of boxes that can move together: each can advance into floor
      or into boxes of the set. */
  ghost predicate Closed(g: Grid, s: set<Point>, mv: Point)
  {
    forall b :: b in s ==> Pushable(g, b, mv, s)
  }

  lemma {:induction false} CollectPrefix(g: Grid, pos: Point, mv: Point, boxes: seq<Point>)
    requires IsVertical(mv)
    ensures var r := CollectBoxes(g, pos, mv, boxes);
            r.Some? ==> |r.value| >= |boxes| && r.value[..|boxes|] == boxes
    decreases Bound(g.Keys) - Ahead(pos, mv)
  {
  }

  /** Every collected box beyond the given ones lies at or ahead of pos
      and can move: what is returned is a closed set the push can enter. */
  lemma {:induction false} CollectSound(g: Grid, pos: Point, mv: Point, boxes: seq<Point>)
    requires IsVertical(mv)
    ensures var r := CollectBoxes(g, pos, mv, boxes);
            r.Some? ==> (Enterable(g, pos, Elems(r.value)) &&
              forall x :: x in r.value ==> (x in boxes ||
                (Ahead(x, mv) >= Ahead(pos, mv) && Pushable(g, x, mv, Elems(r.value)))))
    decreases Bound(g.Keys) - Ahead(pos, mv)
  {
    CollectCases(g, pos, mv, boxes);
    hide CollectBoxes;
    var r := CollectBoxes(g, pos, mv, boxes);
    if r.Some? && !IsWall(g, pos) && !IsFree(g, pos) {
      var b := LeftOf(g, pos);
      var lp, rp := b.Add(mv), b.Add(RightStep).Add(mv);
      CollectSound(g, lp, mv, boxes + [b]);
      CollectSound(g, rp, mv, boxes + [b]);
      CollectPrefix(g, lp, mv, boxes + [b]);
      var l := CollectBoxes(g, lp, mv, boxes + [b]).value;
      var rr := CollectBoxes(g, rp, mv, boxes + [b]).value;
      assert r.value == boxes + l + rr;
      assert l[|boxes|] == b;
      ElemsConcat(boxes, l);
      ElemsConcat(boxes + l, rr);
      var all := Elems(r.value);
      assert b in all && Elems(l) <= all && Elems(rr) <= all;
      forall x | x in r.value && x !in boxes
        ensures Ahead(x, mv) >= Ahead(pos, mv) && Pushable(g, x, mv, all)
      {
        if x == b {
          assert EndAt(g, pos) ==> b.Add(RightStep) == pos;
          EnterableMono(g, lp, Elems(l), all);
          EnterableMono(g, rp, Elems(rr), all);
        } else if x in l {
          assert x !in boxes + [b];
          PushableMono(g, x, mv, Elems(l), all);
        } else {
          assert x !in boxes + [b];
          PushableMono(g, x, mv, Elems(rr), all);
        }
      }
    }
  }

  /** If some closed set lets the push enter pos, the collection succeeds
      and finds no box outside that set. */
  lemma {:induction false} CollectComplete(g: Grid, pos: Point, mv: Point, boxes: seq<Point>, s: set<Point>)
    requires IsVertical(mv) && Closed(g, s, mv) && Enterable(g, pos, s)
    ensures var r := CollectBoxes(g, pos, mv, boxes);
            r.Some? && Elems(r.value) <= Elems(boxes) + s
    decreases Bound(g.Keys) - Ahead(pos, mv)
  {
    CollectCases(g, pos, mv, boxes);
    hide CollectBoxes;
    if !IsFree(g, pos) {
      var b := LeftOf(g, pos);
      var lp, rp := b.Add(mv), b.Add(RightStep).Add(mv);
      assert Pushable(g, b, mv, s);
      CollectComplete(g, lp, mv, boxes + [b], s);
      CollectComplete(g, rp, mv, boxes + [b], s);
      CollectPrefix(g, lp, mv, boxes + [b]);
      CollectPrefix(g, rp, mv, boxes + [b]);
      var l := CollectBoxes(g, lp, mv, boxes + [b]).value;
      var rr := CollectBoxes(g, rp, mv, boxes + [b]).value;
      assert l[|boxes|] == b;
      ElemsConcat(boxes, [b]);
      ElemsConcat(boxes, l);
      ElemsConcat(boxes + l, rr);
      assert CollectBoxes(g, pos, mv, boxes).value == boxes + l + rr;
    }
  }

  /** A vertical push succeeds iff some closed set of boxes lets it enter
      the cell ahead of the robot (otherwise a wall is in the way), and
      then the boxes it collects form the least such set. */
  lemma CollectExact(g: Grid, pos: Point, mv: Point)
    requires IsVertical(mv)
    ensures CollectBoxes(g, pos, mv, []).Some? <==>
      exists s :: Closed(g, s, mv) && Enterable(g, pos, s)
    ensures CollectBoxes(g, pos, mv, []).Some? ==>
      var found := Elems(CollectBoxes(g, pos, mv, []).value);
      Closed(g, found, mv) && Enterable(g, pos, found) &&
      forall s :: Closed(g, s, mv) && Enterable(g, pos, s) ==> found <= s
  {
    CollectSound(g, pos, mv, []);
    var r := CollectBoxes(g, pos, mv, []);
    if r.Some? {
      assert Closed(g, Elems(r.value), mv);
    }
    forall s | Closed(g, s, mv) && Enterable(g, pos, s)
      ensures r.Some? && Elems(r.value) <= s
    {
      CollectComplete(g, pos, mv, [], s);
    }
  }

  /** The first loop of a vertical push: every collected box's two cells
      become floor. */
  function Cleared(g: Grid, boxes: seq<Point>): Grid
  {
    if boxes == [] then g
    else
      var b := boxes[|boxes| - 1];
      Cleared(g, boxes[..|boxes| - 1])[b := Empty][b.Add(RightStep) := Empty]
  }

  /** The second loop: every collected box is drawn one cell along. */
  function Drawn(g: Grid, boxes: seq<Point>, mv: Point): Grid
  {
    if boxes == [] then g
    else
      var b := boxes[|boxes| - 1];
      Drawn(g, boxes[..|boxes| - 1], mv)[b.Add(mv) := BoxStart][b.Add(RightStep).Add(mv) := BoxEnd]
  }

  /** The grid and robot position after a push in part 2. */
  ghost function ComplexMoved(g: Grid, o: Point, mv: Point): (r: (Grid, Point))
    requires IsDir(mv)
    ensures r.1 == o ==> r.0 == g
    ensures r.1 != o ==> r.1 == o.Add(mv) && r.1 in r.0 && r.0[r.1] == Robot
  {
    if Abs(mv.re) > 0 then SimpleMoved(g, o, mv)
    else
      match CollectBoxes(g, o.Add(mv), mv, [])
      case None => (g, o)
      case Some(boxes) => (Drawn(Cleared(g, boxes), boxes, mv)[o.Add(mv) := Robot] - {o}, o.Add(mv))
  }

  lemma {:induction false} ClearedGet(g: Grid, boxes: seq<Point>, p: Point)
    ensures Get(Cleared(g, boxes), p) ==
      if p in boxes || p.Sub(RightStep) in boxes then Some(Empty) else Get(g, p)
  {
    if boxes != [] {
      var init := boxes[..|boxes| - 1];
      ClearedGet(g, init, p);
      assert boxes == init + [boxes[|boxes| - 1]];
    }
  }

  /** No two collected boxes overlap. */
  predicate Apart(boxes: seq<Point>)
  {
    forall x :: x in boxes ==> x.Add(RightStep) !in boxes
  }

  lemma {:induction false} DrawnGet(g: Grid, boxes: seq<Point>, mv: Point, p: Point)
    requires Apart(boxes)
    ensures Get(Drawn(g, boxes, mv), p) ==
      if p.Sub(mv) in boxes then Some(BoxStart)
      else if p.Sub(mv).Sub(RightStep) in boxes then Some(BoxEnd)
      else Get(g, p)
  {
    if boxes != [] {
      var init := boxes[..|boxes| - 1];
      var b := boxes[|boxes| - 1];
      assert boxes == init + [b];
      DrawnGet(g, init, mv, p);
      if p == b.Add(RightStep).Add(mv) {
        assert p.Sub(mv) == b.Add(RightStep);
      }
    }
  }

  /** The collected boxes of a well-formed grid are "[" cells and apart. */
  lemma CollectedStarts(g: Grid, o: Point, mv: Point)
    requires IsVertical(mv) && WellFormed(g)
    requires CollectBoxes(g, o.Add(mv), mv, []).Some?
    ensures var boxes := CollectBoxes(g, o.Add(mv), mv, []).value;
            Apart(boxes) && forall x :: x in boxes ==> StartAt(g, x) && Ahead(x, mv) > Ahead(o, mv)
  {
    var boxes := CollectBoxes(g, o.Add(mv), mv, []).value;
    CollectSound(g, o.Add(mv), mv, []);
    StepFacts(o, mv);
    forall x | x in boxes
      ensures StartAt(g, x) && x.Add(RightStep) !in boxes
    {
      assert Pushable(g, x, mv, Elems(boxes));
      assert x.Add(RightStep) in boxes ==> Pushable(g, x.Add(RightStep), mv, Elems(boxes));
    }
  }

  /** The effect of a vertical push that is not blocked: each collected box
      is drawn one cell along, the cells it leaves become floor, the robot
      steps ahead, its old cell is emptied, and nothing else changes. */
  lemma ComplexMoveEffect(g: Grid, o: Point, mv: Point, p: Point)
    requires IsVertical(mv) && WellFormed(g)
    requires CollectBoxes(g, o.Add(mv), mv, []).Some?
    ensures var boxes := CollectBoxes(g, o.Add(mv), mv, []).value;
            var r := ComplexMoved(g, o, mv);
            r.1 == o.Add(mv) &&
            Get(r.0, p) ==
              if p == o then None
              else if p == o.Add(mv) then Some(Robot)
              else if p.Sub(mv) in boxes then Some(BoxStart)
              else if p.Sub(mv).Sub(RightStep) in boxes then Some(BoxEnd)
              else if p in boxes || p.Sub(RightStep) in boxes then Some(Empty)
              else Get(g, p)
  {
    var boxes := CollectBoxes(g, o.Add(mv), mv, []).value;
    CollectedStarts(g, o, mv);
    DrawnGet(Cleared(g, boxes), boxes, mv, p);
    ClearedGet(g, boxes, p);
  }

  function Starts(g: Grid): set<Point>
  {
    set p | p in g && StartAt(g, p)
  }

  function Shifted(s: set<Point>, mv: Point): set<Point>
  {
    set x | x in s :: x.Add(mv)
  }

  lemma {:induction false} ShiftedCard(s: set<Point>, mv: Point)
    ensures |Shifted(s, mv)| == |s|
    decreases |s|
  {
    if s != {} {
      var x :| x in s;
      ShiftedCard(s - {x}, mv);
      assert Shifted(s, mv) == Shifted(s - {x}, mv) + {x.Add(mv)};
      assert x.Add(mv) !in Shifted(s - {x}, mv);
    }
  }

  /** One cell of a vertical push in a well-formed grid: walls stay, and
      the "[" cells are the old ones with the pushed boxes moved along. */
  lemma ComplexMoveAt(g: Grid, o: Point, mv: Point, p: Point)
    requires IsVertical(mv) && WellFormed(g) && o in g && g[o] == Robot
    requires CollectBoxes(g, o.Add(mv), mv, []).Some?
    ensures var s := Elems(CollectBoxes(g, o.Add(mv), mv, []).value);
            var g' := ComplexMoved(g, o, mv).0;
            (IsWall(g', p) <==> IsWall(g, p)) &&
            (StartAt(g', p) <==> (StartAt(g, p) && p !in s) || p in Shifted(s, mv))
  {
    var boxes := CollectBoxes(g, o.Add(mv), mv, []).value;
    CollectSound(g, o.Add(mv), mv, []);
    CollectedStarts(g, o, mv);
    ComplexMoveEffect(g, o, mv, p);
    var q := p.Sub(RightStep);
    assert StartAt(g, q) <==> EndAt(g, q.Add(RightStep));
    assert q.Add(RightStep) == p;
    PushedCellAt(g, o, mv, boxes, ComplexMoved(g, o, mv).0, p);
  }

  /** The cell-by-cell argument behind ComplexMoveAt, over the facts it
      needs about the collected boxes. */
  lemma PushedCellAt(g: Grid, o: Point, mv: Point, boxes: seq<Point>, g': Grid, p: Point)
    requires IsVertical(mv) && o in g && g[o] == Robot
    requires StartAt(g, p.Sub(RightStep)) <==> EndAt(g, p)
    requires Apart(boxes)
    requires forall x :: x in boxes ==>
      StartAt(g, x) && Ahead(x, mv) > Ahead(o, mv) && Pushable(g, x, mv, Elems(boxes))
    requires Get(g', p) ==
              if p == o then None
              else if p == o.Add(mv) then Some(Robot)
              else if p.Sub(mv) in boxes then Some(BoxStart)
              else if p.Sub(mv).Sub(RightStep) in boxes then Some(BoxEnd)
              else if p in boxes || p.Sub(RightStep) in boxes then Some(Empty)
              else Get(g, p)
    requires Enterable(g, o.Add(mv), Elems(boxes))
    ensures IsWall(g', p) <==> IsWall(g, p)
    ensures StartAt(g', p) <==> (StartAt(g, p) && p !in Elems(boxes)) || p in Shifted(Elems(boxes), mv)
  {
    var s := Elems(boxes);
    StepFacts(o, mv);
    StepFacts(p, mv);
    if p.Sub(mv) in boxes {
      assert p.Sub(mv).Add(mv) == p;
      assert Pushable(g, p.Sub(mv), mv, s);
    }
    if p.Sub(mv).Sub(RightStep) in boxes {
      var b := p.Sub(mv).Sub(RightStep);
      assert b.Add(RightStep).Add(mv) == p;
      assert Pushable(g, b, mv, s);
    }
    if p in Shifted(s, mv) {
      var x :| x in s && x.Add(mv) == p;
      assert x == p.Sub(mv);
    }
  }

  /** The collected boxes are "[" cells, and no cell they move into is
      the left half of a box they leave in place. */
  lemma CollectedPlace(g: Grid, o: Point, mv: Point)
    requires IsVertical(mv) && WellFormed(g)
    requires CollectBoxes(g, o.Add(mv), mv, []).Some?
    ensures var s := Elems(CollectBoxes(g, o.Add(mv), mv, []).value);
            s <= Starts(g) && (Starts(g) - s) !! Shifted(s, mv)
  {
    var s := Elems(CollectBoxes(g, o.Add(mv), mv, []).value);
    CollectedStarts(g, o, mv);
    CollectSound(g, o.Add(mv), mv, []);
    forall c | c in Shifted(s, mv) && c in Starts(g)
      ensures c in s
    {
      var x :| x in s && x.Add(mv) == c;
      assert Pushable(g, x, mv, s);
    }
  }

  /** A vertical push in a well-formed grid never writes or deletes a wall
      and keeps the number of boxes. */
  lemma ComplexMoveKeeps(g: Grid, o: Point, mv: Point)
    requires IsVertical(mv) && WellFormed(g) && o in g && g[o] == Robot
    ensures SameWalls(g, ComplexMoved(g, o, mv).0)
    ensures |Starts(ComplexMoved(g, o, mv).0)| == |Starts(g)|
  {
    if CollectBoxes(g, o.Add(mv), mv, []).Some? {
      CollectedPlace(g, o, mv);
      hide CollectBoxes, ComplexMoved, WellFormed, Elems, Shifted;
      var boxes := CollectBoxes(g, o.Add(mv), mv, []).value;
      var s := Elems(boxes);
      var g' := ComplexMoved(g, o, mv).0;
      var after := (Starts(g) - s) + Shifted(s, mv);
      forall p
        ensures IsWall(g', p) <==> IsWall(g, p)
        ensures p in Starts(g') <==> p in after
      {
        ComplexMoveAt(g, o, mv, p);
        StartsHas(g, p);
        StartsHas(g', p);
      }
      assert Starts(g') == after;
      ShiftedCard(s, mv);
      DisjointUnionCard(Starts(g) - s, Shifted(s, mv));
      SubsetDiffCard(Starts(g), s);
    }
  }

  lemma StartsHas(g: Grid, p: Point)
    ensures p in Starts(g) <==> StartAt(g, p)
  {
  }

  lemma DisjointUnionCard(a: set<Point>, b: set<Point>)
    requires a !! b
    ensures |a + b| == |a| + |b|
  {
  }

  lemma SubsetDiffCard(a: set<Point>, b: set<Point>)
    requires b <= a
    ensures |a - b| == |a| - |b|
  {
  }

  // ---------------------------------------------------------------------
  // Scoring

  /** The GPS coordinate of a box: 100 · row + column. */
  function GPS(p: Point): int
  {
    100 * p.im + p.re
  }

  /** A cell that scores: a box, or the left half of a wide one. */
  predicate Scored(g: Grid, p: Point)
  {
    p in g && (g[p] == Box || g[p] == BoxStart)
  }

  function ScoredCells(g: Grid): set<Point>
  {
    set p | p in g && Scored(g, p)
  }

  /** Σ GPS over a set of cells. */
  ghost function SumGPS(s: set<Point>): int
  {
    if s == {} then 0
    else
      var p :| p in s;
      GPS(p) + SumGPS(s - {p})
  }

  /** The sum does not depend on the order the cells are visited in: any
      cell may be taken out first. */
  lemma {:induction false} SumGPSPick(s: set<Point>, p: Point)
    requires p in s
    ensures SumGPS(s) == GPS(p) + SumGPS(s - {p})
    decreases |s|
  {
    var q :| q in s && SumGPS(s) == GPS(q) + SumGPS(s - {q});
    if q != p {
      SumGPSPick(s - {q}, p);
      SumGPSPick(s - {p}, q);
      assert s - {q} - {p} == s - {p} - {q};
    }
  }

  /** The cells of two disjoint sets add up separately. */
  lemma {:induction false} SumGPSUnion(a: set<Point>, b: set<Point>)
    requires a !! b
    ensures SumGPS(a + b) == SumGPS(a) + SumGPS(b)
    decreases |b|
  {
    if b == {} {
      assert a + b == a;
    } else {
      var q :| q in b;
      var rest := b - {q};
      assert |rest| < |b| && a !! rest;
      assert q in a + b && (a + b) - {q} == a + rest;
      hide *;
      SumGPSUnion(a, rest);
      SumGPSPick(a + b, q);
      SumGPSPick(b, q);
    }
  }

  /** Visiting one more cell adds its GPS coordinate when it scores. */
  lemma ScoreStep(grid: Grid, done: set<Point>, pos: Point)
    requires pos !in done && pos in grid
    ensures SumGPS(set p | p in done + {pos} && Scored(grid, p)) ==
      SumGPS(set p | p in done && Scored(grid, p)) + (if Scored(grid, pos) then GPS(pos) else 0)
  {
    var before := set p | p in done && Scored(grid, p);
    var now := set p | p in done + {pos} && Scored(grid, p);
    if Scored(grid, pos) {
      SumGPSPick(now, pos);
      assert now - {pos} == before;
    } else {
      assert now == before;
    }
  }

  /** Iterates over the dict's items in whatever order and sums the GPS
      coordinates of the scoring cells. */
  method ScoreBoxes(grid: Grid) returns (score: int)
    ensures score == SumGPS(ScoredCells(grid))
  {
    score := 0;
    var items := grid.Keys;
    ghost var done: set<Point> := {};
    while items != {}
      invariant items !! done && items + done == grid.Keys
      invariant score == SumGPS(set p | p in done && Scored(grid, p))
      decreases |items|
    {
      var pos :| pos in items;
      ScoreStep(grid, done, pos);
      var cell := grid[pos];
      if cell == Box || cell == BoxStart {
        score := score + 100 * pos.im + pos.re;
      }
      done := done + {pos};
      items := items - {pos};
    }
    assert (set p | p in done && Scored(grid, p)) == ScoredCells(grid);
  }

  // ---------------------------------------------------------------------
  // Whole runs

  /** The grid and robot after a sequence of simple pushes. */
  ghost function SimpleRun(g: Grid, o: Point, moves: seq<Point>): (Grid, Point)
    requires forall i :: 0 <= i < |moves| ==> IsDir(moves[i])
  {
    if moves == [] then (g, o)
    else
      var r := SimpleRun(g, o, moves[..|moves| - 1]);
      SimpleMoved(r.0, r.1, moves[|moves| - 1])
  }

  /** The grid and robot after a sequence of part-2 pushes. */
  ghost function ComplexRun(g: Grid, o: Point, moves: seq<Point>): (Grid, Point)
    requires forall i :: 0 <= i < |moves| ==> IsDir(moves[i])
  {
    if moves == [] then (g, o)
    else
      var r := ComplexRun(g, o, moves[..|moves| - 1]);
      ComplexMoved(r.0, r.1, moves[|moves| - 1])
  }

  /** Over a whole run of simple pushes the walls stay, the number of box
      cells stays, and the robot's cell holds the robot. */
  lemma {:induction false} SimpleRunKeeps(g: Grid, o: Point, moves: seq<Point>)
    requires forall i :: 0 <= i < |moves| ==> IsDir(moves[i])
    requires o in g && g[o] == Robot
    ensures var r := SimpleRun(g, o, moves);
            SameWalls(g, r.0) && |BoxCells(r.0)| == |BoxCells(g)| && r.1 in r.0 && r.0[r.1] == Robot
  {
    if moves != [] {
      var init := moves[..|moves| - 1];
      SimpleRunKeeps(g, o, init);
      var r := SimpleRun(g, o, init);
      SimpleMoveKeeps(r.0, r.1, moves[|moves| - 1]);
    }
  }

  /** Part 1: every move with the simple rule, then the score. */
  method Part1(g: Grid, robot: Point, moves: seq<Point>) returns (score: int)
    requires forall i :: 0 <= i < |moves| ==> IsDir(moves[i])
    requires robot in g
    ensures score == SumGPS(ScoredCells(SimpleRun(g, robot, moves).0))
  {
    var w := new Warehouse(g);
    var pos := robot;
    for i := 0 to |moves|
      invariant (w.grid, pos) == SimpleRun(g, robot, moves[..i])
      invariant pos in w.grid
    {
      assert moves[..i + 1][..i] == moves[..i];
      pos := w.SimpleMove(pos, moves[i]);
    }
    assert moves[..|moves|] == moves;
    score := ScoreBoxes(w.grid);
  }

  /** Part 2: every move with the wide-box rule, then the score. */
  method Part2(g: Grid, robot: Point, moves: seq<Point>) returns (score: int)
    requires forall i :: 0 <= i < |moves| ==> IsDir(moves[i])
    requires robot in g
    ensures score == SumGPS(ScoredCells(ComplexRun(g, robot, moves).0))
  {
    var w := new Warehouse(g);
    var pos := robot;
    for i := 0 to |moves|
      invariant (w.grid, pos) == ComplexRun(g, robot, moves[..i])
      invariant pos in w.grid
    {
      assert moves[..i + 1][..i] == moves[..i];
      pos := w.ComplexMove(pos, moves[i]);
    }
    assert moves[..|moves|] == moves;
    score := ScoreBoxes(w.grid);
  }

  // ---------------------------------------------------------------------
  // The warehouse, rewritten in place

  class Warehouse {
    var grid: Grid

    constructor (g: Grid)
      ensures grid == g
    {
      grid := g;
    }

    /** Pushes from oldpos one cell along move and returns the robot's new
        position. */
    method SimpleMove(oldpos: Point, move: Point) returns (pos: Point)
      requires IsDir(move) && oldpos in grid
      modifies this
      ensures (grid, pos) == SimpleMoved(old(grid), oldpos, move)
    {
      pos := oldpos.Add(move);
      if pos in grid && grid[pos] == Wall {
        return oldpos;
      }

      // find the last box in the direction of the move
      var lastbox := LastBox(grid, oldpos, move);
      ghost var n := RunLength(grid, oldpos, move);
      if lastbox.Add(move) in grid && grid[lastbox.Add(move)] == Wall {
        return oldpos;
      }

      RunLengthCells(grid, oldpos, move);
      ShiftRun(oldpos, move, lastbox, n);

      grid := grid[pos := Robot];
      grid := grid - {oldpos};
    }

    /** A push in part 2: horizontal moves use the simple rule, vertical
        ones move every collected box. */
    method ComplexMove(oldpos: Point, move: Point) returns (pos: Point)
      requires IsDir(move) && oldpos in grid
      modifies this
      ensures (grid, pos) == ComplexMoved(old(grid), oldpos, move)
    {
      hide SimpleMoved, CollectBoxes, Along, Ahead, Lateral, Bound, RunLength, ShiftBack, MoveCell;
      if Abs(move.re) > 0 {
        pos := SimpleMove(oldpos, move);
        return;
      }

      var collected := CollectBoxes(grid, oldpos.Add(move), move, []);
      if collected.None? {
        return oldpos;
      }
      var boxes := collected.value;

      // clear, then move all boxes
      ghost var g0 := grid;
      for i := 0 to |boxes|
        invariant grid == Cleared(g0, boxes[..i])
      {
        assert boxes[..i + 1][..i] == boxes[..i];
        grid := grid[boxes[i] := Empty];
        grid := grid[boxes[i].Add(RightStep) := Empty];
      }
      assert boxes[..|boxes|] == boxes;
      ghost var g1 := grid;
      for i := 0 to |boxes|
        invariant grid == Drawn(g1, boxes[..i], move)
      {
        assert boxes[..i + 1][..i] == boxes[..i];
        grid := grid[boxes[i].Add(move) := BoxStart];
        grid := grid[boxes[i].Add(RightStep).Add(move) := BoxEnd];
      }
      assert boxes[..|boxes|] == boxes;

      // move the robot
      pos := oldpos.Add(move);
      grid := grid[pos := Robot];
      grid := grid - {oldpos};
    }

    /** Moves the boxes from lastbox back to the cell after oldpos one
        cell along, the farthest first. */
    method ShiftRun(oldpos: Point, move: Point, lastbox: Point, ghost n: nat)
      requires IsDir(move) && lastbox == Along(oldpos, move, n)
      requires forall k :: 1 <= k <= n ==> Along(oldpos, move, k) in grid
      modifies this
      ensures grid == ShiftBack(old(grid), oldpos, move, n)
    {
      hide Along, Ahead, Lateral, Bound, RunLength, IsBoxCell;
      var last := lastbox;
      ghost var j := n;
      while last != oldpos
        invariant 0 <= j <= n && last == Along(oldpos, move, j)
        invariant forall k :: 1 <= k <= j ==> Along(oldpos, move, k) in grid
        invariant ShiftBack(grid, oldpos, move, j) == ShiftBack(old(grid), oldpos, move, n)
        decreases j
      {
        AlongFacts(oldpos, move, j);
        AlongFacts(oldpos, move, 0);
        SameCell(last, oldpos, move);
        ghost var before := grid;
        grid := grid[last.Add(move) := grid[last]];
        grid := grid - {last};
        assert grid == MoveCell(before, last, move);
        MoveCellKeeps(before, oldpos, move, j);
        last := last.Sub(move);
        j := j - 1;
      }
      AlongFacts(oldpos, move, j);
    }
  }

  /** The last box of the run ahead of oldpos (oldpos itself when there is
      none), together with the length of the run. */
  method LastBox(grid: Grid, oldpos: Point, move: Point) returns (lastbox: Point)
    requires IsDir(move)
    ensures lastbox == Along(oldpos, move, RunLength(grid, oldpos, move))
    ensures lastbox.Add(move) == Along(oldpos, move, RunLength(grid, oldpos, move) + 1)
  {
    hide RunLength, Along, Ahead, Bound, Lateral;
    lastbox := oldpos;
    ghost var n := 0;
    AlongFacts(oldpos, move, 0);
    while lastbox.Add(move) in grid && grid[lastbox.Add(move)] in {Box, BoxStart, BoxEnd}
      invariant lastbox == Along(oldpos, move, n)
      invariant RunLength(grid, oldpos, move) == n + RunLength(grid, lastbox, move)
      decreases Bound(grid.Keys) - Ahead(lastbox, move)
    {
      RunLengthUnfold(grid, lastbox, move);
      AheadBounded(grid.Keys, lastbox.Add(move), move);
      StepFacts(lastbox, move);
      AlongFacts(oldpos, move, n);
      lastbox := lastbox.Add(move);
      n := n + 1;
    }
    RunLengthUnfold(grid, lastbox, move);
    AlongFacts(oldpos, move, n);
  }
}
