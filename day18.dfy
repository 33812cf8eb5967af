/** Day 18: falling bytes on a memory grid.

    The grid holds every coordinate from 0 to `bounds` in both axes, and
    both ends are inclusive. Walls are the coordinates that have been hit.
    An A* search with the Manhattan distance as its estimate counts the
    fewest steps from the origin to the far corner. Each step moves to one
    of the four orthogonal neighbours and costs 1. The priority queue is a
    sequence of (estimate, tiebreaker, state) entries that hands out its
    least entry. */
module Day18 {
  import opened Common
  import opened Decimal

  // ---------------------------------------------------------------------
  // The grid

  /** Both axes are bounded inclusively by `bounds`. */
  predicate WithinBounds(pos: Point, bounds: Point)
  {
    0 <= pos.re <= bounds.re && 0 <= pos.im <= bounds.im
  }

  predicate Free(pos: Point, walls: set<Point>, bounds: Point)
  {
    WithinBounds(pos, bounds) && pos !in walls
  }

  /** The candidates of `cands` that are free, in their order. */
  function KeepFree(cands: seq<Point>, walls: set<Point>, bounds: Point): (r: seq<Point>)
    ensures |r| <= |cands|
    ensures forall u :: u in r <==> u in cands && Free(u, walls, bounds)
  {
    if cands == [] then []
    else (if Free(cands[0], walls, bounds) then [cands[0]] else [])
         + KeepFree(cands[1..], walls, bounds)
  }

  /** The neighbours pos+1, pos+i, pos-1, pos-i, in that order. */
  function Neighbours(pos: Point): seq<Point>
  {
    [pos.Add(Units[0]), pos.Add(Units[1]), pos.Add(Units[2]), pos.Add(Units[3])]
  }

  /** The free orthogonal neighbours of `pos`. */
  function SuccessorStates(pos: Point, walls: set<Point>, bounds: Point): seq<Point>
  {
    KeepFree(Neighbours(pos), walls, bounds)
  }

  /** The successors are exactly the free cells at Manhattan distance 1. */
  lemma SuccessorsExact(pos: Point, u: Point, walls: set<Point>, bounds: Point)
    ensures u in SuccessorStates(pos, walls, bounds) <==>
            Manhattan(pos, u) == 1 && Free(u, walls, bounds)
  {
    if Manhattan(pos, u) == 1 {
      assert u in Neighbours(pos) by {
        if u.re == pos.re + 1 { assert u == Neighbours(pos)[0]; }
        else if u.im == pos.im + 1 { assert u == Neighbours(pos)[1]; }
        else if u.re == pos.re - 1 { assert u == Neighbours(pos)[2]; }
        else { assert u == Neighbours(pos)[3]; }
      }
    }
  }

  // ---------------------------------------------------------------------
  // Walks

  /** A walk takes one successor step after another. Its first cell need
      not be free, because the search starts wherever it is told to. */
  ghost predicate IsWalk(w: seq<Point>, walls: set<Point>, bounds: Point)
  {
    |w| >= 1 &&
    forall i :: 0 <= i < |w| - 1 ==> w[i + 1] in SuccessorStates(w[i], walls, bounds)
  }

  ghost predicate WalkBetween(w: seq<Point>, start: Point, goal: Point, walls: set<Point>, bounds: Point)
  {
    IsWalk(w, walls, bounds) && w[0] == start && w[|w| - 1] == goal
  }

  /** Some walk from start to goal takes exactly n steps. */
  ghost predicate Reaches(n: nat, start: Point, goal: Point, walls: set<Point>, bounds: Point)
  {
    exists w :: WalkBetween(w, start, goal, walls, bounds) && |w| == n + 1
  }

  /** n is the length of a shortest walk from start to goal. */
  ghost predicate Shortest(n: nat, start: Point, goal: Point, walls: set<Point>, bounds: Point)
  {
    Reaches(n, start, goal, walls, bounds) &&
    forall w :: WalkBetween(w, start, goal, walls, bounds) ==> n + 1 <= |w|
  }

  lemma StepDistance(a: Point, b: Point, goal: Point)
    requires Manhattan(a, b) == 1
    ensures Manhattan(a, goal) <= Manhattan(b, goal) + 1
  {
  }

  /** The Manhattan estimate never exceeds the number of steps of a walk,
      so it is admissible. */
  lemma {:induction false} EstimateAdmissible(w: seq<Point>, walls: set<Point>, bounds: Point)
    requires IsWalk(w, walls, bounds)
    ensures Manhattan(w[0], w[|w| - 1]) <= |w| - 1
    decreases |w|
  {
    if |w| > 1 {
      var tail := w[1..];
      assert IsWalk(tail, walls, bounds) by {
        forall i | 0 <= i < |tail| - 1
          ensures tail[i + 1] in SuccessorStates(tail[i], walls, bounds)
        {
          assert tail[i] == w[i + 1] && tail[i + 1] == w[i + 2];
        }
      }
      EstimateAdmissible(tail, walls, bounds);
      SuccessorsExact(w[0], w[1], walls, bounds);
      StepDistance(w[0], w[1], w[|w| - 1]);
    }
  }

  /** The start reaches itself in no steps and in no fewer. */
  lemma StartIsGoal(start: Point, walls: set<Point>, bounds: Point)
    ensures Shortest(0, start, start, walls, bounds)
  {
    assert WalkBetween([start], start, start, walls, bounds);
  }

  /** A walk of no steps leaves the start where it is. */
  lemma ZeroStepsStayAtStart(start: Point, goal: Point, walls: set<Point>, bounds: Point)
    requires Reaches(0, start, goal, walls, bounds)
    ensures start == goal
  {
    var w :| WalkBetween(w, start, goal, walls, bounds) && |w| == 1;
  }

  // ---------------------------------------------------------------------
  // The priority queue

  /** `(estimate, tiebreaker, state)`: tuples compare on the estimate,
      then on the tiebreaker. The tiebreakers are distinct, so the state
      is never compared. */
  datatype Entry = Entry(estimate: nat, tiebreaker: nat, state: Point)

  predicate Precedes(x: Entry, y: Entry)
  {
    x.estimate < y.estimate || (x.estimate == y.estimate && x.tiebreaker < y.tiebreaker)
  }

  /** The entries sit in the order they were put, which is the order of
      their tiebreakers. */
  predicate InsertionOrder(queue: seq<Entry>)
  {
    forall i, j :: 0 <= i < j < |queue| ==> queue[i].tiebreaker < queue[j].tiebreaker
  }

  /** Removing the entry at `best`, which precedes every other entry. */
  lemma RemoveLeast(queue: seq<Entry>, best: nat, rest: seq<Entry>)
    requires best < |queue| && InsertionOrder(queue)
    requires forall j :: 0 <= j < |queue| && j != best ==> Precedes(queue[best], queue[j])
    requires rest == queue[..best] + queue[best + 1..]
    ensures |rest| == |queue| - 1 && InsertionOrder(rest)
    ensures forall x :: x in queue <==> x == queue[best] || x in rest
    ensures forall x :: x in rest ==> Precedes(queue[best], x)
  {
    forall x | x in rest ensures Precedes(queue[best], x) {
      var j :| 0 <= j < |rest| && rest[j] == x;
      if j < best { assert x == queue[j]; } else { assert x == queue[j + 1]; }
    }
    assert queue == queue[..best] + [queue[best]] + queue[best + 1..];
    forall i, j | 0 <= i < j < |rest| ensures rest[i].tiebreaker < rest[j].tiebreaker {
      var i' := if i < best then i else i + 1;
      var j' := if j < best then j else j + 1;
      assert rest[i] == queue[i'] && rest[j] == queue[j'];
    }
  }

  /** Takes the least entry out of the queue. */
  method Get(queue: seq<Entry>) returns (e: Entry, rest: seq<Entry>)
    requires queue != [] && InsertionOrder(queue)
    ensures e in queue && |rest| == |queue| - 1 && InsertionOrder(rest)
    ensures forall x :: x in queue <==> x == e || x in rest
    ensures forall x :: x in rest ==> Precedes(e, x)
  {
    var best := 0;
    for i := 1 to |queue|
      invariant best < i
      invariant forall j :: 0 <= j < i && j != best ==> Precedes(queue[best], queue[j])
    {
      if Precedes(queue[i], queue[best]) {
        best := i;
      }
    }
    e := queue[best];
    rest := queue[..best] + queue[best + 1..];
    RemoveLeast(queue, best, rest);
  }

  // ---------------------------------------------------------------------
  // The search state and what the loop keeps

  /** Every successor of v has been recorded with at most one step more
      than v: v has been expanded at its current step count. */
  ghost predicate Expanded(v: Point, closed: map<Point, nat>, walls: set<Point>, bounds: Point)
    requires v in closed
  {
    forall u :: u in SuccessorStates(v, walls, bounds) ==> u in closed && closed[u] <= closed[v] + 1
  }

  /** The queue holds an entry for v whose estimate is at most `bound`. */
  ghost predicate Pending(queue: seq<Entry>, v: Point, bound: nat)
  {
    exists x :: x in queue && x.state == v && x.estimate <= bound
  }

  /** A recorded state other than the goal has been expanded at its
      current count, or it is still waiting in the queue with its own
      estimate. */
  ghost predicate Settled(v: Point, closed: map<Point, nat>, queue: seq<Entry>, goal: Point,
                          walls: set<Point>, bounds: Point)
    requires v in closed
  {
    (v != goal && Expanded(v, closed, walls, bounds)) ||
    Pending(queue, v, closed[v] + Manhattan(v, goal))
  }

  ghost predicate Frontier(closed: map<Point, nat>, queue: seq<Entry>, goal: Point,
                           walls: set<Point>, bounds: Point)
  {
    forall v :: v in closed ==> Settled(v, closed, queue, goal, walls, bounds)
  }

  /** Frontier for every state but `cur`, the one being expanded. */
  ghost predicate FrontierBut(cur: Point, closed: map<Point, nat>, queue: seq<Entry>, goal: Point,
                              walls: set<Point>, bounds: Point)
  {
    forall v :: v in closed && v != cur ==> Settled(v, closed, queue, goal, walls, bounds)
  }

  /** Each recorded count is the length of a walk from the start. */
  ghost predicate Witnessed(closed: map<Point, nat>, paths: map<Point, seq<Point>>, start: Point,
                            walls: set<Point>, bounds: Point)
  {
    paths.Keys == closed.Keys &&
    forall v :: v in closed ==>
      WalkBetween(paths[v], start, v, walls, bounds) && |paths[v]| == closed[v] + 1
  }

  /** Queue entries name recorded states and never estimate below their
      recorded count; they are in insertion order below the counter. */
  ghost predicate QueueSound(closed: map<Point, nat>, queue: seq<Entry>, tiebreaker: nat)
  {
    InsertionOrder(queue) &&
    (forall x :: x in queue ==> x.state in closed && closed[x.state] <= x.estimate) &&
    (forall x :: x in queue ==> x.tiebreaker < tiebreaker)
  }

  /** Recorded states lie in `universe` and each count is below the number
      of recorded states, which bounds the search. */
  ghost predicate Bounded(closed: map<Point, nat>, universe: seq<Point>)
  {
    (forall v :: v in closed ==> v in universe) &&
    (forall v :: v in closed ==> closed[v] < |closed|)
  }

  ghost predicate SearchInv(closed: map<Point, nat>, paths: map<Point, seq<Point>>, queue: seq<Entry>,
                            tiebreaker: nat, start: Point, goal: Point, walls: set<Point>,
                            bounds: Point, universe: seq<Point>)
  {
    start in closed && closed[start] == 0 &&
    Witnessed(closed, paths, start, walls, bounds) &&
    QueueSound(closed, queue, tiebreaker) &&
    Frontier(closed, queue, goal, walls, bounds) &&
    Bounded(closed, universe)
  }

  // ---------------------------------------------------------------------
  // Termination measure

  lemma {:induction false} CardWithin(a: set<Point>, s: seq<Point>)
    requires forall x :: x in a ==> x in s
    ensures |a| <= |s|
  {
    if s != [] {
      var last := s[|s| - 1];
      var a' := a - {last};
      assert forall x :: x in a' ==> x in s[..|s| - 1] by {
        forall x | x in a' ensures x in s[..|s| - 1] {
          var i :| 0 <= i < |s| && s[i] == x;
          assert s[..|s| - 1][i] == x;
        }
      }
      CardWithin(a', s[..|s| - 1]);
    } else {
      assert a == {};
    }
  }

  /** A state not yet recorded weighs `absent`, a recorded one its count. */
  function Weight(closed: map<Point, nat>, v: Point, absent: nat): nat
  {
    if v in closed then closed[v] else absent
  }

  function Potential(closed: map<Point, nat>, universe: seq<Point>, absent: nat): nat
  {
    if universe == [] then 0
    else Potential(closed, universe[..|universe| - 1], absent)
         + Weight(closed, universe[|universe| - 1], absent)
  }

  /** Lowering the weight of one state of the universe, and no other,
      lowers the potential. */
  lemma {:induction false} PotentialDrops(closed: map<Point, nat>, closed': map<Point, nat>,
                                          universe: seq<Point>, absent: nat, v: Point)
    requires forall u :: Weight(closed', u, absent) <= Weight(closed, u, absent)
    ensures Potential(closed', universe, absent) <= Potential(closed, universe, absent)
    ensures v in universe && Weight(closed', v, absent) < Weight(closed, v, absent) ==>
            Potential(closed', universe, absent) < Potential(closed, universe, absent)
  {
    if universe != [] {
      var init := universe[..|universe| - 1];
      PotentialDrops(closed, closed', init, absent, v);
      if v in universe && v !in init {
        assert v == universe[|universe| - 1];
      }
    }
  }

  /** Every in-bounds cell of a w-by-h corner of the grid. */
  function Cells(w: nat, h: nat): seq<Point>
  {
    if w == 0 then [] else Cells(w - 1, h) + seq(h, j => Point(w - 1, j))
  }

  lemma {:induction false} CellsCover(w: nat, h: nat, p: Point)
    requires 0 <= p.re < w && 0 <= p.im < h
    ensures p in Cells(w, h)
  {
    if p.re == w - 1 {
      var col := seq(h, j => Point(w - 1, j));
      assert col[p.im] == p;
    } else {
      CellsCover(w - 1, h, p);
    }
  }

  /** The start followed by the whole grid. */
  function Universe(start: Point, bounds: Point): (u: seq<Point>)
    ensures start in u
    ensures forall p :: WithinBounds(p, bounds) ==> p in u
  {
    var w := if bounds.re >= 0 then bounds.re + 1 else 0;
    var h := if bounds.im >= 0 then bounds.im + 1 else 0;
    var u := [start] + Cells(w, h);
    assert forall p :: WithinBounds(p, bounds) ==> p in u by {
      forall p | WithinBounds(p, bounds) ensures p in u {
        CellsCover(w, h, p);
      }
    }
    u
  }

  // ---------------------------------------------------------------------
  // Optimality and completeness

  lemma WalkSuffix(w: seq<Point>, j: nat, walls: set<Point>, bounds: Point)
    requires IsWalk(w, walls, bounds) && j < |w|
    ensures IsWalk(w[j..], walls, bounds)
  {
    var t := w[j..];
    forall i | 0 <= i < |t| - 1 ensures t[i + 1] in SuccessorStates(t[i], walls, bounds) {
      assert t[i] == w[j + i] && t[i + 1] == w[j + i + 1];
    }
  }

  /** Following a walk to the goal from a recorded cell whose count is at
      most its index, the first cell that is not expanded has an entry in
      the queue whose estimate is at most the walk's length. */
  lemma {:induction false} FindPending(closed: map<Point, nat>, queue: seq<Entry>, goal: Point,
                                       walls: set<Point>, bounds: Point, w: seq<Point>, j: nat)
    requires Frontier(closed, queue, goal, walls, bounds)
    requires IsWalk(w, walls, bounds) && w[|w| - 1] == goal
    requires j < |w| && w[j] in closed && closed[w[j]] <= j
    ensures exists x :: x in queue && x.estimate <= |w| - 1
    decreases |w| - j
  {
    var v := w[j];
    assert Settled(v, closed, queue, goal, walls, bounds);
    if v != goal && Expanded(v, closed, walls, bounds) {
      assert j + 1 < |w|;
      assert w[j + 1] in SuccessorStates(w[j], walls, bounds);
      FindPending(closed, queue, goal, walls, bounds, w, j + 1);
    } else {
      var x :| x in queue && x.state == v && x.estimate <= closed[v] + Manhattan(v, goal);
      WalkSuffix(w, j, walls, bounds);
      EstimateAdmissible(w[j..], walls, bounds);
    }
  }

  /** The least entry is the goal: its estimate is a shortest walk. */
  lemma GoalFound(closed: map<Point, nat>, paths: map<Point, seq<Point>>, queue: seq<Entry>,
                  tiebreaker: nat, start: Point, goal: Point, walls: set<Point>, bounds: Point,
                  universe: seq<Point>, e: Entry)
    requires SearchInv(closed, paths, queue, tiebreaker, start, goal, walls, bounds, universe)
    requires e in queue && e.state == goal
    requires forall x :: x in queue ==> x == e || Precedes(e, x)
    ensures Shortest(e.estimate, start, goal, walls, bounds)
  {
    forall w | WalkBetween(w, start, goal, walls, bounds) ensures e.estimate + 1 <= |w| {
      FindPending(closed, queue, goal, walls, bounds, w, 0);
      var x :| x in queue && x.estimate <= |w| - 1;
    }
    var p := paths[goal];
    assert WalkBetween(p, start, goal, walls, bounds) && |p| == closed[goal] + 1;
  }

  /** An empty queue leaves no walk to the goal. */
  lemma NoneLeft(closed: map<Point, nat>, start: Point, goal: Point, walls: set<Point>, bounds: Point)
    requires start in closed && closed[start] == 0
    requires Frontier(closed, [], goal, walls, bounds)
    ensures forall w :: !WalkBetween(w, start, goal, walls, bounds)
  {
    forall w | WalkBetween(w, start, goal, walls, bounds) ensures false {
      FindPending(closed, [], goal, walls, bounds, w, 0);
    }
  }

  // ---------------------------------------------------------------------
  // One relaxation: `closed[succ] = new_steps` and a new queue entry

  /** Extending the walk to cur by the step to succ witnesses the new count. */
  lemma RelaxWitnessed(closed: map<Point, nat>, paths: map<Point, seq<Point>>, start: Point,
                       walls: set<Point>, bounds: Point, cur: Point, succ: Point)
    requires Witnessed(closed, paths, start, walls, bounds) && cur in closed
    requires succ in SuccessorStates(cur, walls, bounds)
    ensures cur in paths
    ensures Witnessed(closed[succ := closed[cur] + 1], paths[succ := paths[cur] + [succ]],
                      start, walls, bounds)
  {
    var p := paths[cur] + [succ];
    assert WalkBetween(paths[cur], start, cur, walls, bounds);
    assert IsWalk(p, walls, bounds) by {
      forall i | 0 <= i < |p| - 1 ensures p[i + 1] in SuccessorStates(p[i], walls, bounds) {
        if i < |p| - 2 {
          assert p[i] == paths[cur][i] && p[i + 1] == paths[cur][i + 1];
        }
      }
    }
  }

  lemma RelaxQueueSound(closed: map<Point, nat>, queue: seq<Entry>, tiebreaker: nat,
                        succ: Point, g: nat, estimate: nat)
    requires QueueSound(closed, queue, tiebreaker)
    requires succ !in closed || g < closed[succ]
    requires g <= estimate
    ensures QueueSound(closed[succ := g], queue + [Entry(estimate, tiebreaker, succ)], tiebreaker + 1)
  {
    var q := queue + [Entry(estimate, tiebreaker, succ)];
    assert forall x :: x in q ==> x in queue || x == Entry(estimate, tiebreaker, succ);
  }

  lemma RelaxFrontier(closed: map<Point, nat>, queue: seq<Entry>, goal: Point, walls: set<Point>,
                      bounds: Point, cur: Point, succ: Point, g: nat, tiebreaker: nat)
    requires FrontierBut(cur, closed, queue, goal, walls, bounds)
    requires succ !in closed || g < closed[succ]
    ensures FrontierBut(cur, closed[succ := g], queue + [Entry(g + Manhattan(succ, goal), tiebreaker, succ)],
                        goal, walls, bounds)
  {
    var closed' := closed[succ := g];
    var e := Entry(g + Manhattan(succ, goal), tiebreaker, succ);
    var queue' := queue + [e];
    forall v | v in closed' && v != cur ensures Settled(v, closed', queue', goal, walls, bounds) {
      if v == succ {
        assert e in queue';
      } else {
        assert Settled(v, closed, queue, goal, walls, bounds);
        if Pending(queue, v, closed[v] + Manhattan(v, goal)) {
          var x :| x in queue && x.state == v && x.estimate <= closed[v] + Manhattan(v, goal);
          assert x in queue';
        } else {
          assert Expanded(v, closed', walls, bounds);
        }
      }
    }
  }

  lemma RelaxBounded(closed: map<Point, nat>, closed': map<Point, nat>, universe: seq<Point>,
                     absent: nat, cur: Point, succ: Point, g: nat)
    requires Bounded(closed, universe) && cur in closed && succ in universe
    requires absent == |universe| + 1 && closed' == closed[succ := g]
    requires succ !in closed ==> g == closed[cur] + 1
    requires succ in closed ==> g < closed[succ]
    ensures Bounded(closed', universe)
    ensures Weight(closed', succ, absent) < Weight(closed, succ, absent)
    ensures forall u :: Weight(closed', u, absent) <= Weight(closed, u, absent)
  {
    if succ !in closed {
      assert |closed'| == |closed| + 1;
      CardWithin(closed.Keys, universe);
    }
  }

  /** Whether the step counts of `after` only improve on `before`, every
      new or changed count being one more than the count of `cur`. */
  ghost predicate OnlyImproves(before: map<Point, nat>, after: map<Point, nat>, cur: Point,
                               walls: set<Point>, bounds: Point)
    requires cur in before
  {
    (forall v :: v in before ==> v in after && after[v] <= before[v]) &&
    (forall v :: v in after && (v !in before || after[v] != before[v]) ==>
       v in SuccessorStates(cur, walls, bounds) && after[v] == before[cur] + 1)
  }

  lemma RelaxImproves(closed: map<Point, nat>, before: map<Point, nat>, cur: Point, succ: Point,
                      walls: set<Point>, bounds: Point)
    requires cur in closed && cur in before && before[cur] == closed[cur]
    requires OnlyImproves(closed, before, cur, walls, bounds)
    requires succ in SuccessorStates(cur, walls, bounds)
    requires succ !in before || closed[cur] + 1 < before[succ]
    ensures succ != cur
    ensures OnlyImproves(closed, before[succ := closed[cur] + 1], cur, walls, bounds)
  {
    SuccessorsExact(cur, succ, walls, bounds);
  }

  lemma ImprovesRefl(closed: map<Point, nat>, cur: Point, walls: set<Point>, bounds: Point)
    requires cur in closed
    ensures OnlyImproves(closed, closed, cur, walls, bounds)
  {
  }

  // ---------------------------------------------------------------------
  // The search

  /** A sound search state in which every state but `cur` is settled. */
  ghost predicate SearchBut(cur: Point, c: map<Point, nat>, p: map<Point, seq<Point>>, q: seq<Entry>,
                            t: nat, start: Point, goal: Point, walls: set<Point>, bounds: Point,
                            universe: seq<Point>)
  {
    cur in c && start in c && c[start] == 0 &&
    Witnessed(c, p, start, walls, bounds) && QueueSound(c, q, t) &&
    FrontierBut(cur, c, q, goal, walls, bounds) && Bounded(c, universe) &&
    (forall v :: WithinBounds(v, bounds) ==> v in universe)
  }

  /** Before the k-th successor, the successors so far are recorded with
      at most one step more than `cur`, and the counts have only improved
      on `closed`. */
  ghost predicate ExpandProgress(closed: map<Point, nat>, cur: Point, walls: set<Point>, bounds: Point,
                                 succs: seq<Point>, k: nat, c: map<Point, nat>)
  {
    k <= |succs| && cur in closed && cur in c && c[cur] == closed[cur] &&
    (forall i :: 0 <= i < k ==> succs[i] in c && c[succs[i]] <= closed[cur] + 1) &&
    OnlyImproves(closed, c, cur, walls, bounds)
  }

  /** Nothing has changed yet, or the potential has dropped. */
  ghost predicate Progressed(closed: map<Point, nat>, queue: seq<Entry>, universe: seq<Point>,
                             c: map<Point, nat>, q: seq<Entry>)
  {
    (c == closed && q == queue) ||
    Potential(c, universe, |universe| + 1) < Potential(closed, universe, |universe| + 1)
  }

  /** What the loop over the successors of `cur` keeps. */
  ghost predicate ExpandInv(closed: map<Point, nat>, queue: seq<Entry>, cur: Point, start: Point,
                            goal: Point, walls: set<Point>, bounds: Point, universe: seq<Point>,
                            succs: seq<Point>, k: nat, c: map<Point, nat>, p: map<Point, seq<Point>>,
                            q: seq<Entry>, t: nat)
  {
    succs == SuccessorStates(cur, walls, bounds) && cur != goal &&
    SearchBut(cur, c, p, q, t, start, goal, walls, bounds, universe) &&
    ExpandProgress(closed, cur, walls, bounds, succs, k, c) &&
    Progressed(closed, queue, universe, c, q)
  }

  /** ExpandInv is the conjunction of its parts. */
  lemma ExpandInvParts(closed: map<Point, nat>, queue: seq<Entry>, cur: Point, start: Point,
                       goal: Point, walls: set<Point>, bounds: Point, universe: seq<Point>,
                       succs: seq<Point>, k: nat, c: map<Point, nat>, p: map<Point, seq<Point>>,
                       q: seq<Entry>, t: nat)
    ensures ExpandInv(closed, queue, cur, start, goal, walls, bounds, universe, succs, k, c, p, q, t)
        <==> succs == SuccessorStates(cur, walls, bounds) && cur != goal
             && SearchBut(cur, c, p, q, t, start, goal, walls, bounds, universe)
             && ExpandProgress(closed, cur, walls, bounds, succs, k, c)
             && Progressed(closed, queue, universe, c, q)
  {
  }

  lemma ExpandStart(closed: map<Point, nat>, paths: map<Point, seq<Point>>, queue: seq<Entry>,
                    tiebreaker: nat, cur: Point, start: Point, goal: Point, walls: set<Point>,
                    bounds: Point, universe: seq<Point>)
    requires cur in closed && cur != goal && start in closed && closed[start] == 0
    requires Witnessed(closed, paths, start, walls, bounds)
    requires QueueSound(closed, queue, tiebreaker)
    requires FrontierBut(cur, closed, queue, goal, walls, bounds)
    requires Bounded(closed, universe)
    requires forall v :: WithinBounds(v, bounds) ==> v in universe
    ensures ExpandInv(closed, queue, cur, start, goal, walls, bounds, universe,
                      SuccessorStates(cur, walls, bounds), 0, closed, paths, queue, tiebreaker)
  {
    ImprovesRefl(closed, cur, walls, bounds);
  }

  lemma RelaxState(cur: Point, c: map<Point, nat>, p: map<Point, seq<Point>>, q: seq<Entry>, t: nat,
                   start: Point, goal: Point, walls: set<Point>, bounds: Point, universe: seq<Point>,
                   succ: Point)
    requires SearchBut(cur, c, p, q, t, start, goal, walls, bounds, universe)
    requires succ in SuccessorStates(cur, walls, bounds)
    requires succ !in c || c[cur] + 1 < c[succ]
    ensures cur in p
    ensures SearchBut(cur, c[succ := c[cur] + 1], p[succ := p[cur] + [succ]],
                      q + [Entry(c[cur] + 1 + Manhattan(succ, goal), t, succ)], t + 1,
                      start, goal, walls, bounds, universe)
  {
    var g := c[cur] + 1;
    SuccessorsExact(cur, succ, walls, bounds);
    RelaxWitnessed(c, p, start, walls, bounds, cur, succ);
    RelaxQueueSound(c, q, t, succ, g, g + Manhattan(succ, goal));
    RelaxFrontier(c, q, goal, walls, bounds, cur, succ, g, t);
    RelaxBounded(c, c[succ := g], universe, |universe| + 1, cur, succ, g);
  }

  lemma RelaxProgress(closed: map<Point, nat>, cur: Point, walls: set<Point>, bounds: Point,
                      succs: seq<Point>, k: nat, c: map<Point, nat>)
    requires ExpandProgress(closed, cur, walls, bounds, succs, k, c)
    requires k < |succs| && succs[k] in SuccessorStates(cur, walls, bounds)
    requires succs[k] !in c || c[cur] + 1 < c[succs[k]]
    ensures ExpandProgress(closed, cur, walls, bounds, succs, k + 1, c[succs[k] := c[cur] + 1])
  {
    RelaxImproves(closed, c, cur, succs[k], walls, bounds);
  }

  lemma RelaxMeasure(closed: map<Point, nat>, queue: seq<Entry>, universe: seq<Point>,
                     c: map<Point, nat>, q: seq<Entry>, cur: Point, succ: Point, e: Entry)
    requires Progressed(closed, queue, universe, c, q)
    requires Bounded(c, universe) && cur in c && succ in universe
    requires succ !in c || c[cur] + 1 < c[succ]
    ensures Progressed(closed, queue, universe, c[succ := c[cur] + 1], q + [e])
  {
    var g := c[cur] + 1;
    RelaxBounded(c, c[succ := g], universe, |universe| + 1, cur, succ, g);
    PotentialDrops(c, c[succ := g], universe, |universe| + 1, succ);
  }

  /** While `cur` is expanded, the counts are bounded by the universe and
      hold `cur`, and every free cell lies in the universe. */
  lemma SearchButCovers(cur: Point, c: map<Point, nat>, p: map<Point, seq<Point>>, q: seq<Entry>,
                        t: nat, start: Point, goal: Point, walls: set<Point>, bounds: Point,
                        universe: seq<Point>, v: Point)
    requires SearchBut(cur, c, p, q, t, start, goal, walls, bounds, universe)
    requires Free(v, walls, bounds)
    ensures Bounded(c, universe) && cur in c && v in universe
  {
  }

  /** `closed[succ] = new_steps` with a new entry, when succ is new or
      its count strictly improves. */
  lemma ExpandRelax(closed: map<Point, nat>, queue: seq<Entry>, cur: Point, start: Point,
                    goal: Point, walls: set<Point>, bounds: Point, universe: seq<Point>,
                    succs: seq<Point>, k: nat, c: map<Point, nat>, p: map<Point, seq<Point>>,
                    q: seq<Entry>, t: nat)
    requires ExpandInv(closed, queue, cur, start, goal, walls, bounds, universe, succs, k, c, p, q, t)
    requires k < |succs| && (succs[k] !in c || c[cur] + 1 < c[succs[k]])
    ensures cur in p
    ensures var succ, g := succs[k], c[cur] + 1;
            ExpandInv(closed, queue, cur, start, goal, walls, bounds, universe, succs, k + 1,
                      c[succ := g], p[succ := p[cur] + [succ]],
                      q + [Entry(g + Manhattan(succ, goal), t, succ)], t + 1)
  {
    hide *;
    ExpandInvParts(closed, queue, cur, start, goal, walls, bounds, universe, succs, k, c, p, q, t);
    var succ := succs[k];
    assert succ in SuccessorStates(cur, walls, bounds);
    RelaxState(cur, c, p, q, t, start, goal, walls, bounds, universe, succ);
    RelaxProgress(closed, cur, walls, bounds, succs, k, c);
    SuccessorsExact(cur, succ, walls, bounds);
    SearchButCovers(cur, c, p, q, t, start, goal, walls, bounds, universe, succ);
    RelaxMeasure(closed, queue, universe, c, q, cur, succ,
                 Entry(c[cur] + 1 + Manhattan(succ, goal), t, succ));
    ExpandInvParts(closed, queue, cur, start, goal, walls, bounds, universe, succs, k + 1,
                   c[succ := c[cur] + 1], p[succ := p[cur] + [succ]],
                   q + [Entry(c[cur] + 1 + Manhattan(succ, goal), t, succ)], t + 1);
  }

  lemma ExpandSkip(closed: map<Point, nat>, queue: seq<Entry>, cur: Point, start: Point,
                   goal: Point, walls: set<Point>, bounds: Point, universe: seq<Point>,
                   succs: seq<Point>, k: nat, c: map<Point, nat>, p: map<Point, seq<Point>>,
                   q: seq<Entry>, t: nat)
    requires ExpandInv(closed, queue, cur, start, goal, walls, bounds, universe, succs, k, c, p, q, t)
    requires k < |succs| && succs[k] in c && c[cur] + 1 >= c[succs[k]]
    ensures ExpandInv(closed, queue, cur, start, goal, walls, bounds, universe, succs, k + 1, c, p, q, t)
  {
  }

  /** The loop over the successors of `cur`: each successor is recorded
      and queued when it is new or its count strictly improves. */
  method Expand(closed: map<Point, nat>, ghost paths: map<Point, seq<Point>>, queue: seq<Entry>,
                tiebreaker: nat, cur: Point, start: Point, goal: Point, walls: set<Point>,
                bounds: Point, ghost universe: seq<Point>)
    returns (closed': map<Point, nat>, ghost paths': map<Point, seq<Point>>, queue': seq<Entry>,
             tiebreaker': nat)
    requires cur in closed && cur != goal && start in closed && closed[start] == 0
    requires Witnessed(closed, paths, start, walls, bounds)
    requires QueueSound(closed, queue, tiebreaker)
    requires FrontierBut(cur, closed, queue, goal, walls, bounds)
    requires Bounded(closed, universe)
    requires forall v :: WithinBounds(v, bounds) ==> v in universe
    ensures SearchInv(closed', paths', queue', tiebreaker', start, goal, walls, bounds, universe)
    ensures OnlyImproves(closed, closed', cur, walls, bounds)
    ensures (closed' == closed && queue' == queue) ||
            Potential(closed', universe, |universe| + 1) < Potential(closed, universe, |universe| + 1)
  {
    hide *;
    var succs := SuccessorStates(cur, walls, bounds);
    ExpandStart(closed, paths, queue, tiebreaker, cur, start, goal, walls, bounds, universe);
    closed', paths', queue', tiebreaker' := closed, paths, queue, tiebreaker;
    for k := 0 to |succs|
      invariant ExpandInv(closed, queue, cur, start, goal, walls, bounds, universe, succs, k,
                          closed', paths', queue', tiebreaker')
      invariant cur in closed' && closed'[cur] == closed[cur]
    {
      var succ := succs[k];
      var newSteps := closed'[cur] + 1;
      if succ !in closed' || newSteps < closed'[succ] {
        ExpandRelax(closed, queue, cur, start, goal, walls, bounds, universe, succs, k,
                    closed', paths', queue', tiebreaker');
        closed' := closed'[succ := newSteps];
        paths' := paths'[succ := paths'[cur] + [succ]];
        queue' := queue' + [Entry(newSteps + Manhattan(succ, goal), tiebreaker', succ)];
        tiebreaker' := tiebreaker' + 1;
      } else {
        ExpandSkip(closed, queue, cur, start, goal, walls, bounds, universe, succs, k,
                   closed', paths', queue', tiebreaker');
      }
    }
    ExpandFinish(closed, queue, cur, start, goal, walls, bounds, universe, succs,
                 closed', paths', queue', tiebreaker');
  }

  /** Once every successor of `cur` is recorded with at most one step more,
      `cur` is expanded and the whole frontier is settled again. */
  lemma ExpandFinish(closed: map<Point, nat>, queue: seq<Entry>, cur: Point, start: Point,
                     goal: Point, walls: set<Point>, bounds: Point, universe: seq<Point>,
                     succs: seq<Point>, c: map<Point, nat>, p: map<Point, seq<Point>>,
                     q: seq<Entry>, t: nat)
    requires ExpandInv(closed, queue, cur, start, goal, walls, bounds, universe, succs, |succs|, c, p, q, t)
    ensures SearchInv(c, p, q, t, start, goal, walls, bounds, universe)
    ensures OnlyImproves(closed, c, cur, walls, bounds)
    ensures (c == closed && q == queue) ||
            Potential(c, universe, |universe| + 1) < Potential(closed, universe, |universe| + 1)
  {
    assert Expanded(cur, c, walls, bounds);
    assert Settled(cur, c, q, goal, walls, bounds);
  }

  lemma SearchStart(start: Point, goal: Point, walls: set<Point>, bounds: Point, universe: seq<Point>)
    requires start in universe
    ensures SearchInv(map[start := 0], map[start := [start]], [Entry(0, 0, start)], 1,
                      start, goal, walls, bounds, universe)
  {
    var queue := [Entry(0, 0, start)];
    assert queue[0] in queue;
    assert WalkBetween([start], start, start, walls, bounds);
    assert Settled(start, map[start := 0], queue, goal, walls, bounds);
  }

  /** Taking a non-goal entry out leaves the others settled and sound. */
  lemma PopKeeps(closed: map<Point, nat>, paths: map<Point, seq<Point>>, queue: seq<Entry>,
                 tiebreaker: nat, start: Point, goal: Point, walls: set<Point>, bounds: Point,
                 universe: seq<Point>, e: Entry, rest: seq<Entry>)
    requires SearchInv(closed, paths, queue, tiebreaker, start, goal, walls, bounds, universe)
    requires e in queue && InsertionOrder(rest)
    requires forall x :: x in queue <==> x == e || x in rest
    ensures e.state in closed
    ensures QueueSound(closed, rest, tiebreaker)
    ensures FrontierBut(e.state, closed, rest, goal, walls, bounds)
  {
    forall v | v in closed && v != e.state ensures Settled(v, closed, rest, goal, walls, bounds) {
      assert Settled(v, closed, queue, goal, walls, bounds);
      if Pending(queue, v, closed[v] + Manhattan(v, goal)) {
        var x :| x in queue && x.state == v && x.estimate <= closed[v] + Manhattan(v, goal);
        assert x in rest;
      }
    }
  }

  /** `astar_search(walls, start, goal, bounds)`: the number of steps of a
      shortest walk from start to goal, or None when there is none. */
  method AStarSearch(walls: set<Point>, start: Point, goal: Point, bounds: Point) returns (r: Option<nat>)
    ensures r.Some? ==> Shortest(r.value, start, goal, walls, bounds)
    ensures r.None? ==> forall w :: !WalkBetween(w, start, goal, walls, bounds)
  {
    var closed := map[start := 0];
    ghost var paths := map[start := [start]];
    var queue := [Entry(0, 0, start)];
    var tiebreaker := 1;
    ghost var universe := Universe(start, bounds);
    SearchStart(start, goal, walls, bounds, universe);
    while queue != []
      invariant SearchInv(closed, paths, queue, tiebreaker, start, goal, walls, bounds, universe)
      invariant forall v :: WithinBounds(v, bounds) ==> v in universe
      decreases Potential(closed, universe, |universe| + 1), |queue|
    {
      var e, rest := Get(queue);
      if e.state == goal {
        GoalFound(closed, paths, queue, tiebreaker, start, goal, walls, bounds, universe, e);
        return Some(e.estimate);
      }
      PopKeeps(closed, paths, queue, tiebreaker, start, goal, walls, bounds, universe, e, rest);
      closed, paths, queue, tiebreaker :=
        Expand(closed, paths, rest, tiebreaker, e.state, start, goal, walls, bounds, universe);
    }
    NoneLeft(closed, start, goal, walls, bounds);
    return None;
  }

  // ---------------------------------------------------------------------
  // Parts 1 and 2

  const Origin := Point(0, 0)

  /** `set(coords[:n])`: the first n coordinates to fall. */
  function Fallen(coords: seq<Point>, n: nat): set<Point>
    requires n <= |coords|
  {
    set j | 0 <= j < n :: coords[j]
  }

  lemma FallenNext(coords: seq<Point>, n: nat)
    requires n < |coords|
    ensures Fallen(coords, n + 1) == Fallen(coords, n) + {coords[n]}
  {
    assert coords[n] in Fallen(coords, n + 1);
  }

  /** The search from the origin to the far corner after the first
      `length` coordinates have fallen. */
  method Part1(coords: seq<Point>, bounds: Point, length: nat) returns (r: Option<nat>)
    ensures var walls := Fallen(coords, Min(length, |coords|));
            (r.Some? ==> Shortest(r.value, Origin, bounds, walls, bounds)) &&
            (r.None? ==> forall w :: !WalkBetween(w, Origin, bounds, walls, bounds))
  {
    var walls := Fallen(coords, Min(length, |coords|));
    r := AStarSearch(walls, Origin, bounds, bounds);
  }

  /** The search returns a truthy value: some walk leads from the origin
      to a far corner that is not the origin itself. */
  ghost predicate Open(walls: set<Point>, bounds: Point)
  {
    Origin != bounds && exists w :: WalkBetween(w, Origin, bounds, walls, bounds)
  }

  /** A search result is truthy exactly when the corner is open. */
  lemma TruthyIffOpen(r: Option<nat>, walls: set<Point>, bounds: Point)
    requires r.Some? ==> Shortest(r.value, Origin, bounds, walls, bounds)
    requires r.None? ==> forall w :: !WalkBetween(w, Origin, bounds, walls, bounds)
    ensures (r.Some? && r.value != 0) <==> Open(walls, bounds)
  {
    if r.Some? {
      if r.value == 0 {
        ZeroStepsStayAtStart(Origin, bounds, walls, bounds);
      } else if Origin == bounds {
        assert WalkBetween([Origin], Origin, bounds, walls, bounds);
      }
    }
  }

  /** Coordinate i is the first whose fall leaves the corner closed: the
      corner is open after each of the first i falls. */
  ghost predicate FirstBlocking(coords: seq<Point>, bounds: Point, i: nat)
  {
    i < |coords| && !Open(Fallen(coords, i + 1), bounds) &&
    forall j :: 0 < j <= i ==> Open(Fallen(coords, j), bounds)
  }

  /** `f"{x},{y}"` for the integer parts of a coordinate. */
  function Format(p: Point): string
  {
    ShowInt(p.re) + "," + ShowInt(p.im)
  }

  /** Drops the coordinates one by one, skipping repeats, and reports the
      first one after which the search comes back falsy. */
  method Part2(coords: seq<Point>, bounds: Point) returns (r: Option<string>)
    ensures r.None? ==> forall n :: 0 < n <= |coords| ==> Open(Fallen(coords, n), bounds)
    ensures r.Some? ==> exists i :: 0 <= i < |coords| && FirstBlocking(coords, bounds, i) &&
                                   r.value == Format(coords[i])
  {
    var walls: set<Point> := {};
    for i := 0 to |coords|
      invariant walls == Fallen(coords, i)
      invariant forall j :: 0 < j <= i ==> Open(Fallen(coords, j), bounds)
    {
      var xy := coords[i];
      FallenNext(coords, i);
      if xy in walls {
        assert Fallen(coords, i + 1) == Fallen(coords, i);
        continue;
      }
      walls := walls + {xy};
      var path := AStarSearch(walls, Origin, bounds, bounds);
      TruthyIffOpen(path, walls, bounds);
      if path.None? || path.value == 0 {
        assert FirstBlocking(coords, bounds, i);
        return Some(Format(xy));
      }
      assert Open(Fallen(coords, i + 1), bounds);
    }
    return None;
  }
}
