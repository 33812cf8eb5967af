/** Day 16: the reindeer maze.

    A state is a free cell together with the way the reindeer faces. The
    solver builds a weighted directed graph over these states (a step
    forward costs 1, a quarter turn on the spot costs 1000), asks a
    shortest-path search for every best path from the start, facing east,
    to the end cell in each of the four orientations, scores those paths
    again from their orientation changes, keeps the cheapest, and in part 2
    counts the cells lying on any of them.

    The graph search itself belongs to a graph library; it is a parameter
    here (`Search`), and the model proves what the solver does around it. */
module Day16 {
  import opened Common

  const North := Point(0, -1)
  const South := Point(0, 1)
  const East := Point(1, 0)
  const West := Point(-1, 0)

  /** Multiplying an orientation by i turns it right, by -i left. */
  const TurnRight := Point(0, 1)
  const TurnLeft := Point(0, -1)

  const StepCost: nat := 1
  const TurnCost: nat := 1000

  /** The orientations in the order the solver visits them. */
  const Orients: seq<Point> := [North, South, East, West]
  const Turns: seq<Point> := [TurnRight, TurnLeft]

  /** The product o·turn for the two turns ±i. */
  function Rotated(o: Point, turn: Point): Point
    requires turn in Turns
  {
    if turn == TurnRight then o.MulI() else o.MulNegI()
  }

  datatype State = State(pos: Point, orient: Point)

  /** A directed graph as its weighted edges; adding an edge that is
      already there replaces its weight. */
  type Weights = map<(State, State), nat>

  // ---------------------------------------------------------------------
  // The state graph

  predicate InBounds(p: Point, width: nat, height: nat)
  {
    0 <= p.re < width && 0 <= p.im < height
  }

  /** A state the graph builder gives outgoing edges: a cell of the box
      that is not a wall, facing one of the four ways. */
  predicate IsNode(walls: set<Point>, width: nat, height: nat, s: State)
  {
    InBounds(s.pos, width, height) && s.pos !in walls && s.orient in Orients
  }

  /** One step ahead into a cell that is not a wall (in the box or not). */
  predicate Forward(walls: set<Point>, u: State, v: State)
  {
    v == State(u.pos.Add(u.orient), u.orient) && v.pos !in walls
  }

  /** A quarter turn on the spot. */
  predicate Turn(u: State, v: State)
  {
    v == State(u.pos, Rotated(u.orient, TurnRight)) || v == State(u.pos, Rotated(u.orient, TurnLeft))
  }

  predicate IsEdge(walls: set<Point>, width: nat, height: nat, u: State, v: State)
  {
    IsNode(walls, width, height, u) && (Forward(walls, u, v) || Turn(u, v))
  }

  /** The weight the builder gives an edge of either kind. */
  function Weight(u: State, v: State): nat
  {
    if Turn(u, v) then TurnCost else StepCost
  }

  /** The graph of the maze: an edge exactly where IsEdge says, weighted
      by its kind. */
  ghost predicate IsMazeGraph(m: Weights, walls: set<Point>, width: nat, height: nat)
  {
    (forall u, v :: (u, v) in m <==> IsEdge(walls, width, height, u, v)) &&
    (forall u, v :: (u, v) in m ==> m[(u, v)] == Weight(u, v))
  }

  /** The states one edge leads to from u. */
  function Successors(walls: set<Point>, u: State): set<State>
  {
    (if u.pos.Add(u.orient) !in walls then {State(u.pos.Add(u.orient), u.orient)} else {}) +
    {State(u.pos, Rotated(u.orient, TurnRight)), State(u.pos, Rotated(u.orient, TurnLeft))}
  }

  lemma SuccessorsExact(walls: set<Point>, u: State, v: State)
    ensures v in Successors(walls, u) <==> Forward(walls, u, v) || Turn(u, v)
  {
  }

  ghost function Nodes(walls: set<Point>, width: nat, height: nat): (s: set<State>)
    ensures forall u :: u in s <==> IsNode(walls, width, height, u)
  {
    var s := set x: int, y: int, k: int | 0 <= x < width && 0 <= y < height && 0 <= k < |Orients| &&
                                          Point(x, y) !in walls :: State(Point(x, y), Orients[k]);
    assert forall u :: IsNode(walls, width, height, u) ==> u in s by {
      forall u | IsNode(walls, width, height, u)
        ensures u in s
      {
        var k :| 0 <= k < |Orients| && Orients[k] == u.orient;
        assert u == State(Point(u.pos.re, u.pos.im), Orients[k]);
      }
    }
    s
  }

  /** The one graph that satisfies IsMazeGraph. */
  ghost function MazeGraph(walls: set<Point>, width: nat, height: nat): (m: Weights)
    ensures IsMazeGraph(m, walls, width, height)
  {
    var nodes := Nodes(walls, width, height);
    var pairs := set u, v | u in nodes && v in Successors(walls, u) :: (u, v);
    var m := map e | e in pairs :: Weight(e.0, e.1);
    assert forall u, v :: (u, v) in m <==> IsEdge(walls, width, height, u, v) by {
      forall u, v
        ensures (u, v) in m <==> IsEdge(walls, width, height, u, v)
      {
        SuccessorsExact(walls, u, v);
      }
    }
    m
  }

  /** A graph is determined by what IsMazeGraph says of it. */
  lemma MazeGraphUnique(m: Weights, walls: set<Point>, width: nat, height: nat)
    requires IsMazeGraph(m, walls, width, height)
    ensures m == MazeGraph(walls, width, height)
  {
    var g := MazeGraph(walls, width, height);
    assert m.Keys == g.Keys by {
      forall e | e in m ensures e in g { assert (e.0, e.1) in m; }
      forall e | e in g ensures e in m { assert (e.0, e.1) in g; }
    }
    forall e | e in m ensures m[e] == g[e] { assert (e.0, e.1) in m; }
  }

  /** The graph library's directed graph, as far as the builder uses it. */
  class DiGraph {
    var weight: Weights

    constructor ()
      ensures weight == map[]
    {
      weight := map[];
    }

    /** Adds the edge u → v, or replaces its weight. */
    method AddEdge(u: State, v: State, w: nat)
      modifies this
      ensures weight == old(weight)[(u, v) := w]
    {
      weight := weight[(u, v) := w];
    }
  }

  /** The edges the builder adds for one state, up to the t-th turn. */
  function OutEdges(walls: set<Point>, curr: State, t: nat): Weights
    requires t <= |Turns|
  {
    if t == 0 then
      if curr.pos.Add(curr.orient) !in walls then map[(curr, State(curr.pos.Add(curr.orient), curr.orient)) := StepCost]
      else map[]
    else OutEdges(walls, curr, t - 1)[(curr, State(curr.pos, Rotated(curr.orient, Turns[t - 1]))) := TurnCost]
  }

  /** The edges added for one state are its forward step, when the cell
      ahead is not a wall, and its two turns, each with its weight. */
  lemma OutEdgesExact(walls: set<Point>, curr: State, u: State, v: State)
    requires curr.orient in Orients
    ensures (u, v) in OutEdges(walls, curr, |Turns|) <==> u == curr && (Forward(walls, u, v) || Turn(u, v))
    ensures (u, v) in OutEdges(walls, curr, |Turns|) ==> OutEdges(walls, curr, |Turns|)[(u, v)] == Weight(u, v)
  {
    var right := State(curr.pos, Rotated(curr.orient, TurnRight));
    var left := State(curr.pos, Rotated(curr.orient, TurnLeft));
    assert Turns[0] == TurnRight && Turns[1] == TurnLeft;
    assert OutEdges(walls, curr, 2) == OutEdges(walls, curr, 0)[(curr, right) := TurnCost][(curr, left) := TurnCost];
    assert curr.pos.Add(curr.orient) != curr.pos;
    assert right != left && Turn(curr, right) && Turn(curr, left);
  }

  /** Adds the edges of one state facing one way: forward unless a wall
      is ahead, then a right and a left turn. */
  method AddStateEdges(graph: DiGraph, walls: set<Point>, curr: State)
    modifies graph
    ensures graph.weight == old(graph.weight) + OutEdges(walls, curr, |Turns|)
  {
    var pos, orient := curr.pos, curr.orient;
    if pos.Add(orient) !in walls {
      graph.AddEdge(curr, State(pos.Add(orient), orient), StepCost);
    }
    for t := 0 to |Turns|
      invariant graph.weight == old(graph.weight) + OutEdges(walls, curr, t)
    {
      var next := State(pos, Rotated(orient, Turns[t]));
      assert OutEdges(walls, curr, t + 1) == OutEdges(walls, curr, t)[(curr, next) := TurnCost];
      UnionUpdate(old(graph.weight), OutEdges(walls, curr, t), (curr, next), TurnCost);
      graph.AddEdge(curr, next, TurnCost);
    }
  }

  /** Updating a union updates its right-hand side. */
  lemma UnionUpdate(a: Weights, b: Weights, e: (State, State), w: nat)
    ensures (a + b)[e := w] == a + b[e := w]
  {
  }

  /** Row-major scanning order: p comes before column x of row y. */
  predicate Scanned(p: Point, y: int, x: int)
  {
    p.im < y || (p.im == y && p.re < x)
  }

  /** The graph holds the edges of every node scanned so far, and of the
      cell (x, y) those of the first k orientations. */
  ghost predicate BuiltUpTo(m: Weights, walls: set<Point>, width: nat, height: nat, y: int, x: int, k: nat)
  {
    k <= |Orients| &&
    (forall u, v :: (u, v) in m <==>
       IsEdge(walls, width, height, u, v) &&
       (Scanned(u.pos, y, x) || (u.pos == Point(x, y) && u.orient in Orients[..k]))) &&
    (forall u, v :: (u, v) in m ==> m[(u, v)] == Weight(u, v))
  }

  /** Builds the graph over every free cell of the width × height box. */
  method BuildGraph(walls: set<Point>, width: nat, height: nat) returns (graph: DiGraph)
    ensures fresh(graph)
    ensures IsMazeGraph(graph.weight, walls, width, height)
  {
    graph := new DiGraph();
    for h := 0 to height
      invariant BuiltUpTo(graph.weight, walls, width, height, h, 0, 0)
    {
      for w := 0 to width
        invariant BuiltUpTo(graph.weight, walls, width, height, h, w, 0)
      {
        var pos := Point(w, h);
        if pos in walls {
          continue;
        }
        for k := 0 to |Orients|
          invariant BuiltUpTo(graph.weight, walls, width, height, h, w, k)
        {
          ghost var before := graph.weight;
          AddStateEdges(graph, walls, State(pos, Orients[k]));
          forall u, v
            ensures (u, v) in OutEdges(walls, State(pos, Orients[k]), |Turns|) <==>
                    u == State(pos, Orients[k]) && (Forward(walls, u, v) || Turn(u, v))
            ensures (u, v) in OutEdges(walls, State(pos, Orients[k]), |Turns|) ==>
                    OutEdges(walls, State(pos, Orients[k]), |Turns|)[(u, v)] == Weight(u, v)
          {
            OutEdgesExact(walls, State(pos, Orients[k]), u, v);
          }
          assert Orients[..k + 1] == Orients[..k] + [Orients[k]];
        }
      }
    }
  }

  // ---------------------------------------------------------------------
  // What the graph looks like

  /** No edge leaves or enters a wall cell, and every edge leaves a cell
      of the box. */
  lemma NoWallStates(m: Weights, walls: set<Point>, width: nat, height: nat, u: State, v: State)
    requires IsMazeGraph(m, walls, width, height) && (u, v) in m
    ensures u.pos !in walls && v.pos !in walls && InBounds(u.pos, width, height)
  {
  }

  /** From a node, the step forward is an edge of weight 1 exactly when
      the cell ahead is not a wall, whether or not that cell is in the box. */
  lemma ForwardEdge(m: Weights, walls: set<Point>, width: nat, height: nat, u: State)
    requires IsMazeGraph(m, walls, width, height) && IsNode(walls, width, height, u)
    ensures var v := State(u.pos.Add(u.orient), u.orient);
            ((u, v) in m <==> v.pos !in walls) && ((u, v) in m ==> m[(u, v)] == StepCost)
  {
    hide Rotated;
    var v := State(u.pos.Add(u.orient), u.orient);
    assert u.pos.Add(u.orient) != u.pos;
    assert !Turn(u, v);
    assert IsEdge(walls, width, height, u, v) <==> v.pos !in walls;
    assert (u, v) in m <==> IsEdge(walls, width, height, u, v);
  }

  /** Every node has its two turning edges, of weight 1000, leading to
      nodes. */
  lemma TurnEdges(m: Weights, walls: set<Point>, width: nat, height: nat, u: State)
    requires IsMazeGraph(m, walls, width, height) && IsNode(walls, width, height, u)
    ensures forall t :: t in Turns ==>
      var v := State(u.pos, Rotated(u.orient, t));
      (u, v) in m && m[(u, v)] == TurnCost && IsNode(walls, width, height, v)
  {
  }

  /** Four right turns, or a right then a left turn, face the way the
      reindeer started. */
  lemma TurnsReturn(o: Point)
    requires o in Orients
    ensures Rotated(Rotated(Rotated(Rotated(o, TurnRight), TurnRight), TurnRight), TurnRight) == o
    ensures Rotated(Rotated(o, TurnRight), TurnLeft) == o && Rotated(Rotated(o, TurnLeft), TurnRight) == o
  {
  }

  /** A step keeps the orientation and a turn changes it, so an edge's
      weight can be read off the two orientations. */
  lemma EdgeWeightByOrient(m: Weights, walls: set<Point>, width: nat, height: nat, u: State, v: State)
    requires IsMazeGraph(m, walls, width, height) && (u, v) in m
    ensures m[(u, v)] == if u.orient == v.orient then StepCost else TurnCost
  {
    if Turn(u, v) {
      assert Rotated(u.orient, TurnRight) != u.orient && Rotated(u.orient, TurnLeft) != u.orient;
    }
  }

  // ---------------------------------------------------------------------
  // Path scores

  /** 1 for every consecutive pair facing the same way, 1000 for every
      pair facing different ways. */
  function Score(path: seq<State>): nat
  {
    if |path| <= 1 then 0
    else
      var n := |path|;
      Score(path[..n - 1]) + (if path[n - 2].orient == path[n - 1].orient then StepCost else TurnCost)
  }

  method PathScore(path: seq<State>) returns (score: nat)
    ensures score == Score(path)
  {
    score := 0;
    var i := 0;
    while i + 1 < |path|
      invariant path == [] ==> i == 0 && score == 0
      invariant path != [] ==> i < |path| && score == Score(path[..i + 1])
    {
      assert path[..i + 2][..i + 1] == path[..i + 1];
      score := score + if path[i].orient == path[i + 1].orient then StepCost else TurnCost;
      i := i + 1;
    }
    if path != [] {
      assert path[..i + 1] == path;
    }
  }

  /** A path of one state scores 0; a longer one scores between 1 and
      1000 per move. */
  lemma {:induction false} ScoreBounds(path: seq<State>)
    ensures |path| <= 1 ==> Score(path) == 0
    ensures |path| >= 1 ==> StepCost * (|path| - 1) <= Score(path) <= TurnCost * (|path| - 1)
  {
    if |path| > 1 {
      ScoreBounds(path[..|path| - 1]);
    }
  }

  /** Consecutive states are joined by edges of the graph. */
  ghost predicate IsWalk(m: Weights, path: seq<State>)
  {
    forall i :: 0 <= i < |path| - 1 ==> (path[i], path[i + 1]) in m
  }

  /** The total weight of the edges a walk takes. */
  ghost function WalkWeight(m: Weights, path: seq<State>): nat
    requires IsWalk(m, path)
  {
    if |path| <= 1 then 0
    else
      var n := |path|;
      assert IsWalk(m, path[..n - 1]);
      WalkWeight(m, path[..n - 1]) + m[(path[n - 2], path[n - 1])]
  }

  /** Rescoring a walk of the maze graph from its orientations gives the
      weight the graph search minimised. */
  lemma {:induction false} ScoreIsWalkWeight(m: Weights, walls: set<Point>, width: nat, height: nat, path: seq<State>)
    requires IsMazeGraph(m, walls, width, height) && IsWalk(m, path)
    ensures Score(path) == WalkWeight(m, path)
  {
    if |path| > 1 {
      var n := |path|;
      assert IsWalk(m, path[..n - 1]);
      ScoreIsWalkWeight(m, walls, width, height, path[..n - 1]);
      EdgeWeightByOrient(m, walls, width, height, path[n - 2], path[n - 1]);
    }
  }

  // ---------------------------------------------------------------------
  // The best paths

  /** The graph library's all-shortest-paths search: every shortest path
      from the first state to the second, empty when there is none. */
  type Search = (Weights, State, State) -> seq<seq<State>>

  /** The paths collected for the first k end orientations, in order. */
  function Found(search: Search, m: Weights, start: Point, end: Point, k: nat): seq<seq<State>>
    requires k <= |Orients|
  {
    if k == 0 then []
    else Found(search, m, start, end, k - 1) + search(m, State(start, East), State(end, Orients[k - 1]))
  }

  /** The search fails for some end orientation. */
  predicate NoPath(search: Search, m: Weights, start: Point, end: Point)
  {
    exists k :: 0 <= k < |Orients| && search(m, State(start, East), State(end, Orients[k])) == []
  }

  /** Python's `min` over a non-empty list. */
  function SeqMin(s: seq<nat>): (r: nat)
    requires s != []
    ensures r in s && forall x :: x in s ==> r <= x
  {
    if |s| == 1 then s[0]
    else
      var rest := SeqMin(s[..|s| - 1]);
      assert forall x :: x in s[..|s| - 1] ==> x in s;
      assert forall x :: x in s ==> x in s[..|s| - 1] || x == s[|s| - 1];
      if s[|s| - 1] < rest then s[|s| - 1] else rest
  }

  /** The paths whose recorded score is the best one, in order. */
  function KeepBest(paths: seq<seq<State>>, scores: seq<nat>, best: nat): seq<seq<State>>
    requires |paths| == |scores|
  {
    if paths == [] then []
    else
      var n := |paths| - 1;
      KeepBest(paths[..n], scores[..n], best) + (if scores[n] == best then [paths[n]] else [])
  }

  /** The scores the solver records, one per collected path. */
  function Scores(paths: seq<seq<State>>): (s: seq<nat>)
    ensures |s| == |paths| && forall i :: 0 <= i < |paths| ==> s[i] == Score(paths[i])
  {
    seq(|paths|, i requires 0 <= i < |paths| => Score(paths[i]))
  }

  /** The kept paths are exactly the collected ones that score `best`. */
  lemma {:induction false} KeepBestExact(paths: seq<seq<State>>, best: nat)
    ensures forall p :: p in KeepBest(paths, Scores(paths), best) <==> p in paths && Score(p) == best
  {
    if paths != [] {
      var n := |paths| - 1;
      assert Scores(paths)[..n] == Scores(paths[..n]);
      KeepBestExact(paths[..n], best);
      assert paths == paths[..n] + [paths[n]];
    }
  }

  /** The best score among the collected paths and the paths achieving
      it; None where the search raises for lack of a path. */
  method FindBestPaths(graph: DiGraph, start: Point, end: Point, search: Search)
    returns (r: Option<(nat, seq<seq<State>>)>)
    ensures r.None? <==> NoPath(search, graph.weight, start, end)
    ensures r.Some? ==>
      var all := Found(search, graph.weight, start, end, |Orients|);
      all != [] && r.value.0 == SeqMin(Scores(all)) &&
      r.value.1 == KeepBest(all, Scores(all), r.value.0)
  {
    var paths: seq<seq<State>> := [];
    var scores: seq<nat> := [];
    for k := 0 to |Orients|
      invariant paths == Found(search, graph.weight, start, end, k) && scores == Scores(paths)
      invariant forall j :: 0 <= j < k ==> search(graph.weight, State(start, East), State(end, Orients[j])) != []
      invariant k > 0 ==> paths != []
    {
      var it := search(graph.weight, State(start, East), State(end, Orients[k]));
      if it == [] {
        return None;
      }
      ghost var before := paths;
      for j := 0 to |it|
        invariant paths == before + it[..j] && scores == Scores(paths)
      {
        var s := PathScore(it[j]);
        assert it[..j + 1] == it[..j] + [it[j]];
        paths := paths + [it[j]];
        scores := scores + [s];
      }
      assert it[..|it|] == it;
    }
    var best := SeqMin(scores);
    r := Some((best, KeepBest(paths, scores, best)));
  }

  /** Every kept path scores the best score, no collected path scores
      less, and every collected path that scores it is kept. */
  lemma BestPathsAreBest(search: Search, m: Weights, start: Point, end: Point)
    requires Found(search, m, start, end, |Orients|) != []
    ensures var all := Found(search, m, start, end, |Orients|);
            var best := SeqMin(Scores(all));
            (forall p :: p in all ==> best <= Score(p)) &&
            (forall p :: p in KeepBest(all, Scores(all), best) <==> p in all && Score(p) == best)
  {
    var all := Found(search, m, start, end, |Orients|);
    var best := SeqMin(Scores(all));
    forall p | p in all
      ensures best <= Score(p)
    {
      var i :| 0 <= i < |all| && all[i] == p;
      assert Scores(all)[i] in Scores(all);
    }
    KeepBestExact(all, best);
  }

  // ---------------------------------------------------------------------
  // Positions on the best paths

  /** The cells a path passes, orientation dropped. */
  function PathCells(path: seq<State>): set<Point>
  {
    set s | s in path :: s.pos
  }

  /** The cells passed by any of the paths. */
  function Vistas(paths: seq<seq<State>>): set<Point>
  {
    if paths == [] then {} else Vistas(paths[..|paths| - 1]) + PathCells(paths[|paths| - 1])
  }

  /** A cell is on some path exactly when some state of some path stands
      on it, facing whichever way. */
  lemma {:induction false} VistasExact(paths: seq<seq<State>>, p: Point)
    ensures p in Vistas(paths) <==> exists i, s :: 0 <= i < |paths| && s in paths[i] && s.pos == p
  {
    if paths != [] {
      var n := |paths| - 1;
      VistasExact(paths[..n], p);
      if p in Vistas(paths) {
        if p in PathCells(paths[n]) {
          var s :| s in paths[n] && s.pos == p;
        } else {
          var i, s :| 0 <= i < n && s in paths[..n][i] && s.pos == p;
          assert paths[i] == paths[..n][i];
        }
      }
      if exists i, s :: 0 <= i < |paths| && s in paths[i] && s.pos == p {
        var i, s :| 0 <= i < |paths| && s in paths[i] && s.pos == p;
        if i < n {
          assert s in paths[..n][i];
        }
      }
    }
  }

  /** The number of distinct cells over the given paths. */
  method CountVistas(paths: seq<seq<State>>) returns (count: nat)
    ensures count == |Vistas(paths)|
  {
    var vistas: set<Point> := {};
    for i := 0 to |paths|
      invariant vistas == Vistas(paths[..i])
    {
      assert paths[..i + 1][..i] == paths[..i];
      vistas := vistas + PathCells(paths[i]);
    }
    assert paths[..|paths|] == paths;
    count := |vistas|;
  }

  // ---------------------------------------------------------------------
  // The two parts

  /** The lowest score from the start, facing east, to the end. */
  method Part1(walls: set<Point>, start: Point, end: Point, width: nat, height: nat, search: Search)
    returns (r: Option<nat>)
    ensures var m := MazeGraph(walls, width, height);
            var all := Found(search, m, start, end, |Orients|);
            (r.None? <==> NoPath(search, m, start, end)) &&
            (r.Some? ==> r.value in Scores(all) && forall p :: p in all ==> r.value <= Score(p))
  {
    var graph := BuildGraph(walls, width, height);
    MazeGraphUnique(graph.weight, walls, width, height);
    var found := FindBestPaths(graph, start, end, search);
    if found.None? {
      return None;
    }
    BestPathsAreBest(search, graph.weight, start, end);
    return Some(found.value.0);
  }

  /** The number of cells on at least one best path. */
  method Part2(walls: set<Point>, start: Point, end: Point, width: nat, height: nat, search: Search)
    returns (r: Option<nat>)
    ensures var m := MazeGraph(walls, width, height);
            var all := Found(search, m, start, end, |Orients|);
            (r.None? <==> NoPath(search, m, start, end)) &&
            (r.Some? ==>
               all != [] && r.value == |Vistas(KeepBest(all, Scores(all), SeqMin(Scores(all))))|)
  {
    var graph := BuildGraph(walls, width, height);
    MazeGraphUnique(graph.weight, walls, width, height);
    var found := FindBestPaths(graph, start, end, search);
    if found.None? {
      return None;
    }
    var count := CountVistas(found.value.1);
    return Some(count);
  }
}
