/** Day 21: keypad conundrum.

    A chain of robots types a door code. Each robot stands at a
    directional keypad operated by the next robot, and the last robot is
    operated by hand. To press a sequence of buttons on a keypad, the
    operator must move the arm along a shortest path between consecutive
    buttons and then press ACTION. The solver expands a code level by
    level. Among several shortest paths it keeps the one whose moves the
    next robot can type with the least travel, and it counts the presses
    at the outermost level.

    The keypads are fixed edge tables. The all-pairs shortest paths and
    distances over them are inputs: `paths` gives, for each ordered pair
    of buttons, the list of shortest paths, and `dist` gives the
    directional-keypad distances. */
module Day21 {
  import opened Common
  import Decimal

  /** A keypad button: a digit of the numeric keypad, one of the four
      arrows, or ACTION (the "A" button on both keypads). */
  datatype Key = Digit(d: nat) | Up | Down | Left | Right | Action

  predicate IsMove(k: Key)
  {
    k.Up? || k.Down? || k.Left? || k.Right?
  }

  /** The move that undoes a move. */
  function Opposite(m: Key): Key
  {
    match m
    case Up => Down
    case Down => Up
    case Left => Right
    case Right => Left
    case _ => m
  }

  datatype Pad = Numeric | Directional

  predicate IsNode(pad: Pad, k: Key)
  {
    match pad
    case Numeric => (k.Digit? && k.d < 10) || k.Action?
    case Directional => IsMove(k) || k.Action?
  }

  /** `make_numeric_keypad`: the move along the edge from a to b, None
      when there is no such edge. */
  function NumericEdge(a: Key, b: Key): Option<Key>
  {
    match (a, b)
    case (Digit(7), Digit(8)) => Some(Right)
    case (Digit(7), Digit(4)) => Some(Down)
    case (Digit(8), Digit(7)) => Some(Left)
    case (Digit(8), Digit(9)) => Some(Right)
    case (Digit(8), Digit(5)) => Some(Down)
    case (Digit(9), Digit(8)) => Some(Left)
    case (Digit(9), Digit(6)) => Some(Down)
    case (Digit(4), Digit(7)) => Some(Up)
    case (Digit(4), Digit(5)) => Some(Right)
    case (Digit(4), Digit(1)) => Some(Down)
    case (Digit(5), Digit(8)) => Some(Up)
    case (Digit(5), Digit(4)) => Some(Left)
    case (Digit(5), Digit(6)) => Some(Right)
    case (Digit(5), Digit(2)) => Some(Down)
    case (Digit(6), Digit(9)) => Some(Up)
    case (Digit(6), Digit(5)) => Some(Left)
    case (Digit(6), Digit(3)) => Some(Down)
    case (Digit(1), Digit(4)) => Some(Up)
    case (Digit(1), Digit(2)) => Some(Right)
    case (Digit(2), Digit(5)) => Some(Up)
    case (Digit(2), Digit(1)) => Some(Left)
    case (Digit(2), Digit(3)) => Some(Right)
    case (Digit(2), Digit(0)) => Some(Down)
    case (Digit(3), Digit(6)) => Some(Up)
    case (Digit(3), Digit(2)) => Some(Left)
    case (Digit(3), Action) => Some(Down)
    case (Digit(0), Digit(2)) => Some(Up)
    case (Digit(0), Action) => Some(Right)
    case (Action, Digit(3)) => Some(Up)
    case (Action, Digit(0)) => Some(Left)
    case _ => None
  }

  /** `make_directional_keypad`. */
  function DirectionalEdge(a: Key, b: Key): Option<Key>
  {
    match (a, b)
    case (Up, Action) => Some(Right)
    case (Up, Down) => Some(Down)
    case (Action, Up) => Some(Left)
    case (Action, Right) => Some(Down)
    case (Left, Down) => Some(Right)
    case (Down, Up) => Some(Up)
    case (Down, Left) => Some(Left)
    case (Down, Right) => Some(Right)
    case (Right, Action) => Some(Up)
    case (Right, Down) => Some(Left)
    case _ => None
  }

  function Edge(pad: Pad, a: Key, b: Key): Option<Key>
  {
    match pad
    case Numeric => NumericEdge(a, b)
    case Directional => DirectionalEdge(a, b)
  }

  /** Every edge of both keypads joins two buttons of the pad, carries a
      move, and has a reverse edge that carries the opposite move. */
  lemma EdgesReversible(pad: Pad, a: Key, b: Key)
    requires Edge(pad, a, b).Some?
    ensures IsNode(pad, a) && IsNode(pad, b) && IsMove(Edge(pad, a, b).value)
    ensures Edge(pad, b, a) == Some(Opposite(Edge(pad, a, b).value))
  {
  }

  // ---------------------------------------------------------------------
  // Paths and their moves

  /** A walk along edges of the pad, one button or more. */
  predicate IsPath(pad: Pad, p: seq<Key>)
  {
    |p| >= 1 &&
    (|p| >= 2 ==> IsPath(pad, p[..|p| - 1]) && Edge(pad, p[|p| - 2], p[|p| - 1]).Some?)
  }

  /** `[G.edges[edge]["move"] for edge in path_graph(path).edges()]`. */
  function Moves(pad: Pad, p: seq<Key>): (r: seq<Key>)
    requires IsPath(pad, p)
    ensures |r| == |p| - 1
    ensures forall i :: 0 <= i < |r| ==> Edge(pad, p[i], p[i + 1]) == Some(r[i])
  {
    if |p| == 1 then []
    else Moves(pad, p[..|p| - 1]) + [Edge(pad, p[|p| - 2], p[|p| - 1]).value]
  }

  /** The shortest paths from a to b as the table gives them: one or
      more, all of the same length, each a walk from a to b. */
  predicate PathGroup(pad: Pad, a: Key, b: Key, ps: seq<seq<Key>>)
  {
    |ps| > 0 &&
    forall j :: 0 <= j < |ps| ==>
      IsPath(pad, ps[j]) && |ps[j]| == |ps[0]| && ps[j][0] == a && ps[j][|ps[j]| - 1] == b
  }

  /** `all_pairs_all_shortest_paths` over the pad, as the solver reads it:
      every pair of buttons has a group of paths. */
  ghost predicate PathTable(pad: Pad, paths: (Key, Key) -> seq<seq<Key>>)
  {
    forall a, b :: IsNode(pad, a) && IsNode(pad, b) ==> PathGroup(pad, a, b, paths(a, b))
  }

  /** Every button of the sequence is a button of the pad. */
  predicate OnPad(pad: Pad, s: seq<Key>)
  {
    forall k :: 0 <= k < |s| ==> IsNode(pad, s[k])
  }

  /** The arm starts at ACTION, a button of both pads. */
  lemma StartAtAction(pad: Pad, s: seq<Key>)
    requires OnPad(pad, s)
    ensures OnPad(pad, [Action] + s)
  {
    assert forall k :: 1 <= k < |s| + 1 ==> ([Action] + s)[k] == s[k - 1];
  }

  /** The presses for one path: its moves, then ACTION. */
  function Alternative(pad: Pad, p: seq<Key>): (r: seq<Key>)
    requires IsPath(pad, p)
    ensures |r| == |p| && r[|r| - 1] == Action && OnPad(Directional, r)
  {
    var m := Moves(pad, p);
    assert forall i :: 0 <= i < |m| ==> IsMove(m[i]) by {
      forall i | 0 <= i < |m| ensures IsMove(m[i]) {
        EdgesReversible(pad, p[i], p[i + 1]);
      }
    }
    m + [Action]
  }

  /** The inner loop of `all_indirect_sequences`: one alternative per
      path, in the table's order. */
  function Alternatives(pad: Pad, ps: seq<seq<Key>>): (r: seq<seq<Key>>)
    requires forall j :: 0 <= j < |ps| ==> IsPath(pad, ps[j])
    ensures |r| == |ps|
    ensures forall j :: 0 <= j < |ps| ==> r[j] == Alternative(pad, ps[j])
  {
    if ps == [] then []
    else Alternatives(pad, ps[..|ps| - 1]) + [Alternative(pad, ps[|ps| - 1])]
  }

  /** `all_indirect_sequences(G, shortest_paths, buttons)`: one group for
      each consecutive pair of buttons. */
  function Groups(pad: Pad, paths: (Key, Key) -> seq<seq<Key>>, buttons: seq<Key>): seq<seq<seq<Key>>>
    requires PathTable(pad, paths)
    requires OnPad(pad, buttons)
  {
    if |buttons| < 2 then []
    else
      var n := |buttons|;
      Groups(pad, paths, buttons[..n - 1]) + [Alternatives(pad, paths(buttons[n - 2], buttons[n - 1]))]
  }

  /** The group for one pair of buttons: for each of the paths, the moves
      along it and then ACTION; all alternatives of the same length. */
  predicate GroupOf(pad: Pad, ps: seq<seq<Key>>, group: seq<seq<Key>>)
  {
    |group| == |ps| > 0 &&
    forall j :: 0 <= j < |ps| ==>
      IsPath(pad, ps[j]) && group[j] == Moves(pad, ps[j]) + [Action] && |group[j]| == |group[0]| &&
      OnPad(Directional, group[j])
  }

  /** There are |buttons| - 1 groups, and group i is built from the
      shortest paths from button i to button i + 1. */
  lemma {:induction false} GroupsShape(pad: Pad, paths: (Key, Key) -> seq<seq<Key>>, buttons: seq<Key>)
    requires PathTable(pad, paths)
    requires OnPad(pad, buttons)
    ensures |Groups(pad, paths, buttons)| == (if buttons == [] then 0 else |buttons| - 1)
    ensures forall i :: 0 <= i < |Groups(pad, paths, buttons)| ==>
              GroupOf(pad, paths(buttons[i], buttons[i + 1]), Groups(pad, paths, buttons)[i])
  {
    hide *;
    if |buttons| < 2 {
      GroupsUnfold(pad, paths, buttons);
    } else {
      var n := |buttons|;
      var init := buttons[..n - 1];
      OnPadInit(pad, buttons);
      GroupsShape(pad, paths, init);
      var a, b := buttons[n - 2], buttons[n - 1];
      TableGroup(pad, paths, a, b);
      GroupOfAlternatives(pad, a, b, paths(a, b));
      GroupsUnfold(pad, paths, buttons);
      var gs, pre := Groups(pad, paths, buttons), Groups(pad, paths, init);
      forall i | 0 <= i < |gs|
        ensures GroupOf(pad, paths(buttons[i], buttons[i + 1]), gs[i])
      {
        if i < n - 2 {
          assert init[i] == buttons[i] && init[i + 1] == buttons[i + 1];
          assert gs[i] == pre[i];
        }
      }
    }
  }

  lemma OnPadInit(pad: Pad, s: seq<Key>)
    requires OnPad(pad, s) && |s| >= 2
    ensures OnPad(pad, s[..|s| - 1]) && IsNode(pad, s[|s| - 2]) && IsNode(pad, s[|s| - 1])
  {
  }

  lemma GroupsUnfold(pad: Pad, paths: (Key, Key) -> seq<seq<Key>>, buttons: seq<Key>)
    requires PathTable(pad, paths)
    requires OnPad(pad, buttons)
    ensures |buttons| < 2 ==> Groups(pad, paths, buttons) == []
    ensures |buttons| >= 2 ==>
              Groups(pad, paths, buttons) ==
              Groups(pad, paths, buttons[..|buttons| - 1]) +
              [Alternatives(pad, paths(buttons[|buttons| - 2], buttons[|buttons| - 1]))]
  {
  }

  lemma TableGroup(pad: Pad, paths: (Key, Key) -> seq<seq<Key>>, a: Key, b: Key)
    requires PathTable(pad, paths) && IsNode(pad, a) && IsNode(pad, b)
    ensures PathGroup(pad, a, b, paths(a, b))
  {
  }

  lemma GroupOfAlternatives(pad: Pad, a: Key, b: Key, ps: seq<seq<Key>>)
    requires PathGroup(pad, a, b, ps)
    ensures GroupOf(pad, ps, Alternatives(pad, ps))
  {
  }

  /** The inner loop of `all_indirect_sequences` over the paths of one
      pair of buttons. */
  method PathAlternatives(pad: Pad, ps: seq<seq<Key>>) returns (sequence: seq<seq<Key>>)
    requires forall j :: 0 <= j < |ps| ==> IsPath(pad, ps[j])
    ensures sequence == Alternatives(pad, ps)
  {
    sequence := [];
    for j := 0 to |ps|
      invariant sequence == Alternatives(pad, ps[..j])
    {
      assert ps[..j + 1][..j] == ps[..j];
      sequence := sequence + [Moves(pad, ps[j]) + [Action]];
    }
    assert ps[..|ps|] == ps;
  }

  /** The outer loop of `all_indirect_sequences`, over the pairs of
      consecutive buttons. */
  method AllIndirectSequences(pad: Pad, paths: (Key, Key) -> seq<seq<Key>>, buttons: seq<Key>)
    returns (sequences: seq<seq<seq<Key>>>)
    requires PathTable(pad, paths)
    requires OnPad(pad, buttons)
    ensures sequences == Groups(pad, paths, buttons)
  {
    hide Groups, Alternatives;
    sequences := [];
    if |buttons| < 2 {
      GroupsUnfold(pad, paths, buttons);
      return;
    }
    GroupsUnfold(pad, paths, buttons[..1]);
    for i := 1 to |buttons|
      invariant sequences == Groups(pad, paths, buttons[..i])
    {
      var prefix := buttons[..i + 1];
      assert prefix[..i] == buttons[..i] && prefix[i - 1] == buttons[i - 1] && prefix[i] == buttons[i];
      GroupsUnfold(pad, paths, prefix);
      var a, b := buttons[i - 1], buttons[i];
      TableGroup(pad, paths, a, b);
      var sequence := PathAlternatives(pad, paths(a, b));
      sequences := sequences + [sequence];
    }
    assert buttons[..|buttons|] == buttons;
  }

  // ---------------------------------------------------------------------
  // path_distance and pick_optimal_paths

  /** `path_distance(buttons)`: the directional-keypad distances between
      consecutive buttons, added up. */
  function PathDist(dist: (Key, Key) -> nat, buttons: seq<Key>): (r: nat)
    ensures |buttons| < 2 ==> r == 0
  {
    if |buttons| < 2 then 0
    else PathDist(dist, buttons[..|buttons| - 1]) + dist(buttons[|buttons| - 2], buttons[|buttons| - 1])
  }

  /** The distance of a concatenation is that of the two halves plus the
      step between them. */
  lemma {:induction false} PathDistAppend(dist: (Key, Key) -> nat, x: seq<Key>, y: seq<Key>)
    requires x != [] && y != []
    ensures PathDist(dist, x + y) == PathDist(dist, x) + dist(x[|x| - 1], y[0]) + PathDist(dist, y)
    decreases |y|
  {
    var xy := x + y;
    if |y| == 1 {
      assert xy[..|xy| - 1] == x;
    } else {
      var init := y[..|y| - 1];
      PathDistAppend(dist, x, init);
      assert xy[..|xy| - 1] == x + init;
      assert init[0] == y[0];
      assert y[..|y| - 1] == init;
    }
  }

  method PathDistance(dist: (Key, Key) -> nat, buttons: seq<Key>) returns (distance: nat)
    ensures distance == PathDist(dist, buttons)
  {
    distance := 0;
    if |buttons| < 2 {
      return;
    }
    for i := 1 to |buttons|
      invariant distance == PathDist(dist, buttons[..i])
    {
      assert buttons[..i + 1][..i] == buttons[..i];
      distance := distance + dist(buttons[i - 1], buttons[i]);
    }
    assert buttons[..|buttons|] == buttons;
  }

  /** `sequence_distance(segment)`: the distance of each alternative. */
  function Distances(dist: (Key, Key) -> nat, group: seq<seq<Key>>): (r: seq<nat>)
    ensures |r| == |group|
    ensures forall j :: 0 <= j < |group| ==> r[j] == PathDist(dist, group[j])
  {
    if group == [] then []
    else Distances(dist, group[..|group| - 1]) + [PathDist(dist, group[|group| - 1])]
  }

  /** `ds.index(min(ds))`: the first index of a least element. */
  function FirstMin(ds: seq<nat>): (k: nat)
    requires |ds| > 0
    ensures k < |ds|
    ensures forall j :: 0 <= j < |ds| ==> ds[k] <= ds[j]
    ensures forall j :: 0 <= j < k ==> ds[j] > ds[k]
  {
    if |ds| == 1 then 0
    else
      var k := FirstMin(ds[..|ds| - 1]);
      if ds[|ds| - 1] < ds[k] then |ds| - 1 else k
  }

  /** The alternative `pick_optimal_paths` keeps from one group: the only
      one, or the first that minimises the distance. */
  function Pick(dist: (Key, Key) -> nat, group: seq<seq<Key>>): (r: seq<Key>)
    requires |group| > 0
    ensures r in group
  {
    if |group| == 1 then group[0] else group[FirstMin(Distances(dist, group))]
  }

  /** A single alternative is passed through; otherwise the pick is the
      first alternative whose distance is least. */
  lemma PickFirstMinimiser(dist: (Key, Key) -> nat, group: seq<seq<Key>>)
    requires |group| > 0
    ensures |group| == 1 ==> Pick(dist, group) == group[0]
    ensures exists k :: 0 <= k < |group| && Pick(dist, group) == group[k] &&
                        (forall j :: 0 <= j < |group| ==> PathDist(dist, group[k]) <= PathDist(dist, group[j])) &&
                        (forall j :: 0 <= j < k ==> PathDist(dist, group[j]) > PathDist(dist, group[k]))
  {
    if |group| == 1 {
      assert Pick(dist, group) == group[0];
    } else {
      var ds := Distances(dist, group);
      var k := FirstMin(ds);
      assert Pick(dist, group) == group[k];
    }
  }

  /** `pick_optimal_paths(sequences)`: one pick per group. */
  function Optimal(dist: (Key, Key) -> nat, groups: seq<seq<seq<Key>>>): (r: seq<seq<Key>>)
    requires forall i :: 0 <= i < |groups| ==> |groups[i]| > 0
    ensures |r| == |groups|
    ensures forall i :: 0 <= i < |groups| ==> r[i] == Pick(dist, groups[i])
  {
    if groups == [] then []
    else Optimal(dist, groups[..|groups| - 1]) + [Pick(dist, groups[|groups| - 1])]
  }

  /** `sequence_distance(segment)`. */
  method SequenceDistance(dist: (Key, Key) -> nat, segment: seq<seq<Key>>) returns (ds: seq<nat>)
    ensures ds == Distances(dist, segment)
  {
    ds := [];
    for j := 0 to |segment|
      invariant ds == Distances(dist, segment[..j])
    {
      assert segment[..j + 1][..j] == segment[..j];
      var d := PathDistance(dist, segment[j]);
      ds := ds + [d];
    }
    assert segment[..|segment|] == segment;
  }

  method PickOptimalPaths(dist: (Key, Key) -> nat, sequences: seq<seq<seq<Key>>>)
    returns (optimal: seq<seq<Key>>)
    requires forall i :: 0 <= i < |sequences| ==> |sequences[i]| > 0
    ensures optimal == Optimal(dist, sequences)
  {
    optimal := [];
    for i := 0 to |sequences|
      invariant |optimal| == i
      invariant forall k :: 0 <= k < i ==> optimal[k] == Pick(dist, sequences[k])
    {
      var sequence := sequences[i];
      if |sequence| == 1 {
        optimal := optimal + [sequence[0]];
        continue;
      }
      var ds := SequenceDistance(dist, sequence);
      optimal := optimal + [sequence[FirstMin(ds)]];
    }
  }

  // ---------------------------------------------------------------------
  // Indirection and dfs

  /** What the next operator types for one button: directional buttons
      ending with ACTION. */
  predicate Segment(s: seq<Key>)
  {
    OnPad(Directional, s) && |s| >= 1 && s[|s| - 1] == Action
  }

  /** Every group is non-empty and each of its alternatives is a
      segment. */
  lemma GroupsUsable(pad: Pad, paths: (Key, Key) -> seq<seq<Key>>, buttons: seq<Key>)
    requires PathTable(pad, paths)
    requires OnPad(pad, buttons)
    ensures forall i :: 0 <= i < |Groups(pad, paths, buttons)| ==>
              |Groups(pad, paths, buttons)[i]| > 0 &&
              forall j :: 0 <= j < |Groups(pad, paths, buttons)[i]| ==> Segment(Groups(pad, paths, buttons)[i][j])
  {
    GroupsShape(pad, paths, buttons);
    var gs := Groups(pad, paths, buttons);
    forall i | 0 <= i < |gs|
      ensures |gs[i]| > 0 && forall j :: 0 <= j < |gs[i]| ==> Segment(gs[i][j])
    {
      assert GroupOf(pad, paths(buttons[i], buttons[i + 1]), gs[i]);
    }
  }

  /** The picks are segments when all alternatives are. */
  lemma OptimalSegments(dist: (Key, Key) -> nat, groups: seq<seq<seq<Key>>>)
    requires forall i :: 0 <= i < |groups| ==> |groups[i]| > 0
    requires forall i, j :: 0 <= i < |groups| && 0 <= j < |groups[i]| ==> Segment(groups[i][j])
    ensures forall i :: 0 <= i < |groups| ==> Segment(Optimal(dist, groups)[i])
  {
    var r := Optimal(dist, groups);
    forall i | 0 <= i < |groups|
      ensures Segment(r[i])
    {
      var j :| 0 <= j < |groups[i]| && r[i] == groups[i][j];
    }
  }

  /** `indirect_door_keypad` (on the numeric pad) and
      `indirect_robo_keypad` (on the directional pad): for each pair of
      consecutive buttons, the segment the next operator types. */
  function Indirect(pad: Pad, paths: (Key, Key) -> seq<seq<Key>>, dist: (Key, Key) -> nat, buttons: seq<Key>)
    : (r: seq<seq<Key>>)
    requires PathTable(pad, paths)
    requires OnPad(pad, buttons)
    ensures |r| == (if buttons == [] then 0 else |buttons| - 1)
    ensures forall i :: 0 <= i < |r| ==> Segment(r[i])
  {
    GroupsShape(pad, paths, buttons);
    GroupsUsable(pad, paths, buttons);
    OptimalSegments(dist, Groups(pad, paths, buttons));
    Optimal(dist, Groups(pad, paths, buttons))
  }

  method IndirectKeypad(pad: Pad, paths: (Key, Key) -> seq<seq<Key>>, dist: (Key, Key) -> nat, buttons: seq<Key>)
    returns (r: seq<seq<Key>>)
    requires PathTable(pad, paths)
    requires OnPad(pad, buttons)
    ensures r == Indirect(pad, paths, dist, buttons)
  {
    var seqs := AllIndirectSequences(pad, paths, buttons);
    GroupsUsable(pad, paths, buttons);
    r := PickOptimalPaths(dist, seqs);
  }

  /** The presses `dfs(sequences, depth)` counts: each sequence, with the
      arm starting at ACTION, is indirected once more on the directional
      pad; at depth 0 the segments are counted, otherwise they are
      expanded again one level down. */
  function Presses(paths: (Key, Key) -> seq<seq<Key>>, dist: (Key, Key) -> nat, sequences: seq<seq<Key>>,
                   depth: nat): nat
    requires PathTable(Directional, paths)
    requires forall i :: 0 <= i < |sequences| ==> OnPad(Directional, sequences[i])
    decreases depth, |sequences|
  {
    if sequences == [] then 0
    else
      var n := |sequences|;
      StartAtAction(Directional, sequences[n - 1]);
      var ind := Indirect(Directional, paths, dist, [Action] + sequences[n - 1]);
      Presses(paths, dist, sequences[..n - 1], depth) +
      (if depth == 0 then |ind| else Presses(paths, dist, ind, depth - 1))
  }

  /** The number of buttons in all the sequences together. */
  function TotalLength(sequences: seq<seq<Key>>): nat
  {
    if sequences == [] then 0
    else TotalLength(sequences[..|sequences| - 1]) + |sequences[|sequences| - 1]|
  }

  /** At depth 0 `dfs` counts the buttons of its sequences, and deeper
      levels never need fewer presses: every button pressed at one level
      costs the next operator at least one press. */
  lemma {:induction false} PressesAtLeastLength(paths: (Key, Key) -> seq<seq<Key>>, dist: (Key, Key) -> nat,
                                                sequences: seq<seq<Key>>, depth: nat)
    requires PathTable(Directional, paths)
    requires forall i :: 0 <= i < |sequences| ==> OnPad(Directional, sequences[i])
    ensures Presses(paths, dist, sequences, depth) >= TotalLength(sequences)
    ensures depth == 0 ==> Presses(paths, dist, sequences, depth) == TotalLength(sequences)
    decreases depth, |sequences|
  {
    hide Presses, TotalLength, Indirect, Groups, Optimal;
    PressesUnfold(paths, dist, sequences, depth);
    if sequences != [] {
      var n := |sequences|;
      var init, last := sequences[..n - 1], sequences[n - 1];
      StartAtAction(Directional, last);
      var ind := Indirect(Directional, paths, dist, [Action] + last);
      PressesAtLeastLength(paths, dist, init, depth);
      if depth > 0 {
        PressesAtLeastLength(paths, dist, ind, depth - 1);
        SegmentsAtLeastCount(ind);
      }
    }
  }

  /** Non-empty segments hold at least one button each. */
  lemma {:induction false} SegmentsAtLeastCount(segments: seq<seq<Key>>)
    requires forall i :: 0 <= i < |segments| ==> |segments[i]| >= 1
    ensures TotalLength(segments) >= |segments|
  {
    if segments != [] {
      SegmentsAtLeastCount(segments[..|segments| - 1]);
    }
  }

  /** One step of the recursion of `Presses` and of `TotalLength`. */
  lemma PressesUnfold(paths: (Key, Key) -> seq<seq<Key>>, dist: (Key, Key) -> nat, sequences: seq<seq<Key>>,
                      depth: nat)
    requires PathTable(Directional, paths)
    requires forall i :: 0 <= i < |sequences| ==> OnPad(Directional, sequences[i])
    ensures sequences == [] ==> Presses(paths, dist, sequences, depth) == 0 == TotalLength(sequences)
    ensures sequences != [] ==>
              OnPad(Directional, [Action] + sequences[|sequences| - 1]) &&
              TotalLength(sequences) == TotalLength(sequences[..|sequences| - 1]) + |sequences[|sequences| - 1]| &&
              var ind := Indirect(Directional, paths, dist, [Action] + sequences[|sequences| - 1]);
              |ind| == |sequences[|sequences| - 1]| &&
              Presses(paths, dist, sequences, depth) ==
              Presses(paths, dist, sequences[..|sequences| - 1], depth) +
              (if depth == 0 then |ind| else Presses(paths, dist, ind, depth - 1))
  {
    if sequences != [] {
      StartAtAction(Directional, sequences[|sequences| - 1]);
    }
  }

  /** `dfs(sequences, depth)`. */
  method Dfs(paths: (Key, Key) -> seq<seq<Key>>, dist: (Key, Key) -> nat, sequences: seq<seq<Key>>, depth: nat)
    returns (length: nat)
    requires PathTable(Directional, paths)
    requires forall i :: 0 <= i < |sequences| ==> OnPad(Directional, sequences[i])
    ensures length == Presses(paths, dist, sequences, depth)
    decreases depth, |sequences|
  {
    hide Presses, TotalLength, Indirect, Groups, Optimal;
    length := 0;
    PressesUnfold(paths, dist, sequences[..0], depth);
    for i := 0 to |sequences|
      invariant length == Presses(paths, dist, sequences[..i], depth)
    {
      var prefix := sequences[..i + 1];
      assert prefix[..i] == sequences[..i] && prefix[i] == sequences[i];
      PressesUnfold(paths, dist, prefix, depth);
      var indirectSeqs := IndirectKeypad(Directional, paths, dist, [Action] + sequences[i]);
      if depth == 0 {
        length := length + |indirectSeqs|;
      } else {
        var deeper := Dfs(paths, dist, indirectSeqs, depth - 1);
        length := length + deeper;
      }
    }
    assert sequences[..|sequences|] == sequences;
  }

  /** Each robot level costs at least as much as the level below it. */
  lemma {:induction false} PressesMonotone(paths: (Key, Key) -> seq<seq<Key>>, dist: (Key, Key) -> nat,
                                           sequences: seq<seq<Key>>, depth: nat)
    requires PathTable(Directional, paths)
    requires forall i :: 0 <= i < |sequences| ==> OnPad(Directional, sequences[i])
    ensures Presses(paths, dist, sequences, depth) <= Presses(paths, dist, sequences, depth + 1)
    decreases depth, |sequences|
  {
    hide Presses, TotalLength, Indirect, Groups, Optimal;
    PressesUnfold(paths, dist, sequences, depth);
    PressesUnfold(paths, dist, sequences, depth + 1);
    if sequences != [] {
      var n := |sequences|;
      var ind := Indirect(Directional, paths, dist, [Action] + sequences[n - 1]);
      PressesMonotone(paths, dist, sequences[..n - 1], depth);
      if depth == 0 {
        PressesAtLeastLength(paths, dist, ind, 0);
        SegmentsAtLeastCount(ind);
      } else {
        PressesMonotone(paths, dist, ind, depth - 1);
      }
    }
  }

  lemma {:induction false} PressesMonotoneFrom(paths: (Key, Key) -> seq<seq<Key>>, dist: (Key, Key) -> nat,
                                               sequences: seq<seq<Key>>, low: nat, high: nat)
    requires PathTable(Directional, paths)
    requires forall i :: 0 <= i < |sequences| ==> OnPad(Directional, sequences[i])
    requires low <= high
    ensures Presses(paths, dist, sequences, low) <= Presses(paths, dist, sequences, high)
    decreases high - low
  {
    if low < high {
      PressesMonotone(paths, dist, sequences, low);
      PressesMonotoneFrom(paths, dist, sequences, low + 1, high);
    }
  }

  // ---------------------------------------------------------------------
  // compute_complexity and solve

  /** A code as `load` reads it: decimal digits, then one more button of
      the numeric pad (ACTION in the puzzle input). */
  predicate ValidCode(code: seq<Key>)
  {
    |code| >= 2 && (forall k :: 0 <= k < |code| - 1 ==> code[k].Digit? && code[k].d < 10) &&
    IsNode(Numeric, code[|code| - 1])
  }

  function DigitValues(keys: seq<Key>): (r: seq<nat>)
    requires forall k :: 0 <= k < |keys| ==> keys[k].Digit?
    ensures |r| == |keys| && forall k :: 0 <= k < |keys| ==> r[k] == keys[k].d
  {
    if keys == [] then [] else DigitValues(keys[..|keys| - 1]) + [keys[|keys| - 1].d]
  }

  /** `int("".join(map(str, code[:-1])))`. */
  function CodeNumber(code: seq<Key>): nat
    requires ValidCode(code)
  {
    Decimal.FromDigits(DigitValues(code[..|code| - 1]))
  }

  /** The number has no more digits than the code. */
  lemma CodeNumberBound(code: seq<Key>)
    requires ValidCode(code)
    ensures CodeNumber(code) < Decimal.Pow10(|code| - 1)
  {
    Decimal.FromDigitsBound(DigitValues(code[..|code| - 1]));
  }

  /** The complexity of the codes paired with the lengths, up to the end
      of the shorter list. */
  function Complexity(codes: seq<seq<Key>>, lengths: seq<nat>): nat
    requires forall i :: 0 <= i < |codes| ==> ValidCode(codes[i])
    decreases |codes|
  {
    var n := Min(|codes|, |lengths|);
    if n == 0 then 0
    else Complexity(codes[..n - 1], lengths[..n - 1]) + CodeNumber(codes[n - 1]) * lengths[n - 1]
  }

  /** `zip` stops at the end of the shorter list. */
  lemma {:induction false} ComplexityZip(codes: seq<seq<Key>>, lengths: seq<nat>)
    requires forall i :: 0 <= i < |codes| ==> ValidCode(codes[i])
    ensures var n := Min(|codes|, |lengths|);
            Complexity(codes, lengths) == Complexity(codes[..n], lengths[..n])
  {
    var n := Min(|codes|, |lengths|);
    var shortCodes, shortLengths := codes[..n], lengths[..n];
    ComplexityUnfold(codes, lengths);
    ComplexityUnfold(shortCodes, shortLengths);
    hide Complexity, CodeNumber, ValidCode;
    if n > 0 {
      assert shortCodes[..n - 1] == codes[..n - 1] && shortCodes[n - 1] == codes[n - 1];
      assert shortLengths[..n - 1] == lengths[..n - 1] && shortLengths[n - 1] == lengths[n - 1];
    }
  }

  lemma ComplexityUnfold(codes: seq<seq<Key>>, lengths: seq<nat>)
    requires forall i :: 0 <= i < |codes| ==> ValidCode(codes[i])
    ensures var n := Min(|codes|, |lengths|);
            (n == 0 ==> Complexity(codes, lengths) == 0) &&
            (n > 0 ==> Complexity(codes, lengths) ==
                       Complexity(codes[..n - 1], lengths[..n - 1]) + CodeNumber(codes[n - 1]) * lengths[n - 1])
  {
  }

  lemma MulMonotone(a: nat, x: nat, y: nat)
    requires x <= y
    ensures a * x <= a * y
  {
  }

  /** Longer button sequences never lower the complexity. */
  lemma {:induction false} ComplexityMonotone(codes: seq<seq<Key>>, small: seq<nat>, large: seq<nat>)
    requires forall i :: 0 <= i < |codes| ==> ValidCode(codes[i])
    requires |small| == |large| && forall i :: 0 <= i < |small| ==> small[i] <= large[i]
    ensures Complexity(codes, small) <= Complexity(codes, large)
    decreases |codes|
  {
    var n := Min(|codes|, |small|);
    if n > 0 {
      ComplexityMonotone(codes[..n - 1], small[..n - 1], large[..n - 1]);
      MulMonotone(CodeNumber(codes[n - 1]), small[n - 1], large[n - 1]);
    }
  }

  /** `compute_complexity(codes, lengths)`. */
  method ComputeComplexity(codes: seq<seq<Key>>, lengths: seq<nat>) returns (complexity: nat)
    requires forall i :: 0 <= i < |codes| ==> ValidCode(codes[i])
    ensures complexity == Complexity(codes, lengths)
  {
    var n := Min(|codes|, |lengths|);
    complexity := 0;
    for i := 0 to n
      invariant complexity == Complexity(codes[..i], lengths[..i])
    {
      assert codes[..i + 1][..i] == codes[..i] && lengths[..i + 1][..i] == lengths[..i];
      var codeno := CodeNumberOf(codes[i]);
      complexity := complexity + codeno * lengths[i];
    }
    ComplexityZip(codes, lengths);
  }

  /** The loop that reads the digits of a code as a number. */
  method CodeNumberOf(code: seq<Key>) returns (codeno: nat)
    requires ValidCode(code)
    ensures codeno == CodeNumber(code)
  {
    var digits := code[..|code| - 1];
    codeno := 0;
    for k := 0 to |digits|
      invariant codeno == Decimal.FromDigits(DigitValues(digits[..k]))
    {
      assert DigitValues(digits[..k + 1]) == DigitValues(digits[..k]) + [digits[k].d];
      codeno := codeno * 10 + digits[k].d;
    }
    assert digits[..|digits|] == digits;
  }

  /** The presses the operator makes for one code: the code indirected on
      the numeric pad, then `max_depth` + 1 levels of directional pads as
      `dfs` counts them. */
  function ShortestLength(door: (Key, Key) -> seq<seq<Key>>, robo: (Key, Key) -> seq<seq<Key>>,
                          dist: (Key, Key) -> nat, code: seq<Key>, maxDepth: nat): nat
    requires PathTable(Numeric, door) && PathTable(Directional, robo) && ValidCode(code)
  {
    CodeOnPad(code);
    var robotSequences := Indirect(Numeric, door, dist, [Action] + code);
    Presses(robo, dist, robotSequences, maxDepth)
  }

  lemma CodeOnPad(code: seq<Key>)
    requires ValidCode(code)
    ensures OnPad(Numeric, [Action] + code)
  {
    assert forall k :: 1 <= k < |code| + 1 ==> ([Action] + code)[k] == code[k - 1];
  }

  function ShortestLengths(door: (Key, Key) -> seq<seq<Key>>, robo: (Key, Key) -> seq<seq<Key>>,
                           dist: (Key, Key) -> nat, codes: seq<seq<Key>>, maxDepth: nat): (r: seq<nat>)
    requires PathTable(Numeric, door) && PathTable(Directional, robo)
    requires forall i :: 0 <= i < |codes| ==> ValidCode(codes[i])
    ensures |r| == |codes|
  {
    if codes == [] then []
    else ShortestLengths(door, robo, dist, codes[..|codes| - 1], maxDepth) +
         [ShortestLength(door, robo, dist, codes[|codes| - 1], maxDepth)]
  }

  /** One length per code, in order. */
  lemma {:induction false} ShortestLengthsAt(door: (Key, Key) -> seq<seq<Key>>, robo: (Key, Key) -> seq<seq<Key>>,
                                             dist: (Key, Key) -> nat, codes: seq<seq<Key>>, maxDepth: nat)
    requires PathTable(Numeric, door) && PathTable(Directional, robo)
    requires forall i :: 0 <= i < |codes| ==> ValidCode(codes[i])
    ensures forall i :: 0 <= i < |codes| ==>
              ShortestLengths(door, robo, dist, codes, maxDepth)[i] == ShortestLength(door, robo, dist, codes[i], maxDepth)
  {
    hide ShortestLength;
    if codes != [] {
      var init := codes[..|codes| - 1];
      ShortestLengthsAt(door, robo, dist, init, maxDepth);
      forall i | 0 <= i < |codes| - 1
        ensures codes[i] == init[i]
      {
      }
    }
  }

  /** `solve(codes, max_depth)`. */
  method Solve(door: (Key, Key) -> seq<seq<Key>>, robo: (Key, Key) -> seq<seq<Key>>, dist: (Key, Key) -> nat,
               codes: seq<seq<Key>>, maxDepth: nat) returns (complexity: nat)
    requires PathTable(Numeric, door) && PathTable(Directional, robo)
    requires forall i :: 0 <= i < |codes| ==> ValidCode(codes[i])
    ensures complexity == Complexity(codes, ShortestLengths(door, robo, dist, codes, maxDepth))
  {
    hide Presses, Indirect;
    var lengths: seq<nat> := [];
    for i := 0 to |codes|
      invariant |lengths| == i
      invariant forall k :: 0 <= k < i ==> lengths[k] == ShortestLength(door, robo, dist, codes[k], maxDepth)
    {
      CodeOnPad(codes[i]);
      var robotSequences := IndirectKeypad(Numeric, door, dist, [Action] + codes[i]);
      var shortestLength := Dfs(robo, dist, robotSequences, maxDepth);
      lengths := lengths + [shortestLength];
    }
    ShortestLengthsAt(door, robo, dist, codes, maxDepth);
    assert lengths == ShortestLengths(door, robo, dist, codes, maxDepth);
    complexity := ComputeComplexity(codes, lengths);
  }

  method Part1(door: (Key, Key) -> seq<seq<Key>>, robo: (Key, Key) -> seq<seq<Key>>, dist: (Key, Key) -> nat,
               codes: seq<seq<Key>>) returns (complexity: nat)
    requires PathTable(Numeric, door) && PathTable(Directional, robo)
    requires forall i :: 0 <= i < |codes| ==> ValidCode(codes[i])
    ensures complexity == Complexity(codes, ShortestLengths(door, robo, dist, codes, 2))
  {
    complexity := Solve(door, robo, dist, codes, 2);
  }

  method Part2(door: (Key, Key) -> seq<seq<Key>>, robo: (Key, Key) -> seq<seq<Key>>, dist: (Key, Key) -> nat,
               codes: seq<seq<Key>>) returns (complexity: nat)
    requires PathTable(Numeric, door) && PathTable(Directional, robo)
    requires forall i :: 0 <= i < |codes| ==> ValidCode(codes[i])
    ensures complexity == Complexity(codes, ShortestLengths(door, robo, dist, codes, 25))
  {
    complexity := Solve(door, robo, dist, codes, 25);
  }

  /** More robots never lower the complexity: part 2 is at least part 1. */
  lemma PartsOrdered(door: (Key, Key) -> seq<seq<Key>>, robo: (Key, Key) -> seq<seq<Key>>, dist: (Key, Key) -> nat,
                     codes: seq<seq<Key>>)
    requires PathTable(Numeric, door) && PathTable(Directional, robo)
    requires forall i :: 0 <= i < |codes| ==> ValidCode(codes[i])
    ensures Complexity(codes, ShortestLengths(door, robo, dist, codes, 2)) <=
            Complexity(codes, ShortestLengths(door, robo, dist, codes, 25))
  {
    hide Presses, Indirect, Complexity, ShortestLengths;
    var small, large := ShortestLengths(door, robo, dist, codes, 2), ShortestLengths(door, robo, dist, codes, 25);
    ShortestLengthsAt(door, robo, dist, codes, 2);
    ShortestLengthsAt(door, robo, dist, codes, 25);
    forall i | 0 <= i < |codes|
      ensures small[i] <= large[i]
    {
      CodeOnPad(codes[i]);
      var robotSequences := Indirect(Numeric, door, dist, [Action] + codes[i]);
      PressesMonotoneFrom(robo, dist, robotSequences, 2, 25);
    }
    ComplexityMonotone(codes, small, large);
  }
}
