/** Day 10: a topographic map of digit heights. A hiking trail starts at a
    trailhead (height 0), climbs exactly one per orthogonal step and ends at
    height 9. Part 1 scores each trailhead by the number of distinct summits
    it reaches, part 2 by the number of distinct trails.

    The source keeps the map in a dictionary from complex coordinates
    `c + r·i` to heights, filled row by row by its loader, so its keys are
    the cells of a `rows` × `cols` rectangle in row-major order; here it is
    a sequence of rows. */
module Day10 {
  import opened Common

  type Grid = seq<seq<nat>>

  /** The map `load` builds: `rows` rows of `cols` single digits. */
  predicate Valid(g: Grid, rows: nat, cols: nat)
  {
    |g| == rows && forall r :: 0 <= r < rows ==> |g[r]| == cols && forall c :: 0 <= c < cols ==> g[r][c] <= 9
  }

  /** `0 <= p.real < limits[1] and 0 <= p.imag < limits[0]`. */
  predicate InBounds(p: Point, rows: int, cols: int)
  {
    0 <= p.re < cols && 0 <= p.im < rows
  }

  /** `graph[p]`. */
  function Height(g: Grid, rows: nat, cols: nat, p: Point): (h: nat)
    requires Valid(g, rows, cols) && InBounds(p, rows, cols)
    ensures h <= 9
  {
    g[p.im][p.re]
  }

  /** `find_trailheads` over the cells of rows `0..r`, in row-major order. */
  function HeadsBefore(g: Grid, rows: nat, cols: nat, r: nat): (ths: seq<Point>)
    requires Valid(g, rows, cols) && r <= rows
    ensures forall p :: p in ths <==> InBounds(p, r, cols) && g[p.im][p.re] == 0
  {
    if r == 0 then [] else HeadsBefore(g, rows, cols, r - 1) + HeadsInRow(g, rows, cols, r - 1, cols)
  }

  /** The trailheads of row `r` among its first `c` columns. */
  function HeadsInRow(g: Grid, rows: nat, cols: nat, r: nat, c: nat): (ths: seq<Point>)
    requires Valid(g, rows, cols) && r < rows && c <= cols
    ensures forall p :: p in ths <==> p.im == r && 0 <= p.re < c && g[r][p.re] == 0
  {
    if c == 0 then []
    else HeadsInRow(g, rows, cols, r, c - 1) + (if g[r][c - 1] == 0 then [Point(c - 1, r)] else [])
  }

  /** `find_trailheads`: exactly the cells of height 0. */
  function Trailheads(g: Grid, rows: nat, cols: nat): (ths: seq<Point>)
    requires Valid(g, rows, cols)
    ensures forall p :: p in ths <==> InBounds(p, rows, cols) && Height(g, rows, cols, p) == 0
  {
    HeadsBefore(g, rows, cols, rows)
  }

  /** The neighbour offsets in the order `neighbors` tries them: 1, -1, i, -i. */
  const Steps: seq<Point> := [Point(1, 0), Point(-1, 0), Point(0, 1), Point(0, -1)]

  /** The points of `ps` inside the limits, in order. */
  function KeepInBounds(ps: seq<Point>, rows: int, cols: int): (r: seq<Point>)
    ensures forall p :: p in r <==> p in ps && InBounds(p, rows, cols)
  {
    if ps == [] then []
    else
      KeepInBounds(ps[..|ps| - 1], rows, cols)
        + (if InBounds(ps[|ps| - 1], rows, cols) then [ps[|ps| - 1]] else [])
  }

  lemma UnitStep(pos: Point, p: Point)
    ensures Manhattan(pos, p) == 1 <==> p.Sub(pos) in Steps
  {
  }

  /** `neighbors`: the in-bounds points one orthogonal step away. */
  function Neighbors(pos: Point, rows: int, cols: int): (ns: seq<Point>)
    ensures forall p :: p in ns <==> InBounds(p, rows, cols) && Manhattan(pos, p) == 1
  {
    var cand := [pos.Add(Steps[0]), pos.Add(Steps[1]), pos.Add(Steps[2]), pos.Add(Steps[3])];
    assert forall p :: p in cand <==> p.Sub(pos) in Steps;
    assert forall p :: Manhattan(pos, p) == 1 <==> p.Sub(pos) in Steps by {
      forall p ensures Manhattan(pos, p) == 1 <==> p.Sub(pos) in Steps {
        UnitStep(pos, p);
      }
    }
    KeepInBounds(cand, rows, cols)
  }

  /** Every trail of `hs` with `c` put in front. */
  function Prefix(c: seq<Point>, hs: set<seq<Point>>): set<seq<Point>>
  {
    set h | h in hs :: c + h
  }

  /** The complete trails from `start`: `[start]` at a summit, otherwise
      `start` followed by a trail from each neighbour one higher. */
  function Hikes(g: Grid, rows: nat, cols: nat, start: Point): set<seq<Point>>
    requires Valid(g, rows, cols) && InBounds(start, rows, cols)
    decreases 9 - Height(g, rows, cols, start), 1, 0
  {
    if Height(g, rows, cols, start) == 9 then {[start]}
    else Via(g, rows, cols, start, Neighbors(start, rows, cols))
  }

  /** The trails from `start` whose second cell is one of `ns`. */
  function Via(g: Grid, rows: nat, cols: nat, start: Point, ns: seq<Point>): set<seq<Point>>
    requires Valid(g, rows, cols) && InBounds(start, rows, cols)
    requires forall i :: 0 <= i < |ns| ==> InBounds(ns[i], rows, cols)
    decreases 9 - Height(g, rows, cols, start), 0, |ns|
  {
    if ns == [] then {}
    else
      var pos := ns[|ns| - 1];
      Via(g, rows, cols, start, ns[..|ns| - 1])
        + (if Height(g, rows, cols, pos) == Height(g, rows, cols, start) + 1
           then Prefix([start], Hikes(g, rows, cols, pos)) else {})
  }

  /** A hiking trail: in bounds, each step to an orthogonal neighbour exactly
      one higher, ending at height 9. */
  predicate IsHike(g: Grid, rows: nat, cols: nat, h: seq<Point>)
    requires Valid(g, rows, cols)
  {
    && |h| >= 1
    && (forall k :: 0 <= k < |h| ==> InBounds(h[k], rows, cols))
    && (forall k :: 0 <= k < |h| - 1 ==>
          Manhattan(h[k], h[k + 1]) == 1 && Height(g, rows, cols, h[k + 1]) == Height(g, rows, cols, h[k]) + 1)
    && Height(g, rows, cols, h[|h| - 1]) == 9
  }

  /** Every trail found from `start` begins at `start`. */
  lemma {:induction false} HikesStart(g: Grid, rows: nat, cols: nat, start: Point)
    requires Valid(g, rows, cols) && InBounds(start, rows, cols)
    ensures forall t :: t in Hikes(g, rows, cols, start) ==> |t| >= 1 && t[0] == start
    decreases 9 - Height(g, rows, cols, start), 1, 0
  {
    if Height(g, rows, cols, start) < 9 {
      ViaStart(g, rows, cols, start, Neighbors(start, rows, cols));
    }
  }

  lemma {:induction false} ViaStart(g: Grid, rows: nat, cols: nat, start: Point, ns: seq<Point>)
    requires Valid(g, rows, cols) && InBounds(start, rows, cols)
    requires forall i :: 0 <= i < |ns| ==> InBounds(ns[i], rows, cols)
    ensures forall t :: t in Via(g, rows, cols, start, ns) ==> |t| >= 2 && t[0] == start && t[1] in ns
    decreases 9 - Height(g, rows, cols, start), 0, |ns|
  {
    if ns != [] {
      var pos := ns[|ns| - 1];
      ViaStart(g, rows, cols, start, ns[..|ns| - 1]);
      if Height(g, rows, cols, pos) == Height(g, rows, cols, start) + 1 {
        HikesStart(g, rows, cols, pos);
        forall t | t in Prefix([start], Hikes(g, rows, cols, pos)) ensures |t| >= 2 && t[0] == start && t[1] == pos {
          var u :| u in Hikes(g, rows, cols, pos) && t == [start] + u;
        }
      }
    }
  }

  /** A trail through `ns` is `start` followed by a trail from a neighbour
      in `ns` one higher. */
  lemma {:induction false} ViaMembers(g: Grid, rows: nat, cols: nat, start: Point, ns: seq<Point>, h: seq<Point>)
    requires Valid(g, rows, cols) && InBounds(start, rows, cols)
    requires forall i :: 0 <= i < |ns| ==> InBounds(ns[i], rows, cols)
    ensures h in Via(g, rows, cols, start, ns) <==>
      |h| >= 2 && h[0] == start && h[1] in ns
      && Height(g, rows, cols, h[1]) == Height(g, rows, cols, start) + 1
      && h[1..] in Hikes(g, rows, cols, h[1])
  {
    if ns != [] {
      var pos := ns[|ns| - 1];
      var init := ns[..|ns| - 1];
      ViaMembers(g, rows, cols, start, init, h);
      ViaStart(g, rows, cols, start, ns);
      assert forall p :: p in ns <==> p in init || p == pos by {
        assert ns == init + [pos];
      }
      if Height(g, rows, cols, pos) == Height(g, rows, cols, start) + 1 {
        if |h| >= 2 && h[0] == start && h[1] == pos && h[1..] in Hikes(g, rows, cols, pos) {
          assert h == [start] + h[1..];
        }
        HikesStart(g, rows, cols, pos);
        if h in Prefix([start], Hikes(g, rows, cols, pos)) {
          var t :| t in Hikes(g, rows, cols, pos) && h == [start] + t;
          assert h[1..] == t;
        }
      }
    }
  }

  /** A trail of two or more cells is a first step followed by a trail. */
  lemma HikeCons(g: Grid, rows: nat, cols: nat, h: seq<Point>)
    requires Valid(g, rows, cols) && |h| >= 2
    ensures IsHike(g, rows, cols, h) <==>
      InBounds(h[0], rows, cols) && InBounds(h[1], rows, cols) && Manhattan(h[0], h[1]) == 1
      && Height(g, rows, cols, h[1]) == Height(g, rows, cols, h[0]) + 1
      && IsHike(g, rows, cols, h[1..])
  {
    var t := h[1..];
    assert forall k :: 0 <= k < |t| ==> t[k] == h[k + 1];
    if InBounds(h[0], rows, cols) && IsHike(g, rows, cols, t) && Manhattan(h[0], h[1]) == 1
       && Height(g, rows, cols, h[1]) == Height(g, rows, cols, h[0]) + 1 {
      forall k | 0 <= k < |h| - 1
        ensures Manhattan(h[k], h[k + 1]) == 1
                && Height(g, rows, cols, h[k + 1]) == Height(g, rows, cols, h[k]) + 1
      {
        if k > 0 {
          assert h[k] == t[k - 1] && h[k + 1] == t[k];
        }
      }
    }
  }

  /** The trails `traverse` finds from `start` are exactly the hiking trails
      that begin at `start`. */
  lemma {:induction false} HikesExact(g: Grid, rows: nat, cols: nat, start: Point, h: seq<Point>)
    requires Valid(g, rows, cols) && InBounds(start, rows, cols)
    ensures h in Hikes(g, rows, cols, start) <==> IsHike(g, rows, cols, h) && h[0] == start
    decreases 9 - Height(g, rows, cols, start)
  {
    if Height(g, rows, cols, start) == 9 {
      if IsHike(g, rows, cols, h) && h[0] == start {
        HikeLength(g, rows, cols, h);
        assert h == [start];
      }
    } else {
      var ns := Neighbors(start, rows, cols);
      ViaMembers(g, rows, cols, start, ns, h);
      if |h| >= 2 {
        HikeCons(g, rows, cols, h);
        if h[0] == start && h[1] in ns && Height(g, rows, cols, h[1]) == Height(g, rows, cols, start) + 1 {
          HikesExact(g, rows, cols, h[1], h[1..]);
        }
      } else if IsHike(g, rows, cols, h) && h[0] == start {
        HikeLength(g, rows, cols, h);
      }
    }
  }

  /** Heights along a trail climb by one per cell. */
  lemma {:induction false} HikeHeights(g: Grid, rows: nat, cols: nat, h: seq<Point>, k: nat)
    requires Valid(g, rows, cols) && IsHike(g, rows, cols, h) && k < |h|
    ensures Height(g, rows, cols, h[k]) == Height(g, rows, cols, h[0]) + k
  {
    if k > 0 {
      HikeHeights(g, rows, cols, h, k - 1);
    }
  }

  /** A trail from height `x` has `10 - x` cells; from a trailhead, ten. */
  lemma HikeLength(g: Grid, rows: nat, cols: nat, h: seq<Point>)
    requires Valid(g, rows, cols) && IsHike(g, rows, cols, h)
    ensures |h| == 10 - Height(g, rows, cols, h[0])
  {
    HikeHeights(g, rows, cols, h, |h| - 1);
  }

  /** A summit yields exactly the one-cell trail. */
  lemma SummitHikes(g: Grid, rows: nat, cols: nat, start: Point)
    requires Valid(g, rows, cols) && InBounds(start, rows, cols) && Height(g, rows, cols, start) == 9
    ensures Hikes(g, rows, cols, start) == {[start]}
  {
  }

  lemma PrefixNest(c: seq<Point>, x: Point, hs: set<seq<Point>>)
    ensures Prefix(c + [x], hs) == Prefix(c, Prefix([x], hs))
  {
    forall h | h in hs ensures (c + [x]) + h == c + ([x] + h) {
    }
    forall t | t in Prefix(c, Prefix([x], hs)) ensures t in Prefix(c + [x], hs) {
      var u :| u in Prefix([x], hs) && t == c + u;
      var h :| h in hs && u == [x] + h;
      assert t == (c + [x]) + h;
    }
  }

  lemma PrefixUnion(c: seq<Point>, a: set<seq<Point>>, b: set<seq<Point>>)
    ensures Prefix(c, a + b) == Prefix(c, a) + Prefix(c, b)
  {
  }

  lemma ViaSnoc(g: Grid, rows: nat, cols: nat, start: Point, ns: seq<Point>, i: nat)
    requires Valid(g, rows, cols) && InBounds(start, rows, cols)
    requires forall j :: 0 <= j < |ns| ==> InBounds(ns[j], rows, cols)
    requires i < |ns|
    ensures Via(g, rows, cols, start, ns[..i + 1])
            == Via(g, rows, cols, start, ns[..i])
               + if Height(g, rows, cols, ns[i]) == Height(g, rows, cols, start) + 1
                 then Prefix([start], Hikes(g, rows, cols, ns[i])) else {}
  {
    assert ns[..i + 1][..i] == ns[..i];
  }

  lemma PrefixEmpty(hs: set<seq<Point>>)
    ensures Prefix([], hs) == hs
  {
    forall h | h in hs ensures [] + h == h {
    }
  }

  /** `traverse(start, graph, limits, paths, currpath)`: depth-first search
      that adds every complete trail extending `currpath` through `start`
      to `paths`. */
  method Traverse(g: Grid, rows: nat, cols: nat, start: Point, paths: set<seq<Point>>, currpath: seq<Point>)
    returns (r: set<seq<Point>>)
    requires Valid(g, rows, cols) && InBounds(start, rows, cols)
    ensures r == paths + Prefix(currpath, Hikes(g, rows, cols, start))
    decreases 9 - Height(g, rows, cols, start)
  {
    hide Valid, Ends, TrailheadScore, Score;
    var path := currpath + [start];
    var ns := Neighbors(start, rows, cols);
    HikesUnfold(g, rows, cols, start);
    PrefixSmall(currpath, start);
    assert Via(g, rows, cols, start, ns[..0]) == {} by {
      assert ns[..0] == [];
    }
    hide Hikes, Via, Prefix;
    if Height(g, rows, cols, start) == 9 {
      return paths + {path};
    }
    var curr := Height(g, rows, cols, start);
    r := paths;
    var i := 0;
    while i < |ns|
      invariant 0 <= i <= |ns|
      invariant r == paths + Prefix(currpath, Via(g, rows, cols, start, ns[..i]))
    {
      var pos := ns[i];
      ghost var found := if Height(g, rows, cols, pos) == curr + 1 then Prefix([start], Hikes(g, rows, cols, pos)) else {};
      ViaSnoc(g, rows, cols, start, ns, i);
      PrefixUnion(currpath, Via(g, rows, cols, start, ns[..i]), found);
      if Height(g, rows, cols, pos) == curr + 1 {
        var sub := Traverse(g, rows, cols, pos, r, path);
        PrefixNest(currpath, start, Hikes(g, rows, cols, pos));
        r := r + sub;
      }
      i := i + 1;
    }
    assert ns[..i] == ns;
  }

  /** `Hikes` one level down. */
  lemma HikesUnfold(g: Grid, rows: nat, cols: nat, start: Point)
    requires Valid(g, rows, cols) && InBounds(start, rows, cols)
    ensures Hikes(g, rows, cols, start)
            == if Height(g, rows, cols, start) == 9 then {[start]}
               else Via(g, rows, cols, start, Neighbors(start, rows, cols))
  {
  }

  /** Prefixing the empty set and a single one-cell trail. */
  lemma PrefixSmall(c: seq<Point>, x: Point)
    ensures Prefix(c, {}) == {}
    ensures Prefix(c, {[x]}) == {c + [x]}
  {
  }

  /** `{path[-1] for path in paths}`. */
  function Ends(hs: set<seq<Point>>): set<Point>
  {
    set h | h in hs && |h| > 0 :: h[|h| - 1]
  }

  /** Counting summits never exceeds counting trails. */
  lemma {:induction false} EndsAtMostTrails(hs: set<seq<Point>>)
    ensures |Ends(hs)| <= |hs|
    decreases |hs|
  {
    if hs != {} {
      var x :| x in hs;
      var rest := hs - {x};
      EndsAtMostTrails(rest);
      if |x| > 0 {
        assert Ends(hs) == Ends(rest) + {x[|x| - 1]};
      } else {
        assert Ends(hs) == Ends(rest);
      }
    }
  }

  /** What one trailhead adds to the answer. */
  function TrailheadScore(g: Grid, rows: nat, cols: nat, th: Point, distinctEnds: bool): nat
    requires Valid(g, rows, cols) && InBounds(th, rows, cols)
  {
    var hs := Hikes(g, rows, cols, th);
    if distinctEnds then |Ends(hs)| else |hs|
  }

  /** The answer summed over the trailheads `ths`. */
  function Score(g: Grid, rows: nat, cols: nat, ths: seq<Point>, distinctEnds: bool): nat
    requires Valid(g, rows, cols) && forall i :: 0 <= i < |ths| ==> InBounds(ths[i], rows, cols)
  {
    if ths == [] then 0
    else Score(g, rows, cols, ths[..|ths| - 1], distinctEnds) + TrailheadScore(g, rows, cols, ths[|ths| - 1], distinctEnds)
  }

  lemma ScoreSnoc(g: Grid, rows: nat, cols: nat, ths: seq<Point>, i: nat, distinctEnds: bool)
    requires Valid(g, rows, cols) && forall j :: 0 <= j < |ths| ==> InBounds(ths[j], rows, cols)
    requires i < |ths|
    ensures Score(g, rows, cols, ths[..i + 1], distinctEnds)
            == Score(g, rows, cols, ths[..i], distinctEnds) + TrailheadScore(g, rows, cols, ths[i], distinctEnds)
  {
    assert ths[..i + 1][..i] == ths[..i];
  }

  /** One iteration of `solve`'s loop: traverse from `th` and count the
      trails, or only their end points. */
  method TrailheadCount(g: Grid, rows: nat, cols: nat, th: Point, distinctEnds: bool) returns (add: nat)
    requires Valid(g, rows, cols) && InBounds(th, rows, cols)
    ensures add == TrailheadScore(g, rows, cols, th, distinctEnds)
  {
    var paths := Traverse(g, rows, cols, th, {}, []);
    PrefixEmpty(Hikes(g, rows, cols, th));
    assert paths == Hikes(g, rows, cols, th);
    if distinctEnds {
      var ends := set path | path in paths && |path| > 0 :: path[|path| - 1];
      assert ends == Ends(paths);
      add := |ends|;
    } else {
      add := |paths|;
    }
  }

  /** `solve`: sum the trail (or summit) counts over the trailheads. */
  method Solve(g: Grid, rows: nat, cols: nat, distinctEnds: bool) returns (count: nat)
    requires Valid(g, rows, cols)
    ensures count == Score(g, rows, cols, Trailheads(g, rows, cols), distinctEnds)
  {
    hide Valid, Ends, TrailheadScore, Hikes, Via, Prefix;
    var ths := Trailheads(g, rows, cols);
    count := 0;
    var i := 0;
    while i < |ths|
      invariant 0 <= i <= |ths|
      invariant count == Score(g, rows, cols, ths[..i], distinctEnds)
    {
      assert ths[..i + 1][..i] == ths[..i];
      var add := TrailheadCount(g, rows, cols, ths[i], distinctEnds);
      ScoreSnoc(g, rows, cols, ths, i, distinctEnds);
      count := count + add;
      i := i + 1;
    }
    assert ths[..i] == ths;
  }

  method Part1(g: Grid, rows: nat, cols: nat) returns (count: nat)
    requires Valid(g, rows, cols)
    ensures count == Score(g, rows, cols, Trailheads(g, rows, cols), true)
  {
    count := Solve(g, rows, cols, true);
  }

  method Part2(g: Grid, rows: nat, cols: nat) returns (count: nat)
    requires Valid(g, rows, cols)
    ensures count == Score(g, rows, cols, Trailheads(g, rows, cols), false)
  {
    count := Solve(g, rows, cols, false);
  }

  /** The part 1 answer never exceeds the part 2 answer. */
  lemma {:induction false} SummitsAtMostTrails(g: Grid, rows: nat, cols: nat, ths: seq<Point>)
    requires Valid(g, rows, cols) && forall i :: 0 <= i < |ths| ==> InBounds(ths[i], rows, cols)
    ensures Score(g, rows, cols, ths, true) <= Score(g, rows, cols, ths, false)
  {
    if ths != [] {
      SummitsAtMostTrails(g, rows, cols, ths[..|ths| - 1]);
      EndsAtMostTrails(Hikes(g, rows, cols, ths[|ths| - 1]));
    }
  }

  /** Every trail from a trailhead has ten cells and ends on a summit. */
  lemma TrailheadHikes(g: Grid, rows: nat, cols: nat, th: Point, h: seq<Point>)
    requires Valid(g, rows, cols) && InBounds(th, rows, cols) && Height(g, rows, cols, th) == 0
    requires h in Hikes(g, rows, cols, th)
    ensures |h| == 10 && h[0] == th && IsHike(g, rows, cols, h)
  {
    HikesExact(g, rows, cols, th, h);
    HikeLength(g, rows, cols, h);
  }
}
