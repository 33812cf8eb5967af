/** Day 12: garden plots labelled by plant. A region is a maximal set of
    same-label plots joined through orthogonal neighbours. Part 1 prices a
    region at area × perimeter, part 2 at area × number of sides.

    Plots are complex coordinates `c + r·i` (column, row); the loader fills
    the plot dictionary row by row, so here it is a sequence of rows, with
    `width` columns and `height` rows. Cell borders sit half a step off the
    plot centres; they are kept in doubled coordinates, so plot `p` is
    `2p` and its borders are `2p ± 1` and `2p ± i`. */
module Day12 {
  import opened Common

  type Grid = seq<seq<char>>

  /** The plot dictionary `load` builds: `height` rows of `width` labels. */
  predicate ValidGrid(g: Grid, width: nat, height: nat)
  {
    |g| == height && forall r :: 0 <= r < height ==> |g[r]| == width
  }

  predicate InBounds(p: Point, width: int, height: int)
  {
    0 <= p.re < width && 0 <= p.im < height
  }

  /** `grid[p]`. */
  function Label(g: Grid, width: nat, height: nat, p: Point): char
    requires ValidGrid(g, width, height) && InBounds(p, width, height)
  {
    g[p.im][p.re]
  }

  /** The offsets `get_neighbors` tries, in its order: 1, -1, i, -i. */
  const Dirs: seq<Point> := [Point(1, 0), Point(-1, 0), Point(0, 1), Point(0, -1)]

  /** Two plots of one region that touch: orthogonal neighbours, same label. */
  predicate Adj(g: Grid, width: nat, height: nat, p: Point, q: Point)
    requires ValidGrid(g, width, height)
  {
    InBounds(p, width, height) && InBounds(q, width, height) && Manhattan(p, q) == 1
    && Label(g, width, height, p) == Label(g, width, height, q)
  }

  lemma AdjSymmetric(g: Grid, width: nat, height: nat, p: Point, q: Point)
    requires ValidGrid(g, width, height)
    ensures Adj(g, width, height, p, q) <==> Adj(g, width, height, q, p)
  {
  }

  /** The candidates of `ps` that are in bounds and labelled `name`, in order. */
  function KeepSame(g: Grid, width: nat, height: nat, name: char, ps: seq<Point>): (r: seq<Point>)
    requires ValidGrid(g, width, height)
    ensures forall p {:trigger p in r} :: p in r <==> p in ps && InBounds(p, width, height) && Label(g, width, height, p) == name
  {
    if ps == [] then []
    else
      var last := ps[|ps| - 1];
      KeepSame(g, width, height, name, ps[..|ps| - 1])
        + (if InBounds(last, width, height) && Label(g, width, height, last) == name then [last] else [])
  }

  lemma UnitOffset(pos: Point, p: Point)
    ensures Manhattan(pos, p) == 1 <==> p.Sub(pos) in Dirs
  {
  }

  /** `get_neighbors`: the plots touching `pos` in its own region. */
  function GetNeighbors(g: Grid, width: nat, height: nat, pos: Point): (ns: seq<Point>)
    requires ValidGrid(g, width, height) && InBounds(pos, width, height)
    ensures forall p :: p in ns <==> Adj(g, width, height, pos, p)
  {
    var cand := [pos.Add(Dirs[0]), pos.Add(Dirs[1]), pos.Add(Dirs[2]), pos.Add(Dirs[3])];
    assert forall p :: p in cand <==> p.Sub(pos) in Dirs;
    assert forall p :: Manhattan(pos, p) == 1 <==> p.Sub(pos) in Dirs by {
      forall p ensures Manhattan(pos, p) == 1 <==> p.Sub(pos) in Dirs {
        UnitOffset(pos, p);
      }
    }
    KeepSame(g, width, height, Label(g, width, height, pos), cand)
  }

  /** `{pos, *neighbors}`. */
  function Positions(g: Grid, width: nat, height: nat, pos: Point): (s: set<Point>)
    requires ValidGrid(g, width, height) && InBounds(pos, width, height)
    ensures forall p :: p in s <==> p == pos || Adj(g, width, height, pos, p)
  {
    var ns := GetNeighbors(g, width, height, pos);
    {pos} + set p | p in ns
  }

  /** A walk through one region: consecutive plots touch. */
  ghost predicate IsWalk(g: Grid, width: nat, height: nat, w: seq<Point>)
    requires ValidGrid(g, width, height)
  {
    && |w| >= 1
    && InBounds(w[0], width, height)
    && forall k :: 0 <= k < |w| - 1 ==> Adj(g, width, height, w[k], w[k + 1])
  }

  /** `w` is a walk from `x` to `y`. */
  ghost predicate WalkBetween(g: Grid, width: nat, height: nat, w: seq<Point>, x: Point, y: Point)
    requires ValidGrid(g, width, height)
  {
    IsWalk(g, width, height, w) && w[0] == x && w[|w| - 1] == y
  }

  /** `x` and `y` lie in the same region. */
  ghost predicate Linked(g: Grid, width: nat, height: nat, x: Point, y: Point)
    requires ValidGrid(g, width, height)
  {
    exists w :: WalkBetween(g, width, height, w, x, y)
  }

  lemma LinkedRefl(g: Grid, width: nat, height: nat, x: Point)
    requires ValidGrid(g, width, height) && InBounds(x, width, height)
    ensures Linked(g, width, height, x, x)
  {
    assert WalkBetween(g, width, height, [x], x, x);
  }

  lemma LinkedAdj(g: Grid, width: nat, height: nat, x: Point, y: Point)
    requires ValidGrid(g, width, height) && Adj(g, width, height, x, y)
    ensures Linked(g, width, height, x, y)
  {
    assert WalkBetween(g, width, height, [x, y], x, y);
  }

  lemma LinkedTrans(g: Grid, width: nat, height: nat, x: Point, y: Point, z: Point)
    requires ValidGrid(g, width, height)
    requires Linked(g, width, height, x, y) && Linked(g, width, height, y, z)
    ensures Linked(g, width, height, x, z)
  {
    var u :| WalkBetween(g, width, height, u, x, y);
    var v :| WalkBetween(g, width, height, v, y, z);
    var w := u + v[1..];
    forall k | 0 <= k < |w| - 1 ensures Adj(g, width, height, w[k], w[k + 1]) {
      if k < |u| - 1 {
        assert w[k] == u[k] && w[k + 1] == u[k + 1];
      } else {
        assert w[k] == v[k - |u| + 1] && w[k + 1] == v[k - |u| + 2];
      }
    }
    assert WalkBetween(g, width, height, w, x, z);
  }

  lemma LinkedSym(g: Grid, width: nat, height: nat, x: Point, y: Point)
    requires ValidGrid(g, width, height) && Linked(g, width, height, x, y)
    ensures Linked(g, width, height, y, x)
  {
    var u :| WalkBetween(g, width, height, u, x, y);
    var w := seq(|u|, k requires 0 <= k < |u| => u[|u| - 1 - k]);
    assert InBounds(y, width, height) by {
      if |u| > 1 {
        assert Adj(g, width, height, u[|u| - 2], u[|u| - 1]);
      }
    }
    hide Adj, ValidGrid, Label;
    forall k | 0 <= k < |w| - 1 ensures Adj(g, width, height, w[k], w[k + 1]) {
      assert w[k] == u[|u| - 1 - k] && w[k + 1] == u[|u| - 2 - k];
      AdjSymmetric(g, width, height, u[|u| - 2 - k], u[|u| - 1 - k]);
    }
    assert WalkBetween(g, width, height, w, y, x);
  }

  /** A set closed under touching contains every plot linked to a member. */
  ghost predicate Closed(g: Grid, width: nat, height: nat, s: set<Point>)
    requires ValidGrid(g, width, height)
  {
    forall p, q {:trigger Adj(g, width, height, p, q)} :: p in s && Adj(g, width, height, p, q) ==> q in s
  }

  lemma {:induction false} ClosedWalk(g: Grid, width: nat, height: nat, s: set<Point>, w: seq<Point>)
    requires ValidGrid(g, width, height) && Closed(g, width, height, s)
    requires IsWalk(g, width, height, w) && w[0] in s
    ensures w[|w| - 1] in s
    decreases |w|
  {
    if |w| > 1 {
      var v := w[..|w| - 1];
      assert IsWalk(g, width, height, v) by {
        forall k | 0 <= k < |v| - 1 ensures Adj(g, width, height, v[k], v[k + 1]) {
          assert v[k] == w[k] && v[k + 1] == w[k + 1];
        }
      }
      ClosedWalk(g, width, height, s, v);
      assert Adj(g, width, height, w[|w| - 2], w[|w| - 1]);
    }
  }

  lemma ClosedReach(g: Grid, width: nat, height: nat, s: set<Point>, x: Point, y: Point)
    requires ValidGrid(g, width, height) && Closed(g, width, height, s)
    requires x in s && Linked(g, width, height, x, y)
    ensures y in s
  {
    var w :| WalkBetween(g, width, height, w, x, y);
    ClosedWalk(g, width, height, s, w);
  }

  /** The plots of row `r` in columns below `c`. */
  ghost function RowCells(c: nat, r: int): set<Point>
  {
    if c == 0 then {} else RowCells(c - 1, r) + {Point(c - 1, r)}
  }

  /** The plots of the rows below `height`, i.e. the whole garden. */
  ghost function AllCells(width: nat, height: nat): set<Point>
  {
    if height == 0 then {} else AllCells(width, height - 1) + RowCells(width, height - 1)
  }

  lemma {:induction false} RowCellsHas(c: nat, r: int, p: Point)
    ensures p in RowCells(c, r) <==> p.im == r && 0 <= p.re < c
  {
    if c > 0 {
      RowCellsHas(c - 1, r, p);
    }
  }

  lemma {:induction false} AllCellsHas(width: nat, height: nat, p: Point)
    ensures p in AllCells(width, height) <==> InBounds(p, width, height)
  {
    if height > 0 {
      AllCellsHas(width, height - 1, p);
      RowCellsHas(width, height - 1, p);
    }
  }

  type AreaMap = map<char, seq<set<Point>>>

  /** `areas[name]` of the default dictionary: the empty list for a new name. */
  function AreasOf(areas: AreaMap, name: char): seq<set<Point>>
  {
    if name in areas then areas[name] else []
  }

  /** Every plot of every listed area lies in `s`. */
  predicate AreaCellsIn(areas: AreaMap, s: set<Point>)
  {
    forall n, i, c {:trigger c in areas[n][i]} :: n in areas && 0 <= i < |areas[n]| && c in areas[n][i] ==> c in s
  }

  /** Areas only grow: no name disappears, lists are only appended to and
      each listed area only gains plots. */
  predicate Grows(a: AreaMap, b: AreaMap)
  {
    forall n :: n in a ==> n in b && |a[n]| <= |b[n]| && forall i :: 0 <= i < |a[n]| ==> a[n][i] <= b[n][i]
  }

  /** Every plot of `b` is in `s` or was already in an area of `a`. */
  predicate NewCellsIn(a: AreaMap, b: AreaMap, s: set<Point>)
  {
    forall n, i, c {:trigger c in b[n][i]} :: n in b && 0 <= i < |b[n]| && c in b[n][i] ==>
      c in s || (n in a && i < |a[n]| && c in a[n][i])
  }

  /** `v` and every plot touching it lie in `area`. */
  ghost predicate HoldsAround(g: Grid, width: nat, height: nat, v: Point, area: set<Point>)
    requires ValidGrid(g, width, height)
  {
    v in area && forall q {:trigger Adj(g, width, height, v, q)} :: Adj(g, width, height, v, q) ==> q in area
  }

  /** `v` and its touching plots sit together in one area of its label. */
  ghost predicate CoveredIn(g: Grid, width: nat, height: nat, areas: AreaMap, v: Point)
    requires ValidGrid(g, width, height) && InBounds(v, width, height)
  {
    var n := Label(g, width, height, v);
    n in areas && exists i :: 0 <= i < |areas[n]| && HoldsAround(g, width, height, v, areas[n][i])
  }

  lemma CoveredBy(g: Grid, width: nat, height: nat, areas: AreaMap, i: nat, v: Point)
    requires ValidGrid(g, width, height) && InBounds(v, width, height)
    requires Label(g, width, height, v) in areas && i < |areas[Label(g, width, height, v)]|
    requires Positions(g, width, height, v) <= areas[Label(g, width, height, v)][i]
    ensures CoveredIn(g, width, height, areas, v)
  {
    assert HoldsAround(g, width, height, v, areas[Label(g, width, height, v)][i]);
  }

  ghost predicate InSomeAreaOf(g: Grid, width: nat, height: nat, areas: AreaMap, p: Point)
    requires ValidGrid(g, width, height) && InBounds(p, width, height)
  {
    var n := Label(g, width, height, p);
    n in areas && exists i :: 0 <= i < |areas[n]| && p in areas[n][i]
  }

  /** Each name has as many roots as areas. */
  ghost predicate Shaped(areas: AreaMap, roots: map<char, seq<Point>>)
  {
    areas.Keys == roots.Keys && forall n :: n in areas ==> |areas[n]| == |roots[n]|
  }

  /** Each area contains the plot whose fill started it. */
  ghost predicate RootsIn(width: nat, height: nat, areas: AreaMap, roots: map<char, seq<Point>>)
  {
    forall n, i :: n in areas && n in roots && 0 <= i < |areas[n]| && i < |roots[n]| ==>
      InBounds(roots[n][i], width, height) && roots[n][i] in areas[n][i]
  }

  /** Each area holds plots of its label, all linked to its root. */
  ghost predicate Pure(g: Grid, width: nat, height: nat, areas: AreaMap, roots: map<char, seq<Point>>)
    requires ValidGrid(g, width, height)
  {
    forall n, i, c {:trigger c in areas[n][i]} :: n in areas && n in roots && 0 <= i < |areas[n]| && i < |roots[n]| && c in areas[n][i] ==>
      InBounds(c, width, height) && Label(g, width, height, c) == n
      && Linked(g, width, height, roots[n][i], c)
  }

  /** The roots of two areas of one label are never linked. */
  ghost predicate Apart(g: Grid, width: nat, height: nat, roots: map<char, seq<Point>>)
    requires ValidGrid(g, width, height)
  {
    forall n, i, j :: n in roots && 0 <= i < |roots[n]| && 0 <= j < |roots[n]| && i != j ==>
      !Linked(g, width, height, roots[n][i], roots[n][j])
  }

  /** Every visited plot other than `skip` is covered. */
  ghost predicate CoversBut(g: Grid, width: nat, height: nat, areas: AreaMap, visited: set<Point>, skip: set<Point>)
    requires ValidGrid(g, width, height)
  {
    forall v {:trigger v in visited} :: v in visited ==> InBounds(v, width, height) && (v !in skip ==> CoveredIn(g, width, height, areas, v))
  }

  /** What the fill keeps true about its areas, whatever it has visited. */
  ghost predicate FloodCore(g: Grid, width: nat, height: nat, areas: AreaMap, roots: map<char, seq<Point>>)
  {
    && ValidGrid(g, width, height)
    && Shaped(areas, roots)
    && RootsIn(width, height, areas, roots)
    && Pure(g, width, height, areas, roots)
    && Apart(g, width, height, roots)
  }

  /** The core facts, and every visited plot is covered. */
  ghost predicate FloodInv(g: Grid, width: nat, height: nat, areas: AreaMap, roots: map<char, seq<Point>>, visited: set<Point>)
  {
    ValidGrid(g, width, height) && FloodCore(g, width, height, areas, roots) && CoversBut(g, width, height, areas, visited, {})
  }

  /** The area update of `_flood_fill` when the `i`-th area of `name` meets
      the new plots `ps`. */
  function Joined(areas: AreaMap, name: char, i: nat, ps: set<Point>): AreaMap
    requires name in areas && i < |areas[name]|
  {
    areas[name := areas[name][i := areas[name][i] + ps]]
  }

  /** The area update of `_flood_fill` when no area of `name` meets `ps`. */
  function Appended(areas: AreaMap, name: char, ps: set<Point>): AreaMap
  {
    areas[name := AreasOf(areas, name) + [ps]]
  }

  function RootsOf(roots: map<char, seq<Point>>, name: char): seq<Point>
  {
    if name in roots then roots[name] else []
  }

  /** The plots `ps` all carry label `name` and are linked to `root`. */
  ghost predicate Fits(g: Grid, width: nat, height: nat, ps: set<Point>, name: char, root: Point)
    requires ValidGrid(g, width, height)
  {
    forall y {:trigger y in ps} :: y in ps ==>
      InBounds(y, width, height) && Label(g, width, height, y) == name && Linked(g, width, height, root, y)
  }

  lemma JoinedPure(g: Grid, width: nat, height: nat, areas: AreaMap, roots: map<char, seq<Point>>, name: char, i: nat, ps: set<Point>)
    requires ValidGrid(g, width, height) && Pure(g, width, height, areas, roots)
    requires name in areas && name in roots && i < |areas[name]| && i < |roots[name]|
    requires Fits(g, width, height, ps, name, roots[name][i])
    ensures Pure(g, width, height, Joined(areas, name, i, ps), roots)
  {
    var b := Joined(areas, name, i, ps);
    forall n, k, c | n in b && n in roots && 0 <= k < |b[n]| && k < |roots[n]| && c in b[n][k]
      ensures InBounds(c, width, height) && Label(g, width, height, c) == n
        && Linked(g, width, height, roots[n][k], c)
    {
      if n != name {
        assert b[n] == areas[n];
      } else if k != i {
        assert b[n][k] == areas[n][k];
      } else if c !in ps {
        assert b[n][k] == areas[n][k] + ps;
        assert c in areas[n][k];
      }
    }
  }

  lemma RootsInGrows(width: nat, height: nat, a: AreaMap, b: AreaMap, roots: map<char, seq<Point>>)
    requires RootsIn(width, height, a, roots) && Grows(a, b) && Shaped(a, roots) && Shaped(b, roots)
    ensures RootsIn(width, height, b, roots)
  {
    forall n, k | n in b && n in roots && 0 <= k < |b[n]| && k < |roots[n]|
      ensures InBounds(roots[n][k], width, height) && roots[n][k] in b[n][k]
    {
      assert a[n][k] <= b[n][k];
    }
  }

  lemma JoinedCore(g: Grid, width: nat, height: nat, areas: AreaMap, roots: map<char, seq<Point>>, name: char, i: nat, ps: set<Point>)
    requires FloodCore(g, width, height, areas, roots) && name in areas && i < |areas[name]|
    requires Fits(g, width, height, ps, name, roots[name][i])
    ensures FloodCore(g, width, height, Joined(areas, name, i, ps), roots)
    ensures Grows(areas, Joined(areas, name, i, ps))
    ensures NewCellsIn(areas, Joined(areas, name, i, ps), ps)
  {
    hide Pure, Apart;
    assert Shaped(Joined(areas, name, i, ps), roots);
    RootsInGrows(width, height, areas, Joined(areas, name, i, ps), roots);
    JoinedPure(g, width, height, areas, roots, name, i, ps);
  }

  lemma AppendedPure(g: Grid, width: nat, height: nat, areas: AreaMap, roots: map<char, seq<Point>>, name: char, pos: Point, ps: set<Point>)
    requires ValidGrid(g, width, height) && Shaped(areas, roots) && Pure(g, width, height, areas, roots)
    requires Fits(g, width, height, ps, name, pos)
    ensures Pure(g, width, height, Appended(areas, name, ps), roots[name := RootsOf(roots, name) + [pos]])
  {
    var b := Appended(areas, name, ps);
    var rs := roots[name := RootsOf(roots, name) + [pos]];
    var m := |AreasOf(areas, name)|;
    forall n, k, c | n in b && n in rs && 0 <= k < |b[n]| && k < |rs[n]| && c in b[n][k]
      ensures InBounds(c, width, height) && Label(g, width, height, c) == n
        && Linked(g, width, height, rs[n][k], c)
    {
      if n != name {
        assert b[n] == areas[n] && rs[n] == roots[n];
      } else if k < m {
        assert rs[n][k] == roots[n][k] && b[n][k] == areas[n][k];
      } else {
        assert rs[n][k] == pos && b[n][k] == ps;
      }
    }
  }

  lemma AppendedApart(g: Grid, width: nat, height: nat, roots: map<char, seq<Point>>, name: char, pos: Point)
    requires ValidGrid(g, width, height) && Apart(g, width, height, roots)
    requires forall j :: 0 <= j < |RootsOf(roots, name)| ==>
      !Linked(g, width, height, RootsOf(roots, name)[j], pos) && !Linked(g, width, height, pos, RootsOf(roots, name)[j])
    ensures Apart(g, width, height, roots[name := RootsOf(roots, name) + [pos]])
  {
    var old_ := RootsOf(roots, name);
    var rs := roots[name := old_ + [pos]];
    var m := |old_|;
    forall n, k, j | n in rs && 0 <= k < |rs[n]| && 0 <= j < |rs[n]| && k != j
      ensures !Linked(g, width, height, rs[n][k], rs[n][j])
    {
      if n != name {
        assert rs[n] == roots[n];
      } else if k < m && j < m {
        assert rs[n][k] == roots[n][k] && rs[n][j] == roots[n][j];
      } else if k < m {
        assert rs[n][k] == old_[k] && rs[n][j] == pos;
      } else {
        assert rs[n][j] == old_[j] && rs[n][k] == pos;
      }
    }
  }

  lemma AppendedRootsIn(width: nat, height: nat, areas: AreaMap, roots: map<char, seq<Point>>, name: char, pos: Point, ps: set<Point>)
    requires RootsIn(width, height, areas, roots) && Shaped(areas, roots)
    requires InBounds(pos, width, height) && pos in ps
    ensures RootsIn(width, height, Appended(areas, name, ps), roots[name := RootsOf(roots, name) + [pos]])
  {
    var b := Appended(areas, name, ps);
    var rs := roots[name := RootsOf(roots, name) + [pos]];
    var m := |AreasOf(areas, name)|;
    forall n, k | n in b && n in rs && 0 <= k < |b[n]| && k < |rs[n]|
      ensures InBounds(rs[n][k], width, height) && rs[n][k] in b[n][k]
    {
      if n != name {
        assert b[n] == areas[n] && rs[n] == roots[n];
      } else if k < m {
        assert rs[n][k] == roots[n][k] && b[n][k] == areas[n][k];
      }
    }
  }

  lemma AppendedCore(g: Grid, width: nat, height: nat, areas: AreaMap, roots: map<char, seq<Point>>, name: char, pos: Point, ps: set<Point>)
    requires FloodCore(g, width, height, areas, roots) && InBounds(pos, width, height) && pos in ps
    requires Fits(g, width, height, ps, name, pos)
    requires forall j :: 0 <= j < |RootsOf(roots, name)| ==>
      !Linked(g, width, height, RootsOf(roots, name)[j], pos) && !Linked(g, width, height, pos, RootsOf(roots, name)[j])
    ensures FloodCore(g, width, height, Appended(areas, name, ps), roots[name := RootsOf(roots, name) + [pos]])
    ensures Grows(areas, Appended(areas, name, ps))
    ensures NewCellsIn(areas, Appended(areas, name, ps), ps)
  {
    hide Pure, Apart, RootsIn;
    assert Shaped(Appended(areas, name, ps), roots[name := RootsOf(roots, name) + [pos]]);
    AppendedRootsIn(width, height, areas, roots, name, pos, ps);
    AppendedPure(g, width, height, areas, roots, name, pos, ps);
    AppendedApart(g, width, height, roots, name, pos);
  }

  /** Covering survives growth of the areas; `pos` becomes covered once its
      plots sit in one area. */
  lemma CoversAfter(g: Grid, width: nat, height: nat, a: AreaMap, b: AreaMap, visited: set<Point>, pos: Point)
    requires ValidGrid(g, width, height) && InBounds(pos, width, height)
    requires CoversBut(g, width, height, a, visited, {pos}) && Grows(a, b)
    requires CoveredIn(g, width, height, b, pos)
    ensures CoversBut(g, width, height, b, visited, {})
  {
    forall v | v in visited && v != pos ensures CoveredIn(g, width, height, b, v) {
      CoveredGrows(g, width, height, a, b, v);
    }
  }

  lemma CoveredGrows(g: Grid, width: nat, height: nat, a: AreaMap, b: AreaMap, v: Point)
    requires ValidGrid(g, width, height) && InBounds(v, width, height)
    requires Grows(a, b) && CoveredIn(g, width, height, a, v)
    ensures CoveredIn(g, width, height, b, v)
  {
    var n := Label(g, width, height, v);
    var i :| 0 <= i < |a[n]| && HoldsAround(g, width, height, v, a[n][i]);
    assert HoldsAround(g, width, height, v, b[n][i]);
  }

  lemma CoveredNeighbor(g: Grid, width: nat, height: nat, areas: AreaMap, pos: Point, q: Point)
    requires ValidGrid(g, width, height) && InBounds(pos, width, height)
    requires CoveredIn(g, width, height, areas, pos) && Adj(g, width, height, pos, q)
    ensures InSomeAreaOf(g, width, height, areas, q)
  {
    var n := Label(g, width, height, pos);
    var i :| 0 <= i < |areas[n]| && HoldsAround(g, width, height, pos, areas[n][i]);
    assert q in areas[n][i];
  }

  lemma GrowsTrans(a: AreaMap, b: AreaMap, c: AreaMap)
    requires Grows(a, b) && Grows(b, c)
    ensures Grows(a, c)
  {
  }

  lemma NewCellsTrans(a: AreaMap, b: AreaMap, c: AreaMap, s: set<Point>, t0: set<Point>, t: set<Point>)
    requires NewCellsIn(a, b, s) && NewCellsIn(b, c, t0) && s <= t && t0 <= t
    ensures NewCellsIn(a, c, t)
  {
  }

  /** What a fill from `(a0, v0)` to `(a, v)` achieves: the areas only
      grow, every plot added to them was visited, and every newly visited
      plot has all its touching plots visited. */
  ghost predicate Progress(g: Grid, width: nat, height: nat, a0: AreaMap, v0: set<Point>, a: AreaMap, v: set<Point>)
    requires ValidGrid(g, width, height)
  {
    && Grows(a0, a)
    && NewCellsIn(a0, a, v)
    && forall p, q {:trigger Adj(g, width, height, p, q)} :: p in v - v0 && Adj(g, width, height, p, q) ==> q in v
  }

  lemma ProgressRefl(g: Grid, width: nat, height: nat, a: AreaMap, v: set<Point>)
    requires ValidGrid(g, width, height)
    ensures Progress(g, width, height, a, v, a, v)
  {
  }

  lemma ProgressTrans(g: Grid, width: nat, height: nat, a0: AreaMap, v0: set<Point>, a1: AreaMap, v1: set<Point>, a2: AreaMap, v2: set<Point>)
    requires ValidGrid(g, width, height) && v1 <= v2
    requires Progress(g, width, height, a0, v0, a1, v1) && Progress(g, width, height, a1, v1, a2, v2)
    ensures Progress(g, width, height, a0, v0, a2, v2)
  {
    GrowsTrans(a0, a1, a2);
    NewCellsTrans(a0, a1, a2, v1, v2, v2);
  }

  /** One call of the fill: the plots around `pos` went into the areas
      (`a0` to `a1`), then the neighbours were filled (`a1` to `a2`). */
  lemma ProgressStep(g: Grid, width: nat, height: nat, a0: AreaMap, v0: set<Point>, a1: AreaMap, pos: Point, a2: AreaMap, v2: set<Point>)
    requires ValidGrid(g, width, height) && InBounds(pos, width, height)
    requires Grows(a0, a1) && NewCellsIn(a0, a1, Positions(g, width, height, pos))
    requires Positions(g, width, height, pos) <= v2 && v0 + {pos} <= v2
    requires Progress(g, width, height, a1, v0 + {pos}, a2, v2)
    ensures Progress(g, width, height, a0, v0, a2, v2)
  {
    GrowsTrans(a0, a1, a2);
    NewCellsTrans(a0, a1, a2, Positions(g, width, height, pos), v2, v2);
  }

  /** Marking `pos` visited leaves every other visited plot covered. */
  lemma CoversMark(g: Grid, width: nat, height: nat, areas: AreaMap, seen: set<Point>, pos: Point)
    requires ValidGrid(g, width, height) && InBounds(pos, width, height)
    requires CoversBut(g, width, height, areas, seen, {})
    ensures CoversBut(g, width, height, areas, seen + {pos}, {pos})
  {
  }

  /** The search of `_flood_fill` through the areas of one plant, newest
      first: the last area holding one of `positions`, if any. */
  method LastTouching(list: seq<set<Point>>, positions: set<Point>) returns (found: bool, i: nat)
    ensures found ==> i < |list| && !(list[i] !! positions)
    ensures found ==> forall k :: i < k < |list| ==> list[k] !! positions
    ensures !found ==> forall k :: 0 <= k < |list| ==> list[k] !! positions
  {
    i := |list|;
    found := false;
    while i > 0 && !found
      invariant 0 <= i <= |list|
      invariant forall k :: i < k < |list| ==> list[k] !! positions
      invariant !found ==> i == |list| || list[i] !! positions
      invariant found ==> i < |list| && !(list[i] !! positions)
    {
      i := i - 1;
      if !(list[i] !! positions) {
        found := true;
      }
    }
  }

  /** Plots touching a plot of an area join its root's region. */
  lemma JoinFits(g: Grid, width: nat, height: nat, area: set<Point>, root: Point, pos: Point)
    requires ValidGrid(g, width, height) && InBounds(pos, width, height)
    requires Fits(g, width, height, area, Label(g, width, height, pos), root)
    requires !(area !! Positions(g, width, height, pos))
    ensures Fits(g, width, height, Positions(g, width, height, pos), Label(g, width, height, pos), root)
  {
    var positions := Positions(g, width, height, pos);
    var x :| x in area && x in positions;
    assert Linked(g, width, height, x, pos) by {
      if x == pos {
        LinkedRefl(g, width, height, pos);
      } else {
        AdjSymmetric(g, width, height, pos, x);
        LinkedAdj(g, width, height, x, pos);
      }
    }
    LinkedTrans(g, width, height, root, x, pos);
    forall y | y in positions ensures Linked(g, width, height, root, y) {
      if y != pos {
        LinkedAdj(g, width, height, pos, y);
        LinkedTrans(g, width, height, root, pos, y);
      }
    }
  }

  lemma NewFits(g: Grid, width: nat, height: nat, pos: Point)
    requires ValidGrid(g, width, height) && InBounds(pos, width, height)
    ensures Fits(g, width, height, Positions(g, width, height, pos), Label(g, width, height, pos), pos)
  {
    LinkedRefl(g, width, height, pos);
    forall y | y in Positions(g, width, height, pos) ensures Linked(g, width, height, pos, y) {
      if y != pos {
        LinkedAdj(g, width, height, pos, y);
      }
    }
  }

  /** A plot that meets no area of its label, reached when the visited
      plots were whole regions holding every area, is linked to no root. */
  lemma NewApart(g: Grid, width: nat, height: nat, areas: AreaMap, roots: map<char, seq<Point>>, name: char, pos: Point, seen: set<Point>)
    requires ValidGrid(g, width, height) && Shaped(areas, roots) && RootsIn(width, height, areas, roots)
    requires InBounds(pos, width, height) && pos !in seen && name == Label(g, width, height, pos)
    requires forall k :: 0 <= k < |AreasOf(areas, name)| ==> AreasOf(areas, name)[k] !! Positions(g, width, height, pos)
    requires InSomeAreaOf(g, width, height, areas, pos) || (AreaCellsIn(areas, seen) && Closed(g, width, height, seen))
    ensures forall j :: 0 <= j < |RootsOf(roots, name)| ==>
      !Linked(g, width, height, RootsOf(roots, name)[j], pos) && !Linked(g, width, height, pos, RootsOf(roots, name)[j])
  {
    var rs := RootsOf(roots, name);
    var list := AreasOf(areas, name);
    assert pos in Positions(g, width, height, pos);
    forall i | 0 <= i < |list| ensures pos !in list[i] {
      assert list[i] !! Positions(g, width, height, pos);
    }
    assert !InSomeAreaOf(g, width, height, areas, pos);
    forall j | 0 <= j < |rs|
      ensures !Linked(g, width, height, rs[j], pos) && !Linked(g, width, height, pos, rs[j])
    {
      assert rs[j] in areas[name][j];
      if Linked(g, width, height, pos, rs[j]) {
        LinkedSym(g, width, height, pos, rs[j]);
      }
      if Linked(g, width, height, rs[j], pos) {
        ClosedReach(g, width, height, seen, rs[j], pos);
      }
    }
  }

  lemma FewerCount(a: set<Point>, b: set<Point>)
    requires a <= b
    ensures |a| <= |b|
  {
    assert b == a + (b - a);
    assert |b| == |a| + |b - a|;
  }

  lemma DisjointCount(a: set<Point>, b: set<Point>)
    requires a !! b
    ensures |a + b| == |a| + |b|
  {
    assert a * b == {};
  }

  lemma {:induction false} RowCount(c: nat, r: int)
    ensures |RowCells(c, r)| == c
  {
    if c > 0 {
      RowCount(c - 1, r);
      RowCellsHas(c - 1, r, Point(c - 1, r));
      DisjointCount(RowCells(c - 1, r), {Point(c - 1, r)});
    }
  }

  /** Row `h` is not among the rows below it. */
  lemma NextRowApart(width: nat, h: nat)
    ensures AllCells(width, h) !! RowCells(width, h)
  {
    forall p | p in RowCells(width, h) ensures p !in AllCells(width, h) {
      RowCellsHas(width, h, p);
      AllCellsHas(width, h, p);
    }
  }

  lemma {:induction false} CellCount(width: nat, height: nat)
    ensures |AllCells(width, height)| == width * height
  {
    if height > 0 {
      var below, row := AllCells(width, height - 1), RowCells(width, height - 1);
      assert AllCells(width, height) == below + row;
      hide AllCells, RowCells;
      CellCount(width, height - 1);
      RowCount(width, height - 1);
      NextRowApart(width, height - 1);
      DisjointCount(below, row);
      MulPred(width, height);
    }
  }

  lemma MulPred(a: nat, b: nat)
    requires b > 0
    ensures a * b == a * (b - 1) + a
  {
  }

  lemma VisitedBound(width: nat, height: nat, visited: set<Point>)
    requires forall v :: v in visited ==> InBounds(v, width, height)
    ensures |visited| <= width * height
  {
    assert visited <= AllCells(width, height) by {
      forall v | v in visited ensures v in AllCells(width, height) {
        AllCellsHas(width, height, v);
      }
    }
    FewerCount(visited, AllCells(width, height));
    CellCount(width, height);
  }

  /** The result of `find_areas`: for each label, its list of areas, which
      are exactly the regions of that label. */
  ghost predicate IsRegionMap(g: Grid, width: nat, height: nat, areas: AreaMap)
    requires ValidGrid(g, width, height)
  {
    // every listed plot is in bounds and carries its list's label
    && (forall n, i, c :: n in areas && 0 <= i < |areas[n]| && c in areas[n][i] ==>
          InBounds(c, width, height) && Label(g, width, height, c) == n)
    // every plot is in an area of its label
    && (forall p :: InBounds(p, width, height) ==> InSomeAreaOf(g, width, height, areas, p))
    // areas are non-empty and closed under touching plots
    && (forall n, i :: n in areas && 0 <= i < |areas[n]| ==>
          areas[n][i] != {} && Closed(g, width, height, areas[n][i]))
    // all plots of an area are linked
    && (forall n, i, x, y :: n in areas && 0 <= i < |areas[n]| && x in areas[n][i] && y in areas[n][i] ==>
          Linked(g, width, height, x, y))
    // different areas of a label share no plot
    && (forall n, i, j, c :: n in areas && 0 <= i < |areas[n]| && 0 <= j < |areas[n]| && i != j && c in areas[n][i] ==>
          c !in areas[n][j])
  }

  /** A plot lies in at most one area of its label. */
  lemma OneArea(g: Grid, width: nat, height: nat, areas: AreaMap, roots: map<char, seq<Point>>, n: char, i: nat, j: nat, c: Point)
    requires FloodCore(g, width, height, areas, roots)
    requires n in areas && i < |areas[n]| && j < |areas[n]| && c in areas[n][i] && c in areas[n][j]
    ensures i == j
  {
    var ri, rj := roots[n][i], roots[n][j];
    assert Linked(g, width, height, ri, c) && Linked(g, width, height, rj, c);
    LinkedSym(g, width, height, rj, c);
    LinkedTrans(g, width, height, ri, c, rj);
  }

  /** A top-level fill keeps every listed plot visited and the visited
      plots closed under touching. */
  lemma SettledStep(g: Grid, width: nat, height: nat, a0: AreaMap, v0: set<Point>, a: AreaMap, v: set<Point>)
    requires ValidGrid(g, width, height) && v0 <= v
    requires AreaCellsIn(a0, v0) && Closed(g, width, height, v0)
    requires Progress(g, width, height, a0, v0, a, v)
    ensures AreaCellsIn(a, v) && Closed(g, width, height, v)
  {
  }

  /** Once every plot is visited, the areas are the regions. */
  lemma {:induction false} FloodDone(g: Grid, width: nat, height: nat, areas: AreaMap, roots: map<char, seq<Point>>, visited: set<Point>)
    requires FloodInv(g, width, height, areas, roots, visited)
    requires forall p :: InBounds(p, width, height) ==> p in visited
    ensures IsRegionMap(g, width, height, areas)
  {
    forall p | InBounds(p, width, height) ensures InSomeAreaOf(g, width, height, areas, p) {
      assert p in visited;
      assert CoveredIn(g, width, height, areas, p);
    }
    forall n, i | n in areas && 0 <= i < |areas[n]|
      ensures areas[n][i] != {} && Closed(g, width, height, areas[n][i])
    {
      assert roots[n][i] in areas[n][i];
      forall c, q | c in areas[n][i] && Adj(g, width, height, c, q) ensures q in areas[n][i] {
        assert c in visited;
        var j :| 0 <= j < |areas[n]| && HoldsAround(g, width, height, c, areas[n][j]);
        OneArea(g, width, height, areas, roots, n, i, j, c);
      }
    }
    forall n, i, x, y | n in areas && 0 <= i < |areas[n]| && x in areas[n][i] && y in areas[n][i]
      ensures Linked(g, width, height, x, y)
    {
      LinkedSym(g, width, height, roots[n][i], x);
      LinkedTrans(g, width, height, x, roots[n][i], y);
    }
    forall n, i, j, c | n in areas && 0 <= i < |areas[n]| && 0 <= j < |areas[n]| && i != j && c in areas[n][i]
      ensures c !in areas[n][j]
    {
      if c in areas[n][j] {
        OneArea(g, width, height, areas, roots, n, i, j, c);
      }
    }
  }

  /** The state of `find_areas`: the dictionary of area lists and the set
      of visited plots that `_flood_fill` updates. */
  class Flood {
    const g: Grid
    const width: nat
    const height: nat
    var areas: AreaMap
    var visited: set<Point>
    /** For each listed area, the plot whose fill created it. */
    ghost var roots: map<char, seq<Point>>

    ghost predicate Inv()
      reads this
    {
      FloodInv(g, width, height, areas, roots, visited)
    }

    /** Between top-level fills: every listed plot was visited, and the
        visited plots are a union of whole regions. */
    ghost predicate Settled()
      reads this
      requires ValidGrid(g, width, height)
    {
      AreaCellsIn(areas, visited) && Closed(g, width, height, visited)
    }

    constructor (g: Grid, width: nat, height: nat)
      requires ValidGrid(g, width, height)
      ensures this.g == g && this.width == width && this.height == height
      ensures areas == map[] && visited == {} && Inv() && Settled()
    {
      this.g := g;
      this.width := width;
      this.height := height;
      areas := map[];
      visited := {};
      roots := map[];
    }

    /** The parts of `Inv` a fill step works with, and the bound on the
        visited plots that makes the fill terminate. */
    lemma Unpack()
      requires Inv()
      ensures ValidGrid(g, width, height) && FloodCore(g, width, height, areas, roots)
      ensures CoversBut(g, width, height, areas, visited, {}) && |visited| <= width * height
    {
      VisitedBound(width, height, visited);
    }

    /** `_flood_fill(pos)`: mark `pos` visited, add it with its touching
        plots to the most recent area of its label that meets them (or
        start a new area), then fill the unvisited touching plots. */
    method FloodFill(pos: Point)
      requires Inv() && InBounds(pos, width, height) && pos !in visited
      requires InSomeAreaOf(g, width, height, areas, pos) || Settled()
      modifies this
      ensures Inv()
      ensures old(visited) + {pos} <= visited
      ensures Progress(g, width, height, old(areas), old(visited), areas, visited)
      decreases width * height - |visited|, 0
    {
      hide FloodInv, FloodCore, CoversBut, Progress, Grows, NewCellsIn, AreaCellsIn, Closed, InSomeAreaOf;
      ghost var seen := visited;
      Unpack();
      visited := visited + {pos};
      CoversMark(g, width, height, areas, seen, pos);
      var name := Label(g, width, height, pos);
      var neighbors := GetNeighbors(g, width, height, pos);
      var positions := Positions(g, width, height, pos);
      var found, i := LastTouching(AreasOf(areas, name), positions);
      if found {
        JoinArea(name, i, pos);
      } else {
        NewArea(name, pos, seen);
      }
      ghost var first := areas;
      FillNeighbors(pos, neighbors);
      assert positions <= visited by {
        forall y | y in positions ensures y in visited {
          if y != pos {
            assert y in neighbors;
          }
        }
      }
      ProgressStep(g, width, height, old(areas), seen, first, pos, areas, visited);
    }

    /** The loop of `_flood_fill` over the touching plots of `pos`: fill
        each one not yet visited. */
    method FillNeighbors(pos: Point, neighbors: seq<Point>)
      requires Inv() && InBounds(pos, width, height) && pos in visited
      requires forall p :: p in neighbors ==> Adj(g, width, height, pos, p)
      modifies this
      ensures Inv()
      ensures old(visited) <= visited
      ensures Progress(g, width, height, old(areas), old(visited), areas, visited)
      ensures forall j :: 0 <= j < |neighbors| ==> neighbors[j] in visited
      decreases width * height - |visited|, 2
    {
      hide *;
      Unpack();
      ProgressRefl(g, width, height, areas, visited);
      var k := 0;
      while k < |neighbors|
        invariant 0 <= k <= |neighbors|
        invariant Inv()
        invariant old(visited) <= visited
        invariant Progress(g, width, height, old(areas), old(visited), areas, visited)
        invariant forall j :: 0 <= j < k ==> neighbors[j] in visited
      {
        ghost var before := areas;
        ghost var seen := visited;
        FewerCount(old(visited), visited);
        FillNeighbor(pos, neighbors[k]);
        ProgressTrans(g, width, height, old(areas), old(visited), before, seen, areas, visited);
        k := k + 1;
      }
    }

    /** One step of that loop: fill `n` unless it was visited already. */
    method FillNeighbor(pos: Point, n: Point)
      requires Inv() && InBounds(pos, width, height) && pos in visited
      requires Adj(g, width, height, pos, n)
      modifies this
      ensures Inv()
      ensures old(visited) + {n} <= visited
      ensures Progress(g, width, height, old(areas), old(visited), areas, visited)
      decreases width * height - |visited|, 1
    {
      if n !in visited {
        assert CoveredIn(g, width, height, areas, pos);
        CoveredNeighbor(g, width, height, areas, pos, n);
        FloodFill(n);
      }
    }

    /** `area.update(positions)` on the `i`-th area of `name`, which meets
        the plots of `pos`. */
    method JoinArea(name: char, i: nat, pos: Point)
      requires FloodCore(g, width, height, areas, roots) && InBounds(pos, width, height)
      requires CoversBut(g, width, height, areas, visited, {pos})
      requires name == Label(g, width, height, pos)
      requires name in areas && i < |areas[name]| && !(areas[name][i] !! Positions(g, width, height, pos))
      modifies this
      ensures Inv() && visited == old(visited) && Grows(old(areas), areas)
      ensures areas == Joined(old(areas), name, i, Positions(g, width, height, pos))
      ensures NewCellsIn(old(areas), areas, Positions(g, width, height, pos))
    {
      var positions := Positions(g, width, height, pos);
      assert Fits(g, width, height, areas[name][i], name, roots[name][i]);
      JoinFits(g, width, height, areas[name][i], roots[name][i], pos);
      JoinedCore(g, width, height, areas, roots, name, i, positions);
      ghost var before := areas;
      areas := Joined(areas, name, i, positions);
      CoveredBy(g, width, height, areas, i, pos);
      CoversAfter(g, width, height, before, areas, visited, pos);
    }

    /** `areas[name].append(positions)`: no area of `name` meets the plots
        of `pos`, so they start a new area. `seen` is the visited set before
        `pos` was added. */
    method NewArea(name: char, pos: Point, ghost seen: set<Point>)
      requires FloodCore(g, width, height, areas, roots) && InBounds(pos, width, height)
      requires CoversBut(g, width, height, areas, visited, {pos})
      requires visited == seen + {pos} && pos !in seen && name == Label(g, width, height, pos)
      requires forall k :: 0 <= k < |AreasOf(areas, name)| ==> AreasOf(areas, name)[k] !! Positions(g, width, height, pos)
      requires InSomeAreaOf(g, width, height, areas, pos) || (AreaCellsIn(areas, seen) && Closed(g, width, height, seen))
      modifies this
      ensures Inv() && visited == old(visited) && Grows(old(areas), areas)
      ensures areas == Appended(old(areas), name, Positions(g, width, height, pos))
      ensures NewCellsIn(old(areas), areas, Positions(g, width, height, pos))
    {
      var positions := Positions(g, width, height, pos);
      NewApart(g, width, height, areas, roots, name, pos, seen);
      NewFits(g, width, height, pos);
      AppendedCore(g, width, height, areas, roots, name, pos, positions);
      ghost var before := areas;
      areas := Appended(areas, name, positions);
      roots := roots[name := RootsOf(roots, name) + [pos]];
      CoveredBy(g, width, height, areas, |AreasOf(before, name)|, pos);
      CoversAfter(g, width, height, before, areas, visited, pos);
    }
  }

  /** `find_areas`: fill from every plot in row-major order (the order of
      the grid dictionary) that no earlier fill reached. */
  method FindAreas(g: Grid, width: nat, height: nat) returns (areas: AreaMap)
    requires ValidGrid(g, width, height)
    ensures IsRegionMap(g, width, height, areas)
  {
    var f := new Flood(g, width, height);
    var r := 0;
    while r < height
      invariant 0 <= r <= height
      invariant f.Inv() && f.Settled()
      invariant forall p :: InBounds(p, width, height) && p.im < r ==> p in f.visited
    {
      var c := 0;
      while c < width
        invariant 0 <= c <= width
        invariant f.Inv() && f.Settled()
        invariant forall p :: InBounds(p, width, height) && (p.im < r || (p.im == r && p.re < c)) ==> p in f.visited
      {
        var pos := Point(c, r);
        if pos !in f.visited {
          ghost var a0, v0 := f.areas, f.visited;
          f.FloodFill(pos);
          SettledStep(g, width, height, a0, v0, f.areas, f.visited);
        }
        c := c + 1;
      }
      r := r + 1;
    }
    FloodDone(g, width, height, f.areas, f.roots, f.visited);
    areas := f.areas;
  }

  // ---------------------------------------------------------------------
  // Perimeter. A plot edge sits half a unit from the plot's centre; with
  // every coordinate doubled, the plot (x, y) has its centre at (2x, 2y)
  // and its four edges at (2x ± 1, 2y) and (2x, 2y ± 1).

  function Double(p: Point): Point
  {
    Point(2 * p.re, 2 * p.im)
  }

  /** `get_borders(pos)`: pos + ½, pos − ½, pos + ½i, pos − ½i (doubled). */
  function Borders(p: Point): seq<Point>
  {
    var c := Double(p);
    [Point(c.re + 1, c.im), Point(c.re - 1, c.im), Point(c.re, c.im + 1), Point(c.re, c.im - 1)]
  }

  /** A doubled coordinate that is an edge: exactly one part is odd. */
  predicate IsEdge(e: Point)
  {
    (e.re % 2 == 1) != (e.im % 2 == 1)
  }

  /** The two plots an edge separates. */
  function Beside(e: Point): (Point, Point)
    requires IsEdge(e)
  {
    if e.re % 2 == 1 then (Point((e.re - 1) / 2, e.im / 2), Point((e.re + 1) / 2, e.im / 2))
    else (Point(e.re / 2, (e.im - 1) / 2), Point(e.re / 2, (e.im + 1) / 2))
  }

  /** The edges of a plot are exactly the edges that have it on one side. */
  lemma BordersBeside(p: Point, e: Point)
    ensures e in Borders(p) <==> IsEdge(e) && (Beside(e).0 == p || Beside(e).1 == p)
  {
    if IsEdge(e) && (Beside(e).0 == p || Beside(e).1 == p) {
      if e.re % 2 == 1 {
        assert e == Borders(p)[0] || e == Borders(p)[1];
      } else {
        assert e == Borders(p)[2] || e == Borders(p)[3];
      }
    }
  }

  /** How many of the plots beside edge `e` lie in `area`: the count
      `find_perimeter`'s counter reaches for `e`. */
  function Touching(area: set<Point>, e: Point): nat
    requires IsEdge(e)
  {
    (if Beside(e).0 in area then 1 else 0) + (if Beside(e).1 in area then 1 else 0)
  }

  /** `e` separates a plot of `area` from a plot outside it. */
  predicate OnPerimeter(area: set<Point>, e: Point)
  {
    IsEdge(e) && Touching(area, e) == 1
  }

  /** All edges of the plots of `area`. */
  ghost function BordersOf(area: set<Point>): set<Point>
  {
    set p, k | p in area && 0 <= k < 4 :: Borders(p)[k]
  }

  /** The perimeter of `area`, as a set of doubled edge coordinates. */
  ghost function PerimeterOf(area: set<Point>): set<Point>
  {
    set e | e in BordersOf(area) && OnPerimeter(area, e)
  }

  lemma PerimeterHas(area: set<Point>, e: Point)
    ensures e in PerimeterOf(area) <==> OnPerimeter(area, e)
  {
    if OnPerimeter(area, e) {
      var p := if Beside(e).0 in area then Beside(e).0 else Beside(e).1;
      BordersBeside(p, e);
      var k :| 0 <= k < 4 && Borders(p)[k] == e;
      assert e in BordersOf(area);
    }
  }

  /** The counter of `find_perimeter` after counting the edges of the
      plots in `done`: each edge of theirs, with how many of them it has. */
  ghost predicate Counts(counts: map<Point, nat>, done: set<Point>)
  {
    forall e :: (e in counts <==> IsEdge(e) && Touching(done, e) > 0)
      && (e in counts ==> counts[e] == Touching(done, e))
  }

  /** The same, part-way through the edges of one more plot `pos`. */
  ghost predicate Counted(counts: map<Point, nat>, done: set<Point>, pos: Point, k: nat)
    requires k <= 4
  {
    forall e :: (e in counts <==> IsEdge(e) && (Touching(done, e) > 0 || e in Borders(pos)[..k]))
      && (e in counts ==> counts[e] == Touching(done, e) + (if e in Borders(pos)[..k] then 1 else 0))
  }

  lemma CountedStart(counts: map<Point, nat>, done: set<Point>, pos: Point)
    requires Counts(counts, done)
    ensures Counted(counts, done, pos, 0)
  {
  }

  /** `Counter.update` with the `k`-th edge of `pos`. */
  lemma CountedStep(counts: map<Point, nat>, done: set<Point>, pos: Point, k: nat)
    requires k < 4 && Counted(counts, done, pos, k)
    ensures var e := Borders(pos)[k];
      Counted(counts[e := (if e in counts then counts[e] else 0) + 1], done, pos, k + 1)
  {
    var bs := Borders(pos);
    assert bs[..k + 1] == bs[..k] + [bs[k]];
    assert bs[k] !in bs[..k];
    BordersBeside(pos, bs[k]);
  }

  lemma CountedEnd(counts: map<Point, nat>, done: set<Point>, pos: Point)
    requires pos !in done && Counted(counts, done, pos, 4)
    ensures Counts(counts, done + {pos})
  {
    assert Borders(pos)[..4] == Borders(pos);
    forall e ensures (e in counts <==> IsEdge(e) && Touching(done + {pos}, e) > 0)
      && (e in counts ==> counts[e] == Touching(done + {pos}, e))
    {
      BordersBeside(pos, e);
    }
  }

  lemma CountsEmpty()
    ensures Counts(map[], {})
  {
  }

  /** The edges counted once are the perimeter. */
  lemma CountsOnce(counts: map<Point, nat>, area: set<Point>)
    requires Counts(counts, area)
    ensures forall e :: e in counts && counts[e] == 1 <==> OnPerimeter(area, e)
  {
  }

  /** `find_perimeter`: count every edge of every plot of the area and keep
      the edges counted exactly once. */
  method FindPerimeter(area: set<Point>) returns (perimeter: set<Point>)
    ensures forall e :: e in perimeter <==> OnPerimeter(area, e)
    ensures perimeter == PerimeterOf(area)
  {
    var counts: map<Point, nat> := map[];
    var rest := area;
    ghost var done: set<Point> := {};
    CountsEmpty();
    hide Counts, Counted;
    while rest != {}
      invariant rest == area - done && done <= area
      invariant Counts(counts, done)
      decreases |rest|
    {
      var pos :| pos in rest;
      var bs := Borders(pos);
      CountedStart(counts, done, pos);
      var k := 0;
      while k < 4
        invariant 0 <= k <= 4
        invariant Counted(counts, done, pos, k)
      {
        CountedStep(counts, done, pos, k);
        counts := counts[bs[k] := (if bs[k] in counts then counts[bs[k]] else 0) + 1];
        k := k + 1;
      }
      CountedEnd(counts, done, pos);
      rest := rest - {pos};
      done := done + {pos};
    }
    assert done == area;
    CountsOnce(counts, area);
    perimeter := set e | e in counts && counts[e] == 1;
    forall e ensures e in perimeter <==> e in PerimeterOf(area) {
      PerimeterHas(area, e);
    }
  }

  /** A lone plot has its four edges as perimeter. */
  lemma SinglePerimeter(p: Point)
    ensures PerimeterOf({p}) == {Borders(p)[0], Borders(p)[1], Borders(p)[2], Borders(p)[3]}
    ensures |PerimeterOf({p})| == 4
  {
    var four := {Borders(p)[0], Borders(p)[1], Borders(p)[2], Borders(p)[3]};
    forall e ensures e in PerimeterOf({p}) <==> e in four {
      PerimeterHas({p}, e);
      BordersBeside(p, e);
    }
    assert PerimeterOf({p}) == four;
  }

  lemma {:induction false} BordersOfBound(area: set<Point>)
    ensures |BordersOf(area)| <= 4 * |area|
    decreases |area|
  {
    if area != {} {
      var x :| x in area;
      var rest := area - {x};
      var own := {Borders(x)[0], Borders(x)[1], Borders(x)[2], Borders(x)[3]};
      BordersOfBound(rest);
      assert BordersOf(area) <= BordersOf(rest) + own by {
        forall e | e in BordersOf(area) ensures e in BordersOf(rest) + own {
          var p, k :| p in area && 0 <= k < 4 && Borders(p)[k] == e;
          if p != x {
            assert e in BordersOf(rest);
          }
        }
      }
      FewerCount(BordersOf(area), BordersOf(rest) + own);
    }
  }

  /** Every edge of the perimeter belongs to a plot of the area, so an area
      of n plots has at most 4n perimeter edges. */
  lemma PerimeterBound(area: set<Point>)
    ensures |PerimeterOf(area)| <= 4 * |area|
  {
    BordersOfBound(area);
    FewerCount(PerimeterOf(area), BordersOf(area));
  }

  lemma {:induction false} RightmostPlot(area: set<Point>) returns (p: Point)
    requires area != {}
    ensures p in area && forall q :: q in area ==> q.re <= p.re
    decreases |area|
  {
    var x :| x in area;
    if area == {x} {
      p := x;
    } else {
      var y := RightmostPlot(area - {x});
      p := if x.re <= y.re then y else x;
    }
  }

  /** A non-empty area has a non-empty perimeter: the right edge of its
      rightmost plot. */
  lemma PerimeterNonEmpty(area: set<Point>)
    requires area != {}
    ensures PerimeterOf(area) != {}
  {
    var p := RightmostPlot(area);
    var e := Borders(p)[0];
    assert Beside(e) == (p, Point(p.re + 1, p.im));
    PerimeterHas(area, e);
  }

  // ---------------------------------------------------------------------
  // Sides.

  /** `flip`: swap the real and imaginary parts. */
  function Flip(c: Point): Point
  {
    Point(c.im, c.re)
  }

  /** `is_crossing(p1, p2)` for two perimeter edges one step apart along a
      line: both edges across the corner between them are perimeter edges
      too, so the side does not go on past that corner. The two edges must
      agree on exactly one coordinate, as the source asserts. */
  function IsCrossing(perimeter: set<Point>, p1: Point, p2: Point): bool
    requires (p1.re == p2.re) != (p1.im == p2.im)
  {
    var vertical := p1.re == p2.re;
    var a := if vertical then Flip(p1) else p1;
    var b := if vertical then Flip(p2) else p2;
    var lo := if a.re > b.re then b else a;
    var c1 := Point(lo.re + 1, lo.im - 1);
    var c2 := Point(lo.re + 1, lo.im + 1);
    var d1 := if vertical then Flip(c1) else c1;
    var d2 := if vertical then Flip(c2) else c2;
    d1 in perimeter && d2 in perimeter
  }

  /** Without the mirroring: along a row the corner edges lie above and
      below the corner point, along a column left and right of it. */
  lemma CrossingAtCorner(perimeter: set<Point>, p1: Point, p2: Point)
    requires (p1.re == p2.re) != (p1.im == p2.im)
    ensures p1.im == p2.im ==>
      (IsCrossing(perimeter, p1, p2) <==>
        var x := Min(p1.re, p2.re) + 1;
        Point(x, p1.im - 1) in perimeter && Point(x, p1.im + 1) in perimeter)
    ensures p1.re == p2.re ==>
      (IsCrossing(perimeter, p1, p2) <==>
        var y := Min(p1.im, p2.im) + 1;
        Point(p1.re - 1, y) in perimeter && Point(p1.re + 1, y) in perimeter)
    ensures IsCrossing(perimeter, p1, p2) == IsCrossing(perimeter, p2, p1)
  {
  }

  /** The step from an edge to the next one on its line, in doubled
      units: across for a horizontal edge (even real part), down for a
      vertical one, as `parallel_offsets` picks. */
  function Stride(e: Point): Point
  {
    if e.re % 2 == 0 then Point(2, 0) else Point(0, 2)
  }

  function Next(e: Point): Point
  {
    e.Add(Stride(e))
  }

  function Prev(e: Point): Point
  {
    e.Sub(Stride(e))
  }

  /** Stepping along a line keeps the line's direction, and the two steps
      undo each other. */
  lemma StrideStep(e: Point)
    ensures Stride(Next(e)) == Stride(e) && Stride(Prev(e)) == Stride(e)
    ensures Prev(Next(e)) == e && Next(Prev(e)) == e
    ensures (Next(e).re == e.re) != (Next(e).im == e.im)
    ensures (Prev(e).re == e.re) != (Prev(e).im == e.im)
  {
  }

  /** The traversal of a side goes from `e` to the next edge on its line,
      and back: both are perimeter edges and they do not meet at a
      crossing. */
  predicate Continues(perimeter: set<Point>, e: Point)
  {
    StrideStep(e);
    e in perimeter && Next(e) in perimeter && !IsCrossing(perimeter, e, Next(e))
  }

  /** The perimeter edges that come before `e` in the order of the sum of
      coordinates, which every step back along a line lowers by 2. */
  ghost function Earlier(perimeter: set<Point>, e: Point): set<Point>
  {
    set x | x in perimeter && x.re + x.im < e.re + e.im
  }

  lemma EarlierShrinks(perimeter: set<Point>, e: Point)
    requires Prev(e) in perimeter
    ensures |Earlier(perimeter, Prev(e))| < |Earlier(perimeter, e)|
  {
    var p := Prev(e);
    assert Earlier(perimeter, p) <= Earlier(perimeter, e) - {p};
    FewerCount(Earlier(perimeter, p), Earlier(perimeter, e) - {p});
  }

  /** The first edge of the side through `e`: step back along the line as
      long as the edge before continues into the current one. */
  ghost function SideStart(perimeter: set<Point>, e: Point): Point
    requires e in perimeter
    decreases |Earlier(perimeter, e)|
  {
    if Continues(perimeter, Prev(e)) then
      EarlierShrinks(perimeter, e);
      SideStart(perimeter, Prev(e))
    else e
  }

  /** The edges that begin a side: one per side, so their number is the
      number of sides. */
  ghost function SideStarts(perimeter: set<Point>): set<Point>
  {
    set e | e in perimeter && !Continues(perimeter, Prev(e))
  }

  /** The side through `first`: every edge that steps back to its start. */
  ghost function Side(perimeter: set<Point>, first: Point): set<Point>
    requires first in perimeter
  {
    set e | e in perimeter && SideStart(perimeter, e) == SideStart(perimeter, first)
  }

  /** Every side has its start among the side starts, and a start is its
      own side's start. */
  lemma {:induction false} SideStartFacts(perimeter: set<Point>, e: Point)
    requires e in perimeter
    ensures SideStart(perimeter, e) in SideStarts(perimeter)
    ensures SideStart(perimeter, SideStart(perimeter, e)) == SideStart(perimeter, e)
    decreases |Earlier(perimeter, e)|
  {
    if Continues(perimeter, Prev(e)) {
      EarlierShrinks(perimeter, e);
      SideStartFacts(perimeter, Prev(e));
    }
  }

  /** One step of the traversal from `curr` to `n`, either way along the
      line: it is taken exactly when the edges continue into each other,
      and then both lie on the same side. */
  lemma Neighbour(perimeter: set<Point>, curr: Point, n: Point)
    requires curr in perimeter && (n == Next(curr) || n == Prev(curr))
    ensures Stride(n) == Stride(curr)
    ensures (n.re == curr.re) != (n.im == curr.im)
    ensures n == Next(curr) ==> (Continues(perimeter, curr) <==> n in perimeter && !IsCrossing(perimeter, curr, n))
    ensures n == Prev(curr) ==> (Continues(perimeter, n) <==> n in perimeter && !IsCrossing(perimeter, curr, n))
    ensures n in perimeter && !IsCrossing(perimeter, curr, n) ==> SideStart(perimeter, n) == SideStart(perimeter, curr)
  {
    StrideStep(curr);
    CrossingAtCorner(perimeter, curr, n);
    if n == Next(curr) {
      StrideStep(n);
    }
  }

  /** The edges of `taken` outside `open` have been traversed from: each
      edge they continue into, either way, is taken too. */
  ghost predicate Traced(perimeter: set<Point>, taken: set<Point>, open: set<Point>)
  {
    forall t :: t in taken && t !in open ==>
      (Continues(perimeter, t) ==> Next(t) in taken) && (Continues(perimeter, Prev(t)) ==> Prev(t) in taken)
  }

  /** A fully traced set holds the start of the side of each of its edges. */
  lemma {:induction false} TracedBack(perimeter: set<Point>, taken: set<Point>, t: Point)
    requires Traced(perimeter, taken, {}) && t in taken && t in perimeter
    ensures SideStart(perimeter, t) in taken
    decreases |Earlier(perimeter, t)|
  {
    if Continues(perimeter, Prev(t)) {
      EarlierShrinks(perimeter, t);
      TracedBack(perimeter, taken, Prev(t));
    }
  }

  /** A fully traced set holding the start of a side holds all of it. */
  lemma {:induction false} TracedForth(perimeter: set<Point>, taken: set<Point>, e: Point)
    requires Traced(perimeter, taken, {}) && e in perimeter && SideStart(perimeter, e) in taken
    ensures e in taken
    decreases |Earlier(perimeter, e)|
  {
    if Continues(perimeter, Prev(e)) {
      EarlierShrinks(perimeter, e);
      TracedForth(perimeter, taken, Prev(e));
      StrideStep(e);
    }
  }

  lemma SideHas(perimeter: set<Point>, first: Point, e: Point)
    requires first in perimeter
    ensures e in Side(perimeter, first) <==> e in perimeter && SideStart(perimeter, e) == SideStart(perimeter, first)
  {
  }

  /** `parallel_offsets`, doubled: along the row for a horizontal first
      edge, along the column for a vertical one. */
  function ParallelOffsets(first: Point): seq<Point>
  {
    if first.re % 2 == 0 then [Point(1, 0), Point(-1, 0)] else [Point(0, 1), Point(0, -1)]
  }

  /** The two neighbours `traverse` looks at, `curr + d` for `d` in the
      offsets, are the next and the previous edge on the line. */
  lemma OffsetAt(first: Point, curr: Point, j: int)
    requires Stride(curr) == Stride(first) && 0 <= j < 2
    ensures |ParallelOffsets(first)| == 2
    ensures var n := curr.Add(ParallelOffsets(first)[j].Scale(2));
      n == (if j == 0 then Next(curr) else Prev(curr)) && (curr.re == n.re) != (curr.im == n.im)
  {
  }

  /** The state of a round that traces the side of `first`: the edges
      taken so far are the ones removed from the pool plus `first`, all on
      the side of `first`; those in `fringe` are still to be looked
      from, on the line of `first`, and every taken edge outside `open`
      has both its continuations taken. */
  ghost predicate Round(perimeter: set<Point>, segments: set<Point>, first: Point, rest: set<Point>,
                        taken: set<Point>, fringe: set<Point>, open: set<Point>)
    requires first in perimeter
  {
    && rest <= segments && taken == (segments - rest) + {first}
    && fringe <= taken && taken <= Side(perimeter, first)
    && (forall e :: e in fringe ==> Stride(e) == Stride(first))
    && Traced(perimeter, taken, open)
  }

  lemma RoundStart(perimeter: set<Point>, segments: set<Point>, first: Point)
    requires first in perimeter && first !in segments
    ensures Round(perimeter, segments, first, segments, {first}, {first}, {first})
  {
    SideHas(perimeter, first, first);
  }

  /** Popping `curr` from the fringe: it stays open until both of its
      neighbours have been looked at. */
  lemma RoundPop(perimeter: set<Point>, segments: set<Point>, first: Point, rest: set<Point>,
                 taken: set<Point>, fringe: set<Point>, curr: Point)
    requires first in perimeter && curr in fringe
    requires Round(perimeter, segments, first, rest, taken, fringe, fringe)
    ensures Round(perimeter, segments, first, rest, taken, fringe - {curr}, fringe - {curr} + {curr})
    ensures curr in taken && Stride(curr) == Stride(first)
  {
    assert fringe - {curr} + {curr} == fringe;
  }

  /** One look from `curr` at its neighbour `n`, which is in the pool with
      no crossing in between: taking it keeps the round state, with `n`
      still to be looked from. */
  lemma RoundTake(perimeter: set<Point>, segments: set<Point>, first: Point, rest: set<Point>,
                  taken: set<Point>, fringe: set<Point>, curr: Point, n: Point)
    requires first in perimeter && first !in segments && segments <= perimeter
    requires Round(perimeter, segments, first, rest, taken, fringe, fringe + {curr})
    requires curr in taken && curr !in fringe && Stride(curr) == Stride(first)
    requires n == Next(curr) || n == Prev(curr)
    requires (curr.re == n.re) != (curr.im == n.im)
    requires !IsCrossing(perimeter, curr, n) && n in rest
    ensures Round(perimeter, segments, first, rest - {n}, taken + {n}, fringe + {n}, fringe + {n} + {curr})
    ensures curr !in fringe + {n}
    ensures |rest - {n}| + |fringe + {n}| == |rest| + |fringe|
  {
    var open := fringe + {curr};
    var side := Side(perimeter, first);
    RoundElim(perimeter, segments, first, rest, taken, fringe, open);
    hide *;
    SideHas(perimeter, first, curr);
    Neighbour(perimeter, curr, n);
    SideHas(perimeter, first, n);
    TakeSets(segments, first, rest, taken, fringe, curr, n);
    TracedGrow(perimeter, taken, open, n);
    assert taken + {n} <= side;
    assert forall e :: e in fringe + {n} ==> Stride(e) == Stride(first);
    RoundIntro(perimeter, segments, first, rest - {n}, taken + {n}, fringe + {n}, fringe + {n} + {curr});
  }

  /** The pool bookkeeping of a take: `n` moves from the pool to the
      taken edges and the fringe. */
  lemma TakeSets(segments: set<Point>, first: Point, rest: set<Point>, taken: set<Point>,
                 fringe: set<Point>, curr: Point, n: Point)
    requires first !in segments && rest <= segments && taken == (segments - rest) + {first}
    requires fringe <= taken && curr in taken && curr !in fringe && n in rest
    ensures n !in fringe && n != curr
    ensures rest - {n} <= segments && taken + {n} == (segments - (rest - {n})) + {first}
    ensures fringe + {n} <= taken + {n} && curr !in fringe + {n}
    ensures fringe + {n} + {curr} == fringe + {curr} + {n}
    ensures |rest - {n}| + |fringe + {n}| == |rest| + |fringe|
  {
  }

  lemma RoundElim(perimeter: set<Point>, segments: set<Point>, first: Point, rest: set<Point>,
                  taken: set<Point>, fringe: set<Point>, open: set<Point>)
    requires first in perimeter
    requires Round(perimeter, segments, first, rest, taken, fringe, open)
    ensures rest <= segments && taken == (segments - rest) + {first}
    ensures fringe <= taken && taken <= Side(perimeter, first)
    ensures forall e :: e in fringe ==> Stride(e) == Stride(first)
    ensures Traced(perimeter, taken, open)
  {
  }

  lemma RoundIntro(perimeter: set<Point>, segments: set<Point>, first: Point, rest: set<Point>,
                   taken: set<Point>, fringe: set<Point>, open: set<Point>)
    requires first in perimeter
    requires rest <= segments && taken == (segments - rest) + {first}
    requires fringe <= taken && taken <= Side(perimeter, first)
    requires forall e :: e in fringe ==> Stride(e) == Stride(first)
    requires Traced(perimeter, taken, open)
    ensures Round(perimeter, segments, first, rest, taken, fringe, open)
  {
  }

  /** One look from `curr` at its neighbour `n` that takes nothing: then
      `curr` does not continue into `n`, or `n` was taken already. */
  lemma RoundSkip(perimeter: set<Point>, segments: set<Point>, first: Point, rest: set<Point>,
                  taken: set<Point>, fringe: set<Point>, curr: Point, n: Point)
    requires first in perimeter && first !in segments && segments <= perimeter
    requires forall e :: e in Side(perimeter, first) ==> e == first || e in segments
    requires Round(perimeter, segments, first, rest, taken, fringe, fringe + {curr})
    requires curr in taken
    requires n == Next(curr) || n == Prev(curr)
    requires (curr.re == n.re) != (curr.im == n.im)
    requires !(!IsCrossing(perimeter, curr, n) && n in rest)
    ensures n == Next(curr) ==> (Continues(perimeter, curr) ==> n in taken)
    ensures n == Prev(curr) ==> (Continues(perimeter, n) ==> n in taken)
  {
    SideHas(perimeter, first, curr);
    Neighbour(perimeter, curr, n);
    SideHas(perimeter, first, n);
  }

  /** Taking an edge that is also left open keeps a set traced. */
  lemma TracedGrow(perimeter: set<Point>, taken: set<Point>, open: set<Point>, n: Point)
    requires Traced(perimeter, taken, open)
    ensures Traced(perimeter, taken + {n}, open + {n})
  {
  }

  /** After looking both ways from `curr`, it is no longer open. */
  lemma RoundClose(perimeter: set<Point>, segments: set<Point>, first: Point, rest: set<Point>,
                   taken: set<Point>, fringe: set<Point>, curr: Point)
    requires first in perimeter && curr !in fringe
    requires Round(perimeter, segments, first, rest, taken, fringe, fringe + {curr})
    requires Continues(perimeter, curr) ==> Next(curr) in taken
    requires Continues(perimeter, Prev(curr)) ==> Prev(curr) in taken
    ensures Round(perimeter, segments, first, rest, taken, fringe, fringe)
  {
  }

  /** A round with nothing left open has taken the whole side of `first`,
      so the pool has lost exactly that side. */
  lemma RoundEnd(perimeter: set<Point>, segments: set<Point>, first: Point, rest: set<Point>, taken: set<Point>)
    requires first in perimeter && first !in segments
    requires Round(perimeter, segments, first, rest, taken, {}, {})
    ensures rest == segments - Side(perimeter, first)
  {
    forall e | e in Side(perimeter, first) ensures e in taken {
      TracedBack(perimeter, taken, first);
      SideHas(perimeter, first, e);
      TracedForth(perimeter, taken, e);
    }
  }

  /** One round of `get_number_of_sides`: from the edge `first`, already
      popped from the pool, traverse its line both ways and remove from
      the pool every edge reached before a crossing or a gap. The pool
      holds the rest of the side of `first`, as the rounds before took
      whole sides; the round removes exactly that side. */
  method TraceSide(perimeter: set<Point>, segments: set<Point>, first: Point) returns (rest: set<Point>)
    requires first in perimeter && first !in segments && segments <= perimeter
    requires forall e :: e in Side(perimeter, first) ==> e == first || e in segments
    ensures rest == segments - Side(perimeter, first)
  {
    rest := segments;
    var offsets := ParallelOffsets(first);
    var fringe := {first};
    ghost var taken := {first};
    RoundStart(perimeter, segments, first);
    hide Round, Side, Continues, IsCrossing, Next, Prev, Stride, ParallelOffsets;
    while fringe != {}
      invariant Round(perimeter, segments, first, rest, taken, fringe, fringe)
      decreases |rest| + |fringe|
    {
      var curr :| curr in fringe;
      RoundPop(perimeter, segments, first, rest, taken, fringe, curr);
      OffsetAt(first, curr, 0);
      fringe := fringe - {curr};
      ghost var bound := |rest| + |fringe|;
      for j := 0 to 2
        invariant Round(perimeter, segments, first, rest, taken, fringe, fringe + {curr})
        invariant curr in taken && curr !in fringe && Stride(curr) == Stride(first)
        invariant j >= 1 ==> (Continues(perimeter, curr) ==> Next(curr) in taken)
        invariant j >= 2 ==> (Continues(perimeter, Prev(curr)) ==> Prev(curr) in taken)
        invariant |rest| + |fringe| == bound
      {
        OffsetAt(first, curr, j);
        var n := curr.Add(offsets[j].Scale(2));
        if !IsCrossing(perimeter, curr, n) && n in rest {
          RoundTake(perimeter, segments, first, rest, taken, fringe, curr, n);
          fringe := fringe + {n};
          rest := rest - {n};
          taken := taken + {n};
        } else {
          RoundSkip(perimeter, segments, first, rest, taken, fringe, curr, n);
        }
      }
      RoundClose(perimeter, segments, first, rest, taken, fringe, curr);
    }
    RoundEnd(perimeter, segments, first, rest, taken);
  }

  /** The pool holds whole sides: an edge is in it iff its side's start is. */
  ghost predicate WholeSides(perimeter: set<Point>, segments: set<Point>)
  {
    forall e :: e in perimeter ==> (e in segments <==> SideStart(perimeter, e) in segments)
  }

  /** A round of `get_number_of_sides` on a pool of whole sides: the side
      of `first` is in the pool, what is left is whole sides again, and
      exactly one more side start has left the pool. */
  lemma SideRound(perimeter: set<Point>, segments: set<Point>, first: Point)
    requires segments <= perimeter && first in segments && WholeSides(perimeter, segments)
    ensures forall e :: e in Side(perimeter, first) ==> e == first || e in segments - {first}
    ensures WholeSides(perimeter, segments - {first} - Side(perimeter, first))
    ensures SideStart(perimeter, first) !in SideStarts(perimeter) - segments
    ensures SideStarts(perimeter) - (segments - {first} - Side(perimeter, first))
            == (SideStarts(perimeter) - segments) + {SideStart(perimeter, first)}
  {
    var s := SideStart(perimeter, first);
    SideStartFacts(perimeter, first);
    var rest := segments - {first} - Side(perimeter, first);
    forall e | e in perimeter ensures e in rest <==> SideStart(perimeter, e) in rest {
      SideStartFacts(perimeter, e);
    }
    forall x | x in SideStarts(perimeter) ensures SideStart(perimeter, x) == x {
    }
  }

  /** The counts behind a round: one more side start gone, a smaller pool. */
  lemma SideRoundCount(perimeter: set<Point>, segments: set<Point>, first: Point)
    requires segments <= perimeter && first in segments && WholeSides(perimeter, segments)
    ensures forall e :: e in Side(perimeter, first) ==> e == first || e in segments - {first}
    ensures WholeSides(perimeter, segments - {first} - Side(perimeter, first))
    ensures |SideStarts(perimeter) - (segments - {first} - Side(perimeter, first))|
            == |SideStarts(perimeter) - segments| + 1
    ensures |segments - {first} - Side(perimeter, first)| < |segments|
  {
    SideRound(perimeter, segments, first);
    var rest := segments - {first} - Side(perimeter, first);
    var gone := SideStarts(perimeter) - segments;
    var s := SideStart(perimeter, first);
    hide *;
    assert SideStarts(perimeter) - rest == gone + {s} && s !in gone;
    FewerCount(rest, segments - {first});
  }

  /** At the start the pool is the whole perimeter: whole sides, with no
      side start gone. */
  lemma SidesInit(perimeter: set<Point>)
    ensures WholeSides(perimeter, perimeter)
    ensures SideStarts(perimeter) - perimeter == {}
  {
    forall e | e in perimeter ensures SideStart(perimeter, e) in perimeter {
      SideStartFacts(perimeter, e);
    }
  }

  /** `get_number_of_sides`: pop an edge from the pool and trace its side,
      until the pool is empty; the count of rounds is the number of side
      starts, one per maximal run of edges along a line between gaps and
      crossings. */
  method CountSides(perimeter: set<Point>) returns (sides: nat)
    ensures sides == |SideStarts(perimeter)|
  {
    sides := 0;
    var segments := perimeter;
    SidesInit(perimeter);
    hide *;
    while segments != {}
      invariant segments <= perimeter
      invariant WholeSides(perimeter, segments)
      invariant sides == |SideStarts(perimeter) - segments|
      decreases |segments|
    {
      var first :| first in segments;
      SideRoundCount(perimeter, segments, first);
      ghost var gone := SideStarts(perimeter) - segments;
      var rest := TraceSide(perimeter, segments - {first}, first);
      assert |SideStarts(perimeter) - rest| == |gone| + 1;
      segments := rest;
      sides := sides + 1;
    }
  }

  /** There is a side start for every non-empty perimeter, and no more of
      them than edges. */
  lemma SideStartsBound(perimeter: set<Point>)
    ensures |SideStarts(perimeter)| <= |perimeter|
    ensures |SideStarts(perimeter)| == 0 <==> perimeter == {}
  {
    FewerCount(SideStarts(perimeter), perimeter);
    if perimeter != {} {
      var e :| e in perimeter;
      SideStartFacts(perimeter, e);
    }
  }

  /** A lone plot has four sides, one per edge. */
  lemma SinglePlotSides(p: Point)
    ensures |SideStarts(PerimeterOf({p}))| == 4
  {
    SinglePerimeter(p);
    var per := PerimeterOf({p});
    var bs := Borders(p);
    assert per == {bs[0], bs[1], bs[2], bs[3]};
    hide PerimeterOf, Borders;
    forall e | e in per ensures !Continues(per, Prev(e)) {
      EdgeOfPlot(p, e);
    }
    assert SideStarts(per) == per;
  }

  /** The edge before an edge of a plot, along its line, is not an edge of
      that plot. */
  lemma EdgeOfPlot(p: Point, e: Point)
    requires e in Borders(p)
    ensures Prev(e) !in Borders(p)
  {
    var c := Double(p);
    if e == Borders(p)[0] || e == Borders(p)[1] {
      assert e.re % 2 == 1 && Prev(e).im == c.im - 2;
    } else {
      assert e.re % 2 == 0 && Prev(e).re == c.re - 2;
    }
  }

  // ---------------------------------------------------------------------
  // Prices.

  /** Part 1 price of a list of areas: size times perimeter length. */
  ghost function ListPrice(list: seq<set<Point>>): nat
  {
    if list == [] then 0
    else ListPrice(list[..|list| - 1]) + |list[|list| - 1]| * |PerimeterOf(list[|list| - 1])|
  }

  /** Total size of a list of areas. */
  function ListSize(list: seq<set<Point>>): nat
  {
    if list == [] then 0 else ListSize(list[..|list| - 1]) + |list[|list| - 1]|
  }

  ghost function MapPrice(areas: AreaMap, order: seq<char>): nat
    requires forall n :: n in order ==> n in areas
  {
    if order == [] then 0 else MapPrice(areas, order[..|order| - 1]) + ListPrice(areas[order[|order| - 1]])
  }

  function MapSize(areas: AreaMap, order: seq<char>): nat
    requires forall n :: n in order ==> n in areas
  {
    if order == [] then 0 else MapSize(areas, order[..|order| - 1]) + ListSize(areas[order[|order| - 1]])
  }

  /** Part 2 price of a list of areas: size times number of sides. */
  ghost function ListSidesPrice(list: seq<set<Point>>): nat
  {
    if list == [] then 0
    else ListSidesPrice(list[..|list| - 1]) + |list[|list| - 1]| * |SideStarts(PerimeterOf(list[|list| - 1]))|
  }

  ghost function MapSidesPrice(areas: AreaMap, order: seq<char>): nat
    requires forall n :: n in order ==> n in areas
  {
    if order == [] then 0 else MapSidesPrice(areas, order[..|order| - 1]) + ListSidesPrice(areas[order[|order| - 1]])
  }

  /** The sides price of one area lies between its size and its part 1
      price, as its side count lies between 1 and its perimeter length. */
  lemma SidesPrice(area: set<Point>)
    ensures |area| <= |area| * |SideStarts(PerimeterOf(area))| <= |area| * |PerimeterOf(area)|
  {
    var sides := |SideStarts(PerimeterOf(area))|;
    SideStartsBound(PerimeterOf(area));
    if area != {} {
      PerimeterNonEmpty(area);
    }
    MulLe(|area|, sides, |PerimeterOf(area)|);
  }

  lemma MulLe(a: nat, b: nat, c: nat)
    requires b <= c
    ensures a * b <= a * c
  {
  }

  /** Over a list of areas: part 2 lies between the total size and part 1. */
  lemma {:induction false} ListSidesBounds(list: seq<set<Point>>)
    ensures ListSize(list) <= ListSidesPrice(list) <= ListPrice(list)
  {
    if list != [] {
      ListSidesBounds(list[..|list| - 1]);
      SidesPrice(list[|list| - 1]);
    }
  }

  /** Over all labels: part 2 lies between the total size and part 1. */
  lemma {:induction false} MapSidesBounds(areas: AreaMap, order: seq<char>)
    requires forall n :: n in order ==> n in areas
    ensures MapSize(areas, order) <= MapSidesPrice(areas, order) <= MapPrice(areas, order)
  {
    if order != [] {
      MapSidesBounds(areas, order[..|order| - 1]);
      ListSidesBounds(areas[order[|order| - 1]]);
    }
  }

  /** The inner loop of `solve`: the price of the areas of one label. */
  method PriceList(list: seq<set<Point>>, countSides: bool) returns (total: nat)
    ensures !countSides ==> total == ListPrice(list)
    ensures countSides ==> total == ListSidesPrice(list)
  {
    total := 0;
    for i := 0 to |list|
      invariant !countSides ==> total == ListPrice(list[..i])
      invariant countSides ==> total == ListSidesPrice(list[..i])
    {
      var area := list[i];
      var perimeter := FindPerimeter(area);
      assert list[..i + 1][..i] == list[..i];
      if countSides {
        var sides := CountSides(perimeter);
        total := total + |area| * sides;
      } else {
        total := total + |area| * |perimeter|;
      }
    }
    assert list[..|list|] == list;
  }

  /** Taking one more label adds the prices of its list of areas. */
  lemma MapSnoc(areas: AreaMap, order: seq<char>, name: char)
    requires forall n :: n in order ==> n in areas
    requires name in areas
    ensures MapPrice(areas, order + [name]) == MapPrice(areas, order) + ListPrice(areas[name])
    ensures MapSidesPrice(areas, order + [name]) == MapSidesPrice(areas, order) + ListSidesPrice(areas[name])
    ensures MapSize(areas, order + [name]) == MapSize(areas, order) + ListSize(areas[name])
  {
    assert (order + [name])[..|order|] == order;
  }

  /** `solve`: find the areas, then add up, over every area of every label,
      its size times its perimeter length (part 1) or times its number of
      sides (part 2). The labels are taken in the order `order`, each once. */
  method Solve(g: Grid, width: nat, height: nat, countSides: bool) returns (result: nat, areas: AreaMap, order: seq<char>)
    requires ValidGrid(g, width, height)
    ensures IsRegionMap(g, width, height, areas)
    ensures forall n :: n in order <==> n in areas
    ensures forall i, j :: 0 <= i < j < |order| ==> order[i] != order[j]
    ensures !countSides ==> result == MapPrice(areas, order)
    ensures countSides ==> result == MapSidesPrice(areas, order)
    ensures countSides ==> MapSize(areas, order) <= result <= MapPrice(areas, order)
  {
    hide IsRegionMap, ValidGrid, ListPrice, ListSize, PerimeterOf, ListSidesPrice;
    var found := FindAreas(g, width, height);
    areas := found;
    order := [];
    result := 0;
    var names := found.Keys;
    hide MapPrice, MapSidesPrice, MapSize;
    while names != {}
      invariant names <= found.Keys
      invariant forall n :: n in order <==> n in found && n !in names
      invariant forall i, j :: 0 <= i < j < |order| ==> order[i] != order[j]
      invariant !countSides ==> result == MapPrice(found, order)
      invariant countSides ==> result == MapSidesPrice(found, order)
      decreases |names|
    {
      var name :| name in names;
      var total := PriceList(found[name], countSides);
      result := result + total;
      MapSnoc(found, order, name);
      order := order + [name];
      names := names - {name};
    }
    MapSidesBounds(areas, order);
  }
}
