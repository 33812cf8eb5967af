/** Day 8: antennas on a grid, keyed by position and labelled with a
    frequency. Every pair of antennas of one frequency produces antinodes
    on the line through them, beyond each antenna at the pair's distance:
    once per side in part 1, repeatedly until leaving the grid in part 2
    (where every antenna is an antinode as well). The answer is the number
    of distinct antinode positions. */
module Day08 {
  import opened Common

  /** `within_bounds(pos, (rows, cols))`. */
  predicate WithinBounds(pos: Point, rows: int, cols: int)
  {
    0 <= pos.re < cols && 0 <= pos.im < rows
  }

  /** How far `p` may still move along `d` inside the grid; it shrinks on
      every step that stays inside. */
  function Room(p: Point, d: Point, rows: int, cols: int): int
  {
    if d.re > 0 then cols - p.re
    else if d.re < 0 then p.re + 1
    else if d.im > 0 then rows - p.im
    else p.im + 1
  }

  /** The points `p + d`, `p + 2d`, ... up to the first one outside the
      grid, which is left out. */
  function Walk(p: Point, d: Point, rows: int, cols: int): (w: seq<Point>)
    requires d != Point(0, 0)
    ensures forall k :: 0 <= k < |w| ==> WithinBounds(w[k], rows, cols)
    ensures !WithinBounds((if |w| == 0 then p else w[|w| - 1]).Add(d), rows, cols)
    decreases Room(p, d, rows, cols)
  {
    var q := p.Add(d);
    if WithinBounds(q, rows, cols) then [q] + Walk(q, d, rows, cols) else []
  }

  /** Each point of the walk is one step of `d` past the one before. */
  lemma {:induction false} WalkStep(p: Point, d: Point, rows: int, cols: int, k: nat)
    requires d != Point(0, 0)
    requires k < |Walk(p, d, rows, cols)|
    ensures Walk(p, d, rows, cols)[k] == (if k == 0 then p else Walk(p, d, rows, cols)[k - 1]).Add(d)
    decreases k
  {
    if k > 0 {
      var q := p.Add(d);
      assert Walk(p, d, rows, cols) == [q] + Walk(q, d, rows, cols);
      WalkStep(q, d, rows, cols, k - 1);
    }
  }

  /** One step of the walk: `p + d` followed by the walk from there, or
      nothing once `p + d` leaves the grid. */
  lemma WalkUnfold(p: Point, d: Point, rows: int, cols: int)
    requires d != Point(0, 0)
    ensures WithinBounds(p.Add(d), rows, cols) ==> Walk(p, d, rows, cols) == [p.Add(d)] + Walk(p.Add(d), d, rows, cols)
    ensures !WithinBounds(p.Add(d), rows, cols) ==> Walk(p, d, rows, cols) == []
  {
  }

  /** Stepping once and then `k` times is stepping `k + 1` times. */
  lemma ScaleStep(p: Point, d: Point, k: int)
    ensures p.Add(d).Add(d.Scale(k)) == p.Add(d.Scale(k + 1))
  {
    assert (k + 1) * d.re == k * d.re + d.re && (k + 1) * d.im == k * d.im + d.im;
  }

  /** The k-th point of the walk is `p + (k + 1)·d`. */
  lemma {:induction false} WalkPoints(p: Point, d: Point, rows: int, cols: int, k: nat)
    requires d != Point(0, 0)
    requires k < |Walk(p, d, rows, cols)|
    ensures Walk(p, d, rows, cols)[k] == p.Add(d.Scale(k + 1))
    decreases k
  {
    var q := p.Add(d);
    WalkUnfold(p, d, rows, cols);
    hide Walk;
    if k > 0 {
      WalkPoints(q, d, rows, cols, k - 1);
      ScaleStep(p, d, k);
    }
  }

  /** The grid is convex: when `p` and `p + m·d` are inside, so is every
      point between them, and the walk reaches at least `m` points. */
  lemma {:induction false} WalkReaches(p: Point, d: Point, rows: int, cols: int, m: nat)
    requires d != Point(0, 0) && m >= 1
    requires WithinBounds(p, rows, cols) && WithinBounds(p.Add(d.Scale(m)), rows, cols)
    ensures |Walk(p, d, rows, cols)| >= m
    decreases m
  {
    var q := p.Add(d);
    assert m * d.re == (m - 1) * d.re + d.re && m * d.im == (m - 1) * d.im + d.im;
    assert WithinBounds(q, rows, cols) by {
      CoordinateBetween(p.re, d.re, m);
      CoordinateBetween(p.im, d.im, m);
    }
    if m > 1 {
      assert q.Add(d.Scale(m - 1)) == p.Add(d.Scale(m));
      WalkReaches(q, d, rows, cols, m - 1);
    }
  }

  /** A coordinate moving by `x` per step lies, after one step, between
      its values after zero and after `m` steps. */
  lemma CoordinateBetween(c: int, x: int, m: nat)
    requires m >= 1
    ensures Min(c, c + m * x) <= c + x <= Max(c, c + m * x)
  {
    if x >= 0 {
      assert m * x >= x;
    } else {
      assert m * x <= x;
    }
  }

  /** Antinodes beyond `a` (away from `b`) that the source records: all of
      the walk with harmonics, only its first point without. */
  function Emitted(a: Point, b: Point, rows: int, cols: int, harmonics: bool): (e: set<Point>)
    requires a != b
    ensures forall x :: x in e ==> WithinBounds(x, rows, cols)
  {
    var w := Walk(a, a.Sub(b), rows, cols);
    var taken := if harmonics then w else w[..Min(1, |w|)];
    set k | 0 <= k < |taken| :: taken[k]
  }

  /** An antinode of frequency `f`: an antenna of `f` when harmonics are on,
      or a point emitted beyond one antenna of a pair of distinct antennas
      of `f`. */
  ghost predicate FreqAntinode(antennas: map<Point, char>, f: char, rows: int, cols: int,
                               harmonics: bool, x: Point)
  {
    (harmonics && x in antennas && antennas[x] == f)
    || exists a, b :: a in antennas && b in antennas && a != b && antennas[a] == f && antennas[b] == f
                      && x in Emitted(a, b, rows, cols, harmonics)
  }

  ghost predicate IsAntinode(antennas: map<Point, char>, rows: int, cols: int, harmonics: bool, x: Point)
  {
    exists f :: f in antennas.Values && FreqAntinode(antennas, f, rows, cols, harmonics, x)
  }

  /** `combinations(locs, 2)`: the pairs `(locs[i], locs[j])` with `i < j`,
      in lexicographic order of `(i, j)`. */
  function Combinations(locs: seq<Point>): seq<(Point, Point)>
  {
    if |locs| == 0 then []
    else seq(|locs| - 1, j requires 0 <= j < |locs| - 1 => (locs[0], locs[j + 1])) + Combinations(locs[1..])
  }

  /** Every pair `i < j` is listed. */
  lemma {:induction false} CombinationsIndex(locs: seq<Point>, i: nat, j: nat) returns (s: nat)
    requires i < j < |locs|
    ensures s < |Combinations(locs)| && Combinations(locs)[s] == (locs[i], locs[j])
  {
    var firsts := seq(|locs| - 1, j requires 0 <= j < |locs| - 1 => (locs[0], locs[j + 1]));
    assert Combinations(locs) == firsts + Combinations(locs[1..]);
    if i == 0 {
      s := j - 1;
    } else {
      var s' := CombinationsIndex(locs[1..], i - 1, j - 1);
      s := |firsts| + s';
    }
  }

  /** Every listed pair is a pair `i < j`. */
  lemma {:induction false} CombinationsSource(locs: seq<Point>, s: nat) returns (i: nat, j: nat)
    requires s < |Combinations(locs)|
    ensures i < j < |locs| && Combinations(locs)[s] == (locs[i], locs[j])
  {
    var firsts := seq(|locs| - 1, j requires 0 <= j < |locs| - 1 => (locs[0], locs[j + 1]));
    assert Combinations(locs) == firsts + Combinations(locs[1..]);
    if s < |firsts| {
      i, j := 0, s + 1;
    } else {
      var i', j' := CombinationsSource(locs[1..], s - |firsts|);
      i, j := i' + 1, j' + 1;
    }
  }

  /** The positions of the antennas of frequency `f`, in some order, each
      once. */
  method Locations(antennas: map<Point, char>, f: char) returns (locs: seq<Point>)
    ensures forall p :: p in locs <==> p in antennas && antennas[p] == f
    ensures forall i, j :: 0 <= i < j < |locs| ==> locs[i] != locs[j]
  {
    locs := [];
    var rest := antennas.Keys;
    while rest != {}
      invariant rest <= antennas.Keys
      invariant forall p :: p in locs <==> p in antennas && p !in rest && antennas[p] == f
      invariant forall i, j :: 0 <= i < j < |locs| ==> locs[i] != locs[j]
      decreases |rest|
    {
      var p :| p in rest;
      if antennas[p] == f {
        locs := locs + [p];
      }
      rest := rest - {p};
    }
  }

  /** One `while within_bounds(a := a - dist)` loop: add the walk beyond `a`
      away from `b`, stopping after the first point without harmonics. */
  method AddBeyond(nodes: set<Point>, a: Point, b: Point, rows: int, cols: int, harmonics: bool)
    returns (result: set<Point>)
    requires a != b
    ensures result == nodes + Emitted(a, b, rows, cols, harmonics)
  {
    hide Walk;
    var dist := a.Sub(b);
    ghost var w := Walk(a, dist, rows, cols);
    ghost var k := 0;
    result := nodes;
    var p := a.Add(dist);
    if |w| > 0 {
      WalkStep(a, dist, rows, cols, 0);
    }
    while WithinBounds(p, rows, cols)
      invariant 0 <= k <= |w|
      invariant p == (if k == 0 then a else w[k - 1]).Add(dist)
      invariant k < |w| ==> p == w[k]
      invariant result == nodes + (set t | 0 <= t < k :: w[t])
      invariant !harmonics ==> k == 0
      decreases |w| - k
    {
      result := result + {p};
      k := k + 1;
      if !harmonics {
        break;
      }
      p := p.Add(dist);
      if k < |w| {
        WalkStep(a, dist, rows, cols, k);
      }
    }
    assert result == nodes + Emitted(a, b, rows, cols, harmonics) by {
      if harmonics {
        assert k == |w|;
      } else if |w| > 0 {
        assert k == 1 && w[..1] == [w[0]];
      }
    }
  }

  predicate DistinctPairs(pairs: seq<(Point, Point)>)
  {
    forall s :: 0 <= s < |pairs| ==> pairs[s].0 != pairs[s].1
  }

  /** The antinodes beyond both antennas of every pair. */
  function PairsEmitted(pairs: seq<(Point, Point)>, rows: int, cols: int, harmonics: bool): set<Point>
    requires DistinctPairs(pairs)
  {
    if pairs == [] then {}
    else
      var (a, b) := pairs[|pairs| - 1];
      PairsEmitted(pairs[..|pairs| - 1], rows, cols, harmonics)
      + Emitted(a, b, rows, cols, harmonics) + Emitted(b, a, rows, cols, harmonics)
  }

  lemma PairsEmittedSnoc(pairs: seq<(Point, Point)>, t: nat, rows: int, cols: int, harmonics: bool)
    requires DistinctPairs(pairs) && t < |pairs|
    ensures DistinctPairs(pairs[..t]) && DistinctPairs(pairs[..t + 1])
    ensures PairsEmitted(pairs[..t + 1], rows, cols, harmonics)
         == PairsEmitted(pairs[..t], rows, cols, harmonics)
            + Emitted(pairs[t].0, pairs[t].1, rows, cols, harmonics)
            + Emitted(pairs[t].1, pairs[t].0, rows, cols, harmonics)
  {
    assert pairs[..t + 1][..t] == pairs[..t];
  }

  lemma {:induction false} PairsEmittedMembers(pairs: seq<(Point, Point)>, rows: int, cols: int, harmonics: bool, x: Point)
    requires DistinctPairs(pairs)
    ensures x in PairsEmitted(pairs, rows, cols, harmonics) <==>
      exists s :: 0 <= s < |pairs| && (x in Emitted(pairs[s].0, pairs[s].1, rows, cols, harmonics)
                                       || x in Emitted(pairs[s].1, pairs[s].0, rows, cols, harmonics))
  {
    hide Emitted, Walk;
    if pairs != [] {
      var init := pairs[..|pairs| - 1];
      PairsEmittedMembers(init, rows, cols, harmonics, x);
      assert forall s :: 0 <= s < |init| ==> init[s] == pairs[s];
    }
  }

  lemma CombinationsDistinct(locs: seq<Point>)
    requires forall i, j :: 0 <= i < j < |locs| ==> locs[i] != locs[j]
    ensures DistinctPairs(Combinations(locs))
  {
    var pairs := Combinations(locs);
    forall s | 0 <= s < |pairs| ensures pairs[s].0 != pairs[s].1 {
      var i, j := CombinationsSource(locs, s);
    }
  }

  /** Over the combinations of distinct locations, the pairs emit exactly
      what the ordered pairs of distinct locations emit on their first
      side. */
  lemma CombinationsEmit(locs: seq<Point>, rows: int, cols: int, harmonics: bool, x: Point)
    requires forall i, j :: 0 <= i < j < |locs| ==> locs[i] != locs[j]
    ensures DistinctPairs(Combinations(locs))
    ensures x in PairsEmitted(Combinations(locs), rows, cols, harmonics) <==>
      exists a, b :: a in locs && b in locs && a != b && x in Emitted(a, b, rows, cols, harmonics)
  {
    hide Emitted, Walk, PairsEmitted;
    CombinationsDistinct(locs);
    var pairs := Combinations(locs);
    PairsEmittedMembers(pairs, rows, cols, harmonics, x);
    if exists a, b :: a in locs && b in locs && a != b && x in Emitted(a, b, rows, cols, harmonics) {
      var a, b :| a in locs && b in locs && a != b && x in Emitted(a, b, rows, cols, harmonics);
      var i :| 0 <= i < |locs| && locs[i] == a;
      var j :| 0 <= j < |locs| && locs[j] == b;
      var s;
      if i < j {
        s := CombinationsIndex(locs, i, j);
      } else {
        s := CombinationsIndex(locs, j, i);
      }
      assert x in Emitted(pairs[s].0, pairs[s].1, rows, cols, harmonics)
          || x in Emitted(pairs[s].1, pairs[s].0, rows, cols, harmonics);
    }
    if x in PairsEmitted(pairs, rows, cols, harmonics) {
      var s :| 0 <= s < |pairs| && (x in Emitted(pairs[s].0, pairs[s].1, rows, cols, harmonics)
                                    || x in Emitted(pairs[s].1, pairs[s].0, rows, cols, harmonics));
      EmitterFound(locs, s, rows, cols, harmonics, x);
    }
  }

  lemma EmitterFound(locs: seq<Point>, s: nat, rows: int, cols: int, harmonics: bool, x: Point)
    requires s < |Combinations(locs)| && Combinations(locs)[s].0 != Combinations(locs)[s].1
    requires x in Emitted(Combinations(locs)[s].0, Combinations(locs)[s].1, rows, cols, harmonics)
          || x in Emitted(Combinations(locs)[s].1, Combinations(locs)[s].0, rows, cols, harmonics)
    ensures exists a, b :: a in locs && b in locs && a != b && x in Emitted(a, b, rows, cols, harmonics)
  {
    hide Emitted, Walk;
    var i, j := CombinationsSource(locs, s);
    assert locs[i] in locs && locs[j] in locs;
  }

  /** The `for a, b in combinations(locs, 2)` loop: add the antinodes
      beyond both antennas of every pair. */
  method AddPairs(nodes: set<Point>, pairs: seq<(Point, Point)>, rows: int, cols: int, harmonics: bool)
    returns (result: set<Point>)
    requires DistinctPairs(pairs)
    ensures result == nodes + PairsEmitted(pairs, rows, cols, harmonics)
  {
    result := nodes;
    var t := 0;
    assert pairs[..0] == [];
    assert PairsEmitted(pairs[..0], rows, cols, harmonics) == {};
    hide PairsEmitted, Emitted, Walk;
    while t < |pairs|
      invariant 0 <= t <= |pairs|
      invariant result == nodes + PairsEmitted(pairs[..t], rows, cols, harmonics)
    {
      PairsEmittedSnoc(pairs, t, rows, cols, harmonics);
      var a, b := pairs[t].0, pairs[t].1;
      ghost var next := PairsEmitted(pairs[..t + 1], rows, cols, harmonics);
      result := AddBeyond(result, a, b, rows, cols, harmonics);
      result := AddBeyond(result, b, a, rows, cols, harmonics);
      assert result == nodes + next;
      t := t + 1;
    }
    assert pairs[..t] == pairs;
  }

  /** The antinodes of one frequency, added to `nodes`: the antennas
      themselves with harmonics, then both sides of every pair. */
  method AddFrequency(nodes: set<Point>, antennas: map<Point, char>, f: char, rows: int, cols: int,
                      harmonics: bool) returns (result: set<Point>)
    ensures forall x :: x in result <==> x in nodes || FreqAntinode(antennas, f, rows, cols, harmonics, x)
  {
    var locs := Locations(antennas, f);
    result := nodes;
    if harmonics {
      result := result + set p | p in locs;
    }
    CombinationsDistinct(locs);
    result := AddPairs(result, Combinations(locs), rows, cols, harmonics);
    forall x ensures x in result <==> x in nodes || FreqAntinode(antennas, f, rows, cols, harmonics, x) {
      CombinationsEmit(locs, rows, cols, harmonics, x);
    }
  }

  /** `solve`: collect the antinodes of every frequency. */
  method Antinodes(antennas: map<Point, char>, rows: int, cols: int, harmonics: bool)
    returns (nodes: set<Point>)
    ensures forall x :: x in nodes <==> IsAntinode(antennas, rows, cols, harmonics, x)
  {
    nodes := {};
    var freqs := antennas.Values;
    while freqs != {}
      invariant freqs <= antennas.Values
      invariant forall x :: x in nodes <==>
        exists f :: f in antennas.Values && f !in freqs && FreqAntinode(antennas, f, rows, cols, harmonics, x)
      decreases |freqs|
    {
      var f :| f in freqs;
      nodes := AddFrequency(nodes, antennas, f, rows, cols, harmonics);
      freqs := freqs - {f};
    }
  }

  method Solve(antennas: map<Point, char>, rows: int, cols: int, harmonics: bool) returns (count: nat)
    ensures exists nodes: set<Point> :: count == |nodes|
              && forall x :: x in nodes <==> IsAntinode(antennas, rows, cols, harmonics, x)
  {
    var nodes := Antinodes(antennas, rows, cols, harmonics);
    count := |nodes|;
  }

  /** Every antinode lies inside the grid (with harmonics, provided the
      antennas do). */
  lemma AntinodesInBounds(antennas: map<Point, char>, rows: int, cols: int, harmonics: bool, x: Point)
    requires harmonics ==> forall p :: p in antennas ==> WithinBounds(p, rows, cols)
    requires IsAntinode(antennas, rows, cols, harmonics, x)
    ensures WithinBounds(x, rows, cols)
  {
  }

  /** The single-step antinodes are among the repeated ones. */
  lemma EmittedGrows(a: Point, b: Point, rows: int, cols: int)
    requires a != b
    ensures Emitted(a, b, rows, cols, false) <= Emitted(a, b, rows, cols, true)
  {
  }

  /** Part 1's antinodes are a subset of part 2's. */
  lemma Part1WithinPart2(antennas: map<Point, char>, rows: int, cols: int, x: Point)
    requires IsAntinode(antennas, rows, cols, false, x)
    ensures IsAntinode(antennas, rows, cols, true, x)
  {
    var f :| f in antennas.Values && FreqAntinode(antennas, f, rows, cols, false, x);
    var a, b :| a in antennas && b in antennas && a != b && antennas[a] == f && antennas[b] == f
                && x in Emitted(a, b, rows, cols, false);
    EmittedGrows(a, b, rows, cols);
    assert FreqAntinode(antennas, f, rows, cols, true, x);
  }

  /** With harmonics every antenna is an antinode, and so is every in-grid
      point `a + m·(a - b)` beyond an antenna `a` of a pair. */
  lemma HarmonicsCoverLine(antennas: map<Point, char>, rows: int, cols: int, a: Point, b: Point, m: nat)
    requires a in antennas && b in antennas && a != b && antennas[a] == antennas[b]
    requires m >= 1 && WithinBounds(a, rows, cols)
    requires WithinBounds(a.Add(a.Sub(b).Scale(m)), rows, cols)
    ensures IsAntinode(antennas, rows, cols, true, a)
    ensures IsAntinode(antennas, rows, cols, true, a.Add(a.Sub(b).Scale(m)))
  {
    var f := antennas[a];
    assert FreqAntinode(antennas, f, rows, cols, true, a);
    var d := a.Sub(b);
    WalkReaches(a, d, rows, cols, m);
    WalkPoints(a, d, rows, cols, m - 1);
    var w := Walk(a, d, rows, cols);
    assert w[m - 1] in Emitted(a, b, rows, cols, true);
    assert FreqAntinode(antennas, f, rows, cols, true, a.Add(d.Scale(m)));
  }
}
