/** Day 4: a square word search. Part 1 counts "XMAS" and its reverse in
    every row, column, diagonal and anti-diagonal; part 2 counts the cells at
    the centre of two crossing "MAS" strings. */
module Day04 {
  import opened Common

  type Grid = seq<seq<char>>

  /** The puzzle grid is square: `grid_size` rows of `grid_size` cells. */
  predicate IsSquare(grid: Grid)
  {
    forall r :: 0 <= r < |grid| ==> |grid[r]| == |grid|
  }

  const MainDiagonal: seq<(int, int)> := [(-1, -1), (0, 0), (1, 1)]
  const AntiDiagonal: seq<(int, int)> := [(-1, 1), (0, 0), (1, -1)]

  predicate InGrid(n: int, x: int, y: int)
  {
    0 <= x < n && 0 <= y < n
  }

  /** `text_at`: the characters at (x, y) + each offset, or nothing when
      any of those cells lies outside the grid. */
  function TextAt(grid: Grid, x: int, y: int, offsets: seq<(int, int)>): (r: Option<seq<char>>)
    requires IsSquare(grid)
    ensures r.Some? <==> forall k :: 0 <= k < |offsets| ==> InGrid(|grid|, x + offsets[k].0, y + offsets[k].1)
    ensures r.Some? ==> (|r.value| == |offsets|
      && forall k :: 0 <= k < |offsets| ==> r.value[k] == grid[x + offsets[k].0][y + offsets[k].1])
  {
    if forall k :: 0 <= k < |offsets| ==> InGrid(|grid|, x + offsets[k].0, y + offsets[k].1)
    then Some(seq(|offsets|, k requires 0 <= k < |offsets| => grid[x + offsets[k].0][y + offsets[k].1]))
    else None
  }

  predicate IsMas(t: Option<seq<char>>)
  {
    t == Some("MAS") || t == Some("SAM")
  }

  /** `is_xmas`: both diagonals through (x, y) read "MAS" or "SAM". */
  predicate IsXmas(grid: Grid, x: int, y: int)
    requires IsSquare(grid)
  {
    IsMas(TextAt(grid, x, y, MainDiagonal)) && IsMas(TextAt(grid, x, y, AntiDiagonal))
  }

  /** An X-MAS is centred on an 'A' strictly inside the grid, with the
      letters of both diagonals as the puzzle describes. */
  lemma XmasShape(grid: Grid, x: int, y: int)
    requires IsSquare(grid) && IsXmas(grid, x, y)
    ensures 1 <= x < |grid| - 1 && 1 <= y < |grid| - 1
    ensures grid[x][y] == 'A'
    ensures {grid[x - 1][y - 1], grid[x + 1][y + 1]} == {'M', 'S'}
    ensures {grid[x - 1][y + 1], grid[x + 1][y - 1]} == {'M', 'S'}
  {
    var l, r := TextAt(grid, x, y, MainDiagonal), TextAt(grid, x, y, AntiDiagonal);
    assert InGrid(|grid|, x + MainDiagonal[0].0, y + MainDiagonal[0].1);
    assert InGrid(|grid|, x + MainDiagonal[2].0, y + MainDiagonal[2].1);
    assert InGrid(|grid|, x + AntiDiagonal[0].0, y + AntiDiagonal[0].1);
    assert l.value[0] == grid[x - 1][y - 1] && l.value[1] == grid[x][y] && l.value[2] == grid[x + 1][y + 1];
    assert r.value[0] == grid[x - 1][y + 1] && r.value[2] == grid[x + 1][y - 1];
  }

  // ---- the lines searched by part 1 ----

  function Columns(grid: Grid): (cols: seq<seq<char>>)
    requires IsSquare(grid)
    ensures |cols| == |grid|
    ensures forall c :: 0 <= c < |cols| ==> |cols[c]| == |grid|
    ensures forall c, r :: 0 <= c < |grid| && 0 <= r < |grid| ==> cols[c][r] == grid[r][c]
  {
    seq(|grid|, c requires 0 <= c < |grid| => seq(|grid|, r requires 0 <= r < |grid| => grid[r][c]))
  }

  /** numpy's `diagonal(off)`: the cells grid[k][k + off]. */
  function Diagonal(grid: Grid, off: int): (d: seq<char>)
    requires IsSquare(grid) && -|grid| < off < |grid|
    ensures |d| == |grid| - Abs(off)
  {
    var n := |grid|;
    if off >= 0 then seq(n - off, k requires 0 <= k < n - off => grid[k][k + off])
    else seq(n + off, k requires 0 <= k < n + off => grid[k - off][k])
  }

  /** The same diagonal of the grid with every row reversed (`fliplr`). */
  function AntiDiagonalLine(grid: Grid, off: int): (d: seq<char>)
    requires IsSquare(grid) && -|grid| < off < |grid|
    ensures |d| == |grid| - Abs(off)
  {
    var n := |grid|;
    if off >= 0 then seq(n - off, k requires 0 <= k < n - off => grid[k][n - 1 - (k + off)])
    else seq(n + off, k requires 0 <= k < n + off => grid[k - off][n - 1 - k])
  }

  /** The diagonal lines for offsets -n+1 .. n-1: 2n - 1 of them. */
  function Diagonals(grid: Grid): (ds: seq<seq<char>>)
    requires IsSquare(grid)
    ensures |ds| == if |grid| == 0 then 0 else 2 * |grid| - 1
  {
    var n := |grid|;
    if n == 0 then []
    else seq(2 * n - 1, i requires 0 <= i < 2 * n - 1 => Diagonal(grid, i - (n - 1)))
  }

  function AntiDiagonals(grid: Grid): (ds: seq<seq<char>>)
    requires IsSquare(grid)
    ensures |ds| == if |grid| == 0 then 0 else 2 * |grid| - 1
  {
    var n := |grid|;
    if n == 0 then []
    else seq(2 * n - 1, i requires 0 <= i < 2 * n - 1 => AntiDiagonalLine(grid, i - (n - 1)))
  }

  /** Every cell lies on the main diagonal of offset c - r, at position
      min(r, c). */
  lemma DiagonalCoversCell(grid: Grid, r: int, c: int)
    requires IsSquare(grid) && InGrid(|grid|, r, c)
    ensures Diagonal(grid, c - r)[Min(r, c)] == grid[r][c]
  {
    var d := Diagonal(grid, c - r);
    if c >= r {
      assert d[r] == grid[r][r + (c - r)];
    } else {
      assert d[c] == grid[c - (c - r)][c];
    }
  }

  /** The k-th character of an anti-diagonal line. */
  lemma AntiDiagonalAt(grid: Grid, off: int, k: int)
    requires IsSquare(grid) && -|grid| < off < |grid| && 0 <= k < |grid| - Abs(off)
    ensures off >= 0 ==> AntiDiagonalLine(grid, off)[k] == grid[k][|grid| - 1 - (k + off)]
    ensures off < 0 ==> AntiDiagonalLine(grid, off)[k] == grid[k - off][|grid| - 1 - k]
  {
  }

  /** Every cell lies on the anti-diagonal of offset n-1-c-r, at position
      min(r, n-1-c). */
  lemma AntiDiagonalCoversCell(grid: Grid, r: int, c: int)
    requires IsSquare(grid) && InGrid(|grid|, r, c)
    ensures AntiDiagonalLine(grid, |grid| - 1 - c - r)[Min(r, |grid| - 1 - c)] == grid[r][c]
  {
    hide AntiDiagonalLine, Diagonal, Columns, Diagonals, AntiDiagonals, TextAt, IsSquare;
    var n := |grid|;
    var off := n - 1 - c - r;
    if off >= 0 {
      assert Min(r, n - 1 - c) == r;
      AntiDiagonalAt(grid, off, r);
    } else {
      assert Min(r, n - 1 - c) == n - 1 - c;
      AntiDiagonalAt(grid, off, n - 1 - c);
      assert n - 1 - c - off == r;
    }
  }

  function AllLines(grid: Grid): seq<seq<char>>
    requires IsSquare(grid)
  {
    grid + Columns(grid) + Diagonals(grid) + AntiDiagonals(grid)
  }

  /** Python's `str.count`: non-overlapping occurrences, scanning from the
      left. */
  function Occurrences(s: seq<char>, p: seq<char>): (n: nat)
    requires |p| > 0
    ensures n * |p| <= |s|
    decreases |s|
  {
    if |s| < |p| then 0
    else if s[..|p|] == p then 1 + Occurrences(s[|p|..], p)
    else Occurrences(s[1..], p)
  }

  function LineCount(line: seq<char>): nat
  {
    Occurrences(line, "XMAS") + Occurrences(line, "SAMX")
  }

  function CountLines(lines: seq<seq<char>>): nat
  {
    if lines == [] then 0 else CountLines(lines[..|lines| - 1]) + LineCount(lines[|lines| - 1])
  }

  /** Counting in lines a and b separately gives the sum. */
  lemma {:induction false} CountLinesAppend(a: seq<seq<char>>, b: seq<seq<char>>)
    ensures CountLines(a + b) == CountLines(a) + CountLines(b)
  {
    if b != [] {
      assert (a + b)[..|a + b| - 1] == a + b[..|b| - 1];
      CountLinesAppend(a, b[..|b| - 1]);
    } else {
      assert a + b == a;
    }
  }

  method Part1(grid: Grid) returns (counts: nat)
    requires IsSquare(grid)
    ensures counts == CountLines(grid) + CountLines(Columns(grid)) + CountLines(Diagonals(grid)) + CountLines(AntiDiagonals(grid))
  {
    hide TextAt, IsXmas, Diagonal, AntiDiagonalLine;
    var lines := AllLines(grid);
    counts := 0;
    var i := 0;
    while i < |lines|
      invariant 0 <= i <= |lines|
      invariant counts == CountLines(lines[..i])
    {
      assert lines[..i + 1][..i] == lines[..i];
      counts := counts + Occurrences(lines[i], "XMAS");
      counts := counts + Occurrences(lines[i], "SAMX");
      i := i + 1;
    }
    assert lines[..i] == lines;
    CountLinesAppend(grid, Columns(grid));
    CountLinesAppend(grid + Columns(grid), Diagonals(grid));
    CountLinesAppend(grid + Columns(grid) + Diagonals(grid), AntiDiagonals(grid));
  }

  // ---- part 2 ----

  /** Number of y < m with an X-MAS centred on (x, y). */
  function XmasInRow(grid: Grid, x: int, m: nat): nat
    requires IsSquare(grid)
  {
    if m == 0 then 0 else XmasInRow(grid, x, m - 1) + (if IsXmas(grid, x, m - 1) then 1 else 0)
  }

  /** Number of X-MAS centres in rows x < k. */
  function XmasInRows(grid: Grid, k: nat): nat
    requires IsSquare(grid)
  {
    if k == 0 then 0 else XmasInRows(grid, k - 1) + XmasInRow(grid, k - 1, |grid|)
  }

  method Part2(grid: Grid) returns (counts: nat)
    requires IsSquare(grid)
    ensures counts == XmasInRows(grid, |grid|)
  {
    hide IsXmas, TextAt;
    var n := |grid|;
    counts := 0;
    var x := 0;
    while x < n
      invariant 0 <= x <= n
      invariant counts == XmasInRows(grid, x)
    {
      var y := 0;
      while y < n
        invariant 0 <= y <= n
        invariant counts == XmasInRows(grid, x) + XmasInRow(grid, x, y)
      {
        if IsXmas(grid, x, y) {
          counts := counts + 1;
        }
        y := y + 1;
      }
      x := x + 1;
    }
  }

  lemma {:induction false} BorderRowHasNone(grid: Grid, x: int, m: nat)
    requires IsSquare(grid) && (x <= 0 || x >= |grid| - 1)
    ensures XmasInRow(grid, x, m) == 0
  {
    hide IsXmas, TextAt;
    if m > 0 {
      BorderRowHasNone(grid, x, m - 1);
      if IsXmas(grid, x, m - 1) {
        XmasShape(grid, x, m - 1);
      }
    }
  }

  lemma {:induction false} InnerRowBound(grid: Grid, x: int, m: nat)
    requires IsSquare(grid) && m <= |grid|
    ensures XmasInRow(grid, x, m) <= if m <= 1 then 0 else if m == |grid| then m - 2 else m - 1
  {
    hide IsXmas, TextAt;
    if m > 0 {
      InnerRowBound(grid, x, m - 1);
      if IsXmas(grid, x, m - 1) {
        XmasShape(grid, x, m - 1);
      }
    }
  }

  /** Interior rows among rows 0 .. k-1 of an n-row grid. */
  function InnerRowsBelow(k: nat, n: nat): nat
  {
    if k <= 1 || n < 2 then 0 else if k >= n then n - 2 else k - 1
  }

  lemma MulStep(prev: nat, row: nat, cap: nat, w: nat)
    requires prev <= cap * w && row <= w
    ensures prev + row <= (cap + 1) * w
  {
  }

  lemma {:induction false} RowsBound(grid: Grid, k: nat)
    requires IsSquare(grid) && 2 <= |grid| && k <= |grid|
    ensures XmasInRows(grid, k) <= InnerRowsBelow(k, |grid|) * (|grid| - 2)
  {
    hide XmasInRow, IsXmas, TextAt;
    var n := |grid|;
    if k > 0 {
      RowsBound(grid, k - 1);
      if k - 1 == 0 || k - 1 == n - 1 {
        BorderRowHasNone(grid, k - 1, n);
      } else {
        InnerRowBound(grid, k - 1, n);
        MulStep(XmasInRows(grid, k - 1), XmasInRow(grid, k - 1, n), InnerRowsBelow(k - 1, n), n - 2);
      }
    }
  }

  /** X-MAS centres avoid the border, so there are at most (n - 2)² of
      them. */
  lemma Part2Bound(grid: Grid)
    requires IsSquare(grid) && |grid| >= 2
    ensures XmasInRows(grid, |grid|) <= (|grid| - 2) * (|grid| - 2)
  {
    RowsBound(grid, |grid|);
  }
}
