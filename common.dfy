/** Value types shared by the daily solvers.

    The solvers encode grid coordinates as Python complex numbers; here a
    coordinate is a pair of unbounded integers with the arithmetic the
    solvers use on them (addition, subtraction, scaling by an integer and
    multiplication by the imaginary unit). */
module Common {

  datatype Option<+T> = None | Some(value: T)

  /** A Gaussian integer re + im·i, used as a grid coordinate. */
  datatype Point = Point(re: int, im: int)
  {
    function Add(o: Point): Point { Point(re + o.re, im + o.im) }
    function Sub(o: Point): Point { Point(re - o.re, im - o.im) }
    function Scale(k: int): Point { Point(k * re, k * im) }
    /** Multiplication by the imaginary unit: (a + bi)·i = -b + ai. */
    function MulI(): Point { Point(-im, re) }
    /** Multiplication by -i: (a + bi)·(-i) = b - ai. */
    function MulNegI(): Point { Point(im, -re) }
  }

  function Abs(x: int): (r: nat)
    ensures r == x || r == -x
  {
    if x < 0 then -x else x
  }

  function Manhattan(a: Point, b: Point): nat
  {
    Abs(a.re - b.re) + Abs(a.im - b.im)
  }

  /** The four unit directions 1, i, -1, -i. */
  const Units: seq<Point> := [Point(1, 0), Point(0, 1), Point(-1, 0), Point(0, -1)]

  lemma MulIFourTimes(p: Point)
    ensures p.MulI().MulI().MulI().MulI() == p
    ensures p.MulI().MulNegI() == p && p.MulNegI().MulI() == p
  {
  }

  function Sum(s: seq<int>): int
  {
    if s == [] then 0 else Sum(s[..|s| - 1]) + s[|s| - 1]
  }

  function Min(a: int, b: int): int { if a <= b then a else b }
  function Max(a: int, b: int): int { if a >= b then a else b }
}
