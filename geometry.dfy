/** Points of the normalized canvas and the lines fitted through them. */
module Geometry {

  /** Side of the normalized canvas: every clicked coordinate lies in [0, MAP]. */
  const MAP: real := 1.0

  /** A clicked point (x, y), in normalized coordinates. */
  datatype Point = Point(x: real, y: real)

  /** The line y = m*x + b. */
  datatype Line = Line(m: real, b: real)

  /** The line both fitters start from before any fit has run. */
  const Origin: Line := Line(0.0, 0.0)

  predicate OnCanvas(p: Point) {
    0.0 <= p.x <= MAP && 0.0 <= p.y <= MAP
  }

  /** The line's guess at abscissa x. */
  function Predict(l: Line, x: real): real {
    l.m * x + l.b
  }

  /** The error y - guess of the line at point p. */
  function Residual(l: Line, p: Point): real {
    p.y - Predict(l, p.x)
  }

  /** Every point of d lies exactly on l. */
  predicate OnLine(d: seq<Point>, l: Line) {
    forall i :: 0 <= i < |d| ==> Residual(l, d[i]) == 0.0
  }

  /** Stands for its argument; Square multiplies by it so that the product is not a literal
      self-product, on which the solver's non-linear arithmetic proves sign facts less reliably. */
  function Copy(u: real): real { u }

  /** u², never negative and zero only at zero. */
  function Square(u: real): (s: real)
    ensures s >= 0.0
    ensures s == 0.0 <==> u == 0.0
  {
    u * Copy(u)
  }

  lemma SquareIsProduct(u: real)
    ensures Square(u) == u * u
  {
  }

  /** A product with a nonzero factor vanishes only through its other factor. */
  lemma ProductZero(a: real, e: real)
    requires a != 0.0 && a * e == 0.0
    ensures e == 0.0
  {
  }

  predicate NoDuplicates(d: seq<Point>) {
    forall i, j :: 0 <= i < j < |d| ==> d[i] != d[j]
  }
}
