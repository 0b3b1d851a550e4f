/** Online gradient descent: one sweep over the points per call, each point nudging the line
    against its own error, and a counter of the calls made so far. */
module GradientDescent {
  import opened Geometry

  /** The learning rate a caller gets when it passes none. */
  const DefaultLearningRate: real := 0.02

  /** The update for one point: the error y - guess moves the slope by error·x·rate and the
      intercept by error·rate. */
  function Step(l: Line, p: Point, learningRate: real): Line
  {
    var guess := l.m * p.x + l.b;
    var error := p.y - guess;
    Line(l.m + (error * p.x) * learningRate, l.b + error * learningRate)
  }

  /** The step scales the line's error at its own point by 1 - rate·(x² + 1). */
  lemma StepScalesResidual(l: Line, p: Point, learningRate: real)
    ensures Residual(Step(l, p, learningRate), p)
            == (1.0 - learningRate * (Square(p.x) + 1.0)) * Residual(l, p)
  {
    var e := p.y - (l.m * p.x + l.b);
    ResidualAfterStep(l.m, l.b, p.x, p.y, learningRate, e);
  }

  lemma ResidualAfterStep(m: real, b: real, x: real, y: real, learningRate: real, e: real)
    requires e == y - (m * x + b)
    ensures y - ((m + (e * x) * learningRate) * x + (b + e * learningRate))
            == (1.0 - learningRate * (Square(x) + 1.0)) * e
  {
    SquareIsProduct(x);
  }

  /** One call's sweep: the per-point steps folded over the points from the left, in list order. */
  function Sweep(d: seq<Point>, l: Line, learningRate: real): Line
    decreases |d|
  {
    if d == [] then l else Sweep(d[1..], Step(l, d[0], learningRate), learningRate)
  }

  /** A nonzero rate leaves the line alone at a point exactly when the line already passes through it. */
  lemma StepFixedIff(l: Line, p: Point, learningRate: real)
    requires learningRate != 0.0
    ensures Step(l, p, learningRate) == l <==> Residual(l, p) == 0.0
  {
    var r := Step(l, p, learningRate);
    if r == l {
      ProductZero(learningRate, Residual(l, p));
    }
  }

  /** A line through every point is a fixed point of the sweep. */
  lemma {:induction false} SweepFixedPoint(d: seq<Point>, l: Line, learningRate: real)
    requires OnLine(d, l)
    ensures Sweep(d, l, learningRate) == l
    decreases |d|
  {
    if d != [] {
      assert Residual(l, d[0]) == 0.0;
      assert Step(l, d[0], learningRate) == l;
      assert OnLine(d[1..], l) by {
        forall i | 0 <= i < |d[1..]|
          ensures Residual(l, d[1..][i]) == 0.0
        {
          assert d[1..][i] == d[i + 1];
        }
      }
      SweepFixedPoint(d[1..], l, learningRate);
    }
  }

  /** Sweeping a list in two parts is sweeping the first part, then the second from where it ended. */
  lemma {:induction false} SweepConcat(d: seq<Point>, e: seq<Point>, l: Line, learningRate: real)
    ensures Sweep(d + e, l, learningRate) == Sweep(e, Sweep(d, l, learningRate), learningRate)
    decreases |d|
  {
    if d == [] {
      assert d + e == e;
    } else {
      assert (d + e)[0] == d[0];
      assert (d + e)[1..] == d[1..] + e;
      SweepConcat(d[1..], e, Step(l, d[0], learningRate), learningRate);
    }
  }

  /** On a point whose abscissa lies in the canvas, rates in (0, 1/2) shrink the error there
      by a factor strictly between 0 and 1. */
  lemma StepContracts(l: Line, p: Point, learningRate: real)
    requires 0.0 <= p.x <= MAP
    requires 0.0 < learningRate < 0.5
    ensures var c := 1.0 - learningRate * (Square(p.x) + 1.0);
      0.0 < c < 1.0 && Residual(Step(l, p, learningRate), p) == c * Residual(l, p)
  {
    StepScalesResidual(l, p, learningRate);
    SquareAtMostOne(p.x);
  }

  lemma SquareAtMostOne(x: real)
    requires 0.0 <= x <= 1.0
    ensures Square(x) <= 1.0
  {
    SquareIsProduct(x);
    assert x * x <= 1.0 * x;
  }

  /** The fitter: the running count of gradient-descent calls, shown in the window. */
  class Fitter {
    var iteration: nat

    constructor ()
      ensures iteration == 0
    {
      iteration := 0;
    }

    /** One call: bump the counter, then sweep the points once in order from (m, b). */
    method GradientDescent(data: seq<Point>, m: real, b: real, learningRate: real := DefaultLearningRate)
      returns (m': real, b': real)
      requires |data| > 0
      modifies this
      ensures iteration == old(iteration) + 1
      ensures Line(m', b') == Sweep(data, Line(m, b), learningRate)
    {
      iteration := iteration + 1;
      m', b' := m, b;
      for i := 0 to |data|
        invariant Sweep(data[i..], Line(m', b'), learningRate) == Sweep(data, Line(m, b), learningRate)
      {
        var guess := m' * data[i].x + b';
        var error := data[i].y - guess;
        assert data[i..][1..] == data[i + 1..];
        m' := m' + (error * data[i].x) * learningRate;
        b' := b' + error * learningRate;
      }
    }
  }
}
