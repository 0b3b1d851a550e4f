/** Worked cases of the two fitters and of the frame loop on small point lists. */
module Scenarios {
  import opened Geometry
  import opened Points
  import opened LeastSquares
  import opened GradientDescent
  import opened FrameLoop

  /** Two points on the diagonal give slope 1 and intercept 0. */
  lemma DiagonalPair()
    ensures Fit([Point(0.1, 0.1), Point(0.9, 0.9)]) == Fitted(Line(1.0, 0.0))
  {
    var d := [Point(0.1, 0.1), Point(0.9, 0.9)];
    assert d[1].x != d[0].x;
    FitRecoversExactLine(d, Line(1.0, 0.0));
  }

  /** Two points at the same height give the horizontal line through them. */
  lemma HorizontalPair()
    ensures Fit([Point(0.0, 1.0), Point(1.0, 1.0)]) == Fitted(Line(0.0, 1.0))
  {
    var d := [Point(0.0, 1.0), Point(1.0, 1.0)];
    assert d[1].x != d[0].x;
    FitRecoversExactLine(d, Line(0.0, 1.0));
  }

  /** Two points one above the other leave the slope's denominator zero. */
  lemma VerticalPair()
    ensures Fit([Point(0.0, 0.0), Point(0.0, 1.0)]) == Failed(ZeroVariance)
  {
    assert SameX([Point(0.0, 0.0), Point(0.0, 1.0)]);
  }

  lemma SweepOfTwo(p: Point, q: Point, l: Line, learningRate: real)
    ensures Sweep([p, q], l, learningRate) == Step(Step(l, p, learningRate), q, learningRate)
  {
    assert [p, q][1..] == [q];
    assert [q][1..] == [];
    assert Sweep([p, q], l, learningRate) == Sweep([q], Step(l, p, learningRate), learningRate);
  }

  /** One sweep at the frame rate from (0, 0) over two points. */
  lemma OneSweep()
    ensures Sweep([Point(0.2, 0.3), Point(0.8, 0.7)], Origin, FrameLearningRate) == Line(0.059216, 0.09652)
  {
    StepAt(0.006, 0.03, 0.8, 0.7, 0.1, 0.059216, 0.09652);
    StepAt(0.0, 0.0, 0.2, 0.3, 0.1, 0.006, 0.03);
    SweepOfTwo(Point(0.2, 0.3), Point(0.8, 0.7), Line(0.0, 0.0), FrameLearningRate);
  }

  /** Unlike the closed form, a sweep depends on the order of the points. */
  lemma SweepOrderMatters()
    ensures Sweep([Point(0.0, 1.0), Point(0.5, 0.8)], Origin, 0.5)
         != Sweep([Point(0.5, 0.8), Point(0.0, 1.0)], Origin, 0.5)
  {
    SweepLeftFirst();
    SweepRightFirst();
  }

  lemma SweepLeftFirst()
    ensures Sweep([Point(0.0, 1.0), Point(0.5, 0.8)], Origin, 0.5) == Line(0.075, 0.65)
  {
    StepAt(0.0, 0.5, 0.5, 0.8, 0.5, 0.075, 0.65);
    StepAt(0.0, 0.0, 0.0, 1.0, 0.5, 0.0, 0.5);
    SweepOfTwo(Point(0.0, 1.0), Point(0.5, 0.8), Line(0.0, 0.0), 0.5);
  }

  lemma SweepRightFirst()
    ensures Sweep([Point(0.5, 0.8), Point(0.0, 1.0)], Origin, 0.5) == Line(0.2, 0.7)
  {
    StepAt(0.2, 0.4, 0.0, 1.0, 0.5, 0.2, 0.7);
    StepAt(0.0, 0.0, 0.5, 0.8, 0.5, 0.2, 0.4);
    SweepOfTwo(Point(0.5, 0.8), Point(0.0, 1.0), Line(0.0, 0.0), 0.5);
  }

  /** Step spelled out on the coordinates. */
  lemma StepAt(m: real, b: real, x: real, y: real, learningRate: real, m': real, b': real)
    requires m' == m + ((y - (m * x + b)) * x) * learningRate
    requires b' == b + (y - (m * x + b)) * learningRate
    ensures Step(Line(m, b), Point(x, y), learningRate) == Line(m', b')
  {
  }

  /** Under descent: one click shows (0, 0), the second click runs the first sweep. */
  method DescentSession() returns (first: Estimate, second: Estimate, iterations: nat)
    ensures first == Finite(Origin)
    ensures second == Finite(Line(0.059216, 0.09652)) && iterations == 1
  {
    var session := new Session(Descent);
    session.Frame([Point(0.2, 0.3)]);
    first := session.estimate;
    session.Frame([Point(0.8, 0.7)]);
    assert session.store.points == [Point(0.2, 0.3), Point(0.8, 0.7)];
    OneSweep();
    second := session.estimate;
    iterations := session.fitter.iteration;
  }

  /** Clicking the same point again in a later frame adds nothing, so no fit runs and (m, b)
      stays (0, 0). */
  method RepeatedClick() returns (points: seq<Point>, shown: Estimate)
    ensures points == [Point(0.5, 0.5)] && shown == Finite(Origin)
  {
    var session := new Session(ClosedForm);
    session.Frame([Point(0.5, 0.5)]);
    session.Frame([Point(0.5, 0.5)]);
    points := session.store.points;
    shown := session.estimate;
  }
}
