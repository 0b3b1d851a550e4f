/** The main loop's state from frame to frame: the clicked points, the current line and the
    strategy chosen on the command line. */
module FrameLoop {
  import opened Geometry
  import opened Points
  import opened LeastSquares
  import opened GradientDescent

  /** The learning rate the frame loop passes to gradient descent. */
  const FrameLearningRate: real := 0.1

  /** Gradient descent (the default, -g) or the closed-form least squares (-l). */
  datatype Strategy = Descent | ClosedForm

  /** The (m, b) shown: a line, or the non-finite pair the closed form gives when all x are equal. */
  datatype Estimate = Finite(line: Line) | NonFinite

  /** The estimate after one frame's fit. With fewer than two points no fit runs. Descent continues
      from the current line; the closed form recomputes from the points alone. */
  function NextEstimate(s: Strategy, data: seq<Point>, e: Estimate): (r: Estimate)
    requires s == Descent ==> e.Finite?
    ensures |data| <= 1 ==> r == e
    ensures s == Descent ==> r.Finite?
    ensures s == ClosedForm && |data| > 1 ==> (r.NonFinite? <==> SameX(data))
  {
    if |data| <= 1 then e
    else match s
      case Descent => Finite(Sweep(data, e.line, FrameLearningRate))
      case ClosedForm =>
        match Fit(data)
        case Fitted(l) => Finite(l)
        case Failed(_) => NonFinite
  }

  /** Once there are two points, the closed-form estimate forgets what was shown before. */
  lemma ClosedFormIgnoresHistory(data: seq<Point>, e1: Estimate, e2: Estimate)
    requires |data| > 1
    ensures NextEstimate(ClosedForm, data, e1) == NextEstimate(ClosedForm, data, e2)
  {
  }

  /** The closed-form estimate, when finite, has no larger squared error than any line. */
  lemma ClosedFormIsBest(data: seq<Point>, e: Estimate, l: Line)
    requires |data| > 1
    requires NextEstimate(ClosedForm, data, e).Finite?
    ensures SquaredError(data, NextEstimate(ClosedForm, data, e).line) <= SquaredError(data, l)
  {
    FitMinimizesSquaredError(data, l);
  }

  /** Points on a line of which at least two differ in x make the closed form show that line. */
  lemma ClosedFormFindsExactLine(data: seq<Point>, e: Estimate, l: Line)
    requires |data| > 1 && !SameX(data) && OnLine(data, l)
    ensures NextEstimate(ClosedForm, data, e) == Finite(l)
  {
    FitRecoversExactLine(data, l);
  }

  /** A descent estimate through every point stays where it is, frame after frame. */
  lemma DescentSettlesOnExactLine(data: seq<Point>, l: Line)
    requires OnLine(data, l)
    ensures NextEstimate(Descent, data, Finite(l)) == Finite(l)
  {
    SweepFixedPoint(data, l, FrameLearningRate);
  }

  /** The running program: the options, the point list, the fitter and the current (m, b). */
  class Session {
    const strategy: Strategy
    const store: PointStore
    const fitter: Fitter
    var estimate: Estimate

    /** Every point is on the canvas and duplicate-free; descent always shows a line; the counter
        only moves under descent; and until two points exist (m, b) is still (0, 0) and no
        iteration has run. */
    ghost predicate Valid()
      reads this, store, fitter
    {
      && store.Valid()
      && (forall q :: q in store.points ==> OnCanvas(q))
      && (strategy == Descent ==> estimate.Finite?)
      && (strategy == ClosedForm ==> fitter.iteration == 0)
      && (|store.points| <= 1 ==> estimate == Finite(Origin) && fitter.iteration == 0)
    }

    /** Start-up: no points, (m, b) = (0, 0), no iterations yet. */
    constructor (s: Strategy)
      ensures Valid()
      ensures strategy == s && store.points == [] && estimate == Finite(Origin) && fitter.iteration == 0
      ensures fresh(store) && fresh(fitter)
    {
      strategy := s;
      store := new PointStore();
      fitter := new Fitter();
      estimate := Finite(Origin);
    }

    /** The left clicks of one frame, in event order, each already mapped onto the canvas. */
    method HandleClicks(clicks: seq<Point>)
      requires Valid()
      requires forall q :: q in clicks ==> OnCanvas(q)
      modifies store
      ensures Valid()
      ensures store.points == AddAll(old(store.points), clicks)
    {
      for i := 0 to |clicks|
        invariant store.Valid()
        invariant AddAll(store.points, clicks[i..]) == AddAll(old(store.points), clicks)
        invariant |old(store.points)| <= |store.points|
        invariant forall q :: q in store.points ==> OnCanvas(q)
      {
        assert clicks[i..][1..] == clicks[i + 1..];
        store.Add(clicks[i]);
      }
    }

    /** The fit of one frame: nothing below two points, else one closed-form fit or one descent sweep. */
    method Refit()
      requires Valid()
      modifies this, fitter
      ensures Valid()
      ensures estimate == NextEstimate(strategy, store.points, old(estimate))
      ensures fitter.iteration
              == old(fitter.iteration) + if strategy == Descent && |store.points| > 1 then 1 else 0
    {
      var data := store.points;
      if |data| > 1 {
        if strategy == ClosedForm {
          match Fit(data)
          case Fitted(l) =>
            estimate := Finite(l);
          case Failed(_) =>
            estimate := NonFinite;
        } else {
          var m, b := fitter.GradientDescent(data, estimate.line.m, estimate.line.b, FrameLearningRate);
          estimate := Finite(Line(m, b));
        }
      }
    }

    /** One pass of the main loop: take the frame's clicks, then fit if there are two points. */
    method Frame(clicks: seq<Point>)
      requires Valid()
      requires forall q :: q in clicks ==> OnCanvas(q)
      modifies this, store, fitter
      ensures Valid()
      ensures store.points == AddAll(old(store.points), clicks)
      ensures estimate == NextEstimate(strategy, store.points, old(estimate))
      ensures fitter.iteration
              == old(fitter.iteration) + if strategy == Descent && |store.points| > 1 then 1 else 0
    {
      HandleClicks(clicks);
      Refit();
    }
  }
}
