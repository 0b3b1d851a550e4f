# Linear regression on clicked points, in Dafny

The program is a small interactive window. Every left click adds a point to a list, unless that
point is already in the list. Every frame, once the list has at least two points, the program
fits a line `y = m*x + b` through it. Which fit it uses is chosen on the command line:

- `-l` uses the closed-form ordinary least-squares line. It is recomputed from the whole list.
- `-g`, the default, uses online gradient descent. Each frame runs one sweep over the points.
  The sweep starts from the previous frame's `(m, b)` and uses learning rate 0.1.
  A global counter `iteration` counts the sweeps.

The model has six modules:

- `Geometry`: points on the normalized canvas `[0, MAP]²`, lines, residuals, and a square
  function.
- `Points`: the duplicate-free append of a left click. It comes as a function (`WithPoint`,
  `AddAll`) and as the `PointStore` class whose `Add` method changes the list in place. The
  module also holds the click handler as written, see "Findings".
- `LeastSquares`: `least_squares` as the total function `Fit`. Its error cases are explicit.
  The lemmas prove that the fitted line passes through the mean point and that the
  denominator vanishes exactly when all x are equal. They also prove the line is the unique
  minimiser of the squared error, and that the fit returns any line the points lie on exactly.
- `GradientDescent`: the per-point update `Step` and the sweep `Sweep`, a left fold of
  `Step`. The `Fitter` class holds the `iteration` counter and the `GradientDescent` method,
  whose loop is proved against `Sweep`.
- `FrameLoop`: the per-frame state of `main`, as the class `Session`. It holds the
  strategy, the point store, the fitter and the current `(m, b)`. `NextEstimate` is the
  fit dispatch as a function.
- `Scenarios`: worked cases on small point lists.

Numbers are exact `real`s. The numeric failures of the closed form are values of the model:
a slope over a zero denominator (`ZeroVariance`), and an empty list, which has no x column
(`NoPoints`). The frame loop shows such a failure as the non-finite estimate `NonFinite`.

## Model

| member | source | states |
|---|---|---|
| LeastSquares.Fit | graph_linear.py:49-62 | Fails with `NoPoints` exactly on the empty list. Fails with `ZeroVariance` exactly when the list is non-empty and all x are equal. Otherwise the line passes through the mean point `(x̄, ȳ)`. |
| LeastSquares.MeanX | graph_linear.py:51-53 | No contract of its own. It is the mean of the x column. `Fit`, `CenteredSums` and `FittedLine` state its properties. |
| LeastSquares.MeanY | graph_linear.py:52-54 | No contract of its own. It is the mean of the y column. `Fit`, `CenteredSums` and `FittedLine` state its properties. |
| LeastSquares.Sxx | graph_linear.py:58 | No contract of its own. It is the denominator `Σ(x - x̄)²`. `ZeroVarianceIffSameX` and `FittedLine` state its properties. |
| LeastSquares.Sxy | graph_linear.py:57 | No contract of its own. It is the numerator `Σ(x - x̄)(y - ȳ)`. `FittedLine` states the slope equation it enters. |
| LeastSquares.ZeroVarianceIffSameX | graph_linear.py:58-60 | The denominator `Σ(x - x̄)²` is never negative. It is zero exactly when all x-coordinates are equal. |
| LeastSquares.FittedLine | graph_linear.py:56-61 | A fitted line has `Sxx > 0`, satisfies the slope equation `m·Sxx = Sxy` and has intercept `ȳ - m·x̄`. |
| LeastSquares.CenteredSums | graph_linear.py:53-57 | The deviations from the means, `Σ(x - x̄)` and `Σ(y - ȳ)`, both sum to zero. |
| LeastSquares.SquaredErrorZeroIff | graph_linear.py:49-62 | The squared error of a line is never negative. It is zero exactly when every point lies on the line. |
| LeastSquares.Decomposition | graph_linear.py:49-62 | For every line `l`: `SSE(l) = SSE(fit) + Sxx·(l.m - m)² + n·k²`, where `k` is how far `l` passes from the mean point. |
| LeastSquares.ErrorDecomposition | graph_linear.py:56-61 | The same identity about any centre of the points, for any line through it that solves the slope equation. |
| LeastSquares.FitMinimizesSquaredError | graph_linear.py:49-62 | No line has a smaller squared error than the fitted line. |
| LeastSquares.FitUniqueMinimizer | graph_linear.py:49-62 | A line attains the fitted line's squared error (or less) exactly when it is the fitted line. |
| LeastSquares.FitRecoversExactLine | graph_linear.py:49-62 | If the points lie exactly on a line and not all x are equal, the fit returns that line. |
| LeastSquares.SumLinear | graph_linear.py:57-58 | The sums `sum(...)` over the columns are linear in the summed term. |
| LeastSquares.SumNonnegative | graph_linear.py:58 | A sum of non-negative terms is non-negative. It is zero exactly when every term is. |
| GradientDescent.Step | graph_linear.py:72-76 | No contract of its own. It is the update for one point. `StepScalesResidual`, `StepFixedIff` and `StepContracts` state its properties. |
| GradientDescent.Sweep | graph_linear.py:71-77 | No contract of its own. It is the loop over the points, as a left fold of `Step`. `SweepFixedPoint` and `SweepConcat` state its properties, and `Fitter.GradientDescent` is proved equal to it. |
| GradientDescent.StepScalesResidual | graph_linear.py:72-76 | One update at a point multiplies that point's error by `1 - rate·(x² + 1)`. |
| GradientDescent.StepFixedIff | graph_linear.py:72-76 | For a nonzero rate, an update leaves the line unchanged exactly when the line passes through the point. |
| GradientDescent.StepContracts | graph_linear.py:72-76 | On the canvas, a rate in (0, 1/2) strictly shrinks the error at the point, by a factor in (0, 1). |
| GradientDescent.SweepFixedPoint | graph_linear.py:71-77 | A line through every point comes out of a sweep unchanged. |
| GradientDescent.SweepConcat | graph_linear.py:71-77 | Sweeping two lists in a row is sweeping their concatenation. Sweeps are therefore left folds. |
| GradientDescent.Fitter.constructor | graph_linear.py:17 | The counter starts at 0. |
| GradientDescent.Fitter.GradientDescent | graph_linear.py:64-77 | The counter goes up by exactly 1. The returned `(m, b)` is the left fold of the per-point update over the points in order, from the given `(m, b)` with the given rate. The rate defaults to 0.02. |
| Points.WithPoint | graph_linear.py:95-96 | After a click at `p`, the list contains `p` and only the old points and `p`. It grows by one exactly when `p` was new. The old list stays a prefix. Freedom from duplicates is kept. |
| Points.WithPointIdempotent | graph_linear.py:95-96 | A second click at the same point changes nothing. |
| Points.AddAllGrowth | graph_linear.py:80-96 | Over one frame's clicks, freedom from duplicates is kept. The list grows by at most one per click, and the old list stays a prefix. |
| Points.AddAllMembers | graph_linear.py:80-96 | After one frame's clicks, the list holds exactly the old points and the clicked ones. |
| Points.PointStore.constructor | graph_linear.py:125 | The list starts empty, so it has no duplicates. |
| Points.PointStore.Add | graph_linear.py:95-96 | In-place append behind a membership test. The new list is `WithPoint(old, p)` and has no duplicates. |
| Points.AsWrittenSurvivesIff | graph_linear.py:88-96 | The handler as written survives a frame exactly when every click except the last is at a point already in the list. When it survives, it leaves the same list as the intended handler. |
| Points.HandleClicksAsWritten | graph_linear.py:88-96 | No contract of its own. It is the handler as written, where the first append rebinds `data` to `None`. `AsWrittenSurvivesIff` and `AsWrittenCrashesOnRepeatedClick` state its behaviour. |
| Points.AsWrittenCrashesOnRepeatedClick | graph_linear.py:89-96 | Two left clicks in one pass at a new point crash the handler as written. Both clicks read the same cursor position. The intended handler appends the point once. |
| Points.AddAll | graph_linear.py:80-96 | No contract of its own. It is the intended handler's pass over a frame's left clicks. `AddAllGrowth`, `AddAllMembers` and `AddAllSamePoint` state its properties. |
| Points.AddAllSamePoint | graph_linear.py:89-96 | Clicks that all land on one point add that point at most once. This is the case the source produces, because every click of a pass reads the same cursor position. |
| FrameLoop.NextEstimate | graph_linear.py:126-136 | With at most one point, `(m, b)` is unchanged. Descent always gives a finite line. With two or more points, the closed form is non-finite exactly when all x are equal. |
| FrameLoop.ClosedFormIgnoresHistory | graph_linear.py:132-134 | With two or more points, the closed-form estimate does not depend on the previous `(m, b)`. |
| FrameLoop.ClosedFormIsBest | graph_linear.py:132-134 | A finite closed-form estimate has the least squared error of all lines. |
| FrameLoop.ClosedFormFindsExactLine | graph_linear.py:132-134 | Points on a line, not all with the same x, make the closed form show exactly that line. |
| FrameLoop.DescentSettlesOnExactLine | graph_linear.py:135-136 | Under descent, a line through every point is shown again in the next frame. |
| FrameLoop.Session.constructor | graph_linear.py:123-126 | Start-up: no points, `(m, b) = (0, 0)`, no iterations. |
| FrameLoop.Session.HandleClicks | graph_linear.py:79-98 | The frame's left clicks, in event order, leave `AddAll(old points, clicks)`. The session invariant is kept: no duplicates, all points on the canvas. |
| FrameLoop.Session.Refit | graph_linear.py:132-136 | The new estimate is `NextEstimate` of the strategy, the points and the old estimate. The counter rises by one exactly when descent runs, that is with two or more points. The invariant is kept, so `(m, b)` is `(0, 0)` until there are two points. |
| FrameLoop.Session.Frame | graph_linear.py:127-136 | One pass of the loop: the clicks, then the fit, with both effects stated. |
| Scenarios.DiagonalPair | graph_linear.py:49-62 | `(0.1, 0.1)` and `(0.9, 0.9)` fit `y = x`. |
| Scenarios.HorizontalPair | graph_linear.py:49-62 | `(0, 1)` and `(1, 1)` fit `y = 1`. |
| Scenarios.VerticalPair | graph_linear.py:58-60 | `(0, 0)` and `(0, 1)` make the slope's denominator zero. |
| Scenarios.OneSweep | graph_linear.py:71-77 | One sweep at rate 0.1 from `(0, 0)` over `(0.2, 0.3)`, `(0.8, 0.7)` gives `(0.059216, 0.09652)`. |
| Scenarios.SweepOrderMatters | graph_linear.py:71-77 | The sweep depends on the order of the points, unlike the closed form. |
| Scenarios.DescentSession | graph_linear.py:125-136 | Under descent, one click shows `(0, 0)`. A second click runs exactly one sweep, giving `(0.059216, 0.09652)`. |
| Scenarios.RepeatedClick | graph_linear.py:95-96 | Clicking a point again in a later frame adds nothing. No fit runs, so `(0, 0)` stays. |

## Left out

- Drawing, the window, fonts, frame pacing and the quit and escape events are left out. They are I/O only.
- The source polls events and uses `pygame.mouse.get_pressed()` to tell left clicks from right clicks. The model takes a frame's left clicks as a list. A right click does nothing in the source, so the model has no counterpart for it.
- The mapping of screen pixels onto the canvas with `np.interp` is left out. Clicks arrive already mapped, and `Session` requires them to lie in `[0, MAP]²`, which is where `np.interp` clamps them.
- Command-line parsing is left out. The `-g` / `-l` choice is the `Strategy` a `Session` is built with.
- Floating point is left out: rounding, overflow, and gradient descent diverging at large rates. The model computes in exact reals.
- NaN and infinity from the closed form are not modelled as numbers. A zero denominator is `Failed(ZeroVariance)`, shown as `NonFinite`.
- LeastSquares.Fit: on an empty list the source raises numpy's `IndexError`. The model returns `Failed(NoPoints)` instead. The frame loop never fits fewer than two points.
- GradientDescent.Fitter.GradientDescent: requires a non-empty list. On an empty list the source raises numpy's `IndexError` after bumping the counter, and that crash is not modelled. The frame loop only calls it with two or more points.
- Convergence of repeated sweeps to the least-squares line is not proved. Only the per-point contraction (`StepContracts`) and the fixed point are.
- FrameLoop.Session.HandleClicks: models the handler as intended, in which the name stays bound to the list for the whole pass. `Points.HandleClicksAsWritten` models the source's behaviour, see "Findings".
- FrameLoop.Session.HandleClicks: accepts any list of clicks, including several different points in one frame, which the source cannot produce. Each pass of the event loop reads the current mouse state with `pygame.mouse.get_pressed()` and `pygame.mouse.get_pos()` (graph_linear.py:89-90), not the event's own button and position. Nothing in the loop refreshes that state, so every left click of one call computes the same point. Even the repaired handler therefore appends at most one point per frame; `Points.AddAllSamePoint` states this for the clicks the source does produce.

## Findings

| source | as written | input that shows it | evidently intended | confidence | as-written member | corrected member |
|---|---|---|---|---|---|---|
| graph_linear.py:96 | `data = data.append(point)` rebinds the handler's `data` to `None`, because `list.append` returns `None`. The next left click in the same event batch evaluates `point not in None` and raises `TypeError`. | Two left clicks delivered in one frame, at a point not yet in the list. Both read the same cursor position. | Append in place and keep the name bound to the list for the whole pass, so the click is added and later clicks are tested against the list. | not executed | Points.AsWrittenCrashesOnRepeatedClick | FrameLoop.Session.HandleClicks |
