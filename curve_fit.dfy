/** Fitting the fade curves (analyze_reel_template.py:13-24, 68-96): the two
    candidate shapes, the solver as an oracle, the selection of the last
    successful candidate, and the formula and type labels derived from it. */
module CurveFit {
  import opened Wrappers

  /** The two candidate curves: `linear_fade` and `quadratic_fade`. */
  datatype Shape = Linear | Quadratic

  /** Number of parameters each candidate takes after `t`. */
  function Arity(shape: Shape): (k: nat)
    ensures 2 <= k <= 3
  {
    match shape
    case Linear => 2
    case Quadratic => 3
  }

  /** `linear_fade(t, a, b)`: alpha = a*t + b, a line through (0, b) with
      slope a. */
  function LinearFade(t: real, a: real, b: real): (alpha: real)
    ensures t == 0.0 ==> alpha == b
    ensures alpha - b == a * t
  {
    a * t + b
  }

  /** `quadratic_fade(t, a, b, c)`: alpha = a*t^2 + b*t + c, a parabola
      through (0, c); with a = 0 it is the line of slope b. */
  function QuadraticFade(t: real, a: real, b: real, c: real): (alpha: real)
    ensures t == 0.0 ==> alpha == c
    ensures alpha - c == (a * t + b) * t
    ensures a == 0.0 ==> alpha == LinearFade(t, b, c)
  {
    a * t * t + b * t + c
  }

  /** `func(t, *popt)` for a parameter vector of the shape's arity. */
  function Evaluate(shape: Shape, p: seq<real>, t: real): real
    requires |p| == Arity(shape)
  {
    match shape
    case Linear => LinearFade(t, p[0], p[1])
    case Quadratic => QuadraticFade(t, p[0], p[1], p[2])
  }

  /** scipy's `curve_fit` for one candidate, on a time axis and a value
      series: the fitted parameter vector, or None where it raises. */
  type Solver = (Shape, seq<real>, seq<real>) -> Option<seq<real>>

  /** What the model relies on from `curve_fit`: a successful fit returns one
      parameter per model parameter, and a fit with fewer data points than
      parameters raises (the unbounded problem uses the 'lm' method, which
      refuses it). */
  ghost predicate Admissible(solver: Solver)
  {
    forall shape, times, values ::
      solver(shape, times, values).Some? ==>
        |solver(shape, times, values).value| == Arity(shape) && Arity(shape) <= |values|
  }

  /** A successful fit: which curve, and `popt`. */
  datatype Fit = Fit(shape: Shape, coeffs: seq<real>)

  /** `fit_curve` (lines 19-24): `(func, popt)` on success, `(None, None)`
      when the solver raises. */
  function FitCurve(times: seq<real>, values: seq<real>, shape: Shape, solver: Solver): (r: Option<Fit>)
    requires Admissible(solver)
    ensures r.None? <==> solver(shape, times, values).None?
    ensures r.Some? ==> r.value.coeffs == solver(shape, times, values).value
    ensures r.Some? ==>
      r.value.shape == shape && |r.value.coeffs| == Arity(shape) && Arity(shape) <= |values|
  {
    match solver(shape, times, values)
    case None => None
    case Some(p) => Some(Fit(shape, p))
  }

  /** The candidates in the order the loops of lines 71 and 83 try them. */
  const Candidates: seq<Shape> := [Linear, Quadratic]

  /** The outcome of fitting each candidate, in attempt order. */
  function Attempts(times: seq<real>, values: seq<real>, solver: Solver): (xs: seq<Option<Fit>>)
    requires Admissible(solver)
    ensures |xs| == |Candidates|
    ensures forall i :: 0 <= i < |xs| ==> xs[i] == FitCurve(times, values, Candidates[i], solver)
  {
    [FitCurve(times, values, Linear, solver), FitCurve(times, values, Quadratic, solver)]
  }

  /** Reference definition of the selection policy: the last successful
      attempt, or None when every attempt failed. Nothing compares the
      quality of the fits. */
  function LastSuccess(xs: seq<Option<Fit>>): Option<Fit>
  {
    LastSuccessIn(xs, |xs|)
  }

  /** The last successful attempt among the first k. */
  function LastSuccessIn(xs: seq<Option<Fit>>, k: nat): (r: Option<Fit>)
    requires k <= |xs|
    ensures r.None? <==> forall i :: 0 <= i < k ==> xs[i].None?
    ensures r.Some? ==>
      exists i :: 0 <= i < k && xs[i] == r && forall j :: i < j < k ==> xs[j].None?
  {
    if k == 0 then None
    else if xs[k - 1].Some? then xs[k - 1]
    else LastSuccessIn(xs, k - 1)
  }

  /** With the two candidates, the last success is the quadratic fit when
      it succeeded, otherwise the linear fit (itself possibly None). */
  lemma LastSuccessOfAttempts(times: seq<real>, values: seq<real>, solver: Solver)
    requires Admissible(solver)
    ensures LastSuccess(Attempts(times, values, solver)) ==
      if solver(Quadratic, times, values).Some?
      then FitCurve(times, values, Quadratic, solver)
      else FitCurve(times, values, Linear, solver)
  {
    var xs := Attempts(times, values, solver);
    assert xs[1] == FitCurve(times, values, Quadratic, solver);
    assert LastSuccessIn(xs, 1) == xs[0];
  }

  /** Lines 70-74 and 82-86: try the candidates in order and keep the last
      one whose fit succeeded. A successful quadratic fit always replaces a
      successful linear one; the result is None only if both failed. */
  method SelectFit(times: seq<real>, values: seq<real>, solver: Solver) returns (best: Option<Fit>)
    requires Admissible(solver)
    ensures best == LastSuccess(Attempts(times, values, solver))
    ensures best == if solver(Quadratic, times, values).Some?
      then FitCurve(times, values, Quadratic, solver)
      else FitCurve(times, values, Linear, solver)
    ensures best.None? <==>
      solver(Linear, times, values).None? && solver(Quadratic, times, values).None?
    ensures best.Some? ==> (|best.value.coeffs| == 3 <==> best.value.shape == Quadratic)
  {
    ghost var attempts := Attempts(times, values, solver);
    best := None;
    var i := 0;
    while i < |Candidates|
      invariant 0 <= i <= |Candidates|
      invariant best == LastSuccessIn(attempts, i)
    {
      var fit := FitCurve(times, values, Candidates[i], solver);
      if fit.Some? {
        best := fit;
      }
      i := i + 1;
    }
  }

  /** The formula text of lines 76 and 89 without its number formatting:
      three coefficients give the quadratic template, otherwise the first
      two fill the linear one. */
  datatype Formula =
    | LinearFormula(a: real, b: real)
    | QuadraticFormula(a: real, b: real, c: real)

  function FormulaOf(p: seq<real>): (f: Formula)
    requires |p| >= 2
    ensures f.QuadraticFormula? <==> |p| == 3
    ensures f.a == p[0] && f.b == p[1]
    ensures f.QuadraticFormula? ==> f.c == p[2]
  {
    if |p| == 3 then QuadraticFormula(p[0], p[1], p[2]) else LinearFormula(p[0], p[1])
  }

  /** The curve a formula describes. */
  function EvalFormula(f: Formula, t: real): real
  {
    match f
    case LinearFormula(a, b) => LinearFade(t, a, b)
    case QuadraticFormula(a, b, c) => QuadraticFade(t, a, b, c)
  }

  /** The printed formula describes exactly the curve that was fitted, and
      is quadratic exactly when the quadratic candidate was kept. */
  lemma FormulaDescribesFit(fit: Fit, t: real)
    requires |fit.coeffs| == Arity(fit.shape)
    ensures EvalFormula(FormulaOf(fit.coeffs), t) == Evaluate(fit.shape, fit.coeffs, t)
    ensures FormulaOf(fit.coeffs).QuadraticFormula? <==> fit.shape == Quadratic
  {
  }

  /** `"quadratic" if len(best_popt_in) == 3 else "linear"` (line 184). The
      source fails on `len(None)` when no fade-in fit succeeded. */
  function FadeInType(best: Option<Fit>): (kind: string)
    requires best.Some?
    ensures kind == "quadratic" <==> |best.value.coeffs| == 3
    ensures kind == "linear" <==> |best.value.coeffs| != 3
  {
    if |best.value.coeffs| == 3 then "quadratic" else "linear"
  }

  /** The type label names the shape of the kept fit. */
  lemma FadeInTypeNamesShape(best: Option<Fit>)
    requires best.Some? && |best.value.coeffs| == Arity(best.value.shape)
    ensures FadeInType(best) == "quadratic" <==> best.value.shape == Quadratic
    ensures FadeInType(best) == "linear" <==> best.value.shape == Linear
  {
  }

  /** A fade-out shorter than this (seconds) is "minimal". */
  const MinFadeOut: real := 0.1

  /** `1 - norm_intensity[start:] / norm_intensity[start]` (line 81). When
      the first frame of the segment is black the division yields NaN, which
      `curve_fit` refuses (it raises on non-finite data); None stands for
      that series. */
  function FadeOutAlphas(frames: seq<real>): (r: Option<seq<real>>)
    requires |frames| >= 1
    ensures r.Some? <==> frames[0] != 0.0
    ensures r.Some? ==> |r.value| == |frames| && r.value[0] == 0.0
    ensures r.Some? ==> forall i :: 0 <= i < |frames| ==> frames[i] == frames[0] * (1.0 - r.value[i])
  {
    if frames[0] == 0.0 then None
    else
      var alphas := seq(|frames|, i requires 0 <= i < |frames| => 1.0 - frames[i] / frames[0]);
      assert forall i :: 0 <= i < |frames| ==> alphas[i] == 1.0 - frames[i] / frames[0];
      Some(alphas)
  }

  /** The fade-out formula: a fitted decay, shown as
      `alpha = 1 - (fitted curve)`, or "No significant fade-out detected". */
  datatype FadeOutFormula = NoSignificantFadeOut | FadeOutCurve(decay: Formula)

  /** The remaining brightness a detected fade-out formula describes. */
  function EvalFadeOut(f: FadeOutFormula, t: real): real
    requires f.FadeOutCurve?
  {
    1.0 - EvalFormula(f.decay, t)
  }

  /** Reference definition of the fade-out fit: attempted only for a
      fade-out longer than 0.1 s, on the decay series; the last successful
      candidate, as for the fade-in. */
  function FadeOutFit(times: seq<real>, frames: seq<real>, duration: real, solver: Solver): (r: Option<Fit>)
    requires |frames| >= 1 && Admissible(solver)
    ensures r.Some? ==> duration > MinFadeOut && frames[0] != 0.0
    ensures duration > MinFadeOut && frames[0] != 0.0 ==>
      (r.None? <==> solver(Linear, times, FadeOutAlphas(frames).value).None? &&
                    solver(Quadratic, times, FadeOutAlphas(frames).value).None?)
    ensures r.Some? ==> |r.value.coeffs| == Arity(r.value.shape)
    ensures duration > MinFadeOut && frames[0] != 0.0 ==>
      r == if solver(Quadratic, times, FadeOutAlphas(frames).value).Some?
        then FitCurve(times, FadeOutAlphas(frames).value, Quadratic, solver)
        else FitCurve(times, FadeOutAlphas(frames).value, Linear, solver)
  {
    if duration > MinFadeOut && FadeOutAlphas(frames).Some?
    then
      LastSuccessOfAttempts(times, FadeOutAlphas(frames).value, solver);
      LastSuccess(Attempts(times, FadeOutAlphas(frames).value, solver))
    else None
  }

  /** Lines 79-96. */
  method FitFadeOut(times: seq<real>, frames: seq<real>, duration: real, solver: Solver)
    returns (f: FadeOutFormula)
    requires |frames| >= 1 && Admissible(solver)
    ensures f.FadeOutCurve? ==> duration > MinFadeOut && frames[0] != 0.0
    ensures f.FadeOutCurve? <==> FadeOutFit(times, frames, duration, solver).Some?
    ensures f.FadeOutCurve? ==> f.decay == FormulaOf(FadeOutFit(times, frames, duration, solver).value.coeffs)
    ensures f.FadeOutCurve? ==> forall t ::
      EvalFadeOut(f, t) == 1.0 - Evaluate(FadeOutFit(times, frames, duration, solver).value.shape,
                                          FadeOutFit(times, frames, duration, solver).value.coeffs, t)
  {
    f := NoSignificantFadeOut;
    if duration > MinFadeOut {
      var alphas := FadeOutAlphas(frames);
      if alphas.Some? {
        var best := SelectFit(times, alphas.value, solver);
        if best.Some? {
          f := FadeOutCurve(FormulaOf(best.value.coeffs));
          forall t ensures EvalFadeOut(f, t) == 1.0 - Evaluate(best.value.shape, best.value.coeffs, t) {
            FormulaDescribesFit(best.value, t);
          }
        }
      }
    }
  }

  /** `"minimal" if fade_out_duration < 0.1 else "detected"` (lines 191,
      209). */
  function FadeOutType(duration: real): (kind: string)
    ensures kind == "minimal" <==> duration < MinFadeOut
    ensures kind == "detected" <==> duration >= MinFadeOut
  {
    if duration < MinFadeOut then "minimal" else "detected"
  }

  /** The label and the formula use different comparisons with 0.1: away
      from 0.1 a formula can only exist when the label says "detected", but
      a fade-out of exactly 0.1 s (3 frames at 30 fps) is labelled
      "detected" while no formula is ever attempted for it. */
  lemma FadeOutLabelVersusFormula(times: seq<real>, frames: seq<real>, duration: real, solver: Solver)
    requires |frames| >= 1 && Admissible(solver)
    ensures FadeOutFit(times, frames, duration, solver).Some? ==> FadeOutType(duration) == "detected"
    ensures FadeOutType(duration) == "minimal" ==> FadeOutFit(times, frames, duration, solver).None?
    ensures duration == MinFadeOut ==>
      FadeOutType(duration) == "detected" && FadeOutFit(times, frames, duration, solver).None?
  {
  }
}
