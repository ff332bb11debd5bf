/** The analysis as a whole (analyze_reel_template.py:26-213): from the
    per-frame intensities, the frame rate, the frame size, the contours'
    bounding rectangles of the representative frame and the recognised
    texts to the template document's values. Decoding, OCR, contour
    extraction, plotting and file output happen outside the model. */
module Reel {
  import opened Wrappers
  import opened Series
  import opened Fades
  import opened CurveFit
  import opened Layout
  import opened Naming

  /** `video_specs` (lines 174-179). */
  datatype VideoSpecs = VideoSpecs(duration: real, fps: real, width: nat, height: nat, totalFrames: nat)

  /** `fade_in` (lines 181-186): its `timing` is [0, duration]. */
  datatype FadeInPart = FadeInPart(duration: real, formula: Formula, kind: string)

  /** `fade_out` (lines 188-193): its `timing` is [start, duration of the
      video], with the start time kept here. */
  datatype FadeOutPart = FadeOutPart(duration: real, formula: FadeOutFormula, kind: string, start: real)

  /** The values `template.json` records (lines 171-213), without the date
      and the number formatting, plus the static frame and the sorted list
      of regions the script prints. */
  datatype Template = Template(
    sourceVideo: string,
    name: string,
    specs: VideoSpecs,
    fadeIn: FadeInPart,
    holdDuration: real,
    fadeOut: FadeOutPart,
    staticIndex: nat,
    texts: seq<string>,
    imageRegions: seq<Rect>,
    displayedRegions: seq<Rect>,
    orientation: string)

  /** The fade-in fit the script keeps: the last successful candidate on the
      fade-in frames against their relative time axis (lines 53-54, 70-74).
      Every candidate has at least two parameters and the solver refuses
      fewer data points than parameters, so a fit exists only when the
      fade-in spans at least two frames. */
  function FadeInFit(a: FadeAnalysis, fps: real, solver: Solver): (r: Option<Fit>)
    requires a.fadeInEnd <= |a.norm| && fps > 0.0 && Admissible(solver)
    ensures r == if solver(Quadratic, Times(a.fadeInEnd, fps), FadeInFrames(a)).Some?
      then FitCurve(Times(a.fadeInEnd, fps), FadeInFrames(a), Quadratic, solver)
      else FitCurve(Times(a.fadeInEnd, fps), FadeInFrames(a), Linear, solver)
    ensures r.Some? ==> 2 <= a.fadeInEnd
  {
    LastSuccessOfAttempts(Times(a.fadeInEnd, fps), FadeInFrames(a), solver);
    LastSuccess(Attempts(Times(a.fadeInEnd, fps), FadeInFrames(a), solver))
  }

  /** The runs the script completes: at least one frame, a frame that is not
      black, a positive frame rate, and a fade-in fit that succeeded (line 76
      takes `len` of it). An all-black video normalises to NaN at line 48,
      and `curve_fit` raises on it, so it fails at line 76 as well. A run
      that completes has a fade-in of at least two frames, so its first two
      brightness differences are rises of at least 0.01. */
  ghost predicate CanAnalyze(intensity: seq<real>, fps: real, solver: Solver): (ok: bool)
    ensures ok ==> |intensity| >= 3 && Max(intensity) > 0.0 && fps > 0.0
    ensures ok ==> 2 <= AnalyzeFades(intensity, fps).fadeInEnd
    ensures ok ==> forall j :: 0 <= j < 2 ==>
      Diff(AnalyzeFades(intensity, fps).norm)[j] >= RiseThreshold
  {
    |intensity| >= 1 && Max(intensity) > 0.0 && fps > 0.0 && Admissible(solver) &&
    FadeInFit(AnalyzeFades(intensity, fps), fps, solver).Some?
  }

  /** A video of constant brightness ends its fade-in at frame 0, so the
      fade-in segment is empty, both fits raise and the script stops at
      line 76. */
  lemma ConstantBrightnessCannotBeAnalyzed(intensity: seq<real>, fps: real, solver: Solver)
    requires |intensity| >= 2 && fps > 0.0 && intensity[0] > 0.0
    requires forall i :: 0 <= i < |intensity| ==> intensity[i] == intensity[0]
    ensures !CanAnalyze(intensity, fps, solver)
  {
    ConstantBrightness(intensity, fps);
  }

  /** The fade-in section the script records: the duration, and the
      formula and type label of the kept fit, whose coefficients are the
      solver's. */
  function FadeInSection(a: FadeAnalysis, fps: real, solver: Solver): (p: FadeInPart)
    requires a.fadeInEnd <= |a.norm| && fps > 0.0 && Admissible(solver)
    requires FadeInFit(a, fps, solver).Some?
    ensures var fit := FadeInFit(a, fps, solver).value;
      fit.coeffs == solver(fit.shape, Times(a.fadeInEnd, fps), FadeInFrames(a)).value &&
      p.duration == a.durations.fadeIn &&
      p.formula == FormulaOf(fit.coeffs) &&
      (p.kind == "quadratic" <==> fit.shape == Quadratic) &&
      (p.kind == "linear" <==> fit.shape == Linear) &&
      forall x :: EvalFormula(p.formula, x) == Evaluate(fit.shape, fit.coeffs, x)
  {
    var best := FadeInFit(a, fps, solver);
    FadeInTypeNamesShape(best);
    forall x ensures EvalFormula(FormulaOf(best.value.coeffs), x) ==
      Evaluate(best.value.shape, best.value.coeffs, x)
    {
      FormulaDescribesFit(best.value, x);
    }
    FadeInPart(a.durations.fadeIn, FormulaOf(best.value.coeffs), FadeInType(best))
  }

  /** Lines 53-54 and 68-77: fit both candidates to the fade-in frames,
      keep the last success, and record its formula and type label. */
  method FitFadeIn(a: FadeAnalysis, fps: real, solver: Solver) returns (p: FadeInPart)
    requires a.fadeInEnd <= |a.norm| && fps > 0.0 && Admissible(solver)
    requires FadeInFit(a, fps, solver).Some?
    ensures p == FadeInSection(a, fps, solver)
  {
    var inFrames := FadeInFrames(a);
    var best := SelectFit(Times(|inFrames|, fps), inFrames, solver);
    p := FadeInPart(a.durations.fadeIn, FormulaOf(best.value.coeffs), FadeInType(best));
  }

  /** The fade-out section the script records: the duration, the formula of
      the fade-out fit when there is one, the label, and the start time. */
  function FadeOutSection(a: FadeAnalysis, fps: real, solver: Solver): (p: FadeOutPart)
    requires a.fadeOutStart < |a.norm| && fps > 0.0 && Admissible(solver)
    ensures var out := FadeOutFit(Times(|a.norm| - a.fadeOutStart, fps), FadeOutFrames(a),
                                  a.durations.fadeOut, solver);
      p.duration == a.durations.fadeOut &&
      (p.formula.FadeOutCurve? <==> out.Some?) &&
      (out.Some? ==> p.formula.decay == FormulaOf(out.value.coeffs)) &&
      p.kind == FadeOutType(p.duration) &&
      (p.kind == "minimal" <==> p.duration < MinFadeOut) &&
      (p.formula.FadeOutCurve? ==> p.duration > MinFadeOut) &&
      p.start == a.durations.duration - a.durations.fadeOut
  {
    var out := FadeOutFit(Times(|a.norm| - a.fadeOutStart, fps), FadeOutFrames(a),
                          a.durations.fadeOut, solver);
    var formula := if out.Some? then FadeOutCurve(FormulaOf(out.value.coeffs)) else NoSignificantFadeOut;
    FadeOutPart(a.durations.fadeOut, formula, FadeOutType(a.durations.fadeOut),
                a.durations.duration - a.durations.fadeOut)
  }

  /** Lines 60-62 and 79-96: fit the fade-out segment and record the
      section. */
  method FitFadeOutSection(a: FadeAnalysis, fps: real, solver: Solver) returns (p: FadeOutPart)
    requires a.fadeOutStart < |a.norm| && fps > 0.0 && Admissible(solver)
    ensures p == FadeOutSection(a, fps, solver)
  {
    var d := a.durations;
    var outFrames := FadeOutFrames(a);
    var formula := FitFadeOut(Times(|outFrames|, fps), outFrames, d.fadeOut, solver);
    p := FadeOutPart(d.fadeOut, formula, FadeOutType(d.fadeOut), d.duration - d.fadeOut);
  }

  /** Lines 53-213 once the fade analysis `a` is known: fit the fades, pick
      the static frame, filter and order the regions, fill in the template. */
  method BuildTemplate(
    videoPath: string, a: FadeAnalysis, fps: real, width: nat, height: nat,
    contours: seq<Rect>, texts: seq<string>, solver: Solver)
    returns (t: Template)
    requires a.fadeInEnd < |a.norm| && a.fadeOutStart < |a.norm| && fps > 0.0
    requires a.durations == FadeDurations(|a.norm|, a.fadeInEnd, a.fadeOutStart, fps)
    requires Admissible(solver) && FadeInFit(a, fps, solver).Some?
    ensures t.sourceVideo == videoPath && t.name == VideoName(videoPath)
    ensures t.specs == VideoSpecs(Seconds(|a.norm|, fps), fps, width, height, |a.norm|)
    ensures t.fadeIn == FadeInSection(a, fps, solver)
    ensures t.holdDuration == a.durations.hold
    ensures t.fadeOut == FadeOutSection(a, fps, solver)
    ensures t.staticIndex == StaticIndex(a.fadeInEnd, a.fadeOutStart)
    ensures t.imageRegions == KeepRegions(contours, width, height)
    ensures t.displayedRegions == SortByPosition(t.imageRegions)
    ensures t.orientation == Orientation(width, height)
    ensures t.texts == texts
  {
    var d := a.durations;

    var fadeIn := FitFadeIn(a, fps, solver);

    var fadeOut := FitFadeOutSection(a, fps, solver);

    var staticIdx := StaticIndex(a.fadeInEnd, a.fadeOutStart);

    var positions := FilterRegions(contours, width, height);

    t := Template(
      videoPath, VideoName(videoPath),
      VideoSpecs(d.duration, fps, width, height, |a.norm|),
      fadeIn, d.hold, fadeOut,
      staticIdx,
      texts, positions, SortByPosition(positions),
      Orientation(width, height));
  }

  /** The whole script: the fade analysis of lines 47-64, the fits of lines
      68-96, the static frame of line 110, the regions of lines 132-139 and
      the template of lines 171-213. */
  method AnalyzeReel(
    videoPath: string, intensity: seq<real>, fps: real, width: nat, height: nat,
    contours: seq<Rect>, texts: seq<string>, solver: Solver)
    returns (t: Template)
    requires CanAnalyze(intensity, fps, solver)
    ensures t.sourceVideo == videoPath && t.name == VideoName(videoPath)
    ensures t.specs == VideoSpecs(Seconds(|intensity|, fps), fps, width, height, |intensity|)
    ensures var a := AnalyzeFades(intensity, fps);
      t.fadeIn == FadeInSection(a, fps, solver) &&
      t.holdDuration == a.durations.hold &&
      t.fadeOut == FadeOutSection(a, fps, solver) &&
      t.staticIndex == StaticIndex(a.fadeInEnd, a.fadeOutStart) &&
      (t.holdDuration < 0.0 <==> a.fadeOutStart < a.fadeInEnd)
    ensures t.fadeIn.duration + t.holdDuration + t.fadeOut.duration == t.specs.duration
    ensures t.fadeOut.duration >= Seconds(1, fps)
    ensures t.fadeOut.start == t.fadeIn.duration + t.holdDuration
    ensures t.staticIndex < |intensity|
    ensures t.imageRegions == KeepRegions(contours, width, height)
    ensures t.displayedRegions == SortByPosition(t.imageRegions)
    ensures SortedByPosition(t.displayedRegions)
    ensures multiset(t.displayedRegions) == multiset(t.imageRegions)
    ensures t.orientation == Orientation(width, height)
    ensures t.texts == texts
  {
    var a := AnalyzeFades(intensity, fps);
    t := BuildTemplate(videoPath, a, fps, width, height, contours, texts, solver);
  }
}
