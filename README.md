# Reel template analysis: the decision rules, verified

`analyze_reel_template.py` reads a short vertical video and turns it into a
reusable template: how long the fade-in, hold and fade-out last, which curve
the fades follow, which texts appear, and where the large image regions are.
Most of the script hands work to libraries: video decoding, `curve_fit`,
EasyOCR, OpenCV and matplotlib. This project models the rules the script
defines itself. Each rule is a Dafny function or method, and its behaviour is
proved.

- **Fade boundaries** (`Series`, `Fades`). The per-frame intensities are
  divided by their maximum and differenced.
  - The fade-in ends at the first difference below 0.01, or at
    `int(0.2 * n)` when there is none.
  - The fade-out starts at `n - k`, where `k` is the first index of the
    flipped differences below -0.01. With no such difference it starts at
    `int(0.8 * n)`. The result is clamped to `n - 1`.
  - The durations follow from the two indices. The hold is whatever time is
    left, and it is not clamped.
- **Representative frame** (`Fades.StaticIndex`). The midpoint of the two
  boundaries, with `int()` truncating toward zero.
- **Curve selection** (`CurveFit`). The linear and then the quadratic
  candidate are fitted, and the last successful fit is kept. The formula and
  the "quadratic"/"linear" type depend only on how many coefficients were
  kept. The fade-out is fitted only when it lasts more than 0.1 s, and it is
  labelled "minimal" when it lasts less than 0.1 s.
- **Region filter and display order** (`Layout`). A bounding rectangle is
  kept when its width is more than a quarter of the frame width and its
  height is more than a quarter of the frame height. The kept rectangles are
  listed sorted by `(y, x)`.
- **Names and labels** (`Naming`). The output name is the path with ".mp4",
  ".mov" and ".avi" removed. The frame is "portrait" when it is taller than it
  is wide, otherwise "landscape".
- **The whole run** (`Reel`). `Reel.AnalyzeReel` ties the rules together
  into the values that `template.json` records, section by section:
  - the video specs;
  - the fade-in and fade-out sections, each stated by its own function
    (`Reel.FadeInSection`, `Reel.FadeOutSection`);
  - the hold;
  - the static frame;
  - the regions, the orientation and the texts.

Intensities and times are Dafny `real`s, so the model uses exact arithmetic
where the script uses floats. `curve_fit` is an oracle: a function parameter
of type `Solver` that returns `None` where the library raises. The model
relies on two facts about it (`CurveFit.Admissible`). A successful fit
returns one coefficient per model parameter. A fit with fewer data points
than parameters fails, because scipy's unbounded least-squares method refuses
it. The intensity series, the frame rate, the frame size, the contours'
bounding rectangles and the OCR texts are inputs.

Where the code behaves differently from what a first reading of it suggests,
the model follows the code:
- **Constant brightness.** One might expect both fades to fall back to
  20% / 80% of the frames. In the code a difference of 0 is below 0.01, so
  the fade-in ends at frame 0. Only the fade-out takes its fallback
  (`Fades.ConstantBrightness`). The fade-in segment is then empty, so both
  fits raise, and the script stops at line 76 on `len(None)`. A video of
  constant brightness is never analysed to the end
  (`Reel.ConstantBrightnessCannotBeAnalyzed`).
- **A fade-in of at least two frames.** Every candidate curve has at least
  two parameters, and the solver refuses fewer data points than
  parameters. So a run completes only if the fade-in spans at least two
  frames, which means the first two brightness differences are rises of at
  least 0.01 (`Reel.CanAnalyze`). Any other video stops at line 76.
- **Rounding of the static index.** The midpoint is easily read as a floor. The
  code uses `int()` of a true division, which truncates toward zero. The two differ
  when the fades overlap (`Fades.StaticIndexTruncatesTowardZero`).
- **Range of the static index.** It might seem able to fall outside the
  video. It cannot: both boundaries are always frame indices, and the
  index lies between them (`Fades.StaticIndexInRange`).
- **Fade-out start.** The index found in the flipped differences
  is meant to be mapped back to a forward index. In the code, `n - k` lands
  two frames after the last dropping difference (`Fades.FadeOutStart`). So
  the fitted fade-out segment begins after the last detected drop.

## Model

| member | source | states |
|---|---|---|
| Series.Max | analyze_reel_template.py:47 | the maximum is at least every intensity and equals one of them |
| Series.MaxOfPrefix | analyze_reel_template.py:47 | the maximum of the first k intensities bounds them and is one of them |
| Series.Normalize | analyze_reel_template.py:48 | each normalised value times the maximum gives back the intensity |
| Series.NormalizedPeak | analyze_reel_template.py:46-48 | normalising by the maximum puts every value at or below 1, and at least one value is exactly 1 |
| Series.Diff | analyze_reel_template.py:51 | `np.diff` has one element fewer, and each value plus its difference is the next value |
| Series.DiffTelescopes | analyze_reel_template.py:51 | the first value plus the first k differences gives value k, so differencing loses only the start |
| Series.Reverse | analyze_reel_template.py:58 | `np.flip` puts element \|s\|-1-i at position i |
| Series.FirstBelow | analyze_reel_template.py:52 | `np.where(s < t)[0][0]` exists iff `np.any(s < t)`, is below t, and every earlier element is at least t |
| Series.FirstBelowFrom | analyze_reel_template.py:52 | the first index at or after a start whose value is below t, with nothing earlier below t |
| Series.LastBelow | analyze_reel_template.py:58 | reference for the backward search: the last index below t, with nothing later below t |
| Series.LastBelowBefore | analyze_reel_template.py:58 | the last index before a bound whose value is below t |
| Series.FirstBelowReversedIsLast | analyze_reel_template.py:58 | the first index k of the flipped series below t corresponds to the last index \|s\|-1-k of the series below t |
| Fades.FadeInFallback | analyze_reel_template.py:52 | `int(0.2 * n)` equals n div 5 |
| Fades.FadeOutFallback | analyze_reel_template.py:58 | `int(0.8 * n)` equals 4n div 5 |
| Fades.FadeInEnd | analyze_reel_template.py:51-52 | the fade-in end is the least index whose difference is below 0.01, so all earlier differences are at least 0.01; with none it is n div 5; it is always a frame index |
| Fades.FadeOutStart | analyze_reel_template.py:58-59 | the fade-out start is min(j+2, n-1) for the last difference j below -0.01, or 4n div 5 with none; it is always at most n-1 |
| Fades.FadeDurations | analyze_reel_template.py:35-64 | fade-in + hold + fade-out equal the duration exactly; the hold is (start - end)/fps, negative iff the fades overlap; the fade-out lasts at least 1/fps |
| Fades.AnalyzeFades | analyze_reel_template.py:47-64 | both boundaries are frame indices, and the durations are those of FadeDurations for them |
| Fades.Times | analyze_reel_template.py:54 | `np.arange(k)/fps` has k entries and entry i times fps is i |
| Fades.FadeInFrames | analyze_reel_template.py:53 | the fade-in segment is the first fade-in-end normalised values |
| Fades.FadeOutFrames | analyze_reel_template.py:60 | the fade-out segment is the normalised values from the start to the end, n - start of them |
| Fades.TruncHalf | analyze_reel_template.py:110 | `int(d/2)` truncates toward zero: for d >= 0 it is within 1/2 below d/2, for d < 0 within 1/2 above |
| Fades.StaticIndex | analyze_reel_template.py:110 | the static index is the midpoint of the two boundaries rounded toward the fade-in end, and lies between them in either order |
| Fades.StaticIndexTruncatesTowardZero | analyze_reel_template.py:110 | `int(-1.5)` is -1, so with boundaries 3 and 0 the index is 2, the boundary side of the midpoint |
| Fades.StaticIndexInRange | analyze_reel_template.py:110-111 | the static index is always a valid frame index |
| Fades.ConstantBrightness | analyze_reel_template.py:51-59 | for constant brightness the fade-in ends at frame 0 and the fade-out starts at 4n div 5 (the run then stops at line 76, see Reel.ConstantBrightnessCannotBeAnalyzed) |
| Fades.FlatBoundaries | analyze_reel_template.py:51-59 | on a flat normalised series the boundaries are 0 and 4n div 5 |
| Fades.RampFadeIn | analyze_reel_template.py:47-52 | a linear ramp from black to full over N <= 100 frames followed by constant frames gives a fade-in end of exactly N |
| Fades.FadeInEndAt | analyze_reel_template.py:52 | when difference k is the first below 0.01, the fade-in end is k |
| CurveFit.LinearFade | analyze_reel_template.py:13-14 | `linear_fade` is the line through (0, b) with slope a |
| CurveFit.QuadraticFade | analyze_reel_template.py:16-17 | `quadratic_fade` is the parabola through (0, c), in Horner form, and is the line of slope b when a = 0 |
| CurveFit.FitCurve | analyze_reel_template.py:19-24 | `fit_curve` gives no fit exactly when the solver raises; otherwise it gives the candidate together with the solver's `popt`, which has the candidate's arity |
| CurveFit.Attempts | analyze_reel_template.py:71-72 | one attempt per candidate, linear then quadratic |
| CurveFit.LastSuccessIn | analyze_reel_template.py:70-74 | the kept fit is absent iff every attempt failed; otherwise it is an attempt after which every attempt failed |
| CurveFit.LastSuccessOfAttempts | analyze_reel_template.py:70-74 | over the two candidates, the last success is the quadratic fit when it succeeded, otherwise the linear attempt |
| CurveFit.SelectFit | analyze_reel_template.py:70-74 | the loop keeps the last successful attempt: the quadratic fit when it succeeded, otherwise the linear one; none only if both failed; three coefficients iff quadratic |
| CurveFit.FormulaOf | analyze_reel_template.py:76 | the formula is quadratic iff there are three coefficients, and its coefficients are those of the vector, in order |
| CurveFit.FormulaDescribesFit | analyze_reel_template.py:76 | the formula chosen by coefficient count evaluates to the fitted curve, and is quadratic iff the quadratic candidate was kept |
| CurveFit.FadeInType | analyze_reel_template.py:184 | the fade-in type is "quadratic" iff the kept fit has three coefficients, and "linear" otherwise |
| CurveFit.FadeInTypeNamesShape | analyze_reel_template.py:184 | the fade-in type is "quadratic" iff the kept fit is quadratic, and "linear" iff it is linear |
| CurveFit.FadeOutAlphas | analyze_reel_template.py:81 | the decay series exists iff the first fade-out value is non-zero; it starts at 0 and scales back to the segment |
| CurveFit.FadeOutFit | analyze_reel_template.py:79-96 | a fade-out fit exists only for a fade-out longer than 0.1 s that does not start black; then it is the quadratic fit of the decay series when that succeeded, otherwise the linear attempt, and it is absent iff both fail; a fit carries one coefficient per parameter |
| CurveFit.FitFadeOut | analyze_reel_template.py:79-96 | a fade-out formula exists only for a fade-out longer than 0.1 s that does not start black, exactly when a fit succeeded, and it describes 1 minus the fitted curve |
| CurveFit.FadeOutType | analyze_reel_template.py:191 | the fade-out label is "minimal" iff the fade-out lasts less than 0.1 s, and "detected" otherwise |
| CurveFit.FadeOutLabelVersusFormula | analyze_reel_template.py:191 | a formula implies the "detected" label and "minimal" implies no formula; at exactly 0.1 s the label is "detected" but no formula is attempted |
| Layout.IsImageRegion | analyze_reel_template.py:135 | the true-division test keeps a rectangle iff 4w > W and 4h > H |
| Layout.QuarterIsExcludedHalfIsKept | analyze_reel_template.py:135 | a rectangle of exactly a quarter of the frame is rejected, and one of half the frame is kept |
| Layout.KeepRegions | analyze_reel_template.py:132-136 | a rectangle is kept iff it is an input rectangle that passes the strict size test |
| Layout.KeepRegionsAppend | analyze_reel_template.py:133-136 | filtering distributes over concatenation, so kept rectangles stay in contour order |
| Layout.FilterRegions | analyze_reel_template.py:132-136 | the loop's list is exactly the filter of the contours, in order, with the same members |
| Layout.KeyAtMost | analyze_reel_template.py:139 | the `(y, x)` key order: a different top edge decides, and on equal top edges the left edge decides |
| Layout.Insert | analyze_reel_template.py:139 | inserting into a list sorted by (y, x) keeps it sorted and adds exactly one element |
| Layout.SortByPosition | analyze_reel_template.py:139 | the displayed list is sorted nondecreasing by (y, x) and is a permutation of the kept list |
| Naming.RemoveAll | analyze_reel_template.py:28 | `str.replace(pat, '')` never lengthens the string |
| Naming.RemoveAllLeftmost | analyze_reel_template.py:28 | the string is kept up to the leftmost occurrence, that occurrence is dropped, and the pass continues after it; with RemoveAllAbsent this fixes the result of every replace |
| Naming.RemoveAllKeepsPrefix | analyze_reel_template.py:28 | a prefix in which no occurrence starts is kept unchanged in front of the rest's result |
| Naming.RemoveAllDropsFirst | analyze_reel_template.py:28 | an occurrence at the start is dropped |
| Naming.RemoveAllKeepsFirst | analyze_reel_template.py:28 | where the pattern does not start the string, its first character is kept |
| Naming.RemoveAllShort | analyze_reel_template.py:28 | a string shorter than the pattern is unchanged |
| Naming.RemovesEveryOccurrence | analyze_reel_template.py:28 | every occurrence goes, not only the first: "a.mp4.mp4" becomes "a" |
| Naming.RemoveAllKeepsCharacters | analyze_reel_template.py:28 | what is left is drawn from the string's own characters |
| Naming.RemoveAllAbsent | analyze_reel_template.py:28 | a string without the pattern is unchanged |
| Naming.RemoveAllSuffix | analyze_reel_template.py:28 | a trailing pattern after a stem free of its first character is removed, and the stem is kept |
| Naming.SinglePass | analyze_reel_template.py:28 | one pass can leave an occurrence behind: ".m.mp4p4" becomes ".mp4" |
| Naming.OnlyOwnExtension | analyze_reel_template.py:28 | in a dot-free stem plus one extension, no other extension occurs |
| Naming.VideoName | analyze_reel_template.py:28 | the name is never longer than the path |
| Naming.NothingAcrossJoin | analyze_reel_template.py:28 | no occurrence of an extension starts inside a stem that does not contain it, since an extension has its only '.' first |
| Naming.ExtensionAtEnd | analyze_reel_template.py:28 | after such a stem, another extension does not occur at all, and removing the extension itself leaves the stem |
| Naming.VideoNameOfStem | analyze_reel_template.py:28 | a stem containing none of ".mp4", ".mov" and ".avi" (dots allowed, as in "clip.final"), followed by one of them, gives back the stem |
| Naming.DefaultVideoName | analyze_reel_template.py:27-28 | "viral_ig.mp4" gives "viral_ig" |
| Naming.Orientation | analyze_reel_template.py:208 | "portrait" iff the frame is taller than wide, "landscape" iff it is not |
| Naming.OrientationFlips | analyze_reel_template.py:208 | "portrait" iff taller than wide; a square frame is "landscape"; rotating a non-square frame changes the label |
| Reel.FadeInFit | analyze_reel_template.py:53-54 | the kept fade-in fit on the fade-in frames and their time axis is the quadratic fit when it succeeded, otherwise the linear attempt; it exists only when the fade-in spans at least two frames |
| Reel.CanAnalyze | analyze_reel_template.py:47-76 | a run completes only with at least three frames, a frame that is not black and a positive frame rate; the fade-in ends at frame 2 or later, so the first two differences are rises of at least 0.01 |
| Reel.ConstantBrightnessCannotBeAnalyzed | analyze_reel_template.py:51-76 | a video of constant brightness is never analysed to the end: its fade-in segment is empty and line 76 fails |
| Reel.FadeInSection | analyze_reel_template.py:181-186 | the fade-in section: its duration, and the formula and type of the kept fit, whose coefficients are the solver's `popt`; the formula evaluates to the fitted curve |
| Reel.FitFadeIn | analyze_reel_template.py:68-77 | fitting both candidates in a loop and keeping the last success yields exactly the fade-in section |
| Reel.FadeOutSection | analyze_reel_template.py:188-193 | the fade-out section: its duration; a formula iff the fade-out fit succeeded, with that fit's coefficients; the label of line 191, "minimal" iff below 0.1 s and "detected" otherwise; a formula only above 0.1 s; the start time is the duration minus the fade-out |
| Reel.FitFadeOutSection | analyze_reel_template.py:60-96 | fitting the fade-out segment (gated on 0.1 s, decay series, last success) yields exactly the fade-out section |
| Reel.BuildTemplate | analyze_reel_template.py:53-213 | from a fade analysis: each template field is the value of its specification (specs, fade-in section, hold, fade-out section, static frame, kept and sorted regions, orientation, texts) |
| Reel.AnalyzeReel | analyze_reel_template.py:26-213 | the template of the video: the name and specs; the fade-in section, hold and fade-out section of the fade analysis; the static frame at the boundaries' midpoint; the three durations add up to the duration; the fade-out starts at fade-in plus hold and lasts at least one frame; the static frame lies inside the video; the hold is negative iff the fades overlap; the kept regions and their sorted permutation; the orientation; the texts |

## Left out

- Video decoding (line 33) and the per-frame mean (lines 43-44) are not modelled. The intensity series, the frame rate and the frame size are inputs.
- `curve_fit` and its numerics (line 21) are not modelled. The solver is an oracle parameter, constrained only by `CurveFit.Admissible`.
- OCR (lines 117-121) is not modelled. The texts are an input that the template passes through.
- Colour conversion, Otsu thresholding and contour extraction (lines 113, 127-129, 134) are not modelled. The bounding rectangles are an input.
- Plotting, image writing, directory creation and file writes (lines 32, 98-107, 114, 215-217, 276-277) are I/O and are not modelled.
- `print` output, the date, JSON and Markdown layout, and the `:.3f` rounding in formulas are not modelled. Formulas are kept as their coefficients (`CurveFit.Formula`), not as text.
- Floating point is not modelled. Intensities, durations and thresholds are exact reals.
- `int(0.2 * n)` and `int(0.8 * n)` are modelled as n div 5 and 4n div 5. The binary constants are slightly above 1/5 and 4/5, so the two agree for every frame count.
- Unhandled crashes become preconditions of `Reel.AnalyzeReel` (`Reel.CanAnalyze`):
  - a video without frames;
  - an all-black video: line 48 divides by zero, and numpy yields NaN rather than raising. The fade-in fits then raise on the NaN segment, and the script stops at line 76;
  - a non-positive frame rate;
  - `len(None)` at line 76 when no fade-in fit succeeded.
- A black first fade-out frame makes the decay series NaN, and `curve_fit` raises on it. The model treats this as the case where both fade-out attempts fail (`CurveFit.FadeOutAlphas`).
- Layout.SortByPosition: states sorted-by-key and permutation, but not the stability of Python's `sorted` among rectangles with equal `(y, x)`.
- The template's `timing` pairs are not modelled separately: the fade-in one is [0, duration], and the fade-out start is recorded in `Reel.FadeOutPart`. The report restates template values and is not modelled.
- The commented-out generation example (lines 159-168) and the unused `moviepy` import are not modelled.
