/** Fade boundary detection and the durations derived from it
    (analyze_reel_template.py:47-64), and the index of the representative
    "hold" frame (analyze_reel_template.py:110). */
module Fades {
  import opened Wrappers
  import opened Series

  /** A difference below this ends the fade-in: brightness stopped rising. */
  const RiseThreshold: real := 0.01
  /** A difference below this is a drop in brightness (a fade-out step). */
  const DropThreshold: real := -0.01

  function Min(a: int, b: int): (m: int)
  {
    if a <= b then a else b
  }

  /** `int(0.2 * num_frames)`. The binary float 0.2 lies just above 1/5, so
      the product never rounds below a whole number and the truncation is
      exact integer division. */
  function FadeInFallback(n: nat): (k: nat)
    ensures k == n / 5
  {
    (0.2 * n as real).Floor
  }

  /** `int(0.8 * num_frames)`, exact for the same reason as FadeInFallback. */
  function FadeOutFallback(n: nat): (k: nat)
    ensures k == (4 * n) / 5
  {
    (0.8 * n as real).Floor
  }

  /** `fade_in_end_idx`: the first index whose difference is below 0.01, or
      `int(0.2 * num_frames)` when there is none. */
  function FadeInEnd(norm: seq<real>): (idx: nat)
    requires |norm| >= 1
    ensures idx < |norm|
    ensures AnyBelow(Diff(norm), RiseThreshold) ==>
      idx < |Diff(norm)| && Diff(norm)[idx] < RiseThreshold &&
      forall j :: 0 <= j < idx ==> Diff(norm)[j] >= RiseThreshold
    ensures !AnyBelow(Diff(norm), RiseThreshold) ==> idx == |norm| / 5
  {
    match FirstBelow(Diff(norm), RiseThreshold)
    case Some(i) => i
    case None => FadeInFallback(|norm|)
  }

  /** `fade_out_start_idx` after the clamp of line 59: `num_frames - k` for the
      first index k of the flipped differences below -0.01, else
      `int(0.8 * num_frames)`, then at most `num_frames - 1`. Counted from the
      front, `num_frames - k` is two past the LAST dropping difference j, so
      the start is min(j + 2, num_frames - 1): the frame after the last
      drop, or the last frame. */
  function FadeOutStart(norm: seq<real>): (idx: nat)
    requires |norm| >= 1
    ensures idx <= |norm| - 1
    ensures AnyBelow(Diff(norm), DropThreshold) ==>
      idx == Min(LastBelow(Diff(norm), DropThreshold).value + 2, |norm| - 1)
    ensures !AnyBelow(Diff(norm), DropThreshold) ==> idx == (4 * |norm|) / 5
  {
    var n := |norm|;
    var d := Diff(norm);
    if AnyBelow(d, DropThreshold) then
      FirstBelowReversedIsLast(d, DropThreshold);
      Min(n - FirstBelow(Reverse(d), DropThreshold).value, n - 1)
    else
      Min(FadeOutFallback(n), n - 1)
  }

  /** The outcome of the fade analysis: the normalised series, the two
      boundary indices and the durations. */
  datatype FadeAnalysis = FadeAnalysis(
    norm: seq<real>,
    fadeInEnd: nat,
    fadeOutStart: nat,
    durations: Durations)

  /** A frame count as seconds at `fps` frames per second. */
  function Seconds(frames: int, fps: real): (secs: real)
    requires fps > 0.0
  {
    frames as real / fps
  }

  /** Seconds is linear in the frame count, and has its sign. */
  lemma SecondsLinear(a: int, b: int, fps: real)
    requires fps > 0.0
    ensures Seconds(a, fps) - Seconds(b, fps) == Seconds(a - b, fps)
    ensures Seconds(a, fps) < 0.0 <==> a < 0
    ensures a <= b ==> Seconds(a, fps) <= Seconds(b, fps)
  {
    assert a as real / fps - b as real / fps == (a - b) as real / fps;
  }

  /** Durations in seconds: whole video, fade-in, fade-out, hold. */
  datatype Durations = Durations(duration: real, fadeIn: real, fadeOut: real, hold: real)

  /** Lines 35, 55, 62 and 64 for a video of `n` frames whose fade-in ends at
      `fin` and whose fade-out starts at `fo`: the hold is what is left of
      the duration, with no clamp, so the three parts always add up to the
      duration and the hold is negative exactly when the fades overlap. */
  function FadeDurations(n: nat, fin: nat, fo: nat, fps: real): (d: Durations)
    requires fps > 0.0 && fo < n
    ensures d.duration == Seconds(n, fps)
    ensures d.fadeIn == Seconds(fin, fps)
    ensures d.fadeOut == Seconds(n - fo, fps)
    ensures d.fadeIn + d.hold + d.fadeOut == d.duration
    ensures d.hold == Seconds(fo - fin, fps)
    ensures d.hold < 0.0 <==> fo < fin
    ensures d.fadeOut >= Seconds(1, fps)
  {
    var duration := Seconds(n, fps);
    var fadeIn := Seconds(fin, fps);
    var fadeOut := Seconds(n - fo, fps);
    SecondsLinear(n, fin, fps);
    SecondsLinear(n - fin, n - fo, fps);
    SecondsLinear(fo - fin, 0, fps);
    SecondsLinear(1, n - fo, fps);
    Durations(duration, fadeIn, fadeOut, duration - fadeIn - fadeOut)
  }

  /** Lines 47-64: normalise, detect both boundaries, derive the durations.
      `fps` comes from the video metadata and the frame count is the length
      of the series. */
  function AnalyzeFades(intensity: seq<real>, fps: real): (a: FadeAnalysis)
    requires |intensity| >= 1 && Max(intensity) > 0.0 && fps > 0.0
    ensures |a.norm| == |intensity|
    ensures a.norm == Normalize(intensity, Max(intensity))
    ensures a.fadeInEnd == FadeInEnd(a.norm) && a.fadeOutStart == FadeOutStart(a.norm)
    ensures a.fadeInEnd < |intensity| && a.fadeOutStart < |intensity|
    ensures a.durations == FadeDurations(|intensity|, a.fadeInEnd, a.fadeOutStart, fps)
  {
    var norm := Normalize(intensity, Max(intensity));
    var fin := FadeInEnd(norm);
    var fo := FadeOutStart(norm);
    FadeAnalysis(norm, fin, fo, FadeDurations(|intensity|, fin, fo, fps))
  }

  /** `np.arange(k) / fps`: the relative time axis of a segment, starting at 0. */
  function Times(k: nat, fps: real): (ts: seq<real>)
    requires fps > 0.0
    ensures |ts| == k
    ensures forall i :: 0 <= i < k ==> ts[i] * fps == i as real
  {
    seq(k, i requires 0 <= i < k => i as real / fps)
  }

  /** `norm_intensity[:fade_in_end_idx]`. */
  function FadeInFrames(a: FadeAnalysis): (s: seq<real>)
    requires a.fadeInEnd <= |a.norm|
    ensures |s| == a.fadeInEnd
    ensures forall i :: 0 <= i < |s| ==> s[i] == a.norm[i]
  {
    a.norm[..a.fadeInEnd]
  }

  /** `norm_intensity[fade_out_start_idx:]`. */
  function FadeOutFrames(a: FadeAnalysis): (s: seq<real>)
    requires a.fadeOutStart <= |a.norm|
    ensures |s| == |a.norm| - a.fadeOutStart
    ensures forall i :: 0 <= i < |s| ==> s[i] == a.norm[a.fadeOutStart + i]
  {
    a.norm[a.fadeOutStart..]
  }

  /** `int((fade_out_start_idx - fade_in_end_idx) / 2)`: true division, then
      `int()`, which truncates toward zero (not Python's floor `//`). */
  function TruncHalf(d: int): (h: int)
    ensures d >= 0 ==> 0 <= d - 2 * h <= 1
    ensures d < 0 ==> 0 <= 2 * h - d <= 1
  {
    if d >= 0 then d / 2 else -((-d) / 2)
  }

  /** `static_idx` (line 110): the midpoint of the two boundaries, rounded
      toward the fade-in end. It always lies between the two boundaries,
      whichever order they come in. */
  function StaticIndex(fadeInEnd: int, fadeOutStart: int): (idx: int)
    ensures fadeInEnd <= fadeOutStart ==>
      fadeInEnd <= idx <= fadeOutStart && 0 <= (fadeInEnd + fadeOutStart) - 2 * idx <= 1
    ensures fadeOutStart < fadeInEnd ==>
      fadeOutStart <= idx <= fadeInEnd && 0 <= 2 * idx - (fadeInEnd + fadeOutStart) <= 1
  {
    fadeInEnd + TruncHalf(fadeOutStart - fadeInEnd)
  }

  /** With the fade-in end after the fade-out start, `int(-1.5)` is -1, so
      the static frame is 2, the boundary side of the midpoint 1.5 (rounding
      down would give frame 1). */
  lemma StaticIndexTruncatesTowardZero()
    ensures TruncHalf(-3) == -1
    ensures StaticIndex(3, 0) == 2
  {
  }

  /** Both boundaries are frame indices, so the static frame is always a
      valid frame of the video, even when the fades overlap and the hold
      is negative. */
  lemma StaticIndexInRange(intensity: seq<real>, fps: real)
    requires |intensity| >= 1 && Max(intensity) > 0.0 && fps > 0.0
    ensures var a := AnalyzeFades(intensity, fps);
      0 <= StaticIndex(a.fadeInEnd, a.fadeOutStart) < |intensity|
  {
  }

  /** A video of constant brightness: every difference is 0, which is below
      0.01, so the fade-in ends at frame 0 (the 20% fallback is NOT taken),
      while no difference is below -0.01 and the fade-out starts at the 80%
      fallback. The empty fade-in segment then makes both fits fail, so the
      script itself stops at line 76. */
  lemma ConstantBrightness(intensity: seq<real>, fps: real)
    requires |intensity| >= 2 && fps > 0.0 && intensity[0] > 0.0
    requires forall i :: 0 <= i < |intensity| ==> intensity[i] == intensity[0]
    ensures Max(intensity) > 0.0 && AnalyzeFades(intensity, fps).fadeInEnd == 0
    ensures AnalyzeFades(intensity, fps).fadeOutStart == (4 * |intensity|) / 5
  {
    var m := Max(intensity);
    var k :| 0 <= k < |intensity| && intensity[k] == m;
    assert m == intensity[0];
    var norm := Normalize(intensity, m);
    forall i | 0 <= i < |norm| ensures norm[i] == norm[0] {
      assert norm[i] == intensity[i] / m;
    }
    FlatBoundaries(norm);
  }

  /** On a flat series every difference is 0. */
  lemma FlatBoundaries(norm: seq<real>)
    requires |norm| >= 2
    requires forall i :: 0 <= i < |norm| ==> norm[i] == norm[0]
    ensures FadeInEnd(norm) == 0 && FadeOutStart(norm) == (4 * |norm|) / 5
  {
    var d := Diff(norm);
    forall i | 0 <= i < |d| ensures d[i] == 0.0 {
      assert norm[i] + d[i] == norm[i + 1];
    }
    assert d[0] < RiseThreshold;
    assert !AnyBelow(d, DropThreshold);
  }

  /** A linear ramp from black to full brightness over the first `ramp`
      frames, then constant: the fade-in end is found exactly at `ramp` as
      long as each step of the ramp (1/ramp) is at least the 0.01
      threshold. */
  lemma RampFadeIn(intensity: seq<real>, ramp: nat, fps: real)
    requires 1 <= ramp <= 100 && ramp + 1 < |intensity| && fps > 0.0
    requires forall i :: 0 <= i < |intensity| ==> intensity[i] == Min(i, ramp) as real / ramp as real
    ensures Max(intensity) == 1.0 && AnalyzeFades(intensity, fps).fadeInEnd == ramp
  {
    RampPeak(intensity, ramp);
    var norm := Normalize(intensity, 1.0);
    NormalizeByOne(intensity);
    var d := Diff(norm);
    forall j | 0 <= j < ramp ensures d[j] >= RiseThreshold {
      assert norm[j] + d[j] == norm[j + 1];
      RampStep(j, ramp);
    }
    assert norm[ramp] + d[ramp] == norm[ramp + 1];
    FadeInEndAt(norm, ramp);
  }

  lemma RampPeak(intensity: seq<real>, ramp: nat)
    requires 1 <= ramp < |intensity|
    requires forall i :: 0 <= i < |intensity| ==> intensity[i] == Min(i, ramp) as real / ramp as real
    ensures Max(intensity) == 1.0
  {
    var m := Max(intensity);
    var k :| 0 <= k < |intensity| && intensity[k] == m;
    RatioAtMostOne(Min(k, ramp) as real, ramp as real);
    SelfRatio(ramp as real);
    assert intensity[ramp] == 1.0;
  }

  lemma NormalizeByOne(s: seq<real>)
    ensures Normalize(s, 1.0) == s
  {
    var r := Normalize(s, 1.0);
    forall i | 0 <= i < |s| ensures r[i] == s[i] {
      assert r[i] * 1.0 == s[i];
    }
  }

  /** The fade-in end is k when difference k is the first below 0.01. */
  lemma FadeInEndAt(norm: seq<real>, k: nat)
    requires |norm| >= 1 && k < |Diff(norm)| && Diff(norm)[k] < RiseThreshold
    requires forall j :: 0 <= j < k ==> Diff(norm)[j] >= RiseThreshold
    ensures FadeInEnd(norm) == k
  {
  }

  lemma RampStep(i: nat, ramp: nat)
    requires 1 <= ramp <= 100 && i < ramp
    ensures Min(i + 1, ramp) as real / ramp as real - Min(i, ramp) as real / ramp as real >= RiseThreshold
  {
    var r := ramp as real;
    assert (i + 1) as real / r - i as real / r == 1.0 / r;
    assert 1.0 / r >= 1.0 / 100.0;
  }
}
