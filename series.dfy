/** Operations on the per-frame intensity series: numpy's `max`, element-wise
    division, `diff`, `flip` and the "first index where" search used by the
    fade detector (analyze_reel_template.py:47-58). */
module Series {
  import opened Wrappers

  /** `intensity.max()`: the largest value of a non-empty series. */
  function Max(s: seq<real>): (m: real)
    requires |s| > 0
    ensures forall i :: 0 <= i < |s| ==> s[i] <= m
    ensures exists i :: 0 <= i < |s| && s[i] == m
  {
    MaxOfPrefix(s, |s|)
  }

  /** The largest of the first k values. */
  function MaxOfPrefix(s: seq<real>, k: nat): (m: real)
    requires 0 < k <= |s|
    ensures forall i :: 0 <= i < k ==> s[i] <= m
    ensures exists i :: 0 <= i < k && s[i] == m
  {
    if k == 1 then s[0]
    else
      var rest := MaxOfPrefix(s, k - 1);
      if s[k - 1] >= rest then s[k - 1] else rest
  }

  /** `intensity / max_intensity`, element by element. */
  function Normalize(s: seq<real>, m: real): (r: seq<real>)
    requires m != 0.0
    ensures |r| == |s|
    ensures forall i :: 0 <= i < |s| ==> r[i] * m == s[i]
  {
    seq(|s|, i requires 0 <= i < |s| => s[i] / m)
  }

  /** Normalising by the series' own maximum puts every value at or below 1
      and makes the brightest frame exactly 1. */
  lemma NormalizedPeak(s: seq<real>)
    requires |s| > 0 && Max(s) > 0.0
    ensures forall i :: 0 <= i < |s| ==> Normalize(s, Max(s))[i] <= 1.0
    ensures exists i :: 0 <= i < |s| && Normalize(s, Max(s))[i] == 1.0
  {
    var m := Max(s);
    var r := Normalize(s, m);
    forall i | 0 <= i < |s| ensures r[i] <= 1.0 {
      assert r[i] == s[i] / m;
      RatioAtMostOne(s[i], m);
    }
    var k :| 0 <= k < |s| && s[k] == m;
    assert r[k] == s[k] / m;
    SelfRatio(m);
  }

  lemma SelfRatio(m: real)
    requires m != 0.0
    ensures m / m == 1.0
  {
  }

  lemma RatioAtMostOne(a: real, m: real)
    requires 0.0 < m && a <= m
    ensures a / m <= 1.0
  {
  }

  /** `np.diff`: the first differences of a series; one element shorter, and
      empty for a series of fewer than two values. */
  function Diff(s: seq<real>): (d: seq<real>)
    ensures |s| > 0 ==> |d| == |s| - 1
    ensures |s| == 0 ==> d == []
    ensures forall i {:trigger d[i]} :: 0 <= i < |d| ==> s[i] + d[i] == s[i + 1]
  {
    if |s| <= 1 then [] else seq(|s| - 1, i requires 0 <= i < |s| - 1 => s[i + 1] - s[i])
  }

  /** Sum of a series. */
  function Sum(s: seq<real>): (total: real)
  {
    if s == [] then 0.0 else Sum(s[..|s| - 1]) + s[|s| - 1]
  }

  /** Adding the first k differences to the first value gives back value k:
      `Diff` loses nothing but the starting point. */
  lemma {:induction false} DiffTelescopes(s: seq<real>, k: nat)
    requires k < |s|
    ensures s[0] + Sum(Diff(s)[..k]) == s[k]
  {
    if k > 0 {
      DiffTelescopes(s, k - 1);
      var d := Diff(s);
      assert d[..k][..k - 1] == d[..k - 1];
    }
  }

  /** `np.flip`: the series read back to front. */
  function Reverse<T>(s: seq<T>): (r: seq<T>)
    ensures |r| == |s|
    ensures forall i :: 0 <= i < |s| ==> r[i] == s[|s| - 1 - i]
  {
    seq(|s|, i requires 0 <= i < |s| => s[|s| - 1 - i])
  }

  /** `np.any(s < t)`. */
  predicate AnyBelow(s: seq<real>, t: real)
  {
    exists i :: 0 <= i < |s| && s[i] < t
  }

  /** `np.where(s < t)[0][0]`: the least index whose value is below `t`, or
      `None` when `np.any(s < t)` is false. */
  function FirstBelow(s: seq<real>, t: real): (r: Option<nat>)
    ensures r.Some? <==> AnyBelow(s, t)
    ensures r.Some? ==> r.value < |s| && s[r.value] < t
    ensures r.Some? ==> forall j :: 0 <= j < r.value ==> s[j] >= t
  {
    FirstBelowFrom(s, t, 0)
  }

  /** The least index at or after `from` whose value is below `t`. */
  function FirstBelowFrom(s: seq<real>, t: real, from: nat): (r: Option<nat>)
    requires from <= |s|
    ensures r.Some? <==> exists i :: from <= i < |s| && s[i] < t
    ensures r.Some? ==> from <= r.value < |s| && s[r.value] < t
    ensures r.Some? ==> forall j :: from <= j < r.value ==> s[j] >= t
    decreases |s| - from
  {
    if from == |s| then None
    else if s[from] < t then Some(from)
    else FirstBelowFrom(s, t, from + 1)
  }

  /** Reference definition for the backward search: the greatest index
      whose value is below `t`. */
  function LastBelow(s: seq<real>, t: real): (r: Option<nat>)
    ensures r.Some? <==> AnyBelow(s, t)
    ensures r.Some? ==> r.value < |s| && s[r.value] < t
    ensures r.Some? ==> forall j :: r.value < j < |s| ==> s[j] >= t
  {
    LastBelowBefore(s, t, |s|)
  }

  /** The greatest index below `before` whose value is below `t`. */
  function LastBelowBefore(s: seq<real>, t: real, before: nat): (r: Option<nat>)
    requires before <= |s|
    ensures r.Some? <==> exists i :: 0 <= i < before && s[i] < t
    ensures r.Some? ==> r.value < before && s[r.value] < t
    ensures r.Some? ==> forall j :: r.value < j < before ==> s[j] >= t
  {
    if before == 0 then None
    else if s[before - 1] < t then Some(before - 1)
    else LastBelowBefore(s, t, before - 1)
  }

  /** `np.where(np.flip(s) < t)[0][0]` counts from the end: index k of the
      flipped series is index |s| - 1 - k of `s`, so the forward search on
      the flipped series finds the LAST index of `s` below `t`. */
  lemma FirstBelowReversedIsLast(s: seq<real>, t: real)
    ensures FirstBelow(Reverse(s), t).None? <==> LastBelow(s, t).None?
    ensures LastBelow(s, t).Some? ==>
      FirstBelow(Reverse(s), t).value == |s| - 1 - LastBelow(s, t).value
  {
    var r := Reverse(s);
    if LastBelow(s, t).Some? {
      var j := LastBelow(s, t).value;
      assert r[|s| - 1 - j] == s[j];
      var k := FirstBelow(r, t).value;
      assert r[k] == s[|s| - 1 - k];
    }
  }
}
