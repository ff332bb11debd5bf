/** Filtering the contours' bounding rectangles down to likely image regions
    and ordering them for display (analyze_reel_template.py:131-140). */
module Layout {

  /** `cv2.boundingRect`: left edge, top edge, width, height in pixels. */
  datatype Rect = Rect(x: int, y: int, w: int, h: int)

  /** Line 135: wider than a quarter of the frame AND taller than a quarter
      of it, both strict; `/` is Python's true division, so the test is the
      same as comparing four times each side with the frame's side in whole
      pixels. */
  predicate IsImageRegion(r: Rect, width: int, height: int): (keep: bool)
    ensures keep <==> 4 * r.w > width && 4 * r.h > height
  {
    r.w as real > width as real / 4.0 && r.h as real > height as real / 4.0
  }

  /** A rectangle of exactly a quarter of the frame each way is left out; one
      of half the frame each way is kept. */
  lemma QuarterIsExcludedHalfIsKept(x: int, y: int, width: int, height: int)
    requires width > 0 && height > 0 && width % 4 == 0 && height % 4 == 0
    ensures !IsImageRegion(Rect(x, y, width / 4, height / 4), width, height)
    ensures IsImageRegion(Rect(x, y, width / 2, height / 2), width, height)
  {
  }

  /** Reference definition: the rectangles that pass the test, in contour
      order. */
  function KeepRegions(rects: seq<Rect>, width: int, height: int): (kept: seq<Rect>)
    ensures |kept| <= |rects|
    ensures forall r :: r in kept <==> r in rects && IsImageRegion(r, width, height)
  {
    if rects == [] then []
    else
      var init := KeepRegions(rects[..|rects| - 1], width, height);
      var last := rects[|rects| - 1];
      assert rects == rects[..|rects| - 1] + [last];
      if IsImageRegion(last, width, height) then init + [last] else init
  }

  /** Filtering distributes over concatenation: what is kept from an earlier
      contour comes before what is kept from a later one. */
  lemma {:induction false} KeepRegionsAppend(a: seq<Rect>, b: seq<Rect>, width: int, height: int)
    ensures KeepRegions(a + b, width, height) == KeepRegions(a, width, height) + KeepRegions(b, width, height)
    decreases |b|
  {
    if b == [] {
      assert a + b == a;
    } else {
      var b' := b[..|b| - 1];
      assert (a + b)[..|a + b| - 1] == a + b';
      assert (a + b)[|a + b| - 1] == b[|b| - 1];
      KeepRegionsAppend(a, b', width, height);
    }
  }

  /** Lines 132-136: walk the contours and append each rectangle that passes
      the size test. */
  method FilterRegions(rects: seq<Rect>, width: int, height: int) returns (positions: seq<Rect>)
    ensures positions == KeepRegions(rects, width, height)
    ensures forall r :: r in positions <==> r in rects && IsImageRegion(r, width, height)
    ensures |positions| <= |rects|
  {
    positions := [];
    var i := 0;
    while i < |rects|
      invariant 0 <= i <= |rects|
      invariant positions == KeepRegions(rects[..i], width, height)
    {
      var r := rects[i];
      if IsImageRegion(r, width, height) {
        positions := positions + [r];
      }
      assert rects[..i + 1][..i] == rects[..i];
      i := i + 1;
    }
    assert rects[..i] == rects;
  }

  /** The sort key of line 139, `(p[1], p[0])`, compared lexicographically:
      top edge first, then left edge. */
  predicate KeyAtMost(a: Rect, b: Rect): (before: bool)
    ensures a.y != b.y ==> (before <==> a.y < b.y)
    ensures a.y == b.y ==> (before <==> a.x <= b.x)
  {
    a.y < b.y || (a.y == b.y && a.x <= b.x)
  }

  predicate SortedByPosition(s: seq<Rect>)
  {
    forall i, j :: 0 <= i < j < |s| ==> KeyAtMost(s[i], s[j])
  }

  /** Places `r` before the first element whose key is not smaller. */
  function Insert(r: Rect, s: seq<Rect>): (t: seq<Rect>)
    requires SortedByPosition(s)
    ensures SortedByPosition(t)
    ensures multiset(t) == multiset(s) + multiset{r}
    ensures |t| == |s| + 1 && (t[0] == r || (|s| > 0 && t[0] == s[0]))
  {
    if s == [] then [r]
    else if KeyAtMost(r, s[0]) then [r] + s
    else
      var rest := Insert(r, s[1..]);
      assert s == [s[0]] + s[1..];
      assert KeyAtMost(s[0], rest[0]);
      assert forall k :: 0 <= k < |rest| ==> KeyAtMost(rest[0], rest[k]);
      [s[0]] + rest
  }

  /** `sorted(image_positions, key=lambda p: (p[1], p[0]))`: the order in
      which the regions are listed on standard output. */
  function SortByPosition(s: seq<Rect>): (t: seq<Rect>)
    ensures SortedByPosition(t)
    ensures multiset(t) == multiset(s)
  {
    if s == [] then []
    else
      assert s == [s[0]] + s[1..];
      Insert(s[0], SortByPosition(s[1..]))
  }
}
