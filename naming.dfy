/** The output name derived from the video path
    (analyze_reel_template.py:28) and the portrait/landscape label
    (analyze_reel_template.py:208). */
module Naming {

  /** `s.replace(pat, '')`: one left-to-right pass that drops every
      non-overlapping occurrence of `pat`. */
  function RemoveAll(s: string, pat: string): (r: string)
    requires |pat| > 0
    ensures |r| <= |s|
    decreases |s|
  {
    if |s| < |pat| then s
    else if s[..|pat|] == pat then
      assert s == s[..|pat|] + s[|pat|..];
      RemoveAll(s[|pat|..], pat)
    else
      assert s == [s[0]] + s[1..];
      [s[0]] + RemoveAll(s[1..], pat)
  }

  /** Removing never introduces a character: what is left is drawn from
      the characters of `s`. */
  lemma {:induction false} RemoveAllKeepsCharacters(s: string, pat: string)
    requires |pat| > 0
    ensures multiset(RemoveAll(s, pat)) <= multiset(s)
    decreases |s|
  {
    if |s| >= |pat| {
      if s[..|pat|] == pat {
        RemoveAllKeepsCharacters(s[|pat|..], pat);
        assert s == s[..|pat|] + s[|pat|..];
      } else {
        RemoveAllKeepsCharacters(s[1..], pat);
        assert s == [s[0]] + s[1..];
      }
    }
  }

  /** `pat` occurs in `s` starting at index i. */
  predicate OccursAt(s: string, pat: string, i: nat)
  {
    i + |pat| <= |s| && s[i..i + |pat|] == pat
  }

  /** `pat in s`. */
  predicate Occurs(s: string, pat: string)
  {
    exists i: nat :: i <= |s| && OccursAt(s, pat, i)
  }

  /** A string in which `pat` does not occur is left as it is. */
  lemma {:induction false} RemoveAllAbsent(s: string, pat: string)
    requires |pat| > 0 && !Occurs(s, pat)
    ensures RemoveAll(s, pat) == s
    decreases |s|
  {
    if |s| >= |pat| {
      assert !OccursAt(s, pat, 0);
      assert !Occurs(s[1..], pat) by {
        forall i: nat | OccursAt(s[1..], pat, i) ensures false {
          assert s[1..][i..i + |pat|] == s[i + 1..i + 1 + |pat|];
          assert OccursAt(s, pat, i + 1);
        }
      }
      RemoveAllAbsent(s[1..], pat);
      assert s == [s[0]] + s[1..];
    }
  }

  /** Every occurrence is removed, scanning from the left: up to the
      leftmost occurrence the string is kept, that occurrence is dropped,
      and the pass goes on after it. With RemoveAllAbsent this fixes the
      result for every string. */
  lemma RemoveAllLeftmost(s: string, pat: string, i: nat)
    requires |pat| > 0 && OccursAt(s, pat, i)
    requires forall j: nat :: j < i ==> !OccursAt(s, pat, j)
    ensures RemoveAll(s, pat) == s[..i] + RemoveAll(s[i + |pat|..], pat)
  {
    var a, b := s[..i], s[i..];
    assert s == a + b;
    RemoveAllKeepsPrefix(a, b, pat);
    assert b[..|pat|] == pat;
    RemoveAllDropsFirst(b, pat);
    assert b[|pat|..] == s[i + |pat|..];
  }

  /** A prefix in which no occurrence starts is kept as it is. */
  lemma {:induction false} RemoveAllKeepsPrefix(a: string, b: string, pat: string)
    requires |pat| > 0 && forall j: nat :: j < |a| ==> !OccursAt(a + b, pat, j)
    ensures RemoveAll(a + b, pat) == a + RemoveAll(b, pat)
    decreases |a|
  {
    if a == [] {
      assert a + b == b;
    } else if |a + b| < |pat| {
      RemoveAllShort(a + b, pat);
      RemoveAllShort(b, pat);
    } else {
      var s := a + b;
      assert !OccursAt(s, pat, 0);
      RemoveAllKeepsFirst(s, pat);
      assert s[0] == a[0] && s[1..] == a[1..] + b;
      NoOccurrenceInTail(a, b, pat);
      RemoveAllKeepsPrefix(a[1..], b, pat);
      PutBackHead(a, RemoveAll(a[1..] + b, pat), RemoveAll(b, pat));
    }
  }

  /** The first character of `a` in front of the rest of `a` is `a`. */
  lemma PutBackHead(a: string, x: string, y: string)
    requires a != [] && x == a[1..] + y
    ensures [a[0]] + x == a + y
  {
    assert a == [a[0]] + a[1..];
  }

  /** Dropping the first character shifts every occurrence one place left. */
  lemma NoOccurrenceInTail(a: string, b: string, pat: string)
    requires a != [] && forall j: nat :: j < |a| ==> !OccursAt(a + b, pat, j)
    ensures forall j: nat :: j < |a| - 1 ==> !OccursAt(a[1..] + b, pat, j)
  {
    var s := a + b;
    forall j: nat | j < |a| - 1 ensures !OccursAt(a[1..] + b, pat, j) {
      assert !OccursAt(s, pat, j + 1);
      if j + |pat| <= |s| - 1 {
        assert (a[1..] + b)[j..j + |pat|] == s[j + 1..j + 1 + |pat|];
      }
    }
  }

  /** A string shorter than the pattern is kept. */
  lemma RemoveAllShort(s: string, pat: string)
    requires 0 < |pat| && |s| < |pat|
    ensures RemoveAll(s, pat) == s
  {
  }

  /** An occurrence at the start is dropped. */
  lemma RemoveAllDropsFirst(s: string, pat: string)
    requires |pat| > 0 && OccursAt(s, pat, 0)
    ensures RemoveAll(s, pat) == RemoveAll(s[|pat|..], pat)
  {
    assert s[..|pat|] == pat;
  }

  /** Where `pat` does not start the string, its first character is kept. */
  lemma RemoveAllKeepsFirst(s: string, pat: string)
    requires |pat| > 0 && |pat| <= |s| && !OccursAt(s, pat, 0)
    ensures RemoveAll(s, pat) == [s[0]] + RemoveAll(s[1..], pat)
  {
    assert s[..|pat|] != pat;
  }

  /** Both copies of the extension go: "a.mp4.mp4" becomes "a". */
  lemma RemovesEveryOccurrence()
    ensures RemoveAll("a.mp4.mp4", ".mp4") == "a"
  {
    var pat := ".mp4";
    var s := "a.mp4.mp4";
    assert !OccursAt(s, pat, 0) by { assert s[0..4][0] != pat[0]; }
    RemoveAllLeftmost(s, pat, 1);
    assert s[5..] == pat && s[..1] == "a";
    RemoveAllLeftmost(pat, pat, 0);
    assert pat[4..] == [];
  }

  /** A suffix `pat` after a stem free of its first character is removed,
      and nothing else is. */
  lemma {:induction false} RemoveAllSuffix(stem: string, pat: string)
    requires |pat| > 0 && pat[0] !in stem
    ensures RemoveAll(stem + pat, pat) == stem
    decreases |stem|
  {
    var s := stem + pat;
    if stem == [] {
      assert s == pat && s[..|pat|] == pat && s[|pat|..] == [];
    } else {
      assert s[0] == stem[0] != pat[0];
      assert s[..|pat|] != pat;
      assert s[1..] == stem[1..] + pat;
      RemoveAllSuffix(stem[1..], pat);
      assert stem == [stem[0]] + stem[1..];
    }
  }

  /** One pass is not the same as "until none is left": removing an inner
      ".mp4" can join the pieces around it into a new one. */
  lemma SinglePass()
    ensures RemoveAll(".m.mp4p4", ".mp4") == ".mp4"
  {
    var pat := ".mp4";
    var s0, s1, s2 := ".m.mp4p4", "m.mp4p4", ".mp4p4";
    assert s0[..4][2] != pat[2] && s0[1..] == s1;
    assert s1[..4][0] != pat[0] && s1[1..] == s2;
    assert s2[..4] == pat && s2[4..] == "p4";
    assert RemoveAll(s2, pat) == "p4";
    assert RemoveAll(s1, pat) == "mp4";
  }

  /** The three extensions the name drops. */
  predicate IsVideoExtension(ext: string)
  {
    ext == ".mp4" || ext == ".mov" || ext == ".avi"
  }

  /** In a dot-free stem followed by one extension, no other extension
      occurs, and the stem alone contains none. */
  lemma OnlyOwnExtension(stem: string, ext: string, pat: string)
    requires '.' !in stem && IsVideoExtension(ext) && IsVideoExtension(pat)
    ensures !Occurs(stem, pat)
    ensures ext != pat ==> !Occurs(stem + ext, pat)
  {
    forall i: nat | i <= |stem| ensures !OccursAt(stem, pat, i) {
      if i + |pat| <= |stem| {
        assert stem[i..i + |pat|][0] == stem[i] != pat[0];
      }
    }
    if ext != pat {
      var s := stem + ext;
      forall i: nat | i <= |s| ensures !OccursAt(s, pat, i) {
        if i + |pat| <= |s| {
          if i < |stem| {
            assert s[i..i + |pat|][0] == stem[i] != pat[0];
          } else {
            assert i == |stem| && s[|stem|..] == ext;
          }
        }
      }
    }
  }

  /** Line 28: the video path with ".mp4", ".mov" and ".avi" removed, in
      that order. */
  function VideoName(path: string): (name: string)
    ensures |name| <= |path|
  {
    RemoveAll(RemoveAll(RemoveAll(path, ".mp4"), ".mov"), ".avi")
  }

  /** An extension starts with the only '.' it has, so after a stem that
      does not contain `pat`, no occurrence of `pat` can reach across the
      join into the extension: `pat` occurs only as the extension itself. */
  lemma ExtensionAtEnd(stem: string, ext: string, pat: string)
    requires IsVideoExtension(ext) && IsVideoExtension(pat) && !Occurs(stem, pat)
    ensures ext != pat ==> !Occurs(stem + ext, pat)
    ensures ext == pat ==> RemoveAll(stem + ext, pat) == stem
  {
    var s := stem + ext;
    NothingAcrossJoin(stem, ext, pat);
    if ext != pat {
      forall i: nat | i <= |s| ensures !OccursAt(s, pat, i) {
        if |stem| <= i && i + |pat| <= |s| {
          assert i == |stem| && s[|stem|..] == ext;
        }
      }
    } else {
      RemoveAllLeftmost(s, pat, |stem|);
      assert s[..|stem|] == stem && s[|stem| + |pat|..] == [];
    }
  }

  /** No occurrence of an extension starts inside a stem that does not
      contain it: one that reached past the stem would have to carry the
      '.' of the next extension after its own first character. */
  lemma NothingAcrossJoin(stem: string, ext: string, pat: string)
    requires IsVideoExtension(ext) && IsVideoExtension(pat) && !Occurs(stem, pat)
    ensures forall i: nat :: i < |stem| ==> !OccursAt(stem + ext, pat, i)
  {
    var s := stem + ext;
    forall i: nat | i < |stem| ensures !OccursAt(s, pat, i) {
      if i + |pat| <= |s| {
        if i + |pat| <= |stem| {
          assert s[i..i + |pat|] == stem[i..i + |pat|];
          assert !OccursAt(stem, pat, i);
        } else {
          var k := |stem| - i;
          assert 1 <= k < |pat| && s[i..i + |pat|][k] == ext[0] == '.' != pat[k];
        }
      }
    }
  }

  /** For a file name whose stem contains none of the three extensions
      ("clip.final" included), the name is the stem. */
  lemma VideoNameOfStem(stem: string, ext: string)
    requires IsVideoExtension(ext)
    requires !Occurs(stem, ".mp4") && !Occurs(stem, ".mov") && !Occurs(stem, ".avi")
    ensures VideoName(stem + ext) == stem
  {
    ExtensionAtEnd(stem, ext, ".mp4");
    ExtensionAtEnd(stem, ext, ".mov");
    ExtensionAtEnd(stem, ext, ".avi");
    if ext == ".mp4" {
      RemoveAllAbsent(stem, ".mov");
      RemoveAllAbsent(stem, ".avi");
    } else if ext == ".mov" {
      RemoveAllAbsent(stem + ext, ".mp4");
      RemoveAllAbsent(stem, ".avi");
    } else {
      RemoveAllAbsent(stem + ext, ".mp4");
      RemoveAllAbsent(stem + ext, ".mov");
    }
  }

  /** The video the script analyses (line 27) gives the folder name
      "viral_ig". */
  lemma DefaultVideoName()
    ensures VideoName("viral_ig.mp4") == "viral_ig"
  {
    assert "viral_ig.mp4" == "viral_ig" + ".mp4";
    OnlyOwnExtension("viral_ig", ".mp4", ".mp4");
    OnlyOwnExtension("viral_ig", ".mp4", ".mov");
    OnlyOwnExtension("viral_ig", ".mp4", ".avi");
    VideoNameOfStem("viral_ig", ".mp4");
  }

  /** Line 208: "portrait" when the frame is taller than it is wide,
      otherwise (a square frame included) "landscape". */
  function Orientation(width: int, height: int): (o: string)
    ensures o == "portrait" <==> height > width
    ensures o == "landscape" <==> height <= width
  {
    if height > width then "portrait" else "landscape"
  }

  /** Turning a non-square frame on its side flips the label; a square frame
      is "landscape". */
  lemma OrientationFlips(width: int, height: int)
    ensures width != height ==> Orientation(width, height) != Orientation(height, width)
    ensures width == height ==> Orientation(width, height) == "landscape"
    ensures Orientation(width, height) == "portrait" <==> height > width
  {
  }
}
