/**
 * The artifact paths of `process_image` (uploads/app.py:30, 48, 72, 90):
 * each derived path is `output_path.replace(".jpeg", suffix + ".jpeg")`,
 * Python's replace-all, which scans left to right and replaces every
 * occurrence that does not overlap one already replaced.
 */
module ArtifactPaths {

  /** The extension the derivations look for. */
  const Ext: string := ".jpeg"

  /** `pat` occurs in `s` starting at index `i`. */
  predicate OccursAt(s: string, pat: string, i: nat)
  {
    i + |pat| <= |s| && s[i..i + |pat|] == pat
  }

  /** `pat` occurs somewhere in `s`. */
  ghost predicate Occurs(s: string, pat: string)
  {
    exists i: nat :: OccursAt(s, pat, i)
  }

  /**
   * `s.replace(pat, rep)` for a non-empty `pat`. Where the scan finds nothing
   * to replace, or replaces `pat` by itself, the string comes back unchanged.
   */
  function Replace(s: string, pat: string, rep: string): (r: string)
    requires pat != []
    ensures Matches(s, pat) == 0 ==> r == s
    ensures rep == pat ==> r == s
    decreases |s|
  {
    if |s| < |pat| then s
    else if s[..|pat|] == pat then
      assert s == pat + s[|pat|..];
      rep + Replace(s[|pat|..], pat, rep)
    else
      assert s == [s[0]] + s[1..];
      [s[0]] + Replace(s[1..], pat, rep)
  }

  /** The number of occurrences `Replace` rewrites. */
  function Matches(s: string, pat: string): nat
    requires pat != []
    decreases |s|
  {
    if |s| < |pat| then 0
    else if s[..|pat|] == pat then 1 + Matches(s[|pat|..], pat)
    else Matches(s[1..], pat)
  }

  /** An occurrence in the tail of `s` is an occurrence in `s`, one place later. */
  lemma OccursInTail(s: string, pat: string)
    requires s != []
    ensures forall i: nat :: OccursAt(s[1..], pat, i) ==> OccursAt(s, pat, i + 1)
  {
    forall i: nat | OccursAt(s[1..], pat, i)
      ensures OccursAt(s, pat, i + 1)
    {
      assert s[1..][i..i + |pat|] == s[i + 1..i + 1 + |pat|];
    }
  }

  /** One more replacement adds one more length change. */
  lemma MulSucc(m: int, d: int)
    ensures (m + 1) * d == m * d + d
  {
  }

  /** Every replacement changes the length by |rep| - |pat|, and nothing else does. */
  lemma {:induction false} ReplaceLength(s: string, pat: string, rep: string)
    requires pat != []
    ensures |Replace(s, pat, rep)| == |s| + Matches(s, pat) * (|rep| - |pat|)
    decreases |s|
  {
    if |s| >= |pat| {
      var d := |rep| - |pat|;
      if s[..|pat|] == pat {
        var tail := s[|pat|..];
        var m := Matches(tail, pat);
        ReplaceLength(tail, pat, rep);
        assert Matches(s, pat) == m + 1;
        assert |Replace(s, pat, rep)| == |rep| + |Replace(tail, pat, rep)|;
        assert |s| == |pat| + |tail|;
        MulSucc(m, d);
      } else {
        ReplaceLength(s[1..], pat, rep);
        assert Replace(s, pat, rep) == [s[0]] + Replace(s[1..], pat, rep);
      }
    }
  }

  /** The scan replaces something exactly when `pat` occurs in `s`. */
  lemma {:induction false} MatchesIffOccurs(s: string, pat: string)
    requires pat != []
    ensures Matches(s, pat) > 0 <==> Occurs(s, pat)
    decreases |s|
  {
    if |s| >= |pat| {
      if s[..|pat|] == pat {
        assert OccursAt(s, pat, 0);
      } else {
        MatchesIffOccurs(s[1..], pat);
        OccursInTail(s, pat);
        if Occurs(s, pat) {
          var i: nat :| OccursAt(s, pat, i);
          assert i != 0;
          assert s[1..][i - 1..i - 1 + |pat|] == s[i..i + |pat|];
          assert OccursAt(s[1..], pat, i - 1);
        }
      }
    } else {
      assert forall i: nat :: !OccursAt(s, pat, i);
    }
  }

  /** A product of two non-zero numbers is non-zero: a length change that is not 0, made at least once, shows. */
  lemma ProductNonZero(a: int, b: int)
    requires a != 0 && b != 0
    ensures a * b != 0
  {
  }

  /**
   * A replacement of a different length leaves `s` unchanged exactly when
   * `pat` does not occur in it.
   */
  lemma ReplaceUnchangedIff(s: string, pat: string, rep: string)
    requires pat != [] && |rep| != |pat|
    ensures Replace(s, pat, rep) == s <==> !Occurs(s, pat)
  {
    MatchesIffOccurs(s, pat);
    ReplaceLength(s, pat, rep);
    if Matches(s, pat) != 0 {
      ProductNonZero(Matches(s, pat), |rep| - |pat|);
    }
  }

  /** A stem without ".jpeg" in it, followed by ".jpeg", does not start with ".jpeg". */
  lemma ExtNotAtStart(stem: string)
    requires stem != [] && !Occurs(stem, Ext)
    ensures (stem + Ext)[..|Ext|] != Ext
  {
    var s := stem + Ext;
    if |stem| >= |Ext| {
      assert s[..|Ext|] == stem[0..|Ext|];
      assert !OccursAt(stem, Ext, 0);
    } else {
      assert s[..|Ext|][|stem|] == '.';
      assert Ext[|stem|] != '.';
    }
  }

  /** A string without `pat` in it has none in its tail either. */
  lemma NoneInTail(s: string, pat: string)
    requires s != [] && !Occurs(s, pat)
    ensures !Occurs(s[1..], pat)
  {
    OccursInTail(s, pat);
  }

  /**
   * A path that ends in ".jpeg" and has no other occurrence of it gets the
   * new ending in place of ".jpeg": "out/a.jpeg" becomes "out/a-ndvi.jpeg".
   */
  lemma {:induction false} ReplaceExtension(stem: string, rep: string)
    requires !Occurs(stem, Ext)
    ensures Replace(stem + Ext, Ext, rep) == stem + rep
    decreases |stem|
  {
    var s := stem + Ext;
    if stem == [] {
      assert s == Ext && s[|Ext|..] == [];
    } else {
      ExtNotAtStart(stem);
      NoneInTail(stem, Ext);
      ReplaceExtension(stem[1..], rep);
      assert s[1..] == stem[1..] + Ext;
      assert [s[0]] + (stem[1..] + rep) == stem + rep;
    }
  }

  /**
   * Line 30: where the vegetation-index mask is saved.
   * Each ".jpeg" found grows the path by 5 characters; the path is the
   * output path itself exactly when ".jpeg" does not occur in it.
   */
  function NdviPath(outputPath: string): (p: string)
    ensures |p| == |outputPath| + 5 * Matches(outputPath, Ext)
    ensures p == outputPath <==> !Occurs(outputPath, Ext)
  {
    ReplaceLength(outputPath, Ext, "-ndvi.jpeg");
    ReplaceUnchangedIff(outputPath, Ext, "-ndvi.jpeg");
    Replace(outputPath, Ext, "-ndvi.jpeg")
  }

  /**
   * Lines 48 and 72: where the filtered mask is saved, and read back from.
   * Each ".jpeg" found grows the path by 9 characters; the path is the
   * output path itself exactly when ".jpeg" does not occur in it.
   */
  function ContentPath(outputPath: string): (p: string)
    ensures |p| == |outputPath| + 9 * Matches(outputPath, Ext)
    ensures p == outputPath <==> !Occurs(outputPath, Ext)
  {
    ReplaceLength(outputPath, Ext, "-content5.jpeg");
    ReplaceUnchangedIff(outputPath, Ext, "-content5.jpeg");
    Replace(outputPath, Ext, "-content5.jpeg")
  }

  /**
   * Line 90: where the annotated image is saved; the path handed back to the caller.
   * Each ".jpeg" found grows the path by 8 characters; the path is the
   * output path itself exactly when ".jpeg" does not occur in it.
   */
  function LabeledPath(outputPath: string): (p: string)
    ensures |p| == |outputPath| + 8 * Matches(outputPath, Ext)
    ensures p == outputPath <==> !Occurs(outputPath, Ext)
  {
    ReplaceLength(outputPath, Ext, "-labeled.jpeg");
    ReplaceUnchangedIff(outputPath, Ext, "-labeled.jpeg");
    Replace(outputPath, Ext, "-labeled.jpeg")
  }

  /**
   * When ".jpeg" occurs in `outputPath`, the four artifacts (the enhanced
   * image at `outputPath` itself and the three derived ones) get four
   * different paths: each derived path differs from `outputPath`, so at
   * least one ".jpeg" was replaced, and their lengths then all differ.
   */
  lemma DerivedPathsDistinct(outputPath: string)
    requires Occurs(outputPath, Ext)
    ensures outputPath != NdviPath(outputPath) && outputPath != ContentPath(outputPath)
    ensures outputPath != LabeledPath(outputPath) && NdviPath(outputPath) != ContentPath(outputPath)
    ensures NdviPath(outputPath) != LabeledPath(outputPath) && ContentPath(outputPath) != LabeledPath(outputPath)
  {
  }
}
