/**
 * The two string methods the operator applies to header names:
 * `str.replace(old, '')` (remove every occurrence, scanning left to right)
 * and `str.lower()` (restricted here to ASCII letters).
 */
module PyText {

  /** `pat` occurs in `s` starting at position `i`. */
  predicate OccursAt(s: string, pat: string, i: int)
  {
    0 <= i && i + |pat| <= |s| && s[i..i + |pat|] == pat
  }

  /** `s` holds no occurrence of `pat`. */
  predicate Free(s: string, pat: string)
  {
    forall i :: 0 <= i <= |s| - |pat| ==> !OccursAt(s, pat, i)
  }

  /**
   * `s.replace(pat, '')`: the leftmost occurrence is removed first and the
   * scan resumes after it, so occurrences that only appear once another one
   * has been cut out are kept.
   */
  function RemoveAll(s: string, pat: string): (r: string)
    requires |pat| > 0
    ensures |r| <= |s|
    decreases |s|
  {
    if |s| < |pat| then s
    else if s[..|pat|] == pat then RemoveAll(s[|pat|..], pat)
    else [s[0]] + RemoveAll(s[1..], pat)
  }

  /** A string without the pattern is left as it is. */
  lemma {:induction false} RemoveAllFree(s: string, pat: string)
    requires |pat| > 0
    ensures Free(s, pat) ==> RemoveAll(s, pat) == s
    decreases |s|
  {
    if Free(s, pat) && |s| >= |pat| {
      assert !OccursAt(s, pat, 0);
      assert s[..|pat|] != pat;
      var t := s[1..];
      forall i | 0 <= i <= |t| - |pat| ensures !OccursAt(t, pat, i) {
        assert !OccursAt(s, pat, i + 1);
        assert t[i..i + |pat|] == s[i + 1..i + 1 + |pat|];
      }
      RemoveAllFree(t, pat);
      assert s == [s[0]] + t;
    }
  }

  /** Occurrences are removed anywhere in the string, not only at its start. */
  lemma {:induction false} RemoveAllConcat(u: string, pat: string, v: string)
    requires |pat| > 0 && Free(u + pat[..|pat| - 1], pat)
    ensures RemoveAll(u + pat + v, pat) == u + RemoveAll(v, pat)
    decreases |u|
  {
    if u == [] {
      assert u + pat + v == pat + v;
      RemoveAllLeading(pat, v);
    } else {
      var w := u + pat[..|pat| - 1];
      FreeTail(w, pat);
      assert w[1..] == u[1..] + pat[..|pat| - 1];
      RemoveAllConcat(u[1..], pat, v);
      RemoveAllConcatStep(u, pat, v);
    }
  }

  /** The step of RemoveAllConcat: a first character that starts no occurrence is kept. */
  lemma RemoveAllConcatStep(u: string, pat: string, v: string)
    requires |pat| > 0 && |u| > 0 && Free(u + pat[..|pat| - 1], pat)
    requires RemoveAll(u[1..] + pat + v, pat) == u[1..] + RemoveAll(v, pat)
    ensures RemoveAll(u + pat + v, pat) == u + RemoveAll(v, pat)
  {
    var s := u + pat + v;
    HeadNotPattern(u, pat, v);
    assert s[1..] == u[1..] + pat + v;
    assert RemoveAll(s, pat) == [s[0]] + RemoveAll(s[1..], pat);
    assert [u[0]] + u[1..] == u;
  }

  /** A leading occurrence is dropped and the rest is scanned on. */
  lemma RemoveAllLeading(pat: string, v: string)
    requires |pat| > 0
    ensures RemoveAll(pat + v, pat) == RemoveAll(v, pat)
  {
    assert (pat + v)[..|pat|] == pat && (pat + v)[|pat|..] == v;
  }

  /** Under the premise of RemoveAllConcat, the pattern does not start the string. */
  lemma HeadNotPattern(u: string, pat: string, v: string)
    requires |pat| > 0 && |u| > 0 && Free(u + pat[..|pat| - 1], pat)
    ensures (u + pat + v)[..|pat|] != pat
  {
    var w := u + pat[..|pat| - 1];
    var s := u + pat + v;
    assert !OccursAt(w, pat, 0);
    forall i | 0 <= i < |pat| ensures s[i] == w[i] {
      if i >= |u| {
        assert s[i] == pat[i - |u|];
      }
    }
    assert s[..|pat|] == w[..|pat|];
  }

  /** Dropping the first character of a pattern-free string keeps it free. */
  lemma FreeTail(w: string, pat: string)
    requires |w| > 0 && Free(w, pat)
    ensures Free(w[1..], pat)
  {
    var t := w[1..];
    forall i | 0 <= i <= |t| - |pat| ensures !OccursAt(t, pat, i) {
      assert !OccursAt(w, pat, i + 1);
      assert t[i..i + |pat|] == w[i + 1..i + 1 + |pat|];
    }
  }

  /** A character is an upper-case ASCII letter. */
  predicate IsUpper(c: char)
  {
    'A' <= c <= 'Z'
  }

  /** `c.lower()` for ASCII; other characters are kept. */
  function LowerChar(c: char): (r: char)
    ensures !IsUpper(r)
    ensures IsUpper(c) ==> r as int == c as int + 32
    ensures !IsUpper(c) ==> r == c
  {
    if IsUpper(c) then (c as int + 32) as char else c
  }

  /** `s.lower()`: the same length, no upper-case letter left, each character lowered. */
  function Lower(s: string): (r: string)
    ensures |r| == |s|
    ensures forall i :: 0 <= i < |s| ==> r[i] == LowerChar(s[i]) && !IsUpper(r[i])
    ensures r == s <==> forall i :: 0 <= i < |s| ==> !IsUpper(s[i])
  {
    seq(|s|, i requires 0 <= i < |s| => LowerChar(s[i]))
  }

  /** Lowering twice is lowering once. */
  lemma LowerIdempotent(s: string)
    ensures Lower(Lower(s)) == Lower(s)
  {
  }
}
