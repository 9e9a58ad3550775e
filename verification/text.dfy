/** The string operations the converter borrows from Python's `str`:
    `endswith`, `split("/")[-1]`, `replace(pat, "")`, `rstrip("/")` and
    `lower()` (modelled on ASCII letters only). */
module Text {

  predicate StartsWith(s: string, prefix: string) {
    |prefix| <= |s| && s[..|prefix|] == prefix
  }

  predicate EndsWith(s: string, suffix: string) {
    |suffix| <= |s| && s[|s| - |suffix|..] == suffix
  }

  /** A string ends with `suffix` exactly when it is some string followed
      by `suffix`. */
  lemma EndsWithAppend(a: string, suffix: string)
    ensures EndsWith(a + suffix, suffix)
  {
    assert (a + suffix)[|a|..] == suffix;
  }

  lemma EndsWithSplit(s: string, suffix: string)
    requires EndsWith(s, suffix)
    ensures s == s[..|s| - |suffix|] + suffix
  {
  }

  /** `pat` occurs in `s` starting at index `i`. */
  predicate OccursAt(s: string, pat: string, i: int) {
    0 <= i && i + |pat| <= |s| && s[i..i + |pat|] == pat
  }

  ghost predicate Occurs(s: string, pat: string) {
    exists i :: OccursAt(s, pat, i)
  }

  /** No proper non-empty prefix of `pat` is also a suffix of it, so two
      occurrences of `pat` can never overlap. */
  ghost predicate BorderFree(pat: string) {
    forall k :: 0 < k < |pat| ==> pat[..k] != pat[|pat| - k..]
  }

  // ---------------------------------------------------------------------
  // split("/")[-1]
  // ---------------------------------------------------------------------

  /** The text after the last '/', or the whole string when it has none. */
  function LastSegment(s: string): (r: string)
    ensures EndsWith(s, r)
    ensures '/' !in r
    ensures r == s || s[|s| - |r| - 1] == '/'
    decreases |s|
  {
    if |s| == 0 then ""
    else if s[|s| - 1] == '/' then ""
    else LastSegment(s[..|s| - 1]) + [s[|s| - 1]]
  }

  /** Splitting `a + "/" + b` on '/' ends with `b` whatever `a` holds. */
  lemma {:induction false} LastSegmentAfterSlash(a: string, b: string)
    requires '/' !in b
    ensures LastSegment(a + "/" + b) == b
    decreases |b|
  {
    var s := a + "/" + b;
    if |b| > 0 {
      var b' := b[..|b| - 1];
      assert s[..|s| - 1] == a + "/" + b';
      LastSegmentAfterSlash(a, b');
      assert b' + [b[|b| - 1]] == b;
    }
  }

  /** The last segment of `prefix + "/" + x + pat + y` is `x + pat + y`
      when none of the three parts holds a '/'. */
  lemma LastSegmentOfSplice(prefix: string, x: string, pat: string, y: string)
    requires '/' !in x && '/' !in pat && '/' !in y
    ensures LastSegment(prefix + "/" + x + pat + y) == x + pat + y
  {
    var seg := x + pat + y;
    ConcatRegroup(prefix + "/", x, pat, y);
    LastSegmentAfterSlash(prefix, seg);
  }

  /** Regrouping a four-part concatenation; stated on its own because the
      solver does not find it among the '/'-freedom facts above. */
  lemma ConcatRegroup(a: string, x: string, pat: string, y: string)
    ensures a + x + pat + y == a + (x + pat + y)
  {
  }

  // ---------------------------------------------------------------------
  // replace(pat, "")
  // ---------------------------------------------------------------------

  /** Python's `s.replace(pat, "")`: scans left to right and deletes each
      non-overlapping occurrence of `pat`. */
  function RemoveAll(s: string, pat: string): (r: string)
    requires |pat| > 0
    ensures |r| <= |s|
    decreases |s|
  {
    if |s| == 0 then ""
    else if StartsWith(s, pat) then RemoveAll(s[|pat|..], pat)
    else [s[0]] + RemoveAll(s[1..], pat)
  }

  /** Deleting occurrences never introduces a character. */
  lemma {:induction false} RemoveAllKeepsChars(s: string, pat: string, c: char)
    requires |pat| > 0
    ensures c in RemoveAll(s, pat) ==> c in s
    decreases |s|
  {
    if |s| > 0 {
      if StartsWith(s, pat) {
        RemoveAllKeepsChars(s[|pat|..], pat, c);
      } else {
        RemoveAllKeepsChars(s[1..], pat, c);
      }
    }
  }

  /** An occurrence in the tail of `s` is an occurrence in `s`. */
  lemma OccursInTail(s: string, pat: string)
    requires |s| > 0
    ensures Occurs(s[1..], pat) ==> Occurs(s, pat)
  {
    if Occurs(s[1..], pat) {
      var i :| OccursAt(s[1..], pat, i);
      assert s[i + 1..i + 1 + |pat|] == s[1..][i..i + |pat|];
      assert OccursAt(s, pat, i + 1);
    }
  }

  /** If `x + pat + y` starts with `pat` although `x` is non-empty, then
      either `pat` already starts `x` or `pat` has a border. */
  lemma StartsWithBeforePattern(x: string, pat: string, y: string)
    requires |x| > 0
    ensures StartsWith(x + pat + y, pat) ==> OccursAt(x, pat, 0) || !BorderFree(pat)
  {
    var s := x + pat + y;
    if StartsWith(s, pat) {
      if |x| >= |pat| {
        assert s[..|pat|] == x[0..|pat|];
      } else {
        var k := |pat| - |x|;
        assert s[..|pat|] == x + pat[..k];
        assert pat[|x|..] == pat[..k] by {
          forall j | 0 <= j < k
            ensures pat[|x|..][j] == pat[..k][j]
          {
            assert pat[|x| + j] == s[|x| + j] == pat[j];
          }
        }
        assert pat[..k] == pat[|pat| - k..];
      }
    }
  }

  /** A string without any occurrence of `pat` is left unchanged. */
  lemma {:induction false} RemoveAllAbsent(s: string, pat: string)
    requires |pat| > 0
    requires !Occurs(s, pat)
    ensures RemoveAll(s, pat) == s
    decreases |s|
  {
    if |s| > 0 {
      assert !OccursAt(s, pat, 0);
      OccursInTail(s, pat);
      RemoveAllAbsent(s[1..], pat);
    }
  }

  /** Occurrences of a border-free pattern are removed wherever they sit,
      not only at the end: everything before the first occurrence is kept
      and the scan resumes right after it. */
  lemma {:induction false} RemoveAllSplices(x: string, pat: string, y: string)
    requires |pat| > 0
    requires BorderFree(pat)
    requires !Occurs(x, pat)
    ensures RemoveAll(x + pat + y, pat) == x + RemoveAll(y, pat)
    decreases |x|
  {
    var s := x + pat + y;
    if |x| == 0 {
      assert s == pat + y;
      assert s[|pat|..] == y;
    } else {
      assert !OccursAt(x, pat, 0);
      StartsWithBeforePattern(x, pat, y);
      OccursInTail(x, pat);
      assert !StartsWith(s, pat);
      assert RemoveAll(s, pat) == [s[0]] + RemoveAll(s[1..], pat);
      assert s[1..] == x[1..] + pat + y;
      RemoveAllSplices(x[1..], pat, y);
      assert [s[0]] + x[1..] == x;
    }
  }

  // ---------------------------------------------------------------------
  // rstrip("/")
  // ---------------------------------------------------------------------

  /** Drops every trailing '/': the result is the longest prefix of `s`
      that does not end in '/', and only slashes were cut. */
  function RstripSlash(s: string): (r: string)
    ensures r <= s
    ensures |r| == 0 || r[|r| - 1] != '/'
    ensures forall i :: |r| <= i < |s| ==> s[i] == '/'
    decreases |s|
  {
    if |s| > 0 && s[|s| - 1] == '/' then RstripSlash(s[..|s| - 1]) else s
  }

  // ---------------------------------------------------------------------
  // lower()
  // ---------------------------------------------------------------------

  function LowerChar(c: char): char {
    if 'A' <= c <= 'Z' then (c as int - 'A' as int + 'a' as int) as char else c
  }

  predicate IsLowerAscii(s: string) {
    forall i :: 0 <= i < |s| ==> !('A' <= s[i] <= 'Z')
  }

  /** ASCII lower-casing: same length, no upper-case letter left, and
      characters that are not upper-case letters kept in place. */
  function ToLower(s: string): (r: string)
    ensures |r| == |s|
    ensures IsLowerAscii(r)
    ensures forall i :: 0 <= i < |s| && !('A' <= s[i] <= 'Z') ==> r[i] == s[i]
    ensures forall i :: 0 <= i < |s| && 'A' <= s[i] <= 'Z' ==> r[i] as int == s[i] as int + 32
  {
    seq(|s|, i requires 0 <= i < |s| => LowerChar(s[i]))
  }

  /** A string already in lower case is its own lower-case form. */
  lemma ToLowerFixesLower(s: string)
    ensures IsLowerAscii(s) ==> ToLower(s) == s
  {
  }
}
