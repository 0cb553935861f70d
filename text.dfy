/**
 * The java.lang.String operations the core relies on: trim(), the
 * "null or blank" test and the substring containment that SQL LIKE '%x%'
 * performs (without collation or wildcards).
 */
module Text {
  import opened Wrappers

  /** String.trim strips every character whose code is at most U+0020. */
  predicate IsTrimmable(c: char) {
    c <= ' '
  }

  /** Index of the first character that trim keeps; |s| when it keeps none. */
  function TrimStart(s: string): (k: nat)
    ensures k <= |s|
    ensures forall i :: 0 <= i < k ==> IsTrimmable(s[i])
    ensures k < |s| ==> !IsTrimmable(s[k])
  {
    if |s| == 0 || !IsTrimmable(s[0]) then 0 else 1 + TrimStart(s[1..])
  }

  /** One past the last character that trim keeps; 0 when it keeps none. */
  function TrimEnd(s: string): (k: nat)
    ensures k <= |s|
    ensures forall i :: k <= i < |s| ==> IsTrimmable(s[i])
    ensures k > 0 ==> !IsTrimmable(s[k - 1])
  {
    if |s| == 0 || !IsTrimmable(s[|s| - 1]) then |s| else TrimEnd(s[..|s| - 1])
  }

  /**
   * `r` is the piece of `s` that starts at `a`, and everything before and
   * after that piece is trimmable.
   */
  predicate StrippedAt(s: string, r: string, a: int) {
    0 <= a && a + |r| <= |s| && r == s[a..a + |r|]
    && (forall i :: 0 <= i < a ==> IsTrimmable(s[i]))
    && (forall i :: a + |r| <= i < |s| ==> IsTrimmable(s[i]))
  }

  /**
   * String.trim(): the piece of `s` left after stripping the trimmable
   * characters at both ends.
   */
  function Trim(s: string): (r: string)
    ensures |r| <= |s|
    ensures r == [] <==> forall i :: 0 <= i < |s| ==> IsTrimmable(s[i])
    ensures r != [] ==> !IsTrimmable(r[0]) && !IsTrimmable(r[|r| - 1])
    ensures exists a :: StrippedAt(s, r, a)
  {
    var a := TrimStart(s);
    var b := a + TrimEnd(s[a..]);
    assert forall i :: b <= i < |s| ==> IsTrimmable(s[i]) by {
      forall i | b <= i < |s|
        ensures IsTrimmable(s[i])
      {
        assert s[i] == s[a..][i - a];
      }
    }
    assert StrippedAt(s, s[a..b], a);
    s[a..b]
  }

  /** A string with nothing to strip at either end is its own trim. */
  lemma TrimOfTrimmed(s: string)
    requires s != [] ==> !IsTrimmable(s[0]) && !IsTrimmable(s[|s| - 1])
    ensures Trim(s) == s
  {
  }

  /** Trimming twice is trimming once. */
  lemma TrimIdempotent(s: string)
    ensures Trim(Trim(s)) == Trim(s)
  {
    TrimOfTrimmed(Trim(s));
  }

  /**
   * `value == null || value.trim().isEmpty()`: null or blank exactly when
   * absent or made only of trimmable characters.
   */
  predicate IsNullOrBlank(s: Option<string>)
    ensures IsNullOrBlank(s) <==> s.None? || forall i :: 0 <= i < |s.value| ==> IsTrimmable(s.value[i])
  {
    s.None? || Trim(s.value) == []
  }

  /** `s` contains `sub` as a contiguous piece (SQL `s LIKE '%sub%'`). */
  predicate Contains(s: string, sub: string) {
    exists i :: 0 <= i <= |s| && OccursAt(s, sub, i)
  }

  predicate OccursAt(s: string, sub: string, i: int) {
    0 <= i <= |s| - |sub| && s[i..i + |sub|] == sub
  }
}
