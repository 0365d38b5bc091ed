/**
 * Character-sequence predicates of the core string utilities: blankness,
 * numeric and integral literals, and counting occurrences.
 * A nullable CharSequence is an Option<string>; a @NotNull one is a string.
 */
module StringUtils {
  import opened Wrappers

  /** Character.isWhitespace on the Basic Multilingual Plane: the Unicode space,
    * line and paragraph separators other than the no-break spaces, and the
    * control characters U+0009..U+000D and U+001C..U+001F. */
  predicate IsWhitespace(c: char) {
    c == ' ' || ('\t' <= c <= '\r') || ('\U{1C}' <= c <= '\U{1F}')
    || c == '\U{1680}' || ('\U{2000}' <= c <= '\U{2006}') || ('\U{2008}' <= c <= '\U{200A}')
    || c == '\U{2028}' || c == '\U{2029}' || c == '\U{205F}' || c == '\U{3000}'
  }

  predicate IsDigit(c: char) { '0' <= c <= '9' }

  /** Every character is whitespace (so in particular the empty string). */
  predicate AllWhitespace(s: string) {
    forall i :: 0 <= i < |s| ==> IsWhitespace(s[i])
  }

  /** A decimal literal: one digit alone, or a '-' or digit first, a digit last,
    * and only digits and at most one '.' in between. */
  predicate Numeric(s: string) {
    if |s| == 0 then false
    else if |s| == 1 then IsDigit(s[0])
    else
      (s[0] == '-' || IsDigit(s[0])) && IsDigit(s[|s| - 1])
      && (forall i :: 1 <= i < |s| - 1 ==> IsDigit(s[i]) || s[i] == '.')
      && (forall i, j :: 1 <= i < j < |s| - 1 && s[i] == '.' ==> s[j] != '.')
  }

  /** An integer literal: like Numeric, with only digits in between. */
  predicate Integral(s: string) {
    if |s| == 0 then false
    else if |s| == 1 then IsDigit(s[0])
    else
      (s[0] == '-' || IsDigit(s[0])) && IsDigit(s[|s| - 1])
      && (forall i :: 1 <= i < |s| - 1 ==> IsDigit(s[i]))
  }

  /** isBlank: true for the empty string and for all-whitespace input. */
  method IsBlank(s: string) returns (b: bool)
    ensures b <==> AllWhitespace(s)
    ensures |s| == 0 ==> b
  {
    if |s| == 0 {
      return true;
    }
    var i := 0;
    while i < |s|
      invariant 0 <= i <= |s|
      invariant forall k :: 0 <= k < i ==> IsWhitespace(s[k])
    {
      if !IsWhitespace(s[i]) {
        return false;
      }
      i := i + 1;
    }
    return true;
  }

  /** isNullOrBlank: null, empty or all whitespace. */
  method IsNullOrBlank(s: Option<string>) returns (b: bool)
    ensures b <==> s.None? || AllWhitespace(s.value)
  {
    if s.None? || |s.value| == 0 {
      return true;
    }
    b := IsBlank(s.value);
  }

  /** isNumeric, as the index loop with its `dotAlreadyExists` flag. */
  method IsNumeric(s: Option<string>) returns (b: bool)
    ensures b <==> s.Some? && Numeric(s.value)
  {
    var blank := IsNullOrBlank(s);
    if blank {
      return false;
    }
    var cs := s.value;
    var length := |cs|;
    var c := cs[0];
    if length == 1 {
      return '0' <= c <= '9';
    }
    if c != '-' && (c < '0' || c > '9') {
      return false;
    }
    c := cs[length - 1];
    if c < '0' || c > '9' {
      return false;
    }
    length := length - 1;
    var dotAlreadyExists := false;
    var i := 1;
    while i < length
      invariant 1 <= i <= length
      invariant forall k :: 1 <= k < i ==> IsDigit(cs[k]) || cs[k] == '.'
      invariant forall k, l :: 1 <= k < l < i && cs[k] == '.' ==> cs[l] != '.'
      invariant dotAlreadyExists <==> exists k :: 1 <= k < i && cs[k] == '.'
    {
      c := cs[i];
      if c == '.' {
        if dotAlreadyExists {
          return false;
        }
        dotAlreadyExists := true;
        i := i + 1;
        continue;
      }
      if c < '0' || c > '9' {
        return false;
      }
      i := i + 1;
    }
    return true;
  }

  /** isIntegral: the same scan without the dot. */
  method IsIntegral(s: Option<string>) returns (b: bool)
    ensures b <==> s.Some? && Integral(s.value)
  {
    var blank := IsNullOrBlank(s);
    if blank {
      return false;
    }
    var cs := s.value;
    var length := |cs|;
    var c := cs[0];
    if length == 1 {
      return '0' <= c <= '9';
    }
    if c != '-' && (c < '0' || c > '9') {
      return false;
    }
    c := cs[length - 1];
    if c < '0' || c > '9' {
      return false;
    }
    length := length - 1;
    var i := 1;
    while i < length
      invariant 1 <= i <= length
      invariant forall k :: 1 <= k < i ==> IsDigit(cs[k])
    {
      c := cs[i];
      if c < '0' || c > '9' {
        return false;
      }
      i := i + 1;
    }
    return true;
  }

  /** Every integral literal is also a numeric one. */
  lemma IntegralIsNumeric(s: string)
    ensures Integral(s) ==> Numeric(s)
  {
  }

  /** Blank input (empty or all whitespace) is neither numeric nor integral. */
  lemma BlankIsNotNumeric(s: string)
    ensures AllWhitespace(s) ==> !Numeric(s) && !Integral(s)
  {
    if |s| > 0 && AllWhitespace(s) {
      assert IsWhitespace(s[0]);
    }
  }

  /** countMatches(CharSequence, char): the number of positions holding `c`. */
  method CountMatchesChar(s: Option<string>, c: char) returns (count: nat)
    ensures s.None? ==> count == 0
    ensures s.Some? ==> count == multiset(s.value)[c]
  {
    if s.None? || |s.value| == 0 {
      return 0;
    }
    var cs := s.value;
    count := 0;
    var i := 0;
    while i < |cs|
      invariant 0 <= i <= |cs|
      invariant count == multiset(cs[..i])[c]
    {
      assert cs[..i + 1] == cs[..i] + [cs[i]];
      if cs[i] == c {
        count := count + 1;
      }
      i := i + 1;
    }
    assert cs[..i] == cs;
  }

  /** `pat` occurs in `s` at index `k`. */
  predicate OccursAt(s: string, pat: string, k: int) {
    0 <= k && k + |pat| <= |s| && s[k..k + |pat|] == pat
  }

  /**
   * What countMatches(CharSequence, CharSequence) computes on the rest `s` of
   * the input while `matching` characters of `pat` are matched: a character
   * equal to the next pattern character advances, a complete match counts one
   * and starts over, and any other character starts over without being
   * compared with the first pattern character again.
   */
  function GreedyCount(s: string, pat: string, matching: nat): nat
    requires matching < |pat|
  {
    if |s| == 0 then 0
    else if s[0] == pat[matching] then
      if matching + 1 >= |pat| then 1 + GreedyCount(s[1..], pat, 0)
      else GreedyCount(s[1..], pat, matching + 1)
    else GreedyCount(s[1..], pat, 0)
  }

  /** Each counted match consumed |pat| characters, `matching` of them before `s`. */
  lemma {:induction false} GreedyCountBound(s: string, pat: string, matching: nat)
    requires matching < |pat|
    ensures GreedyCount(s, pat, matching) * |pat| <= |s| + matching
  {
    if |s| > 0 {
      if s[0] == pat[matching] {
        if matching + 1 >= |pat| {
          GreedyCountBound(s[1..], pat, 0);
        } else {
          GreedyCountBound(s[1..], pat, matching + 1);
        }
      } else {
        GreedyCountBound(s[1..], pat, 0);
      }
    }
  }

  /** countMatches(CharSequence, CharSequence) as written (the matching loop). */
  method CountMatches(s: Option<string>, pat: Option<string>) returns (count: nat)
    ensures s.None? || pat.None? || |s.value| == 0 || |pat.value| == 0 ==> count == 0
    ensures s.Some? && pat.Some? && |s.value| < |pat.value| ==> count == 0
    ensures s.Some? && pat.Some? && |pat.value| > 0 ==> count * |pat.value| <= |s.value|
    ensures s.Some? && pat.Some? && 0 < |pat.value| <= |s.value| ==> count == GreedyCount(s.value, pat.value, 0)
  {
    if s.None? || |s.value| == 0 || pat.None? || |pat.value| == 0 {
      return 0;
    }
    var cs, m := s.value, pat.value;
    if |cs| < |m| {
      return 0;
    }
    count := 0;
    var matching := 0;
    var i := 0;
    while i < |cs|
      invariant 0 <= i <= |cs|
      invariant 0 <= matching < |m|
      invariant count + GreedyCount(cs[i..], m, matching) == GreedyCount(cs, m, 0)
    {
      assert cs[i..][1..] == cs[i + 1..];
      if cs[i] == m[matching] {
        matching := matching + 1;
        if matching >= |m| {
          matching := 0;
          count := count + 1;
        }
      } else {
        matching := 0;
      }
      i := i + 1;
    }
    GreedyCountBound(cs, m, 0);
  }

  /** The input that shows the missed occurrence: "ab" occurs in "aab" at
    * index 1, yet the scan as written counts none, because the second 'a'
    * breaks the partial match and is not tried as the start of a new one. */
  lemma CountMatchesMissesOverlappingStart()
    ensures OccursAt("aab", "ab", 1)
    ensures GreedyCount("aab", "ab", 0) == 0
  {
    assert "aab"[1..3] == "ab";
    assert "aab"[1..] == "ab";
    assert "aab"[1..][1..] == "b";
    assert "b"[1..] == "";
  }

  /** Non-overlapping occurrences, leftmost first: the count the scan is meant to give. */
  function NonOverlappingCount(s: string, pat: string): nat
    requires |pat| > 0
    decreases |s|
  {
    if |s| < |pat| then 0
    else if s[..|pat|] == pat then 1 + NonOverlappingCount(s[|pat|..], pat)
    else NonOverlappingCount(s[1..], pat)
  }

  /** The corrected count is zero exactly when the pattern does not occur. */
  lemma {:induction false} NonOverlappingCountZero(s: string, pat: string)
    requires |pat| > 0
    ensures NonOverlappingCount(s, pat) == 0 <==> forall k :: !OccursAt(s, pat, k)
    decreases |s|
  {
    if |s| < |pat| {
    } else if s[..|pat|] == pat {
      assert OccursAt(s, pat, 0);
    } else {
      NonOverlappingCountZero(s[1..], pat);
      assert s[0..|pat|] == s[..|pat|];
      forall k ensures OccursAt(s, pat, k) <==> k > 0 && OccursAt(s[1..], pat, k - 1) {
        if 0 < k && k + |pat| <= |s| {
          assert s[1..][k - 1..k - 1 + |pat|] == s[k..k + |pat|];
        }
      }
      if NonOverlappingCount(s, pat) != 0 {
        var k :| OccursAt(s[1..], pat, k);
        assert OccursAt(s, pat, k + 1);
      }
    }
  }

  /** The corrected count never exceeds |s| / |pat| (stated multiplied out). */
  lemma {:induction false} NonOverlappingCountBound(s: string, pat: string)
    requires |pat| > 0
    ensures NonOverlappingCount(s, pat) * |pat| <= |s|
    decreases |s|
  {
    if |s| < |pat| {
    } else if s[..|pat|] == pat {
      NonOverlappingCountBound(s[|pat|..], pat);
    } else {
      NonOverlappingCountBound(s[1..], pat);
    }
  }

  /** countMatches(CharSequence, CharSequence) corrected: after a mismatch the
    * scan resumes one character after the start of the broken partial match. */
  method CountMatchesCorrected(s: Option<string>, pat: Option<string>) returns (count: nat)
    ensures s.None? || pat.None? || |s.value| == 0 || |pat.value| == 0 ==> count == 0
    ensures s.Some? && pat.Some? && |pat.value| > 0 ==> count == NonOverlappingCount(s.value, pat.value)
  {
    if s.None? || |s.value| == 0 || pat.None? || |pat.value| == 0 {
      return 0;
    }
    var cs, m := s.value, pat.value;
    count := 0;
    var i := 0;
    while i + |m| <= |cs|
      invariant 0 <= i <= |cs|
      invariant count + NonOverlappingCount(cs[i..], m) == NonOverlappingCount(cs, m)
      decreases |cs| - i
    {
      if cs[i..i + |m|] == m {
        assert cs[i..][..|m|] == cs[i..i + |m|];
        assert cs[i..][|m|..] == cs[i + |m|..];
        count := count + 1;
        i := i + |m|;
      } else {
        assert cs[i..][..|m|] == cs[i..i + |m|];
        assert cs[i..][1..] == cs[i + 1..];
        i := i + 1;
      }
    }
  }
}
