/**
 * The request path projected for one store: the candidate value with at
 * most one trailing, case-insensitive copy of the store's URL suffix
 * removed, followed by the suffix itself.
 */
module RequestPaths {

  /** PCRE's caseless matching without the UTF flag folds ASCII letters only. */
  function LowerAscii(c: char): char
  {
    if 'A' <= c <= 'Z' then (c as int + 32) as char else c
  }

  /** Equal up to ASCII case: what the `i` modifier compares. */
  predicate SameIgnoringCase(a: string, b: string)
  {
    |a| == |b| && forall i :: 0 <= i < |a| ==> LowerAscii(a[i]) == LowerAscii(b[i])
  }

  /**
   * `value` is `raw` with one copy of `suffix` (up to case) put back: either at
   * the very end, or just before a final newline.
   */
  predicate SuffixRemoved(value: string, raw: string, suffix: string)
  {
    |value| == |raw| + |suffix| &&
    ((value[..|raw|] == raw && SameIgnoringCase(value[|raw|..], suffix)) ||
     (0 < |raw| && raw[|raw| - 1] == '\n' && value[|value| - 1] == '\n' &&
      value[..|raw| - 1] == raw[..|raw| - 1] &&
      SameIgnoringCase(value[|raw| - 1..|value| - 1], suffix)))
  }

  /**
   * `preg_replace('#' . preg_quote($suffix) . '$#i', '', $value, 1)`. The
   * pattern's `$` matches at the end of the subject and also just before a
   * final newline; of the two places the leftmost match wins, and the limit
   * of 1 removes at most one copy.
   */
  function StripSuffix(value: string, suffix: string): string
  {
    var n, m := |value|, |suffix|;
    if m < n && value[n - 1] == '\n' && SameIgnoringCase(value[n - 1 - m..n - 1], suffix) then
      value[..n - 1 - m] + "\n"
    else if m <= n && SameIgnoringCase(value[n - m..], suffix) then
      value[..n - m]
    else
      value
  }

  /** `$rawValue . $suffix`: the request path recorded for a store with that suffix. */
  function RequestPath(value: string, suffix: string): string
  {
    StripSuffix(value, suffix) + suffix
  }

  /** At most one copy of the suffix, up to case, is removed, and only at the end. */
  lemma StripSuffixRemovesAtMostOne(value: string, suffix: string)
    ensures var raw := StripSuffix(value, suffix); raw == value || SuffixRemoved(value, raw, suffix)
  {
    var n, m := |value|, |suffix|;
    var raw := StripSuffix(value, suffix);
    if m < n && value[n - 1] == '\n' && SameIgnoringCase(value[n - 1 - m..n - 1], suffix) {
      assert raw == value[..n - 1 - m] + "\n";
      assert raw[..|raw| - 1] == value[..n - 1 - m];
      assert value[|raw| - 1..|value| - 1] == value[n - 1 - m..n - 1];
      assert SuffixRemoved(value, raw, suffix);
    } else if m <= n && SameIgnoringCase(value[n - m..], suffix) {
      assert raw == value[..n - m];
      assert value[..|raw|] == raw && value[|raw|..] == value[n - m..];
      assert SuffixRemoved(value, raw, suffix);
    } else {
      assert raw == value;
    }
  }

  /**
   * The request path ends with the exact suffix, and what precedes it is the
   * value with at most one trailing copy of the suffix removed.
   */
  lemma RequestPathShape(value: string, suffix: string)
    ensures var path := RequestPath(value, suffix);
      |suffix| <= |path| && path[|path| - |suffix|..] == suffix &&
      (path[..|path| - |suffix|] == value || SuffixRemoved(value, path[..|path| - |suffix|], suffix))
  {
    var raw := StripSuffix(value, suffix);
    StripSuffixRemovesAtMostOne(value, suffix);
    assert (raw + suffix)[..|raw|] == raw;
  }

  lemma SameIgnoringCaseReflexive(s: string)
    ensures SameIgnoringCase(s, s)
  {
  }

  /** Case folding never produces or removes a newline. */
  lemma FoldKeepsNewline(a: char, b: char)
    requires LowerAscii(a) == LowerAscii(b)
    ensures a == '\n' <==> b == '\n'
  {
  }

  /** With the empty suffix (or a null one) nothing is stripped. */
  lemma {:induction false} StripEmptySuffix(value: string)
    ensures StripSuffix(value, "") == value
  {
    var n := |value|;
    if 0 < n && value[n - 1] == '\n' {
      assert value[..n - 1] + "\n" == value;
    } else {
      assert value[..n] == value;
    }
  }

  /** Projecting an already projected path changes nothing. */
  lemma RequestPathIdempotent(value: string, suffix: string)
    ensures RequestPath(RequestPath(value, suffix), suffix) == RequestPath(value, suffix)
  {
    var path := RequestPath(value, suffix);
    RequestPathShape(value, suffix);
    SameIgnoringCaseReflexive(suffix);
    StripCaseFoldedCopy(path, suffix);
    assert path[..|path| - |suffix|] + suffix == path;
  }

  /**
   * A value ending with the suffix up to case loses exactly that copy. The
   * strip may take the copy before a final newline instead, but only when the
   * suffix is all newlines, and then it removes the same characters.
   */
  lemma StripCaseFoldedCopy(value: string, suffix: string)
    requires |suffix| <= |value| && SameIgnoringCase(value[|value| - |suffix|..], suffix)
    ensures StripSuffix(value, suffix) == value[..|value| - |suffix|]
  {
    var n, m := |value|, |suffix|;
    if m < n && value[n - 1] == '\n' && SameIgnoringCase(value[n - 1 - m..n - 1], suffix) {
      if m == 0 {
        assert value[..n - 1] + "\n" == value[..n];
      } else {
        NewlineBeforeShiftedCopy(value, suffix);
        assert value[..n - 1 - m] + "\n" == value[..n - m];
      }
    }
  }

  /**
   * When a value ends with the suffix up to case, and also holds a copy of it
   * just before its final newline, the two copies overlap: the suffix is all
   * newlines, and so is the character before the copy at the end.
   */
  lemma NewlineBeforeShiftedCopy(value: string, suffix: string)
    requires 0 < |suffix| < |value|
    requires SameIgnoringCase(value[|value| - |suffix|..], suffix)
    requires value[|value| - 1] == '\n'
    requires SameIgnoringCase(value[|value| - 1 - |suffix|..|value| - 1], suffix)
    ensures value[|value| - 1 - |suffix|] == '\n'
  {
    var n, m := |value|, |suffix|;
    ShiftedCopyAllNewlines(value, suffix, 0);
    FoldKeepsNewline(value[n - 1 - m..n - 1][0], suffix[0]);
  }

  /**
   * A path ending with `suffix` (up to case) whose last newline is preceded by
   * another copy of `suffix` (up to case): from index `k` on, `suffix` is
   * newlines.
   */
  lemma {:induction false} ShiftedCopyAllNewlines(path: string, suffix: string, k: nat)
    requires 0 < |suffix| < |path| && k < |suffix|
    requires SameIgnoringCase(path[|path| - |suffix|..], suffix)
    requires path[|path| - 1] == '\n'
    requires SameIgnoringCase(path[|path| - 1 - |suffix|..|path| - 1], suffix)
    ensures suffix[k] == '\n'
    decreases |suffix| - k
  {
    var n, m := |path|, |suffix|;
    if k < m - 1 {
      ShiftedCopyAllNewlines(path, suffix, k + 1);
      assert path[n - 1 - m..n - 1][k + 1] == path[n - m..][k];
      FoldKeepsNewline(suffix[k], suffix[k + 1]);
    } else {
      assert path[n - m..][m - 1] == path[n - 1];
      FoldKeepsNewline(path[n - 1], suffix[m - 1]);
    }
  }

  /**
   * A value that already ends with the suffix in another letter case gets the
   * suffix in its configured case: `shoes.HTML` becomes `shoes.html`.
   */
  lemma RequestPathNormalisesCase(stem: string, tail: string, suffix: string)
    requires SameIgnoringCase(tail, suffix)
    ensures RequestPath(stem + tail, suffix) == stem + suffix
  {
    var value := stem + tail;
    assert value[|value| - |suffix|..] == tail;
    assert value[..|value| - |suffix|] == stem;
    StripCaseFoldedCopy(value, suffix);
  }

  /**
   * A value without a trailing newline that does not end with the suffix (up to
   * case) gets the suffix appended as it is.
   */
  lemma RequestPathAppends(value: string, suffix: string)
    requires value == [] || value[|value| - 1] != '\n'
    requires |value| < |suffix| || !SameIgnoringCase(value[|value| - |suffix|..], suffix)
    ensures RequestPath(value, suffix) == value + suffix
  {
  }

  /**
   * The `$` anchor also matches before a final newline, so the suffix is cut
   * out of the middle: `shoes.html` followed by a newline projects to `shoes`,
   * a newline, then `.html`.
   */
  lemma RequestPathBeforeFinalNewline()
    ensures RequestPath("shoes.html\n", ".html") == "shoes\n.html"
  {
    var value := "shoes.html\n";
    assert value[5..10] == ".html";
    SameIgnoringCaseReflexive(".html");
    assert value[..5] == "shoes";
  }
}
