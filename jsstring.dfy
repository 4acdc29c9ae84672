/** `String.prototype.trim` (section 22.1.3.32 of ECMAScript 2024): the
    string without its leading and trailing white space and line
    terminators. */
module JsString {

  /** The characters `trim` removes: ECMAScript's WhiteSpace (tab, vertical
      tab, form feed, space, no-break space, the byte order mark and the
      other space separators) and LineTerminator (LF, CR, U+2028, U+2029). */
  predicate IsJsWhitespace(c: char) {
    var n := c as int;
    n == 0x09 || n == 0x0A || n == 0x0B || n == 0x0C || n == 0x0D || n == 0x20 || n == 0xA0
    || n == 0x1680 || (0x2000 <= n <= 0x200A) || n == 0x2028 || n == 0x2029 || n == 0x202F
    || n == 0x205F || n == 0x3000 || n == 0xFEFF
  }

  predicate AllWhitespace(s: string) {
    forall i :: 0 <= i < |s| ==> IsJsWhitespace(s[i])
  }

  /** The first index at or after `i` that does not hold whitespace (or
      `|s|`). */
  function SkipForward(s: string, i: nat): (n: nat)
    requires i <= |s|
    ensures i <= n <= |s|
    ensures forall k :: i <= k < n ==> IsJsWhitespace(s[k])
    ensures n < |s| ==> !IsJsWhitespace(s[n])
    decreases |s| - i
  {
    if i == |s| || !IsJsWhitespace(s[i]) then i else SkipForward(s, i + 1)
  }

  /** The end of `s[lo..j]` once its trailing whitespace is dropped. */
  function SkipBackward(s: string, lo: nat, j: nat): (n: nat)
    requires lo <= j <= |s|
    ensures lo <= n <= j
    ensures forall k :: n <= k < j ==> IsJsWhitespace(s[k])
    ensures n > lo ==> !IsJsWhitespace(s[n - 1])
    decreases j
  {
    if j == lo || !IsJsWhitespace(s[j - 1]) then j else SkipBackward(s, lo, j - 1)
  }

  /** `s.trim()`: `s` with its leading and trailing whitespace removed. */
  function Trim(s: string): (r: string)
    ensures r == [] || (!IsJsWhitespace(r[0]) && !IsJsWhitespace(r[|r| - 1]))
  {
    var a := SkipForward(s, 0);
    s[a..SkipBackward(s, a, |s|)]
  }

  /** The whitespace run at the start is the one the characters determine. */
  lemma SkipForwardIs(s: string, n: nat)
    requires n <= |s| && forall k :: 0 <= k < n ==> IsJsWhitespace(s[k])
    requires n < |s| ==> !IsJsWhitespace(s[n])
    ensures SkipForward(s, 0) == n
  {
  }

  /** So is the whitespace run at the end. */
  lemma SkipBackwardIs(s: string, lo: nat, n: nat)
    requires lo <= n <= |s| && forall k :: n <= k < |s| ==> IsJsWhitespace(s[k])
    requires n > lo ==> !IsJsWhitespace(s[n - 1])
    ensures SkipBackward(s, lo, |s|) == n
  {
  }

  /** A string is its leading whitespace, its trimmed core and its trailing
      whitespace, in that order. */
  lemma TrimSplits(s: string) returns (lead: string, trail: string)
    ensures s == lead + Trim(s) + trail
    ensures AllWhitespace(lead) && AllWhitespace(trail)
  {
    var a := SkipForward(s, 0);
    var b := SkipBackward(s, a, |s|);
    lead, trail := s[..a], s[b..];
    assert s == s[..a] + s[a..b] + s[b..];
    forall i | 0 <= i < |lead| ensures IsJsWhitespace(lead[i]) {
      assert lead[i] == s[i];
    }
    forall i | 0 <= i < |trail| ensures IsJsWhitespace(trail[i]) {
      assert trail[i] == s[b + i];
    }
  }

  lemma AllWhitespaceJoin(x: string, y: string)
    requires AllWhitespace(x) && AllWhitespace(y)
    ensures AllWhitespace(x + y)
  {
    forall i | 0 <= i < |x + y| ensures IsJsWhitespace((x + y)[i]) {
      if i < |x| { assert (x + y)[i] == x[i]; } else { assert (x + y)[i] == y[i - |x|]; }
    }
  }

  /** A string of whitespace only trims to the empty string. */
  lemma TrimOfBlank(w: string)
    requires AllWhitespace(w)
    ensures Trim(w) == []
  {
    SkipForwardIs(w, |w|);
  }

  /** Whatever the whitespace around a core that starts and ends with a
      non-whitespace character (or is empty), trimming yields that core. */
  lemma TrimOfPadded(a: string, r: string, b: string)
    requires AllWhitespace(a) && AllWhitespace(b)
    requires r == [] || (!IsJsWhitespace(r[0]) && !IsJsWhitespace(r[|r| - 1]))
    ensures Trim(a + r + b) == r
  {
    var s := a + r + b;
    if r == [] {
      AllWhitespaceJoin(a, b);
      assert s == a + b;
      TrimOfBlank(s);
    } else {
      var e := |a| + |r|;
      forall k | 0 <= k < |a| ensures IsJsWhitespace(s[k]) {
        assert s[k] == a[k];
      }
      assert s[|a|] == r[0];
      SkipForwardIs(s, |a|);
      forall k | e <= k < |s| ensures IsJsWhitespace(s[k]) {
        assert s[k] == b[k - e];
      }
      assert s[e - 1] == r[|r| - 1];
      SkipBackwardIs(s, |a|, e);
      assert s[|a|..e] == r;
    }
  }

  /** Leading and trailing whitespace added around a string never changes
      what it trims to. */
  lemma TrimIgnoresPadding(pre: string, s: string, post: string)
    requires AllWhitespace(pre) && AllWhitespace(post)
    ensures Trim(pre + s + post) == Trim(s)
  {
    var lead, trail := TrimSplits(s);
    var r := Trim(s);
    var a, b := pre + lead, trail + post;
    AllWhitespaceJoin(pre, lead);
    AllWhitespaceJoin(trail, post);
    assert pre + s + post == a + r + b by {
      assert s == lead + r + trail;
    }
    TrimOfPadded(a, r, b);
  }
}
