/**
 The string helpers of Go's standard library that the three programs rely on:
 `strings.TrimSpace`, `strings.ToUpper` (ASCII part), and decimal rendering of
 non-negative integers as done by `%d`.
 */
module Text {

  /** Go's `unicode.IsSpace`: the Latin-1 spaces plus the Unicode White_Space
      characters above Latin-1. */
  predicate IsSpace(c: char) {
    || c == '\t' || c == '\n' || c == '\U{000B}' || c == '\U{000C}' || c == '\r' || c == ' '
    || c == '\U{0085}' || c == '\U{00A0}' || c == '\U{1680}'
    || ('\U{2000}' <= c <= '\U{200A}')
    || c == '\U{2028}' || c == '\U{2029}' || c == '\U{202F}' || c == '\U{205F}'
    || c == '\U{3000}'
  }

  /** The index of the first non-space character at or after `i`, or `|s|`. */
  function SkipSpaces(s: string, i: nat): (r: nat)
    requires i <= |s|
    ensures i <= r <= |s|
    ensures forall k :: i <= k < r ==> IsSpace(s[k])
    ensures r == |s| || !IsSpace(s[r])
    decreases |s| - i
  {
    if i < |s| && IsSpace(s[i]) then SkipSpaces(s, i + 1) else i
  }

  /** The end of `s[lo..j]` once its trailing white space is dropped. */
  function BackSpaces(s: string, lo: nat, j: nat): (r: nat)
    requires lo <= j <= |s|
    ensures lo <= r <= j
    ensures forall k :: r <= k < j ==> IsSpace(s[k])
    ensures r == lo || !IsSpace(s[r - 1])
    decreases j
  {
    if lo < j && IsSpace(s[j - 1]) then BackSpaces(s, lo, j - 1) else j
  }

  /** `s[i..j]` is `s` with only white space cut from either end. */
  predicate CutAtSpaces(s: string, i: int, j: int) {
    && 0 <= i <= j <= |s|
    && (forall k :: 0 <= k < i ==> IsSpace(s[k]))
    && (forall k :: j <= k < |s| ==> IsSpace(s[k]))
  }

  lemma SliceWitness(s: string, i: int, j: int)
    requires CutAtSpaces(s, i, j)
    ensures exists i', j' :: CutAtSpaces(s, i', j') && s[i..j] == s[i'..j']
  {
  }

  /** `strings.TrimSpace`: the slice of `s` that neither starts nor ends with
      white space, obtained by cutting white space only. */
  function TrimSpace(s: string): (r: string)
    ensures exists i, j :: CutAtSpaces(s, i, j) && r == s[i..j]
    ensures r == [] || (!IsSpace(r[0]) && !IsSpace(r[|r| - 1]))
  {
    var i := SkipSpaces(s, 0);
    var j := BackSpaces(s, i, |s|);
    assert CutAtSpaces(s, i, j) by {
      assert forall k :: j <= k < |s| ==> IsSpace(s[k]);
    }
    SliceWitness(s, i, j);
    s[i..j]
  }

  /** A string with no white space at either end. */
  predicate Trimmed(s: string) {
    s == [] || (!IsSpace(s[0]) && !IsSpace(s[|s| - 1]))
  }

  /** A trimmed string is a fixed point of TrimSpace ... */
  lemma TrimSpaceFixesTrimmed(s: string)
    requires Trimmed(s)
    ensures TrimSpace(s) == s
  {
    assert SkipSpaces(s, 0) == 0;
    assert BackSpaces(s, 0, |s|) == |s|;
    assert s[0..|s|] == s;
  }

  /** ... so trimming twice is trimming once. */
  lemma TrimSpaceIdempotent(s: string)
    ensures TrimSpace(TrimSpace(s)) == TrimSpace(s)
  {
    TrimSpaceFixesTrimmed(TrimSpace(s));
  }

  lemma {:induction false} SkipToFirst(s: string, i: nat, n: nat)
    requires i <= n < |s| && !IsSpace(s[n])
    requires forall k :: i <= k < n ==> IsSpace(s[k])
    ensures SkipSpaces(s, i) == n
    decreases n - i
  {
    if i < n {
      SkipToFirst(s, i + 1, n);
    }
  }

  lemma {:induction false} BackToLast(s: string, lo: nat, j: nat, m: nat)
    requires lo < m <= j <= |s| && !IsSpace(s[m - 1])
    requires forall k :: m <= k < j ==> IsSpace(s[k])
    ensures BackSpaces(s, lo, j) == m
    decreases j
  {
    if m < j {
      BackToLast(s, lo, j - 1, m);
    }
  }

  /** Surrounding white space never reaches the result. */
  lemma TrimSpaceOfPadded(pre: string, s: string, post: string)
    requires forall k :: 0 <= k < |pre| ==> IsSpace(pre[k])
    requires forall k :: 0 <= k < |post| ==> IsSpace(post[k])
    requires Trimmed(s) && s != []
    ensures TrimSpace(pre + s + post) == s
  {
    var t := pre + s + post;
    var i := |pre|;
    var j := |pre| + |s|;
    forall k | 0 <= k < i ensures IsSpace(t[k]) {
      assert t[k] == pre[k];
    }
    forall k | j <= k < |t| ensures IsSpace(t[k]) {
      assert t[k] == post[k - j];
    }
    assert t[i] == s[0] && t[j - 1] == s[|s| - 1];
    SkipToFirst(t, 0, i);
    BackToLast(t, i, |t|, j);
    assert t[i..j] == s;
  }

  // ASCII case mapping

  predicate IsLowerAscii(c: char) {
    'a' <= c <= 'z'
  }

  predicate IsUpperAscii(c: char) {
    'A' <= c <= 'Z'
  }

  /** The upper-case form of one character; only ASCII letters change. */
  function UpperChar(c: char): (u: char)
    ensures IsLowerAscii(c) ==> IsUpperAscii(u) && u as int == c as int - 32
    ensures !IsLowerAscii(c) ==> u == c
    ensures !IsLowerAscii(u)
  {
    if IsLowerAscii(c) then (c as int - 32) as char else c
  }

  /** `strings.ToUpper` restricted to ASCII letters. */
  function ToUpper(s: string): (r: string)
    ensures |r| == |s|
    ensures forall k :: 0 <= k < |s| ==> r[k] == UpperChar(s[k])
  {
    seq(|s|, k requires 0 <= k < |s| => UpperChar(s[k]))
  }

  /** No lower-case ASCII letter is left. */
  predicate NoLowerAscii(s: string) {
    forall k :: 0 <= k < |s| ==> !IsLowerAscii(s[k])
  }

  /** ToUpper leaves a string alone exactly when it has no lower-case letter. */
  lemma ToUpperFixedIff(s: string)
    ensures ToUpper(s) == s <==> NoLowerAscii(s)
  {
    if ToUpper(s) == s {
      forall k | 0 <= k < |s| ensures !IsLowerAscii(s[k]) {
        assert ToUpper(s)[k] == UpperChar(s[k]);
      }
    }
  }

  lemma ToUpperIdempotent(s: string)
    ensures ToUpper(ToUpper(s)) == ToUpper(s)
  {
    ToUpperFixedIff(ToUpper(s));
  }

  // Decimal rendering

  function DigitChar(d: nat): (c: char)
    requires d < 10
    ensures '0' <= c <= '9'
  {
    ('0' as int + d) as char
  }

  function DigitValue(c: char): (d: nat)
    requires '0' <= c <= '9'
    ensures d < 10 && DigitChar(d) == c
  {
    c as int - '0' as int
  }

  /** Go's `%d` rendering of a non-negative integer. */
  function Decimal(n: nat): (s: string)
    ensures |s| >= 1
    ensures forall k :: 0 <= k < |s| ==> '0' <= s[k] <= '9'
    ensures |s| > 1 ==> s[0] != '0'
  {
    if n < 10 then [DigitChar(n)] else Decimal(n / 10) + [DigitChar(n % 10)]
  }

  /** The number a string of digits denotes. */
  function DecimalValue(s: string): nat
    requires forall k :: 0 <= k < |s| ==> '0' <= s[k] <= '9'
  {
    if s == [] then 0 else 10 * DecimalValue(s[..|s| - 1]) + DigitValue(s[|s| - 1])
  }

  /** Reading back the rendering gives the number. */
  lemma {:induction false} DecimalRoundTrip(n: nat)
    ensures DecimalValue(Decimal(n)) == n
  {
    if n >= 10 {
      var s := Decimal(n);
      assert s[..|s| - 1] == Decimal(n / 10);
      DecimalRoundTrip(n / 10);
    }
  }

  /** Distinct numbers render differently. */
  lemma DecimalInjective(m: nat, n: nat)
    requires Decimal(m) == Decimal(n)
    ensures m == n
  {
    DecimalRoundTrip(m);
    DecimalRoundTrip(n);
  }
}
