/**
 Python string primitives the training assistant relies on: `str.isspace`
 (which is also the class `\s` matches in a `str` regular expression),
 `str.strip()` with no argument, and `str.lower()` restricted to ASCII.
 */
module Text {

  /** The 29 code points for which Python's `str.isspace` holds. */
  predicate IsSpace(c: char) {
    || ('\t' <= c <= '\r')
    || ('\U{1C}' <= c <= '\U{1F}')
    || c == ' '
    || c == '\U{85}'
    || c == '\U{A0}'
    || c == '\U{1680}'
    || ('\U{2000}' <= c <= '\U{200A}')
    || c == '\U{2028}'
    || c == '\U{2029}'
    || c == '\U{202F}'
    || c == '\U{205F}'
    || c == '\U{3000}'
  }

  predicate AllSpace(s: string) {
    forall i :: 0 <= i < |s| ==> IsSpace(s[i])
  }

  /** Scans right from `i` past whitespace; the result is the first
      non-space position at or after `i`, or `|s|`. */
  function SkipSpace(s: string, i: nat): (k: nat)
    requires i <= |s|
    ensures i <= k <= |s|
    ensures forall j :: i <= j < k ==> IsSpace(s[j])
    ensures k < |s| ==> !IsSpace(s[k])
    decreases |s| - i
  {
    if i < |s| && IsSpace(s[i]) then SkipSpace(s, i + 1) else i
  }

  /** Scans left from `j`, not below `lo`, past whitespace; the result is
      just after the last non-space position before `j`, or `lo`. */
  function SkipSpaceBack(s: string, lo: nat, j: nat): (k: nat)
    requires lo <= j <= |s|
    ensures lo <= k <= j
    ensures forall t :: k <= t < j ==> IsSpace(s[t])
    ensures k > lo ==> !IsSpace(s[k - 1])
    decreases j
  {
    if j > lo && IsSpace(s[j - 1]) then SkipSpaceBack(s, lo, j - 1) else j
  }

  /** Python's `s.strip()`: first skip the leading whitespace, then the
      trailing whitespace of what remains. */
  function Strip(s: string): (r: string)
    ensures |r| <= |s|
    ensures r == [] || (!IsSpace(r[0]) && !IsSpace(r[|r| - 1]))
  {
    var i := SkipSpace(s, 0);
    var j := SkipSpaceBack(s, i, |s|);
    s[i..j]
  }

  lemma {:induction false} SkipSpaceLands(s: string, i: nat, k: nat)
    requires i <= k <= |s|
    requires forall j :: i <= j < k ==> IsSpace(s[j])
    requires k < |s| ==> !IsSpace(s[k])
    ensures SkipSpace(s, i) == k
    decreases k - i
  {
    if i < k {
      SkipSpaceLands(s, i + 1, k);
    }
  }

  lemma {:induction false} SkipSpaceBackLands(s: string, lo: nat, j: nat, k: nat)
    requires lo <= k <= j <= |s|
    requires forall t :: k <= t < j ==> IsSpace(s[t])
    requires k > lo ==> !IsSpace(s[k - 1])
    ensures SkipSpaceBack(s, lo, j) == k
    decreases j - k
  {
    if k < j {
      SkipSpaceBackLands(s, lo, j - 1, k);
    }
  }

  /** The reference meaning of `strip`: any split of a string into
      whitespace, a core that neither starts nor ends with whitespace, and
      whitespace, has that core as its `strip`. */
  lemma StripUnique(w1: string, m: string, w2: string)
    requires AllSpace(w1) && AllSpace(w2)
    requires m == [] || (!IsSpace(m[0]) && !IsSpace(m[|m| - 1]))
    ensures Strip(w1 + m + w2) == m
  {
    var s := w1 + m + w2;
    var a, b := |w1|, |w1| + |m|;
    assert forall j :: 0 <= j < a ==> s[j] == w1[j];
    assert forall j :: b <= j < |s| ==> s[j] == w2[j - b];
    assert forall j :: a <= j < b ==> s[j] == m[j - a];
    if m == [] {
      SkipSpaceLands(s, 0, |s|);
      SkipSpaceBackLands(s, |s|, |s|, |s|);
    } else {
      SkipSpaceLands(s, 0, a);
      SkipSpaceBackLands(s, a, |s|, b);
      assert s[a..b] == m;
    }
  }

  /** `strip` removes whitespace only: the input is the result with some
      whitespace before and after it. */
  lemma StripSplit(s: string) returns (w1: string, w2: string)
    ensures s == w1 + Strip(s) + w2
    ensures AllSpace(w1) && AllSpace(w2)
  {
    var i := SkipSpace(s, 0);
    var j := SkipSpaceBack(s, i, |s|);
    w1, w2 := s[..i], s[j..];
    assert s == s[..i] + s[i..j] + s[j..];
  }

  lemma AllSpaceConcat(a: string, b: string)
    requires AllSpace(a) && AllSpace(b)
    ensures AllSpace(a + b)
  {
    forall i | 0 <= i < |a + b|
      ensures IsSpace((a + b)[i])
    {
      if i >= |a| {
        assert (a + b)[i] == b[i - |a|];
      }
    }
  }

  /** Surrounding whitespace makes no difference to `strip`. */
  lemma StripIgnoresSurroundingSpace(w1: string, s: string, w2: string)
    requires AllSpace(w1) && AllSpace(w2)
    ensures Strip(w1 + s + w2) == Strip(s)
  {
    var m := Strip(s);
    var a, b := StripSplit(s);
    AllSpaceConcat(w1, a);
    AllSpaceConcat(b, w2);
    Regroup(w1, a, m, b, w2);
    StripUnique(w1 + a, m, b + w2);
  }

  lemma Regroup(w1: string, a: string, m: string, b: string, w2: string)
    ensures w1 + (a + m + b) + w2 == (w1 + a) + m + (b + w2)
  {
  }

  /** Stripping twice is stripping once (the code strips the reply twice). */
  lemma StripIdempotent(s: string)
    ensures Strip(Strip(s)) == Strip(s)
  {
    var m := Strip(s);
    assert [] + m + [] == m;
    StripUnique([], m, []);
  }

  /** A string with no whitespace at either end is its own `strip`. */
  lemma StripOfSolid(m: string)
    requires m == [] || (!IsSpace(m[0]) && !IsSpace(m[|m| - 1]))
    ensures Strip(m) == m
  {
    assert [] + m + [] == m;
    StripUnique([], m, []);
  }

  predicate IsUpper(c: char) {
    'A' <= c <= 'Z'
  }

  function LowerChar(c: char): char {
    if IsUpper(c) then (c as int + 32) as char else c
  }

  /** `str.lower()` on ASCII letters; every other character is kept. */
  function Lower(s: string): (r: string)
    ensures |r| == |s|
    ensures forall i :: 0 <= i < |s| ==> r[i] == LowerChar(s[i])
  {
    if |s| == 0 then [] else [LowerChar(s[0])] + Lower(s[1..])
  }
}
