/**
 The Question Generator's handling of the language model's reply: the
 fixed sequence of rewrites applied before `json.loads` (strip, leading
 code fence, trailing code fence, curly quotes, trailing commas), and the
 fallback to an empty question list when the result does not parse.
 */
module Generator {
  import opened Wrappers
  import opened Text
  import opened QuizItems

  const Fence: string := "```"

  predicate StartsWith(s: string, p: string) {
    |p| <= |s| && s[..|p|] == p
  }

  predicate EndsWith(s: string, p: string) {
    |p| <= |s| && s[|s| - |p|..] == p
  }

  /** The letters of `json` as matched under `re.IGNORECASE` on a `str`
      pattern: either case, and the long s U+017F also matches `s`. */
  predicate IsJsonTag(t: string) {
    && |t| == 4
    && (t[0] == 'j' || t[0] == 'J')
    && (t[1] == 's' || t[1] == 'S' || t[1] == '\U{17F}')
    && (t[2] == 'o' || t[2] == 'O')
    && (t[3] == 'n' || t[3] == 'N')
  }

  predicate StartsWithJsonTag(s: string) {
    |s| >= 4 && IsJsonTag(s[..4])
  }

  // ---------------------------------------------------------------------
  // Code fences
  // ---------------------------------------------------------------------

  /** `re.sub(r"^```(?:json)?", "", s, flags=re.IGNORECASE)`: without
      MULTILINE, `^` only matches at the start, so at most one fence goes;
      the optional tag is greedy. The result is a suffix of `s`, and it
      differs from `s` exactly when `s` opens with a fence. */
  function StripLeadingFence(s: string): (r: string)
    ensures EndsWith(s, r)
    ensures r != s <==> StartsWith(s, Fence)
  {
    if StartsWith(s, Fence) then
      var rest := s[|Fence|..];
      if StartsWithJsonTag(rest) then rest[4..] else rest
    else
      s
  }

  /** `re.sub(r"```$", "", s)`: without MULTILINE, `$` matches at the very
      end and also just before a final newline; at most one of the two can
      be preceded by a fence. */
  function StripTrailingFence(s: string): (r: string)
    ensures |r| <= |s|
    ensures EndsWith(s, Fence) ==> r + Fence == s
    ensures !EndsWith(s, Fence) && EndsWith(s, Fence + "\n") ==>
      r == s[..|s| - |Fence| - 1] + "\n" && r[..|r| - 1] + Fence + "\n" == s
    ensures !EndsWith(s, Fence) && !EndsWith(s, Fence + "\n") ==> r == s
  {
    if EndsWith(s, Fence) then
      s[..|s| - |Fence|]
    else if EndsWith(s, Fence + "\n") then
      s[..|s| - |Fence| - 1] + "\n"
    else
      s
  }

  lemma LeadingFenceTagged(t: string, x: string)
    requires IsJsonTag(t)
    ensures StripLeadingFence(Fence + t + x) == x
  {
    var s := Fence + t + x;
    assert s[..|Fence|] == Fence;
    assert s[|Fence|..] == t + x;
    assert (t + x)[..4] == t;
    assert (t + x)[4..] == x;
  }

  lemma LeadingFenceBare(x: string)
    requires !StartsWithJsonTag(x)
    ensures StripLeadingFence(Fence + x) == x
  {
    var s := Fence + x;
    assert s[..|Fence|] == Fence;
    assert s[|Fence|..] == x;
  }

  lemma TrailingFenceRoundTrip(x: string)
    ensures StripTrailingFence(x + Fence) == x
  {
    var s := x + Fence;
    assert s[|s| - |Fence|..] == Fence;
    assert s[..|s| - |Fence|] == x;
  }

  // ---------------------------------------------------------------------
  // Curly quotes
  // ---------------------------------------------------------------------

  /** `str.replace` with a one-character pattern and replacement. */
  function Replace(s: string, from: char, to: char): (r: string)
    ensures |r| == |s|
    ensures forall i :: 0 <= i < |s| ==> r[i] == (if s[i] == from then to else s[i])
  {
    if |s| == 0 then [] else [if s[0] == from then to else s[0]] + Replace(s[1..], from, to)
  }

  /** U+201C, U+201D, U+2018 and U+2019. */
  predicate IsCurlyQuote(c: char) {
    c == '\U{201C}' || c == '\U{201D}' || c == '\U{2018}' || c == '\U{2019}'
  }

  predicate NoCurlyQuotes(s: string) {
    forall i :: 0 <= i < |s| ==> !IsCurlyQuote(s[i])
  }

  /** Line 72: the four chained replacements. Length is kept, curly double
      quotes become `"`, curly single quotes become `'`, every other
      character stays where it was, and no curly quote is left. */
  function NormalizeQuotes(s: string): (r: string)
    ensures |r| == |s|
    ensures forall i :: 0 <= i < |s| && (s[i] == '\U{201C}' || s[i] == '\U{201D}') ==> r[i] == '"'
    ensures forall i :: 0 <= i < |s| && (s[i] == '\U{2018}' || s[i] == '\U{2019}') ==> r[i] == '\''
    ensures forall i :: 0 <= i < |s| && !IsCurlyQuote(s[i]) ==> r[i] == s[i]
    ensures NoCurlyQuotes(r)
  {
    Replace(Replace(Replace(Replace(s, '\U{201C}', '"'), '\U{201D}', '"'), '\U{2018}', '\''), '\U{2019}', '\'')
  }

  lemma NormalizeQuotesIdempotent(s: string)
    ensures NormalizeQuotes(NormalizeQuotes(s)) == NormalizeQuotes(s)
  {
  }

  lemma NormalizeQuotesNoop(s: string)
    requires NoCurlyQuotes(s)
    ensures NormalizeQuotes(s) == s
  {
  }

  // ---------------------------------------------------------------------
  // Trailing commas
  // ---------------------------------------------------------------------

  predicate IsCloser(c: char) {
    c == ']' || c == '}'
  }

  /** Whether `,(\s*[\]}])` matches at position `i`. The greedy `\s*` stops
      at the first non-space, and backing off cannot help since a closer is
      never whitespace, so the match exists exactly when that first
      non-space character is a closer. */
  predicate CommaMatchAt(s: string, i: nat)
    requires i < |s|
  {
    && s[i] == ','
    && var k := SkipSpace(s, i + 1); k < |s| && IsCloser(s[k])
  }

  /** The regular expression's own reading, with `\s*` free to match any
      whitespace run. */
  lemma CommaMatchMeaning(s: string, i: nat)
    requires i < |s|
    ensures CommaMatchAt(s, i) <==>
      (s[i] == ',' && exists k :: i < k < |s| && IsCloser(s[k]) && forall j :: i < j < k ==> IsSpace(s[j]))
  {
    if s[i] == ',' && exists k :: i < k < |s| && IsCloser(s[k]) && forall j :: i < j < k ==> IsSpace(s[j]) {
      var k :| i < k < |s| && IsCloser(s[k]) && forall j :: i < j < k ==> IsSpace(s[j]);
      SkipSpaceLands(s, i + 1, k);
    }
  }

  /** `re.sub(r",(\s*[\]}])", r"\1", s[i..])` as the regex engine runs it:
      left to right, at a match emit group 1 and resume after the match,
      elsewhere copy one character. */
  function DropTrailingCommasFrom(s: string, i: nat): (r: string)
    requires i <= |s|
    ensures |r| <= |s| - i
    decreases |s| - i
  {
    if i == |s| then
      []
    else if CommaMatchAt(s, i) then
      var k := SkipSpace(s, i + 1);
      s[i + 1..k + 1] + DropTrailingCommasFrom(s, k + 1)
    else
      [s[i]] + DropTrailingCommasFrom(s, i + 1)
  }

  /** Line 73. Every character it emits comes from the input. */
  function DropTrailingCommas(s: string): (r: string)
    ensures |r| <= |s|
    ensures forall a :: 0 <= a < |r| ==> r[a] in s
  {
    KeptCharsOccur(s);
    DropTrailingCommasFrom(s, 0)
  }

  lemma KeptCharsOccur(s: string)
    ensures forall a :: 0 <= a < |DropTrailingCommasFrom(s, 0)| ==> DropTrailingCommasFrom(s, 0)[a] in s
  {
    DropTrailingCommasIsFilter(s, 0);
    var idx := KeepFromPositions(s, 0);
  }

  predicate NoDanglingComma(s: string) {
    forall i :: 0 <= i < |s| ==> !CommaMatchAt(s, i)
  }

  /** The reference definition: the characters at positions `>= i` that are
      not a comma followed (in the ORIGINAL string) by optional whitespace
      and a closer, in order. */
  function KeepFrom(s: string, i: nat): string
    requires i <= |s|
    decreases |s| - i
  {
    if i == |s| then []
    else (if CommaMatchAt(s, i) then [] else [s[i]]) + KeepFrom(s, i + 1)
  }

  lemma {:induction false} KeepFromNonCommas(s: string, i: nat, k: nat)
    requires i <= k <= |s|
    requires forall j :: i <= j < k ==> s[j] != ','
    ensures KeepFrom(s, i) == s[i..k] + KeepFrom(s, k)
    decreases k - i
  {
    if i < k {
      assert !CommaMatchAt(s, i);
      assert KeepFrom(s, i) == [s[i]] + KeepFrom(s, i + 1);
      KeepFromNonCommas(s, i + 1, k);
      assert s[i..k] == [s[i]] + s[i + 1..k];
    }
  }

  /** The single scan equals the pointwise filter over the original input:
      a match never swallows a comma after its first character, so no
      comma is hidden from the scan. */
  lemma {:induction false} DropTrailingCommasIsFilter(s: string, i: nat)
    requires i <= |s|
    ensures DropTrailingCommasFrom(s, i) == KeepFrom(s, i)
    decreases |s| - i
  {
    if i < |s| {
      if CommaMatchAt(s, i) {
        var k := SkipSpace(s, i + 1);
        DropTrailingCommasIsFilter(s, k + 1);
        KeepFromNonCommas(s, i + 1, k + 1);
      } else {
        DropTrailingCommasIsFilter(s, i + 1);
      }
    }
  }

  /** The filter keeps the other characters in order: `idx` lists the
      positions kept, increasing, and a position is kept exactly when no
      match starts there. */
  lemma {:induction false} KeepFromPositions(s: string, i: nat) returns (idx: seq<nat>)
    requires i <= |s|
    ensures |idx| == |KeepFrom(s, i)|
    ensures forall a, b :: 0 <= a < b < |idx| ==> idx[a] < idx[b]
    ensures forall a :: 0 <= a < |idx| ==> i <= idx[a] < |s| && KeepFrom(s, i)[a] == s[idx[a]]
    ensures forall j :: i <= j < |s| ==> (j in idx <==> !CommaMatchAt(s, j))
    decreases |s| - i
  {
    if i == |s| {
      idx := [];
    } else {
      var rest := KeepFromPositions(s, i + 1);
      var t := KeepFrom(s, i + 1);
      assert i !in rest;
      if CommaMatchAt(s, i) {
        assert KeepFrom(s, i) == t;
        idx := rest;
      } else {
        assert KeepFrom(s, i) == [s[i]] + t;
        idx := [i] + rest;
        forall a | 0 < a < |idx|
          ensures idx[a] == rest[a - 1] && KeepFrom(s, i)[a] == t[a - 1]
        {
        }
        forall j | i <= j < |s|
          ensures j in idx <==> j == i || j in rest
        {
        }
      }
    }
  }

  /** Line 73 deletes exactly the commas a match starts at and keeps every
      other character in its original order: `idx` lists the kept
      positions, increasing. */
  lemma DropTrailingCommasPositions(s: string) returns (idx: seq<nat>)
    ensures |idx| == |DropTrailingCommas(s)|
    ensures forall a, b :: 0 <= a < b < |idx| ==> idx[a] < idx[b]
    ensures forall a :: 0 <= a < |idx| ==> idx[a] < |s| && DropTrailingCommas(s)[a] == s[idx[a]]
    ensures forall j :: 0 <= j < |s| ==> (j in idx <==> !CommaMatchAt(s, j))
  {
    DropTrailingCommasIsFilter(s, 0);
    idx := KeepFromPositions(s, 0);
  }

  /** Input without a dangling comma passes through unchanged. */
  lemma {:induction false} KeepFromNoop(s: string, i: nat)
    requires i <= |s|
    requires forall j :: i <= j < |s| ==> !CommaMatchAt(s, j)
    ensures KeepFrom(s, i) == s[i..]
    decreases |s| - i
  {
    if i < |s| {
      KeepFromNoop(s, i + 1);
      assert s[i..] == [s[i]] + s[i + 1..];
    }
  }

  lemma DropTrailingCommasNoop(s: string)
    requires NoDanglingComma(s)
    ensures DropTrailingCommas(s) == s
  {
    DropTrailingCommasIsFilter(s, 0);
    KeepFromNoop(s, 0);
  }

  /** The pass is not idempotent: `",,]"` becomes `",]"`, which a second
      pass would turn into `"]"`. */
  lemma DropTrailingCommasNotIdempotent()
    ensures DropTrailingCommas(",,]") == ",]"
    ensures DropTrailingCommas(",]") == "]"
  {
    FirstPassOnDoubleComma();
    SecondPassOnDoubleComma();
  }

  lemma FirstPassOnDoubleComma()
    ensures DropTrailingCommasFrom(",,]", 0) == ",]"
  {
    var s := ",,]";
    assert SkipSpace(s, 2) == 2;
    assert CommaMatchAt(s, 1);
    assert DropTrailingCommasFrom(s, 1) == s[2..3] + DropTrailingCommasFrom(s, 3);
    assert SkipSpace(s, 1) == 1;
    assert !CommaMatchAt(s, 0);
    assert DropTrailingCommasFrom(s, 0) == [s[0]] + DropTrailingCommasFrom(s, 1);
  }

  lemma SecondPassOnDoubleComma()
    ensures DropTrailingCommasFrom(",]", 0) == "]"
  {
    var t := ",]";
    assert SkipSpace(t, 1) == 1;
    assert CommaMatchAt(t, 0);
    assert DropTrailingCommasFrom(t, 0) == t[1..2] + DropTrailingCommasFrom(t, 2);
  }

  // ---------------------------------------------------------------------
  // The whole pass and the parse
  // ---------------------------------------------------------------------

  /** Lines 69-73 in order. The result carries no curly quote. */
  function Sanitize(content: string): (raw: string)
    ensures NoCurlyQuotes(raw)
  {
    var raw1 := Strip(content);
    var raw2 := StripLeadingFence(Strip(raw1));
    var raw3 := StripTrailingFence(Strip(raw2));
    var raw4 := NormalizeQuotes(raw3);
    DropTrailingCommas(raw4)
  }

  lemma NoDanglingCommaThenSpace(x: string, w: string)
    requires NoDanglingComma(x) && AllSpace(w)
    ensures NoDanglingComma(x + w)
  {
    var s := x + w;
    forall i | 0 <= i < |s|
      ensures !CommaMatchAt(s, i)
    {
      if i >= |x| {
        assert s[i] == w[i - |x|];
      } else if s[i] == ',' {
        var k := SkipSpace(s, i + 1);
        if k < |x| {
          assert forall j :: i + 1 <= j < k ==> x[j] == s[j];
          SkipSpaceLands(x, i + 1, k);
          assert !CommaMatchAt(x, i);
        }
      }
    }
  }

  lemma NoCurlyQuotesThenSpace(x: string, w: string)
    requires NoCurlyQuotes(x) && AllSpace(w)
    ensures NoCurlyQuotes(x + w)
  {
    forall i | 0 <= i < |x + w|
      ensures !IsCurlyQuote((x + w)[i])
    {
      if i >= |x| {
        assert (x + w)[i] == w[i - |x|];
      }
    }
  }

  /** A reply with no surrounding whitespace, no fence at either end, no
      curly quote and no dangling comma reaches `json.loads` unchanged. */
  lemma SanitizeKeepsCleanReply(x: string)
    requires x == [] || (!IsSpace(x[0]) && !IsSpace(x[|x| - 1]))
    requires !StartsWith(x, Fence) && !EndsWith(x, Fence)
    requires NoCurlyQuotes(x) && NoDanglingComma(x)
    ensures Sanitize(x) == x
  {
    StripOfSolid(x);
    assert StripLeadingFence(x) == x;
    assert StripTrailingFence(x) == x;
    NormalizeQuotesNoop(x);
    DropTrailingCommasNoop(x);
  }

  /** A payload wrapped in a code fence, optionally tagged `json` in any
      case and padded with whitespace inside the fence, reaches `json.loads`
      with the fence and the leading padding gone. An untagged fence needs
      some padding after it, or the payload itself could be read as a tag. */
  lemma SanitizeUnwrapsFence(t: string, w1: string, x: string, w2: string)
    requires IsJsonTag(t) || (t == [] && w1 != [])
    requires AllSpace(w1) && AllSpace(w2)
    requires x != [] && !IsSpace(x[0])
    requires NoCurlyQuotes(x) && NoDanglingComma(x)
    ensures Sanitize(Fence + t + w1 + x + w2 + Fence) == x + w2
  {
    var c := Fence + t + w1 + x + w2 + Fence;
    FencesComeOff(t, w1, x, w2);
    NoCurlyQuotesThenSpace(x, w2);
    NormalizeQuotesNoop(x + w2);
    NoDanglingCommaThenSpace(x, w2);
    DropTrailingCommasNoop(x + w2);
  }

  /** Lines 69-71 on a fenced payload. */
  lemma FencesComeOff(t: string, w1: string, x: string, w2: string)
    requires IsJsonTag(t) || (t == [] && w1 != [])
    requires AllSpace(w1)
    requires x != [] && !IsSpace(x[0])
    ensures var c := Fence + t + w1 + x + w2 + Fence;
      StripTrailingFence(Strip(StripLeadingFence(Strip(Strip(c))))) == x + w2
  {
    var body := x + w2 + Fence;
    var inner := w1 + body;
    var c := Fence + t + inner;
    assert Fence + t + w1 + x + w2 + Fence == c;
    assert c[0] == '`' && c[|c| - 1] == '`';
    StripOfSolid(c);
    if t == [] {
      assert c == Fence + inner;
      assert !IsJsonTag(inner[..4]) by {
        assert inner[0] == w1[0];
      }
      LeadingFenceBare(inner);
    } else {
      LeadingFenceTagged(t, inner);
    }
    assert body[0] == x[0] && body[|body| - 1] == '`';
    assert inner == w1 + body + [];
    StripUnique(w1, body, []);
    TrailingFenceRoundTrip(x + w2);
  }

  /** Lines 74-79: `json.loads` is the opaque `parse`; when it fails the
      generator returns no questions instead of raising. */
  function ParseQuestions(content: string, parse: string -> Option<seq<QuizItem>>): (questions: seq<QuizItem>)
    ensures parse(Sanitize(content)).None? ==> questions == []
    ensures parse(Sanitize(content)).Some? ==> questions == parse(Sanitize(content)).value
  {
    match parse(Sanitize(content))
    case Some(items) => items
    case None => []
  }
}
