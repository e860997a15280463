/** Answer checking: `evaluate_answer` compares the stripped, lower-cased
    forms of the chosen option and the expected answer. */
module Grading {
  import opened Text

  /** The form both sides are reduced to before comparing. */
  function Normalize(s: string): string {
    Lower(Strip(s))
  }

  /** Lines 81-82. Equal stripped answers always match, and matching
      answers have stripped forms of the same length. */
  predicate EvaluateAnswer(user: string, correct: string): (r: bool)
    ensures Strip(user) == Strip(correct) ==> r
    ensures r ==> |Strip(user)| == |Strip(correct)|
  {
    Normalize(user) == Normalize(correct)
  }

  /** Two characters that differ at most in ASCII letter case. */
  predicate SameIgnoringCase(c: char, d: char) {
    || c == d
    || (IsUpper(c) && d as int == c as int + 32)
    || (IsUpper(d) && c as int == d as int + 32)
  }

  lemma SameIgnoringCaseLower(c: char, d: char)
    ensures SameIgnoringCase(c, d) <==> LowerChar(c) == LowerChar(d)
  {
  }

  lemma LowerEqualCharwise(a: string, b: string)
    ensures Lower(a) == Lower(b) <==>
      (|a| == |b| && forall i :: 0 <= i < |a| ==> SameIgnoringCase(a[i], b[i]))
  {
    if Lower(a) == Lower(b) {
      forall i | 0 <= i < |a|
        ensures SameIgnoringCase(a[i], b[i])
      {
        assert Lower(a)[i] == Lower(b)[i];
        SameIgnoringCaseLower(a[i], b[i]);
      }
    }
    if |a| == |b| && forall i :: 0 <= i < |a| ==> SameIgnoringCase(a[i], b[i]) {
      LowerEqualFromCharwise(a, b);
    }
  }

  lemma LowerEqualFromCharwise(a: string, b: string)
    requires |a| == |b| && forall i :: 0 <= i < |a| ==> SameIgnoringCase(a[i], b[i])
    ensures Lower(a) == Lower(b)
  {
    forall i | 0 <= i < |a|
      ensures Lower(a)[i] == Lower(b)[i]
    {
      SameIgnoringCaseLower(a[i], b[i]);
    }
  }

  /** A character-by-character reading of `evaluate_answer`: the stripped
      strings have the same length and agree up to ASCII case everywhere. */
  lemma EvaluateAnswerCharwise(user: string, correct: string)
    ensures EvaluateAnswer(user, correct) <==>
      (var a, b := Strip(user), Strip(correct);
       |a| == |b| && forall i :: 0 <= i < |a| ==> SameIgnoringCase(a[i], b[i]))
  {
    LowerEqualCharwise(Strip(user), Strip(correct));
  }

  lemma EvaluateAnswerReflexive(a: string)
    ensures EvaluateAnswer(a, a)
  {
  }

  lemma EvaluateAnswerSymmetric(a: string, b: string)
    ensures EvaluateAnswer(a, b) == EvaluateAnswer(b, a)
  {
  }

  lemma EvaluateAnswerTransitive(a: string, b: string, c: string)
    requires EvaluateAnswer(a, b) && EvaluateAnswer(b, c)
    ensures EvaluateAnswer(a, c)
  {
  }

  /** Whitespace around either side is ignored. */
  lemma EvaluateAnswerIgnoresSpace(w1: string, a: string, w2: string, b: string)
    requires AllSpace(w1) && AllSpace(w2)
    ensures EvaluateAnswer(w1 + a + w2, b) == EvaluateAnswer(a, b)
  {
    StripIgnoresSurroundingSpace(w1, a, w2);
  }

  lemma LowerConcat(a: string, b: string)
    ensures Lower(a + b) == Lower(a) + Lower(b)
  {
    assert forall i :: 0 <= i < |a + b| ==> Lower(a + b)[i] == (Lower(a) + Lower(b))[i] by {
      forall i | 0 <= i < |a + b|
        ensures Lower(a + b)[i] == (Lower(a) + Lower(b))[i]
      {
        if i >= |a| {
          assert (a + b)[i] == b[i - |a|];
        }
      }
    }
  }

  lemma LowerKeepsSpace(s: string)
    ensures AllSpace(s) ==> AllSpace(Lower(s))
    ensures |s| > 0 ==> (IsSpace(Lower(s)[0]) <==> IsSpace(s[0]))
    ensures |s| > 0 ==> (IsSpace(Lower(s)[|s| - 1]) <==> IsSpace(s[|s| - 1]))
  {
    forall i | 0 <= i < |s|
      ensures IsSpace(Lower(s)[i]) <==> IsSpace(s[i])
    {
      LowerCharKeepsSpace(s[i]);
    }
  }

  /** No ASCII capital is whitespace, and lower-casing yields no whitespace. */
  lemma LowerCharKeepsSpace(c: char)
    ensures IsSpace(LowerChar(c)) <==> IsSpace(c)
  {
    if IsUpper(c) {
      assert 'a' <= LowerChar(c) <= 'z';
    }
  }

  /** Lower-casing commutes with `strip`, since it maps whitespace to
      whitespace and nothing else to whitespace. */
  lemma StripLower(a: string)
    ensures Strip(Lower(a)) == Lower(Strip(a))
  {
    var m := Strip(a);
    var w1, w2 := StripSplit(a);
    var lw1, lm, lw2 := Lower(w1), Lower(m), Lower(w2);
    assert Lower(a) == lw1 + lm + lw2 by {
      LowerConcat(w1 + m, w2);
      LowerConcat(w1, m);
    }
    assert AllSpace(lw1) && AllSpace(lw2) by {
      LowerKeepsSpace(w1);
      LowerKeepsSpace(w2);
    }
    assert lm == [] || (!IsSpace(lm[0]) && !IsSpace(lm[|lm| - 1])) by {
      LowerKeepsSpace(m);
    }
    StripUnique(lw1, lm, lw2);
  }

  lemma LowerIdempotent(s: string)
    ensures Lower(Lower(s)) == Lower(s)
  {
  }

  /** Lower-casing either side first is ignored. */
  lemma EvaluateAnswerIgnoresCase(a: string, b: string)
    ensures EvaluateAnswer(Lower(a), b) == EvaluateAnswer(a, b)
  {
    StripLower(a);
    LowerIdempotent(Strip(a));
  }

  /** `" True "` matches `"true"`. */
  lemma EvaluateAnswerPadded()
    ensures EvaluateAnswer(" True ", "true")
  {
    assert " True " == " " + "True" + " ";
    assert AllSpace(" ");
    EvaluateAnswerIgnoresSpace(" ", "True", " ", "true");
    EvaluateAnswerBare();
  }

  lemma EvaluateAnswerBare()
    ensures EvaluateAnswer("True", "true")
  {
    StripOfSolid("True");
    StripOfSolid("true");
    LowerEqualFromCharwise("True", "true");
  }

  /** `"C. Paris"` matches `"c. paris"`. */
  lemma EvaluateAnswerCased()
    ensures EvaluateAnswer("C. Paris", "c. paris")
  {
    StripOfSolid("C. Paris");
    StripOfSolid("c. paris");
    LowerEqualFromCharwise("C. Paris", "c. paris");
  }

  /** `"B. Madrid"` does not match `"C. Paris"`. */
  lemma EvaluateAnswerDistinct()
    ensures !EvaluateAnswer("B. Madrid", "C. Paris")
  {
    StripOfSolid("B. Madrid");
    StripOfSolid("C. Paris");
    assert Lower("B. Madrid")[0] == 'b';
    assert Lower("C. Paris")[0] == 'c';
  }
}
