/** `normalizeText` (app.js:19-21): upper-case the text, then drop everything outside A-Z. */
module Normalizer {
  import opened Chars

  predicate AllUpper(s: string) {
    forall i :: 0 <= i < |s| ==> IsUpper(s[i])
  }

  function NormalizeText(text: string): (r: string)
    requires IsAscii(text)
    ensures AllUpper(r)
    ensures |r| == LetterCount(text) <= |text|
  {
    if text == [] then []
    else
      var upper := ToUpper(text[|text| - 1]);
      NormalizeText(text[..|text| - 1]) + (if IsUpper(upper) then [upper] else [])
  }

  /** Text made only of A-Z is left as it is. */
  lemma {:induction false} NormalizeUpperText(s: string)
    requires AllUpper(s)
    ensures IsAscii(s)
    ensures NormalizeText(s) == s
  {
    if s != [] {
      NormalizeUpperText(s[..|s| - 1]);
      assert s == s[..|s| - 1] + [s[|s| - 1]];
    }
  }

  /** Normalizing twice is the same as normalizing once. */
  lemma NormalizeIdempotent(text: string)
    requires IsAscii(text)
    ensures IsAscii(NormalizeText(text))
    ensures NormalizeText(NormalizeText(text)) == NormalizeText(text)
  {
    NormalizeUpperText(NormalizeText(text));
  }

  /** The letters of the text, upper-cased, in their original order. */
  lemma {:induction false} NormalizeKeepsLetters(text: string, i: nat)
    requires IsAscii(text) && i < |text| && IsLetter(text[i])
    ensures LetterCount(text[..i]) < |NormalizeText(text)|
    ensures NormalizeText(text)[LetterCount(text[..i])] == ToUpper(text[i])
  {
    var init := text[..|text| - 1];
    if i < |text| - 1 {
      assert init[..i] == text[..i];
      NormalizeKeepsLetters(init, i);
    } else {
      assert text[..i] == init;
    }
  }
}
