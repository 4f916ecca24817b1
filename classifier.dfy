/**
 * `inferFamily` (app.js:117-122): a first-match-wins table of threshold rules over the entropy
 * of the frequency vector and the index of coincidence. Entropy is an input here; thresholds
 * are exact decimal `real`s.
 */
module Classifier {
  import opened Chars
  import opened Statistics

  const MONO: string := "Monoalphabetic-like"
  const POLY: string := "Polyalphabetic-like"
  const HIGH: string := "High-entropy / compressed-like"
  const UNCERTAIN: string := "Uncertain"

  /**
   * Each label holds exactly when its rule matches and no earlier rule does, so the result is
   * always one of the four labels.
   */
  function InferFamily(ent: real, ioc: real): (family: string)
    ensures family == MONO <==> ioc > 0.06 && ent < 4.05
    ensures family == POLY <==> 0.045 <= ioc <= 0.06 && ent >= 4.1
    ensures family == HIGH <==> ent > 4.3 && (ioc < 0.045 || ioc > 0.06)
    ensures family == UNCERTAIN <==>
              !(ioc > 0.06 && ent < 4.05) && !(0.045 <= ioc <= 0.06 && ent >= 4.1) && ent <= 4.3
  {
    if ioc > 0.06 && ent < 4.05 then MONO
    else if ioc >= 0.045 && ioc <= 0.06 && ent >= 4.1 then POLY
    else if ent > 4.3 then HIGH
    else UNCERTAIN
  }

  /** One input for each rule. */
  lemma InferFamilyExamples()
    ensures InferFamily(3.9, 0.07) == MONO
    ensures InferFamily(4.2, 0.05) == POLY
    ensures InferFamily(4.5, 0.01) == HIGH
    ensures InferFamily(4.5, 0.05) == POLY
    ensures InferFamily(4.0, 0.02) == UNCERTAIN
  {
  }

  /**
   * A text with fewer than two letters has index of coincidence 0, so it is never called
   * monoalphabetic or polyalphabetic, whatever its entropy.
   */
  lemma ShortTextFamily(text: string, ent: real)
    requires IsAscii(text) && LetterCount(text) < 2
    ensures InferFamily(ent, Coincidence(text)) in {HIGH, UNCERTAIN}
    ensures InferFamily(ent, Coincidence(text)) == HIGH <==> ent > 4.3
  {
  }
}
