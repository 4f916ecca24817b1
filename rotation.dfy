/**
 * The fixed alphabet and the rotation primitive `shiftChar` (app.js:17-28).
 * Lookups in ALPHABET are computed in closed form (AlphabetIndex, Letter); the lemmas
 * AlphabetIndexOf and AlphabetAt show that they agree with indexing the constant itself.
 */
module Rotation {
  import opened Chars

  const ALPHABET: string := "ABCDEFGHIJKLMNOPQRSTUVWXYZ"

  /** `ALPHABET[i]` is the letter at position i. */
  lemma AlphabetAt(i: int)
    requires 0 <= i < 26
    ensures ALPHABET[i] == Letter(i)
  {
  }

  /** `String.prototype.indexOf` for one character: the first position of `c`, or -1. */
  function IndexOf(s: string, c: char): (r: int)
    ensures -1 <= r < |s|
    ensures r == -1 <==> c !in s
    ensures 0 <= r ==> s[r] == c && c !in s[..r]
  {
    if s == [] then -1
    else if s[0] == c then 0
    else
      var j := IndexOf(s[1..], c);
      if j == -1 then -1 else assert s[..j + 1] == [s[0]] + s[1..][..j]; j + 1
  }

  /** The index of `ch` in ALPHABET, in closed form: the position of an upper-case letter, or -1. */
  function AlphabetIndex(ch: char): (idx: int)
    ensures -1 <= idx < 26
    ensures idx == -1 <==> !IsUpper(ch)
    ensures idx >= 0 ==> Letter(idx) == ch
  {
    if IsUpper(ch) then Pos(ch) else -1
  }

  /** Looking a character up in the ALPHABET constant gives AlphabetIndex. */
  lemma AlphabetIndexOf(c: char)
    ensures IndexOf(ALPHABET, c) == AlphabetIndex(c)
  {
    var r := IndexOf(ALPHABET, c);
    if IsUpper(c) {
      AlphabetAt(Pos(c));
      if r != Pos(c) { AlphabetAt(r); }
    } else if r != -1 {
      AlphabetAt(r);
    }
  }

  /** JavaScript's `a % 26` on integers: the remainder takes the sign of the dividend. */
  function JsRem26(a: int): (r: int)
    ensures a >= 0 ==> 0 <= r < 26
    ensures a < 0 ==> -26 < r <= 0
    ensures (a - r) % 26 == 0
  {
    if a >= 0 then a % 26 else -((-a) % 26)
  }

  /**
   * `shiftChar`: rotates an upper-case letter by `shift` places, leaving any other character
   * alone. Adding 26 * 10 keeps the dividend of `%` non-negative only for shift >= -260.
   */
  function ShiftChar(ch: char, shift: int): (r: char)
    requires shift >= -260
    ensures IsUpper(ch) ==> IsUpper(r) && Pos(r) == (Pos(ch) + shift) % 26
    ensures !IsUpper(ch) ==> r == ch
  {
    var idx := AlphabetIndex(ch);
    if idx == -1 then ch
    else
      var next := JsRem26(idx + shift + 26 * 10);
      Letter(next)
  }

  /** Rotating by s and then by -s returns every letter to its place. */
  lemma ShiftInverse(p: int, s: int)
    requires 0 <= p < 26
    ensures ((p + s) % 26 + -s) % 26 == p
  {
    var q := (p + s) / 26;
    assert (p + s) % 26 == p + s - 26 * q;
    assert (p + s) % 26 + -s == p - 26 * q;
  }
}
