/** Character classes and the ASCII part of JavaScript's case mapping. */
module Chars {

  /** Every character of `s` is 7-bit ASCII. */
  predicate IsAscii(s: string) {
    forall i :: 0 <= i < |s| ==> s[i] as int < 128
  }

  predicate IsUpper(c: char) { 'A' <= c <= 'Z' }

  predicate IsLower(c: char) { 'a' <= c <= 'z' }

  predicate IsLetter(c: char) { IsUpper(c) || IsLower(c) }

  /** Alphabet position of an upper-case letter: 'A' is 0, 'Z' is 25. */
  function Pos(c: char): (p: int)
    requires IsUpper(c)
    ensures 0 <= p < 26
  {
    c as int - 'A' as int
  }

  /** The upper-case letter at alphabet position i. */
  function Letter(i: int): (c: char)
    requires 0 <= i < 26
    ensures IsUpper(c) && Pos(c) == i
  {
    ('A' as int + i) as char
  }

  /** `toUpperCase` of a one-character ASCII string. */
  function ToUpper(c: char): (r: char)
    ensures IsUpper(r) <==> IsLetter(c)
    ensures !IsLower(c) ==> r == c
    ensures IsLower(c) ==> r as int + 32 == c as int
  {
    if IsLower(c) then (c as int - 32) as char else c
  }

  /** `toLowerCase` of a one-character ASCII string. */
  function ToLower(c: char): (r: char)
    ensures IsLower(r) <==> IsLetter(c)
    ensures !IsUpper(c) ==> r == c
    ensures IsUpper(c) ==> r as int == c as int + 32
  {
    if IsUpper(c) then (c as int + 32) as char else c
  }

  /** Both characters are letters of the same case, or the same non-letter. */
  predicate SameShape(a: char, b: char) {
    (IsUpper(a) <==> IsUpper(b)) &&
    (IsLower(a) <==> IsLower(b)) &&
    (!IsLetter(a) ==> b == a)
  }

  /** Two letters of the same case and the same alphabet position are equal. */
  lemma SameLetter(a: char, b: char)
    requires IsLetter(a) && SameShape(a, b)
    requires Pos(ToUpper(a)) == Pos(ToUpper(b))
    ensures a == b
  {
  }

  /** Number of letters (either case) in `s`. */
  function LetterCount(s: string): (n: nat)
    ensures n <= |s|
  {
    if s == [] then 0
    else LetterCount(s[..|s| - 1]) + (if IsLetter(s[|s| - 1]) then 1 else 0)
  }

  /** Extending a prefix by one character adds one to the count exactly when that character is a letter. */
  lemma LetterCountStep(s: string, i: nat)
    requires i < |s|
    ensures LetterCount(s[..i + 1]) == LetterCount(s[..i]) + (if IsLetter(s[i]) then 1 else 0)
  {
    assert s[..i + 1][..i] == s[..i];
  }

  /** In a text of upper-case letters, the prefix of length n holds n letters. */
  lemma {:induction false} UpperLetterCount(s: string, n: nat)
    requires n <= |s| && forall i :: 0 <= i < |s| ==> IsUpper(s[i])
    ensures LetterCount(s[..n]) == n
  {
    if n > 0 {
      UpperLetterCount(s, n - 1);
      LetterCountStep(s, n - 1);
    }
  }

  /** Texts of the same shape, position by position, hold the same number of letters in each prefix. */
  lemma {:induction false} LetterCountSameShape(a: string, b: string, n: nat)
    requires |a| == |b| && n <= |a|
    requires forall i :: 0 <= i < |a| ==> SameShape(a[i], b[i])
    ensures LetterCount(a[..n]) == LetterCount(b[..n])
  {
    if n > 0 {
      LetterCountSameShape(a, b, n - 1);
      assert a[..n][..n - 1] == a[..n - 1];
      assert b[..n][..n - 1] == b[..n - 1];
    }
  }
}
