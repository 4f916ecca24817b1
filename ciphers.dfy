/** The Caesar and Vigenere ciphers (app.js:30-60). */
module Ciphers {
  import opened Chars
  import opened Rotation
  import opened Normalizer

  /** The shifted upper-case letter, lower-cased when the letter it replaces was lower-case. */
  function Recase(ch: char, transformed: char): (r: char)
    requires IsLetter(ch) && IsUpper(transformed)
    ensures SameShape(ch, r) && ToUpper(r) == transformed
  {
    if ch == ToUpper(ch) then transformed else ToLower(transformed)
  }

  /** The callback `caesar` maps over the characters of its text. */
  function CaesarChar(ch: char, shift: int): (r: char)
    requires shift >= -260
    ensures SameShape(ch, r)
    ensures IsLetter(ch) ==> Pos(ToUpper(r)) == (Pos(ToUpper(ch)) + shift) % 26
  {
    var upper := ToUpper(ch);
    var transformed := ShiftChar(upper, shift);
    if !IsUpper(upper) then ch else Recase(ch, transformed)
  }

  /** Shifting by s and then by -s gives every character back. */
  lemma CaesarCharInverse(ch: char, shift: int)
    requires -260 <= shift <= 260
    ensures CaesarChar(CaesarChar(ch, shift), -shift) == ch
  {
    if IsLetter(ch) {
      ShiftInverse(Pos(ToUpper(ch)), shift);
      SameLetter(ch, CaesarChar(CaesarChar(ch, shift), -shift));
    }
  }

  /**
   * `caesar`: every letter moves `shift` places round the alphabet and keeps its case;
   * every other character is copied.
   */
  function Caesar(text: string, shift: int): (r: string)
    requires IsAscii(text) && shift >= -260
    ensures |r| == |text| && IsAscii(r)
    ensures forall i :: 0 <= i < |text| ==>
              SameShape(text[i], r[i]) &&
              (IsLetter(text[i]) ==> Pos(ToUpper(r[i])) == (Pos(ToUpper(text[i])) + shift) % 26)
  {
    seq(|text|, i requires 0 <= i < |text| => CaesarChar(text[i], shift))
  }

  /** A shift of zero changes nothing. */
  lemma CaesarZero(text: string)
    requires IsAscii(text)
    ensures Caesar(text, 0) == text
  {
    var r := Caesar(text, 0);
    forall i | 0 <= i < |text|
      ensures r[i] == text[i]
    {
      if IsLetter(text[i]) { SameLetter(text[i], r[i]); }
    }
  }

  /** Decrypting with the negated shift restores the plaintext (the decrypt button's round trip). */
  lemma CaesarRoundTrip(text: string, shift: int)
    requires IsAscii(text) && -260 <= shift <= 260
    ensures Caesar(Caesar(text, shift), -shift) == text
  {
    var d := Caesar(Caesar(text, shift), -shift);
    forall i | 0 <= i < |text|
      ensures d[i] == text[i]
    {
      CaesarCharInverse(text[i], shift);
    }
  }

  /** A character is the Caesar image of `ch` when it has the shape and the alphabet position the rotation demands. */
  lemma CaesarCharIs(ch: char, shift: int, out: char)
    requires shift >= -260 && SameShape(ch, out)
    requires IsLetter(ch) ==> Pos(ToUpper(out)) == (Pos(ToUpper(ch)) + shift) % 26
    ensures CaesarChar(ch, shift) == out
  {
    if IsLetter(ch) {
      SameLetter(CaesarChar(ch, shift), out);
    }
  }

  /** The end-to-end example: "Attack At Dawn" shifted by 3. */
  lemma CaesarExample()
    ensures Caesar("Attack At Dawn", 3) == "Dwwdfn Dw Gdzq"
  {
    CaesarCharIs('A', 3, 'D');
    CaesarCharIs('t', 3, 'w');
    CaesarCharIs('a', 3, 'd');
    CaesarCharIs('c', 3, 'f');
    CaesarCharIs('k', 3, 'n');
    CaesarCharIs(' ', 3, ' ');
    CaesarCharIs('D', 3, 'G');
    CaesarCharIs('w', 3, 'z');
    CaesarCharIs('n', 3, 'q');
  }

  /** Decrypting the example with shift 3 restores it. */
  lemma CaesarExampleDecrypt()
    ensures Caesar("Dwwdfn Dw Gdzq", -3) == "Attack At Dawn"
  {
    CaesarExample();
    CaesarRoundTrip("Attack At Dawn", 3);
  }

  /** The shift for the j-th letter of the text: the alphabet index of key letter j modulo the key length. */
  function KeyShift(normalizedKey: string, j: nat): (shift: int)
    requires normalizedKey != [] && AllUpper(normalizedKey)
    ensures 0 <= shift < 26
    ensures shift == Pos(normalizedKey[j % |normalizedKey|])
  {
    AlphabetIndex(normalizedKey[j % |normalizedKey|])
  }

  /** The applied shift: the key shift when encrypting, its negation when decrypting. */
  function Signed(shift: int, decrypt: bool): (applied: int)
    ensures decrypt ==> applied + shift == 0
    ensures !decrypt ==> applied == shift
  {
    if decrypt then -shift else shift
  }

  /**
   * The text after `vigenere`'s map with a non-empty normalized key: the callback treats a
   * character exactly as `caesar`'s does, with the shift of key letter LetterCount(text[..i])
   * for the character at index i, so non-letters pass through and consume no key position.
   */
  function Enciphered(text: string, normalizedKey: string, decrypt: bool): (r: string)
    requires normalizedKey != [] && AllUpper(normalizedKey)
    ensures |r| == |text|
    ensures forall i :: 0 <= i < |text| ==> SameShape(text[i], r[i])
  {
    seq(|text|, i requires 0 <= i < |text| =>
      CaesarChar(text[i], Signed(KeyShift(normalizedKey, LetterCount(text[..i])), decrypt)))
  }

  /** What `vigenere` computes: a key without letters leaves the text alone. */
  function VigenereOf(text: string, key: string, decrypt: bool): (r: string)
    requires IsAscii(text) && IsAscii(key)
    ensures |r| == |text| && IsAscii(r)
    ensures forall i :: 0 <= i < |text| ==> SameShape(text[i], r[i])
    ensures NormalizeText(key) == [] ==> r == text
  {
    var normalizedKey := NormalizeText(key);
    if normalizedKey == [] then text else Enciphered(text, normalizedKey, decrypt)
  }

  /**
   * With a key that has letters, the letter at index i of the text moves by the alphabet index
   * of key letter LetterCount(text[..i]) modulo the key length: non-letters consume no key position.
   */
  lemma {:induction false} EncipheredShifts(text: string, normalizedKey: string, decrypt: bool, r: string, i: nat)
    requires normalizedKey != [] && AllUpper(normalizedKey)
    requires r == Enciphered(text, normalizedKey, decrypt)
    requires i < |text| && IsLetter(text[i])
    ensures var shift := Pos(normalizedKey[LetterCount(text[..i]) % |normalizedKey|]);
            Pos(ToUpper(r[i])) == (Pos(ToUpper(text[i])) + (if decrypt then -shift else shift)) % 26
  {
    var k := LetterCount(text[..i]);
    EncipheredAt(text, normalizedKey, decrypt, r, i, k);
    var shift := KeyShift(normalizedKey, k);
    assert r[i] == CaesarChar(text[i], Signed(shift, decrypt));
  }

  /** The character at index i of Enciphered, given the number k of letters before it. */
  lemma EncipheredAt(text: string, normalizedKey: string, decrypt: bool, spec: string, i: nat, k: nat)
    requires normalizedKey != [] && AllUpper(normalizedKey)
    requires spec == Enciphered(text, normalizedKey, decrypt)
    requires i < |text| && k == LetterCount(text[..i])
    ensures spec[i] == CaesarChar(text[i], Signed(KeyShift(normalizedKey, k), decrypt))
  {
  }

  /** Extending a prefix by the next character. */
  lemma PrefixSnoc(s: string, i: nat, c: char)
    requires i < |s| && c == s[i]
    ensures s[..i + 1] == s[..i] + [c]
  {
  }

  /** The callback's letter branch computes CaesarChar with the applied shift. */
  lemma LetterBranch(ch: char, applied: int, transformed: char)
    requires IsLetter(ch) && applied >= -260
    requires transformed == ShiftChar(ToUpper(ch), applied)
    ensures (if ch == ToUpper(ch) then transformed else ToLower(transformed)) == CaesarChar(ch, applied)
  {
  }

  /**
   * `vigenere`: a left-to-right walk with a key counter `k` that advances on letters only.
   * As in the source, `decrypt` defaults to false, which encrypts.
   */
  method Vigenere(text: string, key: string, decrypt: bool := false) returns (r: string)
    requires IsAscii(text) && IsAscii(key)
    ensures r == VigenereOf(text, key, decrypt)
  {
    var normalizedKey := NormalizeText(key);
    if normalizedKey == [] {
      return text;
    }
    ghost var spec := Enciphered(text, normalizedKey, decrypt);
    var k := 0;
    r := [];
    for i := 0 to |text|
      invariant k == LetterCount(text[..i])
      invariant r == spec[..i]
    {
      EncipheredAt(text, normalizedKey, decrypt, spec, i, k);
      LetterCountStep(text, i);
      var ch := text[i];
      var upper := ToUpper(ch);
      var out;
      if !IsUpper(upper) {
        out := ch;
      } else {
        var shift := AlphabetIndex(normalizedKey[k % |normalizedKey|]);
        var applied := if decrypt then -shift else shift;
        assert applied == Signed(KeyShift(normalizedKey, k), decrypt);
        k := k + 1;
        var transformed := ShiftChar(upper, applied);
        out := if ch == upper then transformed else ToLower(transformed);
        LetterBranch(ch, applied, transformed);
      }
      PrefixSnoc(spec, i, out);
      r := r + [out];
    }
    assert spec[..|text|] == spec;
  }

  /** Deciphering with the same normalized key restores the character at index i. */
  lemma {:induction false} EncipheredRoundTripAt(text: string, normalizedKey: string, e: string, d: string, i: nat)
    requires normalizedKey != [] && AllUpper(normalizedKey)
    requires e == Enciphered(text, normalizedKey, false)
    requires d == Enciphered(e, normalizedKey, true)
    requires i < |text|
    ensures d[i] == text[i]
  {
    LetterCountSameShape(text, e, i);
    var shift := KeyShift(normalizedKey, LetterCount(text[..i]));
    assert e[i] == CaesarChar(text[i], shift);
    assert d[i] == CaesarChar(e[i], -shift);
    CaesarCharInverse(text[i], shift);
  }

  /** Deciphering with the same normalized key restores the text. */
  lemma {:induction false} EncipheredRoundTrip(text: string, normalizedKey: string)
    requires normalizedKey != [] && AllUpper(normalizedKey)
    ensures Enciphered(Enciphered(text, normalizedKey, false), normalizedKey, true) == text
  {
    var e := Enciphered(text, normalizedKey, false);
    var d := Enciphered(e, normalizedKey, true);
    forall i | 0 <= i < |text|
      ensures d[i] == text[i]
    {
      EncipheredRoundTripAt(text, normalizedKey, e, d, i);
    }
  }

  /** Decrypting with the same key restores the plaintext, for every key. */
  lemma {:induction false} VigenereRoundTrip(text: string, key: string)
    requires IsAscii(text) && IsAscii(key)
    ensures VigenereOf(VigenereOf(text, key, false), key, true) == text
  {
    var nk := NormalizeText(key);
    if nk != [] {
      EncipheredRoundTrip(text, nk);
    }
  }

  /** A key that normalizes to letters selects the enciphering branch. */
  lemma VigenereOfLetters(text: string, key: string, decrypt: bool, normalizedKey: string)
    requires IsAscii(text) && IsAscii(key)
    requires normalizedKey == NormalizeText(key) && normalizedKey != []
    ensures VigenereOf(text, key, decrypt) == Enciphered(text, normalizedKey, decrypt)
  {
  }

  /** An upper-case letter rotated by a shift in [0, 26) is the letter at the rotated position. */
  lemma CaesarCharUpper(ch: char, shift: int)
    requires IsUpper(ch) && 0 <= shift < 26
    ensures CaesarChar(ch, shift) == Letter((Pos(ch) + shift) % 26)
  {
    SameLetter(CaesarChar(ch, shift), Letter((Pos(ch) + shift) % 26));
  }

  /**
   * The textbook Vigenere cipher on text made only of A-Z: letter i moves forward by the
   * position of key letter i modulo the key length (KeyShift(normalizedKey, i)).
   */
  function AddKey(text: string, normalizedKey: string): (r: string)
    requires normalizedKey != [] && AllUpper(text) && AllUpper(normalizedKey)
    ensures |r| == |text| && AllUpper(r)
  {
    seq(|text|, i requires 0 <= i < |text| => Letter((Pos(text[i]) + KeyShift(normalizedKey, i)) % 26))
  }

  /** Encryption of A-Z text at index i, in closed form. */
  lemma EncipheredUpperAt(text: string, normalizedKey: string, r: string, i: nat)
    requires normalizedKey != [] && AllUpper(normalizedKey) && AllUpper(text)
    requires r == Enciphered(text, normalizedKey, false)
    requires i < |text|
    ensures r[i] == Letter((Pos(text[i]) + KeyShift(normalizedKey, i)) % 26)
  {
    UpperLetterCount(text, i);
    EncipheredAt(text, normalizedKey, false, r, i, i);
    CaesarCharUpper(text[i], KeyShift(normalizedKey, i));
  }

  /** On text made only of A-Z, `vigenere`'s encryption is the textbook cipher. */
  lemma EncipheredUpper(text: string, normalizedKey: string)
    requires normalizedKey != [] && AllUpper(normalizedKey) && AllUpper(text)
    ensures Enciphered(text, normalizedKey, false) == AddKey(text, normalizedKey)
  {
    var r := Enciphered(text, normalizedKey, false);
    var a := AddKey(text, normalizedKey);
    forall i | 0 <= i < |text|
      ensures r[i] == a[i]
    {
      EncipheredUpperAt(text, normalizedKey, r, i);
    }
  }

  /** The textbook example with key LEMON. */
  lemma VigenereExample()
    ensures VigenereOf("ATTACKATDAWN", "LEMON", false) == "LXFOPVEFRNHR"
  {
    var text, key := "ATTACKATDAWN", "LEMON";
    assert AddKey(text, key) == "LXFOPVEFRNHR";
    NormalizeUpperText(key);
    VigenereOfLetters(text, key, false, key);
    EncipheredUpper(text, key);
  }
}
