# Cipher workbench core, in Dafny

The application is a small browser tool for classical ciphers. It encrypts and decrypts text
with a Caesar shift or a Vigenère key. It also analyses a text's letter statistics (relative
frequencies, index of coincidence, entropy) and from them guesses which family of cipher
produced it. The logic all lives in `app.js`; the rest is page wiring.

This project models that logic and proves its properties:

- `chars.dfy` (module `Chars`): character classes, and the ASCII part of JavaScript's
  `toUpperCase`/`toLowerCase`.
- `rotation.dfy` (module `Rotation`): the constant `ALPHABET` and the rotation primitive `shiftChar`.
- `normalizer.dfy` (module `Normalizer`): `normalizeText`.
- `ciphers.dfy` (module `Ciphers`): `caesar`, a pure function, and `vigenere`. `vigenere` is a
  method with the key counter `k`, proved equal to the functional specification `VigenereOf`.
- `statistics.dfy` (module `Statistics`): `frequencyVector` and `indexOfCoincidence`. Both
  are methods that fill a 26-slot `array<int>` of letter counts, proved against the
  specification functions `Frequencies` and `Coincidence`.
- `classifier.dfy` (module `Classifier`): `inferFamily`, its four-rule, first-match-wins table.

Conventions:

- Strings are `seq<char>` and text is 7-bit ASCII.
- JavaScript's `%` (the remainder takes the sign of the dividend) is written out as `JsRem26`.
- Divisions are exact `real` divisions.

## Model

| member | source | states |
|---|---|---|
| Chars.ToUpper | app.js:34 | upper-cases exactly the lower-case ASCII letters (code minus 32) and leaves every other character alone; the result is an upper-case letter iff the input is a letter |
| Chars.ToLower | app.js:37 | lower-cases exactly the upper-case ASCII letters (code plus 32); the result is a lower-case letter iff the input is a letter |
| Chars.LetterCount | app.js:46-54 | the key counter `k` after a prefix: the number of letters in it, never more than its length |
| Chars.LetterCountSameShape | app.js:51-54 | two texts that agree position by position on which characters are upper-case or lower-case letters, and agree on every other character, consume the same number of key positions up to every index |
| Chars.UpperLetterCount | app.js:51-54 | in a text of A–Z letters, every prefix of length n consumes n key positions |
| Rotation.AlphabetAt | app.js:27 | `ALPHABET[i]` is the i-th upper-case letter |
| Rotation.IndexOf | app.js:24 | `indexOf` on one character: -1 exactly when the character is absent, otherwise its first position |
| Rotation.AlphabetIndex | app.js:24 | the lookup in ALPHABET gives -1 exactly for non-upper-case characters and otherwise the position p with `ALPHABET[p] == ch` |
| Rotation.AlphabetIndexOf | app.js:24 | the closed-form AlphabetIndex agrees with `indexOf` on the ALPHABET constant for every character |
| Rotation.JsRem26 | app.js:26 | JavaScript's `% 26`: in [0, 26) for a non-negative dividend, in (-26, 0] for a negative one, and congruent to the dividend modulo 26 |
| Rotation.ShiftChar | app.js:23-28 | for every integer shift >= -260, in exact arithmetic, maps an upper-case letter to the upper-case letter at position (p + shift) mod 26 and returns any other character unchanged |
| Rotation.ShiftInverse | app.js:26 | rotating a position by s and then by -s gives it back |
| Normalizer.NormalizeText | app.js:19-21 | the result holds only 'A'–'Z' and has exactly as many characters as the input has letters, so it is never longer than the input |
| Normalizer.NormalizeKeepsLetters | app.js:20 | the letter at index i of the input appears upper-cased in the result at the position given by the number of letters before it, so the letters keep their order |
| Normalizer.NormalizeUpperText | app.js:19-21 | text made only of A–Z is returned as it is |
| Normalizer.NormalizeIdempotent | app.js:19-21 | normalizing twice equals normalizing once |
| Ciphers.Recase | app.js:37 | the shifted letter takes the case of the letter it replaces |
| Ciphers.CaesarChar | app.js:33-38 | for every integer shift >= -260, a letter keeps its case and moves shift places round the alphabet; a non-letter is returned unchanged |
| Ciphers.Caesar | app.js:30-40 | for every integer shift >= -260: same length; each letter keeps its case and its position moves by shift mod 26; each non-letter passes through unchanged |
| Ciphers.CaesarZero | app.js:30-40 | a shift of 0 changes nothing |
| Ciphers.CaesarCharInverse | app.js:76 | for -260 <= shift <= 260, shifting a character by shift and then by -shift gives it back |
| Ciphers.CaesarRoundTrip | app.js:74-76 | for -260 <= shift <= 260, decrypting with the negated shift restores the plaintext |
| Ciphers.CaesarCharIs | app.js:33-38 | any character with the required case and rotated position is the Caesar image of its input, which makes CaesarChar unique |
| Ciphers.CaesarExample | app.js:30-40 | "Attack At Dawn" with shift 3 is "Dwwdfn Dw Gdzq" |
| Ciphers.CaesarExampleDecrypt | app.js:76 | "Dwwdfn Dw Gdzq" with shift -3 is "Attack At Dawn" |
| Ciphers.Signed | app.js:55 | the applied shift is the key shift when encrypting and its negation when decrypting |
| Ciphers.KeyShift | app.js:53 | the shift for the j-th letter is the alphabet position of key letter j mod key length, in [0, 26) |
| Ciphers.Enciphered | app.js:47-59 | with a non-empty normalized key, the output has the input's length and each character keeps its letter case or its identity |
| Ciphers.VigenereOf | app.js:42-60 | same length; ASCII output; cases and non-letters preserved; a key without letters returns the text unchanged |
| Ciphers.EncipheredShifts | app.js:53-57 | the letter at index i moves by the position of key letter LetterCount(text[..i]) mod key length, negated when decrypting; non-letters consume no key position |
| Ciphers.EncipheredAt | app.js:53-57 | the character at index i is the Caesar image of the input character under the key shift selected by the letters before it |
| Ciphers.LetterBranch | app.js:55-57 | the callback's letter branch computes exactly CaesarChar with the applied shift |
| Ciphers.Vigenere | app.js:42-60 | the left-to-right walk with key counter k returns VigenereOf; the loop keeps k equal to the number of letters already seen |
| Ciphers.EncipheredRoundTripAt | app.js:53-57 | deciphering with the same normalized key restores the character at each index, because encryption preserves which characters are letters |
| Ciphers.EncipheredRoundTrip | app.js:53-57 | deciphering with the same normalized key restores the whole text |
| Ciphers.VigenereRoundTrip | app.js:78 | for every key, decrypting the encryption with the same key restores the plaintext |
| Ciphers.VigenereOfLetters | app.js:43-44 | a key that normalizes to a non-empty string selects the enciphering branch |
| Ciphers.CaesarCharUpper | app.js:56-57 | an upper-case letter rotated by a shift in [0, 26) is the letter at (p + shift) mod 26 |
| Ciphers.AddKey | app.js:53-56 | the textbook Vigenère cipher on A–Z text, an independent reference; its result has the text's length and holds only A–Z |
| Ciphers.EncipheredUpperAt | app.js:49-57 | on A–Z text, output letter i is the letter at (p_i + key position i mod key length) mod 26 |
| Ciphers.EncipheredUpper | app.js:49-57 | on A–Z text, `vigenere`'s encryption equals the textbook cipher AddKey |
| Ciphers.VigenereExample | app.js:42-60 | "ATTACKATDAWN" with key "LEMON" encrypts to "LXFOPVEFRNHR" |
| Statistics.Count | app.js:86-87 | the number of occurrences of one letter, never more than the text length |
| Statistics.CountMultiplicity | app.js:86-87 | that number is the letter's multiplicity in the multiset of the text's characters |
| Statistics.Counts | app.js:84-88 | 26 slots, each holding a count between 0 and the text length |
| Statistics.CountsSnoc | app.js:87 | one more letter raises its own slot by one and leaves the other 25 alone |
| Statistics.CountsSum | app.js:86-88 | the counts of a normalized text add up to its length n |
| Statistics.TallyLetters | app.js:84-88 | the counting loop returns a fresh 26-slot array whose contents are the letter counts of the normalized text |
| Statistics.Divided | app.js:91 | `counts.map((c) => c / total)`: one entry per count, and each entry times the divisor gives its count back |
| Statistics.DividedSum | app.js:91 | dividing every count by the same divisor divides their sum by it |
| Statistics.Total | app.js:90 | the divisor is never zero and equals the normalized length when that is positive |
| Statistics.Frequencies | app.js:82-92 | the frequency vector has 26 entries |
| Statistics.FrequenciesBounds | app.js:90-91 | every entry lies in [0, 1] |
| Statistics.FrequenciesSumToOne | app.js:90-91 | when the text has at least one letter, the entries sum to exactly 1 |
| Statistics.FrequenciesWithoutLetters | app.js:90-91 | a text without letters gives 26 zeros |
| Statistics.FrequencyVector | app.js:82-92 | normalizing, tallying in the array and dividing by max(1, n) yields Frequencies(text) |
| Statistics.PairSum | app.js:109-112 | the accumulated numerator Σc(c−1) is never negative, for any integer counts |
| Statistics.PairSumBounds | app.js:109-114 | for non-negative counts with sum S, the numerator Σc(c−1) lies in [0, S(S−1)] |
| Statistics.Coincidence | app.js:101-115 | the index of coincidence lies in [0, 1] and is 0 when the text has fewer than two letters |
| Statistics.IndexOfCoincidence | app.js:101-115 | returning 0 for n < 2, and otherwise accumulating c(c−1) over the array slot by slot and dividing by n(n−1), yields Coincidence(text) |
| Statistics.PairSumZeroTail | app.js:110-112 | empty slots contribute nothing to the numerator |
| Statistics.CountsExample | app.js:106-107 | "AABB" has counts 2, 2 and 24 zeros |
| Statistics.CoincidenceExample | app.js:101-115 | the index of coincidence of "AABB" is 4/12 |
| Classifier.InferFamily | app.js:117-122 | each of the four labels is returned exactly when its rule holds and no earlier rule does; rule 3 therefore reads entropy > 4.3 with the IOC outside [0.045, 0.06] |
| Classifier.InferFamilyExamples | app.js:117-122 | one input for each rule, including an entropy above 4.3 that the earlier polyalphabetic rule wins |
| Classifier.ShortTextFamily | app.js:117-122 | a text with fewer than two letters is never labelled monoalphabetic or polyalphabetic; it is "High-entropy / compressed-like" exactly when the entropy exceeds 4.3 |

## Left out

- Page wiring is not part of this model (app.js:1-15, 62-80, 149-167): element lookups, the
  listeners, the `encrypt`/`decrypt`/`analyze` handlers and the initial text. The round trip
  the decrypt handler relies on is stated by CaesarRoundTrip and VigenereRoundTrip.
- Parsing the shift with `Number(...) || 0` (app.js:65, 75) is not modelled. Shifts are integers.
- `drawFrequencyChart` (app.js:124-147) only draws on a canvas.
- `entropy` (app.js:94-99) is left out because it needs floating-point `Math.log2`.
  InferFamily takes the entropy as an opaque `real`.
- Non-ASCII case mapping is left out. The text-level operations (NormalizeText, Caesar,
  VigenereOf, Vigenere, Frequencies, Coincidence and the methods) require ASCII text and keys.
  JavaScript upper-cases "ß" to "SS" and maps some other characters to ASCII letters. That would
  change lengths, letter counts and key consumption.
- Chars.ToUpper, Chars.ToLower, Ciphers.Recase, Ciphers.CaesarChar, Ciphers.CaesarCharInverse,
  Ciphers.CaesarCharIs and the per-index members Ciphers.Enciphered, Ciphers.EncipheredShifts,
  Ciphers.EncipheredAt, Ciphers.EncipheredRoundTripAt and Ciphers.EncipheredRoundTrip are
  defined on every character, but they match the source only on ASCII. On other characters the
  model treats every non-ASCII character as a non-letter and passes it through. The source does
  not: "ı" upper-cases to "I", so `caesar("ı", 1)` is "j", and deciphering that gives "i", not "ı".
- Rotation.ShiftChar, Ciphers.CaesarChar and Ciphers.Caesar require shift >= -260, the range on
  which the dividend `idx + shift + 260` is never negative for any letter. Below it the source
  still works for a letter whose sum is non-negative, or is a negative multiple of 26 (JavaScript
  gives -0 and `ALPHABET[-0]` is "A"); for any other letter `%` returns a negative index and
  `ALPHABET[next]` is undefined. Fractional shifts are not modelled either.
- Rotation.ShiftChar, Ciphers.CaesarChar and Ciphers.Caesar compute in exact integers, while the
  source adds `idx + shift + 260` in IEEE-754 doubles. That sum is exact only up to 2^53, so for
  shift > 9007199254740707 (2^53 - 285) the source may round it, and some letters then land on
  the wrong position. Just above the bound only a few letters are affected. A shift of 1e20,
  typed into the key field, sends every letter to "W", where the model rotates each letter by
  1e20 places. `vigenere` is not affected, since its shifts lie in (-26, 26).
- Ciphers.CaesarRoundTrip: holds only for -260 <= shift <= 260, because decrypting applies
  -shift, which must itself be at least -260.
- IEEE-754 rounding is not modelled; `c / total` and the IOC division are exact `real`
  divisions. The thresholds 0.045, 0.06, 4.05, 4.1 and 4.3 are exact decimals, so a value
  lying exactly on a binary-rounded threshold may compare differently in the browser.
- FrequencyVector returns a sequence of reals, not a new array: the source builds a fresh
  array with `map` and never updates it.
- The `map` callbacks of `caesar` and `vigenere` act on single characters. `/[A-Z]/.test` and
  the case mapping are therefore modelled on one character, which matches the source for ASCII.
- Lookups in ALPHABET use closed forms (AlphabetIndex, Letter) in place of searching the
  constant. AlphabetIndexOf and AlphabetAt prove that the two agree.
