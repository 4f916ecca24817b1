/**
 * Letter-count statistics over normalized text: `frequencyVector` (app.js:82-92) and
 * `indexOfCoincidence` (app.js:101-115). Both fill a 26-slot array of counts, one slot per
 * letter of ALPHABET; their divisions are modelled with exact `real` arithmetic.
 */
module Statistics {
  import opened Chars
  import opened Rotation
  import opened Normalizer

  /** Number of occurrences of `c` in `s`. */
  function Count(s: string, c: char): (n: nat)
    ensures n <= |s|
  {
    if s == [] then 0
    else Count(s[..|s| - 1], c) + (if s[|s| - 1] == c then 1 else 0)
  }

  /** Count agrees with the multiplicity of `c` in the multiset of the characters of `s`. */
  lemma {:induction false} CountMultiplicity(s: string, c: char)
    ensures Count(s, c) == multiset(s)[c]
  {
    if s != [] {
      assert s == s[..|s| - 1] + [s[|s| - 1]];
      CountMultiplicity(s[..|s| - 1], c);
    }
  }

  /** The 26 letter counts of `s`: slot i holds the occurrences of the i-th letter. */
  function Counts(s: string): (r: seq<int>)
    ensures |r| == 26
    ensures forall i :: 0 <= i < 26 ==> 0 <= r[i] <= |s|
  {
    seq(26, i requires 0 <= i < 26 => Count(s, Letter(i)))
  }

  function Sum(c: seq<int>): int {
    if c == [] then 0 else Sum(c[..|c| - 1]) + c[|c| - 1]
  }

  /** Appending an upper-case letter adds one to that letter's slot and leaves the others alone. */
  lemma CountsSnoc(s: string, c: char)
    requires IsUpper(c)
    ensures Counts(s + [c]) == Counts(s)[Pos(c) := Counts(s)[Pos(c)] + 1]
  {
    assert (s + [c])[..|s|] == s;
  }

  /** Raising one slot by v raises the sum by v. */
  lemma {:induction false} SumUpdate(c: seq<int>, p: nat, v: int)
    requires p < |c|
    ensures Sum(c[p := c[p] + v]) == Sum(c) + v
  {
    var u := c[p := c[p] + v];
    assert u[..|u| - 1] == if p == |c| - 1 then c[..|c| - 1] else c[..|c| - 1][p := c[p] + v];
    if p < |c| - 1 {
      SumUpdate(c[..|c| - 1], p, v);
    }
  }

  /** The counts of a text of A-Z letters add up to its length. */
  lemma {:induction false} CountsSum(s: string)
    requires AllUpper(s)
    ensures Sum(Counts(s)) == |s|
  {
    if s == [] {
      assert Counts(s) == seq(26, i => 0);
      ZeroSum(26);
    } else {
      var init, c := s[..|s| - 1], s[|s| - 1];
      assert s == init + [c];
      CountsSum(init);
      CountsSnoc(init, c);
      SumUpdate(Counts(init), Pos(c), 1);
    }
  }

  lemma {:induction false} ZeroSum(n: nat)
    ensures Sum(seq(n, i => 0)) == 0
  {
    if n > 0 {
      assert seq(n, i => 0)[..n - 1] == seq(n - 1, i => 0);
      ZeroSum(n - 1);
    }
  }

  /**
   * The counting loop shared by `frequencyVector` and `indexOfCoincidence`: a fresh array of
   * 26 zeros, and one increment per letter at its alphabet index.
   */
  method TallyLetters(clean: string) returns (counts: array<int>)
    requires AllUpper(clean)
    ensures fresh(counts) && counts.Length == 26
    ensures counts[..] == Counts(clean)
  {
    counts := new int[26](_ => 0);
    assert Counts(clean[..0]) == counts[..];
    for j := 0 to |clean|
      invariant counts[..] == Counts(clean[..j])
    {
      var ch := clean[j];
      assert clean[..j + 1] == clean[..j] + [ch];
      CountsSnoc(clean[..j], ch);
      var idx := AlphabetIndex(ch);
      counts[idx] := counts[idx] + 1;
    }
    assert clean[..|clean|] == clean;
  }

  /** Every count divided by the same divisor: multiplying an entry back by it gives the count. */
  function Divided(c: seq<int>, d: real): (r: seq<real>)
    requires d != 0.0
    ensures |r| == |c|
    ensures forall i :: 0 <= i < |c| ==> r[i] * d == c[i] as real
  {
    seq(|c|, i requires 0 <= i < |c| => c[i] as real / d)
  }

  function RealSum(f: seq<real>): real {
    if f == [] then 0.0 else RealSum(f[..|f| - 1]) + f[|f| - 1]
  }

  /** Dividing every entry by d divides the sum by d. */
  lemma {:induction false} DividedSum(c: seq<int>, d: real)
    requires d != 0.0
    ensures RealSum(Divided(c, d)) == Sum(c) as real / d
  {
    if c != [] {
      var init := c[..|c| - 1];
      assert Divided(c, d)[..|c| - 1] == Divided(init, d);
      DividedSum(init, d);
      assert RealSum(Divided(c, d)) == Sum(init) as real / d + c[|c| - 1] as real / d;
    }
  }

  /** The divisor of `frequencyVector`: the normalized length, or 1 when that is zero. */
  function Total(clean: string): (t: nat)
    ensures t >= 1 && (clean != [] ==> t == |clean|)
  {
    if |clean| == 0 then 1 else |clean|
  }

  /** A part over a positive whole is a proportion. */
  lemma Proportion(a: int, b: int)
    requires 0 <= a <= b && b > 0
    ensures 0.0 <= a as real / b as real <= 1.0
  {
    var q := a as real / b as real;
    assert q * b as real == a as real;
  }

  /** A nonzero real divided by itself is one: the step from "the counts add up to n" to "sum to 1". */
  lemma Whole(d: real)
    requires d != 0.0
    ensures d / d == 1.0
  {
  }

  /** What `frequencyVector` computes: letter counts over `max(1, n)`, n the normalized length. */
  function Frequencies(text: string): (r: seq<real>)
    requires IsAscii(text)
    ensures |r| == 26
  {
    var clean := NormalizeText(text);
    Divided(Counts(clean), Total(clean) as real)
  }

  /** Every frequency is a proportion: it lies in [0, 1]. */
  lemma FrequenciesBounds(text: string)
    requires IsAscii(text)
    ensures forall i :: 0 <= i < 26 ==> 0.0 <= Frequencies(text)[i] <= 1.0
  {
    var clean := NormalizeText(text);
    var counts := Counts(clean);
    forall i | 0 <= i < 26
      ensures 0.0 <= Frequencies(text)[i] <= 1.0
    {
      Proportion(counts[i], Total(clean));
    }
  }

  /** `frequencyVector`: normalize, tally the letters, divide each count by the total. */
  method FrequencyVector(text: string) returns (freq: seq<real>)
    requires IsAscii(text)
    ensures freq == Frequencies(text)
  {
    var clean := NormalizeText(text);
    var counts := TallyLetters(clean);
    var total := if |clean| == 0 then 1 else |clean|;
    freq := seq(26, i requires 0 <= i < 26 reads counts => counts[i] as real / total as real);
  }

  /** A text with at least one letter has frequencies that add up to one. */
  lemma FrequenciesSumToOne(text: string)
    requires IsAscii(text) && LetterCount(text) > 0
    ensures RealSum(Frequencies(text)) == 1.0
  {
    var clean := NormalizeText(text);
    var d := |clean| as real;
    assert d > 0.0 && Frequencies(text) == Divided(Counts(clean), d);
    CountsSum(clean);
    DividedSum(Counts(clean), d);
    assert Sum(Counts(clean)) as real == d;
    Whole(d);
  }

  /** A text without letters (empty, digits, punctuation) gives 26 zeros. */
  lemma FrequenciesWithoutLetters(text: string)
    requires IsAscii(text) && LetterCount(text) == 0
    ensures Frequencies(text) == seq(26, i => 0.0)
  {
    var clean := NormalizeText(text);
    assert clean == [];
  }

  /**
   * The sum of c(c - 1) over the slots, the numerator of the index of coincidence. It is never
   * negative, since x(x - 1) >= 0 for every integer x.
   */
  function PairSum(c: seq<int>): (r: int)
    ensures r >= 0
  {
    if c == [] then 0
    else
      var x := c[|c| - 1];
      assert x * (x - 1) >= 0 by {
        if x > 0 { assert x - 1 >= 0; } else { assert x - 1 < 0; }
      }
      PairSum(c[..|c| - 1]) + x * (x - 1)
  }

  /** For non-negative counts, 0 <= PairSum <= S(S - 1) where S is their sum. */
  lemma {:induction false} PairSumBounds(c: seq<int>)
    requires forall i :: 0 <= i < |c| ==> c[i] >= 0
    ensures 0 <= Sum(c)
    ensures 0 <= PairSum(c) <= Sum(c) * (Sum(c) - 1)
  {
    if c != [] {
      var init, x := c[..|c| - 1], c[|c| - 1];
      PairSumBounds(init);
      var s, p := Sum(init), PairSum(init);
      assert x * (x - 1) >= 0 by {
        if x > 0 { assert x - 1 >= 0; }
      }
      assert (s + x) * (s + x - 1) == s * (s - 1) + 2 * s * x + x * (x - 1);
      assert 2 * s * x >= 0;
    }
  }

  /**
   * What `indexOfCoincidence` computes: the probability that two letters drawn without
   * replacement from the normalized text are equal; 0 for fewer than two letters.
   */
  function Coincidence(text: string): (r: real)
    requires IsAscii(text)
    ensures 0.0 <= r <= 1.0
    ensures LetterCount(text) < 2 ==> r == 0.0
  {
    var clean := NormalizeText(text);
    var n := |clean|;
    if n < 2 then 0.0
    else
      var counts := Counts(clean);
      CountsSum(clean);
      PairSumBounds(counts);
      Proportion(PairSum(counts), n * (n - 1));
      PairSum(counts) as real / (n * (n - 1)) as real
  }

  /** `indexOfCoincidence`: tally, then accumulate c(c - 1) slot by slot. */
  method IndexOfCoincidence(text: string) returns (ioc: real)
    requires IsAscii(text)
    ensures ioc == Coincidence(text)
  {
    var clean := NormalizeText(text);
    var n := |clean|;
    if n < 2 {
      return 0.0;
    }
    var counts := TallyLetters(clean);
    var numerator := 0;
    for i := 0 to 26
      invariant numerator == PairSum(counts[..i])
    {
      assert counts[..i + 1][..i] == counts[..i];
      numerator := numerator + counts[i] * (counts[i] - 1);
    }
    assert counts[..26] == counts[..];
    ioc := numerator as real / (n * (n - 1)) as real;
  }

  /** Slots holding zero contribute nothing to PairSum. */
  lemma {:induction false} PairSumZeroTail(c: seq<int>, k: nat)
    requires k <= |c| && forall i :: k <= i < |c| ==> c[i] == 0
    ensures PairSum(c) == PairSum(c[..k])
  {
    if k < |c| {
      var init := c[..|c| - 1];
      PairSumZeroTail(init, k);
      assert init[..k] == c[..k];
    } else {
      assert c[..k] == c;
    }
  }

  /**
   * The letter counts of "AABB": two A's, two B's, nothing else. The literal is passed as a
   * parameter fixed by `requires`, which keeps the verifier from unfolding it eagerly.
   */
  lemma CountsExample(text: string)
    requires text == "AABB"
    ensures var c := Counts(text); c[0] == 2 && c[1] == 2 && forall i :: 2 <= i < 26 ==> c[i] == 0
  {
    var c0, c1, c2, c3 := Counts([]), Counts(text[..1]), Counts(text[..2]), Counts(text[..3]);
    var c := Counts(text);
    CountsSnoc([], 'A');
    CountsSnoc(text[..1], 'A');
    CountsSnoc(text[..2], 'B');
    CountsSnoc(text[..3], 'B');
    assert [] + ['A'] == text[..1] && text[..1] + ['A'] == text[..2];
    assert text[..2] + ['B'] == text[..3] && text[..3] + ['B'] == text;
    forall i | 2 <= i < 26
      ensures c[i] == 0
    {
      assert c[i] == c3[i] == c2[i] == c1[i] == c0[i];
    }
  }

  /**
   * The worked example: "AABB" has two pairs of equal letters among 4 * 3 ordered draws. As in
   * CountsExample, the literal is a parameter so that it is not unfolded eagerly.
   */
  lemma CoincidenceExample(text: string)
    requires text == "AABB"
    ensures IsAscii(text) && Coincidence(text) == 4.0 / 12.0
  {
    NormalizeUpperText(text);
    var c := Counts(text);
    CountsExample(text);
    PairSumZeroTail(c, 2);
    assert c[..2][..1] == [2] && [2][..0] == [];
    assert PairSum([2]) == 2;
    assert PairSum(c) == 4;
    assert NormalizeText(text) == text && |text| == 4;
  }
}
