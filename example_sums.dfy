/**
 * Evaluation aids for the worked examples: checksums and decimal values of
 * concrete candidates, computed one character at a time. Each lemma names
 * its string through a parameter fixed by its precondition, so that the
 * definitions are unfolded only as far as the steps ask.
 */
module ExampleSums {
  import opened Wrappers
  import opened Decimal
  import opened Sanitizer
  import opened Checksum
  import opened Composer

  // ------------------------------------------------------------ evaluation aids

  /** The values of a sanitized string, given character by character. */
  lemma ValuesAre(s: string, vs: seq<nat>)
    requires AllSafe(s) && |vs| == |s|
    requires forall i :: 0 <= i < |s| ==> IsbnValue(s[i]) == Some(vs[i])
    ensures Values(s) == vs
  {
    ValuesOfSafe(s);
  }

  /** One more term of the ISBN-13 sum. */
  lemma Step13(vs: seq<nat>, k: nat, acc: nat)
    requires k < |vs| && WeightedSum13(vs[..k]) == acc
    ensures k % 2 == 0 ==> WeightedSum13(vs[..k + 1]) == acc + vs[k]
    ensures k % 2 == 1 ==> WeightedSum13(vs[..k + 1]) == acc + 3 * vs[k]
  {
    assert vs[..k + 1][..k] == vs[..k];
  }

  /** Two more terms of the ISBN-13 sum, from an even offset. */
  lemma Steps13(vs: seq<nat>, k: nat, acc: nat)
    requires k % 2 == 0 && k + 2 <= |vs| && WeightedSum13(vs[..k]) == acc
    ensures WeightedSum13(vs[..k + 2]) == acc + vs[k] + 3 * vs[k + 1]
  {
    Step13(vs, k, acc);
    Step13(vs, k + 1, acc + vs[k]);
  }

  /** One more term of the ISBN-10 sum. */
  lemma Step10(vs: seq<nat>, k: nat, acc: nat)
    requires k < |vs| && WeightedSum10(vs[..k]) == acc
    ensures WeightedSum10(vs[..k + 1]) == acc + (k + 1) * vs[k]
  {
    assert vs[..k + 1][..k] == vs[..k];
  }

  /** Two more terms of the ISBN-10 sum. */
  lemma Steps10(vs: seq<nat>, k: nat, acc: nat)
    requires k + 2 <= |vs| && WeightedSum10(vs[..k]) == acc
    ensures WeightedSum10(vs[..k + 2]) == acc + (k + 1) * vs[k] + (k + 2) * vs[k + 1]
  {
    Step10(vs, k, acc);
    Step10(vs, k + 1, acc + (k + 1) * vs[k]);
  }

  /** Two more terms of the ISBN-13 sum, from an even offset, without an accumulator. */
  lemma Pair13(vs: seq<nat>, k: nat)
    requires k % 2 == 0 && k + 2 <= |vs|
    ensures WeightedSum13(vs[..k + 2]) == WeightedSum13(vs[..k]) + vs[k] + 3 * vs[k + 1]
  {
    Steps13(vs, k, WeightedSum13(vs[..k]));
  }

  /** Four more terms of the ISBN-13 sum, from an even offset. */
  lemma Quad13(vs: seq<nat>, k: nat)
    requires k % 2 == 0 && k + 4 <= |vs|
    ensures WeightedSum13(vs[..k + 4]) ==
      WeightedSum13(vs[..k]) + vs[k] + 3 * vs[k + 1] + vs[k + 2] + 3 * vs[k + 3]
  {
    Pair13(vs, k);
    Pair13(vs, k + 2);
  }

  /** The ISBN-13 sum of twelve values, written out. */
  lemma Sum13Twelve(vs: seq<nat>)
    requires |vs| == 12
    ensures WeightedSum13(vs) ==
      vs[0] + 3 * vs[1] + vs[2] + 3 * vs[3] + vs[4] + 3 * vs[5] +
      vs[6] + 3 * vs[7] + vs[8] + 3 * vs[9] + vs[10] + 3 * vs[11]
  {
    assert vs[..0] == [];
    Quad13(vs, 0);
    Quad13(vs, 4);
    Quad13(vs, 8);
    assert vs[..12] == vs;
  }

  /** The ISBN-13 sum of thirteen values, written out. */
  lemma Sum13Thirteen(vs: seq<nat>)
    requires |vs| == 13
    ensures WeightedSum13(vs) ==
      vs[0] + 3 * vs[1] + vs[2] + 3 * vs[3] + vs[4] + 3 * vs[5] +
      vs[6] + 3 * vs[7] + vs[8] + 3 * vs[9] + vs[10] + 3 * vs[11] + vs[12]
  {
    Sum13Twelve(vs[..12]);
    Step13(vs, 12, WeightedSum13(vs[..12]));
    assert vs[..13] == vs;
  }

  /** Two more terms of the ISBN-10 sum, without an accumulator. */
  lemma Pair10(vs: seq<nat>, k: nat)
    requires k + 2 <= |vs|
    ensures WeightedSum10(vs[..k + 2]) == WeightedSum10(vs[..k]) + (k + 1) * vs[k] + (k + 2) * vs[k + 1]
  {
    Steps10(vs, k, WeightedSum10(vs[..k]));
  }

  /** The ISBN-10 sum of ten values, written out. */
  lemma Sum10Ten(vs: seq<nat>)
    requires |vs| == 10
    ensures WeightedSum10(vs) ==
      vs[0] + 2 * vs[1] + 3 * vs[2] + 4 * vs[3] + 5 * vs[4] +
      6 * vs[5] + 7 * vs[6] + 8 * vs[7] + 9 * vs[8] + 10 * vs[9]
  {
    assert vs[..0] == [];
    Pair10(vs, 0);
    Pair10(vs, 2);
    Pair10(vs, 4);
    Pair10(vs, 6);
    Pair10(vs, 8);
    assert vs[..10] == vs;
  }

  /** One more digit of a decimal value. */
  lemma ValueStep(s: string, k: nat, acc: nat)
    requires k < |s| && IsDigit(s[k]) && AllDigits(s[..k]) && Value(s[..k]) == acc
    ensures AllDigits(s[..k + 1]) && Value(s[..k + 1]) == acc * 10 + DigitValue(s[k])
  {
    assert s[..k + 1][..k] == s[..k];
  }

  /** The value of thirteen digits, in Horner form. */
  lemma Value13(s: string)
    requires |s| == 13 && AllDigits(s)
    ensures Value(s) == (((((((((((DigitValue(s[0]) * 10 + DigitValue(s[1])) * 10 + DigitValue(s[2])) * 10 + DigitValue(s[3])) * 10 + DigitValue(s[4])) * 10 + DigitValue(s[5])) * 10 + DigitValue(s[6])) * 10 + DigitValue(s[7])) * 10 + DigitValue(s[8])) * 10 + DigitValue(s[9])) * 10 + DigitValue(s[10])) * 10 + DigitValue(s[11])) * 10 + DigitValue(s[12])
  {
    assert s[..0] == [];
    ValueStep(s, 0, Value(s[..0]));
    ValueStep(s, 1, Value(s[..1]));
    ValueStep(s, 2, Value(s[..2]));
    ValueStep(s, 3, Value(s[..3]));
    ValueStep(s, 4, Value(s[..4]));
    ValueStep(s, 5, Value(s[..5]));
    ValueStep(s, 6, Value(s[..6]));
    ValueStep(s, 7, Value(s[..7]));
    ValueStep(s, 8, Value(s[..8]));
    ValueStep(s, 9, Value(s[..9]));
    ValueStep(s, 10, Value(s[..10]));
    ValueStep(s, 11, Value(s[..11]));
    ValueStep(s, 12, Value(s[..12]));
    assert s[..13] == s;
  }

  /** The value of twelve digits, in Horner form. */
  lemma Value12(s: string)
    requires |s| == 12 && AllDigits(s)
    ensures Value(s) == ((((((((((DigitValue(s[0]) * 10 + DigitValue(s[1])) * 10 + DigitValue(s[2])) * 10 + DigitValue(s[3])) * 10 + DigitValue(s[4])) * 10 + DigitValue(s[5])) * 10 + DigitValue(s[6])) * 10 + DigitValue(s[7])) * 10 + DigitValue(s[8])) * 10 + DigitValue(s[9])) * 10 + DigitValue(s[10])) * 10 + DigitValue(s[11])
  {
    assert s[..0] == [];
    ValueStep(s, 0, Value(s[..0]));
    ValueStep(s, 1, Value(s[..1]));
    ValueStep(s, 2, Value(s[..2]));
    ValueStep(s, 3, Value(s[..3]));
    ValueStep(s, 4, Value(s[..4]));
    ValueStep(s, 5, Value(s[..5]));
    ValueStep(s, 6, Value(s[..6]));
    ValueStep(s, 7, Value(s[..7]));
    ValueStep(s, 8, Value(s[..8]));
    ValueStep(s, 9, Value(s[..9]));
    ValueStep(s, 10, Value(s[..10]));
    ValueStep(s, 11, Value(s[..11]));
    assert s[..12] == s;
  }

  /** Sanitizing an ISBN-10 spelled with hyphens between its four groups. */
  lemma Dehyphenate4(a: string, b: string, c: string, d: string)
    requires AllSafe(a) && AllSafe(b) && AllSafe(c) && AllSafe(d)
    ensures Sanitize(a + "-" + b + "-" + c + "-" + d) == a + b + c + d
  {
    SanitizeAroundHyphen(a + "-" + b + "-" + c, d);
    SanitizeAroundHyphen(a + "-" + b, c);
    SanitizeAroundHyphen(a, b);
    SanitizeKeepsSafe(a);
    SanitizeKeepsSafe(b);
    SanitizeKeepsSafe(c);
    SanitizeKeepsSafe(d);
  }

  /** Sanitizing an ISBN-13 spelled with hyphens between its five groups. */
  lemma Dehyphenate5(a: string, b: string, c: string, d: string, e: string)
    requires AllSafe(a) && AllSafe(b) && AllSafe(c) && AllSafe(d) && AllSafe(e)
    ensures Sanitize(a + "-" + b + "-" + c + "-" + d + "-" + e) == a + b + c + d + e
  {
    SanitizeAroundHyphen(a + "-" + b + "-" + c + "-" + d, e);
    Dehyphenate4(a, b, c, d);
    SanitizeKeepsSafe(e);
  }

  // ------------------------------------------------------------ sums

  /** The values of the characters of `9781408855898`. */
  lemma ValuesOf9781408855898(s: string)
    requires s == "9781408855898"
    ensures Values(s) == [9, 7, 8, 1, 4, 0, 8, 8, 5, 5, 8, 9, 8]
  {
    ValuesAre(s, [9, 7, 8, 1, 4, 0, 8, 8, 5, 5, 8, 9, 8]);
  }

  /** The weighted sum of the values of `9781408855898`. */
  lemma Weighted9781408855898(vs: seq<nat>)
    requires vs == [9, 7, 8, 1, 4, 0, 8, 8, 5, 5, 8, 9, 8]
    ensures WeightedSum13(vs) == 140
  {
    Sum13Thirteen(vs);
  }

  /** ISBN-13 sum of `9781408855898`, a multiple of 10. */
  lemma Sum9781408855898(s: string)
    requires s == "9781408855898"
    ensures Checksum13(s) == 140
  {
    ValuesOf9781408855898(s);
    Weighted9781408855898([9, 7, 8, 1, 4, 0, 8, 8, 5, 5, 8, 9, 8]);
  }

  /** The values of the characters of `9781408855890`. */
  lemma ValuesOf9781408855890(s: string)
    requires s == "9781408855890"
    ensures Values(s) == [9, 7, 8, 1, 4, 0, 8, 8, 5, 5, 8, 9, 0]
  {
    ValuesAre(s, [9, 7, 8, 1, 4, 0, 8, 8, 5, 5, 8, 9, 0]);
  }

  /** The weighted sum of the values of `9781408855890`. */
  lemma Weighted9781408855890(vs: seq<nat>)
    requires vs == [9, 7, 8, 1, 4, 0, 8, 8, 5, 5, 8, 9, 0]
    ensures WeightedSum13(vs) == 132
  {
    Sum13Thirteen(vs);
  }

  /** ISBN-13 sum of `9781408855890`, not a multiple of 10. */
  lemma Sum9781408855890(s: string)
    requires s == "9781408855890"
    ensures Checksum13(s) == 132
  {
    ValuesOf9781408855890(s);
    Weighted9781408855890([9, 7, 8, 1, 4, 0, 8, 8, 5, 5, 8, 9, 0]);
  }

  /** The values of the characters of `978140885589`. */
  lemma ValuesOf978140885589(s: string)
    requires s == "978140885589"
    ensures Values(s) == [9, 7, 8, 1, 4, 0, 8, 8, 5, 5, 8, 9]
  {
    ValuesAre(s, [9, 7, 8, 1, 4, 0, 8, 8, 5, 5, 8, 9]);
  }

  /** The weighted sum of the values of `978140885589`. */
  lemma Weighted978140885589(vs: seq<nat>)
    requires vs == [9, 7, 8, 1, 4, 0, 8, 8, 5, 5, 8, 9]
    ensures WeightedSum13(vs) == 132
  {
    Sum13Twelve(vs);
  }

  /** ISBN-13 sum of the stem `978140885589`. */
  lemma Sum978140885589(s: string)
    requires s == "978140885589"
    ensures Checksum13(s) == 132
  {
    ValuesOf978140885589(s);
    Weighted978140885589([9, 7, 8, 1, 4, 0, 8, 8, 5, 5, 8, 9]);
  }

  /** The values of the characters of `978152664665`. */
  lemma ValuesOf978152664665(s: string)
    requires s == "978152664665"
    ensures Values(s) == [9, 7, 8, 1, 5, 2, 6, 6, 4, 6, 6, 5]
  {
    ValuesAre(s, [9, 7, 8, 1, 5, 2, 6, 6, 4, 6, 6, 5]);
  }

  /** The weighted sum of the values of `978152664665`. */
  lemma Weighted978152664665(vs: seq<nat>)
    requires vs == [9, 7, 8, 1, 5, 2, 6, 6, 4, 6, 6, 5]
    ensures WeightedSum13(vs) == 119
  {
    Sum13Twelve(vs);
  }

  /** ISBN-13 sum of the stem `978152664665`. */
  lemma Sum978152664665(s: string)
    requires s == "978152664665"
    ensures Checksum13(s) == 119
  {
    ValuesOf978152664665(s);
    Weighted978152664665([9, 7, 8, 1, 5, 2, 6, 6, 4, 6, 6, 5]);
  }

  /** The values of the characters of `978140880001`. */
  lemma ValuesOf978140880001(s: string)
    requires s == "978140880001"
    ensures Values(s) == [9, 7, 8, 1, 4, 0, 8, 8, 0, 0, 0, 1]
  {
    ValuesAre(s, [9, 7, 8, 1, 4, 0, 8, 8, 0, 0, 0, 1]);
  }

  /** The weighted sum of the values of `978140880001`. */
  lemma Weighted978140880001(vs: seq<nat>)
    requires vs == [9, 7, 8, 1, 4, 0, 8, 8, 0, 0, 0, 1]
    ensures WeightedSum13(vs) == 80
  {
    Sum13Twelve(vs);
  }

  /** ISBN-13 sum of the stem `978140880001`, a multiple of 10. */
  lemma Sum978140880001(s: string)
    requires s == "978140880001"
    ensures Checksum13(s) == 80
  {
    ValuesOf978140880001(s);
    Weighted978140880001([9, 7, 8, 1, 4, 0, 8, 8, 0, 0, 0, 1]);
  }

  /** The values of the characters of `1408855895`. */
  lemma ValuesOf1408855895(s: string)
    requires s == "1408855895"
    ensures Values(s) == [1, 4, 0, 8, 8, 5, 5, 8, 9, 5]
  {
    ValuesAre(s, [1, 4, 0, 8, 8, 5, 5, 8, 9, 5]);
  }

  /** The weighted sum of the values of `1408855895`. */
  lemma Weighted1408855895(vs: seq<nat>)
    requires vs == [1, 4, 0, 8, 8, 5, 5, 8, 9, 5]
    ensures WeightedSum10(vs) == 341
  {
    Sum10Ten(vs);
  }

  /** ISBN-10 sum of `1408855895`, a multiple of 11. */
  lemma Sum1408855895(s: string)
    requires s == "1408855895"
    ensures Checksum10(s) == 341
  {
    ValuesOf1408855895(s);
    Weighted1408855895([1, 4, 0, 8, 8, 5, 5, 8, 9, 5]);
  }

  /** The values of the characters of `1408855890`. */
  lemma ValuesOf1408855890(s: string)
    requires s == "1408855890"
    ensures Values(s) == [1, 4, 0, 8, 8, 5, 5, 8, 9, 0]
  {
    ValuesAre(s, [1, 4, 0, 8, 8, 5, 5, 8, 9, 0]);
  }

  /** The weighted sum of the values of `1408855890`. */
  lemma Weighted1408855890(vs: seq<nat>)
    requires vs == [1, 4, 0, 8, 8, 5, 5, 8, 9, 0]
    ensures WeightedSum10(vs) == 291
  {
    Sum10Ten(vs);
  }

  /** ISBN-10 sum of `1408855890`, not a multiple of 11. */
  lemma Sum1408855890(s: string)
    requires s == "1408855890"
    ensures Checksum10(s) == 291
  {
    ValuesOf1408855890(s);
    Weighted1408855890([1, 4, 0, 8, 8, 5, 5, 8, 9, 0]);
  }

  /** The values of the characters of `152664665X`. */
  lemma ValuesOf152664665X(s: string)
    requires s == "152664665X"
    ensures Values(s) == [1, 5, 2, 6, 6, 4, 6, 6, 5, 10]
  {
    ValuesAre(s, [1, 5, 2, 6, 6, 4, 6, 6, 5, 10]);
  }

  /** The weighted sum of the values of `152664665X`. */
  lemma Weighted152664665X(vs: seq<nat>)
    requires vs == [1, 5, 2, 6, 6, 4, 6, 6, 5, 10]
    ensures WeightedSum10(vs) == 330
  {
    Sum10Ten(vs);
  }

  /** ISBN-10 sum of `152664665X`, a multiple of 11 with `X` worth 10. */
  lemma Sum152664665X(s: string)
    requires s == "152664665X"
    ensures Checksum10(s) == 330
  {
    ValuesOf152664665X(s);
    Weighted152664665X([1, 5, 2, 6, 6, 4, 6, 6, 5, 10]);
  }

  /** The values of the characters of `1408800012`. */
  lemma ValuesOf1408800012(s: string)
    requires s == "1408800012"
    ensures Values(s) == [1, 4, 0, 8, 8, 0, 0, 0, 1, 2]
  {
    ValuesAre(s, [1, 4, 0, 8, 8, 0, 0, 0, 1, 2]);
  }

  /** The weighted sum of the values of `1408800012`. */
  lemma Weighted1408800012(vs: seq<nat>)
    requires vs == [1, 4, 0, 8, 8, 0, 0, 0, 1, 2]
    ensures WeightedSum10(vs) == 110
  {
    Sum10Ten(vs);
  }

  /** ISBN-10 sum of `1408800012`, a multiple of 11. */
  lemma Sum1408800012(s: string)
    requires s == "1408800012"
    ensures Checksum10(s) == 110
  {
    ValuesOf1408800012(s);
    Weighted1408800012([1, 4, 0, 8, 8, 0, 0, 0, 1, 2]);
  }

  /** The values of the characters of `9781781100769`. */
  lemma ValuesOf9781781100769(s: string)
    requires s == "9781781100769"
    ensures Values(s) == [9, 7, 8, 1, 7, 8, 1, 1, 0, 0, 7, 6, 9]
  {
    ValuesAre(s, [9, 7, 8, 1, 7, 8, 1, 1, 0, 0, 7, 6, 9]);
  }

  /** The weighted sum of the values of `9781781100769`. */
  lemma Weighted9781781100769(vs: seq<nat>)
    requires vs == [9, 7, 8, 1, 7, 8, 1, 1, 0, 0, 7, 6, 9]
    ensures WeightedSum13(vs) == 110
  {
    Sum13Thirteen(vs);
  }

  /** ISBN-13 sum of `9781781100769`, a multiple of 10. */
  lemma Sum9781781100769(s: string)
    requires s == "9781781100769"
    ensures Checksum13(s) == 110
  {
    ValuesOf9781781100769(s);
    Weighted9781781100769([9, 7, 8, 1, 7, 8, 1, 1, 0, 0, 7, 6, 9]);
  }

  /** The GTIN `toInt` reads from `9781408855898`. */
  lemma Digits9781408855898(s: string)
    requires s == "9781408855898"
    ensures AllDigits(s) && Value(s) == 9781408855898
  {
    assert AllDigits(s);
    Value13(s);
  }

  /** The GTIN `toInt` reads from `9781781100769`. */
  lemma Digits9781781100769(s: string)
    requires s == "9781781100769"
    ensures AllDigits(s) && Value(s) == 9781781100769
  {
    assert AllDigits(s);
    Value13(s);
  }
}
