/**
 * The normaliser `cleanedISBN` (Sources/ISBN/ISBN.swift): a ten-character
 * candidate becomes `978`, its first nine characters and a freshly computed
 * ISBN-13 check value; any other candidate is only sanitized.
 *
 * The check value is computed exactly as written, `10 - (sum % 10) % 10`,
 * which Swift reads as `10 - ((sum % 10) % 10)`: a number from 1 to 10, so
 * a stem whose sum is a multiple of 10 gets the two characters `10`.
 */
module Normalizer {
  import opened Decimal
  import opened Sanitizer
  import opened Checksum

  /**
   * `cleanedISBN`: a candidate of ten sanitized characters becomes thirteen
   * or fourteen characters, `978` and its first nine characters followed by
   * the new check value.
   */
  function Cleaned(raw: string): (r: string)
    ensures |Sanitize(raw)| == 10 ==>
      13 <= |r| <= 14 && r[..3] == "978" && r[3..12] == Sanitize(raw)[..9]
    ensures |Sanitize(raw)| != 10 ==> r == Sanitize(raw)
  {
    var isbn := Sanitize(raw);
    if |isbn| == 10 then Extended(isbn) else isbn
  }

  /**
   * The ten-character branch of `cleanedISBN`: the stem followed by the
   * decimal text of a value from 1 to 10 that brings the stem's ISBN-13 sum
   * to a multiple of 10.
   */
  function Extended(isbn10: string): (r: string)
    requires |isbn10| == 10
    ensures 13 <= |r| <= 14 && r[..12] == Stem(isbn10)
    ensures AllDigits(r[12..]) && 1 <= Value(r[12..]) <= 10
    ensures (Checksum13(Stem(isbn10)) + Value(r[12..])) % 10 == 0
  {
    var stem := Stem(isbn10);
    var sum := Checksum13(stem);
    var check := IntToString(10 - (sum % 10) % 10);
    CheckSuffix(sum);
    CheckValue(sum);
    assert (stem + check)[..12] == stem && (stem + check)[12..] == check;
    stem + check
  }

  /**
   * `String("978\(isbn)".dropLast())`: the twelve characters that precede
   * the new check value.
   */
  function Stem(isbn10: string): (stem: string)
    requires |isbn10| == 10
    ensures stem == "978" + isbn10[..9]
  {
    ("978" + isbn10)[..|isbn10| + 2]
  }

  /**
   * What a ten-character candidate becomes: the stem followed by the single
   * digit 10 - (sum mod 10) when the stem's ISBN-13 sum is not a multiple of
   * 10, and followed by the two characters `10` (fourteen characters in all)
   * when it is.
   */
  lemma CleanedTen(raw: string)
    requires |Sanitize(raw)| == 10
    ensures Checksum13(Stem(Sanitize(raw))) % 10 == 0 ==>
      Cleaned(raw) == Stem(Sanitize(raw)) + "10"
    ensures Checksum13(Stem(Sanitize(raw))) % 10 != 0 ==>
      Cleaned(raw) == Stem(Sanitize(raw)) + [DigitChar(10 - Checksum13(Stem(Sanitize(raw))) % 10)]
    ensures |Cleaned(raw)| == 14 <==> Checksum13(Stem(Sanitize(raw))) % 10 == 0
  {
    var isbn10 := Sanitize(raw);
    assert Cleaned(raw) == Extended(isbn10);
    ExtendedSuffix(isbn10);
  }

  /** The ten-character branch, with its appended text spelled out. */
  lemma ExtendedSuffix(isbn10: string)
    requires |isbn10| == 10
    ensures Checksum13(Stem(isbn10)) % 10 == 0 ==> Extended(isbn10) == Stem(isbn10) + "10"
    ensures Checksum13(Stem(isbn10)) % 10 != 0 ==>
      Extended(isbn10) == Stem(isbn10) + [DigitChar(10 - Checksum13(Stem(isbn10)) % 10)]
    ensures |Extended(isbn10)| == 14 <==> Checksum13(Stem(isbn10)) % 10 == 0
  {
    var sum := Checksum13(Stem(isbn10));
    CheckSuffix(sum);
  }

  /** The text `cleanedISBN` appends: one digit from 1 to 9, or `10`. */
  lemma CheckSuffix(sum: nat)
    ensures sum % 10 == 0 ==> IntToString(10 - (sum % 10) % 10) == "10"
    ensures sum % 10 != 0 ==> IntToString(10 - (sum % 10) % 10) == [DigitChar(10 - sum % 10)]
  {
    var k := sum % 10;
    assert (sum % 10) % 10 == k;
    if k == 0 {
      assert NatToString(10) == NatToString(1) + [DigitChar(0)];
    }
  }

  /** Whichever text is appended, its value brings `sum` to a multiple of 10. */
  lemma CheckValue(sum: nat)
    ensures var check := IntToString(10 - (sum % 10) % 10);
            AllDigits(check) && 1 <= Value(check) <= 10 && (sum + Value(check)) % 10 == 0
  {
    var k := sum % 10;
    assert (sum % 10) % 10 == k;
    var check := IntToString(10 - k);
    assert check == NatToString(10 - k);
  }

  /**
   * A ten-character candidate normalises to a valid ISBN-13 exactly when
   * its stem's sum is not a multiple of 10; otherwise the fourteen-character
   * result is rejected by `isValid`.
   */
  lemma CleanedTenIsValid(raw: string)
    requires |Sanitize(raw)| == 10
    ensures IsValid(Cleaned(raw)) <==> Checksum13(Stem(Sanitize(raw))) % 10 != 0
    ensures IsValid(Cleaned(raw)) ==> |Cleaned(raw)| == 13 && Cleaned(raw)[..3] == "978"
  {
    var stem := Stem(Sanitize(raw));
    StemSafe(Sanitize(raw));
    CleanedTen(raw);
    if Checksum13(stem) % 10 == 0 {
      FourteenInvalid(stem);
    } else {
      CompletedStemValid(stem);
    }
  }

  /** The stem of a sanitized candidate is sanitized. */
  lemma StemSafe(isbn10: string)
    requires |isbn10| == 10 && AllSafe(isbn10)
    ensures AllSafe(Stem(isbn10))
  {
    var stem := Stem(isbn10);
    assert forall i :: 3 <= i < 12 ==> stem[i] == isbn10[i - 3];
  }

  /** A stem followed by `10` is fourteen characters long, so it is not valid. */
  lemma FourteenInvalid(stem: string)
    requires |stem| == 12 && AllSafe(stem)
    ensures !IsValid(stem + "10")
  {
    var s := stem + "10";
    assert AllSafe(s);
    SanitizeKeepsSafe(s);
  }

  /** A stem completed by the digit 10 - (sum mod 10) is a valid ISBN-13. */
  lemma CompletedStemValid(stem: string)
    requires |stem| == 12 && AllSafe(stem) && Checksum13(stem) % 10 != 0
    ensures IsValid(stem + [DigitChar(10 - Checksum13(stem) % 10)])
  {
    var k := Checksum13(stem) % 10;
    var c := DigitChar(10 - k);
    CheckDigit13(stem, c);
    assert IsbnValue(c).value == 10 - k;
  }

  /** Normalising leaves only ISBN-safe characters. */
  lemma CleanedSafe(raw: string)
    ensures AllSafe(Cleaned(raw))
  {
    if |Sanitize(raw)| == 10 {
      CleanedTen(raw);
    }
  }

  /** Normalising twice is normalising once. */
  lemma CleanedIdempotent(raw: string)
    ensures Cleaned(Cleaned(raw)) == Cleaned(raw)
  {
    var r := Cleaned(raw);
    CleanedSafe(raw);
    SanitizeKeepsSafe(r);
    assert |r| != 10;
  }

  /** Normalisation looks only at the sanitized characters. */
  lemma CleanedSanitized(raw: string)
    ensures Cleaned(Sanitize(raw)) == Cleaned(raw)
  {
    var s := Sanitize(raw);
    SanitizeIdempotent(raw);
    assert Sanitize(s) == s;
  }

  /** A valid thirteen-character candidate is left as it is and stays valid. */
  lemma CleanedThirteen(raw: string)
    requires IsValid(raw) && |Sanitize(raw)| == 13
    ensures Cleaned(raw) == Sanitize(raw) && IsValid(Cleaned(raw))
  {
    SanitizeIdempotent(raw);
  }
}
