/**
 * Worked examples on the table excerpt: the library's own test cases
 * (Tests/ISBNTests/ISBNTests.swift) and the corner cases the general lemmas
 * describe. Each example names its input through a parameter fixed by its
 * precondition, and each step of an example is a lemma of its own.
 */
module Examples {
  import opened Wrappers
  import opened Decimal
  import opened Sanitizer
  import opened Checksum
  import opened Normalizer
  import opened RangeMatcher
  import opened Composer
  import opened Engine
  import opened RegistrationGroups
  import opened ExampleSums
  import opened ExampleRecords

  // ------------------------------------------------------------ the test suite

  /** `testValidation`, first case: a valid ISBN-13 written with hyphens. */
  lemma ValidThirteen(raw: string)
    requires raw == "978-1-4088-5589-8"
    ensures IsValid(raw) && Cleaned(raw) == "9781408855898"
  {
    Plain9781408855898(raw);
    Sum9781408855898(Sanitize(raw));
  }

  /** `testValidation`, second case: the same ISBN-13 with a wrong check digit. */
  lemma WrongThirteen(raw: string)
    requires raw == "978-1-4088-5589-0"
    ensures !IsValid(raw)
  {
    Plain9781408855890(raw);
    Sum9781408855890(Sanitize(raw));
  }

  /**
   * `testValidation`, third case: the ISBN-10 form of the same book is
   * valid and normalises to the ISBN-13 form.
   */
  lemma ValidTen(raw: string)
    requires raw == "1-4088-5589-5"
    ensures IsValid(raw) && Cleaned(raw) == "9781408855898"
  {
    assert "978140885589" + [DigitChar(8)] == "9781408855898";
    Plain1408855895(raw);
    var s := Sanitize(raw);
    Sum1408855895(s);
    Stem1408855895(s);
    Sum978140885589(Stem(s));
    CompletedTen(raw, s, Stem(s));
  }

  /** `testValidation`, fourth case: the ISBN-10 form with a wrong check digit. */
  lemma WrongTen(raw: string)
    requires raw == "1-4088-5589-0"
    ensures !IsValid(raw)
  {
    Plain1408855890(raw);
    Sum1408855890(Sanitize(raw));
  }

  /**
   * `testElements`, `testGTIN13` and `testGroupName`: the elements, GTIN,
   * hyphenated text and group name of `978-1-4088-5589-8`.
   */
  lemma ParsedThirteen(raw: string)
    requires raw == "978-1-4088-5589-8"
    ensures FromString(Excerpt(), raw) ==
      Some(Isbn("English language", Elements(978, 1, "4088", "5589", 8), "978-1-4088-5589-8", 9781408855898))
  {
    ValidThirteen(raw);
    Candidate9781408855898(Cleaned(raw));
  }

  /** `testISBN10With10CheckDigit`: an ISBN-10 whose check character is `X`. */
  lemma TenWithCheckX(raw: string)
    requires raw == "1-5266-4665-X"
    ensures IsValid(raw) && Cleaned(raw) == "9781526646651"
    ensures FromString(Excerpt(), raw).Some?
    ensures FromString(Excerpt(), raw).value.isbnString == "978-1-5266-4665-1"
  {
    CleanedCheckX(raw);
    Candidate9781526646651(Cleaned(raw));
  }

  // ------------------------------------------------------------ corner cases

  /** An ISBN-10 and its ISBN-13 form give the same ISBN, hence equal ones. */
  lemma TenEqualsThirteen(ten: string, thirteen: string)
    requires ten == "1-4088-5589-5" && thirteen == "978-1-4088-5589-8"
    ensures FromString(Excerpt(), ten) == FromString(Excerpt(), thirteen)
    ensures FromString(Excerpt(), ten).Some?
    ensures Equal(FromString(Excerpt(), ten).value, FromString(Excerpt(), thirteen).value)
  {
    ValidTen(ten);
    ValidThirteen(thirteen);
    ParsedThirteen(thirteen);
  }

  /** `init?(Int)` on the GTIN of `978-1-4088-5589-8` gives the same ISBN back. */
  lemma FromGtin(gtin: int, raw: string)
    requires gtin == 9781408855898 && raw == "978-1-4088-5589-8"
    ensures FromInt(Excerpt(), gtin) == FromString(Excerpt(), raw)
  {
    ParsedThirteen(raw);
    ValidThirteen(raw);
    Digits9781408855898(Cleaned(raw));
    GtinRoundTrip(Excerpt(), raw);
  }

  /**
   * `hyphenated(9781781100769)`: the GTIN's digits are a valid ISBN-13 of
   * record 978-1, and the rule search passes twenty-one rules of lengths 2
   * to 7 before `77830..<78999` reads the five-digit registrant `78110`.
   */
  lemma Hyphenated9781781100769(gtin: int)
    requires gtin == 9781781100769
    ensures HyphenatedGtin(Excerpt(), gtin) == Some("978-1-78110-076-9")
  {
    var c := "9781781100769";
    Digits9781781100769(c);
    NatToStringOfValue(c);
    Parsed9781781100769(c);
  }

  /** The digits of the GTIN `9781781100769`, as a string, parse to the ISBN of record 978-1. */
  lemma Parsed9781781100769(c: string)
    requires c == "9781781100769"
    ensures FromString(Excerpt(), c) ==
      Some(Isbn("English language", Elements(978, 1, "78110", "076", 9), "978-1-78110-076-9", 9781781100769))
  {
    assert AllSafe(c);
    SanitizeKeepsSafe(c);
    Sum9781781100769(c);
    assert IsValid(c) && Cleaned(c) == c;
    Candidate9781781100769(c);
  }

  /**
   * `1-4088-0001-2` is a valid ISBN-10 whose stem has an ISBN-13 sum that
   * is a multiple of 10: `cleanedISBN` appends `10`, the ISBN is built from
   * fourteen characters, its publication swallows a digit of the appended
   * `10`, and its own hyphenated text is rejected when parsed again.
   */
  lemma FourteenCharacters(raw: string)
    requires raw == "1-4088-0001-2"
    ensures IsValid(raw) && Cleaned(raw) == "97814088000110"
    ensures FromString(Excerpt(), raw).Some?
    ensures FromString(Excerpt(), raw).value.isbnString == "978-1-4088-00011-0"
    ensures FromString(Excerpt(), FromString(Excerpt(), raw).value.isbnString).None?
  {
    CleanedFourteen(raw);
    Candidate97814088000110(Cleaned(raw));
    FourteenNotReparsed(Excerpt(), raw);
  }

  /**
   * `978178110X769` passes `isValid`, because an `X` is worth 10 where the `0`
   * of `9781781100769` stood, and its GTIN skips the `X`: twelve digits.
   */
  lemma GtinSkipsX(s: string)
    requires s == "978178110X769"
    ensures IsValid(s) && ToInt(s) == 978178110769
  {
    ValidWithX(s);
    ToIntWithX(s);
  }

  // ------------------------------------------------------------ steps

  /** `978178110X769` is valid: the zero-to-X change of a valid ISBN goes undetected. */
  lemma ValidWithX(s: string)
    requires s == "978178110X769"
    ensures IsValid(s)
  {
    var c := "9781781100769";
    Valid9781781100769(c);
    XForZero(c, s);
    ZeroToXUndetected13(c, 9);
  }

  /** `9781781100769` is safe and valid. */
  lemma Valid9781781100769(c: string)
    requires c == "9781781100769"
    ensures |c| == 13 && AllSafe(c) && IsValid(c)
  {
    assert AllSafe(c);
    SanitizeKeepsSafe(c);
    Sum9781781100769(c);
  }

  /** `978178110X769` is `9781781100769` with its `0` at offset 9 overwritten by `X`. */
  lemma XForZero(c: string, s: string)
    requires c == "9781781100769" && s == "978178110X769"
    ensures c[9] == '0' && c[9 := 'X'] == s
  {
    assert forall i | 0 <= i < 13 :: c[9 := 'X'][i] == s[i];
  }

  /** `toInt` of `978178110X769` reads the twelve digits around the `X`. */
  lemma ToIntWithX(s: string)
    requires s == "978178110X769"
    ensures ToInt(s) == 978178110769
  {
    var p, q := "978178110", "769";
    SplitAtX(s, p, q);
    Value978178110769(p, q);
    DigitsAroundX(p, q);
    ToIntSkipsNonDigits(s);
  }

  /** The digits of a text with one `X` between two digit strings are the two strings. */
  lemma DigitsAroundX(p: string, q: string)
    requires AllDigits(p) && AllDigits(q)
    ensures DigitsOf(p + "X" + q) == p + q
  {
    DigitsOfConcat(p + "X", q);
    DigitsOfConcat(p, "X");
    assert "X"[..0] == [];
  }

  /** `978178110X769` is `978178110`, an `X` and `769`. */
  lemma SplitAtX(s: string, p: string, q: string)
    requires s == "978178110X769" && p == "978178110" && q == "769"
    ensures s == p + "X" + q
  {
    assert forall i | 0 <= i < 13 :: s[i] == (p + "X" + q)[i];
  }

  /** `978178110` followed by `769` denotes 978178110769. */
  lemma Value978178110769(p: string, q: string)
    requires p == "978178110" && q == "769"
    ensures AllDigits(p) && AllDigits(q) && AllDigits(p + q) && Value(p + q) == 978178110769
  {
    var d := p + q;
    assert AllDigits(d);
    Value12(d);
  }

  /** A valid ten-character candidate whose stem sum is not a multiple of 10 normalises to stem and digit. */
  lemma CompletedTen(raw: string, s: string, stem: string)
    requires Sanitize(raw) == s && |s| == 10 && Stem(s) == stem && Checksum13(stem) % 10 != 0
    ensures Cleaned(raw) == stem + [DigitChar(10 - Checksum13(stem) % 10)]
  {
    ExtendedSuffix(s);
    assert Extended(s) == stem + [DigitChar(10 - Checksum13(stem) % 10)];
  }

  /** `1-5266-4665-X` is valid and normalises to `9781526646651`. */
  lemma CleanedCheckX(raw: string)
    requires raw == "1-5266-4665-X"
    ensures IsValid(raw) && Cleaned(raw) == "9781526646651"
  {
    assert "978152664665" + [DigitChar(1)] == "9781526646651";
    Plain152664665X(raw);
    var s := Sanitize(raw);
    Sum152664665X(s);
    Stem152664665X(s);
    Sum978152664665(Stem(s));
    CompletedTen(raw, s, Stem(s));
  }

  /** `1-4088-0001-2` is valid and normalises to fourteen characters. */
  lemma CleanedFourteen(raw: string)
    requires raw == "1-4088-0001-2"
    ensures IsValid(raw) && Cleaned(raw) == "97814088000110"
  {
    assert "978140880001" + "10" == "97814088000110";
    Plain1408800012(raw);
    var s := Sanitize(raw);
    Sum1408800012(s);
    Stem1408800012(s);
    Sum978140880001(Stem(s));
    CleanedTen(raw);
  }

  /** The ISBN built from the candidate `9781408855898`. */
  lemma Candidate9781408855898(c: string)
    requires c == "9781408855898"
    ensures FromCandidate(Excerpt(), c) ==
      Some(Isbn("English language", Elements(978, 1, "4088", "5589", 8), "978-1-4088-5589-8", 9781408855898))
  {
    assert c[..4] == "9781" && c[4..8] == "4088" && c[8..12] == "5589" && DigitValue(c[12]) == 8;
    assert "978-1-" + "4088" + "-" + "5589" + "-" + [DigitChar(8)] == "978-1-4088-5589-8";
    RegistrantOne(c);
    CandidateOne(c, 4);
    JoinedOne("4088", "5589", 8);
    Digits9781408855898(c);
  }

  /** The hyphenated text of the ISBN built from the candidate `9781526646651`. */
  lemma Candidate9781526646651(c: string)
    requires c == "9781526646651"
    ensures FromCandidate(Excerpt(), c).Some?
    ensures FromCandidate(Excerpt(), c).value.isbnString == "978-1-5266-4665-1"
  {
    assert c[..4] == "9781" && c[4..8] == "5266" && c[8..12] == "4665" && DigitValue(c[12]) == 1;
    assert "978-1-" + "5266" + "-" + "4665" + "-" + [DigitChar(1)] == "978-1-5266-4665-1";
    RegistrantOne(c);
    CandidateOne(c, 4);
    JoinedOne("5266", "4665", 1);
  }

  /** The hyphenated text of the ISBN built from the fourteen-character candidate `97814088000110`. */
  lemma Candidate97814088000110(c: string)
    requires c == "97814088000110"
    ensures FromCandidate(Excerpt(), c).Some?
    ensures FromCandidate(Excerpt(), c).value.isbnString == "978-1-4088-00011-0"
  {
    assert c[..4] == "9781" && c[4..8] == "4088" && c[8..13] == "00011" && DigitValue(c[13]) == 0;
    assert "978-1-" + "4088" + "-" + "00011" + "-" + [DigitChar(0)] == "978-1-4088-00011-0";
    RegistrantOne(c);
    CandidateOne(c, 4);
    JoinedOne("4088", "00011", 0);
  }

  /** The ISBN built from the candidate `9781781100769`: a five-digit registrant. */
  lemma Candidate9781781100769(c: string)
    requires c == "9781781100769"
    ensures FromCandidate(Excerpt(), c) ==
      Some(Isbn("English language", Elements(978, 1, "78110", "076", 9), "978-1-78110-076-9", 9781781100769))
  {
    assert c[..4] == "9781" && c[4..11] == "7811007" && c[4..9] == "78110" && c[9..12] == "076";
    assert DigitValue(c[12]) == 9;
    assert "978-1-" + "78110" + "-" + "076" + "-" + [DigitChar(9)] == "978-1-78110-076-9";
    RegistrantOne78110(c);
    CandidateOne(c, 5);
    JoinedOne("78110", "076", 9);
    Digits9781781100769(c);
  }

  /** The sanitized form of `978-1-4088-5589-8`. */
  lemma Plain9781408855898(raw: string)
    requires raw == "978-1-4088-5589-8"
    ensures Sanitize(raw) == "9781408855898"
  {
    assert raw == "978" + "-" + "1" + "-" + "4088" + "-" + "5589" + "-" + "8";
    assert "978" + "1" + "4088" + "5589" + "8" == "9781408855898";
    Dehyphenate5("978", "1", "4088", "5589", "8");
  }

  /** The sanitized form of `978-1-4088-5589-0`. */
  lemma Plain9781408855890(raw: string)
    requires raw == "978-1-4088-5589-0"
    ensures Sanitize(raw) == "9781408855890"
  {
    assert raw == "978" + "-" + "1" + "-" + "4088" + "-" + "5589" + "-" + "0";
    assert "978" + "1" + "4088" + "5589" + "0" == "9781408855890";
    Dehyphenate5("978", "1", "4088", "5589", "0");
  }

  /** The sanitized form of `1-4088-5589-5`. */
  lemma Plain1408855895(raw: string)
    requires raw == "1-4088-5589-5"
    ensures Sanitize(raw) == "1408855895"
  {
    assert raw == "1" + "-" + "4088" + "-" + "5589" + "-" + "5";
    assert "1" + "4088" + "5589" + "5" == "1408855895";
    Dehyphenate4("1", "4088", "5589", "5");
  }

  /** The sanitized form of `1-4088-5589-0`. */
  lemma Plain1408855890(raw: string)
    requires raw == "1-4088-5589-0"
    ensures Sanitize(raw) == "1408855890"
  {
    assert raw == "1" + "-" + "4088" + "-" + "5589" + "-" + "0";
    assert "1" + "4088" + "5589" + "0" == "1408855890";
    Dehyphenate4("1", "4088", "5589", "0");
  }

  /** The sanitized form of `1-5266-4665-X`. */
  lemma Plain152664665X(raw: string)
    requires raw == "1-5266-4665-X"
    ensures Sanitize(raw) == "152664665X"
  {
    assert raw == "1" + "-" + "5266" + "-" + "4665" + "-" + "X";
    assert "1" + "5266" + "4665" + "X" == "152664665X";
    Dehyphenate4("1", "5266", "4665", "X");
  }

  /** The sanitized form of `1-4088-0001-2`. */
  lemma Plain1408800012(raw: string)
    requires raw == "1-4088-0001-2"
    ensures Sanitize(raw) == "1408800012"
  {
    assert raw == "1" + "-" + "4088" + "-" + "0001" + "-" + "2";
    assert "1" + "4088" + "0001" + "2" == "1408800012";
    Dehyphenate4("1", "4088", "0001", "2");
  }

  /** The stem `cleanedISBN` builds from `1408855895`. */
  lemma Stem1408855895(s: string)
    requires s == "1408855895"
    ensures Stem(s) == "978140885589"
  {
  }

  /** The stem `cleanedISBN` builds from `152664665X`. */
  lemma Stem152664665X(s: string)
    requires s == "152664665X"
    ensures Stem(s) == "978152664665"
  {
  }

  /** The stem `cleanedISBN` builds from `1408800012`. */
  lemma Stem1408800012(s: string)
    requires s == "1408800012"
    ensures Stem(s) == "978140880001"
  {
  }
}
