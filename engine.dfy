/**
 * The top level of the ISBN engine (Sources/ISBN/ISBN.swift): the `ISBN`
 * value, `init?(String)`, `init?(Int)`, `hyphenated`, `toInt` and `==`. The
 * registration-group table, a static array in the source, is a parameter
 * here and is consulted in the order given.
 */
module Engine {
  import opened Wrappers
  import opened Decimal
  import opened Sanitizer
  import opened Checksum
  import opened Normalizer
  import opened RangeMatcher
  import opened Composer

  /** `struct ISBN`: an immutable parse result. */
  datatype Isbn = Isbn(groupName: string, elements: Elements, isbnString: string, gtin: int)

  /**
   * No rule of any record reads past a thirteen-character candidate, so the
   * rule search never traps (the generator also keeps every length positive).
   */
  predicate TableFits(table: seq<RegistrationGroup>) {
    forall i, j :: 0 <= i < |table| && 0 <= j < |table[i].rules| ==>
      table[i].rules[j].length <= 13 - |Key(table[i])|
  }

  /** Stronger: every registrant leaves the check digit of a thirteen-character candidate over. */
  predicate LeavesCheckDigit(table: seq<RegistrationGroup>) {
    forall i, j :: 0 <= i < |table| && 0 <= j < |table[i].rules| ==>
      table[i].rules[j].length < 13 - |Key(table[i])|
  }

  /** `elements(for:)` can be asked of record `g` for `isbn` and returns elements. */
  predicate ParsesWith(g: RegistrationGroup, isbn: string) {
    Trapless(g.rules, DropFirst(isbn, |Key(g)|)) && ElementsFor(g, isbn).Some?
  }

  /** `toInt`: `compactMap(\.wholeNumberValue).reduce(0) { $0 * 10 + $1 }`. */
  function ToInt(s: string): (n: nat)
    ensures AllDigits(s) ==> n == Value(s)
  {
    if s == [] then
      0
    else if IsDigit(s[|s| - 1]) then
      ToInt(s[..|s| - 1]) * 10 + DigitValue(s[|s| - 1])
    else
      ToInt(s[..|s| - 1])
  }

  /** The decimal digits of `s` in order: the characters `compactMap(\.wholeNumberValue)` keeps. */
  function DigitsOf(s: string): (d: string)
    ensures AllDigits(d) && |d| <= |s|
    ensures AllDigits(s) ==> d == s
  {
    if s == [] then
      []
    else if IsDigit(s[|s| - 1]) then
      DigitsOf(s[..|s| - 1]) + [s[|s| - 1]]
    else
      DigitsOf(s[..|s| - 1])
  }

  /** `toInt` skips every non-digit (an `X`, say) and reads the remaining digits as one number. */
  lemma {:induction false} ToIntSkipsNonDigits(s: string)
    ensures ToInt(s) == Value(DigitsOf(s))
  {
    if s != [] {
      var p := s[..|s| - 1];
      ToIntSkipsNonDigits(p);
      if IsDigit(s[|s| - 1]) {
        var d := DigitsOf(p) + [s[|s| - 1]];
        assert d[..|d| - 1] == DigitsOf(p);
      }
    }
  }

  /** Collecting digits commutes with concatenation: the digits keep their order. */
  lemma {:induction false} DigitsOfConcat(a: string, b: string)
    ensures DigitsOf(a + b) == DigitsOf(a) + DigitsOf(b)
  {
    if b == [] {
      assert a + b == a;
    } else {
      var q := b[..|b| - 1];
      DigitsOfConcat(a, q);
      assert (a + b)[..|a + b| - 1] == a + q;
    }
  }

  /** A candidate as long as a normalised ISBN, matched against the table, never traps. */
  lemma FitsForCandidate(table: seq<RegistrationGroup>, g: RegistrationGroup, isbn: string)
    requires TableFits(table) && g in table && HasPrefix(isbn, Key(g)) && |isbn| >= 13
    ensures Trapless(g.rules, DropFirst(isbn, |Key(g)|))
  {
    var i :| 0 <= i < |table| && table[i] == g;
    TraplessIfFits(g.rules, DropFirst(isbn, |Key(g)|));
  }

  /** A candidate that passed `isValid` normalises to at least thirteen characters. */
  lemma CleanedLength(raw: string)
    requires IsValid(raw)
    ensures |Cleaned(raw)| >= 13
  {
    if |Sanitize(raw)| == 10 {
      CleanedTen(raw);
    }
  }

  /**
   * The part of `init?(String)` after normalisation: find the first record
   * whose key starts the candidate, ask it for elements, and compose.
   */
  function FromCandidate(table: seq<RegistrationGroup>, isbn: string): (r: Option<Isbn>)
    requires TableFits(table) && |isbn| >= 13
    ensures r.Some? <==> exists i :: FirstGroupAt(table, isbn, i) && ParsesWith(table[i], isbn)
    ensures r.Some? ==>
              exists i :: FirstGroupAt(table, isbn, i) && ParsesWith(table[i], isbn) &&
                          r.value.groupName == table[i].name &&
                          r.value.elements == ElementsFor(table[i], isbn).value
    ensures r.Some? ==> r.value.isbnString == Joined(r.value.elements) && r.value.gtin == ToInt(isbn)
  {
    match GroupFor(table, isbn)
    case None => None
    case Some(registrationGroup) =>
      FitsForCandidate(table, registrationGroup, isbn);
      GroupForFirst(table, isbn);
      match ElementsFor(registrationGroup, isbn)
      case None =>
        assert forall i :: FirstGroupAt(table, isbn, i) ==> table[i] == registrationGroup by {
          forall i | FirstGroupAt(table, isbn, i) ensures table[i] == registrationGroup {
            GroupForIs(table, isbn, i);
          }
        }
        None
      case Some(elements) =>
        Some(Isbn(registrationGroup.name, elements, Joined(elements), ToInt(isbn)))
  }

  /**
   * `ISBN.init?(_: String)`: validate, normalise, find the first matching
   * record and its first matching rule, then compose. Nil exactly when
   * validation fails, no record's key starts the normalised candidate, or
   * that record yields no elements.
   */
  function FromString(table: seq<RegistrationGroup>, raw: string): (r: Option<Isbn>)
    requires TableFits(table)
    ensures r.Some? <==>
      IsValid(raw) && exists i :: FirstGroupAt(table, Cleaned(raw), i) && ParsesWith(table[i], Cleaned(raw))
    ensures r.Some? ==>
              exists i :: FirstGroupAt(table, Cleaned(raw), i) && ParsesWith(table[i], Cleaned(raw)) &&
                          r.value.groupName == table[i].name &&
                          r.value.elements == ElementsFor(table[i], Cleaned(raw)).value
    ensures r.Some? ==> r.value.isbnString == Joined(r.value.elements) && r.value.gtin == ToInt(Cleaned(raw))
  {
    if !IsValid(raw) then
      None
    else
      CleanedLength(raw);
      FromCandidate(table, Cleaned(raw))
  }

  /**
   * `ISBN.init?(_: Int)`: the ISBN of the decimal rendering. The sanitizer
   * drops the minus sign of a negative number, so only the magnitude counts.
   */
  function FromInt(table: seq<RegistrationGroup>, gtin: int): (r: Option<Isbn>)
    requires TableFits(table)
    ensures r == FromString(table, NatToString(if gtin < 0 then -gtin else gtin))
  {
    FromStringSanitized(table, IntToString(gtin));
    FromStringSanitized(table, NatToString(if gtin < 0 then -gtin else gtin));
    SignDropped(gtin);
    FromString(table, IntToString(gtin))
  }

  /**
   * `ISBN.hyphenated(_: String)`: the same pipeline as `init?(String)`,
   * returning the joined elements only; it agrees with the `isbnString` of
   * the ISBN built from the same text.
   */
  function Hyphenated(table: seq<RegistrationGroup>, raw: string): (r: Option<string>)
    requires TableFits(table)
    ensures r.Some? <==> FromString(table, raw).Some?
    ensures r.Some? ==> r.value == FromString(table, raw).value.isbnString
  {
    if !IsValid(raw) then
      None
    else
      CleanedLength(raw);
      HyphenatedCandidate(table, Cleaned(raw))
  }

  /** The part of `hyphenated(_: String)` after normalisation. */
  function HyphenatedCandidate(table: seq<RegistrationGroup>, isbn: string): (r: Option<string>)
    requires TableFits(table) && |isbn| >= 13
    ensures r.Some? <==> FromCandidate(table, isbn).Some?
    ensures r.Some? ==> r.value == FromCandidate(table, isbn).value.isbnString
  {
    match GroupFor(table, isbn)
    case None => None
    case Some(registrationGroup) =>
      FitsForCandidate(table, registrationGroup, isbn);
      match ElementsFor(registrationGroup, isbn)
      case None => None
      case Some(elements) => Some(Joined(elements))
  }

  /** `ISBN.hyphenated(_: Int)`: agrees with the `isbnString` of `init?(Int)`. */
  function HyphenatedGtin(table: seq<RegistrationGroup>, gtin: int): (r: Option<string>)
    requires TableFits(table)
    ensures r.Some? <==> FromInt(table, gtin).Some?
    ensures r.Some? ==> r.value == FromInt(table, gtin).value.isbnString
  {
    Hyphenated(table, IntToString(gtin))
  }

  /** `==` on `ISBN`: equal hyphenated strings; group name and GTIN are not compared. */
  predicate Equal(a: Isbn, b: Isbn) {
    a.isbnString == b.isbnString
  }

  // ---------------------------------------------------------------- lemmas

  /** Only the sanitized characters of the input matter. */
  lemma FromStringSanitized(table: seq<RegistrationGroup>, raw: string)
    requires TableFits(table)
    ensures FromString(table, raw) == FromString(table, Sanitize(raw))
  {
    SanitizeIdempotent(raw);
    CleanedSanitized(raw);
  }

  /**
   * Parsing the normalised thirteen-character form gives the same ISBN as
   * parsing the original text, in particular an ISBN-10 and its ISBN-13
   * form are equal.
   */
  lemma NormalisedAgrees(table: seq<RegistrationGroup>, raw: string)
    requires TableFits(table) && FromString(table, raw).Some? && |Cleaned(raw)| == 13
    ensures FromString(table, Cleaned(raw)) == FromString(table, raw)
  {
    var c := Cleaned(raw);
    CleanedSafe(raw);
    SanitizeKeepsSafe(c);
    CleanedIdempotent(raw);
    if |Sanitize(raw)| == 10 {
      CleanedTen(raw);
      CleanedTenIsValid(raw);
    } else {
      assert c == Sanitize(raw);
    }
    assert IsValid(c);
  }

  lemma NormalisedEqual(table: seq<RegistrationGroup>, raw: string)
    requires TableFits(table) && FromString(table, raw).Some? && |Cleaned(raw)| == 13
    ensures FromString(table, Cleaned(raw)).Some?
    ensures Equal(FromString(table, Cleaned(raw)).value, FromString(table, raw).value)
  {
    NormalisedAgrees(table, raw);
  }

  /**
   * The GTIN round trip: building an ISBN from its `gtin` gives the same
   * ISBN back, when the normalised form is thirteen digits without a
   * leading zero.
   */
  lemma GtinRoundTrip(table: seq<RegistrationGroup>, raw: string)
    requires TableFits(table) && FromString(table, raw).Some?
    requires var c := Cleaned(raw); |c| == 13 && AllDigits(c) && c[0] != '0'
    ensures FromInt(table, FromString(table, raw).value.gtin) == FromString(table, raw)
  {
    var c := Cleaned(raw);
    NatToStringOfValue(c);
    NormalisedAgrees(table, raw);
  }

  /** Every slice of a sanitized string is sanitized. */
  lemma SafeSlice(s: string, i: nat, j: nat)
    requires AllSafe(s) && i <= j <= |s|
    ensures AllSafe(s[i..j])
  {
    assert forall k :: 0 <= k < j - i ==> s[i..j][k] == s[i + k];
  }

  /** Both halves of a sanitized concatenation are sanitized. */
  lemma SafeHalves(a: string, b: string)
    requires AllSafe(a + b)
    ensures AllSafe(a) && AllSafe(b)
  {
    assert a == (a + b)[..|a|] && b == (a + b)[|a|..];
    SafeSlice(a + b, 0, |a|);
    SafeSlice(a + b, |a|, |a + b|);
  }

  /** A key found at the start of a sanitized candidate renders prefix and group safely. */
  lemma KeyFieldsSafe(g: RegistrationGroup, c: string)
    requires AllSafe(c) && HasPrefix(c, Key(g))
    ensures AllSafe(IntToString(g.prefix)) && AllSafe(IntToString(g.group))
  {
    var key := Key(g);
    SafeSlice(c, 0, |key|);
    assert c[..|key|] == key;
    SafeHalves(IntToString(g.prefix), IntToString(g.group));
  }

  /** The fields a record reads out of a sanitized candidate are sanitized. */
  lemma ElementsSafe(g: RegistrationGroup, c: string)
    requires AllSafe(c) && HasPrefix(c, Key(g)) && ParsesWith(g, c)
    ensures var e := ElementsFor(g, c).value;
            AllSafe(IntToString(e.prefix)) && AllSafe(IntToString(e.group)) &&
            AllSafe(e.registrant) && AllSafe(e.publication)
  {
    var e := ElementsFor(g, c).value;
    var key := Key(g);
    KeyFieldsSafe(g, c);
    var digits := c[|key|..];
    assert DropFirst(c, |key|) == digits;
    SafeSlice(c, |key|, |c|);
    var length := |e.registrant|;
    SafeSlice(digits, 0, length);
    if length < |digits| {
      SafeSlice(digits, length, |digits| - 1);
    }
  }

  /**
   * Hyphenating the elements read from a sanitized candidate and sanitizing
   * again gives the candidate back, when the registrant leaves room for the
   * check digit.
   */
  lemma CandidateRestored(g: RegistrationGroup, c: string)
    requires AllSafe(c) && HasPrefix(c, Key(g)) && ParsesWith(g, c)
    requires |ElementsFor(g, c).value.registrant| < |c| - |Key(g)|
    ensures Sanitize(Joined(ElementsFor(g, c).value)) == c
  {
    var e := ElementsFor(g, c).value;
    ElementsSafe(g, c);
    ElementsLossless(g, c);
    assert DigitChar(e.checkDigit) == c[|c| - 1];
    SanitizeJoined(e);
  }

  /** The text of a parsed ISBN, sanitized, is its normalised candidate again. */
  lemma SanitizedIsbnString(table: seq<RegistrationGroup>, raw: string)
    requires TableFits(table) && LeavesCheckDigit(table) && FromString(table, raw).Some?
    ensures Sanitize(FromString(table, raw).value.isbnString) == Cleaned(raw)
  {
    var x := FromString(table, raw).value;
    var c := Cleaned(raw);
    var i :| FirstGroupAt(table, c, i) && ParsesWith(table[i], c) &&
             x.groupName == table[i].name && x.elements == ElementsFor(table[i], c).value;
    CleanedSafe(raw);
    CleanedLength(raw);
    RegistrantLeavesCheckDigit(table, i, c);
    CandidateRestored(table[i], c);
  }

  /** In a table that leaves the check digit over, a registrant never reaches the last character. */
  lemma RegistrantLeavesCheckDigit(table: seq<RegistrationGroup>, i: int, c: string)
    requires LeavesCheckDigit(table) && 0 <= i < |table| && |c| >= 13
    requires HasPrefix(c, Key(table[i])) && ParsesWith(table[i], c)
    ensures |ElementsFor(table[i], c).value.registrant| < |c| - |Key(table[i])|
  {
    var g := table[i];
    var digits := DropFirst(c, |Key(g)|);
    var j :| 0 <= j < |g.rules| && g.rules[j] == FirstRule(g.rules, digits).value;
  }

  /**
   * Re-parsing the hyphenated text of an ISBN whose normalised form has
   * thirteen characters gives the same ISBN.
   */
  lemma ReparseIdempotent(table: seq<RegistrationGroup>, raw: string)
    requires TableFits(table) && LeavesCheckDigit(table)
    requires FromString(table, raw).Some? && |Cleaned(raw)| == 13
    ensures FromString(table, FromString(table, raw).value.isbnString) == FromString(table, raw)
  {
    var text := FromString(table, raw).value.isbnString;
    SanitizedIsbnString(table, raw);
    FromStringSanitized(table, text);
    NormalisedAgrees(table, raw);
  }

  /**
   * The fourteen-character normal form that `cleanedISBN` gives some
   * ten-character ISBNs does parse, but its hyphenated text no longer
   * passes `isValid`, so re-parsing it fails.
   */
  lemma FourteenNotReparsed(table: seq<RegistrationGroup>, raw: string)
    requires TableFits(table) && LeavesCheckDigit(table)
    requires FromString(table, raw).Some? && |Cleaned(raw)| == 14
    ensures FromString(table, FromString(table, raw).value.isbnString).None?
  {
    var text := FromString(table, raw).value.isbnString;
    SanitizedIsbnString(table, raw);
    SanitizeIdempotent(text);
  }
}
