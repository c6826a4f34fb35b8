/**
 * How record 978-1 of the table excerpt reads the candidates of the worked
 * examples.
 */
module ExampleRecords {
  import opened Wrappers
  import opened Decimal
  import opened RangeMatcher
  import opened Composer
  import opened Engine
  import opened RegistrationGroups
  import opened ExampleSums

  /** Candidates starting `9781` belong to record 978-1, the second of the excerpt. */
  lemma GroupOne(c: string)
    requires |c| >= 4 && c[..4] == "9781"
    ensures GroupFor(Excerpt(), c) == Some(EnglishOne())
  {
    var t := Excerpt();
    assert !HasPrefix(c, Key(t[0])) && HasPrefix(c, Key(t[1]));
    assert FirstGroupAt(t, c, 1);
  }

  /** Record 978-1 reads a leading `4088` as a four-digit registrant, with rule 7 (`3980..<5499`) of its first block. */
  lemma Rule4088(digits: string)
    requires |digits| >= 4 && digits[..4] == "4088"
    ensures FirstRuleAt(OneRules0(), digits, 7) && OneRules0()[7].length == 4
  {
    assert digits[0] == '4' && digits[1] == '0' && digits[2] == '8' && digits[3] == '8';
    assert digits[..0] == [];
    ValueStep(digits, 0, 0);
    ValueStep(digits, 1, 4);
    ValueStep(digits, 2, 40);
    ValueStep(digits, 3, 408);
    var rules := OneRules0();
    RuleReads(rules[0], digits, 408);
    RuleReads(rules[1], digits, 40);
    RuleReads(rules[2], digits, 408);
    RuleReads(rules[3], digits, 4088);
    RuleReads(rules[4], digits, 40);
    RuleReads(rules[5], digits, 4088);
    RuleReads(rules[6], digits, 408);
    RuleReads(rules[7], digits, 4088);
  }

  /** The same rule 7 reads a leading `5266`. */
  lemma Rule5266(digits: string)
    requires |digits| >= 4 && digits[..4] == "5266"
    ensures FirstRuleAt(OneRules0(), digits, 7) && OneRules0()[7].length == 4
  {
    assert digits[0] == '5' && digits[1] == '2' && digits[2] == '6' && digits[3] == '6';
    assert digits[..0] == [];
    ValueStep(digits, 0, 0);
    ValueStep(digits, 1, 5);
    ValueStep(digits, 2, 52);
    ValueStep(digits, 3, 526);
    var rules := OneRules0();
    RuleReads(rules[0], digits, 526);
    RuleReads(rules[1], digits, 52);
    RuleReads(rules[2], digits, 526);
    RuleReads(rules[3], digits, 5266);
    RuleReads(rules[4], digits, 52);
    RuleReads(rules[5], digits, 5266);
    RuleReads(rules[6], digits, 526);
    RuleReads(rules[7], digits, 5266);
  }

  /**
   * Record 978-1 reads the registrant of a candidate continuing with `4088`
   * or `5266` with rule 7 of its first block, four digits long; the search
   * never traps.
   */
  lemma RegistrantOne(c: string)
    requires |c| >= 13 && c[..4] == "9781"
    requires c[4..8] == "4088" || c[4..8] == "5266"
    ensures var digits := DropFirst(c, 4);
            Trapless(EnglishOne().rules, digits) &&
            FirstRule(EnglishOne().rules, digits) == Some(OneRules0()[7]) && OneRules0()[7].length == 4
  {
    var digits := DropFirst(c, 4);
    assert digits == c[4..] && digits[..4] == c[4..8];
    if c[4..8] == "4088" {
      Rule4088(digits);
    } else {
      Rule5266(digits);
    }
    FirstInFirstBlock(digits, 7);
    TraplessIfFits(EnglishOne().rules, digits);
    FirstRuleAtFound(EnglishOne().rules, digits, 7);
  }

  /** A first match within the first block of record 978-1 is the first match of the record. */
  lemma FirstInFirstBlock(digits: string, i: int)
    requires FirstRuleAt(OneRules0(), digits, i)
    ensures FirstRuleAt(EnglishOne().rules, digits, i)
  {
    FirstRuleAtPrefix(OneRules0(), OneRules1(), digits, i);
    FirstRuleAtPrefix(OneRules0() + OneRules1(), OneRules2(), digits, i);
    FirstInFirstThreeBlocks(digits, i);
  }

  /** A first match within the first three blocks of record 978-1 is the first match of the record. */
  lemma FirstInFirstThreeBlocks(digits: string, i: int)
    requires FirstRuleAt(OneRules0() + OneRules1() + OneRules2(), digits, i)
    ensures FirstRuleAt(EnglishOne().rules, digits, i)
  {
    FirstRuleAtPrefix(OneRules0() + OneRules1() + OneRules2(), OneRules3(), digits, i);
    FirstRuleAtPrefix(OneRules0() + OneRules1() + OneRules2() + OneRules3(), OneRules4(), digits, i);
    FirstRuleAtPrefix(OneRules0() + OneRules1() + OneRules2() + OneRules3() + OneRules4(), OneRules5(), digits, i);
  }

  /** The windows of remaining digits starting `7811007`, read as numbers. */
  lemma Windows7811007(digits: string)
    requires |digits| >= 7 && digits[..7] == "7811007"
    ensures AllDigits(digits[..2]) && Value(digits[..2]) == 78
    ensures AllDigits(digits[..3]) && Value(digits[..3]) == 781
    ensures AllDigits(digits[..4]) && Value(digits[..4]) == 7811
    ensures AllDigits(digits[..5]) && Value(digits[..5]) == 78110
    ensures AllDigits(digits[..7]) && Value(digits[..7]) == 7811007
  {
    assert digits[0] == '7' && digits[1] == '8' && digits[2] == '1' && digits[3] == '1';
    assert digits[4] == '0' && digits[5] == '0' && digits[6] == '7';
    assert digits[..0] == [];
    ValueStep(digits, 0, 0);
    ValueStep(digits, 1, 7);
    ValueStep(digits, 2, 78);
    ValueStep(digits, 3, 781);
    ValueStep(digits, 4, 7811);
    ValueStep(digits, 5, 78110);
    ValueStep(digits, 6, 781100);
  }

  /** No rule of the first block of 978-1 (lines 37-44) matches remaining digits starting `7811007`. */
  lemma NoMatchFirstBlock7811007(digits: string)
    requires |digits| >= 7 && digits[..7] == "7811007"
    ensures forall j :: 0 <= j < |OneRules0()| ==> !RuleMatches(OneRules0()[j], digits)
  {
    Windows7811007(digits);
    var rules := OneRules0();
    RuleReads(rules[0], digits, 781);
    RuleReads(rules[1], digits, 78);
    RuleReads(rules[2], digits, 781);
    RuleReads(rules[3], digits, 7811);
    RuleReads(rules[4], digits, 78);
    RuleReads(rules[5], digits, 7811);
    RuleReads(rules[6], digits, 781);
    RuleReads(rules[7], digits, 7811);
  }

  /**
   * Nor does any rule of the second block (lines 45-52), among them
   * `7320000..<7399999` of length 7, which the seven-digit window 7811007
   * exceeds.
   */
  lemma NoMatchSecondBlock7811007(digits: string)
    requires |digits| >= 7 && digits[..7] == "7811007"
    ensures forall j :: 0 <= j < |OneRules1()| ==> !RuleMatches(OneRules1()[j], digits)
  {
    Windows7811007(digits);
    var rules := OneRules1();
    RuleReads(rules[0], digits, 78110);
    RuleReads(rules[1], digits, 7811);
    RuleReads(rules[2], digits, 78110);
    RuleReads(rules[3], digits, 7811);
    RuleReads(rules[4], digits, 781);
    RuleReads(rules[5], digits, 7811);
    RuleReads(rules[6], digits, 7811007);
    RuleReads(rules[7], digits, 78110);
  }

  /**
   * In the third block (lines 53-60) the seven-digit rules ending with
   * `7770000..<7782999` fail on 7811007 and the five-digit rule
   * `77830..<78999` on line 58 is the first to hold the window 78110.
   */
  lemma FirstInThirdBlock7811007(digits: string)
    requires |digits| >= 7 && digits[..7] == "7811007"
    ensures FirstRuleAt(OneRules2(), digits, 5)
  {
    Windows7811007(digits);
    var rules := OneRules2();
    RuleReads(rules[0], digits, 7811007);
    RuleReads(rules[1], digits, 78110);
    RuleReads(rules[2], digits, 7811007);
    RuleReads(rules[3], digits, 78110);
    RuleReads(rules[4], digits, 7811007);
    RuleReads(rules[5], digits, 78110);
  }

  /**
   * Record 978-1 reads remaining digits starting `7811007` with its rule 21
   * (`77830..<78999`, length 5), after rejecting the twenty-one rules before it.
   */
  lemma Rule78110(digits: string)
    requires |digits| >= 7 && digits[..7] == "7811007"
    ensures FirstRuleAt(EnglishOne().rules, digits, 21) && EnglishOne().rules[21] == OneRules2()[5]
    ensures OneRules2()[5] == Rule(77830, 78999, 5)
  {
    NoMatchFirstBlock7811007(digits);
    NoMatchSecondBlock7811007(digits);
    FirstInThirdBlock7811007(digits);
    FirstRuleAtAfter(OneRules1(), OneRules2(), digits, 5);
    FirstRuleAtAfter(OneRules0(), OneRules1() + OneRules2(), digits, 13);
    assert OneRules0() + (OneRules1() + OneRules2()) == OneRules0() + OneRules1() + OneRules2();
    FirstInFirstThreeBlocks(digits, 21);
    var front := OneRules0() + OneRules1() + OneRules2();
    assert front[21] == OneRules2()[5];
    assert EnglishOne().rules[21] == front[21];
  }

  /**
   * Record 978-1 reads the registrant of a candidate continuing with
   * `7811007` with rule 21, five digits long; the search never traps.
   */
  lemma RegistrantOne78110(c: string)
    requires |c| >= 13 && c[..4] == "9781" && c[4..11] == "7811007"
    ensures var digits := DropFirst(c, 4);
            Trapless(EnglishOne().rules, digits) &&
            FirstRule(EnglishOne().rules, digits) == Some(Rule(77830, 78999, 5))
  {
    var digits := DropFirst(c, 4);
    assert digits == c[4..] && digits[..7] == c[4..11];
    Rule78110(digits);
    TraplessIfFits(EnglishOne().rules, digits);
    FirstRuleAtFound(EnglishOne().rules, digits, 21);
  }

  /**
   * The elements record 978-1 reads from a candidate whose first matching
   * rule has length `n`: the `n`-digit registrant, the rest less the last
   * character as publication, and the last character as check digit.
   */
  lemma ElementsOne(c: string, n: int)
    requires |c| >= 13 && c[..4] == "9781" && IsDigit(c[|c| - 1]) && 4 + n < |c|
    requires Trapless(EnglishOne().rules, DropFirst(c, 4))
    requires FirstRule(EnglishOne().rules, DropFirst(c, 4)).Some?
    requires FirstRule(EnglishOne().rules, DropFirst(c, 4)).value.length == n
    ensures n >= 1
    ensures ElementsFor(EnglishOne(), c) == Some(Elements(978, 1, c[4..4 + n], c[4 + n..|c| - 1], DigitValue(c[|c| - 1])))
  {
    var g := EnglishOne();
    ElementsAfterKey(g, c, n);
  }

  /** The elements of a record with a four-character key, for a first matching rule of length `n`. */
  lemma ElementsAfterKey(g: RegistrationGroup, c: string, n: int)
    requires |Key(g)| == 4 && |c| >= 13 && IsDigit(c[|c| - 1]) && 4 + n < |c|
    requires Trapless(g.rules, DropFirst(c, 4))
    requires FirstRule(g.rules, DropFirst(c, 4)).Some? && FirstRule(g.rules, DropFirst(c, 4)).value.length == n
    ensures n >= 1
    ensures ElementsFor(g, c) == Some(Elements(g.prefix, g.group, c[4..4 + n], c[4 + n..|c| - 1], DigitValue(c[|c| - 1])))
  {
    assert DropFirst(c, 4) == c[4..];
    SuffixSlices(c, 4, n);
  }

  /** Slices of a suffix, as slices of the whole string. */
  lemma SuffixSlices(c: string, k: nat, n: nat)
    requires k + n < |c|
    ensures c[k..][..n] == c[k..k + n] && c[k..][n..|c| - k - 1] == c[k + n..|c| - 1]
  {
  }

  /**
   * Such a candidate of record 978-1: the ISBN built from it has the
   * record's name and the elements above.
   */
  lemma CandidateOne(c: string, n: int)
    requires |c| >= 13 && c[..4] == "9781" && IsDigit(c[|c| - 1]) && 4 + n < |c|
    requires Trapless(EnglishOne().rules, DropFirst(c, 4))
    requires FirstRule(EnglishOne().rules, DropFirst(c, 4)).Some?
    requires FirstRule(EnglishOne().rules, DropFirst(c, 4)).value.length == n
    ensures n >= 1
    ensures FromCandidate(Excerpt(), c) ==
      var e := Elements(978, 1, c[4..4 + n], c[4 + n..|c| - 1], DigitValue(c[|c| - 1]));
      Some(Isbn("English language", e, Joined(e), ToInt(c)))
  {
    GroupOne(c);
    ElementsOne(c, n);
  }

  /** The hyphenated text of elements of record 978-1 with a single-digit check digit. */
  lemma JoinedOne(registrant: string, publication: string, d: nat)
    requires d < 10
    ensures Joined(Elements(978, 1, registrant, publication, d)) ==
            "978-1-" + registrant + "-" + publication + "-" + [DigitChar(d)]
  {
    assert NatToString(978) == "978" && NatToString(1) == "1";
  }
}
