/**
 * An excerpt of the generated registration-group table
 * (Sources/ISBN/ISBN+RegistrationGroups.swift, International ISBN Agency
 * data of 16 November 2021): its first two records, 978-0 and 978-1, with
 * every rule in the order the file declares them. The bounds are written as
 * the file writes them; the model reads each range as closed.
 *
 * Each record's rule list is declared in blocks of at most eight rules,
 * concatenated in the file's order, so that a fact about one block (that its
 * rules fit, or which of its rules matches first) is stated about that block
 * alone.
 */
module RegistrationGroups {
  import opened RangeMatcher
  import opened Engine

  /** Every rule of `rules` reads fewer than `room` characters. */
  predicate FitBefore(rules: seq<Rule>, room: int) {
    forall j :: 0 <= j < |rules| ==> rules[j].length < room
  }

  /** Every rule of `g` leaves room for the check digit of a thirteen-character candidate. */
  predicate RulesLeaveCheckDigit(g: RegistrationGroup) {
    FitBefore(g.rules, 13 - |Key(g)|)
  }

  /** Blocks that fit make a list that fits. */
  lemma FitBeforeConcat(a: seq<Rule>, b: seq<Rule>, room: int)
    requires FitBefore(a, room) && FitBefore(b, room)
    ensures FitBefore(a + b, room)
  {
    forall j | 0 <= j < |a + b| ensures (a + b)[j].length < room {
      if j >= |a| {
        assert (a + b)[j] == b[j - |a|];
      }
    }
  }

  /** Record 978-0, English language. */
  function EnglishZero(): (g: RegistrationGroup)
    ensures Key(g) == "9780" && RulesLeaveCheckDigit(g)
  {
    var g := RegistrationGroup(978, 0, "English language", ZeroRules0() + ZeroRules1() + ZeroRules2());
    assert Key(g) == "9780";
    FitBeforeConcat(ZeroRules0(), ZeroRules1(), 9);
    FitBeforeConcat(ZeroRules0() + ZeroRules1(), ZeroRules2(), 9);
    g
  }

  /** Rules 0 to 7 of the record (file lines 11-18). */
  function ZeroRules0(): (rules: seq<Rule>)
    ensures |rules| == 8 && FitBefore(rules, 9)
  {
    [
      Rule(0, 19, 2),
      Rule(200, 227, 3),
      Rule(2280, 2289, 4),
      Rule(229, 368, 3),
      Rule(3690, 3699, 4),
      Rule(370, 638, 3),
      Rule(6390, 6397, 4),
      Rule(6398000, 6399999, 7)
    ]
  }

  /** Rules 8 to 15 of the record (file lines 19-26). */
  function ZeroRules1(): (rules: seq<Rule>)
    ensures |rules| == 8 && FitBefore(rules, 9)
  {
    [
      Rule(640, 644, 3),
      Rule(6450000, 6459999, 7),
      Rule(646, 647, 3),
      Rule(6480000, 6489999, 7),
      Rule(649, 654, 3),
      Rule(6550, 6559, 4),
      Rule(656, 699, 3),
      Rule(7000, 8499, 4)
    ]
  }

  /** Rules 16 to 18 of the record (file lines 27-29). */
  function ZeroRules2(): (rules: seq<Rule>)
    ensures |rules| == 3 && FitBefore(rules, 9)
  {
    [
      Rule(85000, 89999, 5),
      Rule(900000, 949999, 6),
      Rule(9500000, 9999999, 7)
    ]
  }

  /** Record 978-1, English language. */
  function EnglishOne(): (g: RegistrationGroup)
    ensures Key(g) == "9781" && RulesLeaveCheckDigit(g)
  {
    var g := RegistrationGroup(978, 1, "English language", OneRules0() + OneRules1() + OneRules2() + OneRules3() + OneRules4() + OneRules5());
    assert Key(g) == "9781";
    FitBeforeConcat(OneRules0(), OneRules1(), 9);
    FitBeforeConcat(OneRules0() + OneRules1(), OneRules2(), 9);
    FitBeforeConcat(OneRules0() + OneRules1() + OneRules2(), OneRules3(), 9);
    FitBeforeConcat(OneRules0() + OneRules1() + OneRules2() + OneRules3(), OneRules4(), 9);
    FitBeforeConcat(OneRules0() + OneRules1() + OneRules2() + OneRules3() + OneRules4(), OneRules5(), 9);
    g
  }

  /** Rules 0 to 7 of the record (file lines 37-44). */
  function OneRules0(): (rules: seq<Rule>)
    ensures |rules| == 8 && FitBefore(rules, 9)
  {
    [
      Rule(0, 9, 3),
      Rule(1, 2, 2),
      Rule(30, 34, 3),
      Rule(350, 399, 4),
      Rule(4, 6, 2),
      Rule(700, 999, 4),
      Rule(100, 397, 3),
      Rule(3980, 5499, 4)
    ]
  }

  /** Rules 8 to 15 of the record (file lines 45-52). */
  function OneRules1(): (rules: seq<Rule>)
    ensures |rules| == 8 && FitBefore(rules, 9)
  {
    [
      Rule(55000, 64999, 5),
      Rule(6500, 6799, 4),
      Rule(68000, 68599, 5),
      Rule(6860, 7139, 4),
      Rule(714, 716, 3),
      Rule(7170, 7319, 4),
      Rule(7320000, 7399999, 7),
      Rule(74000, 77499, 5)
    ]
  }

  /** Rules 16 to 23 of the record (file lines 53-60). */
  function OneRules2(): (rules: seq<Rule>)
    ensures |rules| == 8 && FitBefore(rules, 9)
  {
    [
      Rule(7750000, 7753999, 7),
      Rule(77540, 77639, 5),
      Rule(7764000, 7764999, 7),
      Rule(77650, 77699, 5),
      Rule(7770000, 7782999, 7),
      Rule(77830, 78999, 5),
      Rule(7900, 7999, 4),
      Rule(80000, 80049, 5)
    ]
  }

  /** Rules 24 to 31 of the record (file lines 61-68). */
  function OneRules3(): (rules: seq<Rule>)
    ensures |rules| == 8 && FitBefore(rules, 9)
  {
    [
      Rule(80050, 80499, 5),
      Rule(80500, 83799, 5),
      Rule(8380000, 8384999, 7),
      Rule(83850, 86719, 5),
      Rule(8672, 8675, 4),
      Rule(86760, 86979, 5),
      Rule(869800, 915999, 6),
      Rule(9160000, 9165059, 7)
    ]
  }

  /** Rules 32 to 39 of the record (file lines 69-76). */
  function OneRules4(): (rules: seq<Rule>)
    ensures |rules| == 8 && FitBefore(rules, 9)
  {
    [
      Rule(916506, 916869, 6),
      Rule(9168700, 9169079, 7),
      Rule(916908, 919599, 6),
      Rule(9196000, 9196549, 7),
      Rule(919655, 972999, 6),
      Rule(9730, 9877, 4),
      Rule(987800, 991149, 6),
      Rule(9911500, 9911999, 7)
    ]
  }

  /** Rules 40 to 41 of the record (file lines 77-78). */
  function OneRules5(): (rules: seq<Rule>)
    ensures |rules| == 2 && FitBefore(rules, 9)
  {
    [
      Rule(991200, 998989, 6),
      Rule(9989900, 9999999, 7)
    ]
  }

  /** The excerpt, in table order; it satisfies the fitting conditions the engine asks for. */
  function Excerpt(): (table: seq<RegistrationGroup>)
    ensures |table| == 2 && TableFits(table) && LeavesCheckDigit(table)
  {
    var zero, one := EnglishZero(), EnglishOne();
    var t := [zero, one];
    forall i, j | 0 <= i < |t| && 0 <= j < |t[i].rules|
      ensures t[i].rules[j].length < 13 - |Key(t[i])|
    {
      assert RulesLeaveCheckDigit(t[i]);
    }
    t
  }
}
