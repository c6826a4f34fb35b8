/**
 * The range matcher: `group(for:)` on the registration-group table and
 * `RegistrationGroup.elements(for:)` (Sources/ISBN/ISBN.swift).
 *
 * Range semantics: a rule's range is read as the closed interval
 * `lo <= r <= hi`, following the declared type `ClosedRange<Int>` of
 * `Rule.range`. The generated table writes `lo..<hi`, but its generator cuts
 * both bounds of the agency's range down to `length` digits, so `hi` is the
 * truncated upper end of that range rather than an exclusive limit.
 */
module RangeMatcher {
  import opened Wrappers
  import opened Decimal

  /** `RegistrationGroup.Rule`: a closed range of registrant values and the registrant's length. */
  datatype Rule = Rule(lo: int, hi: int, length: int)

  /** One agency record of the table; `rules` are tried in the order given. */
  datatype RegistrationGroup = RegistrationGroup(prefix: int, group: int, name: string, rules: seq<Rule>)

  /** `ISBN.Elements`: registrant and publication stay strings so that leading zeros survive. */
  datatype Elements = Elements(prefix: int, group: int, registrant: string, publication: string, checkDigit: int)

  /**
   * `"\(prefix)\(group)"`: the decimal key a candidate must start with; for
   * a record of non-negative numbers, a run of at least two digits.
   */
  function Key(g: RegistrationGroup): (key: string)
    ensures g.prefix >= 0 && g.group >= 0 ==> |key| >= 2 && AllDigits(key)
  {
    IntToString(g.prefix) + IntToString(g.group)
  }

  /** `String.hasPrefix` */
  predicate HasPrefix(s: string, p: string) {
    |p| <= |s| && s[..|p|] == p
  }

  /** `s.dropFirst(k)`: `s` without its first `k` characters, empty when `k` exceeds its length. */
  function DropFirst(s: string, k: nat): string {
    if k <= |s| then s[k..] else []
  }

  /** Record `i` is the first record of the table whose key starts `isbn`. */
  predicate FirstGroupAt(table: seq<RegistrationGroup>, isbn: string, i: int) {
    0 <= i < |table| && HasPrefix(isbn, Key(table[i])) &&
    forall j :: 0 <= j < i ==> !HasPrefix(isbn, Key(table[j]))
  }

  /**
   * `group(for:)`: the first record, in table order, whose key is a prefix
   * of `isbn`; none when no key is.
   */
  function GroupFor(table: seq<RegistrationGroup>, isbn: string): (r: Option<RegistrationGroup>)
    ensures r.None? <==> forall i :: 0 <= i < |table| ==> !HasPrefix(isbn, Key(table[i]))
    ensures r.Some? ==> r.value in table && HasPrefix(isbn, Key(r.value))
  {
    if table == [] then
      None
    else if HasPrefix(isbn, Key(table[0])) then
      Some(table[0])
    else
      GroupFor(table[1..], isbn)
  }

  /** The record found is the first match: no record before it matches. */
  lemma {:induction false} GroupForFirst(table: seq<RegistrationGroup>, isbn: string)
    requires GroupFor(table, isbn).Some?
    ensures exists i :: FirstGroupAt(table, isbn, i) && table[i] == GroupFor(table, isbn).value
  {
    if HasPrefix(isbn, Key(table[0])) {
      assert FirstGroupAt(table, isbn, 0);
    } else {
      GroupForFirst(table[1..], isbn);
      var rest := table[1..];
      var i :| FirstGroupAt(rest, isbn, i) && rest[i] == GroupFor(table, isbn).value;
      forall j | 1 <= j <= i ensures !HasPrefix(isbn, Key(table[j])) {
        assert table[j] == rest[j - 1];
      }
      assert table[i + 1] == rest[i];
    }
  }

  /** A first matching record is the one found. */
  lemma {:induction false} GroupForIs(table: seq<RegistrationGroup>, isbn: string, i: int)
    requires FirstGroupAt(table, isbn, i)
    ensures GroupFor(table, isbn) == Some(table[i])
  {
    if i > 0 {
      FirstGroupAtRest(table, isbn, i);
      GroupForIs(table[1..], isbn, i - 1);
    }
  }

  /** A first match after the head is a first match of the tail, one place earlier. */
  lemma FirstGroupAtRest(table: seq<RegistrationGroup>, isbn: string, i: int)
    requires FirstGroupAt(table, isbn, i) && i > 0
    ensures FirstGroupAt(table[1..], isbn, i - 1) && table[1..][i - 1] == table[i]
    ensures !HasPrefix(isbn, Key(table[0]))
  {
    var rest := table[1..];
    forall j | 0 <= j < i - 1 ensures !HasPrefix(isbn, Key(rest[j])) {
      assert rest[j] == table[j + 1];
    }
  }

  /**
   * Table order decides: searching a table made of two parts finds a record
   * of the second part only when no record of the first part matches.
   */
  lemma {:induction false} GroupForConcat(t1: seq<RegistrationGroup>, t2: seq<RegistrationGroup>, isbn: string)
    ensures GroupFor(t1 + t2, isbn) == if GroupFor(t1, isbn).Some? then GroupFor(t1, isbn) else GroupFor(t2, isbn)
  {
    if t1 == [] {
      assert t1 + t2 == t2;
    } else {
      assert (t1 + t2)[0] == t1[0] && (t1 + t2)[1..] == t1[1..] + t2;
      GroupForConcat(t1[1..], t2, isbn);
    }
  }

  /** `digits.dropLast(digits.count - length)`: the first `length` characters, none for a length <= 0. */
  function Window(digits: string, length: int): string
    requires length <= |digits|
  {
    digits[..if length < 0 then 0 else length]
  }

  /**
   * The test inside `rules.first { … }`: the rule's window of `digits`
   * parses to an `Int` that lies in the rule's closed range.
   */
  predicate RuleMatches(rule: Rule, digits: string)
    ensures RuleMatches(rule, digits) ==> 1 <= rule.length <= |digits|
  {
    rule.length <= |digits| &&
    var registrant := ParseInt(Window(digits, rule.length));
    registrant.Some? && rule.lo <= registrant.value <= rule.hi
  }

  /** On a window of digits worth `v`, a rule matches exactly when its closed range holds `v`. */
  lemma RuleReads(rule: Rule, digits: string, v: nat)
    requires 1 <= rule.length <= |digits|
    requires AllDigits(digits[..rule.length]) && Value(digits[..rule.length]) == v
    ensures RuleMatches(rule, digits) <==> rule.lo <= v <= rule.hi
  {
  }

  /** Rule `i` is the first rule, in declared order, that matches `digits`. */
  predicate FirstRuleAt(rules: seq<Rule>, digits: string, i: int) {
    0 <= i < |rules| && RuleMatches(rules[i], digits) &&
    forall j :: 0 <= j < i ==> !RuleMatches(rules[j], digits)
  }

  /**
   * The search of `elements(for:)` never reaches a rule longer than the
   * remaining characters, where `dropLast` with a negative count would trap:
   * every rule up to and including the first match fits.
   */
  predicate Trapless(rules: seq<Rule>, digits: string) {
    rules == [] ||
    (rules[0].length <= |digits| && (RuleMatches(rules[0], digits) || Trapless(rules[1..], digits)))
  }

  /** Rules that all fit the remaining characters never trap. */
  lemma {:induction false} TraplessIfFits(rules: seq<Rule>, digits: string)
    requires forall i :: 0 <= i < |rules| ==> rules[i].length <= |digits|
    ensures Trapless(rules, digits)
  {
    if rules != [] {
      TraplessIfFits(rules[1..], digits);
    }
  }

  /** `rules.first { … }`: the first rule, in declared order, that matches. */
  function FirstRule(rules: seq<Rule>, digits: string): (r: Option<Rule>)
    requires Trapless(rules, digits)
    ensures r.None? <==> forall i :: 0 <= i < |rules| ==> !RuleMatches(rules[i], digits)
    ensures r.Some? ==> r.value in rules && RuleMatches(r.value, digits)
  {
    if rules == [] then
      None
    else if RuleMatches(rules[0], digits) then
      Some(rules[0])
    else
      FirstRule(rules[1..], digits)
  }

  /** The rule found is the first match: a first matching rule is the one returned. */
  lemma {:induction false} FirstRuleAtFound(rules: seq<Rule>, digits: string, i: int)
    requires Trapless(rules, digits) && FirstRuleAt(rules, digits, i)
    ensures FirstRule(rules, digits) == Some(rules[i])
  {
    if i > 0 {
      assert !RuleMatches(rules[0], digits);
      var rest := rules[1..];
      forall j | 0 <= j < i - 1 ensures !RuleMatches(rest[j], digits) {
        assert rest[j] == rules[j + 1];
      }
      assert rest[i - 1] == rules[i];
      FirstRuleAtFound(rest, digits, i - 1);
    }
  }

  /** Rules declared after the first match are never consulted. */
  lemma FirstRuleAtPrefix(a: seq<Rule>, b: seq<Rule>, digits: string, i: int)
    requires FirstRuleAt(a, digits, i)
    ensures FirstRuleAt(a + b, digits, i)
  {
    assert forall j :: 0 <= j <= i ==> (a + b)[j] == a[j];
  }

  /**
   * Rules declared before a first match are all consulted: after rules that
   * all fail, a first match of the rules that follow is a first match of
   * the whole list.
   */
  lemma FirstRuleAtAfter(a: seq<Rule>, b: seq<Rule>, digits: string, i: int)
    requires forall j :: 0 <= j < |a| ==> !RuleMatches(a[j], digits)
    requires FirstRuleAt(b, digits, i)
    ensures FirstRuleAt(a + b, digits, |a| + i)
  {
    var ab := a + b;
    assert ab[|a| + i] == b[i];
    forall j | 0 <= j < |a| + i ensures !RuleMatches(ab[j], digits) {
      if j < |a| {
        assert ab[j] == a[j];
      } else {
        assert ab[j] == b[j - |a|];
      }
    }
  }

  /** `Int(String(isbn.last!))`: the value of a last digit, nil for any other last character. */
  lemma ParseLast(isbn: string)
    requires |isbn| >= 1
    ensures ParseInt(isbn[|isbn| - 1..]).Some? <==> IsDigit(isbn[|isbn| - 1])
    ensures IsDigit(isbn[|isbn| - 1]) ==> ParseInt(isbn[|isbn| - 1..]) == Some(DigitValue(isbn[|isbn| - 1]))
  {
    var tail := isbn[|isbn| - 1..];
    assert tail == [isbn[|isbn| - 1]];
    if IsDigit(isbn[|isbn| - 1]) {
      assert tail[..0] == [];
      assert Value(tail) == DigitValue(isbn[|isbn| - 1]);
    }
  }

  /** Window and rest of a split at `length`, written as slices of `digits`. */
  lemma SplitRest(digits: string, length: int)
    requires 1 <= length <= |digits|
    ensures Window(digits, length) == digits[..length]
    ensures DropFirst(digits[..|digits| - 1], length) ==
            if length < |digits| then digits[length..|digits| - 1] else []
  {
  }

  /**
   * `RegistrationGroup.elements(for:)`: drop the record's key, find the
   * first rule whose window of the rest matches, and split the rest into
   * registrant (the window), publication (what follows, less the last
   * character) and the value of the last character of `isbn`.
   */
  function ElementsFor(g: RegistrationGroup, isbn: string): (r: Option<Elements>)
    requires Trapless(g.rules, DropFirst(isbn, |Key(g)|))
    ensures r.Some? <==>
      FirstRule(g.rules, DropFirst(isbn, |Key(g)|)).Some? && |isbn| >= 1 && IsDigit(isbn[|isbn| - 1])
    ensures r.Some? ==>
      var digits := DropFirst(isbn, |Key(g)|);
      var length := FirstRule(g.rules, digits).value.length;
      1 <= length <= |digits| &&
      r.value == Elements(g.prefix, g.group, digits[..length],
        if length < |digits| then digits[length..|digits| - 1] else [],
        DigitValue(isbn[|isbn| - 1]))
  {
    var digits := DropFirst(isbn, |Key(g)|);
    match FirstRule(g.rules, digits)
    case None => None
    case Some(rule) =>
      var checkDigit := ParseInt(isbn[|isbn| - 1..]);
      ParseLast(isbn);
      SplitRest(digits, rule.length);
      if checkDigit.None? then
        None
      else
        Some(Elements(
          g.prefix, g.group,
          Window(digits, rule.length),
          DropFirst(digits[..|digits| - 1], rule.length),
          checkDigit.value))
  }

  /**
   * A string cut after a prefix, after a window of the rest, and before its
   * last character is the concatenation of the pieces.
   */
  lemma PiecesJoin(s: string, key: string, window: string, middle: string)
    requires |key| <= |s| && key == s[..|key|]
    requires |window| < |s| - |key|
    requires window == s[|key|..][..|window|] && middle == s[|key|..][|window|..|s| - |key| - 1]
    ensures key + window + middle + [s[|s| - 1]] == s
  {
    var rest := s[|key|..];
    assert window + middle == rest[..|rest| - 1];
    assert window + middle + [s[|s| - 1]] == rest;
  }

  /**
   * The split is lossless: when the registrant leaves at least the last
   * character over, key, registrant, publication and the last character put
   * back together give `isbn` exactly.
   */
  lemma ElementsLossless(g: RegistrationGroup, isbn: string)
    requires HasPrefix(isbn, Key(g)) && Trapless(g.rules, DropFirst(isbn, |Key(g)|))
    requires ElementsFor(g, isbn).Some?
    requires |ElementsFor(g, isbn).value.registrant| < |isbn| - |Key(g)|
    ensures var e := ElementsFor(g, isbn).value;
            Key(g) + e.registrant + e.publication + [isbn[|isbn| - 1]] == isbn
  {
    var e := ElementsFor(g, isbn).value;
    var k := |Key(g)|;
    assert DropFirst(isbn, k) == isbn[k..];
    PiecesJoin(isbn, Key(g), e.registrant, e.publication);
  }
}
