/**
 * The element composer: `Elements.joined()` (Sources/ISBN/ISBN.swift),
 * written as an explicit formatter over the five fields in their declared
 * order (prefix, group, registrant, publication, check digit) instead of
 * reflection over the struct.
 */
module Composer {
  import opened Decimal
  import opened Sanitizer
  import opened RangeMatcher

  /** `Elements.joined()`: the five fields rendered as text and joined with `-`. */
  function Joined(e: Elements): string {
    IntToString(e.prefix) + "-" + IntToString(e.group) + "-" + e.registrant + "-" +
    e.publication + "-" + IntToString(e.checkDigit)
  }

  /** The pieces of `s` between occurrences of `sep`, as Swift's `split(separator:omittingEmptySubsequences: false)`. */
  function SplitOn(s: string, sep: char): (parts: seq<string>)
    ensures |parts| >= 1
  {
    if s == [] then
      [[]]
    else
      var rest := SplitOn(s[1..], sep);
      if s[0] == sep then [[]] + rest else [[s[0]] + rest[0]] + rest[1..]
  }

  predicate Free(s: string, sep: char) {
    forall i :: 0 <= i < |s| ==> s[i] != sep
  }

  /** Splitting after a piece that holds no separator yields that piece first. */
  lemma {:induction false} SplitOnAfter(a: string, sep: char, b: string)
    requires Free(a, sep)
    ensures SplitOn(a + [sep] + b, sep) == [a] + SplitOn(b, sep)
  {
    if a == [] {
      assert a + [sep] + b == [sep] + b;
      assert ([sep] + b)[1..] == b;
    } else {
      var s := a + [sep] + b;
      assert s[0] == a[0] && s[1..] == a[1..] + [sep] + b;
      SplitOnAfter(a[1..], sep, b);
      assert [a[0]] + a[1..] == a;
    }
  }

  /** A piece that holds no separator splits into itself. */
  lemma {:induction false} SplitOnFree(a: string, sep: char)
    requires Free(a, sep)
    ensures SplitOn(a, sep) == [a]
  {
    if a != [] {
      SplitOnFree(a[1..], sep);
      assert [a[0]] + a[1..] == a;
    }
  }

  /** The decimal rendering of a non-negative number holds no hyphen. */
  lemma NatTextFree(n: int)
    requires n >= 0
    ensures Free(IntToString(n), '-')
  {
  }

  /**
   * The field order is fixed: splitting the joined text at its hyphens gives
   * back the five fields, in declaration order, provided no field itself
   * holds a hyphen (non-negative numbers, hyphen-free strings).
   */
  lemma JoinedSplits(e: Elements)
    requires e.prefix >= 0 && e.group >= 0 && e.checkDigit >= 0
    requires Free(e.registrant, '-') && Free(e.publication, '-')
    ensures SplitOn(Joined(e), '-') ==
      [IntToString(e.prefix), IntToString(e.group), e.registrant, e.publication, IntToString(e.checkDigit)]
  {
    var p, g, c := IntToString(e.prefix), IntToString(e.group), IntToString(e.checkDigit);
    NatTextFree(e.prefix);
    NatTextFree(e.group);
    NatTextFree(e.checkDigit);
    var s4 := e.publication + "-" + c;
    var s3 := e.registrant + "-" + s4;
    var s2 := g + "-" + s3;
    assert Joined(e) == p + "-" + g + "-" + e.registrant + "-" + e.publication + "-" + c;
    HyphensNested(p, g, e.registrant, e.publication, c);
    SplitOnFree(c, '-');
    SplitOnAfter(e.publication, '-', c);
    SplitOnAfter(e.registrant, '-', s4);
    SplitOnAfter(g, '-', s3);
    SplitOnAfter(p, '-', s2);
  }

  /** Five texts joined with hyphens, each hyphen followed by the rest of the text. */
  lemma HyphensNested(a: string, b: string, c: string, d: string, e: string)
    ensures a + "-" + b + "-" + c + "-" + d + "-" + e == a + "-" + (b + "-" + (c + "-" + (d + "-" + e)))
  {
  }

  /** The joined text determines the elements: distinct elements never render alike. */
  lemma JoinedInjective(e1: Elements, e2: Elements)
    requires e1.prefix >= 0 && e1.group >= 0 && e1.checkDigit >= 0
    requires Free(e1.registrant, '-') && Free(e1.publication, '-')
    requires e2.prefix >= 0 && e2.group >= 0 && e2.checkDigit >= 0
    requires Free(e2.registrant, '-') && Free(e2.publication, '-')
    requires Joined(e1) == Joined(e2)
    ensures e1 == e2
  {
    JoinedSplits(e1);
    JoinedSplits(e2);
    ParseIntOfIntToString(e1.prefix);
    ParseIntOfIntToString(e2.prefix);
    ParseIntOfIntToString(e1.group);
    ParseIntOfIntToString(e2.group);
    ParseIntOfIntToString(e1.checkDigit);
    ParseIntOfIntToString(e2.checkDigit);
  }

  /** A hyphen between two texts disappears when sanitizing. */
  lemma SanitizeAroundHyphen(a: string, b: string)
    ensures Sanitize(a + "-" + b) == Sanitize(a) + Sanitize(b)
  {
    assert Sanitize("-") == [];
    SanitizeConcat(a, "-");
    SanitizeConcat(a + "-", b);
  }

  /**
   * Sanitizing the joined text drops the four hyphens and gives back the
   * characters of the fields, in order.
   */
  lemma SanitizeJoined(e: Elements)
    requires AllSafe(IntToString(e.prefix)) && AllSafe(IntToString(e.group))
    requires AllSafe(e.registrant) && AllSafe(e.publication) && 0 <= e.checkDigit < 10
    ensures Sanitize(Joined(e)) ==
      IntToString(e.prefix) + IntToString(e.group) + e.registrant + e.publication + [DigitChar(e.checkDigit)]
  {
    var p, g, c := IntToString(e.prefix), IntToString(e.group), IntToString(e.checkDigit);
    assert c == [DigitChar(e.checkDigit)];
    SanitizeKeepsSafe(p);
    SanitizeKeepsSafe(g);
    SanitizeKeepsSafe(e.registrant);
    SanitizeKeepsSafe(e.publication);
    SanitizeKeepsSafe(c);
    var j1 := p + "-" + g;
    var j2 := j1 + "-" + e.registrant;
    var j3 := j2 + "-" + e.publication;
    var j4 := j3 + "-" + c;
    assert Joined(e) == j4;
    SanitizeAroundHyphen(p, g);
    SanitizeAroundHyphen(j1, e.registrant);
    SanitizeAroundHyphen(j2, e.publication);
    SanitizeAroundHyphen(j3, c);
  }
}
