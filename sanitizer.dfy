/**
 * The digit sanitizer: `Character.isISBNSave` and the `filter` that applies
 * it before validation and normalisation (Sources/ISBN/ISBN.swift).
 */
module Sanitizer {
  import opened Decimal

  /** `isISBNSave`: the character is one of `0`…`9` or an upper-case `X`. */
  predicate IsIsbnSafe(c: char) {
    IsDigit(c) || c == 'X'
  }

  predicate AllSafe(s: string) {
    forall i :: 0 <= i < |s| ==> IsIsbnSafe(s[i])
  }

  /** `filter(\.isISBNSave)` */
  function Sanitize(s: string): (r: string)
    ensures AllSafe(r)
  {
    if s == [] then [] else (if IsIsbnSafe(s[0]) then [s[0]] else []) + Sanitize(s[1..])
  }

  /**
   * Every safe character is kept as often as it occurs, and every other
   * character (hyphen, space, lower-case `x`, …) is dropped.
   */
  lemma {:induction false} SanitizeKeepsExactlySafe(s: string)
    ensures forall c :: multiset(Sanitize(s))[c] == if IsIsbnSafe(c) then multiset(s)[c] else 0
  {
    if s != [] {
      assert s == [s[0]] + s[1..];
      SanitizeKeepsExactlySafe(s[1..]);
    }
  }

  /** Filtering works piecewise, so the kept characters stay in their original order. */
  lemma {:induction false} SanitizeConcat(a: string, b: string)
    ensures Sanitize(a + b) == Sanitize(a) + Sanitize(b)
  {
    if a == [] {
      assert a + b == b;
    } else {
      var head := if IsIsbnSafe(a[0]) then [a[0]] else [];
      assert (a + b)[0] == a[0] && (a + b)[1..] == a[1..] + b;
      SanitizeConcat(a[1..], b);
      calc {
        Sanitize(a + b);
        head + Sanitize(a[1..] + b);
        head + (Sanitize(a[1..]) + Sanitize(b));
        (head + Sanitize(a[1..])) + Sanitize(b);
      }
    }
  }

  /** A string of safe characters passes through unchanged. */
  lemma {:induction false} SanitizeKeepsSafe(s: string)
    requires AllSafe(s)
    ensures Sanitize(s) == s
  {
    if s != [] {
      SanitizeKeepsSafe(s[1..]);
    }
  }

  lemma SanitizeIdempotent(s: string)
    ensures Sanitize(Sanitize(s)) == Sanitize(s)
  {
    SanitizeKeepsSafe(Sanitize(s));
  }

  /** A string of characters none of which is safe sanitizes to nothing. */
  lemma {:induction false} SanitizeDropsUnsafe(s: string)
    requires forall i :: 0 <= i < |s| ==> !IsIsbnSafe(s[i])
    ensures Sanitize(s) == []
  {
    if s != [] {
      SanitizeDropsUnsafe(s[1..]);
    }
  }
}
