/**
 * The checksum engine: `isbnValue`, `calculateISBNChecksum` (weights
 * 1, 3, 1, 3, … from offset 0, the ISBN-13 / EAN-13 modulo-10 rule of
 * ISO 2108), `calculateISBN10Checksum` (weight offset + 1, the ISBN-10
 * modulo-11 rule) and `ISBN.isValid` (Sources/ISBN/ISBN.swift).
 */
module Checksum {
  import opened Wrappers
  import opened Decimal
  import opened Sanitizer

  /** `isbnValue`: `X` is worth 10, an ASCII digit its face value, anything else has no value. */
  function IsbnValue(c: char): (v: Option<nat>)
    ensures v.Some? <==> IsIsbnSafe(c)
    ensures v.Some? ==> v.value <= 10 && (v.value == 10 <==> c == 'X')
    ensures IsDigit(c) ==> v == Some(DigitValue(c))
  {
    if c == 'X' then Some(10) else if IsDigit(c) then Some(DigitValue(c)) else None
  }

  /** `compactMap(\.isbnValue)`: the values of the characters that have one, in order. */
  function Values(s: string): (vs: seq<nat>)
    ensures |vs| <= |s|
    ensures forall k :: 0 <= k < |vs| ==> vs[k] <= 10
  {
    if s == [] then
      []
    else
      Values(s[..|s| - 1]) + match IsbnValue(s[|s| - 1]) case Some(v) => [v] case None => []
  }

  /** The weight `calculateISBNChecksum` gives to offset `i`: 3 when `i & 1 == 1`, else 1. */
  function Weight13(i: nat): (w: nat)
    ensures w == 1 || w == 3
  {
    if i % 2 == 1 then 3 else 1
  }

  /** `enumerated().map(weight * value).reduce(0, +)` with the ISBN-13 weights. */
  function WeightedSum13(vs: seq<nat>): nat {
    if vs == [] then 0 else WeightedSum13(vs[..|vs| - 1]) + Weight13(|vs| - 1) * vs[|vs| - 1]
  }

  /** `enumerated().map((offset + 1) * value).reduce(0, +)`: the ISBN-10 weights. */
  function WeightedSum10(vs: seq<nat>): nat {
    if vs == [] then 0 else WeightedSum10(vs[..|vs| - 1]) + |vs| * vs[|vs| - 1]
  }

  /** `calculateISBNChecksum` */
  function Checksum13(s: string): nat {
    WeightedSum13(Values(s))
  }

  /** `calculateISBN10Checksum` */
  function Checksum10(s: string): nat {
    WeightedSum10(Values(s))
  }

  /**
   * `ISBN.isValid(_: String)`: after sanitizing, 13 characters whose
   * ISBN-13 sum is a multiple of 10, or 10 characters whose ISBN-10 sum is
   * a multiple of 11; every other length is invalid.
   */
  predicate IsValid(raw: string)
    ensures IsValid(raw) ==> |Sanitize(raw)| == 13 || |Sanitize(raw)| == 10
  {
    var s := Sanitize(raw);
    if |s| == 13 then
      Checksum13(s) % 10 == 0
    else if |s| == 10 then
      Checksum10(s) % 11 == 0
    else
      false
  }

  /**
   * `ISBN.isValid(_: Int)`: validity of the decimal rendering. The minus
   * sign of a negative number is sanitized away, so `gtin` and `-gtin` are
   * equally valid.
   */
  predicate IsValidGtin(gtin: int)
    ensures IsValidGtin(gtin) <==> IsValid(NatToString(if gtin < 0 then -gtin else gtin))
  {
    SignDropped(gtin);
    IsValid(IntToString(gtin))
  }

  // ---------------------------------------------------------------- lemmas

  /** The sanitizer removes the minus sign of a negative number's rendering. */
  lemma SignDropped(n: int)
    ensures Sanitize(IntToString(n)) == Sanitize(NatToString(if n < 0 then -n else n))
  {
    if n < 0 {
      SanitizeConcat("-", NatToString(-n));
      assert Sanitize("-") == [];
    }
  }


  lemma {:induction false} ValuesConcat(a: string, b: string)
    ensures Values(a + b) == Values(a) + Values(b)
  {
    if b != [] {
      var init := b[..|b| - 1];
      var last := b[|b| - 1];
      assert b == init + [last];
      assert a + b == (a + init) + [last];
      ValuesSnoc(a + init, last);
      ValuesSnoc(init, last);
      ValuesConcat(a, init);
    } else {
      assert a + b == a;
    }
  }

  /** One more character adds its value, if it has one, at the end. */
  lemma ValuesSnoc(s: string, c: char)
    ensures Values(s + [c]) == Values(s) + Values([c])
  {
    var t := s + [c];
    assert t[..|t| - 1] == s;
    assert [c][..0] == [];
  }

  /** On a sanitized string every character has a value, so offsets are positions. */
  lemma {:induction false} ValuesOfSafe(s: string)
    requires AllSafe(s)
    ensures |Values(s)| == |s|
    ensures forall i :: 0 <= i < |s| ==> IsbnValue(s[i]) == Some(Values(s)[i])
  {
    if s != [] {
      ValuesOfSafe(s[..|s| - 1]);
    }
  }

  /** `compactMap` drops exactly the characters that the sanitizer drops. */
  lemma {:induction false} ValuesIgnoreUnsafe(s: string)
    ensures Values(s) == Values(Sanitize(s))
  {
    if s != [] {
      assert s == [s[0]] + s[1..];
      ValuesConcat([s[0]], s[1..]);
      ValuesIgnoreUnsafe(s[1..]);
      var head := if IsIsbnSafe(s[0]) then [s[0]] else [];
      ValuesConcat(head, Sanitize(s[1..]));
      assert [s[0]][..0] == [] && head[..0] == [];
    }
  }

  /** Replacing one value changes the ISBN-13 sum by its weight times the difference. */
  lemma {:induction false} WeightedSum13Update(vs: seq<nat>, i: nat, v: nat)
    requires i < |vs|
    ensures WeightedSum13(vs[i := v]) == WeightedSum13(vs) + Weight13(i) * (v - vs[i])
  {
    var n := |vs| - 1;
    if i < n {
      assert vs[i := v][..n] == vs[..n][i := v];
      WeightedSum13Update(vs[..n], i, v);
    } else {
      assert vs[i := v][..n] == vs[..n];
    }
  }

  /** Replacing one value changes the ISBN-10 sum by its weight times the difference. */
  lemma {:induction false} WeightedSum10Update(vs: seq<nat>, i: nat, v: nat)
    requires i < |vs|
    ensures WeightedSum10(vs[i := v]) == WeightedSum10(vs) + (i + 1) * (v - vs[i])
  {
    var n := |vs| - 1;
    if i < n {
      assert vs[i := v][..n] == vs[..n][i := v];
      WeightedSum10Update(vs[..n], i, v);
    } else {
      assert vs[i := v][..n] == vs[..n];
    }
  }

  /** The sum of a safe stem followed by one more character. */
  lemma AppendValue(stem: string, c: char)
    requires AllSafe(stem) && IsIsbnSafe(c)
    ensures Values(stem + [c]) == Values(stem) + [IsbnValue(c).value]
    ensures |Values(stem)| == |stem|
  {
    ValuesConcat(stem, [c]);
    ValuesOfSafe(stem);
    assert [c][..0] == [];
  }

  lemma ShiftMod10(a: int, x: int)
    ensures (10 * a + x) % 10 == x % 10
  {
  }

  lemma Mod10Complement(sum: int, t: int, v: int)
    requires sum == t + v
    ensures sum % 10 == 0 <==> v % 10 == (10 - t % 10) % 10
  {
    var q := t % 10;
    var w := v % 10;
    ShiftMod10(t / 10 + v / 10, q + w);
    assert sum == 10 * (t / 10 + v / 10) + (q + w);
  }

  lemma Mod11Complement(sum: int, t: int, v: int)
    requires 0 <= v <= 10 && sum == t + 10 * v
    ensures sum % 11 == 0 <==> v == t % 11
  {
    assert sum == (t - v) + 11 * v;
  }

  /** On a string that is already sanitized, validity is the checksum test itself. */
  lemma IsValidOfSafe(s: string)
    requires AllSafe(s)
    ensures |s| == 13 ==> (IsValid(s) <==> Checksum13(s) % 10 == 0)
    ensures |s| == 10 ==> (IsValid(s) <==> Checksum10(s) % 11 == 0)
  {
    SanitizeKeepsSafe(s);
  }

  /**
   * The ISBN-13 check character: a twelve-character stem followed by `c` is
   * valid exactly when the value of `c` is congruent to
   * 10 - (stem sum mod 10), modulo 10.
   */
  lemma CheckDigit13(stem: string, c: char)
    requires |stem| == 12 && AllSafe(stem) && IsIsbnSafe(c)
    ensures IsValid(stem + [c]) <==> IsbnValue(c).value % 10 == (10 - Checksum13(stem) % 10) % 10
  {
    var s := stem + [c];
    var v := IsbnValue(c).value;
    assert AllSafe(s);
    IsValidOfSafe(s);
    AppendValue(stem, c);
    var vs := Values(stem) + [v];
    assert vs[..|vs| - 1] == Values(stem);
    assert Checksum13(s) == Checksum13(stem) + v;
    Mod10Complement(Checksum13(s), Checksum13(stem), v);
  }

  /**
   * The ISBN-10 check character: a nine-character stem followed by `c` is
   * valid exactly when the value of `c` (`X` standing for 10) equals the
   * stem's sum modulo 11, because the weight 10 is congruent to -1.
   */
  lemma CheckDigit10(stem: string, c: char)
    requires |stem| == 9 && AllSafe(stem) && IsIsbnSafe(c)
    ensures IsValid(stem + [c]) <==> IsbnValue(c).value == Checksum10(stem) % 11
  {
    var s := stem + [c];
    var v := IsbnValue(c).value;
    assert AllSafe(s);
    IsValidOfSafe(s);
    AppendValue(stem, c);
    var vs := Values(stem) + [v];
    assert vs[..|vs| - 1] == Values(stem) && |vs| == 10 && vs[9] == v;
    assert WeightedSum10(vs) == WeightedSum10(Values(stem)) + 10 * v;
    var t := Checksum10(stem);
    assert Checksum10(s) == t + 10 * v;
    Mod11Complement(Checksum10(s), t, v);
  }

  /** Overwriting one character of a sanitized string overwrites one value. */
  lemma ValuesUpdate(s: string, i: nat, c: char)
    requires AllSafe(s) && i < |s| && IsIsbnSafe(c)
    ensures |Values(s)| == |s|
    ensures Values(s[i := c]) == Values(s)[i := IsbnValue(c).value]
  {
    var t := s[i := c];
    assert AllSafe(t);
    ValuesOfSafe(s);
    ValuesOfSafe(t);
  }

  /** The values before and after overwriting the character at offset `i`. */
  lemma ValuesAround(s: string, i: nat, c: char)
    requires AllSafe(s) && i < |s| && IsIsbnSafe(c)
    ensures i < |Values(s)| && Values(s)[i] == IsbnValue(s[i]).value
    ensures Values(s[i := c]) == Values(s)[i := IsbnValue(c).value]
  {
    ValuesUpdate(s, i, c);
    ValuesOfSafe(s);
  }

  /** The ISBN-13 sum after overwriting the character at offset `i`. */
  lemma Checksum13Update(s: string, i: nat, c: char)
    requires AllSafe(s) && i < |s| && IsIsbnSafe(c)
    ensures Checksum13(s[i := c]) == Checksum13(s) + Weight13(i) * (IsbnValue(c).value - IsbnValue(s[i]).value)
  {
    ValuesAround(s, i, c);
    WeightedSum13Update(Values(s), i, IsbnValue(c).value);
  }

  /** The ISBN-10 sum after overwriting the character at offset `i`. */
  lemma Checksum10Update(s: string, i: nat, c: char)
    requires AllSafe(s) && i < |s| && IsIsbnSafe(c)
    ensures Checksum10(s[i := c]) == Checksum10(s) + (i + 1) * (IsbnValue(c).value - IsbnValue(s[i]).value)
  {
    ValuesAround(s, i, c);
    WeightedSum10Update(Values(s), i, IsbnValue(c).value);
  }

  /** Different ISBN-safe characters have different values. */
  lemma IsbnValueInjective(a: char, b: char)
    requires IsIsbnSafe(a) && IsIsbnSafe(b) && a != b
    ensures IsbnValue(a).value != IsbnValue(b).value
  {
  }

  lemma NoMultipleOfTen(sum: int, t: int, w: int, delta: int)
    requires sum == t + w * delta && t % 10 == 0
    requires (w == 1 || w == 3) && -9 <= delta <= 9 && delta != 0
    ensures sum % 10 != 0
  {
  }

  lemma ShiftMod11(q: int, x: int)
    ensures (11 * q + x) % 11 == x % 11
  {
  }

  lemma NoMultipleOfEleven(sum: int, t: int, w: int, delta: int)
    requires sum == t + w * delta && t % 11 == 0
    requires 1 <= w <= 10 && -10 <= delta <= 10 && delta != 0
    ensures sum % 11 != 0
  {
    var x := w * delta;
    ShiftMod11(t / 11, x);
    assert sum == 11 * (t / 11) + x;
    if x % 11 == 0 {
      var m := x / 11;
      assert x == 11 * m;
      ProductNotEleven(w, delta, m);
    }
  }

  /** 11 is prime: a product of two factors from 1 to 10 in size is not a multiple of it. */
  lemma ProductNotEleven(w: int, delta: int, m: int)
    requires 1 <= w <= 10 && -10 <= delta <= 10 && delta != 0
    ensures w * delta != 11 * m
  {
    if w == 1 {
    } else if w == 2 {
    } else if w == 3 {
    } else if w == 4 {
    } else if w == 5 {
    } else if w == 6 {
    } else if w == 7 {
    } else if w == 8 {
    } else if w == 9 {
    } else {
    }
  }

  /**
   * The ISBN-13 rule detects every single-digit error: changing one digit of
   * a valid thirteen-digit ISBN into a different digit makes it invalid.
   */
  lemma SingleDigitError13(s: string, i: nat, d: char)
    requires |s| == 13 && AllDigits(s) && IsValid(s)
    requires i < 13 && IsDigit(d) && d != s[i]
    ensures !IsValid(s[i := d])
  {
    var t := s[i := d];
    assert AllSafe(s) && AllSafe(t);
    IsValidOfSafe(s);
    IsValidOfSafe(t);
    Checksum13Update(s, i, d);
    var delta := DigitValue(d) - DigitValue(s[i]);
    assert IsbnValue(d).value - IsbnValue(s[i]).value == delta;
    NoMultipleOfTen(Checksum13(t), Checksum13(s), Weight13(i), delta);
  }

  /**
   * Because `isbnValue` also gives `X` the value 10 inside a thirteen-character
   * candidate, writing `X` in place of a `0` anywhere leaves ISBN-13 validity
   * unchanged.
   */
  lemma ZeroToXUndetected13(s: string, i: nat)
    requires |s| == 13 && AllSafe(s) && i < 13 && s[i] == '0'
    ensures IsValid(s[i := 'X']) <==> IsValid(s)
  {
    var t := s[i := 'X'];
    assert AllSafe(t);
    IsValidOfSafe(s);
    IsValidOfSafe(t);
    Checksum13Update(s, i, 'X');
    Mod10Shift(Checksum13(t), Checksum13(s), Weight13(i));
  }

  lemma Mod10Shift(sum: int, t: int, w: int)
    requires sum == t + w * 10
    ensures sum % 10 == t % 10
  {
  }

  /**
   * The ISBN-10 rule detects every single-character error: changing one
   * character of a valid ten-character ISBN into a different digit or `X`
   * makes it invalid, because 11 is prime and no weight is a multiple of it.
   */
  lemma SingleCharacterError10(s: string, i: nat, c: char)
    requires |s| == 10 && AllSafe(s) && IsValid(s)
    requires i < 10 && IsIsbnSafe(c) && c != s[i]
    ensures !IsValid(s[i := c])
  {
    var t := s[i := c];
    assert AllSafe(t);
    IsValidOfSafe(s);
    IsValidOfSafe(t);
    Checksum10Update(s, i, c);
    IsbnValueInjective(c, s[i]);
    var delta := IsbnValue(c).value as int - IsbnValue(s[i]).value as int;
    NoMultipleOfEleven(Checksum10(t), Checksum10(s), i + 1, delta);
  }
}
