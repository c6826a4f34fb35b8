# ISBN engine — a Dafny model

This project models the runtime core of the Swift package `ISBN`
(`Sources/ISBN/ISBN.swift`), which validates, normalises, splits and
hyphenates International Standard Book Numbers. The model has pure functions
over strings, one module per stage of the engine:

- `Sanitizer`: `Character.isISBNSave` used as a filter. Only `0`–`9` and
  upper-case `X` survive, in their original order.
- `Checksum`: `isbnValue` and the two weighted sums. The ISBN-13 / EAN-13 rule
  has weights 1, 3, 1, 3, … and works modulo 10. The ISBN-10 rule has weight
  offset + 1 and works modulo 11. Both are the check-digit rules of ISO 2108.
  `ISBN.isValid` for strings and for `Int`s belongs here too.
- `Normalizer`: `cleanedISBN`. A ten-character candidate becomes `978`, then
  its first nine characters, then a freshly computed ISBN-13 check value.
- `RangeMatcher`: `group(for:)` is a first-match search of the
  registration-group table by the decimal key `"\(prefix)\(group)"`.
  `RegistrationGroup.elements(for:)` does two things. It searches the
  record's rules, in declared order, for a registrant range. It then splits
  the rest of the candidate into registrant, publication and check digit.
- `Composer`: `Elements.joined`, the five fields in fixed order joined with
  `-`, and a reference splitter (`SplitOn`) that inverts it.
- `Engine`: the `ISBN` value, `init?(String)`, `init?(Int)`, `hyphenated`,
  `toInt` (the GTIN) and `==`.
- `Decimal` and `Wrappers`: Swift's `String(Int)` and `Int(String)`, and
  `Option`.
- `RegistrationGroups`: the first two records of the generated table,
  978-0 and 978-1 "English language", transcribed in table order.
  `Excerpt()` proves that they satisfy the table invariants the engine
  needs.
- `ExampleSums`, `ExampleRecords` and `Examples`: the worked examples of
  the package's test suite, and the corner cases, proved for `Excerpt()`.

The registration-group table is a static array in the source. Here it is a
parameter (`seq<RegistrationGroup>`), consulted in the order given and never
sorted.

Points where the model makes a reading explicit:

- **Check value of `cleanedISBN`.** `10 - (sum % 10) % 10`
  (`Sources/ISBN/ISBN.swift:205`) binds as `10 - ((sum % 10) % 10)`, a
  number from 1 to 10. A stem whose sum is a multiple of 10 therefore gets
  the two characters `10`, and the result has fourteen characters. The
  ISBN-13 check digit of ISO 2108 would be `(10 - sum mod 10) mod 10`,
  always one digit; the code differs from it when the sum is a multiple of
  10, and the model follows the code.
  - `Normalizer.CleanedTen` and `Normalizer.CleanedTenIsValid` state the
    consequences.
  - `Examples.FourteenCharacters` exhibits one: `1-4088-0001-2` parses to
    `978-1-4088-00011-0`, and that text does not parse again.
- **Rule ranges.** A range is read as the closed interval `lo <= r <= hi`,
  following the declared type `ClosedRange<Int>` of `Rule.range`
  (`Sources/ISBN/ISBN.swift:140`).
  - The generated table writes `lo..<hi`.
  - The table generator cuts both bounds down to the rule's length, so `hi`
    is a truncated range end rather than an exclusive limit.
- **A rule longer than the remaining digits.** `dropLast` with a negative
  count traps at run time (`Sources/ISBN/ISBN.swift:152`). The model does
  not reproduce the trap. `RangeMatcher.Trapless` is the exact condition
  under which the rule search never traps, and the functions that search
  require it. `Engine.TableFits` is the table-wide invariant that implies it
  for every candidate that passed `isValid`.
- **Table invariants.** The table generator guarantees only that every rule
  length is positive and that every record has at least one rule. It does
  not bound a rule's length by the digits its record's key leaves over.
  `Engine.TableFits` and `Engine.LeavesCheckDigit` are therefore properties
  of the table as generated on 16 Nov 2021, not of every table the
  generator can write; `RegistrationGroups.Excerpt` proves them for the two
  records modelled here. A regenerated table that breaks `TableFits` makes
  `dropLast` trap (`Sources/ISBN/ISBN.swift:152`) for some valid
  candidates. One that breaks only `LeavesCheckDigit` lets a registrant
  reach the last character, and then the joined elements no longer
  reproduce the candidate (`RangeMatcher.ElementsLossless` and
  `Engine.ReparseIdempotent` no longer apply).
- **`X` in thirteen characters.** `isbnValue` gives `X` the value 10 inside
  a thirteen-character candidate as well (`Sources/ISBN/ISBN.swift:180-183`
  and `:188`). `Checksum.ZeroToXUndetected13` states what follows from this.
  `toInt` (`Sources/ISBN/ISBN.swift:210-212`) skips such an `X`, so the GTIN
  of that ISBN is the number formed by its other twelve digits
  (`Engine.ToIntSkipsNonDigits`, `Examples.GtinSkipsX`).
- **Registrant and publication types.** The package's tests compare
  registrant and publication with `Int`s through fields of `ISBN`
  (`Tests/ISBNTests/ISBNTests.swift:18-22`). The source declares them as
  `String`s of `Elements` (`Sources/ISBN/ISBN.swift:118-128`). The model
  follows the source and keeps leading zeros.

## Model

| member | source | states |
|---|---|---|
| Decimal.NatToString | Sources/ISBN/ISBN.swift:41 | `String(n)` of a non-negative `n`: all digits, denotes `n`, and no leading zero |
| Decimal.IntToStringDigits | Sources/ISBN/ISBN.swift:41 | `String(n)` starts with a minus sign exactly when `n` is negative; the rest is a non-empty digit string that denotes the magnitude of `n` and has no leading zero |
| Decimal.IntToString | Sources/ISBN/ISBN.swift:41 | `String(Int)` and `"\(n)"`: a definition without a contract; `Decimal.IntToStringDigits` states its shape and `Decimal.ParseIntOfIntToString` that `Int` reads it back |
| Decimal.ParseInt | Sources/ISBN/ISBN.swift:152-158 | `Int(String)` yields a value exactly for a non-empty digit string, optionally signed; for a plain digit string, that value is what the digits denote |
| Decimal.ParseIntOfIntToString | Sources/ISBN/ISBN.swift:152-158 | round trip: `Int(String(n)) == n` for every `n` |
| Decimal.NatToStringOfValue | Sources/ISBN/ISBN.swift:41 | round trip the other way: a digit string without a leading zero is `String` of its own value |
| Sanitizer.Sanitize | Sources/ISBN/ISBN.swift:172-178 | the filtered string holds only `0`–`9` and `X` |
| Sanitizer.IsIsbnSafe | Sources/ISBN/ISBN.swift:173-178 | `isISBNSave`: a definition without a contract; `Sanitizer.SanitizeKeepsExactlySafe` and `Checksum.IsbnValue` state what it admits |
| Sanitizer.SanitizeKeepsExactlySafe | Sources/ISBN/ISBN.swift:172-178 | every safe character keeps all its occurrences, and every other character loses all of them |
| Sanitizer.SanitizeConcat | Sources/ISBN/ISBN.swift:48 | filtering commutes with concatenation, so the original order is kept |
| Sanitizer.SanitizeKeepsSafe | Sources/ISBN/ISBN.swift:48 | a string of safe characters is left unchanged |
| Sanitizer.SanitizeIdempotent | Sources/ISBN/ISBN.swift:202 | filtering twice is filtering once |
| Sanitizer.SanitizeDropsUnsafe | Sources/ISBN/ISBN.swift:172-178 | hyphens, spaces, lower-case `x` and every other unsafe character are dropped |
| Checksum.IsbnValue | Sources/ISBN/ISBN.swift:180-183 | a value exists exactly for safe characters; it is at most 10; it is 10 exactly for `X`; a digit gets its face value |
| Checksum.Values | Sources/ISBN/ISBN.swift:188 | `compactMap(\.isbnValue)` never yields more values than characters, and every value is at most 10 |
| Checksum.Weight13 | Sources/ISBN/ISBN.swift:190 | the ISBN-13 weight of a position is 1 or 3 |
| Checksum.WeightedSum13 | Sources/ISBN/ISBN.swift:189-191 | the sum of weight × value with weights 1, 3, 1, 3, …; a definition without a contract, whose behaviour `Checksum.WeightedSum13Update` states |
| Checksum.WeightedSum10 | Sources/ISBN/ISBN.swift:196-198 | the sum of (offset + 1) × value; a definition without a contract, whose behaviour `Checksum.WeightedSum10Update` states |
| Checksum.Checksum13 | Sources/ISBN/ISBN.swift:187-192 | `calculateISBNChecksum`; a definition without a contract, specified through `Checksum.CheckDigit13`, `Checksum.Checksum13Update` and `Checksum.IsValidOfSafe` |
| Checksum.Checksum10 | Sources/ISBN/ISBN.swift:194-199 | `calculateISBN10Checksum`; a definition without a contract, specified through `Checksum.CheckDigit10`, `Checksum.Checksum10Update` and `Checksum.IsValidOfSafe` |
| Checksum.IsValid | Sources/ISBN/ISBN.swift:47-55 | a valid text sanitizes to 13 or 10 characters; every other length is invalid |
| Checksum.IsValidGtin | Sources/ISBN/ISBN.swift:57-60 | `isValid(Int)` is validity of the decimal rendering of the magnitude: the sign never matters |
| Checksum.SignDropped | Sources/ISBN/ISBN.swift:41 | sanitizing `String(n)` gives what sanitizing `String` of the magnitude of `n` gives: the minus sign is dropped |
| Checksum.ValuesOfSafe | Sources/ISBN/ISBN.swift:188 | on a sanitized string `compactMap` keeps every position: one value per character, at the same offset |
| Checksum.ValuesIgnoreUnsafe | Sources/ISBN/ISBN.swift:188 | `compactMap(\.isbnValue)` sees exactly what the sanitizer keeps |
| Checksum.ValuesConcat | Sources/ISBN/ISBN.swift:188 | the values of a concatenation are the concatenated values |
| Checksum.WeightedSum13Update | Sources/ISBN/ISBN.swift:189-191 | changing one value changes the ISBN-13 sum by its weight (1 or 3) times the difference |
| Checksum.WeightedSum10Update | Sources/ISBN/ISBN.swift:196-198 | changing one value changes the ISBN-10 sum by offset + 1 times the difference |
| Checksum.IsValidOfSafe | Sources/ISBN/ISBN.swift:47-55 | a sanitized 13-character string is valid exactly when its ISBN-13 sum is 0 mod 10, and a 10-character one exactly when its ISBN-10 sum is 0 mod 11 |
| Checksum.CheckDigit13 | Sources/ISBN/ISBN.swift:187-192 | twelve characters followed by `c` are valid exactly when the value of `c` is congruent mod 10 to 10 minus the stem's sum |
| Checksum.CheckDigit10 | Sources/ISBN/ISBN.swift:194-199 | nine characters followed by `c` are valid exactly when the value of `c` equals the stem's sum mod 11, with `X` standing for 10 |
| Checksum.Checksum13Update | Sources/ISBN/ISBN.swift:187-192 | overwriting one character shifts the ISBN-13 sum by its weight times the difference of values |
| Checksum.Checksum10Update | Sources/ISBN/ISBN.swift:194-199 | overwriting one character shifts the ISBN-10 sum by offset + 1 times the difference of values |
| Checksum.SingleDigitError13 | Sources/ISBN/ISBN.swift:47-55 | changing one digit of a valid 13-digit ISBN into another digit makes it invalid |
| Checksum.SingleCharacterError10 | Sources/ISBN/ISBN.swift:47-55 | changing one character of a valid 10-character ISBN into another digit or `X` makes it invalid |
| Checksum.ZeroToXUndetected13 | Sources/ISBN/ISBN.swift:180-192 | in thirteen characters, writing `X` for a `0` leaves validity unchanged |
| Composer.JoinedSplits | Sources/ISBN/ISBN.swift:131-135 | splitting the joined text at `-` gives back the five fields in order: prefix, group, registrant, publication, check digit |
| Composer.JoinedInjective | Sources/ISBN/ISBN.swift:131-135 | different elements (hyphen-free strings, non-negative numbers) never join to the same text |
| Composer.SanitizeJoined | Sources/ISBN/ISBN.swift:131-135 | sanitizing the joined text removes exactly the four hyphens |
| Composer.Joined | Sources/ISBN/ISBN.swift:131-135 | `joined()`: a definition without a contract; `Composer.JoinedSplits` states that it can be inverted and `Composer.JoinedInjective` that it is injective |
| Normalizer.Stem | Sources/ISBN/ISBN.swift:204 | `String("978\(isbn)".dropLast())` is `978` followed by the first nine characters |
| Normalizer.CheckValue | Sources/ISBN/ISBN.swift:205 | the appended text is a digit string worth 1 to 10 that brings the stem's sum to a multiple of 10 |
| Normalizer.Extended | Sources/ISBN/ISBN.swift:203-206 | the ten-character branch yields the stem followed by 1 or 2 digits worth 1 to 10, and that value makes the ISBN-13 sum of stem plus value a multiple of 10 |
| Normalizer.Cleaned | Sources/ISBN/ISBN.swift:201-208 | for a text that sanitizes to ten characters, the normal form has 13 or 14 characters and is `978` followed by the first nine sanitized characters; any other text normalises to its sanitized form |
| Normalizer.CheckSuffix | Sources/ISBN/ISBN.swift:205 | the appended text is one digit from 1 to 9, or `10` when the sum is a multiple of 10 |
| Normalizer.ExtendedSuffix | Sources/ISBN/ISBN.swift:203-206 | the ten-character branch yields the stem plus `10`, or the stem plus the digit 10 − (sum mod 10); it has 14 characters exactly when the sum is a multiple of 10 |
| Normalizer.CleanedTen | Sources/ISBN/ISBN.swift:201-208 | the same for `cleanedISBN` of any text whose sanitized form has ten characters |
| Normalizer.CleanedTenIsValid | Sources/ISBN/ISBN.swift:201-208 | such a normal form is valid exactly when the stem's sum is not a multiple of 10; when valid, it has 13 characters and starts with `978` |
| Normalizer.CleanedSafe | Sources/ISBN/ISBN.swift:202 | the normal form holds only safe characters |
| Normalizer.CleanedIdempotent | Sources/ISBN/ISBN.swift:201-208 | normalising twice is normalising once |
| Normalizer.CleanedSanitized | Sources/ISBN/ISBN.swift:202 | normalisation depends only on the sanitized characters |
| Normalizer.CleanedThirteen | Sources/ISBN/ISBN.swift:201-208 | a valid 13-character candidate is returned sanitized, unchanged, and stays valid |
| RangeMatcher.GroupFor | Sources/ISBN/ISBN.swift:215-218 | none exactly when no key is a prefix of the candidate; otherwise a record of the table whose key is a prefix |
| RangeMatcher.HasPrefix | Sources/ISBN/ISBN.swift:217 | `hasPrefix`: a definition without a contract; `RangeMatcher.GroupFor` and `RangeMatcher.GroupForIs` state the search that uses it |
| RangeMatcher.DropFirst | Sources/ISBN/ISBN.swift:150 | `dropFirst(k)`: a definition without a contract; the ensures of `RangeMatcher.ElementsFor` state the slices read through it |
| RangeMatcher.Key | Sources/ISBN/ISBN.swift:217 | the key `"\(prefix)\(group)"` of a record with non-negative prefix and group is a digit string of at least two characters |
| RangeMatcher.GroupForFirst | Sources/ISBN/ISBN.swift:217 | the record found is the first match in table order: no earlier record matches |
| RangeMatcher.GroupForIs | Sources/ISBN/ISBN.swift:217 | the first matching record is the one returned, so no later matching record is ever chosen |
| RangeMatcher.GroupForConcat | Sources/ISBN/ISBN.swift:217 | in a table made of two parts, a record of the second part is found only when no record of the first part matches |
| RangeMatcher.TraplessIfFits | Sources/ISBN/ISBN.swift:152 | rules that all fit the remaining digits never make the search trap |
| RangeMatcher.FirstRule | Sources/ISBN/ISBN.swift:151-156 | none exactly when no rule's window parses into its closed range; otherwise a rule of the record that matches |
| RangeMatcher.FirstRuleAtFound | Sources/ISBN/ISBN.swift:151-156 | the first matching rule in declared order is the one returned |
| RangeMatcher.FirstRuleAtPrefix | Sources/ISBN/ISBN.swift:151 | rules declared after the first match are never consulted |
| RangeMatcher.FirstRuleAtAfter | Sources/ISBN/ISBN.swift:151-156 | when no rule of a first block matches, the first match in the following block is the first match of the whole list |
| RangeMatcher.RuleMatches | Sources/ISBN/ISBN.swift:152-155 | a matching rule reads at least one character, and no more than remain |
| RangeMatcher.Window | Sources/ISBN/ISBN.swift:152 | `digits.dropLast(digits.count - length)`: a definition without a contract; `RangeMatcher.RuleReads` states what the search reads through it |
| RangeMatcher.RuleReads | Sources/ISBN/ISBN.swift:152-155 | a rule matches exactly when the number its window denotes lies in its closed range |
| RangeMatcher.ParseLast | Sources/ISBN/ISBN.swift:158 | `Int` of the last character exists exactly when it is a digit, and is that digit's value |
| RangeMatcher.ElementsFor | Sources/ISBN/ISBN.swift:149-168 | elements exist exactly when a rule matches and the last character is a digit; the registrant is the first `length` remaining characters, leading zeros kept; the publication is what follows, minus the last character; the check digit is the last character's value |
| RangeMatcher.ElementsLossless | Sources/ISBN/ISBN.swift:150-167 | when the registrant leaves the last character, key + registrant + publication + last character reproduces the candidate exactly |
| Engine.ToInt | Sources/ISBN/ISBN.swift:210-212 | on a digit string `toInt` is the number it denotes (any text: `Engine.ToIntSkipsNonDigits`) |
| Engine.DigitsOf | Sources/ISBN/ISBN.swift:211 | the characters `compactMap(\.wholeNumberValue)` keeps: a digit string no longer than the input, equal to it when the input is all digits |
| Engine.DigitsOfConcat | Sources/ISBN/ISBN.swift:211 | collecting digits commutes with concatenation, so their order is kept |
| Engine.ToIntSkipsNonDigits | Sources/ISBN/ISBN.swift:210-212 | for any text, `toInt` is the number denoted by its digits in order; every non-digit, such as an `X`, is skipped |
| Engine.CleanedLength | Sources/ISBN/ISBN.swift:23-26 | a candidate that passed `isValid` normalises to at least thirteen characters |
| Engine.FitsForCandidate | Sources/ISBN/ISBN.swift:152 | in a table that fits, the rule search on such a candidate never traps |
| Engine.FromCandidate | Sources/ISBN/ISBN.swift:27-34 | for a normalised candidate: an ISBN exactly when the first matching record yields elements; then its name and elements, `isbnString` = joined elements, and `gtin` = `toInt` of the candidate |
| Engine.FromString | Sources/ISBN/ISBN.swift:22-35 | `init?(String)` is nil exactly when validation fails, no record matches, or the first matching record yields no elements; otherwise it holds that record's name and elements, the joined text and the GTIN of the normal form |
| Engine.FromInt | Sources/ISBN/ISBN.swift:40-42 | `init?(Int)` is `init?(String)` of the decimal rendering; the sign is ignored because the sanitizer drops `-` |
| Engine.Hyphenated | Sources/ISBN/ISBN.swift:63-73 | `hyphenated(s)` exists exactly when `init?(s)` does, and equals its `isbnString` |
| Engine.HyphenatedCandidate | Sources/ISBN/ISBN.swift:67-72 | the shared tail of `hyphenated` agrees with that of `init?` |
| Engine.HyphenatedGtin | Sources/ISBN/ISBN.swift:76-78 | `hyphenated(Int)` exists exactly when `init?(Int)` does, and equals its `isbnString` |
| Engine.FromStringSanitized | Sources/ISBN/ISBN.swift:22-26 | parsing depends only on the sanitized characters |
| Engine.NormalisedAgrees | Sources/ISBN/ISBN.swift:22-35 | parsing the 13-character normal form gives the same ISBN as parsing the original text |
| Engine.NormalisedEqual | Sources/ISBN/ISBN.swift:111-115 | those two ISBNs are `==`, which compares `isbnString` only |
| Engine.Equal | Sources/ISBN/ISBN.swift:111-115 | `==` compares `isbnString` only; a definition without a contract, used by `Engine.NormalisedEqual` and `Examples.TenEqualsThirteen` |
| Engine.GtinRoundTrip | Sources/ISBN/ISBN.swift:34 | `init?(Int)` of an ISBN's `gtin` gives the same ISBN back, when the normal form is 13 digits without a leading zero |
| Engine.ElementsSafe | Sources/ISBN/ISBN.swift:161-167 | every field of the elements renders as safe characters only |
| Engine.CandidateRestored | Sources/ISBN/ISBN.swift:149-168 | when the registrant leaves the last character, sanitizing the joined elements gives back the candidate they were split from |
| Engine.RegistrantLeavesCheckDigit | Sources/ISBN/ISBN.swift:164-165 | in a table that leaves the check digit over, a registrant never reaches the last character |
| Engine.SanitizedIsbnString | Sources/ISBN/ISBN.swift:33 | in a table that leaves the check digit over, sanitizing `isbnString` gives back the normal form the ISBN was parsed from |
| Engine.ReparseIdempotent | Sources/ISBN/ISBN.swift:22-35 | in a table that leaves the check digit over, re-parsing `isbnString` gives the same ISBN whenever the normal form has 13 characters |
| Engine.FourteenNotReparsed | Sources/ISBN/ISBN.swift:205 | re-parsing fails whenever the normal form has 14 characters |
| RegistrationGroups.ZeroRules0 | Sources/ISBN/ISBN+RegistrationGroups.swift:11-18 | rules 0–7 of 978-0; each leaves at least one digit over for a 13-character candidate |
| RegistrationGroups.ZeroRules1 | Sources/ISBN/ISBN+RegistrationGroups.swift:19-26 | rules 8–15 of 978-0, with the same bound |
| RegistrationGroups.ZeroRules2 | Sources/ISBN/ISBN+RegistrationGroups.swift:27-29 | rules 16–18 of 978-0, with the same bound |
| RegistrationGroups.EnglishZero | Sources/ISBN/ISBN+RegistrationGroups.swift:6-31 | record 978-0 "English language": key `9780`, every rule leaves the check digit over |
| RegistrationGroups.OneRules0 | Sources/ISBN/ISBN+RegistrationGroups.swift:37-44 | rules 0–7 of 978-1, with the same bound |
| RegistrationGroups.OneRules1 | Sources/ISBN/ISBN+RegistrationGroups.swift:45-52 | rules 8–15 of 978-1, with the same bound |
| RegistrationGroups.OneRules2 | Sources/ISBN/ISBN+RegistrationGroups.swift:53-60 | rules 16–23 of 978-1, with the same bound |
| RegistrationGroups.OneRules3 | Sources/ISBN/ISBN+RegistrationGroups.swift:61-68 | rules 24–31 of 978-1, with the same bound |
| RegistrationGroups.OneRules4 | Sources/ISBN/ISBN+RegistrationGroups.swift:69-76 | rules 32–39 of 978-1, with the same bound |
| RegistrationGroups.OneRules5 | Sources/ISBN/ISBN+RegistrationGroups.swift:77-78 | rules 40–41 of 978-1, with the same bound |
| RegistrationGroups.EnglishOne | Sources/ISBN/ISBN+RegistrationGroups.swift:32-80 | record 978-1 "English language": key `9781`, every rule leaves the check digit over |
| RegistrationGroups.Excerpt | Sources/ISBN/ISBN+RegistrationGroups.swift:5-80 | the two records in table order satisfy `TableFits` and `LeavesCheckDigit` |
| ExampleSums.Sum9781408855898 | Sources/ISBN/ISBN.swift:187-192 | the ISBN-13 sum of `9781408855898` is 140 |
| ExampleSums.Sum9781408855890 | Sources/ISBN/ISBN.swift:187-192 | the ISBN-13 sum of `9781408855890` is 132 |
| ExampleSums.Sum978140885589 | Sources/ISBN/ISBN.swift:187-192 | the ISBN-13 sum of the stem `978140885589` is 132 |
| ExampleSums.Sum978152664665 | Sources/ISBN/ISBN.swift:187-192 | the ISBN-13 sum of the stem `978152664665` is 119 |
| ExampleSums.Sum978140880001 | Sources/ISBN/ISBN.swift:187-192 | the ISBN-13 sum of the stem `978140880001` is 80 |
| ExampleSums.Sum1408855895 | Sources/ISBN/ISBN.swift:194-199 | the ISBN-10 sum of `1408855895` is 341 |
| ExampleSums.Sum1408855890 | Sources/ISBN/ISBN.swift:194-199 | the ISBN-10 sum of `1408855890` is 291 |
| ExampleSums.Sum152664665X | Sources/ISBN/ISBN.swift:194-199 | the ISBN-10 sum of `152664665X` is 330, with `X` worth 10 |
| ExampleSums.Sum1408800012 | Sources/ISBN/ISBN.swift:194-199 | the ISBN-10 sum of `1408800012` is 110 |
| ExampleSums.Sum9781781100769 | Sources/ISBN/ISBN.swift:187-192 | the ISBN-13 sum of `9781781100769` is 110 |
| ExampleSums.Digits9781408855898 | Sources/ISBN/ISBN.swift:210-212 | `9781408855898` is all digits and denotes 9781408855898 |
| ExampleSums.Digits9781781100769 | Sources/ISBN/ISBN.swift:210-212 | `9781781100769` is all digits and denotes 9781781100769 |
| ExampleRecords.GroupOne | Sources/ISBN/ISBN+RegistrationGroups.swift:32-35 | a candidate starting `9781` skips 978-0 and finds 978-1 |
| ExampleRecords.Rule4088 | Sources/ISBN/ISBN+RegistrationGroups.swift:37-44 | for remaining digits starting `4088`, the first matching rule of 978-1 is the one on line 44, of length 4 |
| ExampleRecords.Rule5266 | Sources/ISBN/ISBN+RegistrationGroups.swift:37-44 | the same for remaining digits starting `5266` |
| ExampleRecords.FirstInFirstBlock | Sources/ISBN/ISBN+RegistrationGroups.swift:36-79 | a first match among rules 0–7 is a first match of the whole rule list |
| ExampleRecords.FirstInFirstThreeBlocks | Sources/ISBN/ISBN+RegistrationGroups.swift:36-79 | a first match among rules 0–23 is a first match of the whole rule list |
| ExampleRecords.RegistrantOne | Sources/ISBN/ISBN+RegistrationGroups.swift:36-79 | for those candidates the search of 978-1 does not trap and returns the rule on line 44 |
| ExampleRecords.Windows7811007 | Sources/ISBN/ISBN.swift:152-153 | remaining digits starting `7811007` show the registrants 78, 781, 7811, 78110 and 7811007 through windows of length 2, 3, 4, 5 and 7 |
| ExampleRecords.NoMatchFirstBlock7811007 | Sources/ISBN/ISBN+RegistrationGroups.swift:37-44 | for those digits no rule among rules 0–7 of 978-1 matches |
| ExampleRecords.NoMatchSecondBlock7811007 | Sources/ISBN/ISBN+RegistrationGroups.swift:45-52 | nor does any rule among rules 8–15 |
| ExampleRecords.FirstInThirdBlock7811007 | Sources/ISBN/ISBN+RegistrationGroups.swift:53-58 | among rules 16–23 the first match is rule 21 |
| ExampleRecords.Rule78110 | Sources/ISBN/ISBN+RegistrationGroups.swift:37-58 | for those digits the first matching rule of 978-1 is rule 21 on line 58, `77830..<78999` of length 5 |
| ExampleRecords.RegistrantOne78110 | Sources/ISBN/ISBN+RegistrationGroups.swift:36-79 | for a candidate `9781` + `7811007`…, the search of 978-1 does not trap and returns that rule |
| ExampleRecords.ElementsOne | Sources/ISBN/ISBN.swift:149-168 | a candidate starting `9781` whose first matching rule of 978-1 has length `n` splits into 978, 1, the next `n` characters as registrant, the rest up to the last character as publication, and the last digit as check digit |
| ExampleRecords.ElementsAfterKey | Sources/ISBN/ISBN.swift:149-168 | for any record with a four-character key, a first matching rule of length `n` splits the candidate into the `n` characters after the key, the rest before the last character, and the last digit |
| ExampleRecords.CandidateOne | Sources/ISBN/ISBN.swift:27-34 | such a candidate parses to an "English language" ISBN with those elements, their joined text and its GTIN |
| ExampleRecords.JoinedOne | Sources/ISBN/ISBN.swift:131-135 | those elements join to `978-1-<registrant>-<publication>-<check digit>` |
| Examples.Plain9781408855898 | Sources/ISBN/ISBN.swift:48 | `978-1-4088-5589-8` sanitizes to `9781408855898` |
| Examples.Plain9781408855890 | Sources/ISBN/ISBN.swift:48 | `978-1-4088-5589-0` sanitizes to `9781408855890` |
| Examples.Plain1408855895 | Sources/ISBN/ISBN.swift:48 | `1-4088-5589-5` sanitizes to `1408855895` |
| Examples.Plain1408855890 | Sources/ISBN/ISBN.swift:48 | `1-4088-5589-0` sanitizes to `1408855890` |
| Examples.Plain152664665X | Sources/ISBN/ISBN.swift:202 | `1-5266-4665-X` sanitizes to `152664665X` |
| Examples.Plain1408800012 | Sources/ISBN/ISBN.swift:202 | `1-4088-0001-2` sanitizes to `1408800012` |
| Examples.Stem1408855895 | Sources/ISBN/ISBN.swift:204 | the stem of `1408855895` is `978140885589` |
| Examples.Stem152664665X | Sources/ISBN/ISBN.swift:204 | the stem of `152664665X` is `978152664665` |
| Examples.Stem1408800012 | Sources/ISBN/ISBN.swift:204 | the stem of `1408800012` is `978140880001` |
| Examples.CompletedTen | Sources/ISBN/ISBN.swift:204-205 | a ten-character candidate whose stem sum is not a multiple of 10 normalises to the stem plus one digit |
| Examples.ValidThirteen | Tests/ISBNTests/ISBNTests.swift:6 | `978-1-4088-5589-8` is valid and normalises to `9781408855898` |
| Examples.WrongThirteen | Tests/ISBNTests/ISBNTests.swift:7 | `978-1-4088-5589-0` is not valid |
| Examples.ValidTen | Tests/ISBNTests/ISBNTests.swift:8 | `1-4088-5589-5` is valid and normalises to `9781408855898` |
| Examples.WrongTen | Tests/ISBNTests/ISBNTests.swift:9 | `1-4088-5589-0` is not valid |
| Examples.Candidate9781408855898 | Sources/ISBN/ISBN.swift:27-34 | `9781408855898` parses to the ISBN 978 / 1 / `4088` / `5589` / 8 |
| Examples.Candidate9781526646651 | Sources/ISBN/ISBN.swift:27-34 | `9781526646651` hyphenates as `978-1-5266-4665-1` |
| Examples.Candidate97814088000110 | Sources/ISBN/ISBN.swift:27-34 | `97814088000110` hyphenates as `978-1-4088-00011-0` |
| Examples.Candidate9781781100769 | Sources/ISBN/ISBN.swift:27-34 | `9781781100769` parses to the ISBN 978 / 1 / `78110` / `076` / 9 with `isbnString` `978-1-78110-076-9` |
| Examples.Parsed9781781100769 | Sources/ISBN/ISBN.swift:22-35 | `init?("9781781100769")` is that ISBN |
| Examples.Hyphenated9781781100769 | Sources/ISBN/ISBN.swift:76-78 | `hyphenated(9781781100769)` is `978-1-78110-076-9`, a registrant of five digits from the range on line 58 of the table |
| Examples.ParsedThirteen | Tests/ISBNTests/ISBNTests.swift:12-41 | `978-1-4088-5589-8` parses with group name "English language", elements 978 / 1 / `4088` / `5589` / 8, `isbnString` `978-1-4088-5589-8` and gtin 9781408855898 (the group name is also checked at line 72 of the same file) |
| Examples.CleanedCheckX | Tests/ISBNTests/ISBNTests.swift:25-32 | `1-5266-4665-X` is valid and normalises to `9781526646651` |
| Examples.TenWithCheckX | Tests/ISBNTests/ISBNTests.swift:25-32 | `1-5266-4665-X` parses, and its `isbnString` is `978-1-5266-4665-1` |
| Examples.FromGtin | Sources/ISBN/ISBN.swift:40-42 | `init?(9781408855898)` is the ISBN of `978-1-4088-5589-8` |
| Examples.TenEqualsThirteen | Sources/ISBN/ISBN.swift:111-115 | `1-4088-5589-5` and `978-1-4088-5589-8` parse to the same ISBN, and the two results are `==` |
| Examples.CleanedFourteen | Sources/ISBN/ISBN.swift:205 | `1-4088-0001-2` is valid and normalises to the fourteen characters `97814088000110` |
| Examples.FourteenCharacters | Sources/ISBN/ISBN.swift:201-208 | `1-4088-0001-2` parses to `978-1-4088-00011-0`, and re-parsing that text fails |
| Examples.GtinSkipsX | Sources/ISBN/ISBN.swift:210-212 | `978178110X769` is valid, and its `toInt` is the twelve-digit 978178110769 |
| Examples.ValidWithX | Sources/ISBN/ISBN.swift:47-55 | `978178110X769` is valid: writing `X` for the `0` of the valid `9781781100769` goes undetected |
| Examples.ToIntWithX | Sources/ISBN/ISBN.swift:210-212 | `toInt` of `978178110X769` is 978178110769 |

## Left out

- Codable conformance (`Sources/ISBN/ISBN.swift:81-103`): container plumbing from Foundation. Its logic is `init?(Int)`, then `init?(String)`, then throwing an error, and those two initialisers are modelled.
- `LosslessStringConvertible.description` (`Sources/ISBN/ISBN.swift:105-109`): it returns `isbnString`, a field of `Engine.Isbn`.
- `Mirror` reflection in `joined` (`Sources/ISBN/ISBN.swift:132-134`): replaced by an explicit formatter with the fields in declaration order.
- `CharacterSet` and unicode scalars in `isISBNSave` (`Sources/ISBN/ISBN.swift:174-177`): a character is one Dafny `char`. Grapheme clusters made of several scalars are not modelled.
- Unicode digits: `Int(String(c))` and `wholeNumberValue` are modelled for ASCII digits. After sanitizing no other digits remain.
- Machine `Int` overflow: integers are unbounded. Every value the engine builds has at most fourteen digits.
- The trap of `dropLast` with a negative count (`Sources/ISBN/ISBN.swift:152`): crashing is not modelled. `RangeMatcher.FirstRule`, `RangeMatcher.ElementsFor` and the engine functions require a table under which the trap cannot occur (`Trapless`, `TableFits`).
- The registration-group table beyond records 978-0 and 978-1 (`Sources/ISBN/ISBN+RegistrationGroups.swift:81` onwards): generated data with no logic. The engine takes the table as a parameter.
- `Sources/ISBNRegistrationGroupsUpdater/ISBNRegistrationGroupsUpdater.swift`: a network fetch, XML parsing and a file write. It guarantees positive rule lengths and non-empty rule lists, and no contract here relies on either. The preconditions `TableFits` and `LeavesCheckDigit` are facts of the generated table, not guarantees of the generator (see "Table invariants" above). The updater is not part of this model.
- `Package.swift`: a build manifest, not part of this model.
- Engine.GtinRoundTrip: stated only for normal forms of 13 digits without a leading zero. A normal form with a leading zero or an `X` does not come back from its GTIN as the same text; its GTIN is still stated, by `Engine.ToIntSkipsNonDigits`.
