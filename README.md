# Mexican RFC codes in Dafny

This project models the core of a generator for Mexican RFC tax codes (Registro Federal de
Contribuyentes). The core is two TypeScript files:

- `rfc/index.ts` computes the first ten characters of a person's RFC. It cleans the three
  names, takes four letters from them, replaces the last letter of an inconvenient word with
  `X`, and appends the date of birth as YYMMDD. It also holds a copy of the checksum.
- `rfc/checksum.ts` is a standalone copy of the checksum. The checksum is the verification
  character computed over a 39-symbol alphabet with a weighted sum modulo 11.

The project has four modules:

- `JsString` (`js_string.dfy`) models the ECMAScript operations the code depends on, with
  their edge cases written out:
  - `indexOf` returns -1 when nothing is found;
  - `substring` clamps its bounds and swaps them when they are out of order;
  - `padStart` pads with spaces;
  - `split(' ')` and `join(' ')`;
  - `%` is a remainder that takes the sign of the dividend;
  - `s[i]` past the end is `undefined`, which becomes the text "undefined" when concatenated.
- `Checksum` (`checksum.dfy`) models `rfc/checksum.ts`. `WeightedSum` is an independent
  reference definition of the sum. The project proves that the `reduce` fold computes that sum.
  It also proves the range of check characters and the reference codes GODE561231GR8 and
  SPM1410037E8.
- `Rfc` (`rfc.dfy`) models `rfc/index.ts`, in the source's own form:
  - `normalize` is a method with a character loop;
  - `calculateForPerson` is a method with the vowel-search loop and `break`;
  - `sanitize`, `parseDateOfBirth` and the checksum are functions.

  Each method is proved against a specification function: `Unaccented` and `PersonCode`.
  Lemmas then prove what the source promises about those functions.
- `ChecksumEquivalence` (`equivalence.dfy`) proves that the two copies of the checksum
  return the same character for every string.

These behaviours of the code are kept as written:

- **The checksum is total.**
  - A character outside the alphabet has value -1.
  - A code longer than 14 characters gets weights of zero or below.
  - The remainder is JavaScript's, so a negative sum gives a position from 11 to 21 (11 when
    the sum is a multiple of 11, whose remainder is -0). That position still lies inside the
    alphabet.
  - `Checksum.CheckCharacterRange` states what holds for codes of at most 13 alphabet
    characters: the position is 1 to 11, and the character is `1`–`9`, `A` or `B`.
- **Two surnames with empty given names.** When the father's surname gives a vowel but the
  given names are empty, `normalizedGivenNames[0]` is `undefined`. The code then becomes the
  three letters followed by the text "undefined". `Rfc.NameCodeWithVowel` states exactly this.
- **The case the code leaves uncovered cannot happen.** With both surnames present, the
  letters taken from them number 2 or 3 (`Rfc.SurnamesPrefixLength`). So the empty `else` in
  `calculateForPerson` is unreachable.
- **The blocklist is applied to the code whatever its length.** The comment at
  `rfc/index.ts:179` says the code has 4 characters by then. That holds, for example, under
  the sufficient conditions of `Rfc.NameCodeFourLetters`, and also when the father's surname
  gives a vowel and the given names have at least one character (`Rfc.NameCodeWithVowel`). It
  fails when the given names are empty, when they have one character outside the vowel branch,
  when the only surname present has one character, and when both normalised surnames are
  empty (the code is then the first two characters of the given names alone).
- **Cleaning a name is not idempotent.** `calculateForPerson` removes connective words before
  it removes accents (`rfc/index.ts:104-106`), and `sanitize` compares exact words
  (`rfc/index.ts:242`). So an accented connective survives the first cleaning and becomes a
  connective only afterwards. For example, É cleans to E, and E cleans to ""
  (`Rfc.NormalizedNameNotIdempotent`). Each step is idempotent on its own
  (`Rfc.SanitizeIdempotent`, `Rfc.UnaccentedIdempotent`). The composite is idempotent whenever
  no connective word is left in the cleaned name (`Rfc.NormalizedNameIdempotent`).
- **`rfc/tests.ts` expects 4-character results**, such as `LOOA` and `PENX`. `calculateForPerson`
  returns 10 characters, since it appends the date. It never appends a checksum. The model
  follows the code: the vectors state that the result is `LOOA` or `PENX` followed by the
  date's YYMMDD.
- **`rfc/tests.ts` imports `calculateForPerson` from `./checksum.ts`**, which does not export
  it. The tests are therefore read as reference vectors, not as a harness.

## Model

| member | source | states |
|---|---|---|
| JsString.IndexOfFirst | rfc/index.ts:126 | `indexOf` is -1 exactly when the element does not occur; otherwise it is the index of the element's first occurrence |
| JsString.IndexOf | rfc/index.ts:126 | `indexOf` with strict equality, for strings and arrays alike: a result in -1..\|s\|-1; its meaning is stated by `JsString.IndexOfFirst` |
| JsString.Join | rfc/index.ts:243 | `join(' ')`: "" for no words, the word itself for one, otherwise the first word, a space and the join of the rest; undone by `split(' ')` (`JsString.JoinSplit`, `JsString.SplitJoin`) |
| JsString.At | rfc/index.ts:147 | indexing inside the string gives that one character; indexing past the end gives the text "undefined" |
| JsString.Substring | rfc/checksum.ts:8 | `substring` with bounds in range is the slice; an end past the length is clamped to it; an end at or before a start at or below 0 gives "" |
| JsString.PadStart | rfc/checksum.ts:12 | `padStart` gives a string of length max(n, \|s\|) that ends with `s` and has only spaces before it |
| JsString.Rem | rfc/checksum.ts:26 | JavaScript `%`: strictly between -b and b; the Euclidean remainder for a ≥ 0; the negated remainder of -a for a < 0 |
| JsString.Split | rfc/index.ts:241 | `split(' ')` gives at least one piece, and no piece holds a space |
| JsString.JoinSplit | rfc/index.ts:240-243 | joining the pieces of `split(' ')` with spaces gives the string back |
| JsString.SplitJoin | rfc/index.ts:240-243 | splitting a space-joined list of one or more space-free words gives the words back |
| Checksum.Value | rfc/checksum.ts:1-3 | each character's value lies in -1..38 (digits 0–9, A–N 10–23, & 24, O–Z 25–36, space 37, Ñ 38, anything else -1) |
| Checksum.ValueOfSymbol | rfc/checksum.ts:1-3 | the alphabet has 39 symbols, and each symbol's value is its index |
| Checksum.LookupIsValue | rfc/checksum.ts:19 | the `indexOf` lookup in the alphabet is the character's value; it is -1 exactly for characters outside the alphabet |
| Checksum.AlphabetLayout | rfc/checksum.ts:1-3 | the symbols are pairwise distinct; `indexOf` of the symbol at i is i; digit d sits at d; space at 37 and Ñ at 38 |
| Checksum.SymbolOfValue | rfc/checksum.ts:2 | a character with a value is the alphabet symbol at that index |
| Checksum.Padded | rfc/checksum.ts:8-12 | dropping the last character and padding to 12 gives length 12 for codes of at most 13 characters, and \|rfc\| - 1 beyond that |
| Checksum.PaddedShape | rfc/checksum.ts:7-12 | the padded code is leading spaces followed by the code without its last character; for 13 characters it is the first 12; for 12 characters it is one space and the first 11 |
| Checksum.PlaceholderIgnored | rfc/checksum.ts:7-8 | replacing the last character never changes the checksum |
| Checksum.SumFrom | rfc/checksum.ts:14-23 | the `reduce` fold over the padded code: the character at i adds its alphabet index times 13 - i; equal to the reference sum by `Checksum.SumFromIsWeightedSum` |
| Checksum.Checksum | rfc/checksum.ts:6-29 | `checksum`: the alphabet symbol at `Checksum.Position`; its range, placeholder independence and vectors are the lemmas below |
| Checksum.Position | rfc/checksum.ts:26 | `11 - sum % 11` lies in 1..21 for every input, so the final alphabet lookup is always in range |
| Checksum.SumFromIsWeightedSum | rfc/checksum.ts:14-23 | the `reduce` fold from index i equals the accumulator plus the reference weighted sum of the rest |
| Checksum.ChecksumSum | rfc/checksum.ts:14-26 | the checksum's sum is the reference sum of the padded code, and the position is 11 minus its remainder |
| Checksum.WeightedSumStep | rfc/checksum.ts:17-22 | position k adds its character's value times the weight 13 - k |
| Checksum.WeightedSumNonNegative | rfc/checksum.ts:14-23 | at most 14 characters, all from the alphabet, give a sum that is not negative |
| Checksum.CheckCharacterRange | rfc/checksum.ts:26-28 | for at most 13 characters from the alphabet, the sum is ≥ 0, the position is 1..11, and the checksum is one of 1–9, A, B, never 0 |
| Checksum.CheckCharactersAreFirstEleven | rfc/checksum.ts:28 | alphabet positions 1..11 hold 1–9, A and B |
| Checksum.PersonalVectorSum | rfc/checksum.ts:31 | the padded personal reference code GODE561231GR sums to 1026 |
| Checksum.CorporateVectorSum | rfc/tests.ts:4 | the padded corporate reference code (a space, then SPM1410037E) sums to 1444 |
| Checksum.PositionOfSum | rfc/checksum.ts:26 | a code whose padded form has a known sum has position 11 minus that sum's remainder |
| Checksum.PersonalVectorPosition | rfc/tests.ts:7 | GODE561231GR followed by any placeholder has checksum position 8 |
| Checksum.CorporateVectorPosition | rfc/tests.ts:4 | SPM1410037E followed by any placeholder has checksum position 8 |
| Checksum.PersonalVector | rfc/checksum.ts:31 | GODE561231GR followed by any placeholder (8 included) has checksum '8' |
| Checksum.CorporateVector | rfc/tests.ts:4 | SPM1410037E followed by any placeholder (8 included) has checksum '8' |
| ChecksumEquivalence.SameAlphabet | rfc/index.ts:3 | both files declare the same alphabet |
| ChecksumEquivalence.FoldsAgree | rfc/index.ts:54-71 | the fold of rfc/index.ts with its named intermediate values equals the fold of rfc/checksum.ts, from every index and for every accumulator |
| ChecksumEquivalence.ChecksumsAgree | rfc/index.ts:40-90 | `checksum` in rfc/index.ts and `checksum` in rfc/checksum.ts return the same character for every string |
| ChecksumEquivalence.GeneratorVectors | rfc/tests.ts:4-7 | the two reference codes also have checksum '8' under rfc/index.ts |
| Rfc.ChecksumFold | rfc/index.ts:54-71 | the `reduce` fold of rfc/index.ts with its named lookup value, weight and delta; equal to the fold of rfc/checksum.ts by `ChecksumEquivalence.FoldsAgree` |
| Rfc.Checksum | rfc/index.ts:40-90 | `checksum` of rfc/index.ts: drop the last character, pad to 12, fold, JavaScript remainder by 11, index 11 minus it; equal to `Checksum.Checksum` by `ChecksumEquivalence.ChecksumsAgree` |
| Rfc.Unaccent | rfc/index.ts:227-231 | one character through the accent table: the plain vowel for a key, the character itself otherwise (table fixed by `Rfc.AccentTable`) |
| Rfc.Unaccented | rfc/index.ts:221-235 | the specification of `normalize`: every character unaccented, with the length kept; `Rfc.Normalize` is proved to compute it |
| Rfc.Normalize | rfc/index.ts:221-235 | the character loop of `normalize` returns exactly the unaccented string |
| Rfc.UnaccentedPointwise | rfc/index.ts:224-232 | normalising keeps the length; it replaces each table key by its plain vowel and leaves every other character in place |
| Rfc.AccentTable | rfc/index.ts:7-14 | the table's keys are exactly Á É Í Ó Ú Ü, mapped to A E I O U U; Ñ, &, space, digits and A–Z are not keys |
| Rfc.UnaccentedHasNoAccent | rfc/index.ts:221-235 | the output of normalising holds no accented vowel from the table |
| Rfc.UnaccentedIdempotent | rfc/index.ts:221-235 | normalising twice is normalising once |
| Rfc.KeptWords | rfc/index.ts:242 | the `filter` of `sanitize`: the words whose `indexOf` in the connective list is -1, in order, never more words than given; characterised by `Rfc.KeptWordsMembers` and `Rfc.KeptWordsAppend` |
| Rfc.Sanitize | rfc/index.ts:238-244 | `sanitize`: split on spaces, filter, join with spaces; characterised by `Rfc.SanitizeTokens` and `Rfc.SanitizeIdempotent` |
| Rfc.KeptWordsMembers | rfc/index.ts:242 | a word survives the filter exactly when it occurs in the input and is not a connective word |
| Rfc.KeptWordsAppend | rfc/index.ts:242 | the filter keeps the words' order: filtering a concatenation filters each part |
| Rfc.KeptWordsAllKept | rfc/index.ts:242 | words none of which is a connective word are all kept |
| Rfc.SanitizeTokens | rfc/index.ts:238-244 | the space-separated tokens of a sanitised name are exactly the kept words; no kept word gives ""; no token is a connective word |
| Rfc.SanitizeEmpty | rfc/index.ts:238-244 | the empty name sanitises to "" |
| Rfc.SanitizeIdempotent | rfc/index.ts:238-244 | sanitising twice is sanitising once |
| Rfc.SanitizePlainName | rfc/index.ts:238-244 | a name of space-free words with no connective word is left unchanged |
| Rfc.PlainWordNormalized | rfc/index.ts:104-106 | a one-word name that is not a connective word is only unaccented |
| Rfc.PlainPairNormalized | rfc/index.ts:104-106 | a two-word name with no connective word is only unaccented |
| Rfc.IsVowel | rfc/index.ts:126 | the test `VOWELS.indexOf(c) !== -1`; exactly A, E, I, O, U by `Rfc.VowelsAre` |
| Rfc.FirstVowelFrom | rfc/index.ts:122-131 | the vowel search of the loop: the first vowel at or after `from` as a one-character string, or ""; `Rfc.CalculateForPerson`'s loop is proved to compute it |
| Rfc.SurnamesPrefix | rfc/index.ts:112-144 | with both surnames: the father's initial, the next vowel when his surname is longer than 2, and the mother's initial |
| Rfc.NameCode | rfc/index.ts:112-175 | the four letters taken from the normalised names in each branch of `calculateForPerson`; characterised by `Rfc.NameCodeWithVowel`, `Rfc.NameCodeWithoutVowel` and `Rfc.NameCodeOneSurname` |
| Rfc.VowelsAre | rfc/index.ts:5 | the vowel test holds exactly for A, E, I, O, U |
| Rfc.FirstVowelAt | rfc/index.ts:125-131 | the vowel search from `from` finds the vowel at j when j is the first vowel at or after `from` |
| Rfc.NoVowelFrom | rfc/index.ts:122-131 | the vowel search finds "" when there is no vowel at or after `from` |
| Rfc.FirstVowelLength | rfc/index.ts:122-131 | the search yields "" or a single vowel |
| Rfc.SurnamesPrefixLength | rfc/index.ts:112-161 | with both surnames, the letters taken from them number 2 or 3, so the uncovered case never arises |
| Rfc.NameCodeWithVowel | rfc/index.ts:112-151 | both surnames and a father's surname longer than 2 with its first vowel at j give father[0], father[j], mother[0] and the first given-name character, or "undefined" when the given names are empty |
| Rfc.NameCodeWithoutVowel | rfc/index.ts:112-158 | both surnames and a father's surname of at most 2 characters, or one with no vowel after the initial, give the two initials and the first two given-name characters |
| Rfc.NameCodeLength | rfc/index.ts:146-158 | with both surnames and given names of at least 2 characters, the name code has 4 characters |
| Rfc.NameCodeOneSurname | rfc/index.ts:162-175 | with a surname missing, the code is the first two characters of the surname present (the father's if non-empty) followed by the first two of the given names |
| Rfc.NameCodeFourLetters | rfc/index.ts:177-179 | the name code has 4 characters when the given names have at least 2 and either both surnames are present or the present one has at least 2 |
| Rfc.Unblocked | rfc/index.ts:180-184 | the blocklist step: a code found by `indexOf` in the list keeps `substring(0, 3)` and gets X; characterised by `Rfc.UnblockedContract` |
| Rfc.BlocklistShape | rfc/index.ts:16-22 | every blocklist entry has 4 characters, and none ends in X |
| Rfc.BlocklistInitials | rfc/index.ts:16-22 | every blocklist entry starts with one of B C F G J K M P Q R |
| Rfc.UnblockedContract | rfc/index.ts:180-184 | a blocked code becomes its first 3 characters and X; any other code is unchanged; the result is never blocked and keeps its length |
| Rfc.UnblockedByInitial | rfc/index.ts:180-184 | a code whose initial starts no entry is left as it is |
| Rfc.ParseDateOfBirth | rfc/index.ts:202-218 | the result is "" exactly when the date is not 10 characters long; otherwise it is the characters at 2–3, 5–6 and 8–9 |
| Rfc.ParseDateOfBirthFields | rfc/index.ts:209-217 | YYYY?MM?DD, with any separators, gives YYMMDD |
| Rfc.NormalizedName | rfc/index.ts:104-106 | a name as `calculateForPerson` uses it: `normalize(sanitize(name))` |
| Rfc.NormalizedNameIdempotent | rfc/index.ts:104-106 | cleaning a cleaned name again changes nothing when none of its space-separated words is a connective |
| Rfc.NormalizedNameNotIdempotent | rfc/index.ts:104-106 | connective removal comes before accent removal, so cleaning is not idempotent: É cleans to E, and E cleans to "" |
| Rfc.PersonCode | rfc/index.ts:95-199 | the specification of `calculateForPerson`: the blocklist-corrected name code of the normalised names followed by the parsed date, or "" when the date cannot be parsed; `Rfc.CalculateForPerson` is proved to compute it |
| Rfc.CalculateForPerson | rfc/index.ts:95-199 | the imperative procedure (normalisation, vowel-search loop with `break`, blocklist, date) returns exactly `PersonCode` of its inputs |
| Rfc.PersonCodeFails | rfc/index.ts:186-192 | the result is "" exactly when the date of birth is not 10 characters long |
| Rfc.PersonCodeParts | rfc/index.ts:177-198 | for a 10-character date, the result is the blocklist-corrected name code of the normalised names followed by YYMMDD |
| Rfc.PersonCodeLength | rfc/index.ts:177-198 | under those conditions on the normalised names, a 10-character date gives a 10-character result |
| Rfc.LopezNormalized | rfc/tests.ts:10 | LÓPEZ normalises to LOPEZ |
| Rfc.ObradorNormalized | rfc/tests.ts:10 | OBRADOR normalises to itself |
| Rfc.AndresManuelNormalized | rfc/tests.ts:10 | ANDRÉS MANUEL normalises to ANDRES MANUEL |
| Rfc.LopezObradorNameCode | rfc/tests.ts:10 | LOPEZ, OBRADOR, ANDRES MANUEL give the name code LOOA, which is not blocked |
| Rfc.LopezObradorVector | rfc/tests.ts:10 | LÓPEZ OBRADOR ANDRÉS MANUEL gives LOOA followed by the date's YYMMDD |
| Rfc.PenaNormalized | rfc/tests.ts:11 | PEÑA normalises to itself (Ñ is not an accented vowel) |
| Rfc.NietoNormalized | rfc/tests.ts:11 | NIETO normalises to itself |
| Rfc.EnriqueNormalized | rfc/tests.ts:11 | ENRIQUE normalises to itself |
| Rfc.PenaNietoNameCode | rfc/tests.ts:11 | PEÑA, NIETO, ENRIQUE give PENE, which is blocked and becomes PENX |
| Rfc.PenaNietoVector | rfc/tests.ts:11 | PEÑA NIETO ENRIQUE gives PENX followed by the date's YYMMDD |
| Rfc.DateVectors | rfc/tests.ts:10-11 | 1940-01-01 parses to 400101 and 1966-07-20 to 660720 |
| Rfc.DeLaCruzSplit | rfc/index.ts:241 | DE LA CRUZ splits into DE, LA, CRUZ |
| Rfc.DeLaCruzKept | rfc/index.ts:242 | of DE, LA, CRUZ only CRUZ is kept |
| Rfc.DeLaCruzVector | rfc/index.ts:238-244 | DE LA CRUZ sanitises to CRUZ |

## Left out

- `debug` (`rfc/index.ts:246-250`), its calls and the `doDebug` parameters are left out. They only write to the console and do not affect any result.
- Default parameter values (`= ''`, `= false`) are left out. Every argument is passed explicitly.
- The `console.assert` at `rfc/checksum.ts:31` and the harness of `rfc/tests.ts` are left out as code, since they only print. Their expected values are proved as reference vectors.
- Characters are Dafny `char`s, which are Unicode scalar values. They are not UTF-16 code units. Every character in the tables lies in the Basic Multilingual Plane. Strings with surrogate pairs, where JavaScript indexes half-characters, are not modelled.
- Checksum.Checksum and Rfc.Checksum: the sums are unbounded integers. JavaScript numbers are doubles, exact only up to 2^53 in magnitude. A code of fewer than 10^7 characters keeps every partial sum below 38 · 13 · n + 19 · n², within that bound. Longer codes, which no RFC is, can reach sums that JavaScript rounds and the model does not.
- Looking up a character in the accent table is modelled as membership in a map. Inherited object properties are ignored: no one-character property name exists on `Object.prototype`.
- Rfc.LopezObradorVector: stated for every 10-character date, as LOOA followed by that date's YYMMDD. The 1940-01-01 instance is covered by `Rfc.DateVectors`, and the two are not combined into one literal statement.
- Rfc.PenaNietoVector: stated for every 10-character date, as PENX followed by that date's YYMMDD. The 1966-07-20 instance is covered by `Rfc.DateVectors`, and the two are not combined into one literal statement.
