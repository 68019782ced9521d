/** The RFC generator (rfc/index.ts): the name and date part of a person's RFC code, and the
    checksum of a complete code. */
module Rfc {
  import opened JsString

  /** The checksum alphabet: each symbol's index is its value in the weighted sum. */
  const Alphabet: string := "0123456789ABCDEFGHIJKLMN&OPQRSTUVWXYZ Ñ"

  /** The vowels searched for in the father's surname. */
  const Vowels: string := "AEIOU"

  /** Accented and umlauted vowels and the plain vowel each stands for. */
  const VowelAccents: map<char, char> :=
    map['Á' := 'A', 'É' := 'E', 'Í' := 'I', 'Ó' := 'O', 'Ú' := 'U', 'Ü' := 'U']

  /** Four-letter codes that spell an inconvenient word. */
  const RfcBlocklist: seq<string> := [
    "BUEI", "BUEY", "CACA", "CACO", "CAGA", "CAGO", "CAKA", "CAKO", "COGE",
    "COJA", "COJE", "COJI", "COJO", "CULO", "FETO", "GUEY", "JOTO", "KACA",
    "KACO", "KAGA", "KAGO", "KAKA", "KOGE", "KOJO", "KULO", "MAME", "MAMO",
    "MEAR", "MEAS", "MEON", "MION", "MOCO", "MULA", "PEDA", "PEDO", "PENE",
    "PUTA", "PUTO", "QULO", "RATA", "RUIN"
  ]

  /** Connective words removed from names before the code is built. */
  const WordBlocklist: seq<string> :=
    ["DE", "DEL", "EL", "LA", "LOS", "LAS", "Y", "E", "VAN", "VON", "MC", "MAC"]

  // ---------------------------------------------------------------------------------------
  // Checksum

  /** The `reduce` fold of the checksum from index `i` of the padded code on: the character at
      `i` adds its alphabet index times the weight `13 - i` to the accumulator. */
  function ChecksumFold(paddedRfc: string, i: nat, acc: int): (sum: int)
    requires i <= |paddedRfc|
    decreases |paddedRfc| - i
  {
    if i == |paddedRfc| then acc
    else
      var lookupValue := IndexOf(Alphabet, paddedRfc[i]);
      var reversePositionPlusOne := 13 - i;
      var accDelta := lookupValue * reversePositionPlusOne;
      ChecksumFold(paddedRfc, i + 1, acc + accDelta)
  }

  /** The checksum character of `rfc`: the code without its last character, padded with spaces
      in front to 12, folded into a weighted sum, whose remainder modulo 11 (with JavaScript's
      `%`) is subtracted from 11 to give an index into the alphabet. */
  function Checksum(rfc: string): (checksumChar: char)
  {
    var rfcWithoutChecksum := Substring(rfc, 0, |rfc| - 1);
    var paddedRfc := PadStart(rfcWithoutChecksum, 12);
    var sum := ChecksumFold(paddedRfc, 0, 0);
    var sumMod11 := Rem(sum, 11);
    var checksumPosition := 11 - sumMod11;
    Alphabet[checksumPosition]
  }

  // ---------------------------------------------------------------------------------------
  // normalize

  /** A character with its accent removed: the table's plain vowel for a key of the table, the
      character itself otherwise. */
  function Unaccent(c: char): (plain: char)
  {
    if c in VowelAccents then VowelAccents[c] else c
  }

  /** The string with every accented vowel replaced by its plain vowel. */
  function Unaccented(s: string): (r: string)
    ensures |r| == |s|
  {
    seq(|s|, i requires 0 <= i < |s| => Unaccent(s[i]))
  }

  /** `normalize`: builds the result character by character, appending the plain vowel for an
      accented one and the character itself otherwise. */
  method Normalize(unnormalized: string) returns (normalized: string)
    ensures normalized == Unaccented(unnormalized)
  {
    normalized := "";
    for i := 0 to |unnormalized|
      invariant |normalized| == i
      invariant forall k :: 0 <= k < i ==> normalized[k] == Unaccent(unnormalized[k])
    {
      var currentChar := unnormalized[i];
      if currentChar in VowelAccents {
        normalized := normalized + [VowelAccents[currentChar]];
      } else {
        normalized := normalized + [currentChar];
      }
    }
  }

  /** Normalising keeps the length, replaces each of Á, É, Í, Ó, Ú, Ü by A, E, I, O, U, U and
      leaves every other character where it was. */
  lemma UnaccentedPointwise(s: string)
    ensures |Unaccented(s)| == |s|
    ensures forall i :: 0 <= i < |s| && s[i] in VowelAccents ==> Unaccented(s)[i] == VowelAccents[s[i]]
    ensures forall i :: 0 <= i < |s| && s[i] !in VowelAccents ==> Unaccented(s)[i] == s[i]
  {
  }

  /** The table's keys are exactly the six accented vowels, and they map to A, E, I, O, U, U;
      so Ñ, '&', the space, digits and plain letters are left alone. */
  lemma AccentTable()
    ensures VowelAccents.Keys == {'Á', 'É', 'Í', 'Ó', 'Ú', 'Ü'}
    ensures VowelAccents['Á'] == 'A' && VowelAccents['É'] == 'E' && VowelAccents['Í'] == 'I'
    ensures VowelAccents['Ó'] == 'O' && VowelAccents['Ú'] == 'U' && VowelAccents['Ü'] == 'U'
    ensures forall c :: c in VowelAccents ==> VowelAccents[c] in Vowels
    ensures 'Ñ' !in VowelAccents && '&' !in VowelAccents && ' ' !in VowelAccents
    ensures forall c :: '0' <= c <= '9' || 'A' <= c <= 'Z' ==> c !in VowelAccents
  {
  }

  /** The output of normalising holds no key of the table. */
  lemma UnaccentedHasNoAccent(s: string)
    ensures forall i :: 0 <= i < |Unaccented(s)| ==> Unaccented(s)[i] !in VowelAccents
  {
    AccentTable();
  }

  /** Normalising twice is normalising once. */
  lemma UnaccentedIdempotent(s: string)
    ensures Unaccented(Unaccented(s)) == Unaccented(s)
  {
    UnaccentedHasNoAccent(s);
  }

  // ---------------------------------------------------------------------------------------
  // sanitize

  /** The `filter` of `sanitize`: the words not found in the connective-word list, in order. */
  function KeptWords(words: seq<string>): (kept: seq<string>)
    ensures |kept| <= |words|
  {
    if words == [] then []
    else
      var rest := KeptWords(words[1..]);
      if IndexOf(WordBlocklist, words[0]) == -1 then [words[0]] + rest else rest
  }

  /** `sanitize`: the name split on single spaces, with the connective words dropped, joined
      again with single spaces. */
  function Sanitize(unsanitized: string): (sanitized: string)
  {
    Join(KeptWords(Split(unsanitized)))
  }

  /** A word is kept exactly when it is in the input and is not a connective word. */
  lemma {:induction false} KeptWordsMembers(words: seq<string>)
    ensures forall w :: w in KeptWords(words) <==> w in words && w !in WordBlocklist
  {
    if words != [] {
      KeptWordsMembers(words[1..]);
      IndexOfFirst(WordBlocklist, words[0]);
      assert words == [words[0]] + words[1..];
    }
  }

  /** The filter keeps the order of the words: filtering a concatenation filters each part. */
  lemma {:induction false} KeptWordsAppend(a: seq<string>, b: seq<string>)
    ensures KeptWords(a + b) == KeptWords(a) + KeptWords(b)
  {
    if a != [] {
      assert (a + b)[1..] == a[1..] + b;
      KeptWordsAppend(a[1..], b);
    } else {
      assert a + b == b;
    }
  }

  /** Words none of which is a connective word are all kept. */
  lemma {:induction false} KeptWordsAllKept(words: seq<string>)
    requires forall k :: 0 <= k < |words| ==> words[k] !in WordBlocklist
    ensures KeptWords(words) == words
  {
    if words != [] {
      KeptWordsAllKept(words[1..]);
      IndexOfFirst(WordBlocklist, words[0]);
      assert words == [words[0]] + words[1..];
    }
  }

  /** The tokens of a sanitised name are exactly the kept words (one empty token when none is
      kept), so none of them is a connective word. */
  lemma SanitizeTokens(s: string)
    ensures KeptWords(Split(s)) != [] ==> Split(Sanitize(s)) == KeptWords(Split(s))
    ensures KeptWords(Split(s)) == [] ==> Sanitize(s) == ""
    ensures forall k :: 0 <= k < |Split(Sanitize(s))| ==> Split(Sanitize(s))[k] !in WordBlocklist
  {
    var kept := KeptWords(Split(s));
    KeptWordsMembers(Split(s));
    if kept != [] {
      assert forall k :: 0 <= k < |kept| ==> kept[k] in Split(s);
      SplitJoin(kept);
    } else {
      assert Split("") == [""];
      assert "" !in WordBlocklist;
    }
  }

  /** The empty name sanitises to the empty name. */
  lemma SanitizeEmpty()
    ensures Sanitize("") == ""
  {
    assert Split("") == [""];
    IndexOfFirst(WordBlocklist, "");
    assert "" !in WordBlocklist;
    assert KeptWords([""]) == [""];
  }

  /** Sanitising twice is sanitising once. */
  lemma SanitizeIdempotent(s: string)
    ensures Sanitize(Sanitize(s)) == Sanitize(s)
  {
    var kept := KeptWords(Split(s));
    SanitizeTokens(s);
    if kept != [] {
      KeptWordsAllKept(kept);
    } else {
      SanitizeEmpty();
    }
  }

  // ---------------------------------------------------------------------------------------
  // The name code

  /** Whether `c` is one of the vowels A, E, I, O, U. */
  predicate IsVowel(c: char)
  {
    IndexOf(Vowels, c) != -1
  }

  /** The search of `calculateForPerson` for the next vowel of the father's surname, from index
      `from` on: the first vowel found, as a one-character string, or "" when there is none. */
  function FirstVowelFrom(surname: string, from: nat): (vowel: string)
    requires from <= |surname|
    decreases |surname| - from
  {
    if from == |surname| then ""
    else if IsVowel(surname[from]) then [surname[from]]
    else FirstVowelFrom(surname, from + 1)
  }

  /** The search finds the vowel at `j` when `j` is the first vowel at or after `from`. */
  lemma {:induction false} FirstVowelAt(surname: string, from: nat, j: nat)
    requires from <= j < |surname|
    requires IsVowel(surname[j])
    requires forall k :: from <= k < j ==> !IsVowel(surname[k])
    ensures FirstVowelFrom(surname, from) == [surname[j]]
    decreases j - from
  {
    if from < j {
      FirstVowelAt(surname, from + 1, j);
    }
  }

  /** The search finds nothing when there is no vowel at or after `from`. */
  lemma {:induction false} NoVowelFrom(surname: string, from: nat)
    requires from <= |surname|
    requires forall k :: from <= k < |surname| ==> !IsVowel(surname[k])
    ensures FirstVowelFrom(surname, from) == ""
    decreases |surname| - from
  {
    if from < |surname| {
      NoVowelFrom(surname, from + 1);
    }
  }

  /** The vowels are exactly A, E, I, O and U. */
  lemma VowelsAre(c: char)
    ensures IsVowel(c) <==> c in {'A', 'E', 'I', 'O', 'U'}
  {
    IndexOfFirst(Vowels, c);
  }

  /** With both surnames present: the father's initial, the next vowel of his surname when it is
      longer than 2, and the mother's initial. */
  function SurnamesPrefix(father: string, mother: string): (prefix: string)
    requires father != "" && mother != ""
  {
    [father[0]] + (if |father| > 2 then FirstVowelFrom(father, 1) else "") + [mother[0]]
  }

  /** The prefix built from both surnames always has 2 or 3 characters, so the case rfc/index.ts
      leaves uncovered never happens. */
  lemma SurnamesPrefixLength(father: string, mother: string)
    requires father != "" && mother != ""
    ensures |SurnamesPrefix(father, mother)| == 2 || |SurnamesPrefix(father, mother)| == 3
  {
    if |father| > 2 {
      FirstVowelLength(father, 1);
    }
  }

  /** The search yields "" or a single vowel. */
  lemma {:induction false} FirstVowelLength(surname: string, from: nat)
    requires from <= |surname|
    ensures |FirstVowelFrom(surname, from)| <= 1
    ensures |FirstVowelFrom(surname, from)| == 1 ==> IsVowel(FirstVowelFrom(surname, from)[0])
    decreases |surname| - from
  {
    if from < |surname| && !IsVowel(surname[from]) {
      FirstVowelLength(surname, from + 1);
    }
  }

  /** The four letters of the code taken from the (normalised) names, before the blocklist. */
  function NameCode(father: string, mother: string, given: string): (code: string)
  {
    if father != "" && mother != "" then
      var prefix := SurnamesPrefix(father, mother);
      if |prefix| == 3 then prefix + At(given, 0) else prefix + Substring(given, 0, 2)
    else
      var surname := if father != "" then father else mother;
      Substring(surname, 0, 2) + Substring(given, 0, 2)
  }

  /** Both surnames, a father's surname longer than 2 whose first vowel after the initial is at
      `j`: the father's initial, that vowel, the mother's initial and the first character of
      the given names (the text "undefined" when they are empty). */
  lemma NameCodeWithVowel(father: string, mother: string, given: string, j: nat)
    requires father != "" && mother != "" && |father| > 2
    requires 1 <= j < |father| && IsVowel(father[j])
    requires forall k :: 1 <= k < j ==> !IsVowel(father[k])
    ensures NameCode(father, mother, given) == [father[0], father[j], mother[0]] + At(given, 0)
    ensures |given| >= 1 ==> NameCode(father, mother, given) == [father[0], father[j], mother[0], given[0]]
  {
    FirstVowelAt(father, 1, j);
  }

  /** Both surnames, a father's surname of 1 or 2 characters or without a vowel after the initial:
      the two initials and the first two characters of the given names. */
  lemma NameCodeWithoutVowel(father: string, mother: string, given: string)
    requires father != "" && mother != ""
    requires |father| <= 2 || forall k :: 1 <= k < |father| ==> !IsVowel(father[k])
    ensures NameCode(father, mother, given) == [father[0], mother[0]] + Substring(given, 0, 2)
    ensures |given| >= 2 ==> NameCode(father, mother, given) == [father[0], mother[0], given[0], given[1]]
  {
    if |father| > 2 {
      NoVowelFrom(father, 1);
    }
  }

  /** With both surnames and given names of at least 2 characters the code has 4 characters. */
  lemma NameCodeLength(father: string, mother: string, given: string)
    requires father != "" && mother != "" && |given| >= 2
    ensures |NameCode(father, mother, given)| == 4
  {
    SurnamesPrefixLength(father, mother);
  }

  /** With a surname missing: the first two characters of the surname present (the father's when
      it is not empty, else the mother's) and of the given names. */
  lemma NameCodeOneSurname(father: string, mother: string, given: string)
    requires father == "" || mother == ""
    ensures var surname := if father != "" then father else mother;
      NameCode(father, mother, given) == surname[..Min(2, |surname|)] + given[..Min(2, |given|)]
    ensures var surname := if father != "" then father else mother;
      |NameCode(father, mother, given)| == Min(2, |surname|) + Min(2, |given|)
  {
  }

  /** The smaller of two numbers. */
  function Min(a: nat, b: nat): (m: nat)
  {
    if a <= b then a else b
  }

  // ---------------------------------------------------------------------------------------
  // The blocklist

  /** A code on the blocklist keeps its first 3 characters and gets 'X' as its 4th; any other
      code is left as it is. */
  function Unblocked(code: string): (r: string)
  {
    if IndexOf(RfcBlocklist, code) != -1 then Substring(code, 0, 3) + "X" else code
  }

  /** Every blocklist entry has 4 characters, the last of which is not 'X'. */
  lemma BlocklistShape()
    ensures forall k :: 0 <= k < |RfcBlocklist| ==> |RfcBlocklist[k]| == 4 && RfcBlocklist[k][3] != 'X'
  {
  }

  /** A blocked code is replaced by its first 3 characters and 'X', any other is kept, and the
      result is never on the blocklist. */
  lemma UnblockedContract(code: string)
    ensures code in RfcBlocklist ==> Unblocked(code) == code[..3] + "X"
    ensures code !in RfcBlocklist ==> Unblocked(code) == code
    ensures Unblocked(code) !in RfcBlocklist
    ensures |Unblocked(code)| == |code|
  {
    IndexOfFirst(RfcBlocklist, code);
    BlocklistShape();
    var r := Unblocked(code);
    if code in RfcBlocklist {
      assert |code| == 4;
      assert |r| == 4 && r[3] == 'X';
    }
  }

  // ---------------------------------------------------------------------------------------
  // The date of birth

  /** `parseDateOfBirth`: "" for a date that is not 10 characters long, otherwise the last two
      digits of the year, the month and the day, read at the positions of YYYY-MM-DD. */
  function ParseDateOfBirth(dateOfBirth: string): (r: string)
    ensures r == "" <==> |dateOfBirth| != 10
    ensures |dateOfBirth| == 10 ==> r == dateOfBirth[2..4] + dateOfBirth[5..7] + dateOfBirth[8..10]
  {
    if |dateOfBirth| != 10 then ""
    else
      var yearLastTwoDigits := Substring(dateOfBirth, 2, 4);
      var month := Substring(dateOfBirth, 5, 7);
      var day := Substring(dateOfBirth, 8, 10);
      yearLastTwoDigits + month + day
  }

  /** A date written YYYY-MM-DD, with any separators, gives YYMMDD. */
  lemma ParseDateOfBirthFields(year: string, month: string, day: string, sep1: char, sep2: char)
    requires |year| == 4 && |month| == 2 && |day| == 2
    ensures ParseDateOfBirth(year + [sep1] + month + [sep2] + day) == year[2..] + month + day
  {
    var d := year + [sep1] + month + [sep2] + day;
    assert d[2..4] == year[2..];
    assert d[5..7] == month;
    assert d[8..10] == day;
  }

  // ---------------------------------------------------------------------------------------
  // calculateForPerson

  /** A name as `calculateForPerson` uses it: connective words removed, then accents. */
  function NormalizedName(name: string): (normalized: string)
  {
    Unaccented(Sanitize(name))
  }

  /** The first ten characters of a person's RFC code: the name code, corrected by the
      blocklist, followed by YYMMDD; "" when the date of birth cannot be parsed. */
  function PersonCode(father: string, mother: string, given: string, dateOfBirth: string): (rfc: string)
  {
    var code := Unblocked(NameCode(NormalizedName(father), NormalizedName(mother), NormalizedName(given)));
    var parsedDateOfBirth := ParseDateOfBirth(dateOfBirth);
    if parsedDateOfBirth == "" then "" else code + parsedDateOfBirth
  }

  /** `calculateForPerson`: normalises the three names, builds the code letter by letter
      (searching the father's surname for its next vowel), applies the blocklist and appends the
      date of birth, or gives up with "" when the date cannot be parsed. */
  method CalculateForPerson(fatherSurname: string, motherSurname: string, givenNames: string,
                            dateOfBirth: string) returns (rfc: string)
    ensures rfc == PersonCode(fatherSurname, motherSurname, givenNames, dateOfBirth)
  {
    rfc := "";
    var normalizedFatherSurname := Normalize(Sanitize(fatherSurname));
    var normalizedMotherSurname := Normalize(Sanitize(motherSurname));
    var normalizedGivenNames := Normalize(Sanitize(givenNames));

    if normalizedFatherSurname != "" && normalizedMotherSurname != "" {
      rfc := rfc + [normalizedFatherSurname[0]];
      if |normalizedFatherSurname| > 2 {
        var nextVowelFromFatherSurname := "";
        var i := 1;
        while i < |normalizedFatherSurname|
          invariant 1 <= i <= |normalizedFatherSurname|
          invariant FirstVowelFrom(normalizedFatherSurname, i) == FirstVowelFrom(normalizedFatherSurname, 1)
        {
          if IndexOf(Vowels, normalizedFatherSurname[i]) != -1 {
            nextVowelFromFatherSurname := [normalizedFatherSurname[i]];
            break;
          }
          i := i + 1;
        }
        assert nextVowelFromFatherSurname == FirstVowelFrom(normalizedFatherSurname, 1);
        rfc := rfc + nextVowelFromFatherSurname;
      }
      rfc := rfc + [normalizedMotherSurname[0]];
      assert rfc == SurnamesPrefix(normalizedFatherSurname, normalizedMotherSurname);
      SurnamesPrefixLength(normalizedFatherSurname, normalizedMotherSurname);
      if |rfc| == 3 {
        rfc := rfc + At(normalizedGivenNames, 0);
      } else if |rfc| == 2 {
        rfc := rfc + Substring(normalizedGivenNames, 0, 2);
      } else {
        assert false;
      }
    } else {
      var normalizedSurname := if normalizedFatherSurname != "" then normalizedFatherSurname
        else normalizedMotherSurname;
      var firstTwoLettersFromSurname := Substring(normalizedSurname, 0, 2);
      var firstTwoLettersFromGivenNames := Substring(normalizedGivenNames, 0, 2);
      rfc := rfc + (firstTwoLettersFromSurname + firstTwoLettersFromGivenNames);
    }
    assert rfc == NameCode(normalizedFatherSurname, normalizedMotherSurname, normalizedGivenNames);

    if IndexOf(RfcBlocklist, rfc) != -1 {
      rfc := Substring(rfc, 0, 3) + "X";
    }

    var parsedDateOfBirth := ParseDateOfBirth(dateOfBirth);
    if parsedDateOfBirth == "" {
      return "";
    }
    rfc := rfc + parsedDateOfBirth;
  }

  /** The result is "" exactly when the date of birth is not 10 characters long. */
  lemma PersonCodeFails(father: string, mother: string, given: string, dateOfBirth: string)
    ensures PersonCode(father, mother, given, dateOfBirth) == "" <==> |dateOfBirth| != 10
  {
    var parsed := ParseDateOfBirth(dateOfBirth);
    assert parsed == "" <==> |dateOfBirth| != 10;
  }

  /** For a date of birth of 10 characters the result is the name code, corrected by the
      blocklist, followed by the 6 characters YYMMDD of the date. */
  lemma PersonCodeParts(father: string, mother: string, given: string, dateOfBirth: string)
    requires |dateOfBirth| == 10
    ensures PersonCode(father, mother, given, dateOfBirth)
      == Unblocked(NameCode(NormalizedName(father), NormalizedName(mother), NormalizedName(given)))
         + dateOfBirth[2..4] + dateOfBirth[5..7] + dateOfBirth[8..10]
  {
    var parsed := ParseDateOfBirth(dateOfBirth);
    assert parsed == dateOfBirth[2..4] + dateOfBirth[5..7] + dateOfBirth[8..10];
  }

  /** The name code has the 4 characters the blocklist check expects when the given names have
      at least 2 characters and either both surnames are present or the one present has at
      least 2. */
  lemma NameCodeFourLetters(father: string, mother: string, given: string)
    requires |given| >= 2
    requires (father != "" && mother != "") || |if father != "" then father else mother| >= 2
    ensures |NameCode(father, mother, given)| == 4
  {
    if father != "" && mother != "" {
      NameCodeLength(father, mother, given);
    } else {
      NameCodeOneSurname(father, mother, given);
    }
  }

  /** Under the same conditions on the normalised names, a 10-character date of birth gives a
      code of 10 characters: 4 letters and YYMMDD. */
  lemma PersonCodeLength(father: string, mother: string, given: string, dateOfBirth: string)
    requires |dateOfBirth| == 10
    requires |NormalizedName(given)| >= 2
    requires (NormalizedName(father) != "" && NormalizedName(mother) != "")
      || |if NormalizedName(father) != "" then NormalizedName(father) else NormalizedName(mother)| >= 2
    ensures |PersonCode(father, mother, given, dateOfBirth)| == 10
  {
    var code := NameCode(NormalizedName(father), NormalizedName(mother), NormalizedName(given));
    NameCodeFourLetters(NormalizedName(father), NormalizedName(mother), NormalizedName(given));
    UnblockedContract(code);
    PersonCodeParts(father, mother, given, dateOfBirth);
  }

  // ---------------------------------------------------------------------------------------
  // Reference vectors

  /** A name made of words without spaces, none of them a connective word, is left unchanged
      by `sanitize`. */
  lemma SanitizePlainName(words: seq<string>)
    requires |words| >= 1
    requires forall k :: 0 <= k < |words| ==> ' ' !in words[k] && words[k] !in WordBlocklist
    ensures Sanitize(Join(words)) == Join(words)
  {
    SplitJoin(words);
    KeptWordsAllKept(words);
  }

  /** A one-word name that is not a connective word is only unaccented. */
  lemma PlainWordNormalized(w: string)
    requires ' ' !in w && w !in WordBlocklist
    ensures NormalizedName(w) == Unaccented(w)
  {
    assert Join([w]) == w;
    SanitizePlainName([w]);
  }

  /** A two-word name with no connective word is only unaccented. */
  lemma PlainPairNormalized(a: string, b: string)
    requires ' ' !in a && a !in WordBlocklist && ' ' !in b && b !in WordBlocklist
    ensures NormalizedName(a + " " + b) == Unaccented(a + " " + b)
  {
    assert Join([a, b]) == a + " " + b;
    SanitizePlainName([a, b]);
  }

  /** Cleaning a name again changes nothing when no word of the cleaned name is a connective. */
  lemma NormalizedNameIdempotent(name: string)
    requires forall k :: 0 <= k < |Split(NormalizedName(name))| ==>
      Split(NormalizedName(name))[k] !in WordBlocklist
    ensures NormalizedName(NormalizedName(name)) == NormalizedName(name)
  {
    var normalized := NormalizedName(name);
    KeptWordsAllKept(Split(normalized));
    JoinSplit(normalized);
    assert Sanitize(normalized) == normalized;
    UnaccentedIdempotent(Sanitize(name));
  }

  /** Cleaning is not idempotent in general: connective words are removed before accents, so É
      survives as E, and E, a connective, is then removed by a second cleaning. */
  lemma NormalizedNameNotIdempotent()
    ensures NormalizedName("É") == "E"
    ensures NormalizedName(NormalizedName("É")) == ""
  {
    IndexOfFirst(WordBlocklist, "É");
    PlainWordNormalized("É");
    assert Unaccented("É") == "E";
    assert Join(["E"]) == "E";
    SplitJoin(["E"]);
    assert WordBlocklist[7] == "E";
    IndexOfFirst(WordBlocklist, "E");
    assert KeptWords(["E"]) == [];
    assert Unaccented("") == "";
  }

  /** A code whose first letter starts no blocklist entry is left as it is. */
  lemma UnblockedByInitial(code: string)
    requires |code| >= 1 && code[0] !in "BCFGJKMPQR"
    ensures Unblocked(code) == code
  {
    BlocklistInitials();
    UnblockedContract(code);
  }

  /** Every blocklist entry starts with one of B, C, F, G, J, K, M, P, Q, R. */
  lemma BlocklistInitials()
    ensures forall k :: 0 <= k < |RfcBlocklist| ==> |RfcBlocklist[k]| >= 1 && RfcBlocklist[k][0] in "BCFGJKMPQR"
  {
  }

  /** LÓPEZ is one word, not a connective, and loses its accent. */
  lemma LopezNormalized()
    ensures NormalizedName("LÓPEZ") == "LOPEZ"
  {
    PlainWordNormalized("LÓPEZ");
    UnaccentedLopez();
  }

  /** The character-by-character part of the normalisation of this name. */
  lemma UnaccentedLopez()
    ensures Unaccented("LÓPEZ") == "LOPEZ"
  {
  }

  /** OBRADOR is left as it is. */
  lemma ObradorNormalized()
    ensures NormalizedName("OBRADOR") == "OBRADOR"
  {
    PlainWordNormalized("OBRADOR");
    UnaccentedObrador();
  }

  /** The character-by-character part of the normalisation of this name. */
  lemma UnaccentedObrador()
    ensures Unaccented("OBRADOR") == "OBRADOR"
  {
  }

  /** ANDRÉS MANUEL keeps both its words and loses its accent. */
  lemma AndresManuelNormalized()
    ensures NormalizedName("ANDRÉS MANUEL") == "ANDRES MANUEL"
  {
    PlainPairNormalized("ANDRÉS", "MANUEL");
    assert "ANDRÉS" + " " + "MANUEL" == "ANDRÉS MANUEL";
    UnaccentedAndresManuel();
  }

  /** The character-by-character part of the normalisation of this name. */
  lemma UnaccentedAndresManuel()
    ensures Unaccented("ANDRÉS MANUEL") == "ANDRES MANUEL"
  {
  }

  /** L, the first vowel O after it, O and A: the name code LOOA, which is not on the blocklist. */
  lemma LopezObradorNameCode()
    ensures NameCode("LOPEZ", "OBRADOR", "ANDRES MANUEL") == "LOOA"
    ensures Unblocked("LOOA") == "LOOA"
  {
    VowelsAre('O');
    NameCodeWithVowel("LOPEZ", "OBRADOR", "ANDRES MANUEL", 1);
    UnblockedByInitial("LOOA");
  }

  /** LÓPEZ OBRADOR ANDRÉS MANUEL gets LOOA followed by the date of birth as YYMMDD. */
  lemma LopezObradorVector(dateOfBirth: string)
    requires |dateOfBirth| == 10
    ensures PersonCode("LÓPEZ", "OBRADOR", "ANDRÉS MANUEL", dateOfBirth) == "LOOA" + ParseDateOfBirth(dateOfBirth)
  {
    LopezNormalized();
    ObradorNormalized();
    AndresManuelNormalized();
    LopezObradorNameCode();
  }

  /** PEÑA is left as it is: Ñ is not an accented vowel. */
  lemma PenaNormalized()
    ensures NormalizedName("PEÑA") == "PEÑA"
  {
    PlainWordNormalized("PEÑA");
    UnaccentedPena();
  }

  /** The character-by-character part of the normalisation of this name. */
  lemma UnaccentedPena()
    ensures Unaccented("PEÑA") == "PEÑA"
  {
  }

  /** NIETO is left as it is. */
  lemma NietoNormalized()
    ensures NormalizedName("NIETO") == "NIETO"
  {
    PlainWordNormalized("NIETO");
    UnaccentedNieto();
  }

  /** The character-by-character part of the normalisation of this name. */
  lemma UnaccentedNieto()
    ensures Unaccented("NIETO") == "NIETO"
  {
  }

  /** ENRIQUE is left as it is: only the whole word E is a connective. */
  lemma EnriqueNormalized()
    ensures NormalizedName("ENRIQUE") == "ENRIQUE"
  {
    PlainWordNormalized("ENRIQUE");
    UnaccentedEnrique();
  }

  /** The character-by-character part of the normalisation of this name. */
  lemma UnaccentedEnrique()
    ensures Unaccented("ENRIQUE") == "ENRIQUE"
  {
  }

  /** P, the first vowel E after it, N and E: the name code PENE, which the blocklist turns into
      PENX. */
  lemma PenaNietoNameCode()
    ensures NameCode("PEÑA", "NIETO", "ENRIQUE") == "PENE"
    ensures Unblocked("PENE") == "PENX"
  {
    VowelsAre('E');
    NameCodeWithVowel("PEÑA", "NIETO", "ENRIQUE", 1);
    assert RfcBlocklist[35] == "PENE";
    UnblockedContract("PENE");
  }

  /** PEÑA NIETO ENRIQUE gets PENX followed by the date of birth as YYMMDD. */
  lemma PenaNietoVector(dateOfBirth: string)
    requires |dateOfBirth| == 10
    ensures PersonCode("PEÑA", "NIETO", "ENRIQUE", dateOfBirth) == "PENX" + ParseDateOfBirth(dateOfBirth)
  {
    PenaNormalized();
    NietoNormalized();
    EnriqueNormalized();
    PenaNietoNameCode();
  }

  /** The dates of birth of the two reference people. */
  lemma DateVectors()
    ensures ParseDateOfBirth("1940-01-01") == "400101"
    ensures ParseDateOfBirth("1966-07-20") == "660720"
  {
  }

  /** DE LA CRUZ is split into three words. */
  lemma DeLaCruzSplit()
    ensures Split("DE LA CRUZ") == ["DE", "LA", "CRUZ"]
  {
    DeLaCruzJoin();
    SplitJoin(["DE", "LA", "CRUZ"]);
  }

  /** The three words joined with spaces. */
  lemma DeLaCruzJoin()
    ensures Join(["DE", "LA", "CRUZ"]) == "DE LA CRUZ"
  {
  }

  /** Of DE, LA and CRUZ, the connectives DE and LA are dropped. */
  lemma DeLaCruzKept()
    ensures KeptWords(["DE", "LA", "CRUZ"]) == ["CRUZ"]
  {
    assert IndexOf(WordBlocklist, "DE") == 0 && IndexOf(WordBlocklist, "LA") == 3;
    assert IndexOf(WordBlocklist, "CRUZ") == -1;
  }

  /** Sanitising DE LA CRUZ leaves CRUZ. */
  lemma DeLaCruzVector()
    ensures Sanitize("DE LA CRUZ") == "CRUZ"
  {
    DeLaCruzSplit();
    DeLaCruzKept();
  }
}
