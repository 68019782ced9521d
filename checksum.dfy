/** The standalone RFC checksum (rfc/checksum.ts): the verification character of a
    personal (13-character) or corporate (12-character) code, over a 39-symbol alphabet. */
module Checksum {
  import opened JsString

  /** The checksum alphabet: each symbol's index is its value in the weighted sum. */
  const Alphabet: string := "0123456789ABCDEFGHIJKLMN&OPQRSTUVWXYZ Ñ"

  /** The characters a checksum can be for an input of at most 13 characters from the
      alphabet: the symbols at indices 1 to 11. */
  const CheckCharacters: string := "123456789AB"

  /** The value of a character in the checksum sum, read off the alphabet's layout:
      digits 0-9, then A-N as 10-23, '&' as 24, O-Z as 25-36, space 37, Ñ 38, and -1 for
      any other character. */
  function Value(c: char): (v: int)
    ensures -1 <= v < 39
  {
    if '0' <= c <= '9' then c as int - '0' as int
    else if 'A' <= c <= 'N' then c as int - 'A' as int + 10
    else if c == '&' then 24
    else if 'O' <= c <= 'Z' then c as int - 'O' as int + 25
    else if c == ' ' then 37
    else if c == 'Ñ' then 38
    else -1
  }

  /** The code with its last (placeholder) character dropped and spaces added in front up to 12. */
  function Padded(rfc: string): (r: string)
    ensures |r| == if |rfc| <= 13 then 12 else |rfc| - 1
  {
    PadStart(Substring(rfc, 0, |rfc| - 1), 12)
  }

  /** The `reduce` fold of rfc/checksum.ts from index `i` of the padded code on: each character
      adds its alphabet index times `13 - i` to the accumulator. */
  function SumFrom(padded: string, i: nat, acc: int): (sum: int)
    requires i <= |padded|
    decreases |padded| - i
  {
    if i == |padded| then acc
    else SumFrom(padded, i + 1, acc + IndexOf(Alphabet, padded[i]) * (13 - i))
  }

  /** `11 - sum % 11` with JavaScript's `%`: an index into the alphabet for every input, since
      the remainder lies strictly between -11 and 11. */
  function Position(rfc: string): (p: int)
    ensures 1 <= p <= 21
  {
    11 - Rem(SumFrom(Padded(rfc), 0, 0), 11)
  }

  /** The checksum character of `rfc`. */
  function Checksum(rfc: string): (c: char)
  {
    Alphabet[Position(rfc)]
  }

  /** Reference definition of the sum: position i (counted from the left, from 0) carries the
      weight 13 - i. */
  function WeightedSum(s: string): (sum: int)
  {
    if s == [] then 0
    else WeightedSum(s[..|s| - 1]) + Value(s[|s| - 1]) * (13 - (|s| - 1))
  }

  /** Every symbol's value is its index in the alphabet, so the 39 symbols are distinct. */
  lemma ValueOfSymbol()
    ensures |Alphabet| == 39
    ensures forall i :: 0 <= i < |Alphabet| ==> Value(Alphabet[i]) == i
  {
    ValueOfSymbolBetween(0, 13);
    ValueOfSymbolBetween(13, 26);
    ValueOfSymbolBetween(26, 39);
  }

  /** The symbols at indices `lo` up to `hi` have their index as value. */
  lemma ValueOfSymbolBetween(lo: nat, hi: nat)
    requires lo <= hi <= 39 && hi - lo <= 13
    ensures forall i :: lo <= i < hi ==> Value(Alphabet[i]) == i
  {
  }

  /** Every character with a value sits at that index of the alphabet. */
  lemma SymbolOfValue(c: char)
    requires Value(c) != -1
    ensures Alphabet[Value(c)] == c
  {
  }

  /** The table the lookup reads: `indexOf` in the alphabet is the value of the character, so
      digit d has value d, space 37, Ñ 38, and a character outside the alphabet -1. */
  lemma LookupIsValue(c: char)
    ensures IndexOf(Alphabet, c) == Value(c)
    ensures c in Alphabet <==> Value(c) != -1
  {
    ValueOfSymbol();
    IndexOfFirst(Alphabet, c);
    if Value(c) != -1 {
      SymbolOfValue(c);
    }
  }

  /** The 39 symbols are pairwise distinct; each digit is at its own index, space at 37, Ñ at 38. */
  lemma AlphabetLayout()
    ensures |Alphabet| == 39
    ensures forall i, j :: 0 <= i < j < |Alphabet| ==> Alphabet[i] != Alphabet[j]
    ensures forall i :: 0 <= i < |Alphabet| ==> IndexOf(Alphabet, Alphabet[i]) == i
    ensures forall d :: 0 <= d < 10 ==> Alphabet[d] == ('0' as int + d) as char
    ensures Alphabet[37] == ' ' && Alphabet[38] == 'Ñ'
  {
    ValueOfSymbol();
    forall i | 0 <= i < |Alphabet|
      ensures IndexOf(Alphabet, Alphabet[i]) == i
    {
      LookupIsValue(Alphabet[i]);
    }
    forall d | 0 <= d < 10
      ensures Alphabet[d] == ('0' as int + d) as char
    {
      SymbolOfValue(('0' as int + d) as char);
    }
  }

  /** The fold computes the reference sum: what it adds from position `i` on is the reference
      sum of the whole string less that of the first `i` characters. */
  lemma {:induction false} SumFromIsWeightedSum(chars: string, i: nat, acc: int)
    requires i <= |chars|
    ensures SumFrom(chars, i, acc) == acc + WeightedSum(chars) - WeightedSum(chars[..i])
    decreases |chars| - i
  {
    if i == |chars| {
      assert chars[..i] == chars;
    } else {
      SumFromIsWeightedSum(chars, i + 1, acc + IndexOf(Alphabet, chars[i]) * (13 - i));
      WeightedSumStep(chars, i);
      LookupIsValue(chars[i]);
    }
  }

  /** Only the last character is dropped, and the rest is padded in front to 12: a 13-character
      personal code keeps its first 12, a 12-character corporate code gets one leading space. */
  lemma PaddedShape(rfc: string)
    requires 1 <= |rfc| <= 13
    ensures Padded(rfc) == Spaces(13 - |rfc|) + rfc[..|rfc| - 1]
    ensures |rfc| == 13 ==> Padded(rfc) == rfc[..12]
    ensures |rfc| == 12 ==> Padded(rfc) == [' '] + rfc[..11]
  {
    var kept := Substring(rfc, 0, |rfc| - 1);
    assert kept == rfc[..|rfc| - 1];
    if |rfc| == 13 {
      assert Padded(rfc) == kept;
      assert Spaces(0) + kept == kept;
    } else {
      assert Padded(rfc) == Spaces(12 - |kept|) + kept;
      if |rfc| == 12 {
        assert Spaces(1) == [' '];
      }
    }
  }

  /** The final character is a placeholder: replacing it never changes the checksum. */
  lemma PlaceholderIgnored(rfc: string, c: char)
    requires |rfc| >= 1
    ensures Checksum(rfc[..|rfc| - 1] + [c]) == Checksum(rfc)
  {
    var other := rfc[..|rfc| - 1] + [c];
    assert other[..|other| - 1] == rfc[..|rfc| - 1];
    assert Padded(other) == Padded(rfc);
    assert Position(other) == Position(rfc);
  }

  /** The sum the checksum reduces is the reference sum of the padded code, whose 12 positions
      carry the weights 13 down to 2. */
  lemma ChecksumSum(rfc: string)
    ensures SumFrom(Padded(rfc), 0, 0) == WeightedSum(Padded(rfc))
    ensures Position(rfc) == 11 - Rem(WeightedSum(Padded(rfc)), 11)
  {
    SumFromIsWeightedSum(Padded(rfc), 0, 0);
    assert Padded(rfc)[..0] == [];
  }

  /** The reference sum of at most 14 characters that all have a value is never negative. */
  lemma {:induction false} WeightedSumNonNegative(s: string)
    requires |s| <= 14
    requires forall k :: 0 <= k < |s| ==> Value(s[k]) != -1
    ensures WeightedSum(s) >= 0
    decreases |s|
  {
    if s != [] {
      var init := s[..|s| - 1];
      assert forall k :: 0 <= k < |init| ==> init[k] == s[k];
      WeightedSumNonNegative(init);
      var v, w := Value(s[|s| - 1]), 13 - (|s| - 1);
      assert v >= 0 && w >= 0;
      assert v * w >= 0;
    }
  }

  /** For a code of at most 13 characters whose characters before the placeholder are all in the
      alphabet, the sum is not negative, 11 - sum % 11 lies in 1..11, and the checksum is one of
      '1'..'9', 'A', 'B', never '0'. */
  lemma CheckCharacterRange(rfc: string)
    requires |rfc| <= 13
    requires forall k :: 0 <= k < |rfc| - 1 ==> rfc[k] in Alphabet
    ensures WeightedSum(Padded(rfc)) >= 0
    ensures 1 <= Position(rfc) <= 11
    ensures Checksum(rfc) in CheckCharacters
    ensures Checksum(rfc) != '0'
  {
    var p := Padded(rfc);
    if |rfc| == 0 {
      assert p == Spaces(12);
    } else {
      PaddedShape(rfc);
      forall k | 0 <= k < |rfc| - 1
        ensures Value(rfc[k]) != -1
      {
        LookupIsValue(rfc[k]);
      }
    }
    assert forall k :: 0 <= k < |p| ==> Value(p[k]) != -1;
    WeightedSumNonNegative(p);
    ChecksumSum(rfc);
    CheckCharactersAreFirstEleven();
  }

  /** The symbols at indices 1 to 11 are '1'..'9', 'A' and 'B', and '0' is not among them. */
  lemma CheckCharactersAreFirstEleven()
    ensures forall p :: 1 <= p <= 11 ==> Alphabet[p] in CheckCharacters
    ensures '0' !in CheckCharacters
  {
    forall p | 1 <= p <= 11
      ensures Alphabet[p] in CheckCharacters
    {
      assert Alphabet[p] == CheckCharacters[p - 1];
    }
  }

  /** Position `k` of a code adds the value of its character times the weight `13 - k`. */
  lemma WeightedSumStep(s: string, k: nat)
    requires k < |s|
    ensures WeightedSum(s[..k + 1]) == WeightedSum(s[..k]) + Value(s[k]) * (13 - k)
  {
    assert s[..k + 1][..k] == s[..k];
  }

  /** Four consecutive positions of a code, from position `k` on. */
  lemma WeightedSumFourSteps(s: string, k: nat)
    requires k + 4 <= |s|
    ensures WeightedSum(s[..k + 4]) == WeightedSum(s[..k]) + Value(s[k]) * (13 - k)
      + Value(s[k + 1]) * (12 - k) + Value(s[k + 2]) * (11 - k) + Value(s[k + 3]) * (10 - k)
  {
    WeightedSumStep(s, k);
    WeightedSumStep(s, k + 1);
    WeightedSumStep(s, k + 2);
    WeightedSumStep(s, k + 3);
  }

  /** The padded personal reference code GODE561231GR sums to 1026. */
  lemma PersonalVectorSum()
    ensures WeightedSum("GODE561231GR") == 1026
  {
    var s := "GODE561231GR";
    WeightedSumFourSteps(s, 0);
    WeightedSumFourSteps(s, 4);
    WeightedSumFourSteps(s, 8);
    assert s[..0] == [];
    assert s[..12] == s;
  }

  /** The padded corporate reference code, a space and SPM1410037E, sums to 1444. */
  lemma CorporateVectorSum()
    ensures WeightedSum(" SPM1410037E") == 1444
  {
    var s := " SPM1410037E";
    WeightedSumFourSteps(s, 0);
    WeightedSumFourSteps(s, 4);
    WeightedSumFourSteps(s, 8);
    assert s[..0] == [];
    assert s[..12] == s;
  }

  /** The checksum position of a code whose padded form has a known reference sum. */
  lemma PositionOfSum(rfc: string, padded: string, sum: int)
    requires Padded(rfc) == padded && WeightedSum(padded) == sum
    ensures Position(rfc) == 11 - Rem(sum, 11)
  {
    ChecksumSum(rfc);
  }

  /** The checksum is the alphabet symbol at the checksum position. */
  lemma ChecksumAt(rfc: string, p: int)
    requires Position(rfc) == p
    ensures Checksum(rfc) == Alphabet[p]
  {
  }

  /** A personal code GODE561231GR followed by any placeholder is padded to its first 12
      characters, whose sum 1026 leaves 3 modulo 11: its checksum position is 8. */
  lemma PersonalVectorPosition(placeholder: char)
    ensures Position("GODE561231GR" + [placeholder]) == 8
  {
    var rfc := "GODE561231GR" + [placeholder];
    PaddedShape(rfc);
    assert rfc[..12] == "GODE561231GR";
    PersonalVectorSum();
    PositionOfSum(rfc, "GODE561231GR", 1026);
  }

  /** A corporate code SPM1410037E followed by any placeholder is padded to a space and its
      first 11 characters, whose sum 1444 leaves 3 modulo 11: its checksum position is 8. */
  lemma CorporateVectorPosition(placeholder: char)
    ensures Position("SPM1410037E" + [placeholder]) == 8
  {
    var rfc := "SPM1410037E" + [placeholder];
    PaddedShape(rfc);
    assert rfc[..11] == "SPM1410037E";
    assert [' '] + rfc[..11] == " SPM1410037E";
    CorporateVectorSum();
    PositionOfSum(rfc, " SPM1410037E", 1444);
  }

  /** The personal reference code GODE561231GR8 has checksum '8', whatever its placeholder. */
  lemma PersonalVector(placeholder: char)
    ensures Checksum("GODE561231GR" + [placeholder]) == '8'
  {
    PersonalVectorPosition(placeholder);
    ChecksumAt("GODE561231GR" + [placeholder], 8);
  }

  /** The corporate reference code SPM1410037E8 has checksum '8', whatever its placeholder. */
  lemma CorporateVector(placeholder: char)
    ensures Checksum("SPM1410037E" + [placeholder]) == '8'
  {
    CorporateVectorPosition(placeholder);
    ChecksumAt("SPM1410037E" + [placeholder], 8);
  }
}
