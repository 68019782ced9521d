/** The two copies of the checksum, in rfc/index.ts and in rfc/checksum.ts, compute the same
    character for every input. */
module ChecksumEquivalence {
  import opened JsString
  import Standalone = Checksum
  import Generator = Rfc

  /** Both files declare the same alphabet. */
  lemma SameAlphabet()
    ensures Generator.Alphabet == Standalone.Alphabet
  {
  }

  /** The two `reduce` folds agree from every index on, for every accumulator. */
  lemma {:induction false} FoldsAgree(padded: string, i: nat, acc: int)
    requires i <= |padded|
    ensures Generator.ChecksumFold(padded, i, acc) == Standalone.SumFrom(padded, i, acc)
    decreases |padded| - i
  {
    if i < |padded| {
      SameAlphabet();
      FoldsAgree(padded, i + 1, acc + IndexOf(Standalone.Alphabet, padded[i]) * (13 - i));
    }
  }

  /** The checksum of rfc/index.ts is the alphabet symbol at 11 minus the remainder of its fold. */
  lemma GeneratorChecksumAt(rfc: string, position: int)
    requires position == 11 - Rem(Generator.ChecksumFold(PadStart(Substring(rfc, 0, |rfc| - 1), 12), 0, 0), 11)
    ensures Generator.Checksum(rfc) == Generator.Alphabet[position]
  {
  }

  /** The checksum of rfc/index.ts is the checksum of rfc/checksum.ts. */
  lemma ChecksumsAgree(rfc: string)
    ensures Generator.Checksum(rfc) == Standalone.Checksum(rfc)
  {
    var padded := PadStart(Substring(rfc, 0, |rfc| - 1), 12);
    assert Standalone.Padded(rfc) == padded;
    FoldsAgree(padded, 0, 0);
    var position := Standalone.Position(rfc);
    GeneratorChecksumAt(rfc, position);
    Standalone.ChecksumAt(rfc, position);
    SameAlphabet();
  }

  /** So the reference vectors hold for rfc/index.ts too. */
  lemma GeneratorVectors(placeholder: char)
    ensures Generator.Checksum("GODE561231GR" + [placeholder]) == '8'
    ensures Generator.Checksum("SPM1410037E" + [placeholder]) == '8'
  {
    ChecksumsAgree("GODE561231GR" + [placeholder]);
    Standalone.PersonalVector(placeholder);
    ChecksumsAgree("SPM1410037E" + [placeholder]);
    Standalone.CorporateVector(placeholder);
  }
}
