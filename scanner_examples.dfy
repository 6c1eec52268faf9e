/**
 * Worked tokens for the scanner: where the source's loop never ends, and
 * what the scanner reads for ordinary tokens. Each table fact an example
 * needs is a lemma of its own.
 */
module ScannerExamples {
  import opened Wrappers
  import opened PyStr
  import opened Tables
  import opened Scanner

  lemma UkaNotYoon() ensures "uka" !in Yoon {}
  lemma UkaNotSpecial() ensures "uka" !in Special {}
  lemma UkNotSpecial() ensures "uk" !in Special {}
  lemma KaNotSpecial() ensures "ka" !in Special {}
  lemma UNotRow() ensures 'u' !in Base && VowelRow.At('u') == "ウ" {}
  lemma KaGlyph() ensures 'k' in Base && BaseGlyph('k', 'a') == "カ" {}
  lemma WuGlyph() ensures "ウ" in Special.Values { assert Special["wu"] == "ウ"; }

  lemma ConcatPair(a: string, b: string)
    ensures Concat([a, b]) == a + b
  {
    assert [a, b][1..] == [b];
    assert [b][1..] == [];
    assert Concat([b]) == b + Concat([]);
    assert b + [] == b;
  }

  /** Two different glyphs pass the long-vowel post-pass unchanged. */
  lemma LongVowelizedPair(x: char, y: char)
    requires x != y
    ensures LongVowelized([x, y]) == [x, y]
  {
    assert [x, y][..1] == [x];
    assert [x][..0] == [];
  }

  /** The first iteration on "uka" reads the bare vowel ウ. */
  lemma UkaFirstStep(s: string)
    requires s == "uka"
    ensures Step(s, Cursor(0, [])) == Cursor(1, ["ウ"])
  {
    assert s[0..3] == "uka" && s[0..2] == "uk";
    UkaNotYoon();
    UkaNotSpecial();
    UkNotSpecial();
    UNotRow();
    StepFallsToBase(s, Cursor(0, []));
  }

  /** At "k" no key matches, yet ウ is the special value of "wu", so the iteration spins. */
  lemma UkaSecondStep(s: string)
    requires s == "uka"
    ensures Spins(s, Cursor(1, ["ウ"]))
  {
    assert s[1..3] == "ka";
    KaNotSpecial();
    WuGlyph();
  }

  /** Where the source spins, the corrected loop reads カ. */
  lemma UkaIntendedSteps(s: string)
    requires s == "uka"
    ensures StepIntended(s, Cursor(0, [])) == Cursor(1, ["ウ"])
    ensures StepIntended(s, Cursor(1, ["ウ"])) == Cursor(3, ["ウ", "カ"])
  {
    UkaFirstStep(s);
    StepIntendedAgrees(s, Cursor(0, []));
    UkaIntendedSecondStep(s);
  }

  lemma UkaIntendedSecondStep(s: string)
    requires s == "uka"
    ensures StepIntended(s, Cursor(1, ["ウ"])) == Cursor(3, ["ウ", "カ"])
  {
    UkaSecondStep(s);
    KaGlyph();
    StepIntendedAgrees(s, Cursor(1, ["ウ"]));
  }

  /**
   * "uka": the source loop never ends, while the corrected loop reads ウカ.
   * The same happens wherever a glyph that is also a special value (ウ from a
   * bare "u" or from "wu", フ from "hu", シ, ジ, チ, ツ from the grid) is
   * followed by a letter pair with no special key and no earlier rule.
   */
  lemma UkaSpins()
    ensures Transliterated("uka") == None
    ensures TransliteratedIntended("uka") == "ウカ"
  {
    var s := "uka";
    UkaSourceSpins(s);
    UkaIntendedReads(s);
  }

  lemma UkaSourceSpins(s: string)
    requires s == "uka"
    ensures Transliterated(s) == None
  {
    assert Lower(s) == s;
    UkaFirstStep(s);
    UkaSecondStep(s);
    StallIff(s, Cursor(1, ["ウ"]));
    assert ScanFrom(s, Cursor(1, ["ウ"])) == None;
    assert ScanFrom(s, Cursor(0, [])) == None;
  }

  lemma UkaIntendedReads(s: string)
    requires s == "uka"
    ensures TransliteratedIntended(s) == "ウカ"
  {
    assert Lower(s) == s;
    UkaIntendedSteps(s);
    assert ScanIntendedFrom(s, Cursor(3, ["ウ", "カ"])) == ["ウ", "カ"];
    assert ScanIntendedFrom(s, Cursor(1, ["ウ"])) == ["ウ", "カ"];
    assert ScanIntendedFrom(s, Cursor(0, [])) == ["ウ", "カ"];
    ConcatPair("ウ", "カ");
    LongVowelizedPair('ウ', 'カ');
  }

  // ---------------------------------------------------------------------------
  // "motto": a base syllable, a sokuon and a base syllable

  lemma MotNotYoon() ensures "mot" !in Yoon {}
  lemma MotNotSpecial() ensures "mot" !in Special {}
  lemma MoNotSpecial() ensures "mo" !in Special {}
  lemma ToNotSpecial() ensures "to" !in Special {}
  lemma MoGlyph() ensures 'm' in Base && BaseGlyph('m', 'o') == "モ" {}
  lemma ToGlyph() ensures 't' in Base && BaseGlyph('t', 'o') == "ト" {}

  lemma ConcatTriple(a: string, b: string, c: string)
    ensures Concat([a, b, c]) == a + b + c
  {
    assert [a, b, c][1..] == [b, c];
    ConcatPair(b, c);
  }

  lemma MottoSteps(s: string)
    requires s == "motto"
    ensures Step(s, Cursor(0, [])) == Cursor(2, ["モ"])
    ensures Step(s, Cursor(2, ["モ"])) == Cursor(3, ["モ", "ッ"])
    ensures Step(s, Cursor(3, ["モ", "ッ"])) == Cursor(5, ["モ", "ッ", "ト"])
  {
    MottoFirstStep(s);
    SokuonRule(s, Cursor(2, ["モ"]));
    MottoLastStep(s);
  }

  lemma MottoFirstStep(s: string)
    requires s == "motto"
    ensures Step(s, Cursor(0, [])) == Cursor(2, ["モ"])
  {
    assert s[0..3] == "mot" && s[0..2] == "mo";
    MotNotYoon();
    MotNotSpecial();
    MoNotSpecial();
    MoGlyph();
    StepFallsToBase(s, Cursor(0, []));
  }

  lemma MottoLastStep(s: string)
    requires s == "motto"
    ensures Step(s, Cursor(3, ["モ", "ッ"])) == Cursor(5, ["モ", "ッ", "ト"])
  {
    assert s[3..5] == "to";
    ToNotSpecial();
    SokuonNotSpecial();
    ToGlyph();
    StepFallsToBase(s, Cursor(3, ["モ", "ッ"]));
  }

  /** "motto": the doubled "t" reads as a sokuon before ト. */
  lemma MottoReads()
    ensures Transliterated("motto") == Some("モット")
  {
    var s := "motto";
    assert Lower(s) == s;
    MottoSteps(s);
    assert ScanFrom(s, Cursor(3, ["モ", "ッ"])) == Some(["モ", "ッ", "ト"]);
    assert ScanFrom(s, Cursor(0, [])) == Some(["モ", "ッ", "ト"]);
    ConcatTriple("モ", "ッ", "ト");
    assert NoRepeatedBareVowel("モット");
    LongVowelizedFixpointIff("モット");
  }

  // ---------------------------------------------------------------------------
  // "aa": two bare vowels, the second contracted by the post-pass

  lemma AaNotSpecial() ensures "aa" !in Special {}
  lemma ANotRow() ensures 'a' !in Base && VowelRow.At('a') == "ア" {}

  lemma AaSteps(s: string)
    requires s == "aa"
    ensures Step(s, Cursor(0, [])) == Cursor(1, ["ア"])
    ensures Step(s, Cursor(1, ["ア"])) == Cursor(2, ["ア", "ア"])
  {
    assert s[0..2] == "aa";
    AaNotSpecial();
    ANotRow();
    StepFallsToBase(s, Cursor(0, []));
    StepFallsToBase(s, Cursor(1, ["ア"]));
  }

  lemma LongVowelizedDouble(x: char)
    requires IsBareVowelGlyph(x)
    ensures LongVowelized([x, x]) == [x, 'ー']
  {
    assert [x, x][..1] == [x];
    assert [x][..0] == [];
  }

  /** "aa": the repeated bare vowel becomes the long-vowel mark. */
  lemma AaReads()
    ensures Transliterated("aa") == Some("アー")
  {
    var s := "aa";
    assert Lower(s) == s;
    AaSteps(s);
    assert ScanFrom(s, Cursor(0, [])) == Some(["ア", "ア"]);
    ConcatPair("ア", "ア");
    LongVowelizedDouble('ア');
  }
}
