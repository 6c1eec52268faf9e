/**
 * `_normalize_katakana_after_icu`: the clean-up applied to katakana that the
 * Latin-to-Katakana transliterator produced. It first spells the archaic
 * voiced-w kana with ヴ, then adjusts three Russian name endings according to
 * the romanized query.
 */
module Normalizer {
  import opened PyStr
  import opened Tables

  /** One of the four archaic kana the remap table replaces. */
  predicate IsArchaic(c: char)
  {
    c == 'ヷ' || c == 'ヸ' || c == 'ヹ' || c == 'ヺ'
  }

  predicate ArchaicFree(s: string)
  {
    forall k :: 0 <= k < |s| ==> !IsArchaic(s[k])
  }

  /** The replacement the first pair keyed by `c` gives, or `c` itself. */
  function ModernIn(c: char, pairs: seq<(char, string)>): string
  {
    if pairs == [] then [c]
    else if pairs[0].0 == c then pairs[0].1
    else ModernIn(c, pairs[1..])
  }

  /** The lookup in the remap table, one pair at a time. */
  lemma ModernInTable(c: char)
    ensures ModernIn(c, OldKanaMap) ==
      if c == 'ヷ' then "ヴァ" else if c == 'ヸ' then "ヴィ"
      else if c == 'ヹ' then "ヴェ" else if c == 'ヺ' then "ヴォ" else [c]
  {
    var p := OldKanaMap;
    assert ModernIn(c, p) == if c == 'ヷ' then "ヴァ" else ModernIn(c, p[1..]);
    assert ModernIn(c, p[1..]) == if c == 'ヸ' then "ヴィ" else ModernIn(c, p[2..]);
    assert ModernIn(c, p[2..]) == if c == 'ヹ' then "ヴェ" else ModernIn(c, p[3..]);
    assert ModernIn(c, p[3..]) == if c == 'ヺ' then "ヴォ" else ModernIn(c, p[4..]);
    assert p[4..] == [];
  }

  /** The modern spelling of one character. */
  function Modern(c: char): (r: string)
    ensures IsArchaic(c) ==> |r| == 2 && r[0] == 'ヴ' && ArchaicFree(r)
    ensures !IsArchaic(c) ==> r == [c]
  {
    ModernInTable(c);
    ModernIn(c, OldKanaMap)
  }

  /** Every archaic character replaced by its modern spelling, all at once. */
  function Remapped(s: string): (r: string)
    ensures ArchaicFree(r)
  {
    if s == [] then []
    else
      var head, tail := Modern(s[0]), Remapped(s[1..]);
      assert forall k :: |head| <= k < |head + tail| ==> (head + tail)[k] == tail[k - |head|];
      head + tail
  }

  /** The string after the first `n` passes of the source's replacement loop, in the table's order. */
  function RemapUpTo(s: string, n: nat): string
    requires n <= |OldKanaMap|
  {
    if n == 0 then s
    else Replace(RemapUpTo(s, n - 1), OldKanaMap[n - 1].0, OldKanaMap[n - 1].1)
  }

  lemma {:induction false} RemapUpToAppend(a: string, b: string, n: nat)
    requires n <= |OldKanaMap|
    ensures RemapUpTo(a + b, n) == RemapUpTo(a, n) + RemapUpTo(b, n)
  {
    if n > 0 {
      RemapUpToAppend(a, b, n - 1);
      ReplaceAppend(RemapUpTo(a, n - 1), RemapUpTo(b, n - 1), OldKanaMap[n - 1].0, OldKanaMap[n - 1].1);
    }
  }

  lemma RemapUpToEmpty(n: nat)
    requires n <= |OldKanaMap|
    ensures RemapUpTo([], n) == []
  {
    if n > 0 { RemapUpToEmpty(n - 1); }
  }

  lemma ReplaceOne(c: char, from: char, to: string)
    ensures Replace([c], from, to) == if c == from then to else [c]
  {
    assert [c][1..] == [];
  }

  /** A replacement whose key is absent from a two-glyph spelling leaves it alone. */
  lemma ReplaceMissesPair(v: string, from: char, to: string)
    requires |v| == 2 && v[0] != from && v[1] != from
    ensures Replace(v, from, to) == v
  {
    ReplaceAbsent(v, from, to);
  }

  /** On one character, the four passes in turn give its modern spelling. */
  lemma RemapUpToChar(c: char)
    ensures RemapUpTo([c], |OldKanaMap|) == Modern(c)
  {
    var s1 := Replace([c], 'ヷ', "ヴァ");
    var s2 := Replace(s1, 'ヸ', "ヴィ");
    var s3 := Replace(s2, 'ヹ', "ヴェ");
    var s4 := Replace(s3, 'ヺ', "ヴォ");
    assert RemapUpTo([c], 1) == s1;
    assert RemapUpTo([c], 2) == s2;
    assert RemapUpTo([c], 3) == s3;
    assert RemapUpTo([c], 4) == s4;
    ModernInTable(c);
    ReplaceOne(c, 'ヷ', "ヴァ");
    if c == 'ヷ' {
      ReplaceMissesPair(s1, 'ヸ', "ヴィ");
      ReplaceMissesPair(s2, 'ヹ', "ヴェ");
      ReplaceMissesPair(s3, 'ヺ', "ヴォ");
    } else {
      ReplaceOne(c, 'ヸ', "ヴィ");
      if c == 'ヸ' {
        ReplaceMissesPair(s2, 'ヹ', "ヴェ");
        ReplaceMissesPair(s3, 'ヺ', "ヴォ");
      } else {
        ReplaceOne(c, 'ヹ', "ヴェ");
        if c == 'ヹ' {
          ReplaceMissesPair(s3, 'ヺ', "ヴォ");
        } else {
          ReplaceOne(c, 'ヺ', "ヴォ");
        }
      }
    }
  }

  /**
   * The source's replacements run one after another, yet no replacement
   * spelling holds an archaic character, so the result is the same as
   * replacing every character at once.
   */
  lemma {:induction false} SequentialIsPointwise(s: string)
    ensures RemapUpTo(s, |OldKanaMap|) == Remapped(s)
  {
    if s != [] {
      var n := |OldKanaMap|;
      assert s == [s[0]] + s[1..];
      RemapUpToAppend([s[0]], s[1..], n);
      assert RemapUpTo(s, n) == RemapUpTo([s[0]], n) + RemapUpTo(s[1..], n);
      RemapUpToChar(s[0]);
      SequentialIsPointwise(s[1..]);
      assert Remapped(s) == Modern(s[0]) + Remapped(s[1..]);
    } else {
      RemapUpToEmpty(|OldKanaMap|);
    }
  }

  /** A string with no archaic character is left alone by the remap. */
  lemma {:induction false} RemappedFree(s: string)
    requires ArchaicFree(s)
    ensures Remapped(s) == s
  {
    if s != [] {
      RemappedFree(s[1..]);
      assert s == [s[0]] + s[1..];
    }
  }

  // ---------------------------------------------------------------------------
  // The name-ending rules, applied one after another in the source

  predicate InaApplies(kata: string, lower: string)
  {
    EndsWith(lower, "ina") && EndsWith(kata, "リナ")
  }

  predicate IyApplies(kata: string, lower: string)
  {
    (EndsWith(lower, "iy") || EndsWith(lower, "ii")) && EndsWith(kata, "イ")
  }

  predicate EyApplies(kata: string, lower: string)
  {
    EndsWith(lower, "ey") && EndsWith(kata, "エ")
  }

  /** "-ina": the final リナ is lengthened to リーナ. */
  function InaRule(kata: string, lower: string): string
  {
    if InaApplies(kata, lower) then kata[..|kata| - 2] + "リーナ" else kata
  }

  /** "-iy" or "-ii": the final イ is lengthened to イー. */
  function IyRule(kata: string, lower: string): string
  {
    if IyApplies(kata, lower) then kata[..|kata| - 1] + "イー" else kata
  }

  /** "-ey": a final エ becomes エイ. */
  function EyRule(kata: string, lower: string): string
  {
    if EyApplies(kata, lower) then kata + "イ" else kata
  }

  /** The three ending rules in the source's order, each seeing the previous one's result. */
  function SuffixFixed(kata: string, lower: string): string
  {
    EyRule(IyRule(InaRule(kata, lower), lower), lower)
  }

  /** `_normalize_katakana_after_icu(kata, latin_query)`. */
  function Normalized(kata: string, latinQuery: string): string
  {
    SuffixFixed(Remapped(kata), Lower(latinQuery))
  }

  /** The source's function: the replacement loop, then the three ending rules. */
  method NormalizeKatakanaAfterIcu(kata: string, latinQuery: string) returns (r: string)
    ensures r == Normalized(kata, latinQuery)
  {
    r := kata;
    for j := 0 to |OldKanaMap|
      invariant r == RemapUpTo(kata, j)
    {
      r := Replace(r, OldKanaMap[j].0, OldKanaMap[j].1);
    }
    SequentialIsPointwise(kata);
    var lower := Lower(latinQuery);
    // -ina: リナ becomes リーナ
    if InaApplies(r, lower) {
      r := r[..|r| - 2] + "リーナ";
    }
    // -iy or -ii: a final イ becomes イー
    if IyApplies(r, lower) {
      r := r[..|r| - 1] + "イー";
    }
    // -ey: a final エ gains イ
    if EyApplies(r, lower) {
      r := r + "イ";
    }
  }

  /** After the "-ina" rule the katakana ends in ナ, so no later rule applies. */
  lemma AfterIna(kata: string, lower: string)
    requires InaApplies(kata, lower)
    ensures var k := InaRule(kata, lower); !IyApplies(k, lower) && !EyApplies(k, lower) && !InaApplies(k, lower)
  {
    var k := InaRule(kata, lower);
    assert k[|k| - 1] == 'ナ' && k[|k| - 2] == 'ー';
  }

  /** After the "-iy" rule the katakana ends in ー, so no later rule applies. */
  lemma AfterIy(kata: string, lower: string)
    requires IyApplies(kata, lower)
    ensures var k := IyRule(kata, lower); !EyApplies(k, lower) && !InaApplies(k, lower) && !IyApplies(k, lower)
  {
    var k := IyRule(kata, lower);
    assert k[|k| - 1] == 'ー';
  }

  /** A query ending in "ey" ends in neither "iy", "ii" nor "ina". */
  lemma EySuffixExcludes(lower: string)
    requires EndsWith(lower, "ey")
    ensures !EndsWith(lower, "iy") && !EndsWith(lower, "ii") && !EndsWith(lower, "ina")
  {
    assert lower[|lower| - 2] == 'e';
  }

  /**
   * At most one ending rule fires: the source's three independent `if`s act
   * as a single choice among the rules.
   */
  lemma SuffixRulesExclusive(kata: string, lower: string)
    ensures SuffixFixed(kata, lower) ==
      if InaApplies(kata, lower) then kata[..|kata| - 2] + "リーナ"
      else if IyApplies(kata, lower) then kata[..|kata| - 1] + "イー"
      else if EyApplies(kata, lower) then kata + "イ"
      else kata
  {
    if InaApplies(kata, lower) {
      AfterIna(kata, lower);
    } else if IyApplies(kata, lower) {
      AfterIy(kata, lower);
    }
  }

  /** Where no rule applies, the rules leave the katakana alone. */
  lemma NoRuleFixes(kata: string, lower: string)
    requires !InaApplies(kata, lower) && !IyApplies(kata, lower) && !EyApplies(kata, lower)
    ensures SuffixFixed(kata, lower) == kata
  {
  }

  /** After the "-ey" rule the katakana ends in イ and the query rules out the others. */
  lemma AfterEy(kata: string, lower: string)
    requires EyApplies(kata, lower)
    ensures var k := EyRule(kata, lower); !InaApplies(k, lower) && !IyApplies(k, lower) && !EyApplies(k, lower)
  {
    var k := EyRule(kata, lower);
    EySuffixExcludes(lower);
    assert k[|k| - 1] == 'イ';
  }

  /** Applying the ending rules a second time changes nothing. */
  lemma SuffixFixedIdempotent(kata: string, lower: string)
    ensures SuffixFixed(SuffixFixed(kata, lower), lower) == SuffixFixed(kata, lower)
  {
    if InaApplies(kata, lower) {
      AfterIna(kata, lower);
      NoRuleFixes(InaRule(kata, lower), lower);
    } else if IyApplies(kata, lower) {
      AfterIy(kata, lower);
      NoRuleFixes(IyRule(kata, lower), lower);
    } else if EyApplies(kata, lower) {
      AfterEy(kata, lower);
      NoRuleFixes(EyRule(kata, lower), lower);
    } else {
      NoRuleFixes(kata, lower);
    }
  }

  lemma ArchaicFreeAppend(a: string, b: string)
    requires ArchaicFree(a) && ArchaicFree(b)
    ensures ArchaicFree(a + b)
  {
    forall k | 0 <= k < |a + b|
      ensures !IsArchaic((a + b)[k])
    {
      if k >= |a| {
        assert (a + b)[k] == b[k - |a|];
      }
    }
  }

  /** The endings only ever cut and append katakana, so the result keeps no archaic kana. */
  lemma SuffixFixedArchaicFree(kata: string, lower: string)
    requires ArchaicFree(kata)
    ensures ArchaicFree(SuffixFixed(kata, lower))
  {
    SuffixRulesExclusive(kata, lower);
    if InaApplies(kata, lower) {
      ArchaicFreeAppend(kata[..|kata| - 2], "リーナ");
    } else if IyApplies(kata, lower) {
      ArchaicFreeAppend(kata[..|kata| - 1], "イー");
    } else if EyApplies(kata, lower) {
      ArchaicFreeAppend(kata, "イ");
    }
  }

  /** The normalized katakana never holds an archaic kana. */
  lemma NormalizedArchaicFree(kata: string, latinQuery: string)
    ensures ArchaicFree(Normalized(kata, latinQuery))
  {
    SuffixFixedArchaicFree(Remapped(kata), Lower(latinQuery));
  }

  /** Normalizing twice with the same query is normalizing once. */
  lemma NormalizedIdempotent(kata: string, latinQuery: string)
    ensures Normalized(Normalized(kata, latinQuery), latinQuery) == Normalized(kata, latinQuery)
  {
    var n := Normalized(kata, latinQuery);
    NormalizedArchaicFree(kata, latinQuery);
    RemappedFree(n);
    SuffixFixedIdempotent(Remapped(kata), Lower(latinQuery));
  }

  /** The "-ina" ending: マリナ for "Marina" becomes マリーナ. */
  lemma MarinaExample()
    ensures Normalized("マリナ", "Marina") == "マリーナ"
  {
    RemappedFree("マリナ");
    assert Lower("Marina") == "marina";
    assert InaApplies("マリナ", "marina");
    AfterIna("マリナ", "marina");
  }

  /** An archaic kana and the "-iy" ending together: ヷシリイ for "Vasiliy". */
  lemma VasiliyExample()
    ensures Normalized("ヷシリイ", "Vasiliy") == "ヴァシリイー"
  {
    var kata := "ヷシリイ";
    assert kata == ['ヷ'] + "シリイ";
    RemappedFree("シリイ");
    ModernInTable('ヷ');
    assert Remapped(kata) == "ヴァシリイ";
    assert Lower("Vasiliy") == "vasiliy";
    assert IyApplies("ヴァシリイ", "vasiliy");
    AfterIy("ヴァシリイ", "vasiliy");
  }
}
