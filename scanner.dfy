/**
 * The heuristic romaji-to-katakana scanner `_romaji_to_katakana` and its
 * long-vowel post-pass `_long_vowelize`.
 *
 * One iteration of the source's `while i < len(s)` loop is the function
 * `Step` on a `Cursor` (the index `i` and the list `out`). An iteration that
 * leaves the cursor unchanged is repeated forever by the source, because the
 * next iteration sees the same state; the model reports that as `None`.
 */
module Scanner {
  import opened Wrappers
  import opened PyStr
  import opened Tables

  /** The loop state: the index into the token and the glyphs emitted so far. */
  datatype Cursor = Cursor(i: nat, out: seq<string>)

  function Last(out: seq<string>): string
    requires out != []
  {
    out[|out| - 1]
  }

  /** Rule 1, sokuon: a doubled letter other than a vowel or "n". */
  predicate SokuonAt(s: string, i: nat)
    requires i < |s|
  {
    i + 1 < |s| && s[i] == s[i + 1] && IsAlpha(s[i]) && !(IsVowel(s[i]) || s[i] == 'n')
  }

  /** Rule 2: "n" at the end, or before anything but a vowel or "y". */
  predicate NasalAt(s: string, i: nat)
    requires i < |s|
  {
    s[i] == 'n' && (i + 1 >= |s| || !(IsVowel(s[i + 1]) || s[i + 1] == 'y'))
  }

  /** Rule 3: the three letters at `i` form a yoon key. */
  predicate YoonAt(s: string, i: nat)
    requires i < |s|
  {
    i + 2 < |s| && s[i..i + 3] in Yoon
  }

  /** Rule 4's `for length in (3, 2)` search: the first special key found at `i`. */
  function SpecialMatch(s: string, i: nat): (r: Option<string>)
    requires i + 2 <= |s|
    ensures r.Some? ==> r.value in Special && 2 <= |r.value| <= 3 && i + |r.value| <= |s|
                        && s[i..i + |r.value|] == r.value
    ensures r.Some? && |r.value| == 2 ==> !(i + 3 <= |s| && s[i..i + 3] in Special)
    ensures r.None? ==> s[i..i + 2] !in Special && !(i + 3 <= |s| && s[i..i + 3] in Special)
  {
    if i + 3 <= |s| && s[i..i + 3] in Special then Some(s[i..i + 3])
    else if s[i..i + 2] in Special then Some(s[i..i + 2])
    else None
  }

  /** `_BASE[c][v]`: the grid entry for consonant row `c` and vowel column `v`. */
  function BaseGlyph(c: char, v: char): string
    requires c in Base && IsVowel(v)
  {
    Base[c].At(v)
  }

  /** Rules 5 to 7: consonant + vowel, a bare consonant's "u" column, a bare vowel, or a skip. */
  function BaseOrVowel(s: string, c: Cursor): (r: Cursor)
    requires c.i < |s|
    ensures c.i < r.i <= c.i + 2 && r.i <= |s|
    ensures |c.out| <= |r.out| <= |c.out| + 1 && r.out[..|c.out|] == c.out
  {
    var i, out := c.i, c.out;
    if s[i] in Base then
      if i + 1 < |s| && IsVowel(s[i + 1]) then Cursor(i + 2, out + [BaseGlyph(s[i], s[i + 1])])
      else Cursor(i + 1, out + [BaseGlyph(s[i], 'u')])
    else if IsVowel(s[i]) then
      Cursor(i + 1, out + [VowelRow.At(s[i])])
    else Cursor(i + 1, out)
  }

  /** One iteration of the scanner loop, the rules tried in priority order. */
  function Step(s: string, c: Cursor): (r: Cursor)
    requires c.i < |s|
    ensures c.i <= r.i <= c.i + 3 && r.i <= |s|
    ensures r.i == c.i ==> r == c
    ensures |c.out| <= |r.out| <= |c.out| + 1 && r.out[..|c.out|] == c.out
  {
    var i, out := c.i, c.out;
    if SokuonAt(s, i) then Cursor(i + 1, out + ["ッ"])
    else if NasalAt(s, i) then Cursor(i + 1, out + ["ン"])
    else if YoonAt(s, i) then Cursor(i + 3, out + [Yoon[s[i..i + 3]]])
    else SpecialOrBase(s, c)
  }

  /** Rules 4 to 7: the special search, the source's `continue` after it, then the base rules. */
  function SpecialOrBase(s: string, c: Cursor): (r: Cursor)
    requires c.i < |s|
    ensures c.i <= r.i <= c.i + 3 && r.i <= |s|
    ensures r.i == c.i ==> r == c
    ensures |c.out| <= |r.out| <= |c.out| + 1 && r.out[..|c.out|] == c.out
  {
    var i, out := c.i, c.out;
    if i + 2 <= |s| then
      var after := match SpecialMatch(s, i)
        case Some(k) => Cursor(i + |k|, out + [Special[k]])
        case None => c;
      // the source's `continue` after the search, taken whether or not a key matched
      if after.i > 0 && after.out != [] && Last(after.out) in Special.Values then after
      else BaseOrVowel(s, after)
    else BaseOrVowel(s, c)
  }

  /** Rule 1: a doubled consonant emits the sokuon and consumes only its first letter. */
  lemma SokuonRule(s: string, c: Cursor)
    requires c.i < |s| && SokuonAt(s, c.i)
    ensures Step(s, c) == Cursor(c.i + 1, c.out + ["ッ"])
  {
  }

  /** Rule 2: a final or standalone "n" emits ン and consumes one letter. */
  lemma NasalRule(s: string, c: Cursor)
    requires c.i < |s| && NasalAt(s, c.i)
    ensures Step(s, c) == Cursor(c.i + 1, c.out + ["ン"])
  {
  }

  /**
   * Rule 3 takes priority: wherever a yoon key starts, the step consumes those
   * three letters and emits its glyphs. No key starts with a doubled letter or
   * with an "n" that rule 2 would take, so rules 1 and 2 never pre-empt it.
   */
  lemma YoonPriority(s: string, c: Cursor)
    requires c.i + 3 <= |s| && s[c.i..c.i + 3] in Yoon
    ensures Step(s, c) == Cursor(c.i + 3, c.out + [Yoon[s[c.i..c.i + 3]]])
  {
    var k := s[c.i..c.i + 3];
    YoonKeyShape(k);
    assert s[c.i] == k[0] && s[c.i + 1] == k[1];
  }

  /**
   * Rule 4: where no yoon key starts, a special key (three letters tried before
   * two) is consumed whole. No special key starts with a doubled letter or an
   * "n", so rules 1 and 2 never pre-empt it either.
   */
  lemma SpecialRule(s: string, c: Cursor)
    requires c.i + 2 <= |s| && !YoonAt(s, c.i) && SpecialMatch(s, c.i).Some?
    ensures var k := SpecialMatch(s, c.i).value;
      Step(s, c) == Cursor(c.i + |k|, c.out + [Special[k]])
  {
    var k := SpecialMatch(s, c.i).value;
    SpecialKeyShape(k);
    assert s[c.i] == k[0] && s[c.i + 1] == k[1];
  }

  /** Where rules 1 to 4 do not apply and the source does not `continue`, the base rules decide. */
  lemma StepFallsToBase(s: string, c: Cursor)
    requires c.i < |s| && !SokuonAt(s, c.i) && !NasalAt(s, c.i) && !YoonAt(s, c.i)
    requires c.i + 2 <= |s| ==>
      SpecialMatch(s, c.i).None? && !(c.i > 0 && c.out != [] && Last(c.out) in Special.Values)
    ensures Step(s, c) == BaseOrVowel(s, c)
  {
  }

  /**
   * The state in which an iteration changes nothing: no rule before the special
   * search applies, the search finds no key, and yet the `continue` after it is
   * taken because the last glyph emitted so far happens to be a special value.
   */
  predicate Spins(s: string, c: Cursor)
    requires c.i < |s|
  {
    !SokuonAt(s, c.i) && !NasalAt(s, c.i) && !YoonAt(s, c.i)
    && c.i + 2 <= |s| && SpecialMatch(s, c.i).None?
    && c.i > 0 && c.out != [] && Last(c.out) in Special.Values
  }

  /** An iteration leaves the cursor where it was exactly in the spinning state. */
  lemma StallIff(s: string, c: Cursor)
    requires c.i < |s|
    ensures Step(s, c).i == c.i <==> Spins(s, c)
  {
    if !SokuonAt(s, c.i) && !NasalAt(s, c.i) && !YoonAt(s, c.i) && c.i + 2 <= |s| {
      match SpecialMatch(s, c.i)
      case Some(k) =>
        assert Special[k] in Special.Values;
        assert Step(s, c) == Cursor(c.i + |k|, c.out + [Special[k]]);
      case None =>
    }
  }

  /** The base rules never emit a glyph that is in no table. */
  lemma BaseOrVowelAvoids(s: string, c: Cursor, g: string)
    requires c.i < |s| && InNoTable(g)
    ensures BaseOrVowel(s, c).out != c.out + [g]
  {
    var r := BaseOrVowel(s, c);
    if |r.out| == |c.out| + 1 {
      var e := r.out[|c.out|];
      assert (c.out + [g])[|c.out|] == g;
      if s[c.i] in Base {
        var v := if c.i + 1 < |s| && IsVowel(s[c.i + 1]) then s[c.i + 1] else 'u';
        assert e == BaseGlyph(s[c.i], v) && Base[s[c.i]].Holds(e);
      } else {
        assert VowelRow.Holds(e);
      }
    }
  }

  /** Nor do the special search and the base rules after it. */
  lemma SpecialOrBaseAvoids(s: string, c: Cursor, g: string)
    requires c.i < |s| && InNoTable(g)
    ensures SpecialOrBase(s, c).out != c.out + [g]
  {
    if c.i + 2 <= |s| && SpecialMatch(s, c.i).Some? {
      var k := SpecialMatch(s, c.i).value;
      assert Special[k] in Special.Values;
      assert SpecialOrBase(s, c).out == c.out + [Special[k]];
      assert (c.out + [Special[k]])[|c.out|] == Special[k];
    } else {
      BaseOrVowelAvoids(s, c, g);
    }
  }

  /** An iteration emits the sokuon ッ exactly when rule 1 applies. */
  lemma SokuonIff(s: string, c: Cursor)
    requires c.i < |s|
    ensures Step(s, c).out == c.out + ["ッ"] <==> SokuonAt(s, c.i)
  {
    SokuonAndNasalInNoTable();
    if !SokuonAt(s, c.i) {
      if NasalAt(s, c.i) {
        assert (c.out + ["ン"])[|c.out|] == "ン";
      } else if YoonAt(s, c.i) {
        var y := Yoon[s[c.i..c.i + 3]];
        assert y in Yoon.Values;
        assert (c.out + [y])[|c.out|] == y;
      } else {
        SpecialOrBaseAvoids(s, c, "ッ");
      }
    }
  }

  /** An iteration emits the moraic nasal ン exactly when rule 2 applies. */
  lemma NasalIff(s: string, c: Cursor)
    requires c.i < |s|
    ensures Step(s, c).out == c.out + ["ン"] <==> NasalAt(s, c.i)
  {
    SokuonAndNasalInNoTable();
    if SokuonAt(s, c.i) {
      assert (c.out + ["ッ"])[|c.out|] == "ッ";
    } else if !NasalAt(s, c.i) {
      if YoonAt(s, c.i) {
        var y := Yoon[s[c.i..c.i + 3]];
        assert y in Yoon.Values;
        assert (c.out + [y])[|c.out|] == y;
      } else {
        SpecialOrBaseAvoids(s, c, "ン");
      }
    }
  }

  /** The scan from cursor `c` to the end; `None` where the source loop never ends. */
  function ScanFrom(s: string, c: Cursor): (r: Option<seq<string>>)
    requires c.i <= |s|
    ensures r.Some? ==> |c.out| <= |r.value| && r.value[..|c.out|] == c.out
    decreases |s| - c.i
  {
    if c.i == |s| then Some(c.out)
    else
      var next := Step(s, c);
      if next.i == c.i then None
      else ScanFrom(s, next)
  }

  /** `_romaji_to_katakana(token)`, or `None` where it does not return. */
  function Transliterated(token: string): (r: Option<string>)
    ensures r.Some? ==> NoRepeatedBareVowel(r.value)
  {
    match ScanFrom(Lower(token), Cursor(0, []))
    case None => None
    case Some(out) =>
      LongVowelizedNoRepeat(Concat(out));
      Some(LongVowelized(Concat(out)))
  }

  /** The scanner loop as the source runs it, stopping with `None` where the source would spin. */
  method RomajiToKatakana(token: string) returns (r: Option<string>)
    ensures r == Transliterated(token)
  {
    var s := Lower(token);
    var out: seq<string> := [];
    var i := 0;
    while i < |s|
      invariant i <= |s|
      invariant ScanFrom(s, Cursor(i, out)) == ScanFrom(s, Cursor(0, []))
      decreases |s| - i
    {
      var i', out' := ScanIteration(s, i, out);
      if i' == i {
        // nothing changed: every later iteration repeats this one
        return None;
      }
      i, out := i', out';
    }
    var kata := LongVowelize(Concat(out));
    r := Some(kata);
  }

  /**
   * The body of the scanner loop written as statements, proved equal to the
   * function `Step` that specifies it: each `continue` of the source is a
   * return here, with the index and the output list as they stand at that point.
   */
  method ScanIteration(s: string, i0: nat, out0: seq<string>) returns (i: nat, out: seq<string>)
    requires i0 < |s|
    ensures Cursor(i, out) == Step(s, Cursor(i0, out0))
  {
    i, out := i0, out0;
    // sokuon (a doubled consonant other than "n")
    if SokuonAt(s, i) {
      out := out + ["ッ"];
      i := i + 1;
      return;
    }
    // terminal or standalone "n"
    if NasalAt(s, i) {
      out := out + ["ン"];
      i := i + 1;
      return;
    }
    // yoon combinations (3 letters)
    if YoonAt(s, i) {
      out := out + [Yoon[s[i..i + 3]]];
      i := i + 3;
      return;
    }
    i, out := ScanSpecialOrBase(s, i, out);
  }

  /** The rest of the loop body as statements (the special search, then the base rules), proved equal to `SpecialOrBase`. */
  method ScanSpecialOrBase(s: string, i0: nat, out0: seq<string>) returns (i: nat, out: seq<string>)
    requires i0 < |s|
    ensures Cursor(i, out) == SpecialOrBase(s, Cursor(i0, out0))
  {
    i, out := i0, out0;
    // specials (3 letters, then 2)
    if i + 2 <= |s| {
      var found := SpecialMatch(s, i);
      if found.Some? {
        out := out + [Special[found.value]];
        i := i + |found.value|;
        assert out[|out| - 1] in Special.Values;
      }
      if i > 0 && out != [] && out[|out| - 1] in Special.Values {
        return;
      }
      // a match always takes the return above, so nothing has changed
      assert found.None? && i == i0 && out == out0;
    }
    i, out := ScanBaseOrVowel(s, i, out);
  }

  /** The base rules of the loop body as statements, proved equal to `BaseOrVowel`. */
  method ScanBaseOrVowel(s: string, i0: nat, out0: seq<string>) returns (i: nat, out: seq<string>)
    requires i0 < |s|
    ensures Cursor(i, out) == BaseOrVowel(s, Cursor(i0, out0))
  {
    i, out := i0, out0;
    // consonant + vowel, or a bare consonant approximated by its "u" column
    if s[i] in Base {
      var c := s[i];
      if i + 1 < |s| && IsVowel(s[i + 1]) {
        out := out + [BaseGlyph(c, s[i + 1])];
        i := i + 2;
        return;
      } else {
        out := out + [BaseGlyph(c, 'u')];
        i := i + 1;
        return;
      }
    }
    // bare vowel
    if IsVowel(s[i]) {
      out := out + [VowelRow.At(s[i])];
      i := i + 1;
      return;
    }
    // anything else is skipped
    i := i + 1;
  }

  // ---------------------------------------------------------------------------
  // The scanner with the `continue` taken only after a special key matched

  /** Rules 4 to 7 as evidently intended: the `continue` follows a match and nothing else. */
  function SpecialOrBaseIntended(s: string, c: Cursor): (r: Cursor)
    requires c.i < |s|
    ensures c.i < r.i <= c.i + 3 && r.i <= |s|
    ensures |c.out| <= |r.out| <= |c.out| + 1 && r.out[..|c.out|] == c.out
  {
    if c.i + 2 <= |s| then
      match SpecialMatch(s, c.i)
      case Some(k) => Cursor(c.i + |k|, c.out + [Special[k]])
      case None => BaseOrVowel(s, c)
    else BaseOrVowel(s, c)
  }

  /** One iteration of the corrected loop: every iteration consumes at least one letter. */
  function StepIntended(s: string, c: Cursor): (r: Cursor)
    requires c.i < |s|
    ensures c.i < r.i <= c.i + 3 && r.i <= |s|
    ensures |c.out| <= |r.out| <= |c.out| + 1 && r.out[..|c.out|] == c.out
  {
    var i, out := c.i, c.out;
    if SokuonAt(s, i) then Cursor(i + 1, out + ["ッ"])
    else if NasalAt(s, i) then Cursor(i + 1, out + ["ン"])
    else if YoonAt(s, i) then Cursor(i + 3, out + [Yoon[s[i..i + 3]]])
    else SpecialOrBaseIntended(s, c)
  }

  /**
   * The corrected iteration differs from the source's only where the source
   * spins, and there it applies the base rules the source never reaches.
   */
  lemma StepIntendedAgrees(s: string, c: Cursor)
    requires c.i < |s|
    ensures !Spins(s, c) ==> StepIntended(s, c) == Step(s, c)
    ensures Spins(s, c) ==> StepIntended(s, c) == BaseOrVowel(s, c)
  {
    if !SokuonAt(s, c.i) && !NasalAt(s, c.i) && !YoonAt(s, c.i) && c.i + 2 <= |s| {
      match SpecialMatch(s, c.i)
      case Some(k) =>
        assert Special[k] in Special.Values;
      case None =>
    }
  }

  /** The corrected scan from cursor `c` to the end; it always reaches the end. */
  function ScanIntendedFrom(s: string, c: Cursor): (r: seq<string>)
    requires c.i <= |s|
    ensures |c.out| <= |r| && r[..|c.out|] == c.out
    decreases |s| - c.i
  {
    if c.i == |s| then c.out else ScanIntendedFrom(s, StepIntended(s, c))
  }

  /** Wherever the source's scan ends, the corrected scan ends with the same glyphs. */
  lemma {:induction false} ScanIntendedAgrees(s: string, c: Cursor)
    requires c.i <= |s|
    ensures ScanFrom(s, c).Some? ==> ScanFrom(s, c).value == ScanIntendedFrom(s, c)
    decreases |s| - c.i
  {
    if c.i < |s| && ScanFrom(s, c).Some? {
      StallIff(s, c);
      StepIntendedAgrees(s, c);
      ScanIntendedAgrees(s, Step(s, c));
    }
  }

  /** A glyph the scanner can emit: a value of one of the tables, or ッ or ン from rules 1 and 2. */
  predicate TableGlyph(g: string)
  {
    g in Yoon.Values || g in Special.Values || VowelRow.Holds(g)
    || (exists c :: c in Base && Base[c].Holds(g))
    || g == "ッ" || g == "ン"
  }

  predicate AllTableGlyphs(out: seq<string>)
  {
    forall k :: 0 <= k < |out| ==> TableGlyph(out[k])
  }

  /** A character of some glyph the scanner can emit. */
  ghost predicate GlyphChar(ch: char)
  {
    exists g :: TableGlyph(g) && ch in g
  }

  /** The base rules only ever append a grid or vowel-row glyph. */
  lemma BaseOrVowelGlyph(s: string, c: Cursor)
    requires c.i < |s| && AllTableGlyphs(c.out)
    ensures var r := BaseOrVowel(s, c);
      |r.out| == |c.out| + 1 ==>
        VowelRow.Holds(r.out[|c.out|]) || exists b :: b in Base && Base[b].Holds(r.out[|c.out|])
    ensures AllTableGlyphs(BaseOrVowel(s, c).out)
  {
    var r := BaseOrVowel(s, c);
    if |r.out| == |c.out| + 1 {
      var e := r.out[|c.out|];
      if s[c.i] in Base {
        var v := if c.i + 1 < |s| && IsVowel(s[c.i + 1]) then s[c.i + 1] else 'u';
        assert e == BaseGlyph(s[c.i], v) && Base[s[c.i]].Holds(e);
      } else {
        assert VowelRow.Holds(e);
      }
      assert TableGlyph(e);
      assert r.out == c.out + [e];
    } else {
      assert r.out == c.out;
    }
  }

  /** A corrected iteration only ever appends a glyph the scanner can emit. */
  lemma StepIntendedGlyph(s: string, c: Cursor)
    requires c.i < |s| && AllTableGlyphs(c.out)
    ensures AllTableGlyphs(StepIntended(s, c).out)
  {
    var i := c.i;
    if SokuonAt(s, i) || NasalAt(s, i) {
    } else if YoonAt(s, i) {
      assert Yoon[s[i..i + 3]] in Yoon.Values;
    } else if i + 2 <= |s| && SpecialMatch(s, i).Some? {
      assert Special[SpecialMatch(s, i).value] in Special.Values;
    } else {
      BaseOrVowelGlyph(s, c);
    }
  }

  /** Every glyph of the corrected scan is one the tables or rules 1 and 2 provide. */
  lemma {:induction false} ScanIntendedGlyphs(s: string, c: Cursor)
    requires c.i <= |s| && AllTableGlyphs(c.out)
    ensures AllTableGlyphs(ScanIntendedFrom(s, c))
    decreases |s| - c.i
  {
    if c.i < |s| {
      StepIntendedGlyph(s, c);
      ScanIntendedGlyphs(s, StepIntended(s, c));
    }
  }

  /** `_romaji_to_katakana(token)` with the corrected loop. */
  function TransliteratedIntended(token: string): (r: string)
    ensures NoRepeatedBareVowel(r)
  {
    var glyphs := Concat(ScanIntendedFrom(Lower(token), Cursor(0, [])));
    LongVowelizedNoRepeat(glyphs);
    LongVowelized(glyphs)
  }

  /** The corrected transliteration agrees with the source on every token the source returns for. */
  lemma TransliteratedIntendedAgrees(token: string)
    ensures Transliterated(token).Some? ==> Transliterated(token).value == TransliteratedIntended(token)
  {
    ScanIntendedAgrees(Lower(token), Cursor(0, []));
  }

  /** Every character of the corrected transliteration is the long-vowel mark or a character of a glyph the scanner can emit. */
  lemma TransliteratedIntendedAlphabet(token: string)
    ensures forall ch :: ch in TransliteratedIntended(token) ==> ch == 'ー' || GlyphChar(ch)
  {
    var glyphs := ScanIntendedFrom(Lower(token), Cursor(0, []));
    ScanIntendedGlyphs(Lower(token), Cursor(0, []));
    var kata := Concat(glyphs);
    var r := TransliteratedIntended(token);
    assert r == LongVowelized(kata);
    forall ch | ch in r
      ensures ch == 'ー' || GlyphChar(ch)
    {
      var k :| 0 <= k < |r| && r[k] == ch;
      LongVowelizedAt(kata, k);
      if ch != 'ー' {
        assert ch == kata[k];
        ConcatChar(glyphs, k);
        var j :| 0 <= j < |glyphs| && kata[k] in glyphs[j];
        assert TableGlyph(glyphs[j]);
      }
    }
  }

  // ---------------------------------------------------------------------------
  // The long-vowel post-pass

  /** The bare-vowel glyphs that the post-pass contracts. */
  predicate IsBareVowelGlyph(ch: char)
  {
    ch == 'ア' || ch == 'イ' || ch == 'ウ' || ch == 'エ' || ch == 'オ'
  }

  /** No bare-vowel glyph follows an identical one. */
  predicate NoRepeatedBareVowel(s: string)
  {
    forall k :: 0 < k < |s| ==> !(IsBareVowelGlyph(s[k]) && s[k - 1] == s[k])
  }

  /**
   * `_long_vowelize`: a bare-vowel glyph equal to the previous OUTPUT character
   * becomes the long-vowel mark; every other character is kept.
   */
  function LongVowelized(kata: string): (r: string)
    ensures |r| == |kata|
    decreases |kata|
  {
    if kata == [] then []
    else
      var prev := LongVowelized(kata[..|kata| - 1]);
      var ch := kata[|kata| - 1];
      if prev != [] && IsBareVowelGlyph(ch) && prev[|prev| - 1] == ch then prev + ['ー']
      else prev + [ch]
  }

  /** Each output character is its input character, or the mark where that glyph repeats the previous output. */
  lemma {:induction false} LongVowelizedAt(kata: string, k: nat)
    requires k < |kata|
    ensures var r := LongVowelized(kata);
      r[k] == if k > 0 && IsBareVowelGlyph(kata[k]) && r[k - 1] == kata[k] then 'ー' else kata[k]
    decreases |kata|
  {
    var init := kata[..|kata| - 1];
    if k < |init| {
      LongVowelizedAt(init, k);
      assert init[k] == kata[k];
    }
  }

  /** The post-pass leaves no bare vowel directly after an identical one. */
  lemma LongVowelizedNoRepeat(kata: string)
    ensures NoRepeatedBareVowel(LongVowelized(kata))
  {
    forall k | 0 < k < |kata| {
      LongVowelizedAt(kata, k);
    }
  }

  /** The post-pass loop, appending to `result` and reading its last character. */
  method LongVowelize(kata: string) returns (r: string)
    ensures r == LongVowelized(kata)
  {
    var result: seq<char> := [];
    for k := 0 to |kata|
      invariant result == LongVowelized(kata[..k])
    {
      var ch := kata[k];
      assert kata[..k + 1][..k] == kata[..k];
      if result != [] && IsBareVowelGlyph(ch) && result[|result| - 1] == ch {
        result := result + ['ー'];
      } else {
        result := result + [ch];
      }
    }
    assert kata[..|kata|] == kata;
    r := result;
  }

  /** The post-pass changes exactly the strings that hold a repeated bare vowel. */
  lemma {:induction false} LongVowelizedFixpointIff(kata: string)
    ensures LongVowelized(kata) == kata <==> NoRepeatedBareVowel(kata)
    decreases |kata|
  {
    LongVowelizedNoRepeat(kata);
    if kata != [] && NoRepeatedBareVowel(kata) {
      var init := kata[..|kata| - 1];
      assert NoRepeatedBareVowel(init);
      LongVowelizedFixpointIff(init);
      assert kata == init + [kata[|kata| - 1]];
    }
  }

  /** Running the post-pass twice is running it once. */
  lemma LongVowelizedIdempotent(kata: string)
    ensures LongVowelized(LongVowelized(kata)) == LongVowelized(kata)
  {
    LongVowelizedFixpointIff(LongVowelized(kata));
  }

  lemma LongVowelizedExample()
    ensures LongVowelized("アアア") == "アーア"
  {
    assert "アアア"[..2] == "アア" && "アア"[..1] == "ア" && "ア"[..0] == "";
  }
}
