/**
 * `convert_name`: the fallback chain from a raw name to a (katakana, romaji)
 * pair, and `_exceptions_lookup`, the curated table consulted first.
 *
 * The libraries the source calls (the ASCII folder, the ICU transliterators,
 * the name dictionary, the hiragana-to-katakana converter and the kana
 * romanizer) are parameters: an `Externals` value holds one function for
 * each. A library that is missing or raises is an adapter returning `None`.
 */
module Conversion {
  import opened Wrappers
  import opened PyStr
  import opened Tables
  import opened Scanner
  import opened Normalizer

  datatype Externals = Externals(
    /** `unidecode`: ASCII folding. */
    unidecode: string -> string,
    /** The ICU "Russian-Latin/BGN" transliterator; `None` when ICU is missing or raises. */
    icuRussianLatin: string -> Option<string>,
    /** The first non-empty reading of the dictionary's name entries; `None` on no match or any failure. */
    dictionaryReading: string -> Option<string>,
    /** `jaconv.hira2kata`; `None` when the import or the call raises. */
    hiraganaToKatakana: string -> Option<string>,
    /** The ICU "Latin-Katakana" transliterator; `None` when ICU is missing or raises. */
    icuLatinKatakana: string -> Option<string>,
    /** The kana romanizer with every script mode set to ASCII. */
    romanize: string -> string
  )

  /** The key the exception table is looked up by: the name folded, trimmed and lower-cased. */
  function ExceptionKey(name: string, unidecode: string -> string): string
  {
    Lower(Strip(unidecode(name)))
  }

  /** `_exceptions_lookup(name)`. */
  function ExceptionsLookup(name: string, unidecode: string -> string): (r: Option<(string, string)>)
    ensures r.Some? <==> ExceptionKey(name, unidecode) in Exceptions
    ensures r.Some? ==> r.value == Exceptions[ExceptionKey(name, unidecode)]
  {
    var key := ExceptionKey(name, unidecode);
    if key in Exceptions then Some(Exceptions[key]) else None
  }

  /** `_icu_ru_to_latin(text)`: the BGN romanization, or the ASCII folding where ICU fails. */
  function IcuRuToLatin(text: string, ext: Externals): (r: string)
    ensures ext.icuRussianLatin(text).None? ==> r == ext.unidecode(text)
    ensures ext.icuRussianLatin(text).Some? ==> r == ext.icuRussianLatin(text).value
  {
    match ext.icuRussianLatin(text)
    case Some(t) => t
    case None => ext.unidecode(text)
  }

  /** `_icu_ru_to_latin(name).strip() or ascii_name`. */
  function LatinQuery(name: string, asciiName: string, ext: Externals): (r: string)
    ensures asciiName != [] ==> r != []
  {
    var q := Strip(IcuRuToLatin(name, ext));
    if q != [] then q else asciiName
  }

  /**
   * The `or` falls back to the folded name exactly when the transliteration
   * is all whitespace; otherwise the query is the transliteration, trimmed.
   */
  lemma LatinQueryFallback(name: string, asciiName: string, ext: Externals)
    ensures var t := IcuRuToLatin(name, ext);
      LatinQuery(name, asciiName, ext)
        == if forall k :: 0 <= k < |t| ==> IsSpace(t[k]) then asciiName else Strip(t)
  {
    StripEmptyIff(IcuRuToLatin(name, ext));
  }

  // ---------------------------------------------------------------------------
  // The heuristic stage

  /** Whitespace or a hyphen: what separates the tokens of the heuristic stage. */
  predicate IsSeparator(c: char)
  {
    IsSpace(c) || c == '-'
  }

  /** The characters of `s` other than separators, in order. */
  function Letters(s: string): string
  {
    if s == [] then [] else (if IsSeparator(s[0]) then [] else [s[0]]) + Letters(s[1..])
  }

  /** `[t for t in ascii_name.replace("-", " ").split() if t]`. */
  function Tokens(asciiName: string): seq<string>
  {
    Split(Replace(asciiName, '-', " "))
  }

  lemma {:induction false} NonSpaceOfReplaced(s: string)
    ensures NonSpace(Replace(s, '-', " ")) == Letters(s)
  {
    if s != [] {
      NonSpaceOfReplaced(s[1..]);
      var head := if s[0] == '-' then " " else [s[0]];
      assert Replace(s, '-', " ") == head + Replace(s[1..], '-', " ");
      NonSpaceAppendHead(head, Replace(s[1..], '-', " "));
    }
  }

  lemma NonSpaceAppendHead(head: string, rest: string)
    requires |head| == 1
    ensures NonSpace(head + rest) == (if IsSpace(head[0]) then [] else head) + NonSpace(rest)
  {
    assert (head + rest)[1..] == rest;
  }

  /** The tokens are non-empty, hold no whitespace, and joined back give every non-separator character. */
  lemma TokensCoverLetters(asciiName: string)
    ensures AllWords(Tokens(asciiName))
    ensures Concat(Tokens(asciiName)) == Letters(asciiName)
  {
    SplitWords(Replace(asciiName, '-', " "));
    SplitKeepsNonSpace(Replace(asciiName, '-', " "));
    NonSpaceOfReplaced(asciiName);
  }

  lemma {:induction false} SqueezedReplaced(a: string, started: bool, pending: bool)
    ensures Squeezed(Replace(a, '-', " "), IsSpace, started, pending) == Squeezed(a, IsSeparator, started, pending)
  {
    if a != [] {
      var head: string := if a[0] == '-' then " " else [a[0]];
      var rest := Replace(a[1..], '-', " ");
      assert Replace(a, '-', " ") == head + rest;
      assert (head + rest)[0] == head[0] && (head + rest)[1..] == rest;
      assert IsSpace(head[0]) == IsSeparator(a[0]);
      if IsSeparator(a[0]) {
        SqueezedReplaced(a[1..], started, started);
      } else {
        SqueezedReplaced(a[1..], true, false);
      }
    }
  }

  /**
   * The tokens read back with single spaces are the name with every run of
   * whitespace and hyphens turned into one space and none at either end: the
   * tokens are exactly the maximal runs between separators.
   */
  lemma TokensSqueezed(asciiName: string)
    ensures Join(" ", Tokens(asciiName)) == Squeezed(asciiName, IsSeparator, false, false)
  {
    JoinSplitIsCollapse(Replace(asciiName, '-', " "));
    SqueezedReplaced(asciiName, false, false);
  }

  /** Each token read by the corrected scanner, with the `continue` taken only after a special key. */
  function KatakanaTokens(tokens: seq<string>): (r: seq<string>)
    ensures |r| == |tokens|
    ensures forall k :: 0 <= k < |tokens| ==> r[k] == TransliteratedIntended(tokens[k])
  {
    if tokens == [] then []
    else [TransliteratedIntended(tokens[0])] + KatakanaTokens(tokens[1..])
  }

  /** Each katakana token romanized on its own. */
  function RomanizedTokens(kataTokens: seq<string>, romanize: string -> string): (r: seq<string>)
    ensures |r| == |kataTokens|
    ensures forall k :: 0 <= k < |kataTokens| ==> r[k] == romanize(kataTokens[k])
  {
    if kataTokens == [] then []
    else [romanize(kataTokens[0])] + RomanizedTokens(kataTokens[1..], romanize)
  }

  /**
   * Step 3 of `convert_name`: the corrected scanner per token, joined with
   * single spaces; `HeuristicMatchesSource` ties it to the source's scanner.
   */
  function HeuristicStage(asciiName: string, romanize: string -> string): (r: (string, string))
    ensures Capitalize(r.1) == r.1
  {
    var kataTokens := KatakanaTokens(Tokens(asciiName));
    var katakana := Join(" ", kataTokens);
    var romaji := if kataTokens != [] then Join(" ", RomanizedTokens(kataTokens, romanize)) else "";
    CapitalizeIdempotent(romaji);
    (katakana, Capitalize(romaji))
  }

  // ---------------------------------------------------------------------------
  // The fallback chain

  /** The dictionary reading the source treats as a hit: a non-empty one. */
  function DictionaryHit(latinQuery: string, ext: Externals): Option<string>
  {
    match ext.dictionaryReading(latinQuery)
    case Some(reading) => if reading != [] then Some(reading) else None
    case None => None
  }

  /** The transliterator output the source treats as a hit: a non-empty one. */
  function TransliteratorHit(latinQuery: string, ext: Externals): Option<string>
  {
    match ext.icuLatinKatakana(latinQuery)
    case Some(kata) => if kata != [] then Some(kata) else None
    case None => None
  }

  /** The dictionary reading converted to katakana, or kept as it is where the converter fails. */
  function AsKatakana(reading: string, ext: Externals): string
  {
    match ext.hiraganaToKatakana(reading)
    case Some(kata) => kata
    case None => reading
  }

  /** `convert_name(name)`. */
  function ConvertName(name: string, ext: Externals): (string, string)
  {
    var asciiName := Strip(ext.unidecode(name));
    if asciiName == [] then ("", "")
    else
      match ExceptionsLookup(name, ext.unidecode)
      case Some(pair) => pair
      case None =>
        var latinQuery := LatinQuery(name, asciiName, ext);
        match DictionaryHit(latinQuery, ext)
        case Some(reading) =>
          var kata := AsKatakana(reading, ext);
          (kata, Capitalize(ext.romanize(kata)))
        case None =>
          match TransliteratorHit(latinQuery, ext)
          case Some(icuKata) =>
            var kata := Normalized(icuKata, latinQuery);
            (kata, Capitalize(ext.romanize(kata)))
          case None => HeuristicStage(asciiName, ext.romanize)
  }

  // ---------------------------------------------------------------------------
  // Properties of the chain

  /** A name that folds to nothing, or to whitespace only, gives ("", ""). */
  lemma EmptyInput(name: string, ext: Externals)
    requires forall k :: 0 <= k < |ext.unidecode(name)| ==> IsSpace(ext.unidecode(name)[k])
    ensures ConvertName(name, ext) == ("", "")
  {
    StripEmptyIff(ext.unidecode(name));
  }

  /**
   * An exception hit is returned verbatim, before every other stage: the
   * result depends on the ASCII folder alone, not on any other library.
   */
  lemma ExceptionShortCircuits(name: string, ext: Externals)
    requires ExceptionKey(name, ext.unidecode) in Exceptions
    ensures ConvertName(name, ext) == Exceptions[ExceptionKey(name, ext.unidecode)]
  {
    ExceptionKeysNonEmpty();
    var folded := Strip(ext.unidecode(name));
    assert |Lower(folded)| == |folded|;
    assert folded != [];
  }

  /** Two spellings that fold to the same exception key give the same pair. */
  lemma ExceptionFoldInsensitive(name1: string, name2: string, ext: Externals)
    requires ExceptionKey(name1, ext.unidecode) == ExceptionKey(name2, ext.unidecode)
    requires ExceptionKey(name1, ext.unidecode) in Exceptions
    ensures ConvertName(name1, ext) == ConvertName(name2, ext)
  {
    ExceptionShortCircuits(name1, ext);
    ExceptionShortCircuits(name2, ext);
  }

  /** A dictionary hit is returned without the katakana normalizer, romanized as returned. */
  lemma DictionaryPath(name: string, ext: Externals)
    requires Strip(ext.unidecode(name)) != []
    requires ExceptionKey(name, ext.unidecode) !in Exceptions
    requires DictionaryHit(LatinQuery(name, Strip(ext.unidecode(name)), ext), ext).Some?
    ensures var reading := DictionaryHit(LatinQuery(name, Strip(ext.unidecode(name)), ext), ext).value;
      var kata := AsKatakana(reading, ext);
      ConvertName(name, ext) == (kata, Capitalize(ext.romanize(kata)))
  {
  }

  /**
   * Where the dictionary misses and the transliterator answers, the katakana
   * is the normalized transliteration: it holds no archaic kana, a second
   * normalization would not change it, and the romaji is read from it.
   */
  lemma TransliteratorPath(name: string, ext: Externals)
    requires Strip(ext.unidecode(name)) != []
    requires ExceptionKey(name, ext.unidecode) !in Exceptions
    requires DictionaryHit(LatinQuery(name, Strip(ext.unidecode(name)), ext), ext).None?
    requires TransliteratorHit(LatinQuery(name, Strip(ext.unidecode(name)), ext), ext).Some?
    ensures var q := LatinQuery(name, Strip(ext.unidecode(name)), ext);
      var kata := ConvertName(name, ext).0;
      kata == Normalized(TransliteratorHit(q, ext).value, q)
      && ArchaicFree(kata) && Normalized(kata, q) == kata
      && ConvertName(name, ext).1 == Capitalize(ext.romanize(kata))
  {
    var q := LatinQuery(name, Strip(ext.unidecode(name)), ext);
    var icuKata := TransliteratorHit(q, ext).value;
    NormalizedArchaicFree(icuKata, q);
    NormalizedIdempotent(icuKata, q);
  }

  /**
   * Where every other stage fails, the katakana is the corrected scanner's
   * reading of each token (equal to the source's wherever that returns, by
   * `HeuristicMatchesSource`), joined by spaces, and the romaji is each
   * katakana token romanized on its own, joined by spaces and capitalized.
   */
  lemma HeuristicPath(name: string, ext: Externals)
    requires Strip(ext.unidecode(name)) != []
    requires ExceptionKey(name, ext.unidecode) !in Exceptions
    requires DictionaryHit(LatinQuery(name, Strip(ext.unidecode(name)), ext), ext).None?
    requires TransliteratorHit(LatinQuery(name, Strip(ext.unidecode(name)), ext), ext).None?
    ensures var tokens := Tokens(Strip(ext.unidecode(name)));
      ConvertName(name, ext).0 == Join(" ", KatakanaTokens(tokens))
    ensures var kataTokens := KatakanaTokens(Tokens(Strip(ext.unidecode(name))));
      ConvertName(name, ext).1 == Capitalize(Join(" ", RomanizedTokens(kataTokens, ext.romanize)))
  {
    var kataTokens := KatakanaTokens(Tokens(Strip(ext.unidecode(name))));
    assert kataTokens == [] ==> RomanizedTokens(kataTokens, ext.romanize) == [];
  }

  /** The romaji of every result is in `capitalize()` form, whichever stage produced it. */
  lemma RomajiCapitalized(name: string, ext: Externals)
    ensures Capitalize(ConvertName(name, ext).1) == ConvertName(name, ext).1
  {
    var asciiName := Strip(ext.unidecode(name));
    if asciiName != [] {
      match ExceptionsLookup(name, ext.unidecode)
      case Some(pair) =>
        ExceptionRomajiCapitalized(ExceptionKey(name, ext.unidecode));
      case None =>
        var q := LatinQuery(name, asciiName, ext);
        match DictionaryHit(q, ext)
        case Some(reading) =>
          CapitalizeIdempotent(ext.romanize(AsKatakana(reading, ext)));
        case None =>
          match TransliteratorHit(q, ext)
          case Some(icuKata) =>
            CapitalizeIdempotent(ext.romanize(Normalized(icuKata, q)));
          case None =>
            // `HeuristicStage` states that its romaji is capitalized.
    }
  }

  /**
   * The heuristic stage agrees with the source's scanner on every token for
   * which the source's loop ends.
   */
  lemma HeuristicMatchesSource(tokens: seq<string>, k: nat)
    requires k < |tokens| && Transliterated(tokens[k]).Some?
    ensures KatakanaTokens(tokens)[k] == Transliterated(tokens[k]).value
  {
    TransliteratedIntendedAgrees(tokens[k]);
  }
}

/** A worked name for the fallback chain. */
module ConversionExamples {
  import opened Wrappers
  import opened PyStr
  import opened Tables
  import opened Scanner
  import opened Conversion

  /** A token of one digit: the corrected scanner skips it and reads nothing. */
  lemma DigitReadsNothing(s: string)
    requires s == "1"
    ensures TransliteratedIntended(s) == ""
  {
    assert Lower(s) == s;
    assert ScanIntendedFrom(s, Cursor(0, [])) == [];
  }

  lemma DigitTokens(s: string)
    requires s == "1"
    ensures Tokens(s) == ["1"]
  {
    assert Replace(s, '-', " ") == s;
    assert StripLeft(s) == s && Word(s) == s;
    assert StripLeft(s[1..]) == [];
  }

  lemma OneNotExceptionKey()
    ensures "1" !in Exceptions
  {
  }

  lemma SingleCharStrip(s: string)
    requires |s| == 1 && !IsSpace(s[0])
    ensures Strip(s) == s
  {
    assert StripLeft(s) == s;
  }

  lemma SingleCharLower(s: string)
    requires |s| == 1 && !('A' <= s[0] <= 'Z')
    ensures Lower(s) == s
  {
  }

  lemma DigitKey(s: string, unidecode: string -> string)
    requires |s| == 1 && s[0] == '1' && unidecode(s) == s
    ensures ExceptionKey(s, unidecode) == s
  {
    SingleCharStrip(s);
    SingleCharLower(s);
  }

  lemma DigitNotException(s: string, unidecode: string -> string)
    requires s == "1" && unidecode(s) == s
    ensures ExceptionsLookup(s, unidecode) == None
  {
    DigitKey(s, unidecode);
    OneNotExceptionKey();
    assert ExceptionKey(s, unidecode) !in Exceptions;
  }

  lemma DigitReachesScanner(s: string, ext: Externals)
    requires s == "1" && ext.unidecode(s) == s
    requires ext.icuRussianLatin(s).None? && ext.dictionaryReading(s).None? && ext.icuLatinKatakana(s).None?
    ensures ConvertName(s, ext) == HeuristicStage(s, ext.romanize)
  {
    SingleCharStrip(s);
    DigitNotException(s, ext.unidecode);
    assert LatinQuery(s, s, ext) == s;
  }

  lemma DigitHeuristic(s: string, romanize: string -> string)
    requires s == "1"
    ensures HeuristicStage(s, romanize).0 == ""
  {
    DigitTokens(s);
    DigitReadsNothing(s);
    assert KatakanaTokens(["1"]) == [""];
  }

  /**
   * The name "1", with every library adapter unavailable, is not in the
   * exception table and reaches the corrected scanner, which reads nothing: the
   * katakana is empty although the name is not.
   */
  lemma DigitNameEmptyKatakana(ext: Externals)
    requires ext.unidecode("1") == "1"
    requires ext.icuRussianLatin("1").None? && ext.dictionaryReading("1").None? && ext.icuLatinKatakana("1").None?
    ensures ConvertName("1", ext).0 == ""
  {
    DigitReachesScanner("1", ext);
    DigitHeuristic("1", ext.romanize);
  }
}
