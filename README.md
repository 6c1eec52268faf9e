# Name conversion: a verified model

This project models the name-conversion module of a chat bot that renders a
personal name, written in Latin or Cyrillic script, as katakana plus a
romanized form. The module is
`src/japan_name_bot/services/name_conversion/__init__.py`. The model covers:

- the static tables: yoon (`_YOON`), specials (`_SPECIAL`), the consonant/vowel
  grid (`_BASE`), archaic kana (`_OLD_KANA_MAP`) and curated exceptions
  (`_EXCEPTIONS`);
- the heuristic romaji-to-katakana scanner (`_romaji_to_katakana`) and its
  long-vowel post-pass (`_long_vowelize`);
- the katakana normalizer applied after the ICU transliterator
  (`_normalize_katakana_after_icu`);
- the exception lookup and the ICU adapters;
- the fallback chain `convert_name`: exceptions, then the name dictionary, then
  the ICU Latin-to-katakana transliterator, then the heuristic scanner.

Modules:

- `Wrappers`: `Option`.
- `PyStr`: the Python `str` built-ins the module relies on (`strip`, `split()`,
  `lower`, `capitalize`, `replace`, `join`, `endswith`, `isspace`).
- `Tables`: the five tables and facts about their keys and values.
- `Scanner`: one loop iteration of `_romaji_to_katakana` as a function `Step`
  on a cursor (position, glyphs emitted so far), the loop as the method
  `RomajiToKatakana`, the corrected scanner, and `_long_vowelize` as the
  method `LongVowelize`. Each method is proved against a specification
  function.
- `ScannerExamples`: worked tokens ("uka", "motto", "aa").
- `Normalizer`: `_normalize_katakana_after_icu` as the method
  `NormalizeKatakanaAfterIcu`, proved against `Normalized`.
- `Conversion`: `_exceptions_lookup`, `_icu_ru_to_latin`, the heuristic
  stage and `convert_name` as pure functions. Every third-party library is a
  field of an `Externals` value: `unidecode`, both ICU transliterators, the
  dictionary's first reading, `jaconv.hira2kata` and the kakasi romanizer.
  Where the source guards a library call (the ICU transliterators, the
  dictionary, `jaconv`), a library that is missing or raises is an adapter
  returning `None`.
- `ConversionExamples`: the name "1" end to end.

## Model

| member | source | states |
|---|---|---|
| Tables.DeadYoonKeys | src/japan_name_bot/services/name_conversion/__init__.py:10-48 | "ja", "ju" and "jo" are the only yoon keys that are not three letters long. The three-letter window at :133-135 can never match them. |
| Tables.YoonKeyShape | src/japan_name_bot/services/name_conversion/__init__.py:10-48 | No three-letter yoon key starts with a doubled letter. A three-letter key starting with "n" continues with "y". So the sokuon and nasal rules never pre-empt a yoon key the three-letter window can match. |
| Tables.SpecialKeyShape | src/japan_name_bot/services/name_conversion/__init__.py:50-72 | Every special key has 2 or 3 letters, does not start with a doubled letter, and does not start with "n". |
| Tables.SokuonAndNasalInNoTable | src/japan_name_bot/services/name_conversion/__init__.py:10-95 | ッ and ン are not values of the yoon, special or base tables. |
| Tables.ExceptionKeysNonEmpty | src/japan_name_bot/services/name_conversion/__init__.py:215-229 | The empty string is not an exception key. |
| Tables.ExceptionRomajiCapitalized | src/japan_name_bot/services/name_conversion/__init__.py:215-229 | Every stored romaji is already in `capitalize()` form. |
| PyStr.Lower | src/japan_name_bot/services/name_conversion/__init__.py:109 | `lower()` keeps the length and lower-cases each character in place. |
| PyStr.Strip | src/japan_name_bot/services/name_conversion/__init__.py:300 | `strip()` leaves no whitespace at either end. |
| PyStr.StripEmptyIff | src/japan_name_bot/services/name_conversion/__init__.py:300-302 | `strip()` gives "" exactly when the string is all whitespace. |
| PyStr.CapitalizeFixpointIff | src/japan_name_bot/services/name_conversion/__init__.py:354 | `capitalize()` leaves a string unchanged iff its first character is not lower-case and no later character is upper-case. |
| PyStr.CapitalizeIdempotent | src/japan_name_bot/services/name_conversion/__init__.py:354 | Capitalizing twice equals capitalizing once. |
| PyStr.SplitWords | src/japan_name_bot/services/name_conversion/__init__.py:342 | Every word `split()` returns is non-empty and holds no whitespace. |
| PyStr.WordMaximal | src/japan_name_bot/services/name_conversion/__init__.py:342 | A word read by `split()` is a prefix of the rest of the string and ends only at the end or at whitespace. |
| PyStr.JoinSplitIsCollapse | src/japan_name_bot/services/name_conversion/__init__.py:342 | The words of `split()`, joined with single spaces, equal the reference `Collapse`: the string trimmed, each inner whitespace run turned into one space. With `SplitWords` this fixes where `split()` breaks. |
| PyStr.SplitKeepsNonSpace | src/japan_name_bot/services/name_conversion/__init__.py:342 | The words of `split()`, joined back, are exactly the non-whitespace characters of the input, in order. |
| Scanner.SpecialMatch | src/japan_name_bot/services/name_conversion/__init__.py:141-148 | The `for length in (3, 2)` search. A hit is a special key that fits in the token, and a two-letter hit means no three-letter key starts there. A miss means neither the two- nor the three-letter window is a key. |
| Scanner.Step | src/japan_name_bot/services/name_conversion/__init__.py:112-178 | One loop iteration advances 0 to 3 letters and appends at most one glyph. It changes nothing exactly when it does not advance. |
| Scanner.SokuonRule | src/japan_name_bot/services/name_conversion/__init__.py:113-122 | A doubled letter other than a vowel or "n" emits ッ and consumes one letter. |
| Scanner.SokuonIff | src/japan_name_bot/services/name_conversion/__init__.py:113-122 | An iteration emits ッ iff the sokuon rule applies at the cursor. |
| Scanner.NasalRule | src/japan_name_bot/services/name_conversion/__init__.py:124-130 | An "n" at the end, or before anything other than a vowel or "y", emits ン and consumes one letter. |
| Scanner.NasalIff | src/japan_name_bot/services/name_conversion/__init__.py:124-130 | An iteration emits ン iff the nasal rule applies at the cursor. |
| Scanner.YoonPriority | src/japan_name_bot/services/name_conversion/__init__.py:132-138 | Wherever a three-letter yoon key starts, the iteration consumes it and emits its glyphs, whatever the earlier rules say. |
| Scanner.SpecialRule | src/japan_name_bot/services/name_conversion/__init__.py:140-152 | Where no yoon key starts and a special key matches, the iteration consumes the key and emits its value. |
| Scanner.StepFallsToBase | src/japan_name_bot/services/name_conversion/__init__.py:154-178 | Where rules 1 to 4 do not fire and the `continue` at :151-152 is not taken (no special value was the last glyph emitted at a position past 0), the iteration is the base rule: consonant+vowel, bare consonant as its "u" column, bare vowel, or skip. |
| Scanner.BaseOrVowel | src/japan_name_bot/services/name_conversion/__init__.py:154-178 | The base rule always advances 1 or 2 letters and appends at most one glyph. |
| Scanner.SpecialOrBase | src/japan_name_bot/services/name_conversion/__init__.py:140-178 | Rules 4 to 7 advance at most 3 letters and append at most one glyph; where they do not advance they change nothing (the `continue` at :151-152 taken without a match). |
| Scanner.StallIff | src/japan_name_bot/services/name_conversion/__init__.py:140-152 | An iteration leaves the cursor unchanged iff no earlier rule fires, no special key matches, and the last glyph emitted is a special value. That is the `continue` at :151-152 taken without a match. |
| Scanner.BaseOrVowelAvoids | src/japan_name_bot/services/name_conversion/__init__.py:154-178 | The base rule never emits a glyph that is in none of the tables, such as ッ or ン. |
| Scanner.SpecialOrBaseAvoids | src/japan_name_bot/services/name_conversion/__init__.py:140-178 | Rules 4 to 7 never emit a glyph that is in none of the tables. |
| Scanner.ScanFrom | src/japan_name_bot/services/name_conversion/__init__.py:112-178 | The loop from a cursor to the end extends the glyphs already emitted. It is `None` exactly where the source loop never ends. |
| Scanner.Transliterated | src/japan_name_bot/services/name_conversion/__init__.py:108-180 | `_romaji_to_katakana` as written, `None` where it never returns. Every reading it returns has no bare vowel directly after the same one. |
| Scanner.RomajiToKatakana | src/japan_name_bot/services/name_conversion/__init__.py:108-180 | The imperative loop returns `Transliterated(token)`. It returns `None` at the iteration where the source would loop forever. |
| Scanner.ScanIteration | src/japan_name_bot/services/name_conversion/__init__.py:113-178 | The loop body as statements computes `Step`. |
| Scanner.ScanSpecialOrBase | src/japan_name_bot/services/name_conversion/__init__.py:140-178 | The special-key search and the base rule as statements compute `SpecialOrBase`. |
| Scanner.ScanBaseOrVowel | src/japan_name_bot/services/name_conversion/__init__.py:154-178 | The base rule as statements computes `BaseOrVowel`. |
| Scanner.StepIntended | src/japan_name_bot/services/name_conversion/__init__.py:112-178 | The corrected iteration always advances, so the corrected loop is total. |
| Scanner.TransliteratedIntended | src/japan_name_bot/services/name_conversion/__init__.py:108-180 | The corrected reading of a token, defined for every token. It has no bare vowel directly after the same one. |
| Scanner.StepIntendedAgrees | src/japan_name_bot/services/name_conversion/__init__.py:140-178 | The corrected iteration equals the source's wherever the source advances. Where the source stalls, it is the base rule. |
| Scanner.ScanIntendedAgrees | src/japan_name_bot/services/name_conversion/__init__.py:112-178 | Wherever the source loop ends, the corrected loop ends with the same glyphs. |
| Scanner.TransliteratedIntendedAgrees | src/japan_name_bot/services/name_conversion/__init__.py:108-180 | The corrected transliteration equals the source's on every token where the source returns. |
| Scanner.BaseOrVowelGlyph | src/japan_name_bot/services/name_conversion/__init__.py:154-178 | The base rule appends only a grid or vowel-row glyph, so it keeps every glyph emitted a table glyph. |
| Scanner.StepIntendedGlyph | src/japan_name_bot/services/name_conversion/__init__.py:112-178 | A corrected iteration appends only ッ, ン, a yoon value, a special value, or a grid or vowel-row glyph. |
| Scanner.ScanIntendedGlyphs | src/japan_name_bot/services/name_conversion/__init__.py:112-178 | Every glyph of the corrected loop's output is one of those. |
| Scanner.TransliteratedIntendedAlphabet | src/japan_name_bot/services/name_conversion/__init__.py:108-180 | Every character of the corrected reading is the long-vowel mark ー or a character of one of those glyphs. |
| Scanner.LongVowelized | src/japan_name_bot/services/name_conversion/__init__.py:98-105 | The long-vowel pass keeps the length. |
| Scanner.LongVowelizedAt | src/japan_name_bot/services/name_conversion/__init__.py:98-105 | Output character k is ー iff input character k is a bare vowel equal to output character k-1. Otherwise it is input character k. |
| Scanner.LongVowelize | src/japan_name_bot/services/name_conversion/__init__.py:98-105 | The loop over characters computes `LongVowelized`. |
| Scanner.LongVowelizedNoRepeat | src/japan_name_bot/services/name_conversion/__init__.py:98-105 | The result never holds a bare-vowel glyph directly after the same glyph. |
| Scanner.LongVowelizedFixpointIff | src/japan_name_bot/services/name_conversion/__init__.py:98-105 | The pass changes nothing iff no bare-vowel glyph directly follows the same glyph. |
| Scanner.LongVowelizedIdempotent | src/japan_name_bot/services/name_conversion/__init__.py:98-105 | Applying the pass twice equals applying it once. |
| Scanner.LongVowelizedExample | src/japan_name_bot/services/name_conversion/__init__.py:98-105 | "アアア" becomes "アーア": each comparison is against the output, not the input. |
| ScannerExamples.UkaSpins | src/japan_name_bot/services/name_conversion/__init__.py:140-152 | On "uka" the source loop never ends, while the corrected loop reads ウカ. |
| ScannerExamples.MottoReads | src/japan_name_bot/services/name_conversion/__init__.py:113-122 | "motto" reads モット: the doubled "t" becomes a sokuon. |
| ScannerExamples.AaReads | src/japan_name_bot/services/name_conversion/__init__.py:98-105 | "aa" reads アー: a repeated bare vowel becomes the long-vowel mark. |
| Normalizer.Modern | src/japan_name_bot/services/name_conversion/__init__.py:185-190 | Each archaic kana maps to ヴ plus a vowel. Every other character maps to itself. |
| Normalizer.Remapped | src/japan_name_bot/services/name_conversion/__init__.py:195-196 | After the replacements no archaic kana is left. |
| Normalizer.SequentialIsPointwise | src/japan_name_bot/services/name_conversion/__init__.py:195-196 | The four `replace` calls in table order equal replacing each character by its modern form. |
| Normalizer.RemappedFree | src/japan_name_bot/services/name_conversion/__init__.py:195-196 | A string without archaic kana is left unchanged. |
| Normalizer.Normalized | src/japan_name_bot/services/name_conversion/__init__.py:193-210 | The specification of the normalizer: the pointwise archaic-kana remap, then the three ending rules in order. Its properties are `NormalizedArchaicFree` and `NormalizedIdempotent`. |
| Normalizer.NormalizeKatakanaAfterIcu | src/japan_name_bot/services/name_conversion/__init__.py:193-210 | The method (replacement loop, then three suffix rules) computes `Normalized`. |
| Normalizer.SuffixRulesExclusive | src/japan_name_bot/services/name_conversion/__init__.py:200-208 | At most one of the three suffix rules fires. The result is the rewrite of the first rule that applies, or the input unchanged. |
| Normalizer.SuffixFixedIdempotent | src/japan_name_bot/services/name_conversion/__init__.py:200-208 | Applying the suffix rules twice equals applying them once. |
| Normalizer.NormalizedArchaicFree | src/japan_name_bot/services/name_conversion/__init__.py:193-210 | The normalizer's output holds no archaic kana. |
| Normalizer.NormalizedIdempotent | src/japan_name_bot/services/name_conversion/__init__.py:193-210 | Normalizing twice with the same query equals normalizing once. |
| Normalizer.MarinaExample | src/japan_name_bot/services/name_conversion/__init__.py:200-202 | マリナ with the query "Marina" becomes マリーナ. |
| Normalizer.VasiliyExample | src/japan_name_bot/services/name_conversion/__init__.py:193-205 | ヷシリイ with the query "Vasiliy" becomes ヴァシリイー. |
| Conversion.ExceptionsLookup | src/japan_name_bot/services/name_conversion/__init__.py:232-234 | A hit happens iff the folded, stripped, lower-cased name is an exception key. A hit returns that key's stored pair. |
| Conversion.IcuRuToLatin | src/japan_name_bot/services/name_conversion/__init__.py:240-248 | The result is the BGN transliteration where ICU answers, and the `unidecode` folding otherwise. |
| Conversion.LatinQuery | src/japan_name_bot/services/name_conversion/__init__.py:310 | The dictionary query is never empty once the folded name is non-empty. |
| Conversion.LatinQueryFallback | src/japan_name_bot/services/name_conversion/__init__.py:310 | The query falls back to the folded name exactly when the transliteration is all whitespace; otherwise it is the transliteration with its ends trimmed. |
| Conversion.Tokens | src/japan_name_bot/services/name_conversion/__init__.py:342 | The list comprehension over `replace("-", " ").split()`. Its token boundaries are stated by `Conversion.TokensSqueezed` and its contents by `Conversion.TokensCoverLetters`. |
| Conversion.TokensSqueezed | src/japan_name_bot/services/name_conversion/__init__.py:342 | The tokens joined with single spaces are the name with separators dropped at both ends and each inner run of whitespace and hyphens turned into one space. So the tokens are exactly the maximal runs between separators. |
| Conversion.TokensCoverLetters | src/japan_name_bot/services/name_conversion/__init__.py:342 | The tokens are non-empty and hold no whitespace. Joined back, they are every character that is neither whitespace nor a hyphen. |
| Conversion.KatakanaTokens | src/japan_name_bot/services/name_conversion/__init__.py:343 | One katakana reading per token, each the corrected scanner's reading of that token (`Scanner.TransliteratedIntended`). That reading equals the source's wherever the source returns (`Conversion.HeuristicMatchesSource`). |
| Conversion.RomanizedTokens | src/japan_name_bot/services/name_conversion/__init__.py:352 | One romanization per katakana token, each of that token alone. |
| Conversion.HeuristicStage | src/japan_name_bot/services/name_conversion/__init__.py:341-354 | Step 3: the corrected scanner's reading (`Scanner.TransliteratedIntended`) per token, joined with single spaces, and the per-token romaji. That reading equals the source's wherever the source returns (`Conversion.HeuristicMatchesSource`). Its romaji is always in `capitalize()` form. |
| Conversion.ConvertName | src/japan_name_bot/services/name_conversion/__init__.py:299-354 | The fallback chain: empty input, exceptions, dictionary, transliterator, heuristic. Each path is stated by the lemmas `EmptyInput`, `ExceptionShortCircuits`, `DictionaryPath`, `TransliteratorPath` and `HeuristicPath` below. |
| Conversion.EmptyInput | src/japan_name_bot/services/name_conversion/__init__.py:300-302 | A name that folds to whitespace only gives ("", ""). |
| Conversion.ExceptionShortCircuits | src/japan_name_bot/services/name_conversion/__init__.py:304-307 | An exception hit is returned verbatim before any later stage, whatever the other libraries do. |
| Conversion.ExceptionFoldInsensitive | src/japan_name_bot/services/name_conversion/__init__.py:304-307 | Two spellings with the same exception key give the same result. |
| Conversion.DictionaryPath | src/japan_name_bot/services/name_conversion/__init__.py:311-327 | A non-empty dictionary reading is returned after kana conversion only, without the normalizer, and the romaji is read from it. |
| Conversion.TransliteratorPath | src/japan_name_bot/services/name_conversion/__init__.py:329-339 | A transliterator hit is returned normalized: no archaic kana, a fixpoint of the normalizer, and the romaji read from the returned katakana. |
| Conversion.HeuristicPath | src/japan_name_bot/services/name_conversion/__init__.py:341-354 | When every other stage misses, the katakana is the corrected scanner's reading of each token, joined by single spaces. That reading equals the source's wherever the source returns (`Conversion.HeuristicMatchesSource`). The romaji is each katakana token romanized on its own, joined by single spaces, then capitalized. |
| Conversion.RomajiCapitalized | src/japan_name_bot/services/name_conversion/__init__.py:299-354 | Whichever stage answers, the romaji is in `capitalize()` form. |
| Conversion.HeuristicMatchesSource | src/japan_name_bot/services/name_conversion/__init__.py:343 | The heuristic stage's reading equals the source scanner's on every token where that scanner returns. |
| ConversionExamples.DigitNameEmptyKatakana | src/japan_name_bot/services/name_conversion/__init__.py:299-354 | With every library adapter missing, the name "1" gives empty katakana. |

## Left out

- The library internals are uninterpreted parameters of `Conversion.Externals`: `unidecode`, the ICU transliterators, the name dictionary (`_lookup_katakana_in_jamdict` with `_get_jamdict`), `jaconv.hira2kata` and the kakasi romanizer. The model states what the module does with their answers, not what the answers are. The dictionary adapter stands for the first non-empty `reb` met while going through the name entries in order (:288-295), or `None` when there is none, when the dictionary is missing, or when the lookup raises.
- The cached dictionary instance of `_get_jamdict` is module-level state that only saves work. It is not modelled.
- Exceptions from the guarded calls (:243-247, :253-257, :281-284, :315-320) are adapters returning `None`, as the source catches them there.
- `unidecode` (:233, :242, :247, :300) and every kakasi call (:321-326, :333-338, :347-352) are outside any `try`, so an exception they raise propagates out of `convert_name`. The model makes `Externals.unidecode` and `Externals.romanize` total functions and does not capture that failure.
- PyStr.Lower: lower-cases ASCII letters only. The scanner compares its input only against ASCII letters, and the exception keys are ASCII. Lower-casing of other scripts is not modelled.
- PyStr.Capitalize: changes the case of ASCII letters only. The romanizer's output is ASCII.
- `isalpha` is modelled on ASCII letters only. A non-ASCII letter doubled in a token is not treated as a sokuon.
- The source's scanner can loop forever (see Findings). It is modelled as written in `Scanner.ScanFrom`, `Scanner.Transliterated` and `Scanner.RomajiToKatakana`, where `None` marks non-termination. `Conversion.ConvertName` uses the corrected scanner, which agrees with the source wherever the source returns (`Conversion.HeuristicMatchesSource`).
- Behaviours of the code a reader may not expect, which the model keeps:
  - a dictionary hit is not passed through the katakana normalizer (:311-327);
  - a non-empty name can give empty katakana: a name of digits or punctuation reaches the scanner, which skips non-letters (`ConversionExamples.DigitNameEmptyKatakana`);
  - `capitalize()` also lower-cases every later character;
  - the long-vowel pass compares each vowel with the previous output character, so "アアア" becomes "アーア", not "アーー".

## Findings

| source | as written | input that shows it | evidently intended | confidence | as-written member | corrected member |
|---|---|---|---|---|---|---|
| src/japan_name_bot/services/name_conversion/__init__.py:140-152 | After the special-key search, the loop takes `continue` whenever the last glyph emitted is any special value, even when no special key matched at this position. `i` is then unchanged and the loop repeats forever. | "uka": ウ (also the value of "wu") is emitted, then "ka" has no special key, so the loop spins at "k". | `continue` only after a special key matched; otherwise fall through to the base rule, which reads "uka" as ウカ. | not executed | ScannerExamples.UkaSpins | Scanner.TransliteratedIntended |
