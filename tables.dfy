/**
 * The fixed lexical tables of the name-conversion module, as the source
 * declares them: the yoon digraphs, the special combinations, the
 * consonant-by-vowel grid, the archaic-kana remap and the curated exceptions.
 */
module Tables {
  import opened PyStr

  /** Palatalized consonant + glide + vowel combinations. */
  const Yoon: map<string, string> := map[
    "kya" := "キャ", "kyu" := "キュ", "kyo" := "キョ",
    "gya" := "ギャ", "gyu" := "ギュ", "gyo" := "ギョ",
    "sha" := "シャ", "shu" := "シュ", "sho" := "ショ",
    "ja" := "ジャ", "ju" := "ジュ", "jo" := "ジョ",
    "jya" := "ジャ", "jyu" := "ジュ", "jyo" := "ジョ",
    "cha" := "チャ", "chu" := "チュ", "cho" := "チョ",
    "nya" := "ニャ", "nyu" := "ニュ", "nyo" := "ニョ",
    "hya" := "ヒャ", "hyu" := "ヒュ", "hyo" := "ヒョ",
    "bya" := "ビャ", "byu" := "ビュ", "byo" := "ビョ",
    "pya" := "ピャ", "pyu" := "ピュ", "pyo" := "ピョ",
    "mya" := "ミャ", "myu" := "ミュ", "myo" := "ミョ",
    "rya" := "リャ", "ryu" := "リュ", "ryo" := "リョ"
  ]

  /** Two- and three-letter combinations with a fixed rendering. */
  const Special: map<string, string> := map[
    "shi" := "シ", "chi" := "チ", "tsu" := "ツ",
    "fu" := "フ", "ji" := "ジ", "ti" := "チ", "tu" := "ツ",
    "di" := "ディ", "du" := "ドゥ",
    "wi" := "ウィ", "we" := "ウェ", "wu" := "ウ",
    "va" := "ヴァ", "vi" := "ヴィ", "vu" := "ヴ", "ve" := "ヴェ", "vo" := "ヴォ",
    "fa" := "ファ", "fi" := "フィ", "fe" := "フェ", "fo" := "フォ"
  ]

  /**
   * One row of the consonant-by-vowel grid: the glyphs for the vowel columns
   * a, i, u, e and o. Every row of the source's grid has all five columns.
   */
  datatype Row = Row(a: string, i: string, u: string, e: string, o: string)
  {
    /** The entry in vowel column `v`. */
    function At(v: char): string
      requires IsVowel(v)
    {
      if v == 'a' then a else if v == 'i' then i else if v == 'u' then u else if v == 'e' then e else o
    }

    /** `g` is one of the row's five entries. */
    predicate Holds(g: string)
    {
      g == a || g == i || g == u || g == e || g == o
    }
  }

  /**
   * The grid's bare-vowel row. The source keeps it in the same dictionary as
   * the consonant rows, under the key ""; the scanner looks rows up by a
   * single letter, so that key never clashes with a consonant row and it is
   * kept apart here.
   */
  const VowelRow: Row := Row("ア", "イ", "ウ", "エ", "オ")

  /** The consonant rows of the grid, keyed by their letter. */
  const Base: map<char, Row> := map[
    'k' := Row("カ", "キ", "ク", "ケ", "コ"),
    'g' := Row("ガ", "ギ", "グ", "ゲ", "ゴ"),
    's' := Row("サ", "シ", "ス", "セ", "ソ"),
    'z' := Row("ザ", "ジ", "ズ", "ゼ", "ゾ"),
    't' := Row("タ", "チ", "ツ", "テ", "ト"),
    'd' := Row("ダ", "ヂ", "ヅ", "デ", "ド"),
    'n' := Row("ナ", "ニ", "ヌ", "ネ", "ノ"),
    'h' := Row("ハ", "ヒ", "フ", "ヘ", "ホ"),
    'b' := Row("バ", "ビ", "ブ", "ベ", "ボ"),
    'p' := Row("パ", "ピ", "プ", "ペ", "ポ"),
    'm' := Row("マ", "ミ", "ム", "メ", "モ"),
    'y' := Row("ヤ", "イ", "ユ", "イェ", "ヨ"),
    'r' := Row("ラ", "リ", "ル", "レ", "ロ"),
    'w' := Row("ワ", "ウィ", "ウ", "ウェ", "ヲ"),
    'j' := Row("ジャ", "ジ", "ジュ", "ジェ", "ジョ"),
    'q' := Row("クァ", "クィ", "ク", "クェ", "クォ"),
    'x' := Row("ザ", "クスィ", "クス", "グゼ", "クソ"),
    'c' := Row("カ", "シ", "ク", "セ", "コ"),
    'v' := Row("ヴァ", "ヴィ", "ヴ", "ヴェ", "ヴォ")
  ]

  /** Archaic voiced-w kana and their modern replacements, in the dictionary's order. */
  const OldKanaMap: seq<(char, string)> := [
    ('ヷ', "ヴァ"), ('ヸ', "ヴィ"), ('ヹ', "ヴェ"), ('ヺ', "ヴォ")
  ]

  /** Curated names: folded lower-case key to (katakana, romaji). */
  const Exceptions: map<string, (string, string)> := map[
    "nikita" := ("ニキータ", "Nikita"),
    "evelina" := ("エヴェリーナ", "Everina"),
    "dmitriy" := ("ドミトリー", "Dmitriy"),
    "dmitri" := ("ドミトリー", "Dmitri"),
    "sergey" := ("セルゲイ", "Sergei"),
    "sergei" := ("セルゲイ", "Sergei"),
    "alexey" := ("アレクセイ", "Alexey"),
    "aleksei" := ("アレクセイ", "Aleksei"),
    "mikhail" := ("ミハイル", "Mikhail"),
    "yuliya" := ("ユーリヤ", "Yuliya"),
    "julia" := ("ユリア", "Julia"),
    "maria" := ("マリヤ", "Mariya")
  ]

  /** The five vowel letters the scanner tests against. */
  predicate IsVowel(c: char)
  {
    c == 'a' || c == 'i' || c == 'u' || c == 'e' || c == 'o'
  }

  /**
   * The keys "ja", "ju" and "jo" are the only yoon keys that are not three
   * letters long; the scanner looks the table up with three-letter slices
   * only, so those three entries never match.
   */
  lemma DeadYoonKeys()
    ensures "ja" in Yoon && "ju" in Yoon && "jo" in Yoon
    ensures forall k :: k in Yoon && |k| != 3 ==> k == "ja" || k == "ju" || k == "jo"
  {
  }

  /** No yoon key starts with a doubled letter or with a lone "n". */
  lemma YoonKeyShape(k: string)
    requires k in Yoon && |k| == 3
    ensures k[0] != k[1] && (k[1] == 'y' || k[1] == 'h')
    ensures k[0] == 'n' ==> k[1] == 'y'
  {
  }

  /** Every special key has two or three letters and starts with neither a doubled letter nor "n". */
  lemma SpecialKeyShape(k: string)
    requires k in Special
    ensures 2 <= |k| <= 3 && k[0] != k[1] && k[0] != 'n'
  {
  }

  /** A glyph no table holds: the scanner can only emit it from a rule of its own. */
  predicate InNoTable(g: string)
  {
    g !in Yoon.Values && g !in Special.Values && !VowelRow.Holds(g)
    && forall c :: c in Base ==> !Base[c].Holds(g)
  }

  lemma SokuonNotYoon() ensures "ッ" !in Yoon.Values {}
  lemma SokuonNotSpecial() ensures "ッ" !in Special.Values {}
  lemma NasalNotSpecial() ensures "ン" !in Special.Values {}
  lemma NasalNotYoon() ensures "ン" !in Yoon.Values {}
  lemma SokuonInNoGrid() ensures forall c :: c in Base ==> !Base[c].Holds("ッ") {}
  lemma NasalInNoGrid() ensures forall c :: c in Base ==> !Base[c].Holds("ン") {}

  /** The sokuon ッ and the moraic nasal ン appear in no table. */
  lemma SokuonAndNasalInNoTable()
    ensures InNoTable("ッ") && InNoTable("ン")
  {
    SokuonNotYoon();
    SokuonNotSpecial();
    NasalNotSpecial();
    NasalNotYoon();
    SokuonInNoGrid();
    NasalInNoGrid();
  }

  /** No exception key is empty. */
  lemma ExceptionKeysNonEmpty()
    ensures [] !in Exceptions
  {
  }

  /** Every stored romaji is already in `capitalize()` form. */
  lemma ExceptionRomajiCapitalized(k: string)
    requires k in Exceptions
    ensures Capitalize(Exceptions[k].1) == Exceptions[k].1
  {
    assert IsCapitalized(Exceptions[k].1);
    CapitalizeFixpointIff(Exceptions[k].1);
  }
}
