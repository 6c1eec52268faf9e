/**
 * The Python `str` built-ins the conversion module relies on: `isspace`,
 * `strip`, `split()`, `lower`, `capitalize`, `replace`, `join` and `endswith`.
 * Case mapping is modelled on ASCII letters only; every other character is
 * left as it is.
 */
module PyStr {

  /** Python's `str.isspace` for one character. */
  predicate IsSpace(c: char)
  {
    c == ' ' || ('\t' <= c <= '\r') || ('\U{1c}' <= c <= '\U{1f}') ||
    c == '\U{85}' || c == '\U{a0}' || c == '\U{1680}' || ('\U{2000}' <= c <= '\U{200a}') ||
    c == '\U{2028}' || c == '\U{2029}' || c == '\U{202f}' || c == '\U{205f}' || c == '\U{3000}'
  }

  /** `str.isalpha` on the ASCII range the scanner sees. */
  predicate IsAlpha(c: char)
  {
    'a' <= c <= 'z' || 'A' <= c <= 'Z'
  }

  function LowerChar(c: char): char
  {
    if 'A' <= c <= 'Z' then (c as int + 32) as char else c
  }

  function UpperChar(c: char): char
  {
    if 'a' <= c <= 'z' then (c as int - 32) as char else c
  }

  /** `str.lower`. */
  function Lower(s: string): (r: string)
    ensures |r| == |s|
    ensures forall k :: 0 <= k < |s| ==> r[k] == LowerChar(s[k])
  {
    if s == [] then [] else [LowerChar(s[0])] + Lower(s[1..])
  }

  /** `str.capitalize`: the first character upper-cased, all others lower-cased. */
  function Capitalize(s: string): (r: string)
    ensures |r| == |s|
  {
    if s == [] then [] else [UpperChar(s[0])] + Lower(s[1..])
  }

  /** Already in `capitalize()` form: no lower-case first letter, no upper-case letter after it. */
  predicate IsCapitalized(s: string)
  {
    (s == [] || !('a' <= s[0] <= 'z')) && forall k :: 1 <= k < |s| ==> !('A' <= s[k] <= 'Z')
  }

  lemma LowerNoUpper(s: string)
    requires forall k :: 0 <= k < |s| ==> !('A' <= s[k] <= 'Z')
    ensures Lower(s) == s
  {
  }

  /** `capitalize()` changes exactly the strings that are not in capitalized form. */
  lemma CapitalizeFixpointIff(s: string)
    ensures Capitalize(s) == s <==> IsCapitalized(s)
  {
    if s != [] {
      if IsCapitalized(s) {
        LowerNoUpper(s[1..]);
      }
      if Capitalize(s) == s {
        assert UpperChar(s[0]) == s[0];
        forall k | 1 <= k < |s| ensures !('A' <= s[k] <= 'Z') {
          assert s[k] == Lower(s[1..])[k - 1];
        }
      }
    }
  }

  /** Capitalizing twice is capitalizing once. */
  lemma CapitalizeIdempotent(s: string)
    ensures Capitalize(Capitalize(s)) == Capitalize(s)
  {
    if s != [] {
      var r := Capitalize(s);
      assert r[1..] == Lower(s[1..]);
      assert Lower(r[1..]) == r[1..];
    }
  }

  /** The leading run of whitespace removed. */
  function StripLeft(s: string): (r: string)
    ensures |r| <= |s| && r == s[|s| - |r|..]
    ensures r == [] || !IsSpace(r[0])
    ensures forall k :: 0 <= k < |s| - |r| ==> IsSpace(s[k])
  {
    if s != [] && IsSpace(s[0]) then StripLeft(s[1..]) else s
  }

  /** The trailing run of whitespace removed. */
  function StripRight(s: string): (r: string)
    ensures |r| <= |s| && r == s[..|r|]
    ensures r == [] || !IsSpace(r[|r| - 1])
    ensures forall k :: |r| <= k < |s| ==> IsSpace(s[k])
  {
    if s != [] && IsSpace(s[|s| - 1]) then StripRight(s[..|s| - 1]) else s
  }

  /** `str.strip()` with no argument. */
  function Strip(s: string): (r: string)
    ensures r == [] || (!IsSpace(r[0]) && !IsSpace(r[|r| - 1]))
  {
    StripRight(StripLeft(s))
  }

  /** `strip()` leaves nothing exactly when the string is all whitespace. */
  lemma StripEmptyIff(s: string)
    ensures Strip(s) == [] <==> forall k :: 0 <= k < |s| ==> IsSpace(s[k])
  {
    var l := StripLeft(s);
    if l != [] {
      assert l[0] == s[|s| - |l|];
    }
  }

  /** The longest prefix of `s` holding no whitespace. */
  function Word(s: string): (r: string)
    ensures |r| <= |s|
    ensures s != [] && !IsSpace(s[0]) ==> r != []
  {
    if s == [] || IsSpace(s[0]) then [] else [s[0]] + Word(s[1..])
  }

  predicate NoSpace(s: string)
  {
    forall k :: 0 <= k < |s| ==> !IsSpace(s[k])
  }

  /** The characters of `s` that are not whitespace, in order. */
  function NonSpace(s: string): string
  {
    if s == [] then [] else (if IsSpace(s[0]) then [] else [s[0]]) + NonSpace(s[1..])
  }

  function Concat(parts: seq<string>): string
  {
    if parts == [] then [] else parts[0] + Concat(parts[1..])
  }

  /** Each character of a concatenation is a character of one of its parts. */
  lemma {:induction false} ConcatChar(parts: seq<string>, k: nat)
    requires k < |Concat(parts)|
    ensures exists j :: 0 <= j < |parts| && Concat(parts)[k] in parts[j]
    decreases |parts|
  {
    if k < |parts[0]| {
      assert Concat(parts)[k] == parts[0][k];
    } else {
      ConcatChar(parts[1..], k - |parts[0]|);
      var j :| 0 <= j < |parts[1..]| && Concat(parts[1..])[k - |parts[0]|] in parts[1..][j];
      assert parts[1..][j] == parts[j + 1];
    }
  }

  /** `str.split()` with no argument: the maximal whitespace-free runs, none empty. */
  function Split(s: string): seq<string>
    decreases |s|
  {
    var t := StripLeft(s);
    if t == [] then []
    else
      var w := Word(t);
      [w] + Split(t[|w|..])
  }

  /** A list of words: each one non-empty and free of whitespace. */
  predicate AllWords(r: seq<string>)
  {
    forall k :: 0 <= k < |r| ==> r[k] != [] && NoSpace(r[k])
  }

  lemma {:induction false} WordNoSpace(s: string)
    ensures NoSpace(Word(s))
  {
    if s != [] && !IsSpace(s[0]) {
      WordNoSpace(s[1..]);
      assert Word(s) == [s[0]] + Word(s[1..]);
    }
  }

  /** Every word `Split` returns is non-empty and free of whitespace. */
  lemma {:induction false} SplitWords(s: string)
    ensures AllWords(Split(s))
    decreases |s|
  {
    var t := StripLeft(s);
    if t != [] {
      var w := Word(t);
      var rest := Split(t[|w|..]);
      SplitWords(t[|w|..]);
      WordNoSpace(t);
      assert Split(s) == [w] + rest;
      forall k | 0 <= k < |[w] + rest|
        ensures ([w] + rest)[k] != [] && NoSpace(([w] + rest)[k])
      {
        if k > 0 {
          assert ([w] + rest)[k] == rest[k - 1];
        }
      }
    }
  }

  lemma {:induction false} StripLeftNonSpace(s: string)
    ensures NonSpace(StripLeft(s)) == NonSpace(s)
  {
    if s != [] && IsSpace(s[0]) {
      StripLeftNonSpace(s[1..]);
    }
  }

  lemma {:induction false} WordNonSpace(t: string)
    ensures NonSpace(t) == Word(t) + NonSpace(t[|Word(t)|..])
  {
    if t != [] && !IsSpace(t[0]) {
      var w' := Word(t[1..]);
      WordNonSpace(t[1..]);
      assert Word(t) == [t[0]] + w';
      assert NonSpace(t) == [t[0]] + NonSpace(t[1..]);
      assert t[|Word(t)|..] == t[1..][|w'|..];
    }
  }

  /** Splitting loses only the whitespace: the words joined back are the non-space characters. */
  lemma {:induction false} SplitKeepsNonSpace(s: string)
    ensures Concat(Split(s)) == NonSpace(s)
    decreases |s|
  {
    var t := StripLeft(s);
    StripLeftNonSpace(s);
    if t != [] {
      var w := Word(t);
      WordNonSpace(t);
      SplitKeepsNonSpace(t[|w|..]);
      assert Split(s) == [w] + Split(t[|w|..]);
      assert ([w] + Split(t[|w|..]))[1..] == Split(t[|w|..]);
    }
  }

  /** `Word` is a prefix and stops only at the end or at whitespace: it is the maximal such prefix. */
  lemma {:induction false} WordMaximal(s: string)
    ensures Word(s) == s[..|Word(s)|]
    ensures |Word(s)| == |s| || IsSpace(s[|Word(s)|])
  {
    if s != [] && !IsSpace(s[0]) {
      WordMaximal(s[1..]);
      assert Word(s) == [s[0]] + Word(s[1..]);
    }
  }

  /**
   * Words separated by `isSep`, read one character at a time: separators
   * before the first word are dropped, and each run of separators after a
   * word becomes one space, written only if another word follows.
   * `started`: a word has been written; `pending`: a separator has followed it.
   */
  function Squeezed(s: string, isSep: char -> bool, started: bool, pending: bool): string
  {
    if s == [] then []
    else if isSep(s[0]) then Squeezed(s[1..], isSep, started, started)
    else (if pending then " " else "") + [s[0]] + Squeezed(s[1..], isSep, true, false)
  }

  /** `s` trimmed, with each inner run of whitespace turned into one space. */
  function Collapse(s: string): string
  {
    Squeezed(s, IsSpace, false, false)
  }

  lemma {:induction false} SqueezedSkipsSpace(s: string, g: bool)
    ensures Squeezed(s, IsSpace, g, g) == Squeezed(StripLeft(s), IsSpace, g, g)
  {
    if s != [] && IsSpace(s[0]) {
      SqueezedSkipsSpace(s[1..], g);
    }
  }

  lemma {:induction false} SqueezedInWord(s: string)
    ensures Squeezed(s, IsSpace, true, false) == Word(s) + Squeezed(s[|Word(s)|..], IsSpace, true, false)
  {
    if s != [] && !IsSpace(s[0]) {
      SqueezedInWord(s[1..]);
      assert Word(s) == [s[0]] + Word(s[1..]);
      assert s[|Word(s)|..] == s[1..][|Word(s[1..])|..];
    }
  }

  lemma SqueezedWord(t: string, g: bool)
    requires t != [] && !IsSpace(t[0])
    ensures Squeezed(t, IsSpace, g, g) == (if g then " " else "") + (Word(t) + Squeezed(t[|Word(t)|..], IsSpace, true, false))
  {
    var pre: string := if g then " " else "";
    var w' := Word(t[1..]);
    var y := Squeezed(t[1..][|w'|..], IsSpace, true, false);
    SqueezedInWord(t[1..]);
    assert Word(t) == [t[0]] + w';
    assert t[|Word(t)|..] == t[1..][|w'|..];
    calc {
      Squeezed(t, IsSpace, g, g);
      pre + [t[0]] + Squeezed(t[1..], IsSpace, true, false);
      pre + [t[0]] + (w' + y);
      { AppendAssoc(pre, [t[0]], w' + y); }
      pre + ([t[0]] + (w' + y));
      { AppendAssoc([t[0]], w', y); }
      pre + (Word(t) + y);
    }
  }

  lemma AppendAssoc(a: string, b: string, c: string)
    ensures a + b + c == a + (b + c)
  {
  }

  lemma JoinCons(w: string, rest: seq<string>)
    ensures Join(" ", [w] + rest) == w + (if rest == [] then [] else " " + Join(" ", rest))
  {
    assert ([w] + rest)[1..] == rest;
  }

  /** Reading the words of `split()` back with single spaces is the character-level `Squeezed`. */
  lemma {:induction false} SqueezedSplit(s: string, g: bool)
    ensures Squeezed(s, IsSpace, g, g) == (if g && Split(s) != [] then " " else "") + Join(" ", Split(s))
    decreases |s|
  {
    var t := StripLeft(s);
    SqueezedSkipsSpace(s, g);
    if t != [] {
      var w := Word(t);
      var r := t[|w|..];
      var rest := Split(r);
      var pre: string := if g then " " else "";
      WordMaximal(t);
      SqueezedWord(t, g);
      assert Split(s) == [w] + rest;
      JoinCons(w, rest);
      var tail := Squeezed(r, IsSpace, true, false);
      assert tail == (if rest == [] then [] else " " + Join(" ", rest)) by {
        if r != [] {
          SqueezedAfterSpace(r);
          SqueezedSplit(r[1..], true);
        }
      }
      calc {
        Squeezed(s, IsSpace, g, g);
        Squeezed(t, IsSpace, g, g);
        pre + (w + tail);
        { assert w + tail == Join(" ", [w] + rest); }
        pre + Join(" ", [w] + rest);
        pre + Join(" ", Split(s));
      }
    }
  }

  /** After a word, a string that starts with whitespace: that whitespace is skipped, a space pending. */
  lemma SqueezedAfterSpace(r: string)
    requires r != [] && IsSpace(r[0])
    ensures Squeezed(r, IsSpace, true, false) == Squeezed(r[1..], IsSpace, true, true)
    ensures Split(r) == Split(r[1..])
  {
    assert StripLeft(r) == StripLeft(r[1..]);
  }

  /** `" ".join(s.split())` trims `s` and turns each inner whitespace run into one space. */
  lemma JoinSplitIsCollapse(s: string)
    ensures Join(" ", Split(s)) == Collapse(s)
  {
    SqueezedSplit(s, false);
  }

  /** `s.replace(from, to)` for a one-character `from`. */
  function Replace(s: string, from: char, to: string): string
  {
    if s == [] then [] else (if s[0] == from then to else [s[0]]) + Replace(s[1..], from, to)
  }

  lemma ReplaceAppend(a: string, b: string, from: char, to: string)
    ensures Replace(a + b, from, to) == Replace(a, from, to) + Replace(b, from, to)
  {
    if a != [] {
      assert (a + b)[1..] == a[1..] + b;
      ReplaceAppend(a[1..], b, from, to);
    } else {
      assert a + b == b;
    }
  }

  lemma ReplaceAbsent(s: string, from: char, to: string)
    requires from !in s
    ensures Replace(s, from, to) == s
  {
    if s != [] { ReplaceAbsent(s[1..], from, to); }
  }

  /** `sep.join(parts)`. */
  function Join(sep: string, parts: seq<string>): string
  {
    if parts == [] then []
    else if |parts| == 1 then parts[0]
    else parts[0] + sep + Join(sep, parts[1..])
  }

  /** `s.endswith(suffix)`. */
  predicate EndsWith(s: string, suffix: string)
  {
    |suffix| <= |s| && s[|s| - |suffix|..] == suffix
  }
}
