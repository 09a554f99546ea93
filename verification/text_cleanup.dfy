/**
 * Cleanup of the recognised text (main.py:53 and main.py:60):
 * `re.sub(r'\W+', '', text)` followed by `.strip()`.
 *
 * Python 3's `\w` on `str` matches underscore and every character that is
 * alphanumeric in the Unicode database. The ASCII part of that class is
 * written out; for the other characters the database is a parameter,
 * `alnum`, whose only fixed point is that no whitespace character is word.
 */
module TextCleanup {

  /** The Unicode database's letter/digit/numeric property, for non-ASCII characters. */
  type UnicodeAlnum = char -> bool

  predicate IsAsciiWord(c: char)
  {
    'a' <= c <= 'z' || 'A' <= c <= 'Z' || '0' <= c <= '9' || c == '_'
  }

  /** The characters Python's `str.strip()` removes (`str.isspace()`). */
  predicate IsPyWhitespace(c: char)
  {
    var n := c as int;
    (0x09 <= n <= 0x0D) || (0x1C <= n <= 0x20) || n == 0x85 || n == 0xA0
    || n == 0x1680 || (0x2000 <= n <= 0x200A) || n == 0x2028 || n == 0x2029
    || n == 0x202F || n == 0x205F || n == 0x3000
  }

  /** Python 3's `\w` on a `str`; no character `strip()` removes is a word character. */
  predicate IsWord(alnum: UnicodeAlnum, c: char)
    ensures IsPyWhitespace(c) ==> !IsWord(alnum, c)
  {
    if c as int < 128 then IsAsciiWord(c) else !IsPyWhitespace(c) && alnum(c)
  }

  // ---------------------------------------------------------------------
  // re.sub(r'\W+', '', text)
  // ---------------------------------------------------------------------

  /** Length of the maximal run of non-word characters at the front of `s`. */
  function NonWordRun(alnum: UnicodeAlnum, s: string): (n: nat)
    ensures n <= |s|
    ensures forall k :: 0 <= k < n ==> !IsWord(alnum, s[k])
    ensures n < |s| ==> IsWord(alnum, s[n])
  {
    if s == [] || IsWord(alnum, s[0]) then 0 else 1 + NonWordRun(alnum, s[1..])
  }

  /**
   * `re.sub(r'\W+', '', s)`: scanning left to right, each maximal (greedy)
   * run of non-word characters is replaced by nothing; word characters are
   * copied.
   */
  function SubNonWordRuns(alnum: UnicodeAlnum, s: string): string
    decreases |s|
  {
    if s == [] then []
    else if IsWord(alnum, s[0]) then [s[0]] + SubNonWordRuns(alnum, s[1..])
    else SubNonWordRuns(alnum, s[NonWordRun(alnum, s)..])
  }

  /** The word characters of `s`, in order: the reference meaning of the cleanup. */
  function WordChars(alnum: UnicodeAlnum, s: string): string
  {
    if s == [] then []
    else (if IsWord(alnum, s[0]) then [s[0]] else []) + WordChars(alnum, s[1..])
  }

  /** `t` is `s` with some characters left out. */
  predicate IsSubsequence(t: string, s: string)
    decreases |s|
  {
    if t == [] then true
    else if s == [] then false
    else if t[0] == s[0] then IsSubsequence(t[1..], s[1..])
    else IsSubsequence(t, s[1..])
  }

  // ---------------------------------------------------------------------
  // str.strip()
  // ---------------------------------------------------------------------

  /** `s` with its leading whitespace removed: a suffix of `s`. */
  function StripLeading(s: string): (r: string)
    ensures |r| <= |s| && r == s[|s| - |r|..]
    ensures forall k :: 0 <= k < |s| - |r| ==> IsPyWhitespace(s[k])
    ensures r == [] || !IsPyWhitespace(r[0])
  {
    if s != [] && IsPyWhitespace(s[0]) then StripLeading(s[1..]) else s
  }

  /** `s` with its trailing whitespace removed: a prefix of `s`. */
  function StripTrailing(s: string): (r: string)
    ensures |r| <= |s| && r == s[..|r|]
    ensures forall k :: |r| <= k < |s| ==> IsPyWhitespace(s[k])
    ensures r == [] || !IsPyWhitespace(r[|r| - 1])
  {
    if s != [] && IsPyWhitespace(s[|s| - 1]) then StripTrailing(s[..|s| - 1]) else s
  }

  /** `str.strip()` with no argument. */
  function Strip(s: string): string
  {
    StripTrailing(StripLeading(s))
  }

  /** The cleanup of main.py:53 and main.py:60 in sequence. */
  function Normalize(alnum: UnicodeAlnum, raw: string): string
  {
    Strip(SubNonWordRuns(alnum, raw))
  }

  // ---------------------------------------------------------------------
  // Properties
  // ---------------------------------------------------------------------

  lemma WordCharsCons(alnum: UnicodeAlnum, c: char, s: string)
    ensures WordChars(alnum, [c] + s) == (if IsWord(alnum, c) then [c] else []) + WordChars(alnum, s)
  {
    assert ([c] + s)[1..] == s;
  }

  lemma {:induction false} WordCharsAppend(alnum: UnicodeAlnum, s: string, t: string)
    ensures WordChars(alnum, s + t) == WordChars(alnum, s) + WordChars(alnum, t)
  {
    if s == [] {
      assert s + t == t;
    } else {
      var head := if IsWord(alnum, s[0]) then [s[0]] else [];
      WordCharsAppend(alnum, s[1..], t);
      assert s + t == [s[0]] + (s[1..] + t);
      WordCharsCons(alnum, s[0], s[1..] + t);
      WordCharsCons(alnum, s[0], s[1..]);
      assert s == [s[0]] + s[1..];
      calc {
        WordChars(alnum, s + t);
        head + WordChars(alnum, s[1..] + t);
        head + (WordChars(alnum, s[1..]) + WordChars(alnum, t));
        (head + WordChars(alnum, s[1..])) + WordChars(alnum, t);
        WordChars(alnum, s) + WordChars(alnum, t);
      }
    }
  }

  lemma {:induction false} WordCharsOfNonWord(alnum: UnicodeAlnum, s: string)
    requires forall k :: 0 <= k < |s| ==> !IsWord(alnum, s[k])
    ensures WordChars(alnum, s) == []
  {
    if s != [] {
      WordCharsOfNonWord(alnum, s[1..]);
    }
  }

  /** Removing whole runs of `\W` is the same as removing every `\W` character. */
  lemma {:induction false} SubNonWordRunsIsWordChars(alnum: UnicodeAlnum, s: string)
    ensures SubNonWordRuns(alnum, s) == WordChars(alnum, s)
    decreases |s|
  {
    if s == [] {
    } else if IsWord(alnum, s[0]) {
      SubNonWordRunsIsWordChars(alnum, s[1..]);
    } else {
      var n := NonWordRun(alnum, s);
      SubNonWordRunsIsWordChars(alnum, s[n..]);
      assert s == s[..n] + s[n..];
      WordCharsAppend(alnum, s[..n], s[n..]);
      WordCharsOfNonWord(alnum, s[..n]);
    }
  }

  /** The cleanup keeps only word characters. */
  lemma {:induction false} WordCharsAreWord(alnum: UnicodeAlnum, s: string)
    ensures forall k :: 0 <= k < |WordChars(alnum, s)| ==> IsWord(alnum, WordChars(alnum, s)[k])
  {
    if s != [] {
      WordCharsAreWord(alnum, s[1..]);
    }
  }

  /** The cleanup keeps the characters it keeps in their original order. */
  lemma {:induction false} WordCharsIsSubsequence(alnum: UnicodeAlnum, s: string)
    ensures IsSubsequence(WordChars(alnum, s), s)
  {
    if s != [] {
      var t := WordChars(alnum, s[1..]);
      WordCharsIsSubsequence(alnum, s[1..]);
      if IsWord(alnum, s[0]) {
        assert ([s[0]] + t)[1..] == t;
      } else if t != [] {
        WordCharsAreWord(alnum, s[1..]);
        assert IsWord(alnum, t[0]) && t[0] != s[0];
        assert WordChars(alnum, s) == t;
      }
    }
  }

  /** Every word character survives as many times as it occurs; no other does. */
  lemma {:induction false} WordCharsCounts(alnum: UnicodeAlnum, s: string)
    ensures forall c :: multiset(WordChars(alnum, s))[c] == if IsWord(alnum, c) then multiset(s)[c] else 0
  {
    if s != [] {
      WordCharsCounts(alnum, s[1..]);
      assert s == [s[0]] + s[1..];
    }
  }

  /** A string of word characters has nothing to remove. */
  lemma {:induction false} WordCharsOfWordString(alnum: UnicodeAlnum, s: string)
    requires forall k :: 0 <= k < |s| ==> IsWord(alnum, s[k])
    ensures WordChars(alnum, s) == s
  {
    if s != [] {
      WordCharsOfWordString(alnum, s[1..]);
      assert s == [s[0]] + s[1..];
    }
  }

  /** `strip()` leaves a string without whitespace unchanged. */
  lemma StripWithoutWhitespace(s: string)
    requires forall k :: 0 <= k < |s| ==> !IsPyWhitespace(s[k])
    ensures Strip(s) == s
  {
    assert StripLeading(s) == s;
  }

  /**
   * The whole cleanup keeps exactly the word characters of the raw text, in
   * order, and the trailing `strip()` never has anything left to remove.
   */
  lemma NormalizeIsWordChars(alnum: UnicodeAlnum, raw: string)
    ensures Normalize(alnum, raw) == SubNonWordRuns(alnum, raw) == WordChars(alnum, raw)
    ensures forall k :: 0 <= k < |Normalize(alnum, raw)| ==> IsWord(alnum, Normalize(alnum, raw)[k])
    ensures IsSubsequence(Normalize(alnum, raw), raw)
  {
    var t := WordChars(alnum, raw);
    SubNonWordRunsIsWordChars(alnum, raw);
    WordCharsAreWord(alnum, raw);
    WordCharsIsSubsequence(alnum, raw);
    forall k | 0 <= k < |t|
      ensures !IsPyWhitespace(t[k])
    {
      assert IsWord(alnum, t[k]);
    }
    StripWithoutWhitespace(t);
  }

  /** Cleaning already-cleaned text changes nothing. */
  lemma NormalizeIsIdempotent(alnum: UnicodeAlnum, raw: string)
    ensures Normalize(alnum, Normalize(alnum, raw)) == Normalize(alnum, raw)
  {
    var t := Normalize(alnum, raw);
    NormalizeIsWordChars(alnum, raw);
    NormalizeIsWordChars(alnum, t);
    WordCharsOfWordString(alnum, t);
  }

  lemma WordCharsExampleTail(alnum: UnicodeAlnum)
    ensures WordChars(alnum, "-CD\n\U{C}") == "CD"
  {
    var s6 := "\n\U{C}";
    WordCharsOfNonWord(alnum, s6);
    assert IsWord(alnum, 'D') && IsWord(alnum, 'C') && !IsWord(alnum, '-');
    WordCharsCons(alnum, 'D', s6);
    WordCharsCons(alnum, 'C', ['D'] + s6);
    WordCharsCons(alnum, '-', ['C', 'D'] + s6);
    assert ['-', 'C', 'D'] + s6 == "-CD\n\U{C}";
  }

  lemma WordCharsExampleMiddle(alnum: UnicodeAlnum)
    ensures WordChars(alnum, " 12-CD\n\U{C}") == "12CD"
  {
    var tail := "-CD\n\U{C}";
    WordCharsExampleTail(alnum);
    assert IsWord(alnum, '1') && IsWord(alnum, '2') && !IsWord(alnum, ' ');
    WordCharsCons(alnum, '2', tail);
    WordCharsCons(alnum, '1', ['2'] + tail);
    WordCharsCons(alnum, ' ', ['1', '2'] + tail);
    assert [' ', '1', '2'] + tail == " 12-CD\n\U{C}";
  }

  lemma WordCharsExample(alnum: UnicodeAlnum)
    ensures WordChars(alnum, "AB 12-CD\n\U{C}") == "AB12CD"
  {
    var tail := " 12-CD\n\U{C}";
    WordCharsExampleMiddle(alnum);
    assert IsWord(alnum, 'A') && IsWord(alnum, 'B');
    WordCharsCons(alnum, 'B', tail);
    WordCharsCons(alnum, 'A', ['B'] + tail);
    assert ['A', 'B'] + tail == "AB 12-CD\n\U{C}";
  }

  /**
   * A plate read with separators and Tesseract's trailing line break and form
   * feed comes out as the bare registration, whatever the Unicode database.
   */
  lemma NormalizeExample(alnum: UnicodeAlnum)
    ensures Normalize(alnum, "AB 12-CD\n\U{C}") == "AB12CD"
  {
    NormalizeIsWordChars(alnum, "AB 12-CD\n\U{C}");
    WordCharsExample(alnum);
  }
}
