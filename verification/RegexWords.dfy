/** What simple regular expressions match, character by character: the words of every atom and every
    repetition, written out, and of patterns without special characters. */
module RegexWords {
  import opened CharacterSets
  import opened RegexMatcher
  import opened SimpleRegex
  import opened Wrappers

  const PUNCTUATION := "!\"#$%&'()*+,-./:;<=>?@[\\]^_`{|}~"

  // ----- Atoms -----------------------------------------------------------------------------------

  lemma EscapesAre(c: char)
    ensures IsValidEscape(c) <==> c in PUNCTUATION || c in "dDfnrsStvwW"
  {
    PunctuationSet(c);
  }

  lemma PlainAtomsAre(c: char)
    ensures PlainAtomChar(c) <==> c != '\0' && c !in "\\^$?*+()[]{}|"
  {
  }

  /** A dot denotes all characters but the newline. */
  lemma DotDenotes(w: string)
    ensures InAtom(Atom(false, '.'), w) <==> |w| == 1 && w != "\n"
  {
  }

  /** Any other plain character denotes itself. */
  lemma PlainDenotes(c: char, w: string)
    requires PlainAtomChar(c) && c != '.'
    ensures InAtom(Atom(false, c), w) <==> w == [c]
  {
  }

  lemma DigitsDenote(w: string)
    ensures InAtom(Atom(true, 'd'), w) <==> |w| == 1 && w[0] in DIGITS
    ensures InAtom(Atom(true, 'D'), w) <==> |w| == 1 && w[0] !in DIGITS
  {
    if |w| == 1 { DigitsAreRange(w[0]); }
  }

  lemma WhiteSpaceDenotes(w: string)
    ensures InAtom(Atom(true, 's'), w) <==> |w| == 1 && w[0] in " \t\n\r\U{0B}\U{0C}"
    ensures InAtom(Atom(true, 'S'), w) <==> |w| == 1 && w[0] !in " \t\n\r\U{0B}\U{0C}"
  {
  }

  lemma WordCharactersDenote(w: string)
    ensures InAtom(Atom(true, 'w'), w) <==>
            |w| == 1 && (w[0] in LOWER || w[0] in UPPER || w[0] in DIGITS || w[0] == '_')
    ensures InAtom(Atom(true, 'W'), w) <==>
            |w| == 1 && w[0] !in LOWER && w[0] !in UPPER && w[0] !in DIGITS && w[0] != '_'
  {
    if |w| == 1 {
      LowerIsRange(w[0]);
      UpperIsRange(w[0]);
      DigitsAreRange(w[0]);
    }
  }

  lemma ControlsDenote(w: string)
    ensures InAtom(Atom(true, 'f'), w) <==> w == "\U{0C}"
    ensures InAtom(Atom(true, 'n'), w) <==> w == "\n"
    ensures InAtom(Atom(true, 'r'), w) <==> w == "\r"
    ensures InAtom(Atom(true, 't'), w) <==> w == "\t"
    ensures InAtom(Atom(true, 'v'), w) <==> w == "\U{0B}"
  {
  }

  /** Punctuation is escaped to denote itself. */
  lemma PunctuationDenotes(c: char, w: string)
    requires c in PUNCTUATION
    ensures IsValidEscape(c) && (InAtom(Atom(true, c), w) <==> w == [c])
  {
    PunctuationSet(c);
  }

  // ----- Repetitions -----------------------------------------------------------------------------

  /** Every character of `w` is a word of the atom. */
  ghost predicate AreAtoms(a: Atom, w: string)
    requires WellFormedAtom(a)
  {
    forall i :: 0 <= i < |w| ==> InAtom(a, [w[i]])
  }

  /** `?` allows at most one word of the atom, `*` any number, `+` at least one, and any other character
      behind the atom stands for itself. */
  lemma RepeatsDenote(a: Atom, c: char, w: string)
    requires WellFormedAtom(a)
    ensures InItem(Item(a, RepeatOf('?')), w) <==> AreAtoms(a, w) && |w| <= 1
    ensures InItem(Item(a, RepeatOf('*')), w) <==> AreAtoms(a, w)
    ensures InItem(Item(a, RepeatOf('+')), w) <==> AreAtoms(a, w) && |w| >= 1
    ensures c !in "?*+" ==> (InItem(Item(a, RepeatOf(c)), w) <==> InAtom(a, w))
  {
    ItemIsRun(Item(a, RepeatOf('?')), w);
    ItemIsRun(Item(a, RepeatOf('*')), w);
    ItemIsRun(Item(a, RepeatOf('+')), w);
  }

  // ----- Plain patterns --------------------------------------------------------------------------

  predicate IsPlain(text: string) {
    forall i :: 0 <= i < |text| ==> text[i] != '\0' && text[i] !in "\\^$.?*+()[]{}|"
  }

  function PlainItems(text: string): (items: seq<Item>)
    ensures |items| == |text|
    ensures IsPlain(text) ==> WellFormed(items)
  {
    seq(|text|, i requires 0 <= i < |text| => Item(Atom(false, text[i]), Once))
  }

  lemma {:induction false} TextOfPlain(text: string, endAnchor: bool)
    requires IsPlain(text)
    ensures TailText(Tail(PlainItems(text), endAnchor)) == text + if endAnchor then "$" else ""
  {
    if text != "" {
      TextOfPlain(text[1..], endAnchor);
      assert PlainItems(text)[1..] == PlainItems(text[1..]);
      assert text == [text[0]] + text[1..];
    }
  }

  lemma {:induction false} WordIsPlain(text: string, w: string)
    requires IsPlain(text) && InLanguage(PlainItems(text), w)
    ensures w == text
  {
    if text != "" {
      var items := PlainItems(text);
      assert items[1..] == PlainItems(text[1..]);
      var k :| 0 <= k <= |w| && InItem(items[0], w[..k]) && InLanguage(items[1..], w[k..]);
      WordIsPlain(text[1..], w[k..]);
      assert w == w[..k] + w[k..];
    }
  }

  lemma {:induction false} PlainIsWord(text: string)
    requires IsPlain(text)
    ensures InLanguage(PlainItems(text), text)
  {
    if text != "" {
      PlainIsWord(text[1..]);
      assert PlainItems(text)[1..] == PlainItems(text[1..]);
      assert InItem(PlainItems(text)[0], text[..1]);
    }
  }

  function Anchored(text: string, start: bool, end: bool): string {
    (if start then "^" else "") + (text + if end then "$" else "")
  }

  predicate IsAround(s: string, a: string, text: string, b: string) {
    s == a + (text + b)
  }

  /** `s` has `text` in it, at its start and at its end where the anchors say so. */
  ghost predicate Contains(s: string, text: string, start: bool, end: bool) {
    exists a, b :: IsAround(s, a, text, b) && (start ==> a == "") && (end ==> b == "")
  }

  lemma PatternOfPlain(text: string, start: bool, end: bool)
    requires IsPlain(text)
    ensures Parse(Anchored(text, start, end)) == Some(Pattern(start, Tail(PlainItems(text), end)))
  {
    TextOfPlain(text, end);
    ParseComplete(Pattern(start, Tail(PlainItems(text), end)));
  }

  lemma SlicesAround(s: string, i: nat, j: nat)
    requires i <= j <= |s|
    ensures IsAround(s, s[..i], s[i..j], s[j..])
  {
  }

  lemma MiddleIsSlice(s: string, a: string, text: string, b: string)
    requires IsAround(s, a, text, b)
    ensures |a| + |text| + |b| == |s| && s[|a|..|a| + |text|] == text
  {
  }

  lemma MatchIsContained(text: string, start: bool, end: bool, s: string)
    requires IsPlain(text) && MatchesSubstring(Pattern(start, Tail(PlainItems(text), end)), s)
    ensures Contains(s, text, start, end)
  {
    var p := Pattern(start, Tail(PlainItems(text), end));
    var i, j :| 0 <= i <= j <= |s| && InLanguage(p.tail.items, s[i..j])
                && (p.startAnchor ==> i == 0) && (p.tail.endAnchor ==> j == |s|);
    WordIsPlain(text, s[i..j]);
    SlicesAround(s, i, j);
  }

  lemma ContainedIsMatch(text: string, start: bool, end: bool, s: string)
    requires IsPlain(text) && Contains(s, text, start, end)
    ensures MatchesSubstring(Pattern(start, Tail(PlainItems(text), end)), s)
  {
    var a, b :| IsAround(s, a, text, b) && (start ==> a == "") && (end ==> b == "");
    MiddleIsSlice(s, a, text, b);
    PlainIsWord(text);
    assert InLanguage(PlainItems(text), s[|a|..|a| + |text|]);
  }

  /** A pattern without special characters matches the strings that contain it, where its anchors allow. */
  lemma PlainPatternIsSubstring(text: string, start: bool, end: bool, s: string)
    requires IsPlain(text)
    ensures Parse(Anchored(text, start, end)).Some?
    ensures MatchesSubstring(PatternOf(Anchored(text, start, end)), s) <==> Contains(s, text, start, end)
  {
    PatternOfPlain(text, start, end);
    if MatchesSubstring(PatternOf(Anchored(text, start, end)), s) { MatchIsContained(text, start, end, s); }
    if Contains(s, text, start, end) { ContainedIsMatch(text, start, end, s); }
  }

  /** Its full match is equality. */
  lemma PlainFullMatchIsEquality(text: string, s: string)
    requires IsPlain(text)
    ensures Parse(Anchored(text, false, false)).Some?
    ensures FullMatches(PatternOf(Anchored(text, false, false)), s) <==> s == text
  {
    PatternOfPlain(text, false, false);
    var p := Pattern(false, Tail(PlainItems(text), false));
    assert FullyAnchored(p) == Pattern(true, Tail(PlainItems(text), true));
    if FullMatches(p, s) {
      MatchIsContained(text, true, true, s);
    }
    if s == text {
      assert IsAround(s, "", text, "");
      ContainedIsMatch(text, true, true, s);
    }
  }
}
