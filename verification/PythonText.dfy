/** Python's classes of characters in strings of bytes, and `strip`. */
module PythonText {
  import opened CharacterSets

  predicate IsSpace(c: char) {
    c == ' ' || c == '\t' || c == '\n' || c == '\r' || c == '\U{0B}' || c == '\U{0C}'
  }

  /** `not s.strip()` */
  predicate IsBlank(s: string) {
    forall i :: 0 <= i < |s| ==> IsSpace(s[i])
  }

  function LeftStrip(s: string): string {
    if s != "" && IsSpace(s[0]) then LeftStrip(s[1..]) else s
  }

  function RightStrip(s: string): string {
    if s != "" && IsSpace(s[|s| - 1]) then RightStrip(s[..|s| - 1]) else s
  }

  function Strip(s: string): string {
    RightStrip(LeftStrip(s))
  }

  /** `[_A-Za-z]` */
  predicate IsWordStart(c: char) {
    c == '_' || 'a' <= c <= 'z' || 'A' <= c <= 'Z'
  }

  /** `\w` */
  predicate IsWordChar(c: char) {
    IsWordStart(c) || '0' <= c <= '9'
  }

  // ----- The classes, character by character -------------------------------------------------------

  lemma WhiteSpace(c: char)
    ensures IsSpace(c) <==> c in " \t\n\r\U{0B}\U{0C}"
  {
  }

  lemma WordCharacters(c: char)
    ensures IsWordStart(c) <==> c == '_' || c in LOWER || c in UPPER
    ensures IsWordChar(c) <==> IsWordStart(c) || c in DIGITS
  {
    LowerIsRange(c);
    UpperIsRange(c);
    DigitsAreRange(c);
  }

  // ----- Stripping -----------------------------------------------------------------------------------

  predicate IsSolid(t: string) {
    t != "" ==> !IsSpace(t[0]) && !IsSpace(t[|t| - 1])
  }

  lemma {:induction false} LeftStripped(s: string) returns (a: string)
    ensures IsBlank(a) && s == a + LeftStrip(s) && (LeftStrip(s) != "" ==> !IsSpace(LeftStrip(s)[0]))
  {
    if s != "" && IsSpace(s[0]) {
      a := LeftStripped(s[1..]);
      a := [s[0]] + a;
    } else {
      a := "";
    }
  }

  lemma {:induction false} RightStripped(s: string) returns (b: string)
    ensures IsBlank(b) && s == RightStrip(s) + b
    ensures RightStrip(s) != "" ==> RightStrip(s)[0] == s[0] && !IsSpace(RightStrip(s)[|RightStrip(s)| - 1])
  {
    if s != "" && IsSpace(s[|s| - 1]) {
      b := RightStripped(s[..|s| - 1]);
      assert s == s[..|s| - 1] + [s[|s| - 1]];
      b := b + [s[|s| - 1]];
    } else {
      b := "";
    }
  }

  predicate IsMiddle(s: string, a: string, t: string, b: string) {
    IsBlank(a) && IsBlank(b) && s == a + (t + b)
  }

  lemma MiddleIsBlankIff(s: string, a: string, t: string, b: string)
    requires IsMiddle(s, a, t, b) && IsSolid(t)
    ensures t == "" <==> IsBlank(s)
  {
    assert t != "" ==> s[|a|] == t[0];
  }

  /** Two solid texts between blanks in one text are the same. */
  lemma MiddleIsUnique(s: string, a: string, t: string, b: string, a': string, t': string, b': string)
    requires IsMiddle(s, a, t, b) && IsSolid(t) && IsMiddle(s, a', t', b') && IsSolid(t')
    ensures t == t'
  {
    MiddleIsBlankIff(s, a, t, b);
    MiddleIsBlankIff(s, a', t', b');
    if t != "" {
      NotBefore(s, a, t, b, a', t', b');
      NotBefore(s, a', t', b', a, t, b);
      assert s[|a|..] == t + b && s[|a|..] == t' + b';
      assert t == (t + b)[..|t|] && t' == (t' + b')[..|t'|];
    }
  }

  lemma NotBefore(s: string, a: string, t: string, b: string, a': string, t': string, b': string)
    requires IsMiddle(s, a, t, b) && IsMiddle(s, a', t', b') && IsSolid(t) && IsSolid(t') && t != "" && t' != ""
    ensures |a| >= |a'| && |b| >= |b'|
  {
    assert s[|a|] == t[0] && s[|s| - |b| - 1] == t[|t| - 1];
    assert forall k :: 0 <= k < |a'| ==> s[k] == a'[k];
    assert forall k :: |s| - |b'| <= k < |s| ==> s[k] == b'[k - (|s| - |b'|)];
  }

  /** `strip` gives the one text between blanks that neither begins nor ends with white space. */
  lemma StripIff(s: string, t: string)
    ensures t == Strip(s) <==> IsSolid(t) && exists a, b :: IsMiddle(s, a, t, b)
  {
    var a := LeftStripped(s);
    var b := RightStripped(LeftStrip(s));
    assert IsMiddle(s, a, Strip(s), b);
    if IsSolid(t) {
      if a', b' :| IsMiddle(s, a', t, b') {
        MiddleIsUnique(s, a, Strip(s), b, a', t, b');
      }
    }
  }
}
