/** The syntax of Google Test's simple regular expressions, what a pattern denotes, and the
    validator. A pattern is text; its meaning is given through a parse tree and a denotation
    as a set of strings, neither of which the C++ code has. */
module SimpleRegex {
  import opened Numerals
  import opened Wrappers

  // ----- C strings ---------------------------------------------------------------------------

  /** A NUL-terminated C string; the terminator is not part of the sequence. */
  type CString = s: string | '\0' !in s

  /** Reading `s[i]` in C, where index `|s|` holds the terminator. */
  function At(s: string, i: nat): char
    requires i <= |s|
  {
    if i == |s| then '\0' else s[i]
  }

  const FORM_FEED := '\U{0C}'
  const VERTICAL_TAB := '\U{0B}'

  // ----- Character classes -------------------------------------------------------------------

  predicate IsInSet(ch: char, str: string) {
    ch != '\0' && ch in str
  }

  /** The C++ searches a string of the 32 punctuation characters; PunctuationSet shows that these
      ranges are that string. */
  predicate IsAsciiPunct(ch: char) {
    '!' <= ch <= '/' || ':' <= ch <= '@' || '[' <= ch <= '`' || '{' <= ch <= '~'
  }

  lemma PunctuationSet(ch: char)
    ensures IsAsciiPunct(ch) <==> IsInSet(ch, "^-!\"#$%&'()*+,./:;<=>?@[\\]_`{|}~")
  {
  }

  predicate IsRepeat(ch: char) {
    ch == '?' || ch == '*' || ch == '+'
  }

  predicate IsAsciiWhiteSpace(ch: char) {
    IsInSet(ch, [' ', FORM_FEED, '\n', '\r', '\t', VERTICAL_TAB])
  }

  predicate IsAsciiWordChar(ch: char) {
    'a' <= ch <= 'z' || 'A' <= ch <= 'Z' || '0' <= ch <= '9' || ch == '_'
  }

  predicate IsValidEscape(c: char) {
    IsAsciiPunct(c) || c == 'd' || c == 'D' || c == 'f' || c == 'n' || c == 'r' || c == 's' || c == 'S'
    || c == 't' || c == 'v' || c == 'w' || c == 'W'
  }

  /** The C++ leaves the result undefined for an invalid atom, hence the precondition. */
  predicate AtomMatchesChar(escaped: bool, patternChar: char, ch: char)
    requires escaped ==> IsValidEscape(patternChar)
  {
    if escaped then
      match patternChar
      case 'd' => IsDigit(ch)
      case 'D' => !IsDigit(ch)
      case 'f' => ch == FORM_FEED
      case 'n' => ch == '\n'
      case 'r' => ch == '\r'
      case 's' => IsAsciiWhiteSpace(ch)
      case 'S' => !IsAsciiWhiteSpace(ch)
      case 't' => ch == '\t'
      case 'v' => ch == VERTICAL_TAB
      case 'w' => IsAsciiWordChar(ch)
      case 'W' => !IsAsciiWordChar(ch)
      case _ => IsAsciiPunct(patternChar) && patternChar == ch
    else
      (patternChar == '.' && ch != '\n') || patternChar == ch
  }

  // ----- The grammar: ^? (atom repeat?)* $? ---------------------------------------------------

  datatype Atom = Atom(escaped: bool, c: char)

  datatype Repeat = Once | Optional | Star | Plus

  datatype Item = Item(atom: Atom, repeat: Repeat)

  /** What follows an optional leading '^'. */
  datatype Tail = Tail(items: seq<Item>, endAnchor: bool)

  datatype Pattern = Pattern(startAnchor: bool, tail: Tail)

  predicate PlainAtomChar(c: char) {
    && c != '\0' && c != '\\' && c != '^' && c != '$' && !IsRepeat(c)
    && c != '(' && c != ')' && c != '[' && c != ']' && c != '{' && c != '}' && c != '|'
  }

  predicate WellFormedAtom(a: Atom) {
    if a.escaped then IsValidEscape(a.c) else PlainAtomChar(a.c)
  }

  predicate WellFormed(items: seq<Item>) {
    forall i :: 0 <= i < |items| ==> WellFormedAtom(items[i].atom)
  }

  function AtomText(a: Atom): string {
    if a.escaped then ['\\', a.c] else [a.c]
  }

  function RepeatText(r: Repeat): string {
    match r
    case Once => ""
    case Optional => "?"
    case Star => "*"
    case Plus => "+"
  }

  function ItemText(item: Item): string {
    AtomText(item.atom) + RepeatText(item.repeat)
  }

  function TailText(t: Tail): string
    decreases |t.items|
  {
    if t.items == [] then
      if t.endAnchor then "$" else ""
    else
      ItemText(t.items[0]) + TailText(t.(items := t.items[1..]))
  }

  function Text(p: Pattern): string {
    (if p.startAnchor then "^" else "") + TailText(p.tail)
  }

  // ----- Reading a pattern back ----------------------------------------------------------------

  /** The repetition a character stands for. */
  function RepeatOf(c: char): Repeat {
    match c
    case '?' => Optional
    case '*' => Star
    case '+' => Plus
    case _ => Once
  }

  /** The index of the character of the atom at the head of `r`. */
  function AtomIndex(r: string): nat
    requires r != ""
  {
    if r[0] == '\\' then 1 else 0
  }

  /** The index behind the item at the head of `r`. */
  function NextIndex(r: string): nat
    requires r != "" && AtomIndex(r) < |r|
  {
    AtomIndex(r) + if IsRepeat(At(r, AtomIndex(r) + 1)) then 2 else 1
  }

  /** The item at the head of `r`, if its atom is valid. */
  function HeadItem(r: string): Option<Item>
    requires r != ""
  {
    var at := AtomIndex(r);
    if at == |r| || !WellFormedAtom(Atom(at == 1, r[at])) then None
    else Some(Item(Atom(at == 1, r[at]), RepeatOf(At(r, at + 1))))
  }

  function ParseTail(r: string): Option<Tail>
    decreases |r|
  {
    if r == "" then Some(Tail([], false))
    else if r == "$" then Some(Tail([], true))
    else
      var head := HeadItem(r);
      if head.None? then None
      else
        var rest := ParseTail(r[NextIndex(r)..]);
        if rest.None? then None
        else Some(Tail([head.value] + rest.value.items, rest.value.endAnchor))
  }

  function Parse(r: string): Option<Pattern> {
    var start := r != "" && r[0] == '^';
    var t := ParseTail(if start then r[1..] else r);
    if t.None? then None else Some(Pattern(start, t.value))
  }

  lemma HeadItemIsPrefix(r: string)
    requires r != "" && HeadItem(r).Some?
    ensures NextIndex(r) <= |r| && r[..NextIndex(r)] == ItemText(HeadItem(r).value)
  {
  }

  /** A text that the reader accepts is the text of the well-formed tree it returns. */
  lemma {:induction false} ParseTailSound(r: string)
    requires ParseTail(r).Some?
    ensures WellFormed(ParseTail(r).value.items) && TailText(ParseTail(r).value) == r
    decreases |r|
  {
    if r != "" && r != "$" {
      HeadItemIsPrefix(r);
      ParseTailSound(r[NextIndex(r)..]);
      TailTextOfCons(HeadItem(r).value, ParseTail(r[NextIndex(r)..]).value);
      assert r == r[..NextIndex(r)] + r[NextIndex(r)..];
    }
  }

  lemma TailTextOfCons(item: Item, rest: Tail)
    ensures TailText(rest.(items := [item] + rest.items)) ==
            ItemText(item) + TailText(rest)
  {
    assert ([item] + rest.items)[1..] == rest.items;
  }

  /** The text of a tail never starts with a repetition character, so an unrepeated atom
      before it cannot be mistaken for a repeated one. */
  lemma TailTextHead(t: Tail)
    requires WellFormed(t.items)
    ensures RepeatOf(At(TailText(t), 0)) == Once
    ensures t.items != [] ==> TailText(t) != "" && TailText(t) != "$" && TailText(t)[0] != '^'
  {
    if t.items != [] {
      assert WellFormedAtom(t.items[0].atom);
      assert TailText(t)[0] == AtomText(t.items[0].atom)[0];
    }
  }

  lemma HeadItemOfText(item: Item, rest: string)
    requires WellFormedAtom(item.atom) && RepeatOf(At(rest, 0)) == Once
    ensures var r := ItemText(item) + rest;
            r != "" && r[0] != '$' && HeadItem(r) == Some(item) && r[NextIndex(r)..] == rest
  {
  }

  /** Every well-formed tree is read back from its own text: the grammar is unambiguous. */
  lemma {:induction false} ParseTailComplete(t: Tail)
    requires WellFormed(t.items)
    ensures ParseTail(TailText(t)) == Some(t)
    decreases |t.items|
  {
    if t.items != [] {
      var rest := t.(items := t.items[1..]);
      ParseTailComplete(rest);
      TailTextHead(rest);
      assert WellFormedAtom(t.items[0].atom);
      HeadItemOfText(t.items[0], TailText(rest));
      assert [t.items[0]] + rest.items == t.items;
    }
  }

  lemma ParseSound(r: string)
    requires Parse(r).Some?
    ensures WellFormed(Parse(r).value.tail.items) && Text(Parse(r).value) == r
  {
    if r != "" && r[0] == '^' {
      ParseTailSound(r[1..]);
      assert r == "^" + r[1..];
    } else {
      ParseTailSound(r);
    }
  }

  lemma ParseComplete(p: Pattern)
    requires WellFormed(p.tail.items)
    ensures Parse(Text(p)) == Some(p)
  {
    ParseTailComplete(p.tail);
    TailTextHead(p.tail);
    if p.startAnchor {
      assert Text(p)[1..] == TailText(p.tail);
    } else {
      assert Text(p) == TailText(p.tail);
    }
  }

  /** Reading and writing patterns are inverse to each other. */
  lemma ParseInvertsText(r: string, p: Pattern)
    ensures Parse(r) == Some(p) <==> WellFormed(p.tail.items) && Text(p) == r
  {
    if Parse(r) == Some(p) {
      ParseSound(r);
    }
    if WellFormed(p.tail.items) && Text(p) == r {
      ParseComplete(p);
    }
  }

  /** The readable texts are exactly those the grammar generates. */
  ghost predicate InGrammar(r: string) {
    exists p: Pattern :: WellFormed(p.tail.items) && Text(p) == r
  }

  lemma ParseDecidesGrammar(r: string)
    ensures Parse(r).Some? <==> InGrammar(r)
  {
    if Parse(r).Some? {
      ParseInvertsText(r, Parse(r).value);
    }
    if p: Pattern :| WellFormed(p.tail.items) && Text(p) == r {
      ParseInvertsText(r, p);
    }
  }

  // ----- ValidateRegex --------------------------------------------------------------------------

  /** What must still hold of the rest of a pattern for the whole of it to be in the grammar,
      when the scan stands behind an atom that may (or may not) be repeated. */
  ghost predicate Residual(rest: string, prevRepeatable: bool, first: bool) {
    if first then Parse(rest).Some?
    else if prevRepeatable && rest != "" && IsRepeat(rest[0]) then ParseTail(rest[1..]).Some?
    else ParseTail(rest).Some?
  }

  lemma ResidualAfterEscape(rest: string, prevRepeatable: bool, first: bool)
    requires rest != "" && rest[0] == '\\'
    ensures Residual(rest, prevRepeatable, first) <==>
            |rest| >= 2 && IsValidEscape(rest[1]) && Residual(rest[2..], true, false)
  {
    ResidualIsParse(rest, prevRepeatable, first);
    TailAfterAtom(rest);
  }

  lemma ResidualAfterPlain(rest: CString, prevRepeatable: bool, first: bool)
    requires rest != "" && rest[0] != '\\'
    ensures var ch := rest[0];
            Residual(rest, prevRepeatable, first) <==>
              && (ch == '^' ==> first)
              && (ch == '$' ==> |rest| == 1)
              && !IsInSet(ch, "()[]{}|")
              && (IsRepeat(ch) ==> !first && prevRepeatable)
              && Residual(rest[1..], !IsInSet(ch, "^$?*+"), false)
  {
    var ch := rest[0];
    if first && ch == '^' {
      assert ParseTail(rest).None?;
    } else if !first && prevRepeatable && IsRepeat(ch) {
    } else {
      ResidualIsParse(rest, prevRepeatable, first);
      if rest != "$" {
        TailAfterAtom(rest);
      }
    }
  }

  lemma ResidualIsParse(rest: string, prevRepeatable: bool, first: bool)
    requires rest != "" && (first ==> rest[0] != '^') && (!first && prevRepeatable ==> !IsRepeat(rest[0]))
    ensures Residual(rest, prevRepeatable, first) <==> ParseTail(rest).Some?
  {
  }

  lemma TailAfterAtom(r: string)
    requires r != "" && r != "$"
    ensures ParseTail(r).Some? <==> HeadItem(r).Some? && Residual(r[AtomIndex(r) + 1..], true, false)
  {
    if HeadItem(r).Some? {
      var n := AtomIndex(r) + 1;
      if IsRepeat(At(r, n)) {
        assert r[NextIndex(r)..] == r[n..][1..];
      } else {
        assert r[NextIndex(r)..] == r[n..];
      }
    }
  }

  method ValidateRegex(regex: Option<CString>) returns (valid: bool)
    ensures valid <==> regex.Some? && Parse(regex.value).Some?
  {
    if regex.None? {
      return false;
    }
    var r := regex.value;
    valid := true;
    var prevRepeatable := false;
    var i := 0;
    while At(r, i) != '\0'
      invariant 0 <= i <= |r|
      invariant i == 0 ==> !prevRepeatable
      invariant Parse(r).Some? <==> valid && Residual(r[i..], prevRepeatable, i == 0)
      decreases |r| - i
    {
      ghost var rest := r[i..];
      if r[i] == '\\' {
        ResidualAfterEscape(rest, prevRepeatable, i == 0);
        i := i + 1;
        if At(r, i) == '\0' {
          return false;
        }
        assert rest[1] == r[i];
        if !IsValidEscape(r[i]) {
          valid := false;
        }
        prevRepeatable := true;
        assert rest[2..] == r[i + 1..];
      } else {
        ResidualAfterPlain(rest, prevRepeatable, i == 0);
        var ch := r[i];
        if ch == '^' && i > 0 {
          valid := false;
        } else if ch == '$' && At(r, i + 1) != '\0' {
          valid := false;
        } else if IsInSet(ch, "()[]{}|") {
          valid := false;
        } else if IsRepeat(ch) && !prevRepeatable {
          valid := false;
        }
        prevRepeatable := !IsInSet(ch, "^$?*+");
        assert rest[1..] == r[i + 1..];
      }
      i := i + 1;
    }
  }
}
