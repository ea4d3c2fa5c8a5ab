/** How the tokens of Pump lie in their text: in order and without overlap, each the slice between its
    cursors less at most one newline, nothing but white space and comments between them, and no
    marker inside plain code. */
module PumpTokenLayout {
  import opened Wrappers
  import opened PumpSyntax
  import opened PumpLines
  import opened PumpParens
  import opened PumpPatterns
  import opened PumpTokenizer
  import opened PythonText

  // ----- Where a token lies ----------------------------------------------------------------------

  predicate IsPosition(lines: seq<string>, t: Token) {
    InText(lines, t.start) && (t.end == EOF || InLine(lines, t.end))
  }

  function StartOf(lines: seq<string>, t: Token): nat
    requires IsPosition(lines, t)
  {
    Offset(lines, t.start)
  }

  function EndOf(lines: seq<string>, t: Token): nat
    requires IsPosition(lines, t)
  {
    if t.end == EOF then |Text(lines)| else Offset(lines, t.end)
  }

  /** The token's value is its slice of the text; code may have lost a newline at its end. */
  predicate IsSlice(lines: seq<string>, t: Token) {
    && IsPosition(lines, t)
    && StartOf(lines, t) <= EndOf(lines, t) <= |Text(lines)|
    && var slice := Text(lines)[StartOf(lines, t)..EndOf(lines, t)];
       t.value == slice || (t.tokenType == CodeText && t.value + [NEWLINE] == slice)
  }

  /** What may be dropped between tokens: white space, or a comment. */
  predicate Droppable(s: string) {
    IsBlank(s) || StartsTwice(s, '$')
  }

  predicate Follows(lines: seq<string>, t: Token, next: Token) {
    && IsSlice(lines, t) && IsSlice(lines, next)
    && EndOf(lines, t) <= StartOf(lines, next)
    && Droppable(Text(lines)[EndOf(lines, t)..StartOf(lines, next)])
  }

  // ----- The automaton makes such tokens ------------------------------------------------------------

  lemma MakeTokenIsSlice(lines: seq<string>, start: Cursor, end: Cursor, tokenType: TokenType)
    requires lines != [] && InText(lines, start)
    requires end == EOF || (InLine(lines, end) && !Before(end, start))
    ensures IsSlice(lines, MakeToken(lines, start, end, tokenType))
  {
    OffsetOfEnd(lines);
    if InLine(lines, start) {
      SubStringIsSlice(lines, start, if end == EOF then EndOfText(lines) else end);
    }
  }

  lemma RStripKeepsSlice(lines: seq<string>, t: Token)
    requires IsSlice(lines, t) && t.tokenType == CodeText && t.value == Text(lines)[StartOf(lines, t)..EndOf(lines, t)]
    ensures IsSlice(lines, RStripNewLineFromToken(t))
  {
    if t.value != "" && t.value[|t.value| - 1] == NEWLINE {
      assert t.value == t.value[..|t.value| - 1] + [NEWLINE];
    }
  }

  lemma CodeBetweenIsSlice(lines: seq<string>, pos: Cursor, at: Cursor)
    requires lines != [] && InText(lines, pos) && InLine(lines, at) && IsMarker(Rest(lines, at)) && !Before(at, pos)
    ensures IsSlice(lines, CodeBetween(lines, pos, at))
  {
    MakeTokenIsSlice(lines, pos, at, CodeText);
    var t := MakeToken(lines, pos, at, CodeText);
    OffsetOfEnd(lines);
    if InLine(lines, pos) {
      SubStringIsSlice(lines, pos, at);
      RStripKeepsSlice(lines, t);
    }
  }

  lemma ScanIsSlice(lines: seq<string>, pos: Cursor)
    requires lines != [] && InText(lines, pos)
    ensures var t := ScanAt(lines, pos).token;
            IsSlice(lines, t) && t.start == pos && (t.tokenType == CodeText || IsMarkerType(t.tokenType))
  {
    match MarkerFrom(lines, pos) {
      case None => MakeTokenIsSlice(lines, pos, EOF, CodeText);
      case Some(at) =>
        if at == pos {
          MarkerAdvances(lines, at);
          var s := Rest(lines, at);
          MakeTokenIsSlice(lines, at, Plus(at, MatchLength(Entry(s), s)), Entry(s));
        } else {
          CodeBetweenIsSlice(lines, pos, at);
        }
    }
  }

  /** A one-line definition ends where its line ends or a comment begins. */
  predicate EndsRight(lines: seq<string>, previous: TokenType, t: Token) {
    t.tokenType == Expression && previous == Equals ==>
      InLine(lines, t.end) && (Rest(lines, t.end) == "" || EndsDefinition(Rest(lines, t.end), 0))
  }

  lemma ExpectIsSlice(lines: seq<string>, pos: Cursor, n: nat, tokenType: TokenType, error: Error)
    requires lines != [] && n <= |Rest(lines, pos)| && Expect(lines, pos, n, tokenType, error).Next?
    ensures var t := Expect(lines, pos, n, tokenType, error).token;
            IsSlice(lines, t) && t.start == pos && t.tokenType == tokenType
  {
    MakeTokenIsSlice(lines, pos, Plus(pos, n), tokenType);
  }

  lemma DefinitionIsSlice(lines: seq<string>, pos: Cursor)
    requires InLine(lines, pos)
    ensures IsSlice(lines, DefinitionAt(lines, pos).token) && EndsRight(lines, Equals, DefinitionAt(lines, pos).token)
  {
    var s := Rest(lines, pos);
    MakeTokenIsSlice(lines, pos, Plus(pos, RestOfLine(s)), Expression);
    RestOfLineIsShortest(s);
    assert Rest(lines, Plus(pos, RestOfLine(s))) == s[RestOfLine(s)..];
  }

  /** The parts of a construct that are told by what is read, not by a marker. */
  lemma PartIsSlice(lines: seq<string>, pos: Cursor)
    requires InLine(lines, pos)
    ensures LowerAt(lines, pos).Next? ==> IsSlice(lines, LowerAt(lines, pos).token)
    ensures UpperAt(lines, pos).Next? ==> IsSlice(lines, UpperAt(lines, pos).token)
    ensures ParensAt(lines, pos).Next? ==> IsSlice(lines, ParensAt(lines, pos).token)
  {
    var s := Rest(lines, pos);
    if FindDots(s).Some? { MakeTokenIsSlice(lines, pos, Plus(pos, FindDots(s).value), Expression); }
    if ParseInParens(s).Some? { MakeTokenIsSlice(lines, pos, Plus(pos, ParseInParens(s).value), Expression); }
    if pos.line + 1 < |lines| { MakeTokenIsSlice(lines, pos, Cursor(pos.line + 1, 0), Expression); }
  }

  lemma NextIsSlice(lines: seq<string>, previous: TokenType, last: Token)
    requires lines != [] && NextAfter(lines, previous, last).Next?
    ensures var t := NextAfter(lines, previous, last).token;
            && IsSlice(lines, t) && t.start == Resume(lines, previous, last)
            && EndsRight(lines, last.tokenType, t)
  {
    var pos := Resume(lines, previous, last);
    if NeedsScan(lines, previous, last) {
      ScanIsSlice(lines, pos);
    } else {
      var s := Rest(lines, pos);
      if last.tokenType.KwVar? || last.tokenType.KwFor? || last.tokenType.KwRange? {
        ExpectIsSlice(lines, pos, IdentifierLength(s), Ident, IdExpected);
      } else if last.tokenType.Ident? && previous.KwVar? {
        ExpectIsSlice(lines, pos, if StartsWith(s, '=') then 1 else 0, Equals, EqualsExpected);
      } else if last.tokenType.Expression? {
        ExpectIsSlice(lines, pos, if StartsTwice(s, '.') then 2 else 0, DotDot, DotsExpected);
      } else {
        PartIsSlice(lines, pos);
        DefinitionIsSlice(lines, pos);
      }
    }
  }

  // ----- Between two tokens ----------------------------------------------------------------------------

  lemma SliceInLine(lines: seq<string>, c: Cursor, n: nat)
    requires InLine(lines, c) && n <= |Rest(lines, c)|
    ensures InLine(lines, Plus(c, n)) && Offset(lines, Plus(c, n)) == Offset(lines, c) + n <= |Text(lines)|
    ensures Text(lines)[Offset(lines, c)..Offset(lines, c) + n] == Rest(lines, c)[..n]
  {
    OffsetInLine(lines, c);
    OffsetInLine(lines, Plus(c, n));
    assert Text(lines)[Offset(lines, c)..Offset(lines, c) + n] == Text(lines)[Offset(lines, c)..][..n];
  }

  lemma OffsetOfNext(lines: seq<string>, c: Cursor)
    requires InLine(lines, c)
    ensures Offset(lines, Cursor(c.line + 1, 0)) == Offset(lines, c) + |Rest(lines, c)|
  {
    assert lines[..c.line + 1] == lines[..c.line] + [lines[c.line]];
    TextOfConcat(lines[..c.line], [lines[c.line]]);
    assert Text([lines[c.line]]) == lines[c.line];
  }

  lemma OffsetOfNextLine(lines: seq<string>, c: Cursor)
    requires InLine(lines, c)
    ensures Offset(lines, Cursor(c.line + 1, 0)) == Offset(lines, c) + |Rest(lines, c)| <= |Text(lines)|
    ensures Text(lines)[Offset(lines, c)..Offset(lines, Cursor(c.line + 1, 0))] == Rest(lines, c)
  {
    OffsetOfNext(lines, c);
    OffsetInLine(lines, c);
    TakeOfConcat(Text(lines), Offset(lines, c), Rest(lines, c), Text(lines[c.line + 1..]));
  }

  lemma TakeOfConcat(text: string, a: nat, b: string, c: string)
    requires a <= |text| && text[a..] == b + c
    ensures a + |b| <= |text| && text[a..a + |b|] == b
  {
    assert text[a..a + |b|] == text[a..][..|b|];
  }

  /** Behind a definition the rest of the line is dropped. */
  lemma ResumeDropsLine(lines: seq<string>, c: Cursor)
    requires AreLines(lines) && InLine(lines, c) && (Rest(lines, c) == "" || EndsDefinition(Rest(lines, c), 0))
    ensures Droppable(Rest(lines, c))
  {
    var rest := Rest(lines, c);
    if rest != "" && rest[0] == NEWLINE {
      assert IsLine(lines[c.line]);
      assert rest == [NEWLINE];
    }
  }

  lemma ResumeDropsSpaces(lines: seq<string>, c: Cursor, n: nat)
    requires InLine(lines, c) && n <= SpaceRun(Rest(lines, c))
    ensures InLine(lines, Plus(c, n)) && Offset(lines, Plus(c, n)) == Offset(lines, c) + n <= |Text(lines)|
    ensures Droppable(Text(lines)[Offset(lines, c)..Offset(lines, c) + n])
  {
    SpaceRunIsLongest(Rest(lines, c));
    SliceInLine(lines, c, n);
  }

  /** Otherwise the tokenizer goes on behind some of the white space at the end of the last token. */
  lemma ResumeSkipsSpaces(lines: seq<string>, previous: TokenType, last: Token) returns (n: nat)
    requires !(last.tokenType == Expression && previous == Equals)
    ensures n <= SpaceRun(Rest(lines, last.end)) && Resume(lines, previous, last) == Plus(last.end, n)
  {
    n := Resume(lines, previous, last).column - last.end.column;
  }

  predicate Drops(lines: seq<string>, c: Cursor, pos: Cursor) {
    && InText(lines, c) && InText(lines, pos)
    && Offset(lines, c) <= Offset(lines, pos) <= |Text(lines)|
    && Droppable(Text(lines)[Offset(lines, c)..Offset(lines, pos)])
  }

  lemma ResumeDrops(lines: seq<string>, previous: TokenType, last: Token)
    requires AreLines(lines) && InLine(lines, last.end) && EndsRight(lines, previous, last)
    ensures Drops(lines, last.end, Resume(lines, previous, last))
  {
    if last.tokenType == Expression && previous == Equals {
      OffsetOfNextLine(lines, last.end);
      ResumeDropsLine(lines, last.end);
    } else {
      var n := ResumeSkipsSpaces(lines, previous, last);
      ResumeDropsSpaces(lines, last.end, n);
    }
  }

  // ----- All tokens of a text -----------------------------------------------------------------------------

  function TypeBefore(tokens: seq<Token>, k: nat): TokenType
    requires k <= |tokens|
  {
    if k == 0 then CodeText else tokens[k - 1].tokenType
  }

  lemma {:induction false} LexesPrefix(lines: seq<string>, tokens: seq<Token>, k: nat)
    requires Lexes(lines, tokens) && k <= |tokens|
    ensures Lexes(lines, tokens[..k])
  {
    if k < |tokens| {
      LexesPrefix(lines, tokens[..|tokens| - 1], k);
      assert tokens[..|tokens| - 1][..k] == tokens[..k];
    } else {
      assert tokens[..k] == tokens;
    }
  }

  lemma FirstOfAutomaton(lines: seq<string>, tokens: seq<Token>)
    requires Lexes(lines, tokens) && tokens != []
    ensures ScanAt(lines, Cursor(0, 0)) == Next(tokens[0])
  {
    LexesPrefix(lines, tokens, 1);
    assert tokens[..1][..0] == [];
  }

  lemma StepOfAutomaton(lines: seq<string>, tokens: seq<Token>, k: nat)
    requires Lexes(lines, tokens) && 0 < k < |tokens|
    ensures NextAfter(lines, TypeBefore(tokens, k - 1), tokens[k - 1]) == Next(tokens[k])
  {
    LexesPrefix(lines, tokens, k + 1);
    assert tokens[..k + 1][..k] == tokens[..k];
    assert tokens[..k][..k - 1] == tokens[..k - 1];
  }

  /** Every token is its slice of the text. */
  lemma TokensAreSlices(lines: seq<string>, tokens: seq<Token>, k: nat)
    requires Lexes(lines, tokens) && k < |tokens|
    ensures IsSlice(lines, tokens[k]) && EndsRight(lines, TypeBefore(tokens, k), tokens[k])
    ensures k == 0 ==> StartOf(lines, tokens[k]) == 0
  {
    if k == 0 {
      FirstOfAutomaton(lines, tokens);
      ScanIsSlice(lines, Cursor(0, 0));
    } else {
      StepOfAutomaton(lines, tokens, k);
      NextIsSlice(lines, TypeBefore(tokens, k - 1), tokens[k - 1]);
    }
  }

  /** The tokens are in order, never overlap, and only white space and comments lie between them. */
  lemma TokensFollow(lines: seq<string>, tokens: seq<Token>, k: nat)
    requires AreLines(lines) && Lexes(lines, tokens) && 0 < k < |tokens|
    ensures Follows(lines, tokens[k - 1], tokens[k])
  {
    TokensAreSlices(lines, tokens, k - 1);
    TokensAreSlices(lines, tokens, k);
    StepOfAutomaton(lines, tokens, k);
    NextIsSlice(lines, TypeBefore(tokens, k - 1), tokens[k - 1]);
    ResumeDrops(lines, TypeBefore(tokens, k - 1), tokens[k - 1]);
  }

  // ----- Plain code and markers ---------------------------------------------------------------------------

  lemma {:induction false} MarkerFromIsFirst(lines: seq<string>, pos: Cursor, c: Cursor)
    requires InText(lines, pos) && InLine(lines, c) && !Before(c, pos)
    requires MarkerFrom(lines, pos).Some? ==> Before(c, MarkerFrom(lines, pos).value)
    ensures !IsMarker(Rest(lines, c))
    decreases |lines| - pos.line
  {
    var line := Rest(lines, pos);
    if c.line == pos.line {
      var j := c.column - pos.column;
      assert Rest(lines, c) == line[j..];
      if j < |line| { FirstMarkerIsLeftmost(line, j); }
    } else {
      MarkerFromIsFirst(lines, Cursor(pos.line + 1, 0), c);
    }
  }

  lemma NextIsScan(lines: seq<string>, previous: TokenType, last: Token)
    requires lines != [] && NextAfter(lines, previous, last).Next?
    requires NextAfter(lines, previous, last).token.tokenType !in {Ident, Equals, DotDot, Expression}
    ensures InText(lines, Resume(lines, previous, last))
    ensures NextAfter(lines, previous, last) == ScanAt(lines, Resume(lines, previous, last))
  {
  }

  /** Code and markers come from the scan for the next marker, nothing else does. */
  lemma ScannedToken(lines: seq<string>, tokens: seq<Token>, k: nat)
    requires Lexes(lines, tokens) && k < |tokens|
    requires tokens[k].tokenType == CodeText || IsMarkerType(tokens[k].tokenType)
    ensures InText(lines, tokens[k].start) && ScanAt(lines, tokens[k].start) == Next(tokens[k])
  {
    TokensAreSlices(lines, tokens, k);
    if k == 0 {
      FirstOfAutomaton(lines, tokens);
    } else {
      StepOfAutomaton(lines, tokens, k);
      NextIsScan(lines, TypeBefore(tokens, k - 1), tokens[k - 1]);
      NextIsSlice(lines, TypeBefore(tokens, k - 1), tokens[k - 1]);
    }
  }

  /** No marker begins within a token of plain code. */
  lemma CodeIsPlain(lines: seq<string>, tokens: seq<Token>, k: nat, c: Cursor)
    requires Lexes(lines, tokens) && k < |tokens| && tokens[k].tokenType == CodeText
    requires InLine(lines, c) && !Before(c, tokens[k].start) && (tokens[k].end == EOF || Before(c, tokens[k].end))
    ensures !IsMarker(Rest(lines, c))
  {
    ScannedToken(lines, tokens, k);
    EndOfScan(lines, tokens[k].start);
    MarkerFromIsFirst(lines, tokens[k].start, c);
  }

  lemma EndOfScan(lines: seq<string>, pos: Cursor)
    requires lines != [] && InText(lines, pos)
    ensures var t := ScanAt(lines, pos).token;
            t.tokenType == CodeText ==>
              t.end == match MarkerFrom(lines, pos) case None => EOF case Some(at) => at
  {
    var at := MarkerFrom(lines, pos);
    if at.Some? { MarkerAdvances(lines, at.value); }
  }

  /** A marker's token is all of the first entry of the table that matches where the token begins. */
  lemma MarkersAreWhole(lines: seq<string>, tokens: seq<Token>, k: nat) returns (entry: nat)
    requires Lexes(lines, tokens) && k < |tokens| && IsMarkerType(tokens[k].tokenType)
    ensures var s := Rest(lines, tokens[k].start);
            && entry < |TOKEN_TABLE| && TOKEN_TABLE[entry] == tokens[k].tokenType && IsFirstEntry(entry, s)
            && tokens[k].end == Plus(tokens[k].start, MatchLength(tokens[k].tokenType, s))
  {
    ScannedToken(lines, tokens, k);
    entry := EntryIsFirst(Rest(lines, tokens[k].start));
  }

  // ----- Nothing but white space is lost --------------------------------------------------------------------

  function Visible(s: string): string {
    if s == "" then ""
    else Visible(s[..|s| - 1]) + (if IsSpace(s[|s| - 1]) then "" else [s[|s| - 1]])
  }

  lemma {:induction false} VisibleOfConcat(a: string, b: string)
    ensures Visible(a + b) == Visible(a) + Visible(b)
  {
    if b == "" {
      assert a + b == a;
    } else {
      assert (a + b)[..|a + b| - 1] == a + b[..|b| - 1];
      VisibleOfConcat(a, b[..|b| - 1]);
    }
  }

  lemma {:induction false} VisibleOfBlank(s: string)
    requires IsBlank(s)
    ensures Visible(s) == ""
  {
    if s != "" {
      VisibleOfBlank(s[..|s| - 1]);
    }
  }

  /** The values of the tokens, one after the other. */
  function Values(tokens: seq<Token>): string {
    if tokens == [] then "" else Values(tokens[..|tokens| - 1]) + tokens[|tokens| - 1].value
  }

  /** No comment is left in the text; pump.py strips them before it tokenizes. */
  predicate HasNoComment(s: string) {
    forall i :: 0 <= i < |s| ==> !StartsTwice(s[i..], '$')
  }

  lemma VisibleUpTo(text: string, a: nat, b: nat)
    requires a <= b <= |text|
    ensures Visible(text[..b]) == Visible(text[..a]) + Visible(text[a..b])
  {
    assert text[..b] == text[..a] + text[a..b];
    VisibleOfConcat(text[..a], text[a..b]);
  }

  lemma GapIsInvisible(text: string, a: nat, b: nat)
    requires a <= b <= |text| && HasNoComment(text) && Droppable(text[a..b])
    ensures Visible(text[..b]) == Visible(text[..a])
  {
    assert !StartsTwice(text[a..b], '$') by {
      if a < |text| { assert !StartsTwice(text[a..], '$'); }
    }
    VisibleOfBlank(text[a..b]);
    VisibleUpTo(text, a, b);
  }

  lemma VisibleOfToken(lines: seq<string>, t: Token)
    requires IsSlice(lines, t)
    ensures Visible(Text(lines)[StartOf(lines, t)..EndOf(lines, t)]) == Visible(t.value)
  {
    if t.tokenType == CodeText {
      VisibleOfConcat(t.value, [NEWLINE]);
      VisibleOfBlank([NEWLINE]);
    }
  }

  lemma ValuesOfOneMore(tokens: seq<Token>, k: nat)
    requires k < |tokens|
    ensures Values(tokens[..k + 1]) == Values(tokens[..k]) + tokens[k].value
  {
    assert tokens[..k + 1][..k] == tokens[..k];
  }

  /** One more token: `text` up to `e` is kept by `values`, up to `a` there is a gap, up to `b` the token. */
  lemma VisibleOfOneMore(text: string, values: string, e: nat, a: nat, b: nat, value: string)
    requires e <= a <= b <= |text| && Visible(values) == Visible(text[..e])
    requires Visible(text[..a]) == Visible(text[..e]) && Visible(text[a..b]) == Visible(value)
    ensures Visible(values + value) == Visible(text[..b])
  {
    VisibleOfConcat(values, value);
    VisibleUpTo(text, a, b);
  }

  lemma {:induction false} TokensKeepText(lines: seq<string>, tokens: seq<Token>, k: nat)
    requires AreLines(lines) && Lexes(lines, tokens) && k < |tokens| && HasNoComment(Text(lines))
    ensures IsSlice(lines, tokens[k])
    ensures Visible(Values(tokens[..k + 1])) == Visible(Text(lines)[..EndOf(lines, tokens[k])])
  {
    TokensAreSlices(lines, tokens, k);
    ValuesOfOneMore(tokens, k);
    VisibleOfToken(lines, tokens[k]);
    var e := 0;
    if k > 0 {
      TokensKeepText(lines, tokens, k - 1);
      TokensFollow(lines, tokens, k);
      e := EndOf(lines, tokens[k - 1]);
      GapIsInvisible(Text(lines), e, StartOf(lines, tokens[k]));
    }
    VisibleOfOneMore(Text(lines), Values(tokens[..k]), e, StartOf(lines, tokens[k]), EndOf(lines, tokens[k]),
                     tokens[k].value);
  }

  /** Unless it ends with an error, the tokenizer loses nothing of a text without comments but white
      space. */
  method Tokenize(s: string) returns (tokens: seq<Token>, error: Option<Error>)
    ensures s == "" ==> tokens == [] && error == None
    ensures s != "" ==> Lexes(SplitLines(s), tokens)
    ensures s != "" ==> NextToken(SplitLines(s), tokens) == match error case None => Stop case Some(e) => Fail(e)
    ensures error.None? && HasNoComment(s) ==> Visible(Values(tokens)) == Visible(s)
  {
    tokens, error := [], None;
    if s != "" {
      var lines := SplitLines(s);
      SplitLinesKeepsText(s);
      tokens, error := TokenizeLines(lines);
      if error.None? && HasNoComment(s) {
        LastTokenEndsText(lines, tokens);
        TokensKeepText(lines, tokens, |tokens| - 1);
        assert tokens[..|tokens| - 1 + 1] == tokens;
        assert s[..|s|] == s;
      }
    }
  }

  lemma LastTokenEndsText(lines: seq<string>, tokens: seq<Token>)
    requires lines != [] && NextToken(lines, tokens) == Stop
    ensures tokens != [] && tokens[|tokens| - 1].end == EOF
  {
    if tokens != [] {
      assert NextToken(lines, tokens) == NextAfter(lines, LastType(tokens[..|tokens| - 1]), tokens[|tokens| - 1]);
    }
  }

  lemma DotsEndInLine(lines: seq<string>, tokens: seq<Token>)
    requires Lexes(lines, tokens) && LastType(tokens) == DotDot
    ensures InLine(lines, tokens[|tokens| - 1].end)
  {
    var k := |tokens| - 1;
    FirstOfAutomaton(lines, tokens);
    ScanIsSlice(lines, Cursor(0, 0));
    if k > 0 {
      StepOfAutomaton(lines, tokens, k);
      DotsAreAPart(lines, TypeBefore(tokens, k - 1), tokens[k - 1]);
    }
  }

  lemma DotsAreAPart(lines: seq<string>, previous: TokenType, last: Token)
    requires lines != []
    requires NextAfter(lines, previous, last).Next? && NextAfter(lines, previous, last).token.tokenType == DotDot
    ensures InLine(lines, NextAfter(lines, previous, last).token.end)
  {
    if NeedsScan(lines, previous, last) { ScanIsSlice(lines, Resume(lines, previous, last)); }
  }

  /** Against the grammar, a range on the last line of the text is an error, because its upper bound is
      cut out up to the start of the next line. */
  lemma RangeNeedsNextLine(lines: seq<string>, tokens: seq<Token>)
    requires Lexes(lines, tokens) && LastType(tokens) == DotDot
    ensures NextToken(lines, tokens) == Fail(IndexError) <==> tokens[|tokens| - 1].end.line == |lines| - 1
    ensures NextToken(lines, tokens).Fail? ==> NextToken(lines, tokens) == Fail(IndexError)
  {
    DotsEndInLine(lines, tokens);
    AfterDots(lines, tokens[|tokens| - 1], LastType(tokens[..|tokens| - 1]));
  }
}
