/** What every token of a Pump text reads, and where it starts, said by the characters of its line. */
module PumpTokenText {
  import opened Wrappers

  import opened PumpLines
  import opened PumpParens
  import opened PumpPatterns
  import opened PumpSyntax
  import opened PumpTokenLayout
  import opened PumpTokenizer
  import opened PythonText

  // ----- Markers by their characters --------------------------------------------------------------

  /** A keyword and white space behind it. */
  predicate IsKeyword(name: string, s: string) {
    "$" + name <= s && |s| > 1 + |name| && s[1 + |name|] in " \t\n\r\U{0B}\U{0C}"
  }

  /** The marker stands for a line of its own: the code in front of it loses its newline. */
  predicate TakesNewline(s: string) {
    || "]]" <= s
    || IsKeyword("var", s) || IsKeyword("for", s) || IsKeyword("range", s)
    || IsKeyword("if", s) || IsKeyword("elif", s) || IsKeyword("else", s)
  }

  predicate IsAnyKeyword(s: string) {
    TakesNewline(s) && s[0] == '$'
  }

  lemma KeywordIff(name: string, s: string)
    requires s != "" && s[0] == '$' && IsWord(name)
    ensures IsKeyword(name, s) <==> IsSpacedWord(name, s)
  {
    KeywordIffWord(name, s);
    assert "$" + name <= s <==> name <= s[1..];
    if name <= s[1..] && |s| > 1 + |name| {
      WhiteSpace(s[1 + |name|]);
      assert s[1..][|name|..][0] == s[1 + |name|];
    }
  }

  lemma AllKeywords(s: string)
    requires s != "" && s[0] == '$'
    ensures IsKeyword("var", s) <==> IsSpacedWord("var", s)
    ensures IsKeyword("for", s) <==> IsSpacedWord("for", s)
    ensures IsKeyword("range", s) <==> IsSpacedWord("range", s)
    ensures IsKeyword("if", s) <==> IsSpacedWord("if", s)
    ensures IsKeyword("elif", s) <==> IsSpacedWord("elif", s)
    ensures IsKeyword("else", s) <==> IsSpacedWord("else", s)
  {
    KeywordIff("var", s);
    KeywordIff("for", s);
    KeywordIff("range", s);
    KeywordIff("if", s);
    KeywordIff("elif", s);
    KeywordIff("else", s);
  }

  lemma StripsNewlineIff(s: string)
    requires IsMarker(s)
    ensures StripsNewline(Entry(s)) <==> TakesNewline(s)
  {
    if s[0] == '$' { AllKeywords(s); }
  }

  /** `value` is the keyword and all the white space behind it. */
  predicate IsKeywordText(name: string, value: string, after: string) {
    && "$" + name <= value && |value| > 1 + |name| && IsBlank(value[1 + |name|..])
    && (after != "" ==> !IsSpace(after[0]))
  }

  predicate IsIdentifierText(value: string, after: string) {
    && value != "" && IsWordStart(value[0]) && (forall i :: 0 <= i < |value| ==> IsWordChar(value[i]))
    && (after != "" ==> !IsWordChar(after[0]))
  }

  /** Brackets take one newline behind them. */
  predicate IsBracketText(brackets: string, value: string, after: string) {
    value == brackets + "\n" || (value == brackets && (after != "" ==> after[0] != '\n'))
  }

  /** `value` is a marker of that type and ends where it has to in front of `after`. */
  predicate IsMarkerText(tokenType: TokenType, value: string, after: string) {
    match tokenType
    case KwVar => IsKeywordText("var", value, after)
    case KwElif => IsKeywordText("elif", value, after)
    case KwElse => IsKeywordText("else", value, after)
    case KwFor => IsKeywordText("for", value, after)
    case KwIf => IsKeywordText("if", value, after)
    case KwRange => IsKeywordText("range", value, after)
    case DollarId =>
      "$" <= value && IsIdentifierText(value[1..], after) && !IsAnyKeyword(value + after)
    case EscapedDollar => value == "$($)"
    case Dollar => value == "$" && !("($)" <= after) && (after != "" ==> !IsWordStart(after[0]))
    case Open => IsBracketText("[[", value, after)
    case Close => IsBracketText("]]", value, after)
    case _ => false
  }

  lemma KeywordReads(name: string, s: string)
    requires KeywordLength(name, s) > 0
    ensures IsKeywordText(name, s[..KeywordLength(name, s)], s[KeywordLength(name, s)..])
  {
    var rest := s[1..][|name|..];
    var n := SpaceRun(rest);
    SpaceRunIsLongest(rest);
    assert s == "$" + name + rest;
    assert s[..KeywordLength(name, s)][1 + |name|..] == rest[..n];
    assert s[KeywordLength(name, s)..] == rest[n..];
  }

  lemma IdentifierReads(s: string)
    requires IdentifierLength(s) > 0
    ensures IsIdentifierText(s[..IdentifierLength(s)], s[IdentifierLength(s)..])
  {
    WordRunIsLongest(s[1..]);
  }

  lemma DollarIdReads(s: string)
    requires IsMarker(s) && Entry(s) == DollarId
    ensures var n := MatchLength(DollarId, s); IsMarkerText(DollarId, s[..n], s[n..])
  {
    var n := MatchLength(DollarId, s);
    AllKeywords(s);
    IdentifierReads(s[1..]);
    SplitsAt(s, n);
  }

  lemma SplitsAt(s: string, n: nat)
    requires 0 < n <= |s|
    ensures s[..n][1..] == s[1..][..n - 1] && s[n..] == s[1..][n - 1..] && s[..n] + s[n..] == s
  {
  }

  lemma MarkerReads(s: string)
    requires IsMarker(s)
    ensures var n := MatchLength(Entry(s), s); IsMarkerText(Entry(s), s[..n], s[n..])
  {
    var k := EntryIsFirst(s);
    if s[0] == '$' {
      if Entry(s) == DollarId {
        DollarIdReads(s);
      } else if Entry(s) == Dollar {
        assert "($)" <= s[1..] ==> "$($)" <= s;
      } else if Entry(s) != EscapedDollar {
        SomeKeywordReads(s);
      }
    }
  }

  lemma SomeKeywordReads(s: string)
    requires IsMarker(s) && MatchLength(Entry(s), s) > 0 && Entry(s) in {KwVar, KwElif, KwElse, KwFor, KwIf, KwRange}
    ensures var n := MatchLength(Entry(s), s); IsMarkerText(Entry(s), s[..n], s[n..])
  {
    match Entry(s) {
      case KwVar => KeywordReads("var", s);
      case KwElif => KeywordReads("elif", s);
      case KwElse => KeywordReads("else", s);
      case KwFor => KeywordReads("for", s);
      case KwIf => KeywordReads("if", s);
      case KwRange => KeywordReads("range", s);
      case _ =>
    }
  }

  // ----- Tokens in their lines ----------------------------------------------------------------------

  /** The token is the front of what is left of its line, and `Rest(lines, t.end)` the rest of it. */
  predicate InOneLine(lines: seq<string>, t: Token) {
    && InLine(lines, t.start) && InLine(lines, t.end) && t.end == Plus(t.start, |t.value|)
    && Rest(lines, t.start) == t.value + Rest(lines, t.end)
  }

  lemma MakeInLine(lines: seq<string>, pos: Cursor, n: nat, tokenType: TokenType)
    requires InLine(lines, pos) && n <= |Rest(lines, pos)|
    ensures InLine(lines, Plus(pos, n))
    ensures var t := MakeToken(lines, pos, Plus(pos, n), tokenType);
            && InOneLine(lines, t) && t.value == Rest(lines, pos)[..n]
            && Rest(lines, t.end) == Rest(lines, pos)[n..]
  {
    var s := Rest(lines, pos);
    assert lines[pos.line][pos.column..pos.column + n] == s[..n];
    assert s == s[..n] + s[n..];
  }

  /** A definition goes up to the end of its line or a comment. */
  predicate IsDefinitionText(value: string, after: string) {
    && '\n' !in value && (forall i :: 0 <= i < |value| ==> !("$$" <= (value + after)[i..]))
    && (after == "" || after[0] == '\n' || "$$" <= after)
  }

  lemma DefinitionReads(s: string)
    ensures IsDefinitionText(s[..RestOfLine(s)], s[RestOfLine(s)..])
  {
    var n := RestOfLine(s);
    RestOfLineIsShortest(s);
    assert s[..n] + s[n..] == s;
    forall i | 0 <= i < n
      ensures !("$$" <= s[i..]) && s[i] != '\n'
    {
      assert !EndsDefinition(s, i);
    }
  }

  /** A lower bound goes up to the first two dots. */
  predicate IsLowerText(value: string, after: string) {
    ".." <= after && forall i :: 0 <= i < |value| ==> !(".." <= (value + after)[i..])
  }

  lemma LowerReads(s: string)
    requires FindDots(s).Some?
    ensures IsLowerText(s[..FindDots(s).value], s[FindDots(s).value..])
  {
    var n := FindDots(s).value;
    assert s[..n] + s[n..] == s;
    forall i | 0 <= i < n
      ensures !(".." <= s[i..])
    {
      if ".." <= s[i..] { FindDotsIsLeftmost(s, i); }
    }
  }

  /** An expression by the token in front of it. */
  predicate IsExpressionText(lines: seq<string>, before: TokenType, t: Token) {
    match before
    case Equals => InOneLine(lines, t) && IsDefinitionText(t.value, Rest(lines, t.end))
    case Ident => InOneLine(lines, t) && IsLowerText(t.value, Rest(lines, t.end))
    case DotDot => t.end == Cursor(t.start.line + 1, 0) && t.value == Rest(lines, t.start)
    case Dollar => InOneLine(lines, t) && ParseInParens(Rest(lines, t.start)) == Some(|t.value|)
    case _ => false
  }

  /** Plain code goes up to the next marker, less the newline that the marker takes. */
  predicate IsCodeText(lines: seq<string>, t: Token) {
    && IsPosition(lines, t) && StartOf(lines, t) <= EndOf(lines, t) <= |Text(lines)|
    && (t.end != EOF ==> IsMarker(Rest(lines, t.end)))
    && var slice := Text(lines)[StartOf(lines, t)..EndOf(lines, t)];
       if slice != "" && slice[|slice| - 1] == '\n' && t.end != EOF && TakesNewline(Rest(lines, t.end))
       then t.value + "\n" == slice
       else t.value == slice
  }

  /** What the token behind one of type `before` reads. */
  predicate Reads(lines: seq<string>, before: TokenType, t: Token) {
    match t.tokenType
    case Ident => InOneLine(lines, t) && IsIdentifierText(t.value, Rest(lines, t.end))
    case Equals => InOneLine(lines, t) && t.value == "="
    case DotDot => InOneLine(lines, t) && t.value == ".."
    case Expression => IsExpressionText(lines, before, t)
    case CodeText => IsCodeText(lines, t)
    case _ => InOneLine(lines, t) && IsMarkerText(t.tokenType, t.value, Rest(lines, t.end))
  }

  lemma CodeToEndReads(lines: seq<string>, pos: Cursor)
    requires lines != [] && InText(lines, pos)
    ensures IsCodeText(lines, MakeToken(lines, pos, EOF, CodeText))
  {
    OffsetOfEnd(lines);
    if InLine(lines, pos) {
      SubStringIsSlice(lines, pos, EndOfText(lines));
    }
  }

  lemma CodeBetweenReads(lines: seq<string>, pos: Cursor, at: Cursor)
    requires lines != [] && InText(lines, pos) && InLine(lines, at) && IsMarker(Rest(lines, at)) && !Before(at, pos)
    ensures IsCodeText(lines, CodeBetween(lines, pos, at))
  {
    MakeTokenIsSlice(lines, pos, at, CodeText);
    StripsNewlineIff(Rest(lines, at));
    if InLine(lines, pos) {
      SubStringIsSlice(lines, pos, at);
      var t := MakeToken(lines, pos, at, CodeText);
      assert t.value != "" ==> t.value == t.value[..|t.value| - 1] + [t.value[|t.value| - 1]];
    }
  }

  lemma ScanReads(lines: seq<string>, pos: Cursor, before: TokenType)
    requires lines != [] && InText(lines, pos)
    ensures Reads(lines, before, ScanAt(lines, pos).token)
  {
    match MarkerFrom(lines, pos) {
      case None => CodeToEndReads(lines, pos);
      case Some(at) =>
        if at == pos {
          var s := Rest(lines, at);
          MarkerAdvances(lines, at);
          MarkerReads(s);
          MakeInLine(lines, at, MatchLength(Entry(s), s), Entry(s));
        } else {
          CodeBetweenReads(lines, pos, at);
        }
    }
  }

  lemma IdentifierTokenReads(lines: seq<string>, pos: Cursor, before: TokenType)
    requires lines != [] && IdentifierAt(lines, pos).Next?
    ensures Reads(lines, before, IdentifierAt(lines, pos).token)
  {
    IdentifierReads(Rest(lines, pos));
    MakeInLine(lines, pos, IdentifierLength(Rest(lines, pos)), Ident);
  }

  lemma EqualsTokenReads(lines: seq<string>, pos: Cursor, before: TokenType)
    requires lines != [] && EqualsAt(lines, pos).Next?
    ensures Reads(lines, before, EqualsAt(lines, pos).token)
  {
    MakeInLine(lines, pos, 1, Equals);
  }

  lemma DotsTokenReads(lines: seq<string>, pos: Cursor, before: TokenType)
    requires lines != [] && DotsAt(lines, pos).Next?
    ensures Reads(lines, before, DotsAt(lines, pos).token)
  {
    MakeInLine(lines, pos, 2, DotDot);
  }

  lemma DefinitionTokenReads(lines: seq<string>, pos: Cursor)
    requires InLine(lines, pos)
    ensures Reads(lines, Equals, DefinitionAt(lines, pos).token)
  {
    DefinitionReads(Rest(lines, pos));
    MakeInLine(lines, pos, RestOfLine(Rest(lines, pos)), Expression);
  }

  lemma LowerTokenReads(lines: seq<string>, pos: Cursor)
    requires InLine(lines, pos) && LowerAt(lines, pos).Next?
    ensures Reads(lines, Ident, LowerAt(lines, pos).token)
  {
    LowerReads(Rest(lines, pos));
    MakeInLine(lines, pos, FindDots(Rest(lines, pos)).value, Expression);
  }

  lemma ParensTokenReads(lines: seq<string>, pos: Cursor)
    requires InLine(lines, pos) && ParensAt(lines, pos).Next?
    ensures Reads(lines, Dollar, ParensAt(lines, pos).token)
  {
    MakeInLine(lines, pos, ParseInParens(Rest(lines, pos)).value, Expression);
  }

  lemma PartReads(lines: seq<string>, previous: TokenType, last: Token, pos: Cursor)
    requires lines != [] && !NeedsScan(lines, previous, last) && PartAt(lines, previous, last, pos).Next?
    ensures Reads(lines, last.tokenType, PartAt(lines, previous, last, pos).token)
  {
    if last.tokenType.KwVar? || last.tokenType.KwFor? || last.tokenType.KwRange? {
      IdentifierTokenReads(lines, pos, last.tokenType);
    } else if last.tokenType.Ident? && previous.KwVar? {
      EqualsTokenReads(lines, pos, last.tokenType);
    } else if last.tokenType.Expression? {
      DotsTokenReads(lines, pos, last.tokenType);
    } else if last.tokenType.DotDot? {
      UpperReads(lines, pos);
    } else if last.tokenType.Dollar? {
      ParensTokenReads(lines, pos);
    } else if last.tokenType.Ident? {
      LowerTokenReads(lines, pos);
    } else {
      DefinitionTokenReads(lines, pos);
    }
  }

  lemma UpperReads(lines: seq<string>, pos: Cursor)
    requires InLine(lines, pos) && UpperAt(lines, pos).Next?
    ensures UpperAt(lines, pos).token.value == Rest(lines, pos)
  {
    var rest, next := lines[pos.line][pos.column..], Cursor(pos.line + 1, 0);
    assert lines[pos.line + 1..next.line] == [] && lines[next.line][..0] == "";
    assert [rest] + lines[pos.line + 1..next.line] + [lines[next.line][..0]] == [rest, ""];
    TextOfLineStart(rest);
    assert SubString(lines, pos, next) == Text([rest, ""]);
  }

  lemma TextOfLineStart(s: string)
    ensures Text([s, ""]) == s
  {
    assert [s, ""][..1] == [s] && [s][..0] == [];
    assert Text([s]) == "" + s;
  }

  /** Every token reads as its type says. */
  lemma TokensRead(lines: seq<string>, tokens: seq<Token>, k: nat)
    requires Lexes(lines, tokens) && k < |tokens|
    ensures Reads(lines, TypeBefore(tokens, k), tokens[k])
  {
    if k == 0 {
      FirstOfAutomaton(lines, tokens);
      ScanReads(lines, Cursor(0, 0), CodeText);
    } else {
      var previous, last := TypeBefore(tokens, k - 1), tokens[k - 1];
      StepOfAutomaton(lines, tokens, k);
      if NeedsScan(lines, previous, last) {
        ScanReads(lines, Resume(lines, previous, last), last.tokenType);
      } else {
        PartReads(lines, previous, last, Resume(lines, previous, last));
      }
    }
  }

  /** When code loses its newline. */
  lemma CodeLosesNewlineIff(lines: seq<string>, tokens: seq<Token>, k: nat)
    requires Lexes(lines, tokens) && k < |tokens| && tokens[k].tokenType == CodeText
    ensures var t := tokens[k];
            && IsPosition(lines, t) && StartOf(lines, t) <= EndOf(lines, t) <= |Text(lines)|
            && var slice := Text(lines)[StartOf(lines, t)..EndOf(lines, t)];
               && (t.value + "\n" == slice <==>
                     slice != "" && slice[|slice| - 1] == '\n' && t.end != EOF && TakesNewline(Rest(lines, t.end)))
               && (t.value + "\n" != slice ==> t.value == slice)
  {
    TokensRead(lines, tokens, k);
  }

  // ----- Where tokens start --------------------------------------------------------------------------

  /** Behind the name of `$for` one character of white space is skipped, behind other names and behind `=`
      all of it in the line, behind a definition the rest of the line, and else nothing. */
  predicate StartsRight(lines: seq<string>, previous: TokenType, last: Token, start: Cursor) {
    var rest := Rest(lines, last.end);
    if last.tokenType == Ident && previous == KwFor then
      start == if rest != "" && IsSpace(rest[0]) then Plus(last.end, 1) else last.end
    else if last.tokenType == Ident || last.tokenType == Equals then
      && start.line == last.end.line && 0 <= start.column - last.end.column <= |rest|
      && IsBlank(rest[..start.column - last.end.column])
      && (start.column - last.end.column < |rest| ==> !IsSpace(rest[start.column - last.end.column]))
    else if last.tokenType == Expression && previous == Equals then start == Cursor(last.end.line + 1, 0)
    else start == last.end
  }

  lemma ResumesRight(lines: seq<string>, previous: TokenType, last: Token)
    ensures StartsRight(lines, previous, last, Resume(lines, previous, last))
  {
    var rest := Rest(lines, last.end);
    SpaceRunIsLongest(rest);
    assert Plus(last.end, SpaceRun(rest)).column - last.end.column == SpaceRun(rest);
  }

  lemma TokensStart(lines: seq<string>, tokens: seq<Token>, k: nat)
    requires Lexes(lines, tokens) && k < |tokens|
    ensures k == 0 ==> tokens[0].start == Cursor(0, 0)
    ensures k > 0 ==> StartsRight(lines, TypeBefore(tokens, k - 1), tokens[k - 1], tokens[k].start)
  {
    if k == 0 {
      FirstOfAutomaton(lines, tokens);
      ScanIsSlice(lines, Cursor(0, 0));
    } else {
      StepOfAutomaton(lines, tokens, k);
      NextIsSlice(lines, TypeBefore(tokens, k - 1), tokens[k - 1]);
      ResumesRight(lines, TypeBefore(tokens, k - 1), tokens[k - 1]);
    }
  }

  // ----- Which tokens follow which -------------------------------------------------------------------

  predicate IsScannedType(t: TokenType) {
    t == CodeText || IsMarkerType(t)
  }

  /** The type of a token by the two in front of it. */
  predicate TypeFits(previous: TokenType, last: TokenType, t: TokenType) {
    match last
    case KwVar | KwFor | KwRange => t == Ident
    case Ident =>
      if previous == KwVar then t == Equals else if previous == KwRange then t == Expression else IsScannedType(t)
    case Equals => t == Expression || t == Open
    case Expression => if previous == Ident then t == DotDot else IsScannedType(t)
    case DotDot | Dollar => t == Expression
    case _ => IsScannedType(t)
  }

  lemma TypesFollow(lines: seq<string>, tokens: seq<Token>, k: nat)
    requires Lexes(lines, tokens) && 0 < k < |tokens|
    ensures TypeFits(TypeBefore(tokens, k - 1), tokens[k - 1].tokenType, tokens[k].tokenType)
  {
    var previous, last := TypeBefore(tokens, k - 1), tokens[k - 1];
    StepOfAutomaton(lines, tokens, k);
    if NeedsScan(lines, previous, last) {
      ScanIsSlice(lines, Resume(lines, previous, last));
      if last.tokenType == Equals {
        ScanAtMarker(lines, Resume(lines, previous, last));
      }
    }
  }

  // ----- When the tokenizer fails ---------------------------------------------------------------------

  lemma NoDotsIff(s: string)
    ensures FindDots(s) == None <==> forall i :: 0 <= i < |s| ==> !(".." <= s[i..])
  {
    if FindDots(s) == None {
      forall i | 0 <= i < |s|
        ensures !(".." <= s[i..])
      {
        if ".." <= s[i..] { FindDotsIsLeftmost(s, i); }
      }
    } else {
      assert ".." <= s[FindDots(s).value..];
    }
  }

  /** What is missing where the tokenizer has come to, behind tokens that end at `at` and `pos`. */
  predicate Misses(lines: seq<string>, previous: TokenType, last: TokenType, pos: Cursor, error: Error) {
    var rest := Rest(lines, pos);
    match error
    case IdExpected => last in {KwVar, KwFor, KwRange} && (rest != "" ==> !IsWordStart(rest[0]))
    case EqualsExpected => last == Ident && previous == KwVar && !("=" <= rest)
    case DotsExpected => last == Ident && previous == KwRange && forall i :: 0 <= i < |rest| ==> !(".." <= rest[i..])
    case ParenExpected => last == Dollar && ParseInParens(rest) == None
    case IndexError => last == DotDot && pos.line + 1 == |lines|
  }

  lemma PartFailsIff(lines: seq<string>, previous: TokenType, last: Token, pos: Cursor, error: Error)
    requires InLine(lines, pos) && !NeedsScan(lines, previous, last)
    requires last.tokenType == Expression ==> ".." <= Rest(lines, pos)
    ensures PartAt(lines, previous, last, pos) == Fail(error) <==> Misses(lines, previous, last.tokenType, pos, error)
  {
    NoDotsIff(Rest(lines, pos));
  }

  lemma ResumesInLine(lines: seq<string>, previous: TokenType, last: Token)
    requires InLine(lines, last.end) && !NeedsScan(lines, previous, last)
    ensures InLine(lines, Resume(lines, previous, last))
  {
    var n := ResumeSkipsSpaces(lines, previous, last);
  }

  lemma ScanFailsNever(lines: seq<string>, previous: TokenType, last: Token, error: Error)
    requires AreLines(lines) && InLine(lines, last.end) && EndsRight(lines, previous, last)
    requires NeedsScan(lines, previous, last)
    ensures NextAfter(lines, previous, last) != Fail(error)
    ensures !Misses(lines, previous, last.tokenType, Resume(lines, previous, last), error)
  {
    ResumeDrops(lines, previous, last);
  }

  lemma PartStepFailsIff(lines: seq<string>, previous: TokenType, last: Token, error: Error)
    requires InLine(lines, last.end) && !NeedsScan(lines, previous, last)
    requires last.tokenType == Expression ==> ".." <= Rest(lines, last.end)
    ensures NextAfter(lines, previous, last) == Fail(error) <==>
            Misses(lines, previous, last.tokenType, Resume(lines, previous, last), error)
  {
    ResumesInLine(lines, previous, last);
    PartFailsIff(lines, previous, last, Resume(lines, previous, last), error);
  }

  lemma LowerEndsAtDots(lines: seq<string>, tokens: seq<Token>, k: nat)
    requires Lexes(lines, tokens) && k < |tokens|
    ensures tokens[k].tokenType == Expression && TypeBefore(tokens, k) == Ident ==> ".." <= Rest(lines, tokens[k].end)
  {
    TokensRead(lines, tokens, k);
  }

  /** Where there is a next token to be read, the tokenizer fails exactly on what is missing there. */
  lemma FailsIff(lines: seq<string>, tokens: seq<Token>, error: Error)
    requires AreLines(lines) && Lexes(lines, tokens) && tokens != []
    requires tokens[|tokens| - 1].end != EOF
    ensures var previous, last := TypeBefore(tokens, |tokens| - 1), tokens[|tokens| - 1];
            NextToken(lines, tokens) == Fail(error) <==>
            Misses(lines, previous, last.tokenType, Resume(lines, previous, last), error)
  {
    var k := |tokens| - 1;
    var previous, last := TypeBefore(tokens, k), tokens[k];
    TokensAreSlices(lines, tokens, k);
    TypeOfPrefix(tokens);
    LowerEndsAtDots(lines, tokens, k);
    if NeedsScan(lines, previous, last) {
      ScanFailsNever(lines, previous, last, error);
    } else {
      PartStepFailsIff(lines, previous, last, error);
    }
  }

  lemma TypeOfPrefix(tokens: seq<Token>)
    requires tokens != []
    ensures LastType(tokens[..|tokens| - 1]) == TypeBefore(tokens, |tokens| - 1)
  {
  }
}
