/** Three programs on which Pump does not do what its grammar says: a range on the last line, a stray
    closing bracket, and an expression whose parenthesis is never opened. */
module PumpExamples {
  import opened Wrappers

  import opened PumpLines
  import opened PumpParens
  import opened PumpParser
  import opened PumpPatterns
  import opened PumpSyntax
  import opened PythonText
  import Tokenizer = PumpTokenizer

  lemma {:induction false} WordRunIs(s: string, n: nat)
    requires n < |s| && !IsWordChar(s[n]) && forall i :: 0 <= i < n ==> IsWordChar(s[i])
    ensures WordRun(s) == n
  {
    if n > 0 {
      WordRunIs(s[1..], n - 1);
    }
  }

  lemma OneLine(text: string)
    requires text != "" && forall i :: 0 <= i < |text| ==> text[i] != NEWLINE && text[i] != '\r'
    ensures SplitLines(text) == [text]
  {
    TextOfFirst([text]);
    assert Text([text]) == text;
    forall i | 0 <= i < |text| - 1
      ensures !EndsLine(text, i)
    {
    }
    assert [text][1..] == [];
    assert AreWholeLines([text]);
    SplitLinesIff(text, [text]);
  }

  /** A marker at the start of the only line. */
  lemma MarkerComesFirst(line: string, entry: TokenType, n: nat)
    requires IsMarker(line) && Entry(line) == entry && MatchLength(entry, line) == n
    ensures Tokenizer.ScanAt([line], Cursor(0, 0))
            == Tokenizer.Next(Token(Cursor(0, 0), Cursor(0, n), line[..n], entry))
  {
    assert Rest([line], Cursor(0, 0)) == line;
    Tokenizer.MarkerAdvances([line], Cursor(0, 0));
    Tokenizer.ScanAtMarker([line], Cursor(0, 0));
  }

  lemma LexesFour(lines: seq<string>, a: Token, b: Token, c: Token, d: Token)
    requires lines != [] && Tokenizer.ScanAt(lines, Cursor(0, 0)) == Tokenizer.Next(a)
    requires Tokenizer.NextAfter(lines, CodeText, a) == Tokenizer.Next(b)
    requires Tokenizer.NextAfter(lines, a.tokenType, b) == Tokenizer.Next(c)
    requires Tokenizer.NextAfter(lines, b.tokenType, c) == Tokenizer.Next(d)
    ensures Tokenizer.Lexes(lines, [a, b, c, d])
    ensures Tokenizer.NextToken(lines, [a, b, c, d]) == Tokenizer.NextAfter(lines, c.tokenType, d)
  {
    Tokenizer.LexesOneMore(lines, [], a);
    assert [] + [a] == [a];
    Tokenizer.LexesOneMore(lines, [a], b);
    assert [a] + [b] == [a, b];
    Tokenizer.LexesOneMore(lines, [a, b], c);
    assert [a, b] + [c] == [a, b, c];
    Tokenizer.LexesOneMore(lines, [a, b, c], d);
    assert [a, b, c] + [d] == [a, b, c, d];
  }

  // ----- A range on the last line --------------------------------------------------------------------

  const RANGE_TEXT := "$range i 1..3"

  lemma RangeKeyword()
    ensures IsMarker(RANGE_TEXT) && Entry(RANGE_TEXT) == KwRange
  {
    WordRunIs(RANGE_TEXT[1..], 5);
    assert RANGE_TEXT[1..][..5] == "range";
  }

  lemma RangeKeywordLength()
    ensures MatchLength(KwRange, RANGE_TEXT) == 7
  {
    var t := RANGE_TEXT[1..];
    assert t[..5] == "range";
    assert t[5..][0] == ' ' && t[5..][1] == 'i';
    assert SpaceRun(t[5..][1..]) == 0;
  }

  function RangeTokens(): seq<Token> {
    [Token(Cursor(0, 0), Cursor(0, 7), "$range ", KwRange), Token(Cursor(0, 7), Cursor(0, 8), "i", Ident),
     Token(Cursor(0, 9), Cursor(0, 10), "1", Expression), Token(Cursor(0, 10), Cursor(0, 12), "..", DotDot)]
  }

  lemma RangeFirst()
    ensures Tokenizer.ScanAt([RANGE_TEXT], Cursor(0, 0)) == Tokenizer.Next(RangeTokens()[0])
  {
    RangeKeyword();
    RangeKeywordLength();
    MarkerComesFirst(RANGE_TEXT, KwRange, 7);
    assert RANGE_TEXT[..7] == "$range ";
  }

  lemma RangeIdentifier()
    ensures Tokenizer.NextAfter([RANGE_TEXT], CodeText, RangeTokens()[0]) == Tokenizer.Next(RangeTokens()[1])
  {
    assert Rest([RANGE_TEXT], Cursor(0, 7)) == "i 1..3";
    assert "i 1..3"[1..] == " 1..3";
    assert SubString([RANGE_TEXT], Cursor(0, 7), Cursor(0, 8)) == "i";
  }

  lemma LowerText()
    ensures SpaceRun(" 1..3") == 1 && FindDots("1..3") == Some(1)
  {
    assert " 1..3"[1..] == "1..3";
    assert "1..3"[1..] == "..3";
  }

  lemma RangeLower()
    ensures Tokenizer.NextAfter([RANGE_TEXT], KwRange, RangeTokens()[1]) == Tokenizer.Next(RangeTokens()[2])
  {
    var lines, pos := [RANGE_TEXT], Cursor(0, 9);
    LowerText();
    Tokenizer.AfterIdentifier(lines, KwRange, RangeTokens()[1]);
    assert Rest(lines, Cursor(0, 8)) == " 1..3";
    assert Rest(lines, pos) == "1..3";
    assert SubString(lines, pos, Cursor(0, 10)) == "1";
    assert Tokenizer.LowerAt(lines, pos) == Tokenizer.Next(RangeTokens()[2]);
  }

  lemma RangeDots()
    ensures Tokenizer.NextAfter([RANGE_TEXT], Ident, RangeTokens()[2]) == Tokenizer.Next(RangeTokens()[3])
  {
    assert Rest([RANGE_TEXT], Cursor(0, 10)) == "..3";
    Tokenizer.AfterLower([RANGE_TEXT], RangeTokens()[2]);
    assert SubString([RANGE_TEXT], Cursor(0, 10), Cursor(0, 12)) == "..";
  }

  /** The program that is one range and no more is an IndexError. */
  lemma RangeOnLastLine()
    ensures SplitLines(RANGE_TEXT) == [RANGE_TEXT]
    ensures Tokenizer.Lexes([RANGE_TEXT], RangeTokens()) && Tokenizer.LastType(RangeTokens()) == DotDot
    ensures Tokenizer.NextToken([RANGE_TEXT], RangeTokens()) == Tokenizer.Fail(Tokenizer.IndexError)
  {
    var ts := RangeTokens();
    OneLine(RANGE_TEXT);
    RangeFirst();
    RangeIdentifier();
    RangeLower();
    RangeDots();
    LexesFour([RANGE_TEXT], ts[0], ts[1], ts[2], ts[3]);
    Tokenizer.AfterDots([RANGE_TEXT], ts[3], Expression);
  }

  // ----- A stray bracket ----------------------------------------------------------------------------------

  const STRAY_TEXT := "a]]b"

  function StrayTokens(): seq<Token> {
    [Token(Cursor(0, 0), Cursor(0, 1), "a", CodeText), Token(Cursor(0, 1), Cursor(0, 3), "]]", Close),
     Token(Cursor(0, 3), EOF, "b", CodeText)]
  }

  lemma StrayMarker()
    ensures FirstMarker(STRAY_TEXT) == Some(1) && FirstMarker("b") == None
    ensures IsMarker("]]b") && Entry("]]b") == Close && MatchLength(Close, "]]b") == 2
  {
    assert STRAY_TEXT[1..] == "]]b";
    assert !IsMarker(STRAY_TEXT);
    assert FirstMarker("]]b") == Some(0);
    assert "b"[1..] == "";
  }

  lemma StrayFirst()
    ensures Tokenizer.ScanAt([STRAY_TEXT], Cursor(0, 0)) == Tokenizer.Next(StrayTokens()[0])
  {
    var lines, pos := [STRAY_TEXT], Cursor(0, 0);
    StrayMarker();
    assert Rest(lines, pos) == STRAY_TEXT;
    Tokenizer.MarkerInLine(lines, pos, 1);
    assert Rest(lines, Cursor(0, 1)) == "]]b";
    assert SubString(lines, pos, Cursor(0, 1)) == "a";
  }

  lemma StrayNext()
    ensures Tokenizer.NextAfter([STRAY_TEXT], CodeText, StrayTokens()[0]) == Tokenizer.Next(StrayTokens()[1])
    ensures Tokenizer.NextAfter([STRAY_TEXT], CodeText, StrayTokens()[1]) == Tokenizer.Next(StrayTokens()[2])
  {
    var lines := [STRAY_TEXT];
    StrayMarker();
    assert Rest(lines, Cursor(0, 1)) == "]]b";
    Tokenizer.AfterCode(lines, CodeText, StrayTokens()[0]);
    assert SubString(lines, Cursor(0, 1), Cursor(0, 3)) == "]]";
    assert Rest(lines, Cursor(0, 3)) == "b";
    Tokenizer.AfterMarker(lines, CodeText, StrayTokens()[1]);
    assert Tokenizer.MarkerFrom(lines, Cursor(0, 3)) == None;
    assert SubString(lines, Cursor(0, 3), EOF) == "b";
  }

  lemma LexesThree(lines: seq<string>, a: Token, b: Token, c: Token)
    requires lines != [] && Tokenizer.ScanAt(lines, Cursor(0, 0)) == Tokenizer.Next(a)
    requires Tokenizer.NextAfter(lines, CodeText, a) == Tokenizer.Next(b)
    requires Tokenizer.NextAfter(lines, a.tokenType, b) == Tokenizer.Next(c) && c.end == EOF
    ensures Tokenizer.Lexes(lines, [a, b, c]) && Tokenizer.NextToken(lines, [a, b, c]) == Tokenizer.Stop
  {
    Tokenizer.LexesOneMore(lines, [], a);
    assert [] + [a] == [a];
    Tokenizer.LexesOneMore(lines, [a], b);
    assert [a] + [b] == [a, b];
    Tokenizer.LexesOneMore(lines, [a, b], c);
    assert [a, b] + [c] == [a, b, c];
  }

  /** The code behind a stray bracket is dropped without an error. */
  lemma StrayBracketEndsProgram()
    ensures SplitLines(STRAY_TEXT) == [STRAY_TEXT] && Tokenizer.Lexes([STRAY_TEXT], StrayTokens())
    ensures Tokenizer.NextToken([STRAY_TEXT], StrayTokens()) == Tokenizer.Stop
    ensures ReadCode(StrayTokens()) == Ok(([RawCode(StrayTokens()[0])], StrayTokens()[1..]))
  {
    var ts := StrayTokens();
    OneLine(STRAY_TEXT);
    StrayFirst();
    StrayNext();
    LexesThree([STRAY_TEXT], ts[0], ts[1], ts[2]);
    ReadsUpToBracket(ts);
  }

  lemma ReadsUpToBracket(ts: seq<Token>)
    requires |ts| > 1 && ts[0].tokenType == CodeText && ts[1].tokenType == Close
    ensures ReadCode(ts) == Ok(([RawCode(ts[0])], ts[1..]))
  {
    assert ReadAtomic(ts) == Ok((Some(RawCode(ts[0])), ts[1..]));
    assert ReadAtomic(ts[1..]) == Ok((None, ts[1..]));
    assert [RawCode(ts[0])] + [] == [RawCode(ts[0])];
  }

  // ----- A parenthesis that is never opened -------------------------------------------------------------

  const UNOPENED_TEXT := "$1)"

  function UnopenedTokens(): seq<Token> {
    [Token(Cursor(0, 0), Cursor(0, 1), "$", Dollar), Token(Cursor(0, 1), Cursor(0, 3), "1)", Expression),
     Token(Cursor(0, 3), EOF, "", CodeText)]
  }

  lemma UnopenedDollar()
    ensures Tokenizer.ScanAt([UNOPENED_TEXT], Cursor(0, 0)) == Tokenizer.Next(UnopenedTokens()[0])
  {
    WordRunIs(UNOPENED_TEXT[1..], 1);
    MarkerComesFirst(UNOPENED_TEXT, Dollar, 1);
  }

  lemma UnopenedRest()
    ensures Tokenizer.NextAfter([UNOPENED_TEXT], CodeText, UnopenedTokens()[0]) == Tokenizer.Next(UnopenedTokens()[1])
    ensures Tokenizer.NextAfter([UNOPENED_TEXT], Dollar, UnopenedTokens()[1]) == Tokenizer.Next(UnopenedTokens()[2])
  {
    var lines, pos := [UNOPENED_TEXT], Cursor(0, 1);
    assert Rest(lines, pos) == "1)";
    UnopenedToken();
    assert SubString(lines, pos, Cursor(0, 3)) == "1)";
    Tokenizer.AfterDollar(lines, CodeText, UnopenedTokens()[0]);
    assert Rest(lines, Cursor(0, 3)) == "";
    Tokenizer.AfterExpression(lines, Dollar, UnopenedTokens()[1]);
  }

  /** `1)` is read as the expression behind a `$`. */
  lemma UnopenedExpression()
    ensures SplitLines(UNOPENED_TEXT) == [UNOPENED_TEXT] && Tokenizer.Lexes([UNOPENED_TEXT], UnopenedTokens())
    ensures Tokenizer.NextToken([UNOPENED_TEXT], UnopenedTokens()) == Tokenizer.Stop
    ensures ReadCode(UnopenedTokens()) == Ok(([Exp(UnopenedTokens()[1]), RawCode(UnopenedTokens()[2])], []))
  {
    var ts := UnopenedTokens();
    OneLine(UNOPENED_TEXT);
    UnopenedDollar();
    UnopenedRest();
    LexesThree([UNOPENED_TEXT], ts[0], ts[1], ts[2]);
    ReadsExpression(ts);
  }

  lemma ReadsExpression(ts: seq<Token>)
    requires |ts| == 3 && ts[0].tokenType == Dollar && ts[1].tokenType == Expression && ts[2].tokenType == CodeText
    ensures ReadCode(ts) == Ok(([Exp(ts[1]), RawCode(ts[2])], []))
  {
    assert ReadAtomic(ts) == Ok((Some(Exp(ts[1])), ts[2..]));
    assert ReadCode(ts[2..]) == Ok(([RawCode(ts[2])], [])) by {
      assert ts[2..][1..] == [];
      assert [RawCode(ts[2])] + [] == [RawCode(ts[2])];
    }
    assert [Exp(ts[1])] + [RawCode(ts[2])] == [Exp(ts[1]), RawCode(ts[2])];
  }
}
