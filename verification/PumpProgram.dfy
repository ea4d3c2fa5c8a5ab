/** A Pump program from its text to what it prints: comments are stripped, then tokenizer, parser and
    evaluator take over. The lines of the output are wrapped afterwards. */
module PumpProgram {
  import opened Wrappers

  import opened PumpComments
  import opened PumpEvaluator
  import opened PumpLines
  import opened PumpParser
  import opened PumpPatterns
  import opened PumpSemantics
  import opened PumpSyntax
  import Layout = PumpTokenLayout
  import Leftover = PumpLeftover
  import Tokenizer = PumpTokenizer

  datatype ProgramError =
    | BadToken(token: Tokenizer.Error)
    | BadSyntax(parse: ParseError)
    | BadRun(run: RunError)

  /** `tokens` are all tokens of the text. */
  predicate IsTokenized(text: string, tokens: seq<Token>) {
    if text == "" then tokens == []
    else Tokenizer.Lexes(SplitLines(text), tokens) && Tokenizer.NextToken(SplitLines(text), tokens) == Tokenizer.Stop
  }

  /** A text has at most one list of tokens. */
  lemma TokensAreUnique(text: string, a: seq<Token>, b: seq<Token>)
    requires IsTokenized(text, a) && IsTokenized(text, b)
    ensures a == b
  {
    if text != "" {
      LexesAreUnique(SplitLines(text), a, b);
    }
  }

  lemma LexesAreUnique(lines: seq<string>, a: seq<Token>, b: seq<Token>)
    requires Tokenizer.Lexes(lines, a) && Tokenizer.NextToken(lines, a) == Tokenizer.Stop
    requires Tokenizer.Lexes(lines, b) && Tokenizer.NextToken(lines, b) == Tokenizer.Stop
    ensures a == b
  {
    var n := if |a| < |b| then |a| else |b|;
    PrefixesAgree(lines, a, b, n);
    NotStoppedBefore(lines, a, n);
    NotStoppedBefore(lines, b, n);
    assert |a| == n ==> a[..n] == a;
    assert |b| == n ==> b[..n] == b;
  }

  lemma {:induction false} PrefixesAgree(lines: seq<string>, a: seq<Token>, b: seq<Token>, n: nat)
    requires Tokenizer.Lexes(lines, a) && Tokenizer.Lexes(lines, b) && n <= |a| && n <= |b|
    ensures a[..n] == b[..n]
  {
    if n > 0 {
      PrefixesAgree(lines, a, b, n - 1);
      NextOfPrefix(lines, a, n - 1);
      NextOfPrefix(lines, b, n - 1);
      SameSnoc(a, b, n - 1);
    }
  }

  lemma SameSnoc(a: seq<Token>, b: seq<Token>, k: nat)
    requires k < |a| && k < |b| && a[..k] == b[..k] && a[k] == b[k]
    ensures a[..k + 1] == b[..k + 1]
  {
    assert a[..k + 1] == a[..k] + [a[k]] && b[..k + 1] == b[..k] + [b[k]];
  }

  lemma NextOfPrefix(lines: seq<string>, tokens: seq<Token>, k: nat)
    requires Tokenizer.Lexes(lines, tokens) && k < |tokens|
    ensures Tokenizer.NextToken(lines, tokens[..k]) == Tokenizer.Next(tokens[k])
  {
    Layout.LexesPrefix(lines, tokens, k + 1);
    assert tokens[..k + 1][..k] == tokens[..k];
  }

  lemma NotStoppedBefore(lines: seq<string>, tokens: seq<Token>, n: nat)
    requires Tokenizer.Lexes(lines, tokens) && n <= |tokens|
    ensures n < |tokens| ==> Tokenizer.NextToken(lines, tokens[..n]) != Tokenizer.Stop
  {
    if n < |tokens| { NextOfPrefix(lines, tokens, n); }
  }

  /** The tree of the text, up to a stray bracket or else branch; what comes behind is ignored without an
      error. */
  method ParseToAST(text: string) returns (r: Result<seq<Node>, ProgramError>, ghost tokens: seq<Token>)
    ensures r.Ok? || r.error.BadSyntax? ==> IsTokenized(text, tokens)
    ensures r.Ok? ==> ReadCode(tokens).Ok? && ReadCode(tokens).value.0 == r.value
    ensures r.Ok? ==> (ReadCode(tokens).value.1 == [] <==> Leftover.HasNoStray(tokens))
    ensures r.Ok? && Layout.HasNoComment(text) ==> Layout.Visible(Layout.Values(tokens)) == Layout.Visible(text)
    ensures r.Err? && r.error.BadSyntax? ==> ReadCode(tokens) == Err(r.error.parse)
    ensures r.Err? && r.error.BadToken? ==>
              && text != "" && Tokenizer.Lexes(SplitLines(text), tokens)
              && Tokenizer.NextToken(SplitLines(text), tokens) == Tokenizer.Fail(r.error.token)
    ensures r.Err? ==> !r.error.BadRun?
    ensures IsPlain(text) ==> r.Ok? && tokens == if text == "" then [] else [Token(Cursor(0, 0), EOF, text, CodeText)]
  {
    var list, error := Layout.Tokenize(text);
    tokens := list;
    if IsPlain(text) {
      PlainTextIsOneToken(text, tokens, error);
    }
    if IsPlain(text) && text != "" {
      ReadsOneCode(tokens[0]);
    }
    if error.Some? {
      return Err(BadToken(error.value)), tokens;
    }
    var parser := new TokenList(list);
    var code := parser.ParseCodeNode();
    if code.Err? {
      return Err(BadSyntax(code.error)), tokens;
    }
    if text != "" {
      Leftover.NothingIsLeftIff(SplitLines(text), tokens, code.value, parser.tokens);
    }
    r := Ok(code.value);
  }

  /** What a program prints, as the tree of its stripped text means it in an empty environment. Up to white
      space its tokens are its lines up to their comments. A program without markers prints itself. */
  method ConvertFromPumpSource(py: Interpreter, source: string)
    returns (r: Result<string, ProgramError>, ghost tokens: seq<Token>)
    ensures r.Ok? ==> IsTokenized(StripMetaComments(source), tokens) && ReadCode(tokens).Ok?
    ensures r.Ok? ==> Layout.Visible(Layout.Values(tokens)) == Layout.Visible(CutComments(source))
    ensures r.Ok? ==> TextOf(DenoteCode(py, Scope(map[], map[]), ReadCode(tokens).value.0)) == Ok(r.value)
    ensures r.Err? && r.error.BadToken? ==>
              && StripMetaComments(source) != "" && Tokenizer.Lexes(SplitLines(StripMetaComments(source)), tokens)
              && Tokenizer.NextToken(SplitLines(StripMetaComments(source)), tokens) == Tokenizer.Fail(r.error.token)
    ensures r.Err? && r.error.BadSyntax? ==>
              IsTokenized(StripMetaComments(source), tokens) && ReadCode(tokens) == Err(r.error.parse)
    ensures r.Err? && r.error.BadRun? ==>
              && IsTokenized(StripMetaComments(source), tokens) && ReadCode(tokens).Ok?
              && TextOf(DenoteCode(py, Scope(map[], map[]), ReadCode(tokens).value.0)) == Err(r.error.run)
    ensures IsPlain(source) ==> r == Ok(source)
  {
    var text := StripMetaComments(source);
    StrippedHasNoComment(source);
    StripKeepsText(source);
    if IsPlain(source) {
      PlainHasNoComment(source);
      StripIsIdentityIff(source);
    }
    var ast, list := ParseToAST(text);
    tokens := list;
    if ast.Err? {
      return Err(ast.error), tokens;
    }
    if IsPlain(text) && text != "" {
      ReadsOneCode(tokens[0]);
      OneCodePrintsItself(tokens[0], py, Scope(map[], map[]));
    }
    var output := new Output();
    var env := new Env();
    assert env.Visible() == Scope(map[], map[]);
    ghost var printed := TextOf(DenoteCode(py, Scope(map[], map[]), ast.value));
    var ran := RunCode(py, env, ast.value, output);
    if ran.Err? {
      return Err(BadRun(ran.error)), tokens;
    }
    assert printed.Ok? ==> "" + printed.value == printed.value;
    r := Ok(output.text);
  }

  // ----- Programs without markers ------------------------------------------------------------------

  predicate IsPlain(text: string) {
    forall i :: 0 <= i < |text| ==> !IsMarker(text[i..])
  }

  lemma PlainHasNoComment(text: string)
    requires IsPlain(text)
    ensures Layout.HasNoComment(text)
  {
    forall i | 0 <= i < |text|
      ensures !StartsTwice(text[i..], '$')
    {
      assert !IsMarker(text[i..]);
    }
  }

  lemma NoMarkerInLines(lines: seq<string>, c: Cursor)
    requires IsPlain(Text(lines)) && InLine(lines, c)
    ensures !IsMarker(Rest(lines, c))
  {
    OffsetInLine(lines, c);
    var s := Rest(lines, c);
    if s != "" {
      assert !IsMarker(Text(lines)[Offset(lines, c)..]);
    }
  }

  lemma PlainTextIsOneToken(text: string, tokens: seq<Token>, error: Option<Tokenizer.Error>)
    requires IsPlain(text)
    requires text == "" ==> tokens == [] && error == None
    requires text != "" ==>
               && Tokenizer.Lexes(SplitLines(text), tokens)
               && Tokenizer.NextToken(SplitLines(text), tokens)
                  == match error case None => Tokenizer.Stop case Some(e) => Tokenizer.Fail(e)
    ensures error == None && IsTokenized(text, tokens)
    ensures tokens == if text == "" then [] else [Token(Cursor(0, 0), EOF, text, CodeText)]
  {
    if text != "" {
      var lines := SplitLines(text);
      SplitLinesKeepsText(text);
      ScanOfPlain(lines);
      FirstTokenIsAll(lines, tokens, Token(Cursor(0, 0), EOF, text, CodeText));
    }
  }

  lemma ReadsOneCode(t: Token)
    requires t.tokenType == CodeText
    ensures ReadCode([t]) == Ok(([RawCode(t)], []))
  {
    assert [t][1..] == [];
    assert [RawCode(t)] == [RawCode(t)] + [];
  }

  lemma OneCodePrintsItself(t: Token, py: Interpreter, scope: Scope)
    ensures TextOf(DenoteCode(py, scope, [RawCode(t)])) == Ok(t.value)
  {
    OneNode(py, scope, RawCode(t));
  }

  lemma ScanOfPlain(lines: seq<string>)
    requires lines != [] && IsPlain(Text(lines))
    ensures Tokenizer.ScanAt(lines, Cursor(0, 0)) == Tokenizer.Next(Token(Cursor(0, 0), EOF, Text(lines), CodeText))
  {
    var start := Cursor(0, 0);
    var at := Tokenizer.MarkerFrom(lines, start);
    if at.Some? {
      NoMarkerInLines(lines, at.value);
    }
    OffsetOfEnd(lines);
    SubStringIsSlice(lines, start, EndOfText(lines));
    assert Text(lines)[0..|Text(lines)|] == Text(lines);
    assert lines[..0] == [];
  }

  lemma FirstTokenIsAll(lines: seq<string>, tokens: seq<Token>, t: Token)
    requires Tokenizer.Lexes(lines, tokens)
    requires Tokenizer.ScanAt(lines, Cursor(0, 0)) == Tokenizer.Next(t) && t.end == EOF
    requires Tokenizer.NextToken(lines, tokens).Stop? || Tokenizer.NextToken(lines, tokens).Fail?
    ensures tokens == [t] && Tokenizer.NextToken(lines, tokens) == Tokenizer.Stop
  {
    if tokens != [] {
      Layout.FirstOfAutomaton(lines, tokens);
      if |tokens| > 1 {
        Layout.StepOfAutomaton(lines, tokens, 1);
        assert false;
      }
    }
  }
}
