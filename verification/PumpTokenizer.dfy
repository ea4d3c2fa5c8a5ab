/** The tokenizer of Pump, a generator that scans the lines of a text. It is proved against an
    automaton that says, for every list of tokens, what the next token is; what a tokenizer owes to
    its text is then proved of the automaton. */
module PumpTokenizer {
  import opened Wrappers
  import opened PumpSyntax
  import opened PumpLines
  import opened PumpParens
  import opened PumpPatterns

  // ----- The automaton -----------------------------------------------------------------------------

  /** The first four are reported and end the program; the last is an exception of Python's. */
  datatype Error = IdExpected | EqualsExpected | DotsExpected | ParenExpected | IndexError

  datatype Step = Next(token: Token) | Stop | Fail(error: Error)

  function MakeToken(lines: seq<string>, start: Cursor, end: Cursor, tokenType: TokenType): Token
    requires lines != [] && InText(lines, start) && (end == EOF || InLine(lines, end))
  {
    Token(start, end, SubString(lines, start, end), tokenType)
  }

  predicate StartsWith(s: string, c: char) {
    s != "" && s[0] == c
  }

  /** `\s*` skipped. */
  function SkipSpaces(lines: seq<string>, pos: Cursor): Cursor {
    Plus(pos, SpaceRun(Rest(lines, pos)))
  }

  /** `\s` skipped, if it is there. */
  function SkipSpace(lines: seq<string>, pos: Cursor): Cursor {
    if SpaceRun(Rest(lines, pos)) > 0 then Plus(pos, 1) else pos
  }

  /** The `n` characters at `pos` as a token, an error if there are none. */
  function Expect(lines: seq<string>, pos: Cursor, n: nat, tokenType: TokenType, error: Error): (r: Step)
    requires lines != [] && n <= |Rest(lines, pos)|
    ensures r.Next? || r == Fail(error)
    ensures r.Next? ==> r.token.tokenType == tokenType && r.token.end == Plus(pos, n) && InLine(lines, r.token.end)
  {
    if n == 0 then Fail(error) else Next(MakeToken(lines, pos, Plus(pos, n), tokenType))
  }

  function IdentifierAt(lines: seq<string>, pos: Cursor): Step
    requires lines != []
  {
    Expect(lines, pos, IdentifierLength(Rest(lines, pos)), Ident, IdExpected)
  }

  function EqualsAt(lines: seq<string>, pos: Cursor): Step
    requires lines != []
  {
    Expect(lines, pos, if StartsWith(Rest(lines, pos), '=') then 1 else 0, Equals, EqualsExpected)
  }

  /** A block follows the equals sign, to be read as code. */
  predicate IsBlockAt(lines: seq<string>, pos: Cursor) {
    StartsTwice(Rest(lines, pos), '[')
  }

  function DefinitionAt(lines: seq<string>, pos: Cursor): Step
    requires InLine(lines, pos)
  {
    Next(MakeToken(lines, pos, Plus(pos, RestOfLine(Rest(lines, pos))), Expression))
  }

  function LowerAt(lines: seq<string>, pos: Cursor): (r: Step)
    requires InLine(lines, pos)
    ensures r.Next? ==>
              && r.token.tokenType == Expression && InLine(lines, r.token.end)
              && StartsTwice(Rest(lines, r.token.end), '.')
  {
    match FindDots(Rest(lines, pos))
    case None => Fail(DotsExpected)
    case Some(n) => Next(MakeToken(lines, pos, Plus(pos, n), Expression))
  }

  function DotsAt(lines: seq<string>, pos: Cursor): Step
    requires lines != []
  {
    Expect(lines, pos, if StartsTwice(Rest(lines, pos), '.') then 2 else 0, DotDot, DotsExpected)
  }

  /** The upper bound of a range takes the whole line, and needs a next one. */
  function UpperAt(lines: seq<string>, pos: Cursor): Step
    requires InLine(lines, pos)
  {
    if pos.line + 1 == |lines| then Fail(IndexError)
    else Next(MakeToken(lines, pos, Cursor(pos.line + 1, 0), Expression))
  }

  function ParensAt(lines: seq<string>, pos: Cursor): Step
    requires InLine(lines, pos)
  {
    match ParseInParens(Rest(lines, pos))
    case None => Fail(ParenExpected)
    case Some(n) => Next(MakeToken(lines, pos, Plus(pos, n), Expression))
  }

  /** The first marker from `pos` on. */
  function MarkerFrom(lines: seq<string>, pos: Cursor): (at: Option<Cursor>)
    requires InText(lines, pos)
    ensures at.Some? ==> InLine(lines, at.value) && !Before(at.value, pos) && IsMarker(Rest(lines, at.value))
    decreases |lines| - pos.line
  {
    if pos.line == |lines| then None
    else match FirstMarker(Rest(lines, pos))
         case Some(n) =>
           FirstMarkerIsLeftmost(Rest(lines, pos), n);
           assert Rest(lines, pos)[n..] == Rest(lines, Plus(pos, n));
           Some(Plus(pos, n))
         case None => MarkerFrom(lines, Cursor(pos.line + 1, 0))
  }

  function MarkerAt(lines: seq<string>, at: Cursor): Token
    requires InLine(lines, at) && IsMarker(Rest(lines, at))
  {
    var s := Rest(lines, at);
    MakeToken(lines, at, Plus(at, MatchLength(Entry(s), s)), Entry(s))
  }

  /** In front of these the code loses a newline. */
  predicate StripsNewline(entry: TokenType) {
    entry.KwVar? || entry.KwFor? || entry.KwRange? || entry.Close? || entry.KwIf? || entry.KwElif? || entry.KwElse?
  }

  function RStripNewLineFromToken(t: Token): Token {
    if t.value != "" && t.value[|t.value| - 1] == NEWLINE then t.(value := t.value[..|t.value| - 1]) else t
  }

  /** The code between `pos` and a marker. */
  function CodeBetween(lines: seq<string>, pos: Cursor, at: Cursor): Token
    requires InText(lines, pos) && InLine(lines, at) && IsMarker(Rest(lines, at))
  {
    var t := MakeToken(lines, pos, at, CodeText);
    if StripsNewline(Entry(Rest(lines, at))) then RStripNewLineFromToken(t) else t
  }

  /** The next token of plain code, or the marker that is there. */
  function ScanAt(lines: seq<string>, pos: Cursor): Step
    requires lines != [] && InText(lines, pos)
  {
    match MarkerFrom(lines, pos)
    case None => Next(MakeToken(lines, pos, EOF, CodeText))
    case Some(at) => Next(if at == pos then MarkerAt(lines, at) else CodeBetween(lines, pos, at))
  }

  /** Where the token after `last` begins. */
  function Resume(lines: seq<string>, previous: TokenType, last: Token): Cursor {
    match last.tokenType
    case Ident => if previous.KwFor? then SkipSpace(lines, last.end) else SkipSpaces(lines, last.end)
    case Equals => SkipSpaces(lines, last.end)
    case Expression => if previous.Equals? then Cursor(last.end.line + 1, 0) else last.end
    case _ => last.end
  }

  /** Whether the token after `last` is found by scanning for a marker. */
  predicate NeedsScan(lines: seq<string>, previous: TokenType, last: Token) {
    match last.tokenType
    case KwVar | KwFor | KwRange | DotDot | Dollar => false
    case Ident => !previous.KwVar? && !previous.KwRange?
    case Equals => IsBlockAt(lines, SkipSpaces(lines, last.end))
    case Expression => !previous.Ident?
    case _ => true
  }

  /** The token at `pos` that the construct around `last` asks for. */
  function PartAt(lines: seq<string>, previous: TokenType, last: Token, pos: Cursor): (r: Step)
    requires lines != [] && !NeedsScan(lines, previous, last)
    ensures r.Next? ==> r.token.tokenType in {Ident, Equals, DotDot, Expression} && InLine(lines, r.token.end)
  {
    if last.tokenType.KwVar? || last.tokenType.KwFor? || last.tokenType.KwRange? then IdentifierAt(lines, pos)
    else if last.tokenType.Ident? && previous.KwVar? then EqualsAt(lines, pos)
    else if last.tokenType.Expression? then DotsAt(lines, pos)
    else if !InLine(lines, pos) then Fail(IndexError)
    else if last.tokenType.DotDot? then UpperAt(lines, pos)
    else if last.tokenType.Dollar? then ParensAt(lines, pos)
    else if last.tokenType.Ident? then LowerAt(lines, pos)
    else DefinitionAt(lines, pos)
  }

  function NextAfter(lines: seq<string>, previous: TokenType, last: Token): Step
    requires lines != []
  {
    var pos := Resume(lines, previous, last);
    if last.end == EOF then Stop
    else if !InText(lines, pos) then Fail(IndexError)
    else if NeedsScan(lines, previous, last) then ScanAt(lines, pos)
    else PartAt(lines, previous, last, pos)
  }

  function LastType(tokens: seq<Token>): TokenType {
    if tokens == [] then CodeText else tokens[|tokens| - 1].tokenType
  }

  /** The token that follows `tokens`. */
  function NextToken(lines: seq<string>, tokens: seq<Token>): Step
    requires lines != []
  {
    if tokens == [] then ScanAt(lines, Cursor(0, 0))
    else NextAfter(lines, LastType(tokens[..|tokens| - 1]), tokens[|tokens| - 1])
  }

  /** The automaton reads `tokens` from the text. */
  predicate Lexes(lines: seq<string>, tokens: seq<Token>) {
    && lines != []
    && (tokens != [] ==>
          var init := tokens[..|tokens| - 1];
          Lexes(lines, init) && NextToken(lines, init) == Next(tokens[|tokens| - 1]))
  }

  lemma LexesOneMore(lines: seq<string>, tokens: seq<Token>, t: Token)
    requires Lexes(lines, tokens) && NextToken(lines, tokens) == Next(t)
    ensures Lexes(lines, tokens + [t])
    ensures NextToken(lines, tokens + [t]) == NextAfter(lines, LastType(tokens), t)
  {
    assert (tokens + [t])[..|tokens|] == tokens;
  }

  // ----- The generator ------------------------------------------------------------------------------

  lemma MarkerInLine(lines: seq<string>, pos: Cursor, n: nat)
    requires InLine(lines, pos) && FirstMarker(Rest(lines, pos)) == Some(n)
    ensures InLine(lines, Plus(pos, n)) && Rest(lines, Plus(pos, n)) == Rest(lines, pos)[n..]
    ensures MarkerFrom(lines, pos) == Some(Plus(pos, n))
  {
  }

  /** How a search goes on from the start of one line to the next. */
  function LineStart(cursor: Cursor, line: int): Cursor {
    if line == cursor.line then cursor else Cursor(line, 0)
  }

  method FindFirst(lines: seq<string>, cursor: Cursor) returns (found: Option<Token>)
    requires lines != [] && InText(lines, cursor)
    ensures found == match MarkerFrom(lines, cursor) case None => None case Some(at) => Some(MarkerAt(lines, at))
  {
    var curLineNumber := cursor.line;
    while curLineNumber < |lines|
      invariant cursor.line <= curLineNumber <= |lines|
      invariant MarkerFrom(lines, cursor) == MarkerFrom(lines, LineStart(cursor, curLineNumber))
    {
      var start := LineStart(cursor, curLineNumber);
      var line := lines[curLineNumber][start.column..];
      var m, best := FindFirstInLine(line, TOKEN_TABLE);
      if m.Some? {
        BestIsFirstMarker(line, best);
        MarkerInLine(lines, start, m.value.start);
        var foundStart := Plus(start, m.value.start);
        found := Some(MakeToken(lines, foundStart, Plus(foundStart, m.value.length), m.value.entry));
        assert found == Some(MarkerAt(lines, foundStart));
        return;
      }
      NothingFound(line);
      curLineNumber := curLineNumber + 1;
    }
    found := None;
  }

  /** What the generator has yielded so far, and what it goes on from. */
  predicate Scans(lines: seq<string>, tokens: seq<Token>, pos: Cursor) {
    Lexes(lines, tokens) && InText(lines, pos) && NextToken(lines, tokens) == ScanAt(lines, pos)
  }

  method Yield(lines: seq<string>, tokens: seq<Token>, t: Token) returns (more: seq<Token>)
    requires Lexes(lines, tokens) && NextToken(lines, tokens) == Next(t)
    ensures more == tokens + [t] && Lexes(lines, more)
    ensures NextToken(lines, more) == NextAfter(lines, LastType(tokens), t)
    ensures LastType(more) == t.tokenType
  {
    LexesOneMore(lines, tokens, t);
    more := tokens + [t];
  }

  /** The code in front of a marker is a token unless the marker comes at once. */
  method YieldCode(lines: seq<string>, tokens: seq<Token>, pos: Cursor, found: Token) returns (more: seq<Token>)
    requires Scans(lines, tokens, pos)
    requires MarkerFrom(lines, pos).Some? && found == MarkerAt(lines, MarkerFrom(lines, pos).value)
    ensures Lexes(lines, more) && NextToken(lines, more) == Next(found)
    ensures more == tokens || (|more| == |tokens| + 1 && LastType(more) == CodeText)
  {
    more := tokens;
    if found.start != pos {
      var prevToken := MakeToken(lines, pos, found.start, CodeText);
      if StripsNewline(found.tokenType) {
        prevToken := RStripNewLineFromToken(prevToken);
      }
      more := Yield(lines, tokens, prevToken);
      AfterCode(lines, LastType(tokens), prevToken);
    }
  }

  lemma ScanAtMarker(lines: seq<string>, at: Cursor)
    requires InLine(lines, at) && IsMarker(Rest(lines, at))
    ensures ScanAt(lines, at) == Next(MarkerAt(lines, at))
  {
    assert Rest(lines, at)[0..] == Rest(lines, at);
    MarkerInLine(lines, at, 0);
  }

  lemma AfterCode(lines: seq<string>, previous: TokenType, t: Token)
    requires t.tokenType == CodeText && InLine(lines, t.end) && IsMarker(Rest(lines, t.end))
    ensures NextAfter(lines, previous, t) == Next(MarkerAt(lines, t.end))
  {
    ScanAtMarker(lines, t.end);
  }

  lemma AfterIdentifier(lines: seq<string>, previous: TokenType, t: Token)
    requires t.tokenType == Ident && InLine(lines, t.end)
    ensures InLine(lines, SkipSpaces(lines, t.end)) && InLine(lines, SkipSpace(lines, t.end))
    ensures previous == KwVar ==> NextAfter(lines, previous, t) == EqualsAt(lines, SkipSpaces(lines, t.end))
    ensures previous == KwFor ==> NextAfter(lines, previous, t) == ScanAt(lines, SkipSpace(lines, t.end))
    ensures previous == KwRange ==> NextAfter(lines, previous, t) == LowerAt(lines, SkipSpaces(lines, t.end))
  {
  }

  lemma AfterEquals(lines: seq<string>, t: Token)
    requires t.tokenType == Equals && InLine(lines, t.end)
    ensures var pos := SkipSpaces(lines, t.end);
            && InLine(lines, pos)
            && NextAfter(lines, Ident, t)
               == if IsBlockAt(lines, pos) then ScanAt(lines, pos) else DefinitionAt(lines, pos)
  {
  }

  lemma AfterDefinition(lines: seq<string>, t: Token)
    requires t.tokenType == Expression && InLine(lines, t.end)
    ensures InText(lines, Cursor(t.end.line + 1, 0))
    ensures NextAfter(lines, Equals, t) == ScanAt(lines, Cursor(t.end.line + 1, 0))
  {
  }

  lemma AfterLower(lines: seq<string>, t: Token)
    requires t.tokenType == Expression && InLine(lines, t.end) && StartsTwice(Rest(lines, t.end), '.')
    ensures InLine(lines, Plus(t.end, 2))
    ensures NextAfter(lines, Ident, t) == Next(MakeToken(lines, t.end, Plus(t.end, 2), DotDot))
  {
    assert NextAfter(lines, Ident, t) == DotsAt(lines, t.end);
  }

  lemma AfterDots(lines: seq<string>, t: Token, previous: TokenType)
    requires t.tokenType == DotDot && InLine(lines, t.end)
    ensures NextAfter(lines, previous, t) == UpperAt(lines, t.end)
  {
  }

  lemma AfterExpression(lines: seq<string>, previous: TokenType, t: Token)
    requires lines != [] && t.tokenType == Expression && InText(lines, t.end)
    requires previous == DotDot || previous == Dollar
    ensures NextAfter(lines, previous, t) == ScanAt(lines, t.end)
  {
  }

  lemma AfterDollar(lines: seq<string>, previous: TokenType, t: Token)
    requires t.tokenType == Dollar && InLine(lines, t.end)
    ensures NextAfter(lines, previous, t) == ParensAt(lines, t.end)
  {
  }

  predicate IsWholeMarker(entry: TokenType) {
    || entry.KwElif? || entry.KwElse? || entry.KwIf? || entry.DollarId? || entry.EscapedDollar?
    || entry.Open? || entry.Close?
  }

  predicate IsMarkerType(t: TokenType) {
    IsWholeMarker(t) || t.KwVar? || t.KwFor? || t.KwRange? || t.Dollar?
  }

  /** No marker is empty, so every round of the tokenizer gets further. */
  lemma MarkerAdvances(lines: seq<string>, at: Cursor)
    requires InLine(lines, at) && IsMarker(Rest(lines, at))
    ensures var t := MarkerAt(lines, at);
            && t.start == at && InLine(lines, t.end) && t.end.line == at.line && t.end.column > at.column
            && IsMarkerType(t.tokenType)
  {
    var k := EntryIsFirst(Rest(lines, at));
  }

  lemma AfterMarker(lines: seq<string>, previous: TokenType, t: Token)
    requires InLine(lines, t.end) && IsWholeMarker(t.tokenType)
    ensures NextAfter(lines, previous, t) == ScanAt(lines, t.end)
  {
  }

  /** The part of a construct that begins with `found` and stays on its line. */
  ghost predicate Continues(lines: seq<string>, tokens: seq<Token>, found: Token) {
    && Lexes(lines, tokens) && tokens != [] && tokens[|tokens| - 1] == found && InLine(lines, found.end)
  }

  /** The outcome of one round of the loop: it fails as the automaton does, or goes on further down
      the text. */
  ghost predicate RoundEnds(lines: seq<string>, tokens: seq<Token>, found: Token, pos: Cursor, error: Option<Error>) {
    match error
    case None => Scans(lines, tokens, pos) && !Before(pos, found.end)
    case Some(e) => Lexes(lines, tokens) && NextToken(lines, tokens) == Fail(e)
  }

  method TokenizeVar(lines: seq<string>, tokens0: seq<Token>, found: Token)
    returns (tokens: seq<Token>, pos: Cursor, error: Option<Error>)
    requires Continues(lines, tokens0, found) && found.tokenType == KwVar
    ensures RoundEnds(lines, tokens, found, pos, error)
  {
    tokens, pos, error := tokens0, found.end, None;
    var idToken := IdentifierAt(lines, pos);
    if idToken.Fail? { return tokens, pos, Some(idToken.error); }
    tokens := Yield(lines, tokens, idToken.token);
    AfterIdentifier(lines, found.tokenType, idToken.token);
    pos := SkipSpaces(lines, idToken.token.end);

    var eqToken := EqualsAt(lines, pos);
    if eqToken.Fail? { return tokens, pos, Some(eqToken.error); }
    tokens := Yield(lines, tokens, eqToken.token);
    AfterEquals(lines, eqToken.token);
    pos := SkipSpaces(lines, eqToken.token.end);
    tokens, pos := TokenizeDefinition(lines, tokens, pos);
  }

  method TokenizeDefinition(lines: seq<string>, tokens0: seq<Token>, pos0: Cursor)
    returns (tokens: seq<Token>, pos: Cursor)
    requires Lexes(lines, tokens0) && InLine(lines, pos0) && LastType(tokens0) == Equals
    requires NextToken(lines, tokens0)
             == if IsBlockAt(lines, pos0) then ScanAt(lines, pos0) else DefinitionAt(lines, pos0)
    ensures Scans(lines, tokens, pos) && !Before(pos, pos0)
  {
    tokens, pos := tokens0, pos0;
    if !IsBlockAt(lines, pos) {
      var expToken := DefinitionAt(lines, pos).token;
      tokens := Yield(lines, tokens, expToken);
      AfterDefinition(lines, expToken);
      pos := Cursor(expToken.end.line + 1, 0);
    }
  }

  method TokenizeFor(lines: seq<string>, tokens0: seq<Token>, found: Token)
    returns (tokens: seq<Token>, pos: Cursor, error: Option<Error>)
    requires Continues(lines, tokens0, found) && found.tokenType == KwFor
    ensures RoundEnds(lines, tokens, found, pos, error)
  {
    tokens, pos, error := tokens0, found.end, None;
    var idToken := IdentifierAt(lines, pos);
    if idToken.Fail? { return tokens, pos, Some(idToken.error); }
    tokens := Yield(lines, tokens, idToken.token);
    AfterIdentifier(lines, found.tokenType, idToken.token);
    pos := SkipSpace(lines, idToken.token.end);
  }

  method TokenizeRange(lines: seq<string>, tokens0: seq<Token>, found: Token)
    returns (tokens: seq<Token>, pos: Cursor, error: Option<Error>)
    requires Continues(lines, tokens0, found) && found.tokenType == KwRange
    ensures RoundEnds(lines, tokens, found, pos, error)
  {
    tokens, pos, error := tokens0, found.end, None;
    var idToken := IdentifierAt(lines, pos);
    if idToken.Fail? { return tokens, pos, Some(idToken.error); }
    tokens := Yield(lines, tokens, idToken.token);
    AfterIdentifier(lines, found.tokenType, idToken.token);
    pos := SkipSpaces(lines, idToken.token.end);

    var lower := LowerAt(lines, pos);
    if lower.Fail? { return tokens, pos, Some(lower.error); }
    tokens, pos, error := TokenizeBounds(lines, tokens, pos);
  }

  method TokenizeBounds(lines: seq<string>, tokens0: seq<Token>, pos0: Cursor)
    returns (tokens: seq<Token>, pos: Cursor, error: Option<Error>)
    requires Lexes(lines, tokens0) && LastType(tokens0) == Ident
    requires InLine(lines, pos0) && LowerAt(lines, pos0).Next? && NextToken(lines, tokens0) == LowerAt(lines, pos0)
    ensures match error
            case None => Scans(lines, tokens, pos) && !Before(pos, pos0)
            case Some(e) => Lexes(lines, tokens) && NextToken(lines, tokens) == Fail(e)
  {
    tokens, pos, error := tokens0, pos0, None;
    var lower := LowerAt(lines, pos);
    tokens := Yield(lines, tokens, lower.token);
    AfterLower(lines, lower.token);
    var dotsPos := lower.token.end;
    var dotsToken := MakeToken(lines, dotsPos, Plus(dotsPos, 2), DotDot);
    tokens := Yield(lines, tokens, dotsToken);
    AfterDots(lines, dotsToken, Expression);
    pos := Plus(dotsPos, 2);
    tokens, pos, error := TokenizeUpper(lines, tokens, pos);
  }

  method TokenizeUpper(lines: seq<string>, tokens0: seq<Token>, pos0: Cursor)
    returns (tokens: seq<Token>, pos: Cursor, error: Option<Error>)
    requires Lexes(lines, tokens0) && LastType(tokens0) == DotDot
    requires InLine(lines, pos0) && NextToken(lines, tokens0) == UpperAt(lines, pos0)
    ensures match error
            case None => Scans(lines, tokens, pos) && !Before(pos, pos0)
            case Some(e) => Lexes(lines, tokens) && NextToken(lines, tokens) == Fail(e)
  {
    tokens, pos, error := tokens0, pos0, None;
    var newPos := Cursor(pos.line + 1, 0);
    if newPos.line == |lines| { return tokens, pos, Some(IndexError); }
    var upper := MakeToken(lines, pos, newPos, Expression);
    tokens := Yield(lines, tokens, upper);
    AfterExpression(lines, DotDot, upper);
    pos := newPos;
  }

  method TokenizeExp(lines: seq<string>, tokens0: seq<Token>, found: Token)
    returns (tokens: seq<Token>, pos: Cursor, error: Option<Error>)
    requires Continues(lines, tokens0, found) && found.tokenType == Dollar
    ensures RoundEnds(lines, tokens, found, pos, error)
  {
    tokens, pos, error := tokens0, found.end, None;
    AfterDollar(lines, LastType(tokens0[..|tokens0| - 1]), found);
    var n := ParseInParens(Rest(lines, pos));
    if n.None? { return tokens, pos, Some(ParenExpected); }
    var expToken := MakeToken(lines, pos, Plus(pos, n.value), Expression);
    tokens := Yield(lines, tokens, expToken);
    AfterExpression(lines, Dollar, expToken);
    pos := expToken.end;
  }

  /** Everything one round of the loop yields for a marker, the code in front of it aside. */
  method TokenizeMarker(lines: seq<string>, tokens0: seq<Token>, found: Token)
    returns (tokens: seq<Token>, pos: Cursor, error: Option<Error>)
    requires Continues(lines, tokens0, found)
    requires IsMarkerType(found.tokenType)
    ensures RoundEnds(lines, tokens, found, pos, error)
  {
    match found.tokenType {
      case KwVar => tokens, pos, error := TokenizeVar(lines, tokens0, found);
      case KwFor => tokens, pos, error := TokenizeFor(lines, tokens0, found);
      case KwRange => tokens, pos, error := TokenizeRange(lines, tokens0, found);
      case Dollar => tokens, pos, error := TokenizeExp(lines, tokens0, found);
      case _ =>
        AfterMarker(lines, LastType(tokens0[..|tokens0| - 1]), found);
        tokens, pos, error := tokens0, found.end, None;
    }
  }

  /** The tokens are exactly those of the automaton, up to where that stops or fails. */
  method TokenizeLines(lines: seq<string>) returns (tokens: seq<Token>, error: Option<Error>)
    requires lines != []
    ensures Lexes(lines, tokens)
    ensures NextToken(lines, tokens) == match error case None => Stop case Some(e) => Fail(e)
  {
    tokens, error := [], None;
    var pos := Cursor(0, 0);
    while true
      invariant Scans(lines, tokens, pos)
      decreases |lines| - pos.line, if InLine(lines, pos) then |lines[pos.line]| - pos.column else 0
    {
      var first := FindFirst(lines, pos);
      if first.None? {
        var code := MakeToken(lines, pos, EOF, CodeText);
        tokens := Yield(lines, tokens, code);
        return tokens, None;
      }
      var found := first.value;
      MarkerAdvances(lines, found.start);
      tokens := YieldCode(lines, tokens, pos, found);
      tokens := Yield(lines, tokens, found);
      tokens, pos, error := TokenizeMarker(lines, tokens, found);
      if error.Some? { return; }
    }
  }
}
