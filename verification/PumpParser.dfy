/** The recursive-descent parser of pump.py: a grammar given by its derivation trees, a reading
    function, and the parser itself, which pops tokens off a shared list. */
module PumpParser {
  import opened Wrappers
  import opened PumpSyntax
  import opened PythonText

  // ----- Derivations ---------------------------------------------------------------------------

  /** One way of deriving ATOMIC_CODE, with every token it consumes. */
  datatype Atomic =
    | DRaw(token: Token)
    | DVarExp(kw: Token, id: Token, eq: Token, exp: Token)
    | DVarBlock(kw: Token, id: Token, eq: Token, block: Bracketed)
    | DFor(kw: Token, id: Token, sep: Option<Token>, block: Bracketed)
    | DIf(kw: Token, branch: Conditional)
    | DRange(kw: Token, id: Token, exp: Token, dots: Token, upper: Token)
    | DId(token: Token)
    | DEscapedDollar(token: Token)
    | DExp(kw: Token, exp: Token)
    | DBlock(block: Bracketed)

  datatype Bracketed = Bracketed(open: Token, code: Code, close: Token)

  datatype Code = Empty | Cons(head: Atomic, tail: Code)

  /** Blank raw code in front of an else branch, or of no else branch at all, is dropped. */
  datatype ElseBranch =
    | NoElse
    | Blank(blank: Token, rest: ElseBranch)
    | Else(kw: Token, block: Bracketed)
    | Elif(kw: Token, branch: Conditional)

  /** What follows `$if` and `$elif`. */
  datatype Conditional = Conditional(exp: Token, block: Bracketed, els: ElseBranch)

  // The tokens of a derivation, followed by `rest`.

  function Push(t: Token, rest: seq<Token>): (r: seq<Token>)
    ensures r != [] && r[0] == t && r[1..] == rest
  {
    [t] + rest
  }

  function Yield(a: Atomic, rest: seq<Token>): seq<Token> {
    match a
    case DRaw(t) => Push(t, rest)
    case DVarExp(kw, id, eq, exp) => Push(kw, Push(id, Push(eq, Push(exp, rest))))
    case DVarBlock(kw, id, eq, block) => Push(kw, Push(id, Push(eq, YieldBracketed(block, rest))))
    case DFor(kw, id, None, block) => Push(kw, Push(id, YieldBracketed(block, rest)))
    case DFor(kw, id, Some(sep), block) => Push(kw, Push(id, Push(sep, YieldBracketed(block, rest))))
    case DIf(kw, branch) => Push(kw, YieldConditional(branch, rest))
    case DRange(kw, id, exp, dots, upper) => Push(kw, Push(id, Push(exp, Push(dots, Push(upper, rest)))))
    case DId(t) => Push(t, rest)
    case DEscapedDollar(t) => Push(t, rest)
    case DExp(kw, exp) => Push(kw, Push(exp, rest))
    case DBlock(block) => YieldBracketed(block, rest)
  }

  function YieldBracketed(b: Bracketed, rest: seq<Token>): seq<Token> {
    Push(b.open, YieldCode(b.code, Push(b.close, rest)))
  }

  function YieldElse(e: ElseBranch, rest: seq<Token>): seq<Token> {
    match e
    case NoElse => rest
    case Blank(t, more) => Push(t, YieldElse(more, rest))
    case Else(kw, block) => Push(kw, YieldBracketed(block, rest))
    case Elif(kw, branch) => Push(kw, YieldConditional(branch, rest))
  }

  function YieldConditional(c: Conditional, rest: seq<Token>): seq<Token> {
    Push(c.exp, YieldBracketed(c.block, YieldElse(c.els, rest)))
  }

  function YieldCode(c: Code, rest: seq<Token>): seq<Token> {
    match c
    case Empty => rest
    case Cons(head, tail) => Yield(head, YieldCode(tail, rest))
  }

  // The tree that a derivation stands for.

  function Tree(a: Atomic): Node {
    match a
    case DRaw(t) => RawCode(t)
    case DVarExp(_, id, _, exp) => Var(id, Exp(exp))
    case DVarBlock(_, id, _, block) => Var(id, Block(TreeOfCode(block.code)))
    case DFor(_, id, sep, block) => For(id, sep, TreeOfCode(block.code))
    case DIf(_, branch) => TreeOfConditional(branch)
    case DRange(_, id, exp, _, upper) => Range(id, exp, upper)
    case DId(t) => Exp(WithoutDollar(t))
    case DEscapedDollar(t) => LiteralDollar(t)
    case DExp(_, exp) => Exp(exp)
    case DBlock(block) => Block(TreeOfCode(block.code))
  }

  function TreeOfElse(e: ElseBranch): Alternative {
    match e
    case NoElse => NoAlternative
    case Blank(_, more) => TreeOfElse(more)
    case Else(_, block) => Alternative(TreeOfCode(block.code))
    case Elif(_, branch) => Alternative([TreeOfConditional(branch)])
  }

  function TreeOfConditional(c: Conditional): Node {
    If(c.exp, TreeOfCode(c.block.code), TreeOfElse(c.els))
  }

  function TreeOfCode(c: Code): seq<Node> {
    match c
    case Empty => []
    case Cons(head, tail) => [Tree(head)] + TreeOfCode(tail)
  }

  /** The token of `$id` without its dollar; Python's `value[1:]` of an empty string is empty. */
  function WithoutDollar(t: Token): Token {
    Token(t.start.(column := t.start.column + 1), t.end, if t.value == "" then "" else t.value[1..], Ident)
  }

  // Which derivations are legal in front of `rest`.

  /** The parser would take `t` for a part of an else branch, or fail on it. */
  predicate AttractsElse(t: Token) {
    t.tokenType == KwElse || t.tokenType == KwElif || IsBlank(t.value)
  }

  predicate Legal(a: Atomic, rest: seq<Token>) {
    match a
    case DRaw(t) => t.tokenType == CodeText
    case DVarExp(kw, id, eq, exp) =>
      kw.tokenType == KwVar && id.tokenType == Ident && eq.tokenType == Equals && exp.tokenType == Expression
    case DVarBlock(kw, id, eq, block) =>
      kw.tokenType == KwVar && id.tokenType == Ident && eq.tokenType == Equals && LegalBracketed(block, rest)
    case DFor(kw, id, sep, block) =>
      && kw.tokenType == KwFor && id.tokenType == Ident && (sep.Some? ==> sep.value.tokenType == CodeText)
      && LegalBracketed(block, rest)
    case DIf(kw, branch) => kw.tokenType == KwIf && LegalConditional(branch, rest)
    case DRange(kw, id, exp, dots, upper) =>
      && kw.tokenType == KwRange && id.tokenType == Ident && exp.tokenType == Expression
      && dots.tokenType == DotDot && upper.tokenType == Expression
    case DId(t) => t.tokenType == DollarId
    case DEscapedDollar(t) => t.tokenType == EscapedDollar
    case DExp(kw, exp) => kw.tokenType == Dollar && exp.tokenType == Expression
    case DBlock(block) => LegalBracketed(block, rest)
  }

  predicate LegalBracketed(b: Bracketed, rest: seq<Token>) {
    b.open.tokenType == Open && b.close.tokenType == Close && LegalCode(b.code, Push(b.close, rest))
  }

  predicate LegalElse(e: ElseBranch, rest: seq<Token>) {
    match e
    case NoElse => rest == [] || !AttractsElse(rest[0])
    case Blank(t, more) => t.tokenType == CodeText && IsBlank(t.value) && LegalElse(more, rest)
    case Else(kw, block) => kw.tokenType == KwElse && LegalBracketed(block, rest)
    case Elif(kw, branch) => kw.tokenType == KwElif && LegalConditional(branch, rest)
  }

  predicate LegalConditional(c: Conditional, rest: seq<Token>) {
    c.exp.tokenType == CodeText && LegalBracketed(c.block, YieldElse(c.els, rest)) && LegalElse(c.els, rest)
  }

  predicate LegalCode(c: Code, rest: seq<Token>) {
    match c
    case Empty => true
    case Cons(head, tail) => Legal(head, YieldCode(tail, rest)) && LegalCode(tail, rest)
  }

  /** No ATOMIC_CODE can start here. */
  predicate Stops(rest: seq<Token>) {
    rest == [] || rest[0].tokenType in {KwElif, KwElse, Close, Ident, Equals, Expression, DotDot}
  }

  ghost predicate Derives(c: Code, tokens: seq<Token>, nodes: seq<Node>, rest: seq<Token>) {
    tokens == YieldCode(c, rest) && nodes == TreeOfCode(c) && LegalCode(c, rest) && Stops(rest)
  }

  // ----- The reading function ---------------------------------------------------------------------

  /** The ways in which a parse ends the program: a token of the wrong type, popping from an empty
      list (IndexError), and looking at the type of a token that is not there (AttributeError). */
  datatype ParseError =
    | Expected(tokenType: TokenType, found: Token)
    | PopFromEmpty
    | NoToken

  type Parsed<T> = Result<(T, seq<Token>), ParseError>

  function Pop(ts: seq<Token>, tokenType: TokenType): (r: Parsed<Token>)
    ensures r.Ok? ==> |r.value.1| < |ts|
  {
    if ts == [] then Err(PopFromEmpty)
    else if ts[0].tokenType != tokenType then Err(Expected(tokenType, ts[0]))
    else Ok((ts[0], ts[1..]))
  }

  function ReadBracketed(ts: seq<Token>): (r: Parsed<seq<Node>>)
    ensures r.Ok? ==> |r.value.1| < |ts|
    decreases |ts|, 0
  {
    var (_, ts1) :- Pop(ts, Open);
    var (code, ts2) :- ReadCode(ts1);
    var (_, ts3) :- Pop(ts2, Close);
    Ok((code, ts3))
  }

  function ReadElse(ts: seq<Token>): (r: Parsed<Alternative>)
    ensures r.Ok? ==> |r.value.1| <= |ts|
    decreases |ts|, 1
  {
    if ts == [] then Ok((NoAlternative, ts))
    else if ts[0].tokenType == KwElse then
      var (code, rest) :- ReadBracketed(ts[1..]);
      Ok((Alternative(code), rest))
    else if ts[0].tokenType == KwElif then
      var (node, rest) :- ReadConditional(ts[1..]);
      Ok((Alternative([node]), rest))
    else if IsBlank(ts[0].value) then
      var (_, ts1) :- Pop(ts, CodeText);
      ReadElse(ts1)
    else Ok((NoAlternative, ts))
  }

  /** What follows `$var`. */
  function ReadVar(ts: seq<Token>): (r: Parsed<Node>)
    ensures r.Ok? ==> |r.value.1| < |ts|
    decreases |ts|, 1
  {
    var (id, ts1) :- Pop(ts, Ident);
    var (_, ts2) :- Pop(ts1, Equals);
    if ts2 == [] then Err(NoToken)
    else if ts2[0].tokenType == Expression then Ok((Var(id, Exp(ts2[0])), ts2[1..]))
    else
      var (code, rest) :- ReadBracketed(ts2);
      Ok((Var(id, Block(code)), rest))
  }

  /** What follows `$for`. */
  function ReadFor(ts: seq<Token>): (r: Parsed<Node>)
    ensures r.Ok? ==> |r.value.1| < |ts|
    decreases |ts|, 1
  {
    var (id, ts1) :- Pop(ts, Ident);
    if ts1 == [] then Err(NoToken)
    else if ts1[0].tokenType == CodeText then
      var (code, rest) :- ReadBracketed(ts1[1..]);
      Ok((For(id, Some(ts1[0]), code), rest))
    else
      var (code, rest) :- ReadBracketed(ts1);
      Ok((For(id, None, code), rest))
  }

  /** What follows `$if` and `$elif`. */
  function ReadConditional(ts: seq<Token>): (r: Parsed<Node>)
    ensures r.Ok? ==> |r.value.1| < |ts|
    decreases |ts|, 2
  {
    var (exp, ts1) :- Pop(ts, CodeText);
    var (code, ts2) :- ReadBracketed(ts1);
    var (els, rest) :- ReadElse(ts2);
    Ok((If(exp, code, els), rest))
  }

  /** What follows `$range`. */
  function ReadRange(ts: seq<Token>): (r: Parsed<Node>)
    ensures r.Ok? ==> |r.value.1| < |ts|
  {
    var (id, ts1) :- Pop(ts, Ident);
    var (lower, ts2) :- Pop(ts1, Expression);
    var (_, ts3) :- Pop(ts2, DotDot);
    var (upper, rest) :- Pop(ts3, Expression);
    Ok((Range(id, lower, upper), rest))
  }

  function ReadAtomic(ts: seq<Token>): (r: Parsed<Option<Node>>)
    requires ts != []
    ensures r.Ok? && r.value.0.Some? ==> |r.value.1| < |ts|
    ensures r.Ok? && r.value.0.None? ==> r.value.1 == ts
    decreases |ts|, 1
  {
    match ts[0].tokenType
    case CodeText => Ok((Some(RawCode(ts[0])), ts[1..]))
    case KwVar => SomeNode(ReadVar(ts[1..]))
    case KwFor => SomeNode(ReadFor(ts[1..]))
    case KwIf => SomeNode(ReadConditional(ts[1..]))
    case KwRange => SomeNode(ReadRange(ts[1..]))
    case DollarId => Ok((Some(Exp(WithoutDollar(ts[0]))), ts[1..]))
    case EscapedDollar => Ok((Some(LiteralDollar(ts[0])), ts[1..]))
    case Dollar =>
      var (exp, rest) :- Pop(ts[1..], Expression);
      Ok((Some(Exp(exp)), rest))
    case Open =>
      var (code, rest) :- ReadBracketed(ts);
      Ok((Some(Block(code)), rest))
    case _ => Ok((None, ts))
  }

  function SomeNode(r: Parsed<Node>): Parsed<Option<Node>> {
    if r.Ok? then Ok((Some(r.value.0), r.value.1)) else Err(r.error)
  }

  function ReadCode(ts: seq<Token>): (r: Parsed<seq<Node>>)
    ensures r.Ok? ==> |r.value.1| <= |ts|
    decreases |ts|, 2
  {
    if ts == [] then Ok(([], ts))
    else
      var (node, ts1) :- ReadAtomic(ts);
      if node.None? then Ok(([], ts1))
      else
        var (nodes, rest) :- ReadCode(ts1);
        Ok(([node.value] + nodes, rest))
  }

  // ----- Every legal derivation is read back -------------------------------------------------------

  lemma {:induction false} ReadsBracketed(b: Bracketed, rest: seq<Token>)
    requires LegalBracketed(b, rest)
    ensures ReadBracketed(YieldBracketed(b, rest)) == Ok((TreeOfCode(b.code), rest))
    decreases b, 0
  {
    ReadsCode(b.code, Push(b.close, rest));
  }

  lemma {:induction false} ReadsConditional(c: Conditional, rest: seq<Token>)
    requires LegalConditional(c, rest)
    ensures ReadConditional(YieldConditional(c, rest)) == Ok((TreeOfConditional(c), rest))
    decreases c, 1
  {
    ReadsBracketed(c.block, YieldElse(c.els, rest));
    ReadsElse(c.els, rest);
  }

  lemma {:induction false} ReadsElse(e: ElseBranch, rest: seq<Token>)
    requires LegalElse(e, rest)
    ensures ReadElse(YieldElse(e, rest)) == Ok((TreeOfElse(e), rest))
    decreases e, 0
  {
    match e
    case NoElse =>
    case Blank(_, more) => ReadsElse(more, rest);
    case Else(_, block) => ReadsBracketed(block, rest);
    case Elif(_, branch) => ReadsConditional(branch, rest);
  }

  lemma {:induction false} ReadsVar(a: Atomic, rest: seq<Token>)
    requires a.DVarBlock? && Legal(a, rest)
    ensures Yield(a, rest) != [] && ReadAtomic(Yield(a, rest)) == Ok((Some(Tree(a)), rest))
    decreases a, 0
  {
    ReadsBracketed(a.block, rest);
  }

  lemma {:induction false} ReadsFor(a: Atomic, rest: seq<Token>)
    requires a.DFor? && Legal(a, rest)
    ensures Yield(a, rest) != [] && ReadAtomic(Yield(a, rest)) == Ok((Some(Tree(a)), rest))
    decreases a, 0
  {
    ReadsBracketed(a.block, rest);
  }

  lemma {:induction false} ReadsIf(a: Atomic, rest: seq<Token>)
    requires a.DIf? && Legal(a, rest)
    ensures Yield(a, rest) != [] && ReadAtomic(Yield(a, rest)) == Ok((Some(Tree(a)), rest))
    decreases a, 0
  {
    ReadsConditional(a.branch, rest);
  }

  lemma ReadsVarExpOrRange(a: Atomic, rest: seq<Token>)
    requires (a.DVarExp? || a.DRange?) && Legal(a, rest)
    ensures Yield(a, rest) != [] && ReadAtomic(Yield(a, rest)) == Ok((Some(Tree(a)), rest))
  {
  }

  lemma ReadsLeaf(a: Atomic, rest: seq<Token>)
    requires (a.DRaw? || a.DId? || a.DEscapedDollar? || a.DExp?) && Legal(a, rest)
    ensures Yield(a, rest) != [] && ReadAtomic(Yield(a, rest)) == Ok((Some(Tree(a)), rest))
  {
  }

  lemma {:induction false} ReadsAtomic(a: Atomic, rest: seq<Token>)
    requires Legal(a, rest)
    ensures Yield(a, rest) != [] && ReadAtomic(Yield(a, rest)) == Ok((Some(Tree(a)), rest))
    decreases a, 1
  {
    if a.DVarBlock? {
      ReadsVar(a, rest);
    } else if a.DFor? {
      ReadsFor(a, rest);
    } else if a.DIf? {
      ReadsIf(a, rest);
    } else if a.DBlock? {
      ReadsBracketed(a.block, rest);
    } else if a.DVarExp? || a.DRange? {
      ReadsVarExpOrRange(a, rest);
    } else {
      ReadsLeaf(a, rest);
    }
  }

  lemma {:induction false} ReadsCode(c: Code, rest: seq<Token>)
    requires LegalCode(c, rest) && Stops(rest)
    ensures ReadCode(YieldCode(c, rest)) == Ok((TreeOfCode(c), rest))
    decreases c, 0
  {
    match c
    case Empty =>
    case Cons(head, tail) =>
      ReadsAtomic(head, YieldCode(tail, rest));
      ReadsCode(tail, rest);
  }

  // ----- Everything read has a legal derivation ------------------------------------------------------

  lemma {:induction false} BracketedDerivation(ts: seq<Token>) returns (b: Bracketed)
    requires ReadBracketed(ts).Ok?
    ensures var (code, rest) := ReadBracketed(ts).value;
            ts == YieldBracketed(b, rest) && code == TreeOfCode(b.code) && LegalBracketed(b, rest)
    decreases |ts|, 0
  {
    var code := CodeDerivation(ts[1..]);
    var (_, ts2) := ReadCode(ts[1..]).value;
    b := Bracketed(ts[0], code, ts2[0]);
    assert ts2 == [ts2[0]] + ts2[1..];
    assert ts == [ts[0]] + ts[1..];
  }

  lemma {:induction false} ConditionalDerivation(ts: seq<Token>) returns (c: Conditional)
    requires ReadConditional(ts).Ok?
    ensures var (node, rest) := ReadConditional(ts).value;
            ts == YieldConditional(c, rest) && node == TreeOfConditional(c) && LegalConditional(c, rest)
    decreases |ts|, 2
  {
    var block := BracketedDerivation(ts[1..]);
    var els := ElseDerivation(ReadBracketed(ts[1..]).value.1);
    c := Conditional(ts[0], block, els);
  }

  lemma {:induction false} ElseDerivation(ts: seq<Token>) returns (e: ElseBranch)
    requires ReadElse(ts).Ok?
    ensures var (els, rest) := ReadElse(ts).value;
            ts == YieldElse(e, rest) && els == TreeOfElse(e) && LegalElse(e, rest)
    decreases |ts|, 1
  {
    if ts != [] && ts[0].tokenType == KwElse {
      var block := BracketedDerivation(ts[1..]);
      e := Else(ts[0], block);
    } else if ts != [] && ts[0].tokenType == KwElif {
      var branch := ConditionalDerivation(ts[1..]);
      e := Elif(ts[0], branch);
    } else if ts != [] && IsBlank(ts[0].value) {
      var more := ElseDerivation(ts[1..]);
      e := Blank(ts[0], more);
    } else {
      e := NoElse;
    }
  }

  lemma {:induction false} VarDerivation(kw: Token, ts: seq<Token>) returns (a: Atomic)
    requires kw.tokenType == KwVar && ReadVar(ts).Ok?
    ensures var (node, rest) := ReadVar(ts).value;
            [kw] + ts == Yield(a, rest) && node == Tree(a) && Legal(a, rest)
    decreases |ts|, 1
  {
    var (id, ts1) := Pop(ts, Ident).value;
    var (eq, ts2) := Pop(ts1, Equals).value;
    if ts2[0].tokenType == Expression {
      a := DVarExp(kw, id, eq, ts2[0]);
    } else {
      var block := BracketedDerivation(ts2);
      a := DVarBlock(kw, id, eq, block);
    }
  }

  lemma {:induction false} ForDerivation(kw: Token, ts: seq<Token>) returns (a: Atomic)
    requires kw.tokenType == KwFor && ReadFor(ts).Ok?
    ensures var (node, rest) := ReadFor(ts).value;
            [kw] + ts == Yield(a, rest) && node == Tree(a) && Legal(a, rest)
    decreases |ts|, 1
  {
    var (id, ts1) := Pop(ts, Ident).value;
    if ts1[0].tokenType == CodeText {
      var block := BracketedDerivation(ts1[1..]);
      a := DFor(kw, id, Some(ts1[0]), block);
    } else {
      var block := BracketedDerivation(ts1);
      a := DFor(kw, id, None, block);
    }
  }

  lemma RangeDerivation(kw: Token, ts: seq<Token>) returns (a: Atomic)
    requires kw.tokenType == KwRange && ReadRange(ts).Ok?
    ensures var (node, rest) := ReadRange(ts).value;
            [kw] + ts == Yield(a, rest) && node == Tree(a) && Legal(a, rest)
  {
    a := DRange(kw, ts[0], ts[1], ts[2], ts[3]);
  }

  lemma {:induction false} AtomicDerivation(ts: seq<Token>) returns (a: Atomic)
    requires ts != [] && ReadAtomic(ts).Ok? && ReadAtomic(ts).value.0.Some?
    ensures var (node, rest) := ReadAtomic(ts).value;
            ts == Yield(a, rest) && node == Some(Tree(a)) && Legal(a, rest)
    decreases |ts|, 1
  {
    var t := ts[0];
    assert ts == [t] + ts[1..];
    match t.tokenType
    case CodeText => a := DRaw(t);
    case KwVar => a := VarDerivation(t, ts[1..]);
    case KwFor => a := ForDerivation(t, ts[1..]);
    case KwIf =>
      var branch := ConditionalDerivation(ts[1..]);
      a := DIf(t, branch);
    case KwRange => a := RangeDerivation(t, ts[1..]);
    case DollarId => a := DId(t);
    case EscapedDollar => a := DEscapedDollar(t);
    case Dollar => a := DExp(t, ts[1]);
    case Open =>
      var block := BracketedDerivation(ts);
      a := DBlock(block);
    case _ =>
  }

  lemma {:induction false} CodeDerivation(ts: seq<Token>) returns (c: Code)
    requires ReadCode(ts).Ok?
    ensures var (nodes, rest) := ReadCode(ts).value; Derives(c, ts, nodes, rest)
    decreases |ts|, 2
  {
    if ts == [] || ReadAtomic(ts).value.0.None? {
      c := Empty;
    } else {
      var head := AtomicDerivation(ts);
      var tail := CodeDerivation(ReadAtomic(ts).value.1);
      c := Cons(head, tail);
    }
  }

  /** A token list is parsed to `nodes`, with `rest` left over, exactly when the grammar derives
      it so and no ATOMIC_CODE can start at `rest`. */
  lemma ReadCodeIsDerivation(ts: seq<Token>, nodes: seq<Node>, rest: seq<Token>)
    ensures ReadCode(ts) == Ok((nodes, rest)) <==> exists c :: Derives(c, ts, nodes, rest)
  {
    if ReadCode(ts) == Ok((nodes, rest)) {
      var c := CodeDerivation(ts);
    }
    if c :| Derives(c, ts, nodes, rest) {
      ReadsCode(c, rest);
    }
  }

  // ----- The parser -----------------------------------------------------------------------------------

  /** A parse on the list came to `r` and left `left`, as the reading function says it would. */
  ghost predicate Agrees<T>(expected: Parsed<T>, r: Result<T, ParseError>, left: seq<Token>) {
    match r
    case Ok(value) => expected == Ok((value, left))
    case Err(error) => expected == Err(error)
  }

  /** The token list that the parsing routines share and consume. */
  class TokenList {
    var tokens: seq<Token>

    constructor (tokens: seq<Token>)
      ensures this.tokens == tokens
    {
      this.tokens := tokens;
    }

    method PopFront() returns (r: Result<Token, ParseError>)
      modifies this
      ensures old(tokens) == [] ==> r == Err(PopFromEmpty) && tokens == []
      ensures old(tokens) != [] ==> r == Ok(old(tokens)[0]) && tokens == old(tokens)[1..]
    {
      if |tokens| == 0 {
        return Err(PopFromEmpty);
      }
      var head := tokens[0];
      tokens := tokens[1..];
      return Ok(head);
    }

    method PushFront(elem: Token)
      modifies this
      ensures tokens == [elem] + old(tokens)
    {
      tokens := [elem] + tokens;
    }

    method PopToken(tokenType: TokenType) returns (r: Result<Token, ParseError>)
      modifies this
      ensures Agrees(Pop(old(tokens), tokenType), r, tokens)
      ensures r.Ok? ==> |tokens| < |old(tokens)|
    {
      var token :- PopFront();
      if token.tokenType != tokenType {
        return Err(Expected(tokenType, token));
      }
      return Ok(token);
    }

    method PeekToken() returns (t: Option<Token>)
      ensures t == if tokens == [] then None else Some(tokens[0])
    {
      t := if |tokens| == 0 then None else Some(tokens[0]);
    }

    /** `[[ CODE ]]`, which several constructs share. */
    method ParseBracketed() returns (r: Result<seq<Node>, ParseError>)
      modifies this
      ensures Agrees(ReadBracketed(old(tokens)), r, tokens)
      decreases |tokens|, 0
    {
      var open :- PopToken(Open);
      var code :- ParseCodeNode();
      var close :- PopToken(Close);
      return Ok(code);
    }

    method ParseElseNode() returns (r: Result<Alternative, ParseError>)
      modifies this
      ensures Agrees(ReadElse(old(tokens)), r, tokens)
      decreases |tokens|, 1
    {
      var next := PeekToken();
      if next.None? {
        return Ok(NoAlternative);
      }
      if next.value.tokenType == KwElse {
        var kw := PopToken(KwElse);
        var code :- ParseBracketed();
        return Ok(Alternative(code));
      } else if next.value.tokenType == KwElif {
        var kw := PopToken(KwElif);
        var exp :- PopToken(CodeText);
        var code :- ParseBracketed();
        var inner :- ParseElseNode();
        return Ok(Alternative([If(exp, code, inner)]));
      } else if IsBlank(next.value.value) {
        var blank :- PopToken(CodeText);
        r := ParseElseNode();
      } else {
        return Ok(NoAlternative);
      }
    }

    method ParseAtomicCodeNode() returns (r: Result<Option<Node>, ParseError>)
      requires tokens != []
      modifies this
      ensures Agrees(ReadAtomic(old(tokens)), r, tokens)
      decreases |tokens|, 1
    {
      var front := PopFront();
      var head := front.value;
      match head.tokenType
      case CodeText =>
        return Ok(Some(RawCode(head)));
      case KwVar =>
        var id :- PopToken(Ident);
        var eq :- PopToken(Equals);
        var next := PeekToken();
        if next.None? {
          return Err(NoToken);
        }
        if next.value.tokenType == Expression {
          var exp := PopFront();
          return Ok(Some(Var(id, Exp(exp.value))));
        }
        var code :- ParseBracketed();
        return Ok(Some(Var(id, Block(code))));
      case KwFor =>
        var id :- PopToken(Ident);
        var next := PeekToken();
        if next.None? {
          return Err(NoToken);
        }
        var sep: Option<Token> := None;
        if next.value.tokenType == CodeText {
          sep := next;
          var popped := PopToken(CodeText);
        }
        var code :- ParseBracketed();
        return Ok(Some(For(id, sep, code)));
      case KwIf =>
        var exp :- PopToken(CodeText);
        var code :- ParseBracketed();
        var els :- ParseElseNode();
        return Ok(Some(If(exp, code, els)));
      case KwRange =>
        var id :- PopToken(Ident);
        var lower :- PopToken(Expression);
        var dots :- PopToken(DotDot);
        var upper :- PopToken(Expression);
        return Ok(Some(Range(id, lower, upper)));
      case DollarId =>
        return Ok(Some(Exp(WithoutDollar(head))));
      case EscapedDollar =>
        return Ok(Some(LiteralDollar(head)));
      case Dollar =>
        var exp :- PopToken(Expression);
        return Ok(Some(Exp(exp)));
      case Open =>
        var code :- ParseCodeNode();
        var close :- PopToken(Close);
        return Ok(Some(Block(code)));
      case _ =>
        PushFront(head);
        assert tokens == old(tokens);
        return Ok(None);
    }

    method ParseCodeNode() returns (r: Result<seq<Node>, ParseError>)
      modifies this
      ensures Agrees(ReadCode(old(tokens)), r, tokens)
      decreases |tokens|, 2
    {
      var nodes: seq<Node> := [];
      BeforeNothing(ReadCode(tokens));
      while true
        invariant |tokens| <= |old(tokens)|
        invariant ReadCode(old(tokens)) == Before(nodes, ReadCode(tokens))
        decreases |tokens|
      {
        if |tokens| == 0 {
          assert nodes + [] == nodes;
          break;
        }
        var node :- ParseAtomicCodeNode();
        if node.None? {
          assert nodes + [] == nodes;
          break;
        }
        BeforeSnoc(nodes, node.value, ReadCode(tokens));
        nodes := nodes + [node.value];
      }
      return Ok(nodes);
    }
  }

  /** The parse `r` with `nodes` in front of its result. */
  function Before(nodes: seq<Node>, r: Parsed<seq<Node>>): Parsed<seq<Node>> {
    if r.Ok? then Ok((nodes + r.value.0, r.value.1)) else r
  }

  lemma BeforeNothing(r: Parsed<seq<Node>>)
    ensures Before([], r) == r
  {
    if r.Ok? {
      assert [] + r.value.0 == r.value.0;
    }
  }

  lemma BeforeSnoc(nodes: seq<Node>, node: Node, r: Parsed<seq<Node>>)
    ensures Before(nodes + [node], r) == Before(nodes, Before([node], r))
  {
    if r.Ok? {
      assert nodes + [node] + r.value.0 == nodes + ([node] + r.value.0);
    }
  }
}
