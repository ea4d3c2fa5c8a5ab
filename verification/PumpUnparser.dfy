/** Trees written back as tokens, and what the parser makes of them: the round trip of every tree,
    with the one thing that does not survive it. */
module PumpUnparser {
  import opened Wrappers
  import opened PumpSyntax
  import opened PumpParser
  import opened PythonText

  function Keyword(tokenType: TokenType): Token {
    Token(Cursor(0, 0), Cursor(0, 0), KeywordText(tokenType), tokenType)
  }

  function KeywordText(tokenType: TokenType): string {
    match tokenType
    case KwVar => "$var "
    case KwElif => "$elif "
    case KwElse => "$else "
    case KwFor => "$for "
    case KwIf => "$if "
    case KwRange => "$range "
    case Equals => "="
    case Dollar => "$"
    case DotDot => ".."
    case Open => "[["
    case Close => "]]"
    case _ => "$($)"
  }

  // ----- Printing ------------------------------------------------------------------------------

  /** A tree whose tokens have the types that the grammar puts in their places. */
  predicate InGrammar(n: Node) {
    match n
    case RawCode(t) => t.tokenType == CodeText
    case LiteralDollar(t) => t.tokenType == EscapedDollar && !IsBlank(t.value)
    case Exp(t) => t.tokenType == Ident || t.tokenType == Expression
    case Range(id, lower, upper) =>
      id.tokenType == Ident && lower.tokenType == Expression && upper.tokenType == Expression
    case Var(id, Exp(e)) => id.tokenType == Ident && e.tokenType == Expression
    case Var(id, Block(code)) => id.tokenType == Ident && AllInGrammar(code)
    case Var(_, _) => false
    case For(id, sep, code) =>
      id.tokenType == Ident && (sep.Some? ==> sep.value.tokenType == CodeText) && AllInGrammar(code)
    case If(cond, thenCode, elseCode) =>
      cond.tokenType == CodeText && AllInGrammar(thenCode) && (elseCode.Alternative? ==> AllInGrammar(elseCode.code))
    case Block(code) => AllInGrammar(code)
  }

  predicate AllInGrammar(nodes: seq<Node>) {
    nodes == [] || (InGrammar(nodes[0]) && AllInGrammar(nodes[1..]))
  }

  /** The tokens of a tree, followed by `rest`. Else branches are written with `$else`. */
  function Print(n: Node, rest: seq<Token>): seq<Token>
    requires InGrammar(n)
  {
    match n
    case RawCode(t) => Push(t, rest)
    case LiteralDollar(t) => Push(t, rest)
    case Exp(t) => if t.tokenType == Ident then Push(WithDollar(t), rest) else Push(Keyword(Dollar), Push(t, rest))
    case Range(id, lower, upper) =>
      Push(Keyword(KwRange), Push(id, Push(lower, Push(Keyword(DotDot), Push(upper, rest)))))
    case Var(id, Exp(e)) => Push(Keyword(KwVar), Push(id, Push(Keyword(Equals), Push(e, rest))))
    case Var(id, Block(code)) => Push(Keyword(KwVar), Push(id, Push(Keyword(Equals), PrintBracketed(code, rest))))
    case For(id, sep, code) =>
      var block := PrintBracketed(code, rest);
      Push(Keyword(KwFor), Push(id, if sep.Some? then Push(sep.value, block) else block))
    case If(cond, thenCode, NoAlternative) => Push(Keyword(KwIf), Push(cond, PrintBracketed(thenCode, rest)))
    case If(cond, thenCode, Alternative(elseCode)) =>
      var els := Push(Keyword(KwElse), PrintBracketed(elseCode, rest));
      Push(Keyword(KwIf), Push(cond, PrintBracketed(thenCode, els)))
    case Block(code) => PrintBracketed(code, rest)
  }

  function PrintBracketed(code: seq<Node>, rest: seq<Token>): seq<Token>
    requires AllInGrammar(code)
    decreases code, 1
  {
    Push(Keyword(Open), PrintCode(code, Push(Keyword(Close), rest)))
  }

  function PrintCode(nodes: seq<Node>, rest: seq<Token>): seq<Token>
    requires AllInGrammar(nodes)
    decreases nodes, 0
  {
    if nodes == [] then rest else Print(nodes[0], PrintCode(nodes[1..], rest))
  }

  function WithDollar(t: Token): Token {
    Token(t.start.(column := t.start.column - 1), t.end, "$" + t.value, DollarId)
  }

  // ----- What the parser swallows ----------------------------------------------------------------

  predicate IsOpenIf(n: Node) {
    n.If? && n.elseCode.NoAlternative?
  }

  predicate IsBlankRawCode(n: Node) {
    n.RawCode? && IsBlank(n.token.value)
  }

  /** The tree that is read back: blank raw code right behind an else-less `$if` is gone. */
  function Swallow(n: Node): Node {
    match n
    case Var(id, Block(code)) => Var(id, Block(SwallowAll(code, false)))
    case For(id, sep, code) => For(id, sep, SwallowAll(code, false))
    case If(cond, thenCode, NoAlternative) => If(cond, SwallowAll(thenCode, false), NoAlternative)
    case If(cond, thenCode, Alternative(elseCode)) =>
      If(cond, SwallowAll(thenCode, false), Alternative(SwallowAll(elseCode, false)))
    case Block(code) => Block(SwallowAll(code, false))
    case _ => n
  }

  function SwallowAll(nodes: seq<Node>, afterOpenIf: bool): (swallowed: seq<Node>)
    ensures |swallowed| <= |nodes|
  {
    if nodes == [] then []
    else if afterOpenIf && IsBlankRawCode(nodes[0]) then SwallowAll(nodes[1..], true)
    else [Swallow(nodes[0])] + SwallowAll(nodes[1..], IsOpenIf(nodes[0]))
  }

  /** What a code may be followed by: the end, or a token that ends it and no else branch could
      start at. */
  predicate Closes(rest: seq<Token>) {
    rest == [] || (rest[0].tokenType == Close && !IsBlank(rest[0].value))
  }

  lemma KeywordIsNotBlank(tokenType: TokenType)
    ensures !IsBlank(KeywordText(tokenType))
  {
    var text := KeywordText(tokenType);
    assert !IsSpace(text[0]);
  }

  /** The first token of a tree attracts no else branch, except that of blank raw code. */
  lemma PrintedHead(n: Node, rest: seq<Token>)
    requires InGrammar(n)
    ensures Print(n, rest) != []
    ensures n.RawCode? || !AttractsElse(Print(n, rest)[0])
  {
    KeywordIsNotBlank(KwVar);
    KeywordIsNotBlank(KwFor);
    KeywordIsNotBlank(KwIf);
    KeywordIsNotBlank(KwRange);
    KeywordIsNotBlank(Dollar);
    KeywordIsNotBlank(Open);
    KeywordIsNotBlank(EscapedDollar);
    if n.Exp? && n.token.tokenType == Ident {
      assert WithDollar(n.token).value[0] == '$';
    }
  }

  lemma EatsBlank(nodes: seq<Node>, rest: seq<Token>)
    requires AllInGrammar(nodes) && nodes != [] && IsBlankRawCode(nodes[0])
    ensures ReadElse(PrintCode(nodes, rest)) == ReadElse(PrintCode(nodes[1..], rest))
  {
  }

  lemma FindsNoElse(nodes: seq<Node>, rest: seq<Token>)
    requires AllInGrammar(nodes) && Closes(rest) && (nodes != [] ==> !IsBlankRawCode(nodes[0]))
    ensures ReadElse(PrintCode(nodes, rest)) == Ok((NoAlternative, PrintCode(nodes, rest)))
  {
    if nodes != [] {
      PrintedHead(nodes[0], PrintCode(nodes[1..], rest));
    }
  }

  /** Looking for an else branch that is not there eats the blank raw code in front. */
  lemma {:induction false} ReadsNoElse(nodes: seq<Node>, rest: seq<Token>) returns (k: nat)
    requires AllInGrammar(nodes) && Closes(rest)
    ensures k <= |nodes| && AllInGrammar(nodes[k..])
    ensures ReadElse(PrintCode(nodes, rest)) == Ok((NoAlternative, PrintCode(nodes[k..], rest)))
    ensures SwallowAll(nodes, true) == SwallowAll(nodes[k..], false)
    decreases |nodes|
  {
    if nodes != [] && IsBlankRawCode(nodes[0]) {
      EatsBlank(nodes, rest);
      var j := ReadsNoElse(nodes[1..], rest);
      assert nodes[1..][j..] == nodes[j + 1..];
      k := j + 1;
    } else {
      FindsNoElse(nodes, rest);
      k := 0;
      assert nodes[0..] == nodes;
    }
  }

  // ----- The round trip -----------------------------------------------------------------------------

  lemma {:induction false} ReadsPrintedBracketed(code: seq<Node>, rest: seq<Token>)
    requires AllInGrammar(code)
    ensures ReadBracketed(PrintBracketed(code, rest)) == Ok((SwallowAll(code, false), rest))
    decreases code, 1
  {
    KeywordIsNotBlank(Close);
    ReadsPrinted(code, Push(Keyword(Close), rest));
  }

  lemma {:induction false} ReadsPrintedVar(n: Node, rest: seq<Token>)
    requires InGrammar(n) && n.Var?
    ensures Print(n, rest) != [] && ReadAtomic(Print(n, rest)) == Ok((Some(Swallow(n)), rest))
    decreases n, 0
  {
    if n.body.Block? {
      ReadsPrintedBracketed(n.body.code, rest);
    }
  }

  lemma {:induction false} ReadsPrintedFor(n: Node, rest: seq<Token>)
    requires InGrammar(n) && n.For?
    ensures Print(n, rest) != [] && ReadAtomic(Print(n, rest)) == Ok((Some(Swallow(n)), rest))
    decreases n, 0
  {
    ReadsPrintedBracketed(n.code, rest);
  }

  lemma {:induction false} ReadsPrintedElse(code: seq<Node>, rest: seq<Token>)
    requires AllInGrammar(code)
    ensures var ts := Push(Keyword(KwElse), PrintBracketed(code, rest));
            ReadElse(ts) == Ok((Alternative(SwallowAll(code, false)), rest))
    decreases code, 2
  {
    ReadsPrintedBracketed(code, rest);
  }

  lemma {:induction false} ReadsPrintedIfElse(n: Node, rest: seq<Token>)
    requires InGrammar(n) && n.If? && n.elseCode.Alternative?
    ensures Print(n, rest) != [] && ReadAtomic(Print(n, rest)) == Ok((Some(Swallow(n)), rest))
    decreases n, 0
  {
    var els := Push(Keyword(KwElse), PrintBracketed(n.elseCode.code, rest));
    ReadsPrintedElse(n.elseCode.code, rest);
    ReadsPrintedBracketed(n.thenCode, els);
  }

  lemma ReadsPrintedLeaf(n: Node, rest: seq<Token>)
    requires InGrammar(n) && (n.RawCode? || n.LiteralDollar? || n.Exp? || n.Range?)
    ensures Print(n, rest) != [] && ReadAtomic(Print(n, rest)) == Ok((Some(Swallow(n)), rest))
  {
  }

  /** Every construct but the else-less `$if` is read back in place. */
  lemma {:induction false} ReadsPrintedNode(n: Node, rest: seq<Token>)
    requires InGrammar(n) && !IsOpenIf(n)
    ensures Print(n, rest) != [] && ReadAtomic(Print(n, rest)) == Ok((Some(Swallow(n)), rest))
    decreases n, 1
  {
    if n.Var? {
      ReadsPrintedVar(n, rest);
    } else if n.For? {
      ReadsPrintedFor(n, rest);
    } else if n.If? {
      ReadsPrintedIfElse(n, rest);
    } else if n.Block? {
      ReadsPrintedBracketed(n.code, rest);
    } else {
      ReadsPrintedLeaf(n, rest);
    }
  }

  /** The else-less `$if` is read back together with what it swallows of the code behind it. */
  lemma {:induction false} ReadsPrintedOpenIf(n: Node, after: seq<Node>, rest: seq<Token>) returns (k: nat)
    requires InGrammar(n) && IsOpenIf(n) && AllInGrammar(after) && Closes(rest)
    ensures k <= |after| && AllInGrammar(after[k..])
    ensures var ts := Print(n, PrintCode(after, rest));
            ts != [] && ReadAtomic(ts) == Ok((Some(Swallow(n)), PrintCode(after[k..], rest)))
    ensures SwallowAll(after, true) == SwallowAll(after[k..], false)
    decreases n, 0
  {
    ReadsPrintedBracketed(n.thenCode, PrintCode(after, rest));
    k := ReadsNoElse(after, rest);
  }

  /** Printing any tree and parsing it gives the tree without its swallowed blank raw code. */
  lemma {:induction false} ReadsPrinted(nodes: seq<Node>, rest: seq<Token>)
    requires AllInGrammar(nodes) && Closes(rest)
    ensures ReadCode(PrintCode(nodes, rest)) == Ok((SwallowAll(nodes, false), rest))
    decreases nodes, 0
  {
    if nodes != [] {
      if IsOpenIf(nodes[0]) {
        var k := ReadsPrintedOpenIf(nodes[0], nodes[1..], rest);
        assert nodes[1..][k..] == nodes[k + 1..];
        ReadsPrinted(nodes[k + 1..], rest);
      } else {
        ReadsPrintedNode(nodes[0], PrintCode(nodes[1..], rest));
        ReadsPrinted(nodes[1..], rest);
      }
    }
  }

  // ----- Which trees survive ------------------------------------------------------------------------

  predicate Survives(n: Node) {
    match n
    case Var(_, Block(code)) => AllSurvive(code)
    case For(_, _, code) => AllSurvive(code)
    case If(_, thenCode, elseCode) => AllSurvive(thenCode) && (elseCode.Alternative? ==> AllSurvive(elseCode.code))
    case Block(code) => AllSurvive(code)
    case _ => true
  }

  /** Nowhere does blank raw code stand right behind an else-less `$if`. */
  predicate AllSurvive(nodes: seq<Node>) {
    nodes == [] || (
      && Survives(nodes[0]) && AllSurvive(nodes[1..])
      && (IsOpenIf(nodes[0]) && |nodes| > 1 ==> !IsBlankRawCode(nodes[1])))
  }

  lemma {:induction false} SwallowIsIdentityIff(n: Node)
    requires InGrammar(n)
    ensures Swallow(n) == n <==> Survives(n)
    decreases n
  {
    match n
    case Var(_, Block(code)) => SwallowAllIsIdentityIff(code);
    case For(_, _, code) => SwallowAllIsIdentityIff(code);
    case If(_, thenCode, elseCode) =>
      SwallowAllIsIdentityIff(thenCode);
      if elseCode.Alternative? { SwallowAllIsIdentityIff(elseCode.code); }
    case Block(code) => SwallowAllIsIdentityIff(code);
    case _ =>
  }

  lemma {:induction false} SwallowAllIsIdentityIff(nodes: seq<Node>)
    requires AllInGrammar(nodes)
    ensures SwallowAll(nodes, false) == nodes <==> AllSurvive(nodes)
    decreases nodes
  {
    if nodes != [] {
      SwallowIsIdentityIff(nodes[0]);
      SwallowAllIsIdentityIff(nodes[1..]);
      var tail := nodes[1..];
      var read := SwallowAll(tail, IsOpenIf(nodes[0]));
      assert SwallowAll(nodes, false) == [Swallow(nodes[0])] + read;
      assert SwallowAll(nodes, false) == nodes <==> Swallow(nodes[0]) == nodes[0] && read == tail by {
        assert nodes == [nodes[0]] + tail;
        if SwallowAll(nodes, false) == nodes {
          assert read == SwallowAll(nodes, false)[1..];
        }
      }
      if IsOpenIf(nodes[0]) && tail != [] && IsBlankRawCode(tail[0]) {
        assert |SwallowAll(tail, true)| < |tail|;
      }
    }
  }

  /** Parsing undoes printing, exactly for the trees without blank raw code right behind an
      else-less `$if`. */
  lemma RoundTripIff(nodes: seq<Node>)
    requires AllInGrammar(nodes)
    ensures ReadCode(PrintCode(nodes, [])) == Ok((nodes, [])) <==> AllSurvive(nodes)
  {
    ReadsPrinted(nodes, []);
    SwallowAllIsIdentityIff(nodes);
  }
}
