/** Trees that come out of the parser of Pump can be printed and parsed again without loss. */
module PumpReprint {
  import opened Wrappers

  import opened PumpLeftover
  import opened PumpLines
  import opened PumpParser
  import opened PumpPatterns
  import opened PumpSyntax
  import opened PumpUnparser
  import opened PythonText
  import Layout = PumpTokenLayout
  import Tokenizer = PumpTokenizer

  // ----- Nothing to swallow ------------------------------------------------------------------------

  /** An else branch that is none has swallowed all blank code. */
  lemma {:induction false} NoElseSwallows(e: ElseBranch, rest: seq<Token>)
    requires LegalElse(e, rest) && TreeOfElse(e) == NoAlternative
    ensures rest == [] || !AttractsElse(rest[0])
  {
    if e.Blank? {
      NoElseSwallows(e.rest, rest);
    }
  }

  lemma {:induction false} AtomicSurvives(a: Atomic, rest: seq<Token>)
    requires Legal(a, rest)
    ensures Survives(Tree(a))
    ensures IsOpenIf(Tree(a)) ==> rest == [] || !AttractsElse(rest[0])
    decreases a, 0
  {
    match a {
      case DVarBlock(_, _, _, block) => CodeSurvives(block.code, Push(block.close, rest));
      case DFor(_, _, _, block) => CodeSurvives(block.code, Push(block.close, rest));
      case DBlock(block) => CodeSurvives(block.code, Push(block.close, rest));
      case DIf(_, branch) => ConditionalSurvives(branch, rest);
      case _ =>
    }
  }

  lemma {:induction false} ConditionalSurvives(c: Conditional, rest: seq<Token>)
    requires LegalConditional(c, rest)
    ensures Survives(TreeOfConditional(c))
    ensures IsOpenIf(TreeOfConditional(c)) ==> rest == [] || !AttractsElse(rest[0])
    decreases c, 1
  {
    CodeSurvives(c.block.code, Push(c.block.close, YieldElse(c.els, rest)));
    if TreeOfElse(c.els) == NoAlternative {
      NoElseSwallows(c.els, rest);
    } else {
      ElseSurvives(c.els, rest);
    }
  }

  lemma {:induction false} ElseSurvives(e: ElseBranch, rest: seq<Token>)
    requires LegalElse(e, rest)
    ensures TreeOfElse(e).Alternative? ==> AllSurvive(TreeOfElse(e).code)
    decreases e, 0
  {
    match e {
      case NoElse =>
      case Blank(_, more) => ElseSurvives(more, rest);
      case Else(_, block) => CodeSurvives(block.code, Push(block.close, rest));
      case Elif(_, branch) => ConditionalSurvives(branch, rest);
    }
  }

  lemma BlankComesFirst(c: Code, rest: seq<Token>)
    requires c != Empty
    ensures TreeOfCode(c) != [] && TreeOfCode(c)[0] == Tree(c.head)
    ensures IsBlankRawCode(Tree(c.head)) ==> YieldCode(c, rest) != [] && AttractsElse(YieldCode(c, rest)[0])
  {
  }

  lemma {:induction false} CodeSurvives(c: Code, rest: seq<Token>)
    requires LegalCode(c, rest)
    ensures AllSurvive(TreeOfCode(c))
    decreases c, 0
  {
    if c != Empty {
      AtomicSurvives(c.head, YieldCode(c.tail, rest));
      CodeSurvives(c.tail, rest);
      assert TreeOfCode(c)[1..] == TreeOfCode(c.tail);
      if c.tail != Empty { BlankComesFirst(c.tail, rest); }
    }
  }

  /** No tree that the parser returns has blank raw code right behind an else-less `$if`. */
  lemma ParsedTreesSurvive(tokens: seq<Token>, nodes: seq<Node>, rest: seq<Token>)
    requires ReadCode(tokens) == Ok((nodes, rest))
    ensures AllSurvive(nodes)
  {
    var c := CodeDerivation(tokens);
    CodeSurvives(c, rest);
  }

  // ----- Parsed trees are in the grammar --------------------------------------------------------------

  /** The token of an escaped dollar is not blank; that of a text is always `$($)`. */
  predicate HasSolidMarkers(ts: seq<Token>) {
    forall k :: 0 <= k < |ts| && ts[k].tokenType == EscapedDollar ==> !IsBlank(ts[k].value)
  }

  lemma SolidBehind(ts: seq<Token>, rest: seq<Token>)
    requires HasSolidMarkers(ts) && |rest| <= |ts| && ts[|ts| - |rest|..] == rest
    ensures HasSolidMarkers(rest)
  {
    forall k | 0 <= k < |rest| && rest[k].tokenType == EscapedDollar
      ensures !IsBlank(rest[k].value)
    {
      assert rest[k] == ts[|ts| - |rest| + k];
    }
  }

  lemma SolidPush(t: Token, ts: seq<Token>)
    requires HasSolidMarkers(Push(t, ts))
    ensures HasSolidMarkers(ts) && (t.tokenType == EscapedDollar ==> !IsBlank(t.value))
  {
    assert Push(t, ts)[0] == t;
    SolidBehind(Push(t, ts), ts);
  }

  lemma {:induction false} BracketedInGrammar(b: Bracketed, rest: seq<Token>)
    requires LegalBracketed(b, rest) && HasSolidMarkers(YieldBracketed(b, rest))
    ensures AllInGrammar(TreeOfCode(b.code)) && HasSolidMarkers(rest)
    decreases b, 0
  {
    SolidPush(b.open, YieldCode(b.code, Push(b.close, rest)));
    CodeInGrammar(b.code, Push(b.close, rest));
    SolidPush(b.close, rest);
  }

  lemma {:induction false} ConditionalInGrammar(c: Conditional, rest: seq<Token>)
    requires LegalConditional(c, rest) && HasSolidMarkers(YieldConditional(c, rest))
    ensures InGrammar(TreeOfConditional(c)) && HasSolidMarkers(rest)
    decreases c, 1
  {
    SolidPush(c.exp, YieldBracketed(c.block, YieldElse(c.els, rest)));
    BracketedInGrammar(c.block, YieldElse(c.els, rest));
    ElseInGrammar(c.els, rest);
  }

  lemma {:induction false} ElseInGrammar(e: ElseBranch, rest: seq<Token>)
    requires LegalElse(e, rest) && HasSolidMarkers(YieldElse(e, rest))
    ensures (TreeOfElse(e).Alternative? ==> AllInGrammar(TreeOfElse(e).code)) && HasSolidMarkers(rest)
    decreases e, 0
  {
    match e {
      case NoElse =>
      case Blank(t, more) =>
        SolidPush(t, YieldElse(more, rest));
        ElseInGrammar(more, rest);
      case Else(kw, block) =>
        SolidPush(kw, YieldBracketed(block, rest));
        BracketedInGrammar(block, rest);
      case Elif(kw, branch) =>
        SolidPush(kw, YieldConditional(branch, rest));
        ConditionalInGrammar(branch, rest);
    }
  }

  lemma LeafInGrammar(a: Atomic, rest: seq<Token>)
    requires Legal(a, rest) && (a.DRaw? || a.DVarExp? || a.DRange? || a.DId? || a.DEscapedDollar? || a.DExp?)
    requires HasSolidMarkers(Yield(a, rest))
    ensures InGrammar(Tree(a))
  {
    if a.DEscapedDollar? { SolidPush(a.token, rest); }
  }

  lemma {:induction false} BlockInGrammar(a: Atomic, rest: seq<Token>)
    requires Legal(a, rest) && (a.DVarBlock? || a.DFor? || a.DBlock?) && HasSolidMarkers(Yield(a, rest))
    ensures InGrammar(Tree(a))
    decreases a, 0
  {
    var ts := YieldBracketed(a.block, rest);
    match a {
      case DVarBlock(kw, id, eq, block) =>
        SolidPush(kw, Push(id, Push(eq, ts)));
        SolidPush(id, Push(eq, ts));
        SolidPush(eq, ts);
      case DFor(kw, id, None, block) =>
        SolidPush(kw, Push(id, ts));
        SolidPush(id, ts);
      case DFor(kw, id, Some(sep), block) =>
        SolidPush(kw, Push(id, Push(sep, ts)));
        SolidPush(id, Push(sep, ts));
        SolidPush(sep, ts);
      case _ =>
    }
    BracketedInGrammar(a.block, rest);
  }

  lemma {:induction false} IfInGrammar(a: Atomic, rest: seq<Token>)
    requires Legal(a, rest) && a.DIf? && HasSolidMarkers(Yield(a, rest))
    ensures InGrammar(Tree(a))
    decreases a, 0
  {
    SolidPush(a.kw, YieldConditional(a.branch, rest));
    ConditionalInGrammar(a.branch, rest);
  }

  lemma SolidBehindAtomic(a: Atomic, rest: seq<Token>)
    requires Legal(a, rest) && HasSolidMarkers(Yield(a, rest))
    ensures HasSolidMarkers(rest)
  {
    AtomicEnds(a, rest);
    SolidBehind(Yield(a, rest), rest);
  }

  lemma {:induction false} AtomicInGrammar(a: Atomic, rest: seq<Token>)
    requires Legal(a, rest) && HasSolidMarkers(Yield(a, rest))
    ensures InGrammar(Tree(a)) && HasSolidMarkers(rest)
    decreases a, 1
  {
    SolidBehindAtomic(a, rest);
    if a.DIf? {
      IfInGrammar(a, rest);
    } else if a.DVarBlock? || a.DFor? || a.DBlock? {
      BlockInGrammar(a, rest);
    } else {
      LeafInGrammar(a, rest);
    }
  }

  lemma {:induction false} CodeInGrammar(c: Code, rest: seq<Token>)
    requires LegalCode(c, rest) && HasSolidMarkers(YieldCode(c, rest))
    ensures AllInGrammar(TreeOfCode(c)) && HasSolidMarkers(rest)
    decreases c, 0
  {
    if c != Empty {
      AtomicInGrammar(c.head, YieldCode(c.tail, rest));
      CodeInGrammar(c.tail, rest);
      assert TreeOfCode(c)[1..] == TreeOfCode(c.tail);
    }
  }

  /** Printing what was parsed and parsing that gives the same tree again. */
  lemma ParsedTreesComeBack(tokens: seq<Token>, nodes: seq<Node>, rest: seq<Token>)
    requires ReadCode(tokens) == Ok((nodes, rest)) && HasSolidMarkers(tokens)
    ensures AllInGrammar(nodes) && ReadCode(PrintCode(nodes, [])) == Ok((nodes, []))
  {
    var c := CodeDerivation(tokens);
    CodeInGrammar(c, rest);
    ParsedTreesSurvive(tokens, nodes, rest);
    RoundTripIff(nodes);
  }

  // ----- Trees of texts -----------------------------------------------------------------------------------

  /** A marker of a text is not blank. */
  lemma MarkerIsSolid(lines: seq<string>, at: Cursor)
    requires InLine(lines, at) && IsMarker(Rest(lines, at))
    ensures !IsBlank(Tokenizer.MarkerAt(lines, at).value)
  {
    Tokenizer.MarkerAdvances(lines, at);
    assert Tokenizer.MarkerAt(lines, at).value[0] == Rest(lines, at)[0];
  }

  lemma TextMarkersAreSolid(lines: seq<string>, tokens: seq<Token>)
    requires Tokenizer.Lexes(lines, tokens)
    ensures HasSolidMarkers(tokens)
  {
    forall k | 0 <= k < |tokens| && tokens[k].tokenType == EscapedDollar
      ensures !IsBlank(tokens[k].value)
    {
      Layout.ScannedToken(lines, tokens, k);
      MarkerIsSolid(lines, tokens[k].start);
    }
  }

  /** The tree of every text that parses comes back from its own printed tokens. */
  lemma TextTreesComeBack(lines: seq<string>, tokens: seq<Token>, nodes: seq<Node>, rest: seq<Token>)
    requires Tokenizer.Lexes(lines, tokens) && ReadCode(tokens) == Ok((nodes, rest))
    ensures AllInGrammar(nodes) && ReadCode(PrintCode(nodes, [])) == Ok((nodes, []))
  {
    TextMarkersAreSolid(lines, tokens);
    ParsedTreesComeBack(tokens, nodes, rest);
  }
}
