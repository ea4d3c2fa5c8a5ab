/** What the parser of Pump leaves over. It stops without an error at a token that ends a construct of
    which there is none, and ignores the rest of the program; one scan over the tokens tells when. */
module PumpLeftover {
  import opened Wrappers

  import opened PumpLines
  import opened PumpParser
  import opened PumpSyntax
  import opened PythonText
  import Layout = PumpTokenLayout
  import Tokenizer = PumpTokenizer

  // ----- The scan -------------------------------------------------------------------------------------

  /** How far the scan is in the head of an `$if` or `$elif`. */
  datatype Head = NoHead | Keyword | Condition

  /** For every open bracket whether it is the block of an `$if` or `$elif`; and whether such a block has
      just been closed, blank code aside, so that an else branch may follow. */
  datatype Scan = Scan(open: seq<bool>, head: Head, mayElse: bool)

  /** None for a bracket that closes none, and for an else branch outside of brackets with no `$if` in
      front of it. */
  function Advance(st: Scan, t: Token): Option<Scan> {
    match t.tokenType
    case Open => Some(Scan(st.open + [st.head == Condition], NoHead, false))
    case Close =>
      if st.open == [] then None
      else Some(Scan(st.open[..|st.open| - 1], NoHead, st.open[|st.open| - 1]))
    case KwElse => if st.open == [] && !st.mayElse then None else Some(Scan(st.open, NoHead, false))
    case KwElif => if st.open == [] && !st.mayElse then None else Some(Scan(st.open, Keyword, false))
    case KwIf => Some(Scan(st.open, Keyword, false))
    case CodeText =>
      if st.head == Keyword then Some(Scan(st.open, Condition, false))
      else Some(Scan(st.open, NoHead, st.mayElse && IsBlank(t.value)))
    case _ => Some(Scan(st.open, NoHead, false))
  }

  predicate Passes(ts: seq<Token>, st: Scan) {
    ts == [] || (Advance(st, ts[0]).Some? && Passes(ts[1..], Advance(st, ts[0]).value))
  }

  /** No bracket is closed that was not opened, and outside of brackets no else branch lacks its `$if`. */
  predicate HasNoStray(ts: seq<Token>) {
    Passes(ts, Scan([], NoHead, false))
  }

  // ----- Derivations pass the scan ---------------------------------------------------------------------

  /** Where an else branch may follow, none does. */
  predicate IsReady(st: Scan, rest: seq<Token>) {
    st.mayElse ==> st.head == NoHead && (rest == [] || !AttractsElse(rest[0]))
  }

  /** Behind some tokens, in front of `rest`, the scan goes on from `after`, with the same brackets open. */
  predicate Leads(ts: seq<Token>, st: Scan, rest: seq<Token>, after: Scan) {
    Passes(ts, st) == Passes(rest, after) && after.open == st.open
  }

  lemma PassesPush(t: Token, ts: seq<Token>, st: Scan)
    requires Advance(st, t).Some?
    ensures Passes(Push(t, ts), st) == Passes(ts, Advance(st, t).value)
  {
  }

  lemma {:induction false} ScanBracketed(b: Bracketed, rest: seq<Token>, st: Scan)
    requires LegalBracketed(b, rest)
    ensures Leads(YieldBracketed(b, rest), st, rest, Scan(st.open, NoHead, st.head == Condition))
    decreases b, 0
  {
    var inner := Scan(st.open + [st.head == Condition], NoHead, false);
    PassesPush(b.open, YieldCode(b.code, Push(b.close, rest)), st);
    var after := ScanCode(b.code, Push(b.close, rest), inner);
    PassesPush(b.close, rest, after);
  }

  lemma {:induction false} ScanConditional(c: Conditional, rest: seq<Token>, st: Scan) returns (after: Scan)
    requires LegalConditional(c, rest) && st.head == Keyword
    ensures Leads(YieldConditional(c, rest), st, rest, after) && IsReady(after, rest) && after.head == NoHead
    decreases c, 1
  {
    var block := YieldBracketed(c.block, YieldElse(c.els, rest));
    PassesPush(c.exp, block, st);
    ScanBracketed(c.block, YieldElse(c.els, rest), Scan(st.open, Condition, false));
    after := ScanElse(c.els, rest, Scan(st.open, NoHead, true));
  }

  lemma {:induction false} ScanElse(e: ElseBranch, rest: seq<Token>, st: Scan) returns (after: Scan)
    requires LegalElse(e, rest) && st.head == NoHead && st.mayElse
    ensures Leads(YieldElse(e, rest), st, rest, after) && IsReady(after, rest) && after.head == NoHead
    decreases e, 0
  {
    match e {
      case NoElse =>
        after := st;
      case Blank(t, more) =>
        PassesPush(t, YieldElse(more, rest), st);
        after := ScanElse(more, rest, st);
      case Else(kw, block) =>
        PassesPush(kw, YieldBracketed(block, rest), st);
        ScanBracketed(block, rest, Scan(st.open, NoHead, false));
        after := Scan(st.open, NoHead, false);
      case Elif(kw, branch) =>
        PassesPush(kw, YieldConditional(branch, rest), st);
        after := ScanConditional(branch, rest, Scan(st.open, Keyword, false));
    }
  }

  predicate IsInert(t: Token) {
    t.tokenType !in {Open, Close, KwElse, KwElif, KwIf, CodeText}
  }

  lemma PassesInert(t: Token, ts: seq<Token>, st: Scan)
    requires IsInert(t)
    ensures Passes(Push(t, ts), st) == Passes(ts, Scan(st.open, NoHead, false))
  {
    PassesPush(t, ts, st);
  }

  lemma PassesThree(t: Token, u: Token, v: Token, ts: seq<Token>, st: Scan)
    requires IsInert(t) && IsInert(u) && IsInert(v)
    ensures Passes(Push(t, Push(u, Push(v, ts))), st) == Passes(ts, Scan(st.open, NoHead, false))
  {
    PassesInert(t, Push(u, Push(v, ts)), st);
    PassesInert(u, Push(v, ts), Scan(st.open, NoHead, false));
    PassesInert(v, ts, Scan(st.open, NoHead, false));
  }

  /** The constructs that hold no code. */
  lemma ScanLeaf(a: Atomic, rest: seq<Token>, st: Scan)
    requires Legal(a, rest) && (a.DRaw? || a.DVarExp? || a.DRange? || a.DId? || a.DEscapedDollar? || a.DExp?)
    requires IsReady(st, Yield(a, rest)) && st.head == NoHead
    ensures Leads(Yield(a, rest), st, rest, Scan(st.open, NoHead, false))
  {
    var after := Scan(st.open, NoHead, false);
    match a {
      case DRaw(t) => PassesPush(t, rest, st);
      case DVarExp(kw, id, eq, exp) =>
        PassesThree(kw, id, eq, Push(exp, rest), st);
        PassesInert(exp, rest, after);
      case DRange(kw, id, exp, dots, upper) =>
        PassesThree(kw, id, exp, Push(dots, Push(upper, rest)), st);
        PassesInert(dots, Push(upper, rest), after);
        PassesInert(upper, rest, after);
      case DExp(kw, exp) =>
        PassesInert(kw, Push(exp, rest), st);
        PassesInert(exp, rest, after);
      case DId(t) => PassesInert(t, rest, st);
      case DEscapedDollar(t) => PassesInert(t, rest, st);
      case _ =>
    }
  }

  lemma {:induction false} ScanFor(a: Atomic, rest: seq<Token>, st: Scan)
    requires Legal(a, rest) && a.DFor? && st.head == NoHead
    ensures Leads(Yield(a, rest), st, rest, Scan(st.open, NoHead, false))
    decreases a, 0
  {
    var ts, after := YieldBracketed(a.block, rest), Scan(st.open, NoHead, false);
    var more := if a.sep.Some? then Push(a.sep.value, ts) else ts;
    PassesInert(a.kw, Push(a.id, more), st);
    PassesInert(a.id, more, after);
    if a.sep.Some? { PassesPush(a.sep.value, ts, after); }
    ScanBracketed(a.block, rest, after);
  }

  lemma {:induction false} ScanVarBlock(a: Atomic, rest: seq<Token>, st: Scan)
    requires Legal(a, rest) && a.DVarBlock? && st.head == NoHead
    ensures Leads(Yield(a, rest), st, rest, Scan(st.open, NoHead, false))
    decreases a, 0
  {
    PassesThree(a.kw, a.id, a.eq, YieldBracketed(a.block, rest), st);
    ScanBracketed(a.block, rest, Scan(st.open, NoHead, false));
  }

  lemma {:induction false} ScanIf(a: Atomic, rest: seq<Token>, st: Scan) returns (after: Scan)
    requires Legal(a, rest) && a.DIf? && st.head == NoHead
    ensures Leads(Yield(a, rest), st, rest, after) && IsReady(after, rest) && after.head == NoHead
    decreases a, 0
  {
    PassesPush(a.kw, YieldConditional(a.branch, rest), st);
    after := ScanConditional(a.branch, rest, Scan(st.open, Keyword, false));
  }

  lemma {:induction false} ScanAtomic(a: Atomic, rest: seq<Token>, st: Scan) returns (after: Scan)
    requires Legal(a, rest) && IsReady(st, Yield(a, rest)) && st.head == NoHead
    ensures Leads(Yield(a, rest), st, rest, after) && IsReady(after, rest) && after.head == NoHead
    decreases a, 1
  {
    after := Scan(st.open, NoHead, false);
    match a {
      case DIf(_, _) => after := ScanIf(a, rest, st);
      case DVarBlock(_, _, _, _) => ScanVarBlock(a, rest, st);
      case DFor(_, _, _, _) => ScanFor(a, rest, st);
      case DBlock(block) => ScanBracketed(block, rest, st);
      case _ => ScanLeaf(a, rest, st);
    }
  }

  lemma {:induction false} ScanCode(c: Code, rest: seq<Token>, st: Scan) returns (after: Scan)
    requires LegalCode(c, rest) && IsReady(st, YieldCode(c, rest)) && st.head == NoHead
    ensures Leads(YieldCode(c, rest), st, rest, after) && IsReady(after, rest) && after.head == NoHead
    decreases c, 0
  {
    match c {
      case Empty =>
        after := st;
      case Cons(head, tail) =>
        var middle := ScanAtomic(head, YieldCode(tail, rest), st);
        after := ScanCode(tail, rest, middle);
    }
  }

  // ----- What can be left over ---------------------------------------------------------------------------

  /** The n tokens in front of `ts[n..]` end with a construct that asks for nothing more. */
  predicate Ends(ts: seq<Token>, n: nat) {
    && 0 < n <= |ts|
    && ts[n - 1].tokenType !in {KwVar, KwFor, KwRange, DotDot, Dollar, Ident, Equals}
    && (ts[n - 1].tokenType == Expression ==> n > 1 && ts[n - 2].tokenType != Ident)
  }

  /** `ts` is a finished construct in front of `rest`. */
  predicate EndsBefore(ts: seq<Token>, rest: seq<Token>) {
    |rest| < |ts| && ts[|ts| - |rest|..] == rest && Ends(ts, |ts| - |rest|)
  }

  lemma EndsBehind(ts: seq<Token>, middle: seq<Token>, rest: seq<Token>)
    requires EndsBefore(ts, middle) && (middle == rest || EndsBefore(middle, rest))
    ensures EndsBefore(ts, rest)
  {
    if middle != rest {
      var k := |ts| - |middle|;
      assert ts[|ts| - |rest|..] == ts[k..][|middle| - |rest|..];
      assert forall i :: 0 <= i < |middle| ==> ts[k + i] == middle[i];
    }
  }

  lemma EndsPush(t: Token, ts: seq<Token>, rest: seq<Token>)
    requires EndsBefore(ts, rest)
    ensures EndsBefore(Push(t, ts), rest)
  {
    var more := Push(t, ts);
    assert more[|more| - |rest|..] == more[1..][|ts| - |rest|..];
    assert forall i :: 0 <= i < |ts| ==> more[i + 1] == ts[i];
  }

  lemma EndsOne(t: Token, rest: seq<Token>)
    requires t.tokenType !in {KwVar, KwFor, KwRange, DotDot, Dollar, Ident, Equals, Expression}
    ensures EndsBefore(Push(t, rest), rest)
  {
  }

  lemma EndsExpression(t: Token, exp: Token, rest: seq<Token>)
    requires t.tokenType != Ident && exp.tokenType == Expression
    ensures EndsBefore(Push(t, Push(exp, rest)), rest)
  {
    var ts := Push(t, Push(exp, rest));
    assert ts[1..][1..] == rest && ts[2..] == rest && ts[1] == exp;
  }

  lemma {:induction false} BracketedEnds(b: Bracketed, rest: seq<Token>)
    requires LegalBracketed(b, rest)
    ensures EndsBefore(YieldBracketed(b, rest), rest)
    decreases b, 0
  {
    EndsOne(b.close, rest);
    CodeEnds(b.code, Push(b.close, rest));
    if b.code != Empty {
      EndsBehind(YieldCode(b.code, Push(b.close, rest)), Push(b.close, rest), rest);
    }
    EndsPush(b.open, YieldCode(b.code, Push(b.close, rest)), rest);
  }

  lemma {:induction false} ConditionalEnds(c: Conditional, rest: seq<Token>)
    requires LegalConditional(c, rest)
    ensures EndsBefore(YieldConditional(c, rest), rest)
    decreases c, 1
  {
    var behind := YieldElse(c.els, rest);
    BracketedEnds(c.block, behind);
    ElseEnds(c.els, rest);
    EndsBehind(YieldBracketed(c.block, behind), behind, rest);
    EndsPush(c.exp, YieldBracketed(c.block, behind), rest);
  }

  lemma {:induction false} ElseEnds(e: ElseBranch, rest: seq<Token>)
    requires LegalElse(e, rest)
    ensures YieldElse(e, rest) == rest || EndsBefore(YieldElse(e, rest), rest)
    decreases e, 0
  {
    match e {
      case NoElse =>
      case Blank(t, more) =>
        ElseEnds(more, rest);
        EndsOne(t, YieldElse(more, rest));
        EndsBehind(YieldElse(e, rest), YieldElse(more, rest), rest);
      case Else(kw, block) =>
        BracketedEnds(block, rest);
        EndsPush(kw, YieldBracketed(block, rest), rest);
      case Elif(kw, branch) =>
        ConditionalEnds(branch, rest);
        EndsPush(kw, YieldConditional(branch, rest), rest);
    }
  }

  lemma LeafEnds(a: Atomic, rest: seq<Token>)
    requires Legal(a, rest) && (a.DRaw? || a.DVarExp? || a.DRange? || a.DId? || a.DEscapedDollar? || a.DExp?)
    ensures EndsBefore(Yield(a, rest), rest)
  {
    match a {
      case DRaw(t) => EndsOne(t, rest);
      case DId(t) => EndsOne(t, rest);
      case DEscapedDollar(t) => EndsOne(t, rest);
      case DExp(kw, exp) => EndsExpression(kw, exp, rest);
      case DVarExp(kw, id, eq, exp) =>
        EndsExpression(eq, exp, rest);
        EndsPush(id, Push(eq, Push(exp, rest)), rest);
        EndsPush(kw, Push(id, Push(eq, Push(exp, rest))), rest);
      case DRange(kw, id, exp, dots, upper) =>
        EndsExpression(dots, upper, rest);
        EndsPush(exp, Push(dots, Push(upper, rest)), rest);
        EndsPush(id, Push(exp, Push(dots, Push(upper, rest))), rest);
        EndsPush(kw, Push(id, Push(exp, Push(dots, Push(upper, rest)))), rest);
      case _ =>
    }
  }

  lemma EndsPushTwo(t: Token, u: Token, ts: seq<Token>, rest: seq<Token>)
    requires EndsBefore(ts, rest)
    ensures EndsBefore(Push(t, Push(u, ts)), rest)
  {
    EndsPush(u, ts, rest);
    EndsPush(t, Push(u, ts), rest);
  }

  lemma {:induction false} VarBlockEnds(a: Atomic, rest: seq<Token>)
    requires Legal(a, rest) && a.DVarBlock?
    ensures EndsBefore(Yield(a, rest), rest)
    decreases a, 0
  {
    var ts := YieldBracketed(a.block, rest);
    BracketedEnds(a.block, rest);
    EndsPush(a.eq, ts, rest);
    EndsPushTwo(a.kw, a.id, Push(a.eq, ts), rest);
  }

  lemma {:induction false} ForEnds(a: Atomic, rest: seq<Token>)
    requires Legal(a, rest) && a.DFor?
    ensures EndsBefore(Yield(a, rest), rest)
    decreases a, 0
  {
    BracketedEnds(a.block, rest);
    match a {
      case DFor(kw, id, None, block) =>
        EndsPushTwo(kw, id, YieldBracketed(block, rest), rest);
      case DFor(kw, id, Some(sep), block) =>
        EndsPush(sep, YieldBracketed(block, rest), rest);
        EndsPushTwo(kw, id, Push(sep, YieldBracketed(block, rest)), rest);
      case _ =>
    }
  }

  lemma {:induction false} IfEnds(a: Atomic, rest: seq<Token>)
    requires Legal(a, rest) && a.DIf?
    ensures EndsBefore(Yield(a, rest), rest)
    decreases a, 0
  {
    ConditionalEnds(a.branch, rest);
    EndsPush(a.kw, YieldConditional(a.branch, rest), rest);
  }

  lemma {:induction false} AtomicEnds(a: Atomic, rest: seq<Token>)
    requires Legal(a, rest)
    ensures EndsBefore(Yield(a, rest), rest)
    decreases a, 1
  {
    match a {
      case DIf(_, _) => IfEnds(a, rest);
      case DVarBlock(_, _, _, _) => VarBlockEnds(a, rest);
      case DFor(_, _, _, _) => ForEnds(a, rest);
      case DBlock(block) => BracketedEnds(block, rest);
      case _ => LeafEnds(a, rest);
    }
  }

  lemma {:induction false} CodeEnds(c: Code, rest: seq<Token>)
    requires LegalCode(c, rest)
    ensures if c == Empty then YieldCode(c, rest) == rest else EndsBefore(YieldCode(c, rest), rest)
    decreases c, 0
  {
    if c != Empty {
      AtomicEnds(c.head, YieldCode(c.tail, rest));
      CodeEnds(c.tail, rest);
      EndsBehind(YieldCode(c, rest), YieldCode(c.tail, rest), rest);
    }
  }

  /** Behind a finished construct the tokenizer scans for code or a marker. */
  lemma ScansBehind(lines: seq<string>, tokens: seq<Token>, n: nat)
    requires Tokenizer.Lexes(lines, tokens) && n < |tokens| && (n > 0 ==> Ends(tokens, n))
    ensures tokens[n].tokenType == CodeText || Tokenizer.IsMarkerType(tokens[n].tokenType)
  {
    if n == 0 {
      Layout.FirstOfAutomaton(lines, tokens);
      Layout.ScanIsSlice(lines, Cursor(0, 0));
    } else {
      Layout.StepOfAutomaton(lines, tokens, n);
      ScansAfter(lines, Layout.TypeBefore(tokens, n - 1), tokens[n - 1]);
    }
  }

  lemma ScansAfter(lines: seq<string>, previous: TokenType, last: Token)
    requires lines != [] && Tokenizer.NextAfter(lines, previous, last).Next?
    requires last.tokenType !in {KwVar, KwFor, KwRange, DotDot, Dollar, Ident, Equals}
    requires last.tokenType == Expression ==> previous != Ident
    ensures var t := Tokenizer.NextAfter(lines, previous, last).token;
            t.tokenType == CodeText || Tokenizer.IsMarkerType(t.tokenType)
  {
    Layout.ScanIsSlice(lines, Tokenizer.Resume(lines, previous, last));
  }

  /** What the parser leaves over of a text begins with a bracket or an else branch. */
  lemma RestBegins(lines: seq<string>, tokens: seq<Token>, nodes: seq<Node>, rest: seq<Token>)
    requires Tokenizer.Lexes(lines, tokens) && ReadCode(tokens) == Ok((nodes, rest)) && rest != []
    ensures rest[0].tokenType in {Close, KwElse, KwElif}
  {
    var c := CodeDerivation(tokens);
    var n := |tokens| - |rest|;
    CodeEnds(c, rest);
    assert tokens[n..] == rest && tokens[n] == rest[0];
    ScansBehind(lines, tokens, n);
  }

  lemma {:induction false} ScanReachesRest(tokens: seq<Token>, nodes: seq<Node>, rest: seq<Token>)
    requires ReadCode(tokens) == Ok((nodes, rest))
    requires rest == [] || rest[0].tokenType in {Close, KwElse, KwElif}
    ensures rest == [] <==> HasNoStray(tokens)
  {
    var c := CodeDerivation(tokens);
    var after := ScanCode(c, rest, Scan([], NoHead, false));
  }

  /** For the tokens of any text that parse: nothing is left over if and only if in no prefix more
      brackets are closed than opened and no else branch outside of brackets lacks its `$if`. */
  lemma NothingIsLeftIff(lines: seq<string>, tokens: seq<Token>, nodes: seq<Node>, rest: seq<Token>)
    requires Tokenizer.Lexes(lines, tokens) && ReadCode(tokens) == Ok((nodes, rest))
    ensures rest == [] <==> HasNoStray(tokens)
  {
    if rest != [] { RestBegins(lines, tokens, nodes, rest); }
    ScanReachesRest(tokens, nodes, rest);
  }
}
