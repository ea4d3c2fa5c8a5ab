/** What a Pump tree means: a lexically scoped semantics on immutable scopes, and its laws. */
module PumpSemantics {
  import opened Wrappers
  import opened Numerals
  import opened PumpSyntax
  import opened PythonText

  // ----- Values ------------------------------------------------------------------------------

  /** What a meta variable holds. */
  datatype Value = IntValue(i: int) | StrValue(s: string)

  /** `'%s' % value` */
  function Show(v: Value): string {
    match v
    case IntValue(i) => Decimal(i)
    case StrValue(s) => s
  }

  /** Python's `int(s)`: surrounding white space and a sign are allowed. */
  function PyInt(s: string): Option<int> {
    var t := Strip(s);
    var signed := t != "" && (t[0] == '-' || t[0] == '+');
    var digits := if signed then t[1..] else t;
    if digits == "" || !AllDigits(digits) then None
    else if signed && t[0] == '-' then Some(0 - Number(digits))
    else Some(Number(digits))
  }

  /** `digits` behind `sign`, between blanks, stand for `i`. */
  predicate IsIntText(s: string, a: string, sign: string, digits: string, b: string, i: int) {
    && IsMiddle(s, a, sign + digits, b) && sign in ["", "+", "-"]
    && digits != "" && AllDigits(digits) && i == if sign == "-" then 0 - Number(digits) else Number(digits)
  }

  lemma SignedIsSolid(sign: string, digits: string)
    requires sign in ["", "+", "-"] && digits != "" && AllDigits(digits)
    ensures IsSolid(sign + digits) && IsDigit((sign + digits)[|sign|]) && (sign + digits)[|sign|..] == digits
  {
  }

  lemma PyIntIff(s: string, i: int)
    ensures PyInt(s) == Some(i) <==> exists a, sign, digits, b :: IsIntText(s, a, sign, digits, b, i)
  {
    var t := Strip(s);
    StripIff(s, t);
    var a, b :| IsMiddle(s, a, t, b);
    if PyInt(s) == Some(i) {
      var sign := if t[0] == '-' then "-" else if t[0] == '+' then "+" else "";
      assert t == sign + t[|sign|..];
      assert IsIntText(s, a, sign, t[|sign|..], b, i);
    }
    if a', sign, digits, b' :| IsIntText(s, a', sign, digits, b', i) {
      SignedIsSolid(sign, digits);
      StripIff(s, sign + digits);
      assert sign == "" ==> IsDigit(t[0]);
    }
  }

  /** A string that looks like an int is stored as an int. */
  function Store(s: string): Value {
    var i := PyInt(s);
    if i.Some? && Decimal(i.value) == s then IntValue(i.value) else StrValue(s)
  }

  lemma StripKeepsSolid(s: string)
    requires s == "" || (!IsSpace(s[0]) && !IsSpace(s[|s| - 1]))
    ensures Strip(s) == s
  {
  }

  lemma PyIntOfDecimal(i: int)
    ensures PyInt(Decimal(i)) == Some(i)
  {
    var s := Decimal(i);
    var n := if i < 0 then -i else i;
    NumberOfDigits(n);
    var digits := Digits(n);
    assert IsDigit(digits[0]) && IsDigit(digits[|digits| - 1]);
    assert s[|s| - 1] == digits[|digits| - 1];
    StripKeepsSolid(s);
    if i < 0 {
      assert s[1..] == digits;
    }
  }

  /** Storing a string never changes what is printed for it, and it becomes an int exactly when
      it is the numeral of one. */
  lemma StoreKeepsText(s: string)
    ensures Show(Store(s)) == s
    ensures Store(s).IntValue? <==> exists i :: Decimal(i) == s
  {
    if i :| Decimal(i) == s {
      PyIntOfDecimal(i);
    }
  }

  // ----- Python expressions --------------------------------------------------------------------

  /** A Python value as Pump uses it: as text, as a condition and as an int. */
  datatype PyValue = PyValue(text: string, truth: bool, asInt: Option<int>)

  function Python(v: Value): PyValue {
    match v
    case IntValue(i) => PyValue(Decimal(i), i != 0, Some(i))
    case StrValue(s) => PyValue(s, s != "", PyInt(s))
  }

  datatype RunError =
    | UndefinedVariable(name: string)
    | UndefinedRange(name: string)
    | EvalFailed(exp: string)
    | NotAnInt(exp: string)

  type Variables = map<string, Value>

  /** Python's `eval`, which is not modelled: the names an expression refers to, and its value as
      a function of the values of those names. */
  datatype Interpreter = Interpreter(names: string -> set<string>,
                                     eval: (string, Variables) -> Option<PyValue>)

  predicate IsIdentifier(s: string) {
    s != "" && IsWordStart(s[0]) && forall i :: 0 <= i < |s| ==> IsWordChar(s[i])
  }

  /** The variables that an expression may look up. */
  function Mentions(py: Interpreter, exp: string): set<string> {
    if IsIdentifier(exp) then {exp} else py.names(exp)
  }

  function Restrict(vars: Variables, names: set<string>): Variables {
    map x | x in vars && x in names :: vars[x]
  }

  function Eval(py: Interpreter, vars: Variables, exp: string): Result<PyValue, RunError> {
    if IsIdentifier(exp) then
      if exp in vars then Ok(Python(vars[exp])) else Err(UndefinedVariable(exp))
    else
      var v := py.eval(exp, Restrict(vars, py.names(exp)));
      if v.Some? then Ok(v.value) else Err(EvalFailed(exp))
  }

  function EvalInt(py: Interpreter, vars: Variables, exp: string): Result<int, RunError> {
    var v :- Eval(py, vars, exp);
    if v.asInt.Some? then Ok(v.asInt.value) else Err(NotAnInt(exp))
  }

  // ----- The semantics ---------------------------------------------------------------------------

  datatype Scope = Scope(vars: Variables, ranges: map<string, (int, int)>)

  function BindVar(scope: Scope, name: string, v: Value): Scope {
    scope.(vars := scope.vars[name := v])
  }

  function Name(id: Token): string {
    Strip(id.value)
  }

  function Separator(sep: Option<Token>): string {
    if sep.None? then "" else sep.value.value
  }

  type Meaning = Result<(string, Scope), RunError>

  /** The text of a tree and the scope behind it. */
  function Denote(py: Interpreter, scope: Scope, n: Node): Meaning
    decreases n
  {
    match n
    case Var(id, body) =>
      var (text, _) :- Denote(py, scope, body);
      Ok(("", BindVar(scope, Name(id), Store(text))))
    case Range(id, lower, upper) =>
      var lo :- EvalInt(py, scope.vars, lower.value);
      var hi :- EvalInt(py, scope.vars, upper.value);
      Ok(("", scope.(ranges := scope.ranges[Name(id) := (lo, hi)])))
    case For(id, sep, code) =>
      var name := Name(id);
      if name !in scope.ranges then Err(UndefinedRange(name))
      else
        var (lo, hi) := scope.ranges[name];
        var text :- DenoteLoop(py, scope, name, Separator(sep), code, lo, hi);
        Ok((text, scope))
    case If(cond, thenCode, elseCode) =>
      var v :- Eval(py, scope.vars, cond.value);
      if v.truth then InScope(scope, DenoteCode(py, scope, thenCode))
      else if elseCode.NoAlternative? then Ok(("", scope))
      else InScope(scope, DenoteCode(py, scope, elseCode.code))
    case RawCode(t) => Ok((t.value, scope))
    case LiteralDollar(_) => Ok(("$", scope))
    case Exp(t) =>
      var v :- Eval(py, scope.vars, t.value);
      Ok((v.text, scope))
    case Block(code) => InScope(scope, DenoteCode(py, scope, code))
  }

  /** What a block binds is forgotten behind it. */
  function InScope(scope: Scope, m: Meaning): Meaning {
    if m.Ok? then Ok((m.value.0, scope)) else m
  }

  function DenoteCode(py: Interpreter, scope: Scope, code: seq<Node>): Meaning
    decreases code, 0, 0
  {
    if code == [] then Ok(("", scope))
    else
      var (text, scope1) :- Denote(py, scope, code[0]);
      var (text2, scope2) :- DenoteCode(py, scope1, code[1..]);
      Ok((text + text2, scope2))
  }

  function DenoteLoop(py: Interpreter, scope: Scope, name: string, sep: string, code: seq<Node>, lo: int, hi: int)
    : Result<string, RunError>
    decreases code, 1, hi - lo
  {
    if lo > hi then Ok("")
    else
      var (text, _) :- DenoteCode(py, BindVar(scope, name, IntValue(lo)), code);
      var rest :- DenoteLoop(py, scope, name, sep, code, lo + 1, hi);
      Ok(text + (if lo != hi then sep else "") + rest)
  }

  // ----- Laws of the semantics ------------------------------------------------------------------

  /** Python's `sep.join(texts)`. */
  function Join(texts: seq<string>, sep: string): string {
    if texts == [] then ""
    else if |texts| == 1 then texts[0]
    else texts[0] + sep + Join(texts[1..], sep)
  }

  /** `texts` are the texts of `code` for the loop variable running over lo..hi. */
  ghost predicate AreLoopBodies(py: Interpreter, scope: Scope, name: string, code: seq<Node>, lo: int, hi: int,
                                texts: seq<string>)
  {
    && |texts| == (if lo > hi then 0 else hi - lo + 1)
    && forall i :: 0 <= i < |texts| ==> BodyText(py, scope, name, code, lo + i) == Ok(texts[i])
  }

  function BodyText(py: Interpreter, scope: Scope, name: string, code: seq<Node>, i: int): Result<string, RunError> {
    var (text, _) :- DenoteCode(py, BindVar(scope, name, IntValue(i)), code);
    Ok(text)
  }

  lemma {:induction false} LoopIsJoin(py: Interpreter, scope: Scope, name: string, sep: string, code: seq<Node>,
                                      lo: int, hi: int, texts: seq<string>)
    requires AreLoopBodies(py, scope, name, code, lo, hi, texts)
    ensures DenoteLoop(py, scope, name, sep, code, lo, hi) == Ok(Join(texts, sep))
    decreases hi - lo
  {
    if lo <= hi {
      assert BodyText(py, scope, name, code, lo + 0) == Ok(texts[0]);
      forall i | 0 <= i < |texts[1..]|
        ensures BodyText(py, scope, name, code, lo + 1 + i) == Ok(texts[1..][i])
      {
        assert texts[1..][i] == texts[1 + i];
        assert BodyText(py, scope, name, code, lo + (1 + i)) == Ok(texts[1 + i]);
      }
      LoopIsJoin(py, scope, name, sep, code, lo + 1, hi, texts[1..]);
      if lo == hi {
        assert texts[0] + "" + "" == texts[0];
      }
    }
  }

  /** `$for` prints its bodies over the whole range, joined by the separator, and binds nothing. */
  lemma ForIsJoin(py: Interpreter, scope: Scope, n: Node, texts: seq<string>)
    requires n.For? && Name(n.id) in scope.ranges
    requires var (lo, hi) := scope.ranges[Name(n.id)];
             AreLoopBodies(py, scope, Name(n.id), n.code, lo, hi, texts)
    ensures Denote(py, scope, n) == Ok((Join(texts, Separator(n.sep)), scope))
  {
    var (lo, hi) := scope.ranges[Name(n.id)];
    LoopIsJoin(py, scope, Name(n.id), Separator(n.sep), n.code, lo, hi, texts);
  }

  /** Running `b` behind `a`, in the scope `a` leaves. */
  function Then(py: Interpreter, first: Meaning, b: seq<Node>): Meaning {
    var (text, scope) :- first;
    var (text2, scope2) :- DenoteCode(py, scope, b);
    Ok((text + text2, scope2))
  }

  lemma {:induction false} DenoteConcat(py: Interpreter, scope: Scope, a: seq<Node>, b: seq<Node>)
    ensures DenoteCode(py, scope, a + b) == Then(py, DenoteCode(py, scope, a), b)
    decreases |a|
  {
    if a == [] {
      assert a + b == b;
      var m := DenoteCode(py, scope, b);
      assert m.Ok? ==> "" + m.value.0 == m.value.0;
    } else {
      assert (a + b)[0] == a[0] && (a + b)[1..] == a[1..] + b;
      var m := Denote(py, scope, a[0]);
      if m.Ok? {
        DenoteConcat(py, m.value.1, a[1..], b);
        var m1 := DenoteCode(py, m.value.1, a[1..]);
        if m1.Ok? {
          var m2 := DenoteCode(py, m1.value.1, b);
          assert m2.Ok? ==> m.value.0 + (m1.value.0 + m2.value.0) == (m.value.0 + m1.value.0) + m2.value.0;
        }
      }
    }
  }

  predicate BindsNothing(code: seq<Node>) {
    forall i :: 0 <= i < |code| ==> !code[i].Var? && !code[i].Range?
  }

  lemma {:induction false} ScopeIsKept(py: Interpreter, scope: Scope, code: seq<Node>)
    requires BindsNothing(code) && DenoteCode(py, scope, code).Ok?
    ensures DenoteCode(py, scope, code).value.1 == scope
    decreases |code|
  {
    if code != [] {
      assert !code[0].Var? && !code[0].Range?;
      ScopeIsKept(py, Denote(py, scope, code[0]).value.1, code[1..]);
    }
  }

  /** Brackets around code that binds nothing can be dropped, wherever they stand. */
  lemma BlockIsTransparent(py: Interpreter, scope: Scope, before: seq<Node>, code: seq<Node>, after: seq<Node>)
    requires BindsNothing(code)
    ensures DenoteCode(py, scope, before + [Block(code)] + after) == DenoteCode(py, scope, before + code + after)
  {
    DenoteConcat(py, scope, before + [Block(code)], after);
    DenoteConcat(py, scope, before, [Block(code)]);
    DenoteConcat(py, scope, before + code, after);
    DenoteConcat(py, scope, before, code);
    var m := DenoteCode(py, scope, before);
    if m.Ok? {
      var scope1 := m.value.1;
      if DenoteCode(py, scope1, code).Ok? {
        ScopeIsKept(py, scope1, code);
      }
      OneNode(py, scope1, Block(code));
    }
  }

  lemma OneNode(py: Interpreter, scope: Scope, n: Node)
    ensures DenoteCode(py, scope, [n]) == Denote(py, scope, n)
  {
    var m := Denote(py, scope, n);
    assert [n][1..] == [];
    assert m.Ok? ==> m.value.0 + "" == m.value.0;
  }

  // ----- Only the variables a tree mentions matter -----------------------------------------------

  /** Every variable that running the tree may look up is in `names`. */
  predicate MentionsOnly(py: Interpreter, names: set<string>, n: Node) {
    match n
    case Var(_, body) => MentionsOnly(py, names, body)
    case Range(_, lower, upper) => Mentions(py, lower.value) + Mentions(py, upper.value) <= names
    case For(_, _, code) => AllMentionOnly(py, names, code)
    case If(cond, thenCode, elseCode) =>
      && Mentions(py, cond.value) <= names && AllMentionOnly(py, names, thenCode)
      && (elseCode.Alternative? ==> AllMentionOnly(py, names, elseCode.code))
    case Exp(t) => Mentions(py, t.value) <= names
    case Block(code) => AllMentionOnly(py, names, code)
    case _ => true
  }

  predicate AllMentionOnly(py: Interpreter, names: set<string>, code: seq<Node>) {
    code == [] || (MentionsOnly(py, names, code[0]) && AllMentionOnly(py, names, code[1..]))
  }

  ghost predicate Agree(names: set<string>, s: Scope, t: Scope) {
    s.ranges == t.ranges && Restrict(s.vars, names) == Restrict(t.vars, names)
  }

  ghost predicate SameMeaning(names: set<string>, m: Meaning, m': Meaning) {
    if m.Ok? then m'.Ok? && m.value.0 == m'.value.0 && Agree(names, m.value.1, m'.value.1)
    else m' == m
  }

  lemma AgreeOnFewer(names: set<string>, fewer: set<string>, s: Scope, t: Scope)
    requires Agree(names, s, t) && fewer <= names
    ensures Restrict(s.vars, fewer) == Restrict(t.vars, fewer)
  {
    assert Restrict(s.vars, fewer) == Restrict(Restrict(s.vars, names), fewer);
    assert Restrict(t.vars, fewer) == Restrict(Restrict(t.vars, names), fewer);
  }

  lemma EvalAgrees(py: Interpreter, names: set<string>, s: Scope, t: Scope, exp: string)
    requires Agree(names, s, t) && Mentions(py, exp) <= names
    ensures Eval(py, s.vars, exp) == Eval(py, t.vars, exp)
  {
    AgreeOnFewer(names, Mentions(py, exp), s, t);
    if IsIdentifier(exp) {
      assert exp in s.vars <==> exp in Restrict(s.vars, {exp});
      assert exp in t.vars <==> exp in Restrict(t.vars, {exp});
      assert exp in s.vars ==> s.vars[exp] == Restrict(s.vars, {exp})[exp];
      assert exp in t.vars ==> t.vars[exp] == Restrict(t.vars, {exp})[exp];
    }
  }

  lemma BindAgrees(names: set<string>, s: Scope, t: Scope, name: string, v: Value)
    requires Agree(names, s, t)
    ensures Agree(names, BindVar(s, name, v), BindVar(t, name, v))
  {
    var s', t' := BindVar(s, name, v), BindVar(t, name, v);
    forall x
      ensures x in Restrict(s'.vars, names) <==> x in Restrict(t'.vars, names)
      ensures x in Restrict(s'.vars, names) ==> Restrict(s'.vars, names)[x] == Restrict(t'.vars, names)[x]
    {
      assert x in Restrict(s.vars, names) <==> x in Restrict(t.vars, names);
    }
  }

  lemma {:induction false} MeaningAgrees(py: Interpreter, names: set<string>, s: Scope, t: Scope, n: Node)
    requires Agree(names, s, t) && MentionsOnly(py, names, n)
    ensures SameMeaning(names, Denote(py, s, n), Denote(py, t, n))
    decreases n
  {
    match n
    case Var(id, body) =>
      MeaningAgrees(py, names, s, t, body);
      var m := Denote(py, s, body);
      if m.Ok? { BindAgrees(names, s, t, Name(id), Store(m.value.0)); }
    case Range(_, lower, upper) =>
      EvalAgrees(py, names, s, t, lower.value);
      EvalAgrees(py, names, s, t, upper.value);
    case For(id, sep, code) =>
      if Name(id) in s.ranges {
        var (lo, hi) := s.ranges[Name(id)];
        LoopAgrees(py, names, s, t, Name(id), Separator(sep), code, lo, hi);
      }
    case If(cond, thenCode, elseCode) =>
      EvalAgrees(py, names, s, t, cond.value);
      CodeAgrees(py, names, s, t, thenCode);
      if elseCode.Alternative? { CodeAgrees(py, names, s, t, elseCode.code); }
    case RawCode(_) =>
    case LiteralDollar(_) =>
    case Exp(e) => EvalAgrees(py, names, s, t, e.value);
    case Block(code) => CodeAgrees(py, names, s, t, code);
  }

  lemma {:induction false} CodeAgrees(py: Interpreter, names: set<string>, s: Scope, t: Scope, code: seq<Node>)
    requires Agree(names, s, t) && AllMentionOnly(py, names, code)
    ensures SameMeaning(names, DenoteCode(py, s, code), DenoteCode(py, t, code))
    decreases code, 0, 0
  {
    if code != [] {
      MeaningAgrees(py, names, s, t, code[0]);
      var m, m' := Denote(py, s, code[0]), Denote(py, t, code[0]);
      if m.Ok? { CodeAgrees(py, names, m.value.1, m'.value.1, code[1..]); }
    }
  }

  lemma {:induction false} LoopAgrees(py: Interpreter, names: set<string>, s: Scope, t: Scope, name: string,
                                      sep: string, code: seq<Node>, lo: int, hi: int)
    requires Agree(names, s, t) && AllMentionOnly(py, names, code)
    ensures DenoteLoop(py, s, name, sep, code, lo, hi) == DenoteLoop(py, t, name, sep, code, lo, hi)
    decreases code, 1, hi - lo
  {
    if lo <= hi {
      BindAgrees(names, s, t, name, IntValue(lo));
      CodeAgrees(py, names, BindVar(s, name, IntValue(lo)), BindVar(t, name, IntValue(lo)), code);
      LoopAgrees(py, names, s, t, name, sep, code, lo + 1, hi);
    }
  }

  /** A variable that is not mentioned may be bound to anything without changing what is printed. */
  lemma UnmentionedVariable(py: Interpreter, names: set<string>, scope: Scope, name: string, v: Value, code: seq<Node>)
    requires AllMentionOnly(py, names, code) && name !in names
    ensures SameMeaning(names, DenoteCode(py, scope, code), DenoteCode(py, BindVar(scope, name, v), code))
  {
    assert Restrict(scope.vars, names) == Restrict(BindVar(scope, name, v).vars, names);
    CodeAgrees(py, names, scope, BindVar(scope, name, v), code);
  }
}
