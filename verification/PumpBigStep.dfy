/** What a Pump tree means, by rules: the derivations of a big-step semantics, one rule for each kind of
    node, which the denotation agrees with; and the law of choice. */
module PumpBigStep {
  import opened Wrappers

  import opened Numerals
  import opened PumpSemantics
  import opened PumpSyntax
  import opened PythonText

  // ----- Expressions ------------------------------------------------------------------------------

  /** How Python sees the value of a variable: 0 and the empty string are false. */
  predicate Shows(value: Value, v: PyValue) {
    match value
    case IntValue(i) => v.text == Decimal(i) && (v.truth <==> i != 0) && v.asInt == Some(i)
    case StrValue(s) => v.text == s && (v.truth <==> |s| > 0) && v.asInt == PyInt(s)
  }

  predicate Evaluates(py: Interpreter, vars: Variables, exp: string, r: Result<PyValue, RunError>) {
    match r
    case Ok(v) =>
      if IsIdentifier(exp) then exp in vars && Shows(vars[exp], v)
      else py.eval(exp, Restrict(vars, py.names(exp))) == Some(v)
    case Err(UndefinedVariable(name)) => IsIdentifier(exp) && name == exp && exp !in vars
    case Err(EvalFailed(e)) => !IsIdentifier(exp) && e == exp && py.eval(exp, Restrict(vars, py.names(exp))) == None
    case Err(_) => false
  }

  lemma EvaluatesIff(py: Interpreter, vars: Variables, exp: string, r: Result<PyValue, RunError>)
    ensures Evaluates(py, vars, exp, r) <==> r == Eval(py, vars, exp)
  {
  }

  /** What is bound by `$var` is false in a condition exactly if its text is empty or 0. */
  lemma TruthOfStored(s: string)
    ensures Shows(Store(s), Python(Store(s))) && Python(Store(s)).text == s
    ensures Python(Store(s)).truth <==> s != "" && s != "0"
  {
    StoreKeepsText(s);
    if Store(s) == IntValue(0) {
      assert Decimal(0) == "0";
    }
    if s == "0" {
      PyIntOfDecimal(0);
    }
  }

  // ----- Rules ------------------------------------------------------------------------------------

  /** A derivation holds the conclusions of its premises. */
  datatype Derivation =
    | Axiom
    | ByValue(v: Result<PyValue, RunError>)
    | ByBounds(lower: Result<PyValue, RunError>, upper: Result<PyValue, RunError>)
    | ByBody(m: Meaning, body: Derivation)
    | ByCode(m: Meaning, code: CodeDerivation)
    | ByChoice(cond: Result<PyValue, RunError>, m: Meaning, branch: CodeDerivation)
    | ByRounds(rounds: seq<Round>)

  datatype CodeDerivation = Nothing | Sequence(m: Meaning, first: Derivation, m2: Meaning, rest: CodeDerivation)

  /** One round of a loop. */
  datatype Round = Round(m: Meaning, code: CodeDerivation)

  ghost predicate Derives(py: Interpreter, scope: Scope, n: Node, m: Meaning, d: Derivation)
    decreases n
  {
    match n
    case RawCode(t) => m == Ok((t.value, scope))
    case LiteralDollar(_) => m == Ok(("$", scope))
    case Exp(t) =>
      && d.ByValue? && Evaluates(py, scope.vars, t.value, d.v)
      && m == if d.v.Err? then Err(d.v.error) else Ok((d.v.value.text, scope))
    case Range(id, lower, upper) => d.ByBounds? && Bounds(py, scope, n, m, d.lower, d.upper)
    case Var(id, body) =>
      && d.ByBody? && Derives(py, scope, body, d.m, d.body)
      && if d.m.Err? then m == Err(d.m.error)
         else m.Ok? && m.value.0 == "" && m.value.1.ranges == scope.ranges
              && m.value.1.vars == scope.vars[Strip(id.value) := Store(d.m.value.0)]
    case For(id, sep, code) =>
      if Strip(id.value) !in scope.ranges then m == Err(UndefinedRange(Strip(id.value)))
      else
        && d.ByRounds? && RoundsFit(scope.ranges[Strip(id.value)], d.rounds)
        && (forall i :: 0 <= i < |d.rounds| ==>
              DerivesRound(py, scope, Strip(id.value), scope.ranges[Strip(id.value)].0 + i, code, d.rounds[i]))
        && m == LoopConclusion(scope, Separator(sep), d.rounds)
    case If(cond, thenCode, elseCode) =>
      && d.ByChoice? && Evaluates(py, scope.vars, cond.value, d.cond)
      && if d.cond.Err? then m == Err(d.cond.error)
         else if d.cond.value.truth then DerivesCode(py, scope, thenCode, d.m, d.branch) && Leaves(scope, d.m, m)
         else if elseCode.Alternative? then
           DerivesCode(py, scope, elseCode.code, d.m, d.branch) && Leaves(scope, d.m, m)
         else m == Ok(("", scope))
    case Block(code) => d.ByCode? && DerivesCode(py, scope, code, d.m, d.code) && Leaves(scope, d.m, m)
  }

  /** Code in brackets leaves the scope as it was. */
  predicate Leaves(scope: Scope, inner: Meaning, m: Meaning) {
    match inner
    case Err(e) => m == Err(e)
    case Ok((text, _)) => m == Ok((text, scope))
  }

  predicate Bounds(py: Interpreter, scope: Scope, n: Node, m: Meaning, lower: Result<PyValue, RunError>,
                   upper: Result<PyValue, RunError>)
    requires n.Range?
  {
    && Evaluates(py, scope.vars, n.lower.value, lower) && Evaluates(py, scope.vars, n.upper.value, upper)
    && if lower.Err? then m == Err(lower.error)
       else if lower.value.asInt.None? then m == Err(NotAnInt(n.lower.value))
       else if upper.Err? then m == Err(upper.error)
       else if upper.value.asInt.None? then m == Err(NotAnInt(n.upper.value))
       else
         && m.Ok? && m.value.0 == "" && m.value.1.vars == scope.vars
         && m.value.1.ranges ==
            scope.ranges[Strip(n.id.value) := (lower.value.asInt.value, upper.value.asInt.value)]
  }

  /** There is a round for each number of the range, or the last round is the first that fails. */
  predicate RoundsFit(range: (int, int), rounds: seq<Round>) {
    var count := if range.0 > range.1 then 0 else range.1 - range.0 + 1;
    && |rounds| <= count
    && (forall i :: 0 <= i < |rounds| - 1 ==> rounds[i].m.Ok?)
    && (|rounds| < count ==> rounds != [] && rounds[|rounds| - 1].m.Err?)
  }

  ghost predicate DerivesRound(py: Interpreter, scope: Scope, name: string, i: int, code: seq<Node>, round: Round)
    decreases code, 1
  {
    DerivesCode(py, Scope(scope.vars[name := IntValue(i)], scope.ranges), code, round.m, round.code)
  }

  function LoopConclusion(scope: Scope, sep: string, rounds: seq<Round>): Meaning {
    if rounds != [] && rounds[|rounds| - 1].m.Err? then Err(rounds[|rounds| - 1].m.error)
    else Ok((Join(Texts(rounds), sep), scope))
  }

  function Texts(rounds: seq<Round>): (texts: seq<string>)
    ensures |texts| == |rounds|
  {
    seq(|rounds|, i requires 0 <= i < |rounds| => if rounds[i].m.Ok? then rounds[i].m.value.0 else "")
  }

  ghost predicate DerivesCode(py: Interpreter, scope: Scope, code: seq<Node>, m: Meaning, d: CodeDerivation)
    decreases code, 0
  {
    if code == [] then m == Ok(("", scope))
    else
      && d.Sequence? && Derives(py, scope, code[0], d.m, d.first)
      && match d.m
         case Err(e) => m == Err(e)
         case Ok((text, scope1)) =>
           && DerivesCode(py, scope1, code[1..], d.m2, d.rest)
           && match d.m2
              case Err(e) => m == Err(e)
              case Ok((text2, scope2)) => m == Ok((text + text2, scope2))
  }

  // ----- The denotation is what can be derived ------------------------------------------------------

  lemma {:induction false} DerivedIsMeant(py: Interpreter, scope: Scope, n: Node, m: Meaning, d: Derivation)
    requires Derives(py, scope, n, m, d)
    ensures m == Denote(py, scope, n)
    decreases n
  {
    match n
    case RawCode(_) =>
    case LiteralDollar(_) =>
    case Exp(t) => EvaluatesIff(py, scope.vars, t.value, d.v);
    case Range(_, lower, upper) =>
      EvaluatesIff(py, scope.vars, lower.value, d.lower);
      EvaluatesIff(py, scope.vars, upper.value, d.upper);
    case Var(_, body) => DerivedIsMeant(py, scope, body, d.m, d.body);
    case For(id, sep, code) =>
      if Name(id) in scope.ranges {
        var (lo, hi) := scope.ranges[Name(id)];
        forall i | 0 <= i < |d.rounds|
          ensures d.rounds[i].m == DenoteCode(py, BindVar(scope, Name(id), IntValue(lo + i)), code)
        {
          assert DerivesRound(py, scope, Name(id), lo + i, code, d.rounds[i]);
          DerivedCodeIsMeant(py, BindVar(scope, Name(id), IntValue(lo + i)), code, d.rounds[i].m, d.rounds[i].code);
        }
        RoundsAreMeant(py, scope, Name(id), Separator(sep), code, lo, hi, d.rounds);
      }
    case If(cond, thenCode, elseCode) =>
      EvaluatesIff(py, scope.vars, cond.value, d.cond);
      if d.cond.Ok? && d.cond.value.truth {
        DerivedCodeIsMeant(py, scope, thenCode, d.m, d.branch);
      } else if d.cond.Ok? && elseCode.Alternative? {
        DerivedCodeIsMeant(py, scope, elseCode.code, d.m, d.branch);
      }
    case Block(code) => DerivedCodeIsMeant(py, scope, code, d.m, d.code);
  }

  lemma {:induction false} DerivedCodeIsMeant(py: Interpreter, scope: Scope, code: seq<Node>, m: Meaning,
                                              d: CodeDerivation)
    requires DerivesCode(py, scope, code, m, d)
    ensures m == DenoteCode(py, scope, code)
    decreases code, 0
  {
    if code != [] {
      DerivedIsMeant(py, scope, code[0], d.m, d.first);
      if d.m.Ok? {
        DerivedCodeIsMeant(py, d.m.value.1, code[1..], d.m2, d.rest);
      }
    }
  }

  ghost predicate AreMeant(py: Interpreter, scope: Scope, name: string, code: seq<Node>, lo: int, rounds: seq<Round>) {
    forall i :: 0 <= i < |rounds| ==> rounds[i].m == DenoteCode(py, BindVar(scope, name, IntValue(lo + i)), code)
  }

  lemma {:induction false} RoundsAreMeant(py: Interpreter, scope: Scope, name: string, sep: string, code: seq<Node>,
                                          lo: int, hi: int, rounds: seq<Round>)
    requires RoundsFit((lo, hi), rounds) && AreMeant(py, scope, name, code, lo, rounds)
    ensures LoopConclusion(scope, sep, rounds) ==
            match DenoteLoop(py, scope, name, sep, code, lo, hi) case Ok(t) => Ok((t, scope)) case Err(e) => Err(e)
    decreases |rounds|
  {
    if rounds != [] && rounds[|rounds| - 1].m.Err? {
      LoopFails(py, scope, name, sep, code, lo, hi, rounds);
    } else {
      forall i | 0 <= i < |rounds|
        ensures BodyText(py, scope, name, code, lo + i) == Ok(Texts(rounds)[i])
      {
      }
      LoopIsJoin(py, scope, name, sep, code, lo, hi, Texts(rounds));
    }
  }

  lemma RestIsMeant(py: Interpreter, scope: Scope, name: string, code: seq<Node>, lo: int, rounds: seq<Round>)
    requires AreMeant(py, scope, name, code, lo, rounds) && rounds != []
    ensures AreMeant(py, scope, name, code, lo + 1, rounds[1..])
  {
    forall i | 0 <= i < |rounds[1..]|
      ensures rounds[1..][i].m == DenoteCode(py, BindVar(scope, name, IntValue(lo + 1 + i)), code)
    {
      assert rounds[1 + i].m == DenoteCode(py, BindVar(scope, name, IntValue(lo + (1 + i))), code);
    }
  }

  lemma {:induction false} LoopFails(py: Interpreter, scope: Scope, name: string, sep: string, code: seq<Node>,
                                     lo: int, hi: int, rounds: seq<Round>)
    requires RoundsFit((lo, hi), rounds) && AreMeant(py, scope, name, code, lo, rounds)
    requires rounds != [] && rounds[|rounds| - 1].m.Err?
    ensures DenoteLoop(py, scope, name, sep, code, lo, hi) == Err(rounds[|rounds| - 1].m.error)
    decreases |rounds|
  {
    assert rounds[0].m == DenoteCode(py, BindVar(scope, name, IntValue(lo + 0)), code);
    if |rounds| > 1 {
      RestIsMeant(py, scope, name, code, lo, rounds);
      LoopFails(py, scope, name, sep, code, lo + 1, hi, rounds[1..]);
    }
  }

  lemma {:induction false} MeantIsDerived(py: Interpreter, scope: Scope, n: Node) returns (d: Derivation)
    ensures Derives(py, scope, n, Denote(py, scope, n), d)
    decreases n
  {
    match n
    case RawCode(_) => d := Axiom;
    case LiteralDollar(_) => d := Axiom;
    case Exp(t) =>
      d := ByValue(Eval(py, scope.vars, t.value));
      EvaluatesIff(py, scope.vars, t.value, d.v);
    case Range(_, lower, upper) =>
      d := ByBounds(Eval(py, scope.vars, lower.value), Eval(py, scope.vars, upper.value));
      EvaluatesIff(py, scope.vars, lower.value, d.lower);
      EvaluatesIff(py, scope.vars, upper.value, d.upper);
    case Var(_, body) =>
      var premise := MeantIsDerived(py, scope, body);
      d := ByBody(Denote(py, scope, body), premise);
    case For(id, sep, code) =>
      d := Axiom;
      if Name(id) in scope.ranges {
        var (lo, hi) := scope.ranges[Name(id)];
        var rounds := RoundsOf(py, scope, Name(id), code, lo, hi);
        RoundsAreMeant(py, scope, Name(id), Separator(sep), code, lo, hi, rounds);
        d := ByRounds(rounds);
      }
    case If(cond, thenCode, elseCode) =>
      var v := Eval(py, scope.vars, cond.value);
      EvaluatesIff(py, scope.vars, cond.value, v);
      d := ByChoice(v, Ok(("", scope)), Nothing);
      if v.Ok? && v.value.truth {
        var premise := MeantCodeIsDerived(py, scope, thenCode);
        d := ByChoice(v, DenoteCode(py, scope, thenCode), premise);
      } else if v.Ok? && elseCode.Alternative? {
        var premise := MeantCodeIsDerived(py, scope, elseCode.code);
        d := ByChoice(v, DenoteCode(py, scope, elseCode.code), premise);
      }
    case Block(code) =>
      var premise := MeantCodeIsDerived(py, scope, code);
      d := ByCode(DenoteCode(py, scope, code), premise);
  }

  lemma {:induction false} MeantCodeIsDerived(py: Interpreter, scope: Scope, code: seq<Node>)
    returns (d: CodeDerivation)
    ensures DerivesCode(py, scope, code, DenoteCode(py, scope, code), d)
    decreases code, 0
  {
    d := Nothing;
    if code != [] {
      var m := Denote(py, scope, code[0]);
      var first := MeantIsDerived(py, scope, code[0]);
      d := Sequence(m, first, m, Nothing);
      if m.Ok? {
        var rest := MeantCodeIsDerived(py, m.value.1, code[1..]);
        d := Sequence(m, first, DenoteCode(py, m.value.1, code[1..]), rest);
      }
    }
  }

  lemma {:induction false} RoundsOf(py: Interpreter, scope: Scope, name: string, code: seq<Node>, lo: int, hi: int)
    returns (rounds: seq<Round>)
    ensures RoundsFit((lo, hi), rounds) && AreMeant(py, scope, name, code, lo, rounds)
    ensures forall i :: 0 <= i < |rounds| ==> DerivesRound(py, scope, name, lo + i, code, rounds[i])
    decreases code, 1, hi - lo
  {
    rounds := [];
    if lo <= hi {
      var scope1 := BindVar(scope, name, IntValue(lo));
      var d := MeantCodeIsDerived(py, scope1, code);
      var first := Round(DenoteCode(py, scope1, code), d);
      rounds := [first];
      if first.m.Ok? {
        var more := RoundsOf(py, scope, name, code, lo + 1, hi);
        rounds := [first] + more;
        forall i | 0 <= i < |rounds|
          ensures rounds[i].m == DenoteCode(py, BindVar(scope, name, IntValue(lo + i)), code)
          ensures DerivesRound(py, scope, name, lo + i, code, rounds[i])
        {
          if i > 0 {
            assert rounds[i] == more[i - 1];
            assert DerivesRound(py, scope, name, lo + 1 + (i - 1), code, more[i - 1]);
          }
        }
      }
    }
  }

  /** A tree means `m` if and only if the rules derive it; so they derive one meaning and no other. */
  lemma DenoteIff(py: Interpreter, scope: Scope, n: Node, m: Meaning)
    ensures Denote(py, scope, n) == m <==> exists d :: Derives(py, scope, n, m, d)
  {
    if d :| Derives(py, scope, n, m, d) {
      DerivedIsMeant(py, scope, n, m, d);
    }
    if Denote(py, scope, n) == m {
      var d := MeantIsDerived(py, scope, n);
      assert Derives(py, scope, n, m, d);
    }
  }

  ghost predicate IsDerived(py: Interpreter, scope: Scope, code: seq<Node>, m: Meaning) {
    exists d: CodeDerivation :: DerivesCode(py, scope, code, m, d)
  }

  lemma DenoteCodeIff(py: Interpreter, scope: Scope, code: seq<Node>, m: Meaning)
    ensures DenoteCode(py, scope, code) == m <==> IsDerived(py, scope, code, m)
  {
    if IsDerived(py, scope, code, m) {
      var d: CodeDerivation :| DerivesCode(py, scope, code, m, d);
      DerivedCodeIsMeant(py, scope, code, m, d);
    }
    if DenoteCode(py, scope, code) == m {
      var d := MeantCodeIsDerived(py, scope, code);
      assert DerivesCode(py, scope, code, m, d);
    }
  }

  // ----- Choice -------------------------------------------------------------------------------------

  /** The code that `n` runs when its condition has the truth value `truth`. */
  function Chosen(n: Node, truth: bool): seq<Node>
    requires n.If?
  {
    if truth then [Block(n.thenCode)]
    else if n.elseCode.Alternative? then [Block(n.elseCode.code)]
    else []
  }

  /** Wherever an `$if` stands, it means the same as the branch that the condition chooses there. */
  lemma ChoiceInContext(py: Interpreter, scope: Scope, before: seq<Node>, n: Node, after: seq<Node>, v: PyValue)
    requires n.If? && DenoteCode(py, scope, before).Ok?
    requires Eval(py, DenoteCode(py, scope, before).value.1.vars, n.cond.value) == Ok(v)
    ensures DenoteCode(py, scope, before + [n] + after) ==
            DenoteCode(py, scope, before + Chosen(n, v.truth) + after)
  {
    var chosen, scope1 := Chosen(n, v.truth), DenoteCode(py, scope, before).value.1;
    DenoteConcat(py, scope, before + [n], after);
    DenoteConcat(py, scope, before, [n]);
    DenoteConcat(py, scope, before + chosen, after);
    DenoteConcat(py, scope, before, chosen);
    OneNode(py, scope1, n);
    if chosen != [] {
      OneNode(py, scope1, chosen[0]);
    }
  }
}
