/** The evaluator of pump.py: environments and an output that are updated in place, refining the
    scoped semantics. */
module PumpEvaluator {
  import opened Wrappers
  import opened Numerals
  import opened PumpSyntax
  import opened PumpSemantics
  import opened PythonText

  // ----- Environments --------------------------------------------------------------------------

  /** The bindings that a list shows: the first one of a name hides the others. */
  function VisibleVars(variables: seq<(string, Value)>): Variables {
    if variables == [] then map[] else VisibleVars(variables[1..])[variables[0].0 := variables[0].1]
  }

  function VisibleRanges(ranges: seq<(string, int, int)>): map<string, (int, int)> {
    if ranges == [] then map[]
    else VisibleRanges(ranges[1..])[ranges[0].0 := (ranges[0].1, ranges[0].2)]
  }

  lemma VisiblePush(variable: (string, Value), variables: seq<(string, Value)>)
    ensures VisibleVars([variable] + variables) == VisibleVars(variables)[variable.0 := variable.1]
  {
    assert ([variable] + variables)[1..] == variables;
  }

  lemma VisiblePushRange(range: (string, int, int), ranges: seq<(string, int, int)>)
    ensures VisibleRanges([range] + ranges) == VisibleRanges(ranges)[range.0 := (range.1, range.2)]
  {
    assert ([range] + ranges)[1..] == ranges;
  }

  class Env {
    var variables: seq<(string, Value)>
    var ranges: seq<(string, int, int)>

    function Visible(): Scope
      reads this
    {
      Scope(VisibleVars(variables), VisibleRanges(ranges))
    }

    constructor ()
      ensures variables == [] && ranges == []
    {
      variables, ranges := [], [];
    }

    method Clone() returns (clone: Env)
      ensures fresh(clone) && clone.variables == variables && clone.ranges == ranges
    {
      clone := new Env();
      clone.variables := variables;
      clone.ranges := ranges;
    }

    method PushVariable(name: string, value: Value)
      modifies this
      ensures variables == [(name, if value.StrValue? then Store(value.s) else value)] + old(variables)
      ensures ranges == old(ranges)
    {
      var stored := value;
      if value.StrValue? {
        var i := PyInt(value.s);
        if i.Some? && Decimal(i.value) == value.s {
          stored := IntValue(i.value);
        }
      }
      variables := [(name, stored)] + variables;
    }

    method PushRange(name: string, lower: int, upper: int)
      modifies this
      ensures ranges == [(name, lower, upper)] + old(ranges)
      ensures variables == old(variables)
    {
      ranges := [(name, lower, upper)] + ranges;
    }

    method GetValue(identifier: string) returns (r: Result<Value, RunError>)
      ensures r == if identifier in Visible().vars then Ok(Visible().vars[identifier])
                   else Err(UndefinedVariable(identifier))
    {
      var k := 0;
      while k < |variables|
        invariant 0 <= k <= |variables|
        invariant identifier in Visible().vars <==> identifier in VisibleVars(variables[k..])
        invariant identifier in Visible().vars ==>
                    Visible().vars[identifier] == VisibleVars(variables[k..])[identifier]
      {
        if identifier == variables[k].0 {
          return Ok(variables[k].1);
        }
        assert variables[k..][1..] == variables[k + 1..];
        k := k + 1;
      }
      return Err(UndefinedVariable(identifier));
    }

    method GetRange(identifier: string) returns (r: Result<(int, int), RunError>)
      ensures r == if identifier in Visible().ranges then Ok(Visible().ranges[identifier])
                   else Err(UndefinedRange(identifier))
    {
      var k := 0;
      while k < |ranges|
        invariant 0 <= k <= |ranges|
        invariant identifier in Visible().ranges <==> identifier in VisibleRanges(ranges[k..])
        invariant identifier in Visible().ranges ==>
                    Visible().ranges[identifier] == VisibleRanges(ranges[k..])[identifier]
      {
        if identifier == ranges[k].0 {
          return Ok((ranges[k].1, ranges[k].2));
        }
        assert ranges[k..][1..] == ranges[k + 1..];
        k := k + 1;
      }
      return Err(UndefinedRange(identifier));
    }

    /** An expression that is one identifier is a look-up; any other goes to Python. */
    method EvalExp(py: Interpreter, exp: string) returns (r: Result<PyValue, RunError>)
      ensures r == Eval(py, Visible().vars, exp)
    {
      if IsIdentifier(exp) {
        var value :- GetValue(exp);
        return Ok(Python(value));
      }
      var value := py.eval(exp, Restrict(Visible().vars, py.names(exp)));
      if value.None? {
        return Err(EvalFailed(exp));
      }
      return Ok(value.value);
    }

    method EvalIntExp(py: Interpreter, exp: string) returns (r: Result<int, RunError>)
      ensures r == EvalInt(py, Visible().vars, exp)
    {
      var value :- EvalExp(py, exp);
      if value.asInt.None? {
        return Err(NotAnInt(exp));
      }
      return Ok(value.asInt.value);
    }
  }

  class Output {
    var text: string

    constructor ()
      ensures text == ""
    {
      text := "";
    }

    method Append(s: string)
      modifies this
      ensures text == old(text) + s
    {
      text := text + s;
    }
  }

  // ----- Running --------------------------------------------------------------------------------

  /** The bindings that running one tree adds to the environment it runs in. */
  function NewVariables(py: Interpreter, scope: Scope, n: Node): seq<(string, Value)> {
    if n.Var? && Denote(py, scope, n.body).Ok? then
      [(Name(n.id), Store(Denote(py, scope, n.body).value.0))]
    else []
  }

  function NewRanges(py: Interpreter, scope: Scope, n: Node): seq<(string, int, int)> {
    if n.Range? && EvalInt(py, scope.vars, n.lower.value).Ok? && EvalInt(py, scope.vars, n.upper.value).Ok? then
      [(Name(n.id), EvalInt(py, scope.vars, n.lower.value).value, EvalInt(py, scope.vars, n.upper.value).value)]
    else []
  }

  /** A run came out as its meaning says: the output has grown by its text, or the program has
      ended with its error. */
  ghost predicate Printed(m: Result<string, RunError>, r: Result<Unit, RunError>, before: string, after: string) {
    match m
    case Ok(text) => r.Ok? && after == before + text
    case Err(e) => r == Err(e)
  }

  function TextOf(m: Meaning): Result<string, RunError> {
    if m.Ok? then Ok(m.value.0) else Err(m.error)
  }

  method RunAtomicCode(py: Interpreter, env: Env, node: Node, output: Output) returns (r: Result<Unit, RunError>)
    modifies env, output
    ensures Printed(TextOf(Denote(py, old(env.Visible()), node)), r, old(output.text), output.text)
    ensures r.Ok? ==> env.Visible() == Denote(py, old(env.Visible()), node).value.1
    ensures r.Ok? ==> env.variables == NewVariables(py, old(env.Visible()), node) + old(env.variables)
    ensures r.Ok? ==> env.ranges == NewRanges(py, old(env.Visible()), node) + old(env.ranges)
    decreases node
  {
    match node
    case Var(id, body) =>
      var identifier := Strip(id.value);
      var result := new Output();
      var inner := env.Clone();
      var ran :- RunAtomicCode(py, inner, body, result);
      ghost var text := Denote(py, old(env.Visible()), body).value.0;
      assert "" + text == text;
      VisiblePush((identifier, Store(result.text)), env.variables);
      env.PushVariable(identifier, StrValue(result.text));
      r := Ok(Unit);
    case Range(id, exp1, exp2) =>
      var identifier := Strip(id.value);
      var lower :- env.EvalIntExp(py, exp1.value);
      var upper :- env.EvalIntExp(py, exp2.value);
      VisiblePushRange((identifier, lower, upper), env.ranges);
      env.PushRange(identifier, lower, upper);
      r := Ok(Unit);
    case For(id, separator, code) =>
      var identifier := Strip(id.value);
      var sep := if separator.None? then "" else separator.value.value;
      var range :- env.GetRange(identifier);
      r := RunLoop(py, env, identifier, sep, code, range.0, range.1, output);
    case RawCode(token) =>
      output.Append(token.value);
      r := Ok(Unit);
    case If(exp, thenCode, elseCode) =>
      var cond :- env.EvalExp(py, exp.value);
      if cond.truth {
        var inner := env.Clone();
        r := RunCode(py, inner, thenCode, output);
      } else if elseCode.Alternative? {
        var inner := env.Clone();
        r := RunCode(py, inner, elseCode.code, output);
      } else {
        r := Ok(Unit);
      }
    case Exp(token) =>
      var value :- env.EvalExp(py, token.value);
      output.Append(value.text);
      r := Ok(Unit);
    case LiteralDollar(_) =>
      output.Append("$");
      r := Ok(Unit);
    case Block(code) =>
      var inner := env.Clone();
      r := RunCode(py, inner, code, output);
  }

  /** One round of the loop of `$for`, in an environment of its own. */
  method RunBody(py: Interpreter, env: Env, identifier: string, i: int, code: seq<Node>, output: Output)
    returns (r: Result<Unit, RunError>)
    modifies output
    ensures Printed(TextOf(DenoteCode(py, BindVar(env.Visible(), identifier, IntValue(i)), code)), r,
                    old(output.text), output.text)
    decreases code, 1
  {
    var newEnv := env.Clone();
    VisiblePush((identifier, IntValue(i)), newEnv.variables);
    newEnv.PushVariable(identifier, IntValue(i));
    r := RunCode(py, newEnv, code, output);
  }

  /** The loop of `$for`. */
  method RunLoop(py: Interpreter, env: Env, identifier: string, sep: string, code: seq<Node>, lower: int, upper: int,
                 output: Output)
    returns (r: Result<Unit, RunError>)
    modifies output
    ensures Printed(DenoteLoop(py, env.Visible(), identifier, sep, code, lower, upper), r, old(output.text),
                    output.text)
    decreases code, 2
  {
    ghost var scope := env.Visible();
    ghost var done := "";
    PrefixedNothing(DenoteLoop(py, scope, identifier, sep, code, lower, upper));
    var i := lower;
    while i <= upper
      invariant i <= upper + 1 || i == lower
      invariant output.text == old(output.text) + done
      invariant DenoteLoop(py, scope, identifier, sep, code, lower, upper) ==
                Prefixed(done, DenoteLoop(py, scope, identifier, sep, code, i, upper))
      decreases upper - i
    {
      LoopStep(py, scope, identifier, sep, code, i, upper, done);
      var ran :- RunBody(py, env, identifier, i, code, output);
      ghost var text := DenoteCode(py, BindVar(scope, identifier, IntValue(i)), code).value.0;
      if i != upper {
        output.Append(sep);
      }
      done := if i != upper then done + text + sep else done + text;
      i := i + 1;
    }
    r := Ok(Unit);
  }

  method RunCode(py: Interpreter, env: Env, code: seq<Node>, output: Output) returns (r: Result<Unit, RunError>)
    modifies env, output
    ensures Printed(TextOf(DenoteCode(py, old(env.Visible()), code)), r, old(output.text), output.text)
    ensures r.Ok? ==> env.Visible() == DenoteCode(py, old(env.Visible()), code).value.1
    decreases code, 0
  {
    ghost var meaning := DenoteCode(py, env.Visible(), code);
    ghost var done := "";
    assert code[0..] == code;
    ResumedNothing(meaning);
    var k := 0;
    while k < |code|
      invariant 0 <= k <= |code|
      invariant output.text == old(output.text) + done
      invariant meaning == Resumed(done, DenoteCode(py, env.Visible(), code[k..]))
    {
      CodeStep(py, env.Visible(), code, k, done);
      ghost var scope := env.Visible();
      var ran :- RunAtomicCode(py, env, code[k], output);
      done := done + Denote(py, scope, code[k]).value.0;
      k := k + 1;
    }
    CodeEnds(py, env.Visible(), code, done);
    r := Ok(Unit);
  }

  /** The text `done`, then whatever `m` prints, in the scope `m` leaves. */
  function Resumed(done: string, m: Meaning): Meaning {
    if m.Ok? then Ok((done + m.value.0, m.value.1)) else m
  }

  lemma ResumedNothing(m: Meaning)
    ensures Resumed("", m) == m
  {
    assert m.Ok? ==> "" + m.value.0 == m.value.0;
  }

  lemma CodeEnds(py: Interpreter, scope: Scope, code: seq<Node>, done: string)
    ensures Resumed(done, DenoteCode(py, scope, code[|code|..])) == Ok((done, scope))
  {
    assert done + "" == done;
  }

  lemma CodeStep(py: Interpreter, scope: Scope, code: seq<Node>, k: nat, done: string)
    requires k < |code|
    ensures var m := Denote(py, scope, code[k]);
            Resumed(done, DenoteCode(py, scope, code[k..])) ==
            if m.Err? then Err(m.error)
            else Resumed(done + m.value.0, DenoteCode(py, m.value.1, code[k + 1..]))
  {
    assert code[k..][0] == code[k] && code[k..][1..] == code[k + 1..];
    var m := Denote(py, scope, code[k]);
    if m.Ok? {
      var m2 := DenoteCode(py, m.value.1, code[k + 1..]);
      assert m2.Ok? ==> done + (m.value.0 + m2.value.0) == (done + m.value.0) + m2.value.0;
    }
  }

  lemma PrefixedNothing(m: Result<string, RunError>)
    ensures Prefixed("", m) == m
  {
    assert m.Ok? ==> "" + m.value == m.value;
  }

  lemma LoopStep(py: Interpreter, scope: Scope, name: string, sep: string, code: seq<Node>, i: int, hi: int,
                 done: string)
    requires i <= hi
    ensures var m := DenoteCode(py, BindVar(scope, name, IntValue(i)), code);
            Prefixed(done, DenoteLoop(py, scope, name, sep, code, i, hi)) ==
            if m.Err? then Err(m.error)
            else Prefixed(if i != hi then done + m.value.0 + sep else done + m.value.0,
                          DenoteLoop(py, scope, name, sep, code, i + 1, hi))
  {
    var m := DenoteCode(py, BindVar(scope, name, IntValue(i)), code);
    var rest := DenoteLoop(py, scope, name, sep, code, i + 1, hi);
    if m.Ok? && rest.Ok? {
      if i != hi {
        assert done + (m.value.0 + sep + rest.value) == done + m.value.0 + sep + rest.value;
      } else {
        assert done + (m.value.0 + "" + rest.value) == done + m.value.0 + rest.value;
      }
    }
  }

  /** The text `done`, then whatever `m` prints. */
  function Prefixed(done: string, m: Result<string, RunError>): Result<string, RunError> {
    if m.Ok? then Ok(done + m.value) else m
  }
}
