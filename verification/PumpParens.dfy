/** The expression behind a lone `$`: the recursive scanner of pump.py for balanced parentheses, which
    is shown to stop where a depth counter would. */
module PumpParens {
  import opened Wrappers
  import opened PumpPatterns
  import opened PythonText

  /** The recursive scanner: from `i` on, the parenthesis that closes what is open at `i`. None where
      SkipUntil exits because the line has no further parenthesis. */
  function Parse(s: string, i: nat): (q: Option<nat>)
    requires i <= |s|
    ensures q.Some? ==> i <= q.value < |s| && s[q.value] == ')'
    decreases |s| - i
  {
    match SkipUntilParen(s, i)
    case None => None
    case Some(p) =>
      if s[p] == '(' then
        match Parse(s, p + 1)
        case None => None
        case Some(q) => Parse(s, q + 1)
      else Some(p)
  }

  /** Where `\(|\)` is found from `i` on. */
  function SkipUntilParen(s: string, i: nat): (p: Option<nat>)
    requires i <= |s|
    ensures p.Some? ==> i <= p.value < |s| && (s[p.value] == '(' || s[p.value] == ')')
    decreases |s| - i
  {
    if i == |s| then None
    else if s[i] == '(' || s[i] == ')' then Some(i)
    else SkipUntilParen(s, i + 1)
  }

  /** The length of the expression token. An opening parenthesis is skipped but not asked for. */
  function ParseInParens(s: string): (n: Option<nat>)
    ensures n.Some? ==> 0 < n.value <= |s|
  {
    var i := SpaceRun(s);
    var i := if i < |s| && s[i] == '(' then i + 1 else i;
    match Parse(s, i)
    case None => None
    case Some(q) => Some(q + 1)
  }

  /** The depth counter: from `i` on, with `depth` parentheses to close first. */
  function CountDepth(s: string, i: nat, depth: nat): Option<nat>
    requires i <= |s|
    decreases |s| - i
  {
    if i == |s| then None
    else if s[i] == '(' then CountDepth(s, i + 1, depth + 1)
    else if s[i] != ')' then CountDepth(s, i + 1, depth)
    else if depth == 0 then Some(i)
    else CountDepth(s, i + 1, depth - 1)
  }

  lemma {:induction false} CountSkipsPlain(s: string, i: nat, depth: nat)
    requires i <= |s|
    ensures CountDepth(s, i, depth)
            == CountDepth(s, if SkipUntilParen(s, i).Some? then SkipUntilParen(s, i).value else |s|, depth)
    decreases |s| - i
  {
    if i < |s| && s[i] != '(' && s[i] != ')' {
      CountSkipsPlain(s, i + 1, depth);
    }
  }

  function CountBehind(s: string, q: Option<nat>, depth: nat): Option<nat>
    requires q.Some? ==> q.value < |s|
  {
    if q.None? then None else if depth == 0 then q else CountDepth(s, q.value + 1, depth - 1)
  }

  lemma {:induction false} ParseSkipsBalanced(s: string, i: nat, depth: nat)
    requires i <= |s|
    ensures CountDepth(s, i, depth) == CountBehind(s, Parse(s, i), depth)
    decreases |s| - i
  {
    var p := SkipUntilParen(s, i);
    CountSkipsPlain(s, i, depth);
    if p.Some? && s[p.value] == '(' {
      assert CountDepth(s, p.value, depth) == CountDepth(s, p.value + 1, depth + 1);
      ParseSkipsBalanced(s, p.value + 1, depth + 1);
      var q := Parse(s, p.value + 1);
      if q.Some? {
        ParseSkipsBalanced(s, q.value + 1, depth);
      }
    }
  }

  /** The recursive scanner stops exactly where a depth counter does, and exits with an error exactly
      where that runs into the end of the line. */
  lemma ParseIsDepthCounter(s: string, i: nat)
    requires i <= |s|
    ensures Parse(s, i) == CountDepth(s, i, 0)
  {
    ParseSkipsBalanced(s, i, 0);
  }

  // ----- What the token is ---------------------------------------------------------------------------

  /** How many more parentheses the first `k` characters open than they close. */
  function Depth(s: string, k: nat): int
    requires k <= |s|
  {
    if k == 0 then 0
    else Depth(s, k - 1) + (if s[k - 1] == '(' then 1 else if s[k - 1] == ')' then -1 else 0)
  }

  /** Behind `start`, the depth falls to `level` at `n` for the first time. */
  predicate FallsTo(s: string, start: nat, n: nat, level: int) {
    start < n <= |s| && Depth(s, n) == level && forall k :: start < k < n ==> Depth(s, k) > level
  }

  lemma {:induction false} CountDepthIff(s: string, i: nat, depth: nat, q: nat)
    requires i <= |s|
    ensures CountDepth(s, i, depth) == Some(q) <==> FallsTo(s, i, q + 1, Depth(s, i) - depth - 1)
    decreases |s| - i
  {
    if i < |s| {
      assert Depth(s, i + 1) == Depth(s, i) + (if s[i] == '(' then 1 else if s[i] == ')' then -1 else 0);
      if s[i] == '(' {
        CountDepthIff(s, i + 1, depth + 1, q);
      } else if s[i] != ')' {
        CountDepthIff(s, i + 1, depth, q);
      } else if depth > 0 {
        CountDepthIff(s, i + 1, depth - 1, q);
      }
    }
  }

  lemma {:induction false} DepthOfSpaces(s: string, k: nat)
    requires k <= SpaceRun(s)
    ensures Depth(s, k) == 0
  {
    if k > 0 {
      SpaceRunIsLongest(s);
      assert IsSpace(s[..SpaceRun(s)][k - 1]);
      DepthOfSpaces(s, k - 1);
    }
  }

  /** The optional white space is followed by an opening parenthesis. */
  predicate OpensFirst(s: string) {
    SpaceRun(s) < |s| && s[SpaceRun(s)] == '('
  }

  /** Behind white space and an opening parenthesis, the token is the shortest prefix with as many closing
      as opening parentheses. Without the parenthesis, which the code does not ask for, it is the shortest
      prefix with one closing parenthesis more. In either case there is no token if there is no such
      prefix. */
  lemma ParseInParensIff(s: string, n: nat)
    ensures ParseInParens(s) == Some(n) <==>
            if OpensFirst(s) then FallsTo(s, SpaceRun(s), n, 0) else FallsTo(s, 0, n, -1)
  {
    if n > 0 {
      if OpensFirst(s) { OpenedTokenIff(s, n); } else { UnopenedTokenIff(s, n); }
    }
  }

  lemma OpenedTokenIff(s: string, n: nat)
    requires OpensFirst(s) && n > 0
    ensures ParseInParens(s) == Some(n) <==> FallsTo(s, SpaceRun(s), n, 0)
  {
    var i := SpaceRun(s) + 1;
    DepthOfSpaces(s, i - 1);
    assert Depth(s, i) == 1;
    ParseIsDepthCounter(s, i);
    CountDepthIff(s, i, 0, n - 1);
  }

  lemma UnopenedTokenIff(s: string, n: nat)
    requires !OpensFirst(s) && n > 0
    ensures ParseInParens(s) == Some(n) <==> FallsTo(s, 0, n, -1)
  {
    var i := SpaceRun(s);
    ParseIsDepthCounter(s, i);
    CountDepthIff(s, i, 0, n - 1);
    forall k | 0 <= k <= i
      ensures Depth(s, k) == 0
    {
      DepthOfSpaces(s, k);
    }
  }

  /** The token is balanced if and only if an opening parenthesis follows the white space. */
  lemma TokenIsBalancedIff(s: string)
    requires ParseInParens(s).Some?
    ensures Depth(s, ParseInParens(s).value) == 0 <==> OpensFirst(s)
  {
    ParseInParensIff(s, ParseInParens(s).value);
  }

  /** A token that opens no parenthesis. */
  lemma UnopenedToken()
    ensures !OpensFirst("1)") && ParseInParens("1)") == Some(2)
  {
    var s := "1)";
    assert Depth(s, 1) == 0 && Depth(s, 2) == -1;
    ParseInParensIff(s, 2);
  }
}
