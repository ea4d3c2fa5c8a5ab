/** The regular expressions that the tokenizer of Pump searches for, and the search for the first entry
    of its table in a line. A pattern is a function that says how much of a string it matches at the
    start. */
module PumpPatterns {
  import opened Wrappers
  import opened PumpSyntax
  import opened PythonText

  /** `\s*` */
  function SpaceRun(s: string): (n: nat)
    ensures n <= |s|
  {
    if s != "" && IsSpace(s[0]) then 1 + SpaceRun(s[1..]) else 0
  }

  lemma {:induction false} SpaceRunIsLongest(s: string)
    ensures IsBlank(s[..SpaceRun(s)])
    ensures SpaceRun(s) < |s| ==> !IsSpace(s[SpaceRun(s)])
  {
    if s != "" && IsSpace(s[0]) {
      SpaceRunIsLongest(s[1..]);
      assert s[..SpaceRun(s)] == [s[0]] + s[1..][..SpaceRun(s[1..])];
    }
  }

  /** `\w*` */
  function WordRun(s: string): (n: nat)
    ensures n <= |s|
  {
    if s != "" && IsWordChar(s[0]) then 1 + WordRun(s[1..]) else 0
  }

  lemma {:induction false} WordRunIsLongest(s: string)
    ensures forall i :: 0 <= i < WordRun(s) ==> IsWordChar(s[i])
    ensures WordRun(s) < |s| ==> !IsWordChar(s[WordRun(s)])
  {
    if s != "" && IsWordChar(s[0]) {
      WordRunIsLongest(s[1..]);
      assert forall i :: 0 < i < WordRun(s) ==> s[i] == s[1..][i - 1];
    }
  }

  /** `[_A-Za-z]\w*`; 0 where there is no identifier. */
  function IdentifierLength(s: string): (n: nat)
    ensures n <= |s|
  {
    if s != "" && IsWordStart(s[0]) then 1 + WordRun(s[1..]) else 0
  }

  /** The line ends here, or a comment begins. */
  predicate EndsDefinition(s: string, i: nat)
    requires i < |s|
  {
    s[i] == '\n' || (i + 1 < |s| && s[i] == '$' && s[i + 1] == '$')
  }

  /** `.*?(?=$|\$\$)`: what is left of the line, up to a comment. */
  function RestOfLine(s: string): (n: nat)
    ensures n <= |s|
  {
    if s == "" || EndsDefinition(s, 0) then 0 else 1 + RestOfLine(s[1..])
  }

  lemma {:induction false} RestOfLineIsShortest(s: string)
    ensures RestOfLine(s) < |s| ==> EndsDefinition(s, RestOfLine(s))
    ensures forall i :: 0 <= i < RestOfLine(s) ==> !EndsDefinition(s, i)
  {
    if s != "" && !EndsDefinition(s, 0) {
      RestOfLineIsShortest(s[1..]);
      assert forall i :: 0 < i < |s| ==> EndsDefinition(s[1..], i - 1) == EndsDefinition(s, i);
    }
  }

  predicate StartsTwice(s: string, c: char) {
    |s| > 1 && s[0] == c && s[1] == c
  }

  /** Where `\.\.` is found. */
  function FindDots(s: string): (n: Option<nat>)
    ensures n.Some? ==> n.value + 2 <= |s| && s[n.value] == '.' && s[n.value + 1] == '.'
  {
    if s == "" then None
    else if StartsTwice(s, '.') then Some(0)
    else match FindDots(s[1..]) case None => None case Some(n) => Some(n + 1)
  }

  lemma {:induction false} FindDotsIsLeftmost(s: string, i: nat)
    requires i < |s| && StartsTwice(s[i..], '.')
    ensures FindDots(s).Some? && FindDots(s).value <= i
  {
    if i > 0 && !StartsTwice(s, '.') {
      assert s[1..][i - 1..] == s[i..];
      FindDotsIsLeftmost(s[1..], i - 1);
    }
  }

  // ----- The table -------------------------------------------------------------------------------

  const TOKEN_TABLE: seq<TokenType> :=
    [KwVar, KwElif, KwElse, KwFor, KwIf, KwRange, DollarId, EscapedDollar, Dollar, Open, Close]

  /** A `$`, the keyword and `\s+`. */
  function KeywordLength(name: string, s: string): (n: nat)
    ensures n <= |s|
  {
    if s != "" && s[0] == '$' && name <= s[1..] && SpaceRun(s[1..][|name|..]) > 0
    then 1 + |name| + SpaceRun(s[1..][|name|..])
    else 0
  }

  function BracketsLength(bracket: char, s: string): (n: nat)
    ensures n <= |s|
  {
    if |s| >= 2 && s[0] == bracket && s[1] == bracket then (if |s| > 2 && s[2] == '\n' then 3 else 2) else 0
  }

  /** How much the table's expression for `entry` matches at the start of `s`; 0 if it does not, since
      none of them matches the empty string. */
  function MatchLength(entry: TokenType, s: string): (n: nat)
    ensures n <= |s|
  {
    match entry
    case KwVar => KeywordLength("var", s)
    case KwElif => KeywordLength("elif", s)
    case KwElse => KeywordLength("else", s)
    case KwFor => KeywordLength("for", s)
    case KwIf => KeywordLength("if", s)
    case KwRange => KeywordLength("range", s)
    case DollarId => if s != "" && s[0] == '$' && IdentifierLength(s[1..]) > 0 then 1 + IdentifierLength(s[1..]) else 0
    case EscapedDollar => if "$($)" <= s then 4 else 0
    case Dollar => if s != "" && s[0] == '$' then 1 else 0
    case Open => BracketsLength('[', s)
    case Close => BracketsLength(']', s)
    case _ => 0
  }

  /** A marker is where the text stops to be plain code. */
  predicate IsMarker(s: string) {
    s != "" && (s[0] == '$' || (|s| > 1 && s[0] == s[1] && (s[0] == '[' || s[0] == ']')))
  }

  /** The whole word behind the first character is `name`, and white space follows. */
  predicate IsSpacedWord(name: string, s: string)
    requires s != ""
  {
    var n := WordRun(s[1..]);
    1 + n < |s| && IsSpace(s[1 + n]) && s[1..][..n] == name
  }

  /** What begins at a marker. */
  function Entry(s: string): TokenType
    requires IsMarker(s)
  {
    if s[0] == '[' then Open
    else if s[0] == ']' then Close
    else if IsSpacedWord("var", s) then KwVar
    else if IsSpacedWord("elif", s) then KwElif
    else if IsSpacedWord("else", s) then KwElse
    else if IsSpacedWord("for", s) then KwFor
    else if IsSpacedWord("if", s) then KwIf
    else if IsSpacedWord("range", s) then KwRange
    else if |s| > 1 && IsWordStart(s[1]) then DollarId
    else if "$($)" <= s then EscapedDollar
    else Dollar
  }

  predicate IsWord(name: string) {
    forall i :: 0 <= i < |name| ==> IsWordChar(name[i])
  }

  /** A keyword's expression matches only whole words. */
  lemma KeywordIffWord(name: string, s: string)
    requires s != "" && s[0] == '$' && IsWord(name)
    ensures KeywordLength(name, s) > 0 <==> IsSpacedWord(name, s)
  {
    var n, t := WordRun(s[1..]), s[1..];
    WordRunIsLongest(t);
    if name <= t && SpaceRun(t[|name|..]) > 0 {
      assert IsSpace(t[|name|..][0]);
      assert forall i :: 0 <= i < |name| ==> t[i] == name[i] && IsWordChar(name[i]);
      assert n == |name|;
    }
    if IsSpacedWord(name, s) {
      assert t[|name|..][0] == s[1 + n];
    }
  }

  /** An entry matches at the start of `s` ahead of all earlier ones. */
  predicate IsFirstEntry(k: nat, s: string)
    requires k < |TOKEN_TABLE|
  {
    MatchLength(TOKEN_TABLE[k], s) > 0 && forall j :: 0 <= j < k ==> MatchLength(TOKEN_TABLE[j], s) == 0
  }

  /** Only markers match, and the first entry of the table to do so is the one above. */
  lemma EntryIsFirst(s: string) returns (k: nat)
    ensures IsMarker(s) ==> k < |TOKEN_TABLE| && TOKEN_TABLE[k] == Entry(s) && IsFirstEntry(k, s)
    ensures !IsMarker(s) ==> forall j :: 0 <= j < |TOKEN_TABLE| ==> MatchLength(TOKEN_TABLE[j], s) == 0
  {
    k := 0;
    if IsMarker(s) && s[0] == '$' {
      k := EntryOfDollarIsFirst(s);
    } else {
      NoKeyword(s);
      k := if s != "" && s[0] == '[' then 9 else 10;
    }
  }

  lemma NoKeyword(s: string)
    requires s == "" || s[0] != '$'
    ensures forall j :: 0 <= j < 9 ==> MatchLength(TOKEN_TABLE[j], s) == 0
  {
  }

  lemma EntryOfDollarIsFirst(s: string) returns (k: nat)
    requires s != "" && s[0] == '$'
    ensures k < |TOKEN_TABLE| && TOKEN_TABLE[k] == Entry(s) && IsFirstEntry(k, s)
  {
    Keywords(s);
    k := if IsSpacedWord("var", s) then 0
         else if IsSpacedWord("elif", s) then 1
         else if IsSpacedWord("else", s) then 2
         else if IsSpacedWord("for", s) then 3
         else if IsSpacedWord("if", s) then 4
         else if IsSpacedWord("range", s) then 5
         else if |s| > 1 && IsWordStart(s[1]) then 6
         else if "$($)" <= s then 7
         else 8;
    assert TOKEN_TABLE[k] == Entry(s);
    assert MatchLength(Entry(s), s) > 0;
  }

  lemma Keywords(s: string)
    requires s != "" && s[0] == '$'
    ensures MatchLength(KwVar, s) > 0 <==> IsSpacedWord("var", s)
    ensures MatchLength(KwElif, s) > 0 <==> IsSpacedWord("elif", s)
    ensures MatchLength(KwElse, s) > 0 <==> IsSpacedWord("else", s)
    ensures MatchLength(KwFor, s) > 0 <==> IsSpacedWord("for", s)
    ensures MatchLength(KwIf, s) > 0 <==> IsSpacedWord("if", s)
    ensures MatchLength(KwRange, s) > 0 <==> IsSpacedWord("range", s)
  {
    KeywordIffWord("var", s);
    KeywordIffWord("elif", s);
    KeywordIffWord("else", s);
    KeywordIffWord("for", s);
    KeywordIffWord("if", s);
    KeywordIffWord("range", s);
  }

  // ----- The search in one line -------------------------------------------------------------------

  datatype Match = Match(start: nat, length: nat, entry: TokenType)

  /** `regex.search(line).start()`, from `i` on; -1 for no match. */
  function Search(entry: TokenType, line: string, i: nat): (start: int)
    requires i <= |line|
    ensures start == -1 || i <= start < |line|
    decreases |line| - i
  {
    if i == |line| then -1
    else if MatchLength(entry, line[i..]) > 0 then i
    else Search(entry, line, i + 1)
  }

  lemma {:induction false} SearchIsLeftmost(entry: TokenType, line: string, i: nat, j: nat)
    requires i <= j < |line|
    ensures Search(entry, line, i) < 0 || j < Search(entry, line, i) ==> MatchLength(entry, line[j..]) == 0
    ensures Search(entry, line, i) >= 0 ==> MatchLength(entry, line[Search(entry, line, i)..]) > 0
    decreases |line| - i
  {
    if MatchLength(entry, line[i..]) == 0 && i + 1 < |line| {
      SearchIsLeftmost(entry, line, i + 1, if i < j then j else i + 1);
    }
  }

  /** The leftmost marker of a line. */
  function FirstMarker(line: string): (start: Option<nat>)
    ensures start.Some? ==> start.value < |line|
  {
    if line == "" then None
    else if IsMarker(line) then Some(0)
    else match FirstMarker(line[1..]) case None => None case Some(n) => Some(n + 1)
  }

  lemma {:induction false} FirstMarkerIsLeftmost(line: string, j: nat)
    requires j < |line|
    ensures FirstMarker(line).None? || j < FirstMarker(line).value ==> !IsMarker(line[j..])
    ensures FirstMarker(line).Some? ==> IsMarker(line[FirstMarker(line).value..])
  {
    assert line[0..] == line;
    if !IsMarker(line) && |line| > 1 {
      FirstMarkerIsLeftmost(line[1..], if j > 0 then j - 1 else 0);
      assert j > 0 ==> line[1..][j - 1..] == line[j..];
      var n := FirstMarker(line[1..]);
      assert n.Some? ==> line[1..][n.value..] == line[n.value + 1..];
    }
  }

  /** Where each entry of a table is found. */
  ghost function Starts(line: string, table: seq<TokenType>): (starts: seq<int>)
    ensures |starts| == |table| && forall j :: 0 <= j < |table| ==> starts[j] == Search(table[j], line, 0)
  {
    seq(|table|, j requires 0 <= j < |table| => Search(table[j], line, 0))
  }

  /** Among the first `k` entries, `best` has the leftmost match and is the first to have it. */
  predicate IsBest(starts: seq<int>, k: nat, best: nat)
    requires k <= |starts|
  {
    && best < k && starts[best] >= 0
    && forall j :: 0 <= j < k ==> starts[j] < 0 || starts[best] < starts[j] || (starts[best] == starts[j] && best <= j)
  }

  lemma BestOfOneMore(starts: seq<int>, k: nat, best: nat)
    requires k < |starts|
    requires IsBest(starts, k, best) || forall j :: 0 <= j < k ==> starts[j] < 0
    ensures IsBest(starts, k, best) && (starts[k] < 0 || starts[best] <= starts[k]) ==> IsBest(starts, k + 1, best)
    ensures starts[k] >= 0 && (IsBest(starts, k, best) ==> starts[k] < starts[best]) ==> IsBest(starts, k + 1, k)
  {
  }

  /** The search goes through the table, keeping the leftmost match and on a tie the earlier entry. */
  method FindFirstInLine(line: string, table: seq<TokenType>) returns (m: Option<Match>, ghost best: nat)
    ensures m.None? ==> forall j :: 0 <= j < |table| ==> Starts(line, table)[j] < 0
    ensures m.Some? ==>
              && IsBest(Starts(line, table), |table|, best)
              && m.value.start == Starts(line, table)[best] && m.value.entry == table[best]
              && m.value.length == MatchLength(table[best], line[m.value.start..])
  {
    var bestStart, bestLength, bestEntry := -1, 0, Dollar;
    best := 0;
    ghost var starts := Starts(line, table);
    for k := 0 to |table|
      invariant bestStart < 0 ==> forall j :: 0 <= j < k ==> starts[j] < 0
      invariant bestStart >= 0 ==> IsBest(starts, k, best) && bestEntry == table[best] && bestStart == starts[best]
      invariant bestStart >= 0 ==> bestStart <= |line| && bestLength == MatchLength(bestEntry, line[bestStart..])
    {
      var start := Search(table[k], line, 0);
      assert start == starts[k];
      BestOfOneMore(starts, k, best);
      if start >= 0 {
        if bestStart < 0 || start < bestStart {
          bestStart := start;
          bestLength := MatchLength(table[k], line[start..]);
          bestEntry := table[k];
          best := k;
        }
      }
    }
    m := if bestStart < 0 then None else Some(Match(bestStart, bestLength, bestEntry));
  }

  lemma NothingFound(line: string)
    requires forall j :: 0 <= j < |TOKEN_TABLE| ==> Starts(line, TOKEN_TABLE)[j] < 0
    ensures FirstMarker(line) == None
  {
    var n := FirstMarker(line);
    assert forall j :: 0 <= j < |TOKEN_TABLE| ==> Search(TOKEN_TABLE[j], line, 0) == Starts(line, TOKEN_TABLE)[j] < 0;
    if n.Some? {
      FirstMarkerIsLeftmost(line, n.value);
      var k := EntryIsFirst(line[n.value..]);
      SearchIsLeftmost(TOKEN_TABLE[k], line, 0, n.value);
      assert false;
    }
  }

  /** So what the search finds is the first marker, under the entry that stands for it. */
  lemma BestIsFirstMarker(line: string, best: nat)
    requires IsBest(Starts(line, TOKEN_TABLE), |TOKEN_TABLE|, best)
    ensures var start := Starts(line, TOKEN_TABLE)[best];
            && FirstMarker(line) == Some(start as nat) && IsMarker(line[start..])
            && Entry(line[start..]) == TOKEN_TABLE[best]
  {
    var start := Starts(line, TOKEN_TABLE)[best];
    SearchIsLeftmost(TOKEN_TABLE[best], line, 0, start);
    FirstMarkerIsLeftmost(line, start);
    var e := EntryIsFirst(line[start..]);
    var n := FirstMarker(line).value;
    var k := EntryIsFirst(line[n..]);
    SearchIsLeftmost(TOKEN_TABLE[k], line, 0, n);
    assert 0 <= Starts(line, TOKEN_TABLE)[k] <= n;
    assert start == n && best <= k;
    DistinctEntries(k, best, line[start..]);
  }

  lemma DistinctEntries(k: nat, best: nat, s: string)
    requires k < |TOKEN_TABLE| && best < |TOKEN_TABLE| && best <= k
    requires IsFirstEntry(k, s) && MatchLength(TOKEN_TABLE[best], s) > 0
    ensures k == best
  {
  }
}
