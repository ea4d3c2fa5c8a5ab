/** The language a simple regular expression denotes, and the matcher, the search and the RE
    class proved against it. */
module RegexMatcher {
  import opened Wrappers
  import opened SimpleRegex

  // ----- Denotation ----------------------------------------------------------------------------

  /** A word of one character that the atom matches. */
  ghost predicate InAtom(a: Atom, w: string)
    requires WellFormedAtom(a)
  {
    |w| == 1 && AtomMatchesChar(a.escaped, a.c, w[0])
  }

  /** A concatenation of `n` words of the atom. */
  ghost predicate InPower(a: Atom, n: nat, w: string)
    requires WellFormedAtom(a)
  {
    if n == 0 then w == ""
    else exists k :: 0 <= k <= |w| && InAtom(a, w[..k]) && InPower(a, n - 1, w[k..])
  }

  /** The language of an atom with its repetition. */
  ghost predicate InItem(item: Item, w: string)
    requires WellFormedAtom(item.atom)
  {
    match item.repeat
    case Once => InAtom(item.atom, w)
    case Optional => w == "" || InAtom(item.atom, w)
    case Star => exists n: nat :: InPower(item.atom, n, w)
    case Plus => exists n: nat :: n > 0 && InPower(item.atom, n, w)
  }

  /** The language of a sequence of items: the concatenation of their languages. */
  ghost predicate InLanguage(items: seq<Item>, w: string)
    requires WellFormed(items)
  {
    if items == [] then w == ""
    else exists k :: 0 <= k <= |w| && InItem(items[0], w[..k]) && InLanguage(items[1..], w[k..])
  }

  /** Some prefix of `s` is in the language of the tail; with a final '$', only all of `s` is a
      candidate. */
  ghost predicate MatchesPrefix(t: Tail, s: string)
    requires WellFormed(t.items)
  {
    exists k :: 0 <= k <= |s| && InLanguage(t.items, s[..k]) && (t.endAnchor ==> k == |s|)
  }

  /** Some substring `s[i..j]` is in the language, where the anchors pin `i` and `j`. */
  ghost predicate MatchesSubstring(p: Pattern, s: string)
    requires WellFormed(p.tail.items)
  {
    exists i, j :: 0 <= i <= j <= |s| && InLanguage(p.tail.items, s[i..j])
                   && (p.startAnchor ==> i == 0) && (p.tail.endAnchor ==> j == |s|)
  }

  // ----- The language, one item at a time -------------------------------------------------------

  ghost predicate AllMatch(a: Atom, w: string)
    requires WellFormedAtom(a)
  {
    forall i :: 0 <= i < |w| ==> AtomMatchesChar(a.escaped, a.c, w[i])
  }

  lemma {:induction false} PowerOfAtom(a: Atom, n: nat, w: string)
    requires WellFormedAtom(a)
    ensures InPower(a, n, w) <==> |w| == n && AllMatch(a, w)
  {
    if n > 0 {
      if InPower(a, n, w) {
        var k :| 0 <= k <= |w| && InAtom(a, w[..k]) && InPower(a, n - 1, w[k..]);
        PowerOfAtom(a, n - 1, w[k..]);
        assert w[..k] == [w[0]];
        assert forall i :: 1 <= i < |w| ==> w[i] == w[1..][i - 1];
      }
      if |w| == n && AllMatch(a, w) {
        PowerOfAtom(a, n - 1, w[1..]);
        assert InAtom(a, w[..1]);
      }
    }
  }

  predicate WithinCounts(r: Repeat, n: nat) {
    match r
    case Once => n == 1
    case Optional => n <= 1
    case Star => true
    case Plus => n >= 1
  }

  /** An item denotes the runs of its atom whose length the repetition allows. */
  lemma ItemIsRun(item: Item, w: string)
    requires WellFormedAtom(item.atom)
    ensures InItem(item, w) <==> AllMatch(item.atom, w) && WithinCounts(item.repeat, |w|)
  {
    PowerOfAtom(item.atom, |w|, w);
    if n: nat :| InPower(item.atom, n, w) {
      PowerOfAtom(item.atom, n, w);
    }
  }

  /** `s` starts with a run of `n` characters that `item` allows, and `rest` matches behind it. */
  ghost predicate MatchesBehindRun(item: Item, rest: Tail, s: string, n: nat)
    requires WellFormedAtom(item.atom) && WellFormed(rest.items)
  {
    n <= |s| && AllMatch(item.atom, s[..n]) && WithinCounts(item.repeat, n) && MatchesPrefix(rest, s[n..])
  }

  function Rest(t: Tail): Tail
    requires t.items != []
  {
    t.(items := t.items[1..])
  }

  lemma SplitOffRun(t: Tail, s: string) returns (n: nat)
    requires WellFormed(t.items) && t.items != [] && MatchesPrefix(t, s)
    ensures MatchesBehindRun(t.items[0], Rest(t), s, n)
  {
    var k :| 0 <= k <= |s| && InLanguage(t.items, s[..k]) && (t.endAnchor ==> k == |s|);
    n :| 0 <= n <= k && InItem(t.items[0], s[..k][..n]) && InLanguage(Rest(t).items, s[..k][n..]);
    assert s[..k][..n] == s[..n];
    assert s[..k][n..] == s[n..][..k - n];
    ItemIsRun(t.items[0], s[..n]);
    assert MatchesPrefix(Rest(t), s[n..]);
  }

  lemma PutBackRun(t: Tail, s: string, n: nat)
    requires WellFormed(t.items) && t.items != [] && MatchesBehindRun(t.items[0], Rest(t), s, n)
    ensures MatchesPrefix(t, s)
  {
    ItemIsRun(t.items[0], s[..n]);
    var rest := Rest(t);
    var j :| 0 <= j <= |s[n..]| && InLanguage(rest.items, s[n..][..j]) && (t.endAnchor ==> j == |s| - n);
    var w := s[..n + j];
    assert w[..n] == s[..n];
    assert w[n..] == s[n..][..j];
    assert InLanguage(t.items, w);
  }

  /** The tail matches behind some number, at least `from`, of repetitions. */
  ghost predicate MatchesFrom(item: Item, rest: Tail, s: string, from: nat)
    requires WellFormedAtom(item.atom) && WellFormed(rest.items)
  {
    exists n: nat :: from <= n && MatchesBehindRun(item, rest, s, n)
  }

  /** A tail matches exactly when the rest of it matches behind an allowed run of its first atom. */
  lemma MatchesPrefixStep(t: Tail, s: string)
    requires WellFormed(t.items) && t.items != []
    ensures MatchesPrefix(t, s) <==> MatchesFrom(t.items[0], Rest(t), s, 0)
  {
    if MatchesPrefix(t, s) {
      var n := SplitOffRun(t, s);
    }
    if n: nat :| MatchesBehindRun(t.items[0], Rest(t), s, n) {
      PutBackRun(t, s, n);
    }
  }

  lemma MatchesPrefixOnce(t: Tail, s: string)
    requires WellFormed(t.items) && t.items != [] && t.items[0].repeat == Once
    ensures MatchesPrefix(t, s) <==>
            && s != "" && AtomMatchesChar(t.items[0].atom.escaped, t.items[0].atom.c, s[0])
            && MatchesPrefix(Rest(t), s[1..])
  {
    MatchesPrefixStep(t, s);
    if s != "" {
      assert s[..1] == [s[0]];
      assert MatchesBehindRun(t.items[0], Rest(t), s, 1) <==>
             AtomMatchesChar(t.items[0].atom.escaped, t.items[0].atom.c, s[0]) && MatchesPrefix(Rest(t), s[1..]);
    }
  }

  lemma MatchesPrefixOfEmpty(t: Tail, s: string)
    requires t.items == []
    ensures MatchesPrefix(t, s) <==> !t.endAnchor || s == ""
  {
    assert s[..0] == "";
  }

  // ----- The matcher ---------------------------------------------------------------------------

  const SIZE_MAX: nat := 0xFFFF_FFFF_FFFF_FFFF

  /** The tree of a valid tail text. */
  ghost function TailOf(regex: string): Tail
    requires ParseTail(regex).Some?
    ensures WellFormed(TailOf(regex).items)
  {
    ParseTailSound(regex);
    ParseTail(regex).value
  }

  /** What the matcher reads at the head of a valid tail is the first item of its tree, and
      what it recurses on is the text of the rest. */
  lemma TailOfStep(regex: CString)
    requires ParseTail(regex).Some? && regex != "" && regex != "$"
    ensures regex[0] != '$'
    ensures HeadItem(regex).Some? && WellFormedAtom(HeadItem(regex).value.atom)
    ensures ParseTail(regex[NextIndex(regex)..]).Some?
    ensures var t, rest := TailOf(regex), TailOf(regex[NextIndex(regex)..]);
            t.items != [] && t.items[0] == HeadItem(regex).value && Rest(t) == rest
  {
    var rest := TailOf(regex[NextIndex(regex)..]);
    assert TailOf(regex).items[1..] == rest.items;
  }

  lemma NoLongerRun(item: Item, rest: Tail, s: string, n: nat)
    requires WellFormedAtom(item.atom) && WellFormed(rest.items)
    requires n == |s| || (n < |s| && !AtomMatchesChar(item.atom.escaped, item.atom.c, s[n]))
    ensures !MatchesFrom(item, rest, s, n + 1)
  {
    forall k: nat | n < k <= |s|
      ensures !AllMatch(item.atom, s[..k])
    {
      assert s[..k][n] == s[n];
    }
  }

  lemma MatchesFromStep(item: Item, rest: Tail, s: string, n: nat)
    requires WellFormedAtom(item.atom) && WellFormed(rest.items)
    ensures MatchesFrom(item, rest, s, n) <==> MatchesBehindRun(item, rest, s, n) || MatchesFrom(item, rest, s, n + 1)
  {
  }

  /** The C expression `s + n`. */
  function Advance(s: CString, n: nat): CString
    requires n <= |s|
  {
    s[n..]
  }

  method MatchRepetitionAndRegexAtHead(escaped: bool, c: char, repeat: char, regex: CString, str: CString)
    returns (matched: bool)
    requires WellFormedAtom(Atom(escaped, c)) && IsRepeat(repeat)
    requires ParseTail(regex).Some?
    requires |str| < SIZE_MAX
    ensures matched <==> MatchesFrom(Item(Atom(escaped, c), RepeatOf(repeat)), TailOf(regex), str, 0)
    decreases |regex|, 1
  {
    var minCount := if repeat == '+' then 1 else 0;
    var maxCount := if repeat == '?' then 1 else SIZE_MAX - 1;
    ghost var item, rest := Item(Atom(escaped, c), RepeatOf(repeat)), TailOf(regex);
    var i := 0;
    while i <= maxCount
      invariant 0 <= i <= maxCount + 1 && i <= |str|
      invariant AllMatch(item.atom, str[..i])
      invariant MatchesFrom(item, rest, str, 0) <==> MatchesFrom(item, rest, str, i)
      decreases maxCount + 1 - i
    {
      MatchesFromStep(item, rest, str, i);
      if i >= minCount {
        var tailMatches := MatchRegexAtHead(regex, Advance(str, i));
        if tailMatches {
          return true;
        }
      }
      if At(str, i) == '\0' || !AtomMatchesChar(escaped, c, str[i]) {
        NoLongerRun(item, rest, str, i);
        return false;
      }
      assert str[..i + 1] == str[..i] + [str[i]];
      i := i + 1;
    }
    return false;
  }

  method MatchRegexAtHead(regex: CString, str: CString) returns (matched: bool)
    requires ParseTail(regex).Some?
    requires |str| < SIZE_MAX
    ensures matched <==> MatchesPrefix(TailOf(regex), str)
    decreases |regex|, 0
  {
    if At(regex, 0) == '\0' {
      MatchesPrefixOfEmpty(TailOf(regex), str);
      return true;
    }
    if regex[0] == '$' {
      assert regex == "$" by {
        if regex != "$" { TailOfStep(regex); }
      }
      MatchesPrefixOfEmpty(TailOf(regex), str);
      return At(str, 0) == '\0';
    }
    TailOfStep(regex);
    var escaped := regex[0] == '\\';
    var at := if escaped then 1 else 0;
    if IsRepeat(At(regex, at + 1)) {
      MatchesPrefixStep(TailOf(regex), str);
      matched := MatchRepetitionAndRegexAtHead(escaped, regex[at], regex[at + 1], Advance(regex, at + 2), str);
    } else {
      MatchesPrefixOnce(TailOf(regex), str);
      if At(str, 0) != '\0' && AtomMatchesChar(escaped, regex[at], str[0]) {
        matched := MatchRegexAtHead(Advance(regex, at + 1), Advance(str, 1));
      } else {
        matched := false;
      }
    }
  }

  /** The tail of the pattern matches at position `i` or later. */
  ghost predicate MatchesAtOrAfter(t: Tail, s: string, i: nat)
    requires WellFormed(t.items)
  {
    exists j :: i <= j <= |s| && MatchesPrefix(t, s[j..])
  }

  lemma MatchesAtOrAfterStep(t: Tail, s: string, i: nat)
    requires WellFormed(t.items) && i <= |s|
    ensures MatchesAtOrAfter(t, s, i) <==> MatchesPrefix(t, s[i..]) || (i < |s| && MatchesAtOrAfter(t, s, i + 1))
  {
  }

  /** Searches from every position of `str`, its end included, unless '^' pins the start. */
  method MatchRegexAnywhere(regex: Option<CString>, str: Option<CString>) returns (matched: bool)
    requires regex.Some? ==> Parse(regex.value).Some?
    requires str.Some? ==> |str.value| < SIZE_MAX
    ensures matched <==> regex.Some? && str.Some? && MatchesSubstring(PatternOf(regex.value), str.value)
  {
    if regex.None? || str.None? {
      return false;
    }
    var r, s := regex.value, str.value;
    SubstringIsSearch(PatternOf(r), s);
    if At(r, 0) == '^' {
      matched := MatchRegexAtHead(Advance(r, 1), s);
      return;
    }
    ghost var t := TailOf(r);
    var i := 0;
    while true
      invariant 0 <= i <= |s|
      invariant MatchesAtOrAfter(t, s, 0) <==> MatchesAtOrAfter(t, s, i)
      decreases |s| - i
    {
      MatchesAtOrAfterStep(t, s, i);
      matched := MatchRegexAtHead(r, Advance(s, i));
      if matched {
        return;
      }
      if At(s, i) == '\0' {
        break;
      }
      i := i + 1;
    }
  }

  /** The tree of a valid pattern text. */
  ghost function PatternOf(regex: string): (p: Pattern)
    requires Parse(regex).Some?
    ensures WellFormed(p.tail.items) && Text(p) == regex
  {
    ParseSound(regex);
    Parse(regex).value
  }

  /** A substring match is a prefix match of some suffix, of the whole string under '^'. */
  lemma SubstringIsSearch(p: Pattern, s: string)
    requires WellFormed(p.tail.items)
    ensures MatchesSubstring(p, s) <==>
            if p.startAnchor then MatchesPrefix(p.tail, s) else MatchesAtOrAfter(p.tail, s, 0)
  {
    assert s[0..] == s;
    if MatchesSubstring(p, s) {
      var i, j :| 0 <= i <= j <= |s| && InLanguage(p.tail.items, s[i..j])
                  && (p.startAnchor ==> i == 0) && (p.tail.endAnchor ==> j == |s|);
      assert s[i..][..j - i] == s[i..j];
      assert MatchesPrefix(p.tail, s[i..]);
    }
    if i :| 0 <= i <= |s| && (p.startAnchor ==> i == 0) && MatchesPrefix(p.tail, s[i..]) {
      var k :| 0 <= k <= |s[i..]| && InLanguage(p.tail.items, s[i..][..k]) && (p.tail.endAnchor ==> k == |s| - i);
      assert s[i..][..k] == s[i..i + k];
    }
  }

  // ----- Class RE --------------------------------------------------------------------------------

  /** The pattern that RE::Init builds for full matches: it looks at the first and the last
      character only. */
  function FullPattern(regex: string): string {
    (if regex == "" || regex[0] != '^' then "^" else "")
    + regex
    + (if regex == "" || regex[|regex| - 1] != '$' then "$" else "")
  }

  /** The last token is the escape sequence `\$`, whose last character passes for an end anchor. */
  predicate EndsInEscapedDollar(p: Pattern) {
    !p.tail.endAnchor && LastIsEscapedDollar(p.tail.items)
  }

  predicate LastIsEscapedDollar(items: seq<Item>) {
    items != [] && items[|items| - 1] == Item(Atom(true, '$'), Once)
  }

  lemma {:induction false} TailTextLast(t: Tail)
    requires WellFormed(t.items)
    ensures TailText(t) != "" && TailText(t)[|TailText(t)| - 1] == '$' <==>
            t.endAnchor || LastIsEscapedDollar(t.items)
    decreases |t.items|
  {
    if t.items != [] {
      assert WellFormedAtom(t.items[0].atom);
      var head := AtomText(t.items[0].atom) + RepeatText(t.items[0].repeat);
      assert TailText(t) == head + TailText(Rest(t));
      TailTextLast(Rest(t));
      if |t.items| > 1 {
        TailTextHead(Rest(t));
      }
    }
  }

  lemma {:induction false} AppendEndAnchor(t: Tail)
    requires WellFormed(t.items) && !t.endAnchor
    ensures TailText(t.(endAnchor := true)) == TailText(t) + "$"
    decreases |t.items|
  {
    if t.items != [] {
      AppendEndAnchor(Rest(t));
      assert Rest(t.(endAnchor := true)) == Rest(t).(endAnchor := true);
    }
  }

  /** The tree of the pattern built for full matches: both anchors, except that the end anchor
      is missing when the pattern ends in an escaped dollar. */
  function FullyAnchored(p: Pattern): Pattern {
    Pattern(true, p.tail.(endAnchor := !EndsInEscapedDollar(p)))
  }

  lemma FullPatternShape(start: bool, core: string)
    requires core == "" || core[0] != '^'
    ensures var closed := core != "" && core[|core| - 1] == '$';
            FullPattern((if start then "^" else "") + core) == "^" + core + (if closed then "" else "$")
  {
    if start {
      assert core != "" ==> ("^" + core)[|core|] == core[|core| - 1];
    } else {
      assert "" + core == core;
    }
  }

  lemma FullPatternText(p: Pattern)
    requires WellFormed(p.tail.items)
    ensures FullPattern(Text(p)) == Text(FullyAnchored(p))
  {
    var core := TailText(p.tail);
    TailTextHead(p.tail);
    TailTextLast(p.tail);
    FullPatternShape(p.startAnchor, core);
    if !p.tail.endAnchor && !EndsInEscapedDollar(p) {
      AppendEndAnchor(p.tail);
      assert "^" + core + "$" == "^" + (core + "$");
    } else {
      assert FullyAnchored(p).tail == p.tail || EndsInEscapedDollar(p);
      assert "^" + core + "" == "^" + core;
    }
  }

  lemma FullPatternParses(p: Pattern)
    requires WellFormed(p.tail.items)
    ensures Parse(FullPattern(Text(p))) == Some(FullyAnchored(p))
  {
    FullPatternText(p);
    ParseComplete(FullyAnchored(p));
  }

  /** The answer FullMatch gives for a valid pattern. */
  ghost predicate FullMatches(p: Pattern, s: string)
    requires WellFormed(p.tail.items)
  {
    MatchesSubstring(FullyAnchored(p), s)
  }

  class RE {
    var pattern: Option<CString>
    var fullPattern: Option<CString>
    var isValid: bool

    ghost predicate Valid()
      reads this
    {
      && (isValid <==> pattern.Some? && Parse(pattern.value).Some?)
      && fullPattern == if isValid then Some(FullPattern(pattern.value)) else None
    }

    constructor (regex: Option<CString>)
      ensures Valid() && pattern == regex
    {
      pattern, fullPattern, isValid := None, None, false;
      new;
      Init(regex);
    }

    method Init(regex: Option<CString>)
      modifies this
      ensures Valid() && pattern == regex
    {
      pattern, fullPattern := None, None;
      if regex.Some? {
        pattern := regex;
      }
      isValid := ValidateRegex(regex);
      if !isValid {
        return;
      }
      var r := regex.value;
      var buffer := new char[|r| + 3];
      var pos := 0;
      if At(r, 0) != '^' {
        buffer[pos] := '^';
        pos := pos + 1;
      }
      forall i | 0 <= i < |r| {
        buffer[pos + i] := r[i];
      }
      assert buffer[..pos + |r|] == (if r == "" || r[0] != '^' then "^" else "") + r;
      pos := pos + |r|;
      if |r| == 0 || r[|r| - 1] != '$' {
        buffer[pos] := '$';
        pos := pos + 1;
      }
      buffer[pos] := '\0';
      assert buffer[..pos] == FullPattern(r);
      fullPattern := Some(buffer[..pos]);
    }

    static method FullMatch(str: Option<CString>, re: RE) returns (matched: bool)
      requires re.Valid() && (str.Some? ==> |str.value| < SIZE_MAX)
      ensures matched <==> re.isValid && str.Some? && FullMatches(PatternOf(re.pattern.value), str.value)
    {
      if !re.isValid {
        return false;
      }
      FullPatternParses(PatternOf(re.pattern.value));
      matched := MatchRegexAnywhere(re.fullPattern, str);
    }

    static method PartialMatch(str: Option<CString>, re: RE) returns (matched: bool)
      requires re.Valid() && (str.Some? ==> |str.value| < SIZE_MAX)
      ensures matched <==> re.isValid && str.Some? && MatchesSubstring(PatternOf(re.pattern.value), str.value)
    {
      if !re.isValid {
        return false;
      }
      matched := MatchRegexAnywhere(re.pattern, str);
    }
  }

  // ----- When FullMatch means what it says -------------------------------------------------------

  /** A character that a valid atom accepts. */
  function Witness(a: Atom): (ch: char)
    requires WellFormedAtom(a)
    ensures AtomMatchesChar(a.escaped, a.c, ch) && ch != '\0'
  {
    if a.escaped then
      match a.c
      case 'd' => '0'
      case 'D' => 'x'
      case 'f' => FORM_FEED
      case 'n' => '\n'
      case 'r' => '\r'
      case 's' => ' '
      case 'S' => 'x'
      case 't' => '\t'
      case 'v' => VERTICAL_TAB
      case 'w' => 'x'
      case 'W' => ' '
      case _ => a.c
    else a.c
  }

  /** No valid pattern denotes the empty language. */
  lemma {:induction false} LanguageInhabited(items: seq<Item>) returns (w: CString)
    requires WellFormed(items)
    ensures InLanguage(items, w)
    decreases |items|
  {
    if items == [] {
      w := "";
    } else {
      assert WellFormedAtom(items[0].atom);
      var head: CString := [Witness(items[0].atom)];
      ItemIsRun(items[0], head);
      var tail := LanguageInhabited(items[1..]);
      w := head + tail;
      assert w[..1] == head && w[1..] == tail;
    }
  }

  lemma EscapedDollarWord(item: Item, w: string)
    requires item == Item(Atom(true, '$'), Once) && InItem(item, w)
    ensures EndsInDollar(w)
  {
  }

  lemma CutFirstItem(items: seq<Item>, w: string) returns (k: nat)
    requires WellFormed(items) && items != [] && InLanguage(items, w)
    ensures k <= |w| && InLanguage(items[1..], w[k..])
    ensures |items| == 1 ==> InItem(items[0], w)
  {
    k :| 0 <= k <= |w| && InItem(items[0], w[..k]) && InLanguage(items[1..], w[k..]);
    if |items| == 1 {
      assert w[..k] == w;
    }
  }

  /** Words of a pattern that ends in the escaped dollar end in a dollar. */
  lemma {:induction false} LastCharIsDollar(items: seq<Item>, w: string)
    requires WellFormed(items) && LastIsEscapedDollar(items) && InLanguage(items, w)
    ensures EndsInDollar(w)
    decreases |items|
  {
    var k := CutFirstItem(items, w);
    if |items| == 1 {
      EscapedDollarWord(items[0], w);
    } else {
      LastCharIsDollar(items[1..], w[k..]);
    }
  }

  predicate EndsInDollar(w: string) {
    w != "" && w[|w| - 1] == '$'
  }

  lemma WholeStringMatch(p: Pattern, s: string)
    requires WellFormed(p.tail.items) && !EndsInEscapedDollar(p)
    ensures FullMatches(p, s) <==> InLanguage(p.tail.items, s)
  {
    assert s[0..|s|] == s;
  }

  /** For a pattern that ends in an escaped dollar FullMatch accepts a string outside its language. */
  lemma EscapedDollarOvermatches(p: Pattern) returns (s: CString)
    requires WellFormed(p.tail.items) && EndsInEscapedDollar(p)
    ensures FullMatches(p, s) && !InLanguage(p.tail.items, s)
  {
    var w := LanguageInhabited(p.tail.items);
    s := w + "x";
    assert s[0..|w|] == w;
    if InLanguage(p.tail.items, s) {
      LastCharIsDollar(p.tail.items, s);
    }
  }

  /** FullMatch decides membership in the pattern's language, for every string, exactly when the
      pattern's last token is not an escaped dollar. */
  lemma FullMatchIsMembershipIff(p: Pattern)
    requires WellFormed(p.tail.items)
    ensures (forall s: CString :: FullMatches(p, s) <==> InLanguage(p.tail.items, s)) <==> !EndsInEscapedDollar(p)
  {
    if EndsInEscapedDollar(p) {
      var s := EscapedDollarOvermatches(p);
    } else {
      forall s: CString
        ensures FullMatches(p, s) <==> InLanguage(p.tail.items, s)
      {
        WholeStringMatch(p, s);
      }
    }
  }
}
