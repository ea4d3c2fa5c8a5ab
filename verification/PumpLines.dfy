/** The lines of a Pump text, positions in them, and the substrings between two positions, which are
    shown to be slices of the text. */
module PumpLines {
  import opened PumpSyntax

  // ----- Lines and cursors ---------------------------------------------------------------------

  const NEWLINE: char := '\n'

  /** Where `splitlines` ends the first line, the line break included. */
  function FirstLine(s: string): (n: nat)
    requires s != ""
    ensures 0 < n <= |s|
    ensures forall i :: 0 <= i < n - 1 ==> s[i] != NEWLINE
  {
    if s[0] == NEWLINE then 1
    else if s[0] == '\r' then (if |s| > 1 && s[1] == NEWLINE then 2 else 1)
    else if |s| == 1 then 1
    else 1 + FirstLine(s[1..])
  }

  /** `s.splitlines(True)` */
  function SplitLines(s: string): (lines: seq<string>)
  {
    if s == "" then [] else var n := FirstLine(s); [s[..n]] + SplitLines(s[n..])
  }

  predicate IsLine(line: string) {
    line != "" && forall i :: 0 <= i < |line| - 1 ==> line[i] != NEWLINE
  }

  predicate AreLines(lines: seq<string>) {
    forall i :: 0 <= i < |lines| ==> IsLine(lines[i])
  }

  function Text(lines: seq<string>): string {
    if lines == [] then "" else Text(lines[..|lines| - 1]) + lines[|lines| - 1]
  }

  lemma {:induction false} TextOfConcat(a: seq<string>, b: seq<string>)
    ensures Text(a + b) == Text(a) + Text(b)
  {
    if b == [] {
      assert a + b == a;
    } else {
      var b' := b[..|b| - 1];
      assert (a + b)[..|a + b| - 1] == a + b';
      TextOfConcat(a, b');
      assert Text(a + b) == (Text(a) + Text(b')) + b[|b| - 1];
    }
  }

  lemma {:induction false} SplitLinesKeepsText(s: string)
    ensures AreLines(SplitLines(s)) && Text(SplitLines(s)) == s
    ensures s != "" ==> SplitLines(s) != []
  {
    if s != "" {
      var n := FirstLine(s);
      SplitLinesKeepsText(s[n..]);
      TextOfConcat([s[..n]], SplitLines(s[n..]));
      assert Text([s[..n]]) == s[..n];
      assert s == s[..n] + s[n..];
    }
  }

  /** A line break ends behind the i-th character; a CR LF is one line break. */
  predicate EndsLine(s: string, i: nat)
    requires i < |s|
  {
    s[i] == NEWLINE || (s[i] == '\r' && (i + 1 == |s| || s[i + 1] != NEWLINE))
  }

  /** Every line but the last ends with a line break, and no line has one in front of its end. */
  predicate AreWholeLines(lines: seq<string>) {
    lines != [] ==>
      && lines[0] != "" && |lines[0]| <= |Text(lines)|
      && (forall i :: 0 <= i < |lines[0]| - 1 ==> !EndsLine(Text(lines), i))
      && (|lines| > 1 ==> EndsLine(Text(lines), |lines[0]| - 1))
      && AreWholeLines(lines[1..])
  }

  lemma {:induction false} FirstLineIff(s: string, n: nat)
    requires 0 < n <= |s|
    ensures n == FirstLine(s) <==>
            (forall i :: 0 <= i < n - 1 ==> !EndsLine(s, i)) && (n < |s| ==> EndsLine(s, n - 1))
    decreases |s|
  {
    if |s| > 1 && !EndsLine(s, 0) {
      assert forall i :: 0 < i < |s| ==> EndsLine(s, i) == EndsLine(s[1..], i - 1);
      assert forall j :: 0 <= j < |s[1..]| ==> EndsLine(s[1..], j) == EndsLine(s, j + 1);
      if n > 1 { FirstLineIff(s[1..], n - 1); }
    }
  }

  lemma TextOfFirst(lines: seq<string>)
    requires lines != []
    ensures Text(lines) == lines[0] + Text(lines[1..])
  {
    assert lines == [lines[0]] + lines[1..];
    TextOfConcat([lines[0]], lines[1..]);
    assert Text([lines[0]]) == lines[0];
  }

  /** The lines of a text are the only ones that are whole and join to it. */
  lemma {:induction false} SplitLinesIff(s: string, lines: seq<string>)
    ensures lines == SplitLines(s) <==> Text(lines) == s && AreWholeLines(lines)
    decreases |s|
  {
    if s == "" {
      if lines != [] { TextOfFirst(lines); }
    } else {
      SplitLinesKeepsText(s);
      WholeLinesOfSplit(s);
      if Text(lines) == s && AreWholeLines(lines) {
        TextOfFirst(lines);
        FirstLineIff(s, |lines[0]|);
        SplitLinesIff(s[|lines[0]|..], lines[1..]);
        assert lines == [lines[0]] + lines[1..];
      }
    }
  }

  lemma WholeLinesOfSplit(s: string)
    requires s != ""
    ensures AreWholeLines(SplitLines(s))
    decreases |s|
  {
    var n := FirstLine(s);
    SplitLinesKeepsText(s);
    FirstLineIff(s, n);
    SplitLinesKeepsText(s[n..]);
    assert SplitLines(s)[1..] == SplitLines(s[n..]);
    if s[n..] != "" { WholeLinesOfSplit(s[n..]); }
  }

  const EOF := Cursor(-1, -1)

  function Plus(c: Cursor, n: int): Cursor {
    Cursor(c.line, c.column + n)
  }

  predicate Before(a: Cursor, b: Cursor) {
    a.line < b.line || (a.line == b.line && a.column < b.column)
  }

  /** A position in a line, its end included. */
  predicate InLine(lines: seq<string>, c: Cursor) {
    0 <= c.line < |lines| && 0 <= c.column <= |lines[c.line]|
  }

  /** A position in a line or at the start of the line after the last. */
  predicate InText(lines: seq<string>, c: Cursor) {
    InLine(lines, c) || c == Cursor(|lines|, 0)
  }

  /** `lines[c.line][c.column:]` */
  function Rest(lines: seq<string>, c: Cursor): string {
    if InLine(lines, c) then lines[c.line][c.column..] else ""
  }

  function SubString(lines: seq<string>, start: Cursor, end: Cursor): string
    requires lines != [] && InText(lines, start)
    requires end == EOF || InLine(lines, end)
  {
    var end := if end == EOF then EndOfText(lines) else end;
    if !Before(start, end) then ""
    else if start.line == end.line then lines[start.line][start.column..end.column]
    else Text([lines[start.line][start.column..]] + lines[start.line + 1..end.line] + [lines[end.line][..end.column]])
  }

  function EndOfText(lines: seq<string>): Cursor
    requires lines != []
  {
    Cursor(|lines| - 1, |lines[|lines| - 1]|)
  }

  /** How many characters of the text precede a cursor. */
  function Offset(lines: seq<string>, c: Cursor): nat
    requires InText(lines, c)
  {
    |Text(lines[..c.line])| + c.column
  }

  lemma OffsetInLine(lines: seq<string>, c: Cursor)
    requires InLine(lines, c)
    ensures Offset(lines, c) <= |Text(lines)|
    ensures Text(lines)[..Offset(lines, c)] == Text(lines[..c.line]) + lines[c.line][..c.column]
    ensures Text(lines)[Offset(lines, c)..] == lines[c.line][c.column..] + Text(lines[c.line + 1..])
  {
    var line := lines[c.line];
    TextOfConcat(lines[..c.line], [line]);
    TextOfConcat(lines[..c.line] + [line], lines[c.line + 1..]);
    assert lines == lines[..c.line] + [line] + lines[c.line + 1..];
    assert Text([line]) == line;
    SplitAt(Text(lines[..c.line]), line, Text(lines[c.line + 1..]), c.column);
  }

  lemma SplitAt(a: string, b: string, c: string, n: nat)
    requires n <= |b|
    ensures (a + b + c)[..|a| + n] == a + b[..n]
    ensures (a + b + c)[|a| + n..] == b[n..] + c
  {
  }

  lemma OffsetOfEnd(lines: seq<string>)
    ensures Offset(lines, Cursor(|lines|, 0)) == |Text(lines)|
    ensures lines != [] ==> InLine(lines, EndOfText(lines)) && Offset(lines, EndOfText(lines)) == |Text(lines)|
  {
    assert lines[..|lines|] == lines;
  }

  lemma SubStringExtends(lines: seq<string>, start: Cursor, end: Cursor)
    requires lines != [] && InLine(lines, start) && InLine(lines, end) && start.line < end.line
    ensures Text(lines[..end.line]) + lines[end.line][..end.column]
            == (Text(lines[..start.line]) + lines[start.line][..start.column]) + SubString(lines, start, end)
  {
    var line, middle := lines[start.line], lines[start.line + 1..end.line];
    var first, last := line[start.column..], lines[end.line][..end.column];
    TextOfConcat(lines[..start.line], [line]);
    TextOfConcat(lines[..start.line] + [line], middle);
    assert lines[..end.line] == lines[..start.line] + [line] + middle;
    TextOfConcat([first] + middle, [last]);
    TextOfConcat([first], middle);
    assert Text([first]) == first && Text([last]) == last && Text([line]) == line;
    Regroup(Text(lines[..start.line]), line, start.column, Text(middle), last);
  }

  lemma Regroup(a: string, line: string, n: nat, b: string, c: string)
    requires n <= |line|
    ensures ((a + line) + b) + c == (a + line[..n]) + ((line[n..] + b) + c)
  {
  }

  /** A substring is a slice of the text. */
  lemma SubStringIsSlice(lines: seq<string>, start: Cursor, end: Cursor)
    requires lines != [] && InLine(lines, start) && InLine(lines, end) && !Before(end, start)
    ensures Offset(lines, start) <= Offset(lines, end) <= |Text(lines)|
    ensures SubString(lines, start, end) == Text(lines)[Offset(lines, start)..Offset(lines, end)]
  {
    OffsetInLine(lines, start);
    OffsetInLine(lines, end);
    var text, a, b := Text(lines), Offset(lines, start), Offset(lines, end);
    if start.line == end.line {
      assert text[a..b] == text[a..][..b - a];
      assert text[a..b] == lines[start.line][start.column..end.column];
    } else {
      SubStringExtends(lines, start, end);
      assert text[..b] == text[..a] + SubString(lines, start, end);
      assert text[a..b] == text[..b][a..];
    }
  }
}
