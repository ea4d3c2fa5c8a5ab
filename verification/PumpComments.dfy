/** How pump.py strips meta comments before it tokenizes: two substitutions over the whole text. */
module PumpComments {
  import opened PumpLines
  import opened PumpPatterns
  import opened PumpTokenLayout
  import opened PythonText

  // ----- The two substitutions -----------------------------------------------------------------

  /** `.*` */
  function LineLength(s: string): (n: nat)
    ensures n <= |s| && (n < |s| ==> s[n] == NEWLINE)
  {
    if s == "" || s[0] == NEWLINE then 0 else 1 + LineLength(s[1..])
  }

  /** `\s*\$\$` matches at the start of `s`. */
  predicate IsComment(s: string) {
    StartsTwice(s[SpaceRun(s)..], '$')
  }

  /** What follows the match of `\s*\$\$.*`. */
  function BehindComment(s: string): (rest: string)
    requires IsComment(s)
    ensures |rest| < |s| && (rest != "" ==> rest[0] == NEWLINE)
  {
    var comment := s[SpaceRun(s)..];
    comment[LineLength(comment)..]
  }

  /** The substitution of `^\s*\$\$.*\n`, where `^` is the start of the text and not of a line. */
  function DropFirstComment(s: string): string {
    if IsComment(s) && BehindComment(s) != "" then BehindComment(s)[1..] else s
  }

  /** The substitution of `\s*\$\$.*`. */
  function StripComments(s: string): string
    decreases |s|
  {
    if s == "" then ""
    else if IsComment(s) then StripComments(BehindComment(s))
    else [s[0]] + StripComments(s[1..])
  }

  function StripMetaComments(s: string): string {
    StripComments(DropFirstComment(s))
  }

  // ----- No comment is left ----------------------------------------------------------------------

  lemma {:induction false} NewlineIsKept(s: string)
    requires s != "" ==> s[0] == NEWLINE
    ensures StripComments(s) != "" ==> StripComments(s)[0] == NEWLINE
    decreases |s|
  {
    if IsComment(s) {
      NewlineIsKept(BehindComment(s));
    }
  }

  lemma SuffixOfCons(c: char, s: string, i: nat)
    requires 0 < i <= |s| + 1
    ensures ([c] + s)[i..] == s[i - 1..]
  {
  }

  lemma NoCommentBehind(c: char, s: string)
    requires HasNoComment(s) && (c == '$' && s != "" ==> s[0] != '$')
    ensures HasNoComment([c] + s)
  {
    forall i | 0 <= i < |[c] + s|
      ensures !StartsTwice(([c] + s)[i..], '$')
    {
      if i > 0 {
        SuffixOfCons(c, s, i);
        assert !StartsTwice(s[i - 1..], '$');
      }
    }
  }

  lemma {:induction false} StripLeavesNoComment(s: string)
    ensures HasNoComment(StripComments(s))
    decreases |s|
  {
    if IsComment(s) {
      StripLeavesNoComment(BehindComment(s));
    } else if s != "" {
      StripLeavesNoComment(s[1..]);
      if s[1..] != "" && IsComment(s[1..]) {
        NewlineIsKept(BehindComment(s[1..]));
      }
      NoCommentBehind(s[0], StripComments(s[1..]));
    }
  }

  lemma StrippedHasNoComment(s: string)
    ensures HasNoComment(StripMetaComments(s))
  {
    StripLeavesNoComment(DropFirstComment(s));
  }

  lemma NoCommentAtStart(s: string)
    requires HasNoComment(s)
    ensures !IsComment(s)
  {
    if SpaceRun(s) < |s| {
      assert !StartsTwice(s[SpaceRun(s)..], '$');
    }
  }

  lemma NoCommentInTail(s: string)
    requires HasNoComment(s) && s != ""
    ensures HasNoComment(s[1..])
  {
    forall i | 0 <= i < |s[1..]|
      ensures !StartsTwice(s[1..][i..], '$')
    {
      assert s[1..][i..] == s[i + 1..];
    }
  }

  lemma {:induction false} NothingToStrip(s: string)
    requires HasNoComment(s)
    ensures StripComments(s) == s
  {
    if s != "" {
      NoCommentAtStart(s);
      NoCommentInTail(s);
      NothingToStrip(s[1..]);
    }
  }

  /** A text is left alone if and only if it has no comment. */
  lemma StripIsIdentityIff(s: string)
    ensures StripMetaComments(s) == s <==> HasNoComment(s)
  {
    StrippedHasNoComment(s);
    if HasNoComment(s) {
      NoCommentAtStart(s);
      NothingToStrip(s);
    }
  }

  // ----- Nothing else is lost --------------------------------------------------------------------

  /** The text with every line cut at its first `$$`. */
  function CutComments(s: string): string
    decreases |s|
  {
    if s == "" then ""
    else if StartsTwice(s, '$') then CutComments(s[LineLength(s)..])
    else [s[0]] + CutComments(s[1..])
  }

  lemma {:induction false} CutBehindSpaces(s: string)
    ensures Visible(CutComments(s)) == Visible(CutComments(s[SpaceRun(s)..]))
  {
    if s != "" && IsSpace(s[0]) {
      CutBehindSpaces(s[1..]);
      assert s[SpaceRun(s)..] == s[1..][SpaceRun(s[1..])..];
      InvisibleFirst(s[0], CutComments(s[1..]));
    }
  }

  lemma InvisibleFirst(c: char, s: string)
    requires IsSpace(c)
    ensures Visible([c] + s) == Visible(s)
  {
    VisibleOfConcat([c], s);
    VisibleOfBlank([c]);
  }

  lemma CutAtComment(s: string)
    requires IsComment(s)
    ensures Visible(CutComments(s)) == Visible(CutComments(BehindComment(s)))
  {
    CutBehindSpaces(s);
  }

  lemma {:induction false} StripIsCut(s: string)
    ensures Visible(StripComments(s)) == Visible(CutComments(s))
    decreases |s|
  {
    if IsComment(s) {
      CutAtComment(s);
      StripIsCut(BehindComment(s));
    } else if s != "" {
      StripIsCut(s[1..]);
      VisibleOfConcat([s[0]], StripComments(s[1..]));
      VisibleOfConcat([s[0]], CutComments(s[1..]));
    }
  }

  /** Up to white space, what is left is every line up to its first `$$`. */
  lemma StripKeepsText(s: string)
    ensures Visible(StripMetaComments(s)) == Visible(CutComments(s))
  {
    if IsComment(s) && BehindComment(s) != "" {
      CutAtComment(s);
      InvisibleFirst(BehindComment(s)[0], CutComments(BehindComment(s)[1..]));
    }
    StripIsCut(DropFirstComment(s));
  }

  // ----- Lines that are nothing but comments -------------------------------------------------------

  predicate IsCommentLine(c: string) {
    IsComment(c) && forall i :: 0 <= i < |c| ==> c[i] != NEWLINE
  }

  function CommentLines(cs: seq<string>): string {
    if cs == [] then "" else cs[0] + ([NEWLINE] + CommentLines(cs[1..]))
  }

  lemma {:induction false} SpaceRunBefore(s: string, t: string)
    requires SpaceRun(s) < |s|
    ensures SpaceRun(s + t) == SpaceRun(s)
  {
    if IsSpace(s[0]) {
      assert (s + t)[1..] == s[1..] + t;
      SpaceRunBefore(s[1..], t);
    }
  }

  lemma {:induction false} LineLengthBefore(s: string, t: string)
    requires (forall i :: 0 <= i < |s| ==> s[i] != NEWLINE) && (t != "" ==> t[0] == NEWLINE)
    ensures LineLength(s + t) == |s|
  {
    if s == "" {
      assert s + t == t;
    } else {
      assert (s + t)[1..] == s[1..] + t;
      LineLengthBefore(s[1..], t);
    }
  }

  lemma BehindCommentLine(c: string, t: string)
    requires IsCommentLine(c) && (t != "" ==> t[0] == NEWLINE)
    ensures IsComment(c + t) && BehindComment(c + t) == t
  {
    var comment := c[SpaceRun(c)..];
    SpaceRunBefore(c, t);
    assert (c + t)[SpaceRun(c)..] == comment + t;
    LineLengthBefore(comment, t);
    assert (comment + t)[|comment|..] == t;
  }

  lemma {:induction false} SpaceRunBehind(w: string, s: string)
    requires IsBlank(w)
    ensures SpaceRun(w + s) == |w| + SpaceRun(s)
  {
    if w == "" {
      assert w + s == s;
    } else {
      assert (w + s)[1..] == w[1..] + s;
      SpaceRunBehind(w[1..], s);
    }
  }

  lemma CommentBehindBlank(w: string, s: string)
    requires IsBlank(w)
    ensures IsComment(w + s) <==> IsComment(s)
    ensures IsComment(s) ==> BehindComment(w + s) == BehindComment(s)
  {
    SpaceRunBehind(w, s);
    assert (w + s)[|w| + SpaceRun(s)..] == s[SpaceRun(s)..];
  }

  predicate AreCommentLines(cs: seq<string>) {
    cs != [] && forall k :: 0 <= k < |cs| ==> IsCommentLine(cs[k])
  }

  lemma FirstBeforeOthers(cs: seq<string>, e: string)
    requires cs != []
    ensures CommentLines(cs) + e == cs[0] + ([NEWLINE] + (CommentLines(cs[1..]) + e))
  {
  }

  lemma FirstCommentLine(w: string, cs: seq<string>, e: string)
    requires IsBlank(w) && AreCommentLines(cs)
    ensures var s := w + (CommentLines(cs) + e);
            IsComment(s) && BehindComment(s) == [NEWLINE] + (CommentLines(cs[1..]) + e)
  {
    var t := [NEWLINE] + (CommentLines(cs[1..]) + e);
    FirstBeforeOthers(cs, e);
    BehindCommentLine(cs[0], t);
    CommentBehindBlank(w, cs[0] + t);
  }

  /** Comment lines vanish with the white space in front of them, and leave one newline. */
  lemma {:induction false} CommentLinesVanish(w: string, cs: seq<string>, e: string)
    requires IsBlank(w) && AreCommentLines(cs)
    ensures StripComments(w + (CommentLines(cs) + e)) == StripComments([NEWLINE] + e)
    decreases |cs|
  {
    FirstCommentLine(w, cs, e);
    if |cs| == 1 {
      assert CommentLines(cs[1..]) + e == e;
    } else {
      CommentLinesVanish([NEWLINE], cs[1..], e);
    }
  }

  lemma NewlineBefore(e: string)
    requires !IsComment(e)
    ensures StripComments([NEWLINE] + e) == [NEWLINE] + StripComments(e)
  {
    CommentBehindBlank([NEWLINE], e);
    assert ([NEWLINE] + e)[1..] == e;
  }

  lemma FirstCommentIsDropped(s: string, rest: string)
    requires IsComment(s) && BehindComment(s) == [NEWLINE] + rest
    ensures DropFirstComment(s) == rest
  {
  }

  lemma LinesBehindFirst(cs: seq<string>, e: string)
    requires AreCommentLines(cs) && !IsComment(e)
    ensures StripComments(CommentLines(cs[1..]) + e) == (if |cs| == 1 then "" else [NEWLINE]) + StripComments(e)
  {
    var rest := CommentLines(cs[1..]) + e;
    if |cs| == 1 {
      assert rest == e;
    } else {
      CommentLinesVanish("", cs[1..], e);
      assert "" + rest == rest;
      NewlineBefore(e);
    }
  }

  /** At the start of the text, comment lines go without a trace exactly if there is one of them: two or
      more leave an empty line. */
  lemma LeadingCommentLines(w: string, cs: seq<string>, e: string)
    requires IsBlank(w) && AreCommentLines(cs) && !IsComment(e)
    ensures var stripped := StripMetaComments(w + (CommentLines(cs) + e));
            && stripped == (if |cs| == 1 then "" else [NEWLINE]) + StripComments(e)
            && (stripped == StripComments(e) <==> |cs| == 1)
  {
    FirstCommentLine(w, cs, e);
    FirstCommentIsDropped(w + (CommentLines(cs) + e), CommentLines(cs[1..]) + e);
    LinesBehindFirst(cs, e);
  }

  /** Text that no comment can begin in, whatever follows. */
  predicate IsText(p: string) {
    p != "" && HasNoComment(p) && !IsSpace(p[|p| - 1]) && p[|p| - 1] != '$'
  }

  lemma {:induction false} SpacesEnd(p: string)
    requires p != "" && !IsSpace(p[|p| - 1])
    ensures SpaceRun(p) < |p|
  {
    if IsSpace(p[0]) {
      SpacesEnd(p[1..]);
    }
  }

  lemma NoCommentInText(p: string, t: string)
    requires IsText(p)
    ensures !IsComment(p + t)
  {
    var n := SpaceRun(p);
    SpacesEnd(p);
    SpaceRunBefore(p, t);
    assert (p + t)[n..] == p[n..] + t;
    assert !StartsTwice(p[n..], '$');
  }

  lemma RestOfConcat(p: string, t: string)
    requires p != ""
    ensures (p + t)[0] == p[0] && (p + t)[1..] == p[1..] + t
  {
  }

  lemma FirstOfConcat(p: string, t: string)
    requires p != ""
    ensures p + t == [p[0]] + (p[1..] + t)
  {
  }

  lemma {:induction false} TextIsKept(p: string, t: string)
    requires IsText(p)
    ensures StripComments(p + t) == p + StripComments(t)
  {
    NoCommentInText(p, t);
    RestOfConcat(p, t);
    if |p| == 1 {
      assert p[1..] + t == t;
    } else {
      NoCommentInTail(p);
      TextIsKept(p[1..], t);
      FirstOfConcat(p, StripComments(t));
    }
  }

  lemma SameMiddle(p: string, a: string, b: string, c: string)
    requires p + (a + c) == p + (b + c)
    ensures a == b
  {
    assert (p + (a + c))[|p|..] == a + c && (p + (b + c))[|p|..] == b + c;
    assert |a| == |b| && (a + c)[..|a|] == a && (b + c)[..|b|] == b;
  }

  /** Behind text, comment lines go without a trace exactly if nothing but a newline is in front of them:
      all white space there goes with them, empty lines too. */
  lemma InnerCommentLines(p: string, w: string, cs: seq<string>, e: string)
    requires IsText(p) && IsBlank(w) && AreCommentLines(cs) && !IsComment(e)
    ensures var stripped := StripMetaComments(p + (w + (CommentLines(cs) + e)));
            && stripped == p + ([NEWLINE] + StripComments(e))
            && (stripped == p + (w + StripComments(e)) <==> w == [NEWLINE])
  {
    var s := w + (CommentLines(cs) + e);
    NoCommentInText(p, s);
    TextIsKept(p, s);
    CommentLinesVanish(w, cs, e);
    NewlineBefore(e);
    if p + ([NEWLINE] + StripComments(e)) == p + (w + StripComments(e)) {
      SameMiddle(p, w, [NEWLINE], StripComments(e));
    }
  }
}
