/** Which lines the fusing script takes for includes: what its regular expressions match, and the files as
    it therefore sees them. */
module IncludeLines {
  import opened FusionScripts
  import opened HeaderFusion
  import opened PythonText
  import opened Wrappers

  /** The line begins with `text`, behind white space. */
  predicate Begins(line: string, blank: string, text: string, rest: string) {
    IsBlank(blank) && line == blank + (text + rest)
  }

  lemma {:induction false} LeftStripOf(blank: string, t: string)
    requires IsBlank(blank) && (t != "" ==> !IsSpace(t[0]))
    ensures LeftStrip(blank + t) == t
  {
    if blank == "" {
      assert blank + t == t;
    } else {
      assert (blank + t)[1..] == blank[1..] + t;
      LeftStripOf(blank[1..], t);
    }
  }

  lemma AfterIff(s: string, text: string, rest: string)
    ensures After(s, text) == Some(rest) <==> s == text + rest
  {
    if s == text + rest {
      assert s[|text|..] == rest;
    }
  }

  lemma BeginsIff(line: string, text: string, rest: string)
    requires text != "" && !IsSpace(text[0])
    ensures After(LeftStrip(line), text) == Some(rest) <==> exists blank :: Begins(line, blank, text, rest)
  {
    AfterIff(LeftStrip(line), text, rest);
    var a := LeftStripped(line);
    if LeftStrip(line) == text + rest {
      assert Begins(line, a, text, rest);
    }
    if blank :| Begins(line, blank, text, rest) {
      LeftStripOf(blank, text + rest);
    }
  }

  /** There is no quote in front of the end of the line. */
  predicate HasNoQuote(tail: string) {
    forall i :: 0 <= i < |tail| && tail[i] == '"' ==> '\n' in tail[..i]
  }

  /** A greedy `.*"` takes `name` from the start of `s`. */
  predicate TakesName(s: string, name: string, tail: string) {
    s == name + ("\"" + tail) && '\n' !in name && HasNoQuote(tail)
  }

  lemma {:induction false} NoQuoteIff(s: string)
    ensures UpToLastQuote(s) == None <==> HasNoQuote(s)
  {
    if s != "" && s[0] != '\n' {
      NoQuoteIff(s[1..]);
      assert s[..0] == [];
      if HasNoQuote(s) {
        forall i | 0 <= i < |s[1..]| && s[1..][i] == '"'
          ensures '\n' in s[1..][..i]
        {
          assert s[i + 1] == '"';
          assert s[..i + 1] == [s[0]] + s[1..][..i];
        }
      }
      if s[0] != '"' && HasNoQuote(s[1..]) {
        forall i | 0 <= i < |s| && s[i] == '"'
          ensures '\n' in s[..i]
        {
          assert s[1..][i - 1] == '"';
          assert s[..i] == [s[0]] + s[1..][..i - 1];
        }
      }
    } else if s != "" {
      forall i | 0 <= i < |s| && s[i] == '"'
        ensures '\n' in s[..i]
      {
        assert s[..i][0] == '\n';
      }
    }
  }

  lemma {:induction false} NameIsTaken(s: string) returns (tail: string)
    requires UpToLastQuote(s).Some?
    ensures TakesName(s, UpToLastQuote(s).value, tail)
  {
    if UpToLastQuote(s[1..]).Some? {
      tail := NameIsTaken(s[1..]);
      assert s == [s[0]] + s[1..];
    } else {
      NoQuoteIff(s[1..]);
      tail := s[1..];
    }
  }

  lemma {:induction false} TakenIsName(s: string, name: string, tail: string)
    requires TakesName(s, name, tail)
    ensures UpToLastQuote(s) == Some(name)
  {
    NoQuoteIff(tail);
    if name == "" {
      assert s[1..] == tail;
    } else {
      assert s[1..] == name[1..] + ("\"" + tail);
      TakenIsName(s[1..], name[1..], tail);
      assert name == [name[0]] + name[1..];
    }
  }

  /** `^\s*#\s*include\s*"(dir.+)"` matches `line` with the group `dir + name`. */
  predicate Matches(line: string, dir: string, name: string, a: string, b: string, c: string, tail: string) {
    && IsBlank(a) && IsBlank(b) && IsBlank(c)
    && line == a + ("#" + (b + ("include" + (c + ("\"" + dir + (name + ("\"" + tail)))))))
    && name != "" && '\n' !in name && HasNoQuote(tail)
  }

  ghost predicate IsInclude(line: string, dir: string, name: string) {
    exists a, b, c, tail :: Matches(line, dir, name, a, b, c, tail)
  }

  lemma MatchIsInclude(line: string, dir: string, name: string)
    requires MatchInclude(line, dir) == Some(dir + name)
    ensures IsInclude(line, dir, name)
  {
    var r1 := After(LeftStrip(line), "#").value;
    BeginsIff(line, "#", r1);
    var a :| Begins(line, a, "#", r1);
    var r2 := After(LeftStrip(r1), "include").value;
    BeginsIff(r1, "include", r2);
    var b :| Begins(r1, b, "include", r2);
    var quote := "\"" + dir;
    var r3 := After(LeftStrip(r2), quote).value;
    BeginsIff(r2, quote, r3);
    var c :| Begins(r2, c, quote, r3);
    var tail := NameIsTaken(r3);
    assert (dir + UpToLastQuote(r3).value)[|dir|..] == UpToLastQuote(r3).value;
    assert (dir + name)[|dir|..] == name;
    assert Matches(line, dir, name, a, b, c, tail);
  }

  lemma IncludeIsMatch(line: string, dir: string, name: string)
    requires IsInclude(line, dir, name)
    ensures MatchInclude(line, dir) == Some(dir + name)
  {
    var a, b, c, tail :| Matches(line, dir, name, a, b, c, tail);
    var r3 := name + ("\"" + tail);
    var quote := "\"" + dir;
    var r2 := c + (quote + r3);
    var r1 := b + ("include" + r2);
    assert Begins(line, a, "#", r1) && Begins(r1, b, "include", r2) && Begins(r2, c, quote, r3);
    BeginsIff(line, "#", r1);
    BeginsIff(r1, "include", r2);
    BeginsIff(r2, quote, r3);
    TakenIsName(r3, name, tail);
  }

  /** The line is an include of `dir + name` if and only if it reads so. */
  lemma MatchIncludeIff(line: string, dir: string, name: string)
    ensures MatchInclude(line, dir) == Some(dir + name) <==> IsInclude(line, dir, name)
  {
    if MatchInclude(line, dir) == Some(dir + name) { MatchIsInclude(line, dir, name); }
    if IsInclude(line, dir, name) { IncludeIsMatch(line, dir, name); }
  }

  ghost predicate IncludesFrom(line: string, dir: string) {
    exists name :: IsInclude(line, dir, name)
  }

  lemma NoMatchIff(line: string, dir: string)
    ensures MatchInclude(line, dir).None? <==> !IncludesFrom(line, dir)
  {
    var m := MatchInclude(line, dir);
    if m.Some? {
      assert m.value == dir + m.value[|dir|..];
      MatchIsInclude(line, dir, m.value[|dir|..]);
    }
    if name :| IsInclude(line, dir, name) {
      IncludeIsMatch(line, dir, name);
    }
  }

  // ----- The files as the two scripts see them -------------------------------------------------------

  lemma SameFiles(tree: Tree, h: string)
    ensures HeaderFiles(tree).Keys == tree.Keys
    ensures SourceFiles(tree).Keys == tree.Keys + {"include/gtest/gtest.h"}
    ensures h in tree ==> |HeaderFiles(tree)[h]| == |tree[h]|
    ensures h in tree && h != "include/gtest/gtest.h" ==> |SourceFiles(tree)[h]| == |tree[h]|
    ensures SourceFiles(tree)["include/gtest/gtest.h"] == [Text("#include \"gtest/gtest.h\"\n")]
  {
  }

  lemma PrefixesCancel(p: string, a: string, b: string)
    ensures p + a == p + b <==> a == b
  {
    assert (p + a)[|p|..] == a && (p + b)[|p|..] == b;
  }

  lemma PrefixedName(m: Option<string>, p: string, dir: string, name: string)
    ensures m.Some? ==> (p + m.value == p + dir + name <==> m == Some(dir + name))
  {
    if m.Some? {
      PrefixesCancel(p, m.value, dir + name);
      assert p + (dir + name) == p + dir + name;
    }
  }

  /** A header includes a Google Test header exactly by a line that reads so; every other line is text. */
  lemma HeaderLineIff(tree: Tree, h: string, k: nat, name: string)
    requires h in tree && k < |tree[h]|
    ensures var line, s := HeaderFiles(tree)[h][k], tree[h][k];
            && (line == Include("include/gtest/" + name) <==> IsInclude(s, "gtest/", name))
            && (line.Text? <==> !IncludesFrom(s, "gtest/"))
            && (line.Text? ==> line == Text(s))
  {
    var s := tree[h][k];
    MatchIncludeIff(s, "gtest/", name);
    NoMatchIff(s, "gtest/");
    PrefixedName(MatchInclude(s, "gtest/"), "include/", "gtest/", name);
    assert "include/" + "gtest/" == "include/gtest/";
  }

  lemma SourceHeaderLine(s: string)
    ensures ClassifySourceLine(s) == Include("include/gtest/gtest-spi.h") <==> IsInclude(s, "gtest/", "gtest-spi.h")
    ensures ClassifySourceLine(s) == Include("include/gtest/gtest.h") <==>
            IncludesFrom(s, "gtest/") && !IsInclude(s, "gtest/", "gtest-spi.h")
  {
    var m := MatchInclude(s, "gtest/");
    MatchIncludeIff(s, "gtest/", "gtest-spi.h");
    NoMatchIff(s, "gtest/");
    PrefixedName(m, "include/", "gtest/", "gtest-spi.h");
    assert "include/" + "gtest/" + "gtest-spi.h" == GTEST_SPI_H_SEED;
    var m2 := MatchInclude(s, "src/");
    assert m2.Some? ==> m2.value[0] == 's';
  }

  lemma SourcePartLine(s: string, name: string)
    ensures ClassifySourceLine(s) == Include("src/" + name) <==>
            !IncludesFrom(s, "gtest/") && IsInclude(s, "src/", name)
    ensures ClassifySourceLine(s).Text? <==> !IncludesFrom(s, "gtest/") && !IncludesFrom(s, "src/")
    ensures ClassifySourceLine(s).Text? ==> ClassifySourceLine(s) == Text(s)
  {
    NoMatchIff(s, "gtest/");
    NoMatchIff(s, "src/");
    MatchIncludeIff(s, "src/", name);
    assert ("src/" + name)[0] == 's';
  }

  /** A source file expands its own parts and gtest-spi.h; any other Google Test header stands for
      gtest.h. */
  lemma SourceLineIff(tree: Tree, h: string, k: nat, name: string)
    requires h in tree && h != "include/gtest/gtest.h" && k < |tree[h]|
    ensures var line, s := SourceFiles(tree)[h][k], tree[h][k];
            && (line == Include("include/gtest/gtest-spi.h") <==> IsInclude(s, "gtest/", "gtest-spi.h"))
            && (line == Include("include/gtest/gtest.h") <==>
                  IncludesFrom(s, "gtest/") && !IsInclude(s, "gtest/", "gtest-spi.h"))
            && (line == Include("src/" + name) <==> !IncludesFrom(s, "gtest/") && IsInclude(s, "src/", name))
            && (line.Text? <==> !IncludesFrom(s, "gtest/") && !IncludesFrom(s, "src/"))
            && (line.Text? ==> line == Text(s))
  {
    SourceHeaderLine(tree[h][k]);
    SourcePartLine(tree[h][k], name);
  }
}
