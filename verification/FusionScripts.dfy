/** fuse_gtest_files.py: the recursive ProcessFile of its two fusing functions, line by line over the text
    of a source tree. */
module FusionScripts {
  import opened Wrappers

  import opened FusionOrder
  import opened HeaderFusion
  import opened PythonText

  /** A source tree: the lines of its files. */
  type Tree = map<string, seq<string>>

  const GTEST_H_SEED := "include/gtest/gtest.h"
  const GTEST_SPI_H_SEED := "include/gtest/gtest-spi.h"
  const GTEST_H_INCLUDE := "#include \"gtest/gtest.h\"\n"

  /** What follows `prefix` in `s`. */
  function After(s: string, prefix: string): Option<string> {
    if prefix <= s then Some(s[|prefix|..]) else None
  }

  /** The longest text in front of a quote on the first line of `s`, as the greedy `.+` takes it. */
  function UpToLastQuote(s: string): Option<string> {
    if s == "" || s[0] == '\n' then None
    else
      var more := UpToLastQuote(s[1..]);
      if more.Some? then Some([s[0]] + more.value)
      else if s[0] == '"' then Some("")
      else None
  }

  /** The group of the match of `^\s*#\s*include\s*"(dir.+)"`. */
  function MatchInclude(line: string, dir: string): (group: Option<string>)
    ensures group.Some? ==> dir <= group.value
  {
    var hash := After(LeftStrip(line), "#");
    if hash.None? then None
    else
      var include_ := After(LeftStrip(hash.value), "include");
      if include_.None? then None
      else
        var quote := After(LeftStrip(include_.value), "\"" + dir);
        if quote.None? then None
        else
          var name := UpToLastQuote(quote.value);
          if name.None? || name.value == "" then None else Some(dir + name.value)
  }

  function ClassifyHeaderLine(line: string): Line {
    var m := MatchInclude(line, "gtest/");
    if m.Some? then Include("include/" + m.value) else Text(line)
  }

  /** In gtest-all.cc every Google Test header but gtest-spi.h stands for gtest.h. */
  function ClassifySourceLine(line: string): Line {
    var m := MatchInclude(line, "gtest/");
    if m.Some? then
      Include(if "include/" + m.value == GTEST_SPI_H_SEED then GTEST_SPI_H_SEED else GTEST_H_SEED)
    else
      var m := MatchInclude(line, "src/");
      if m.Some? then Include(m.value) else Text(line)
  }

  function HeaderFiles(tree: Tree): Files {
    map h | h in tree :: seq(|tree[h]|, i requires 0 <= i < |tree[h]| => ClassifyHeaderLine(tree[h][i]))
  }

  /** For gtest-all.cc, gtest.h is a file of one line: the include directive that is kept. */
  function SourceFiles(tree: Tree): Files {
    (map h | h in tree :: seq(|tree[h]|, i requires 0 <= i < |tree[h]| => ClassifySourceLine(tree[h][i])))
    [GTEST_H_SEED := [Text(GTEST_H_INCLUDE)]]
  }

  function TextOf(lines: seq<Emitted>): string {
    if lines == [] then "" else lines[0].text + TextOf(lines[1..])
  }

  lemma {:induction false} TextOfConcat(a: seq<Emitted>, b: seq<Emitted>)
    ensures TextOf(a + b) == TextOf(a) + TextOf(b)
  {
    if a == [] {
      assert a + b == b;
    } else {
      assert (a + b)[1..] == a[1..] + b;
      TextOfConcat(a[1..], b);
    }
  }

  /** The visit `v` with `lines` in front of what it emits. */
  function Prepended(lines: seq<Emitted>, v: Visit): Visit {
    if v.Ok? then Ok(Visited(v.value.processed, lines + v.value.lines)) else v
  }

  lemma PrependedStep(files: Files, path: string, i: nat, processed: set<string>, lines: seq<Emitted>)
    requires path in files && i < |files[path]|
    ensures var head := VisitLine(files, path, i, processed);
            Prepended(lines, VisitLines(files, path, i, processed)) ==
            if head.Err? then Err(head.error)
            else Prepended(lines + head.value.lines, VisitLines(files, path, i + 1, head.value.processed))
  {
    var head := VisitLine(files, path, i, processed);
    if head.Ok? {
      var tail := VisitLines(files, path, i + 1, head.value.processed);
      assert tail.Ok? ==> lines + (head.value.lines + tail.value.lines) == lines + head.value.lines + tail.value.lines;
    }
  }

  lemma NothingPrepended(v: Visit)
    ensures Prepended([], v) == v
  {
    assert v.Ok? ==> [] + v.value.lines == v.value.lines;
  }

  /** A call that started with the output `before` came out as the visit `v` says. */
  ghost predicate Did(v: Visit, r: Result<Unit, FuseError>, before: string, output: string, processed: set<string>) {
    match v
    case Ok(visited) => r.Ok? && processed == visited.processed && output == before + TextOf(visited.lines)
    case Err(e) => r == Err(e)
  }

  /** What has been emitted once the i-th line is done. */
  function WithLine(lines: seq<Emitted>, head: Visit): seq<Emitted> {
    if head.Ok? then lines + head.value.lines else lines
  }

  lemma DidStep(files: Files, path: string, i: nat, processed: set<string>, lines: seq<Emitted>, before: string,
                r: Result<Unit, FuseError>, output: string, after: set<string>)
    requires path in files && i < |files[path]|
    requires Did(VisitLine(files, path, i, processed), r, before + TextOf(lines), output, after)
    ensures var longer := WithLine(lines, VisitLine(files, path, i, processed));
            if r.Err? then Prepended(lines, VisitLines(files, path, i, processed)) == Err(r.error)
            else
              && processed <= after
              && output == before + TextOf(longer)
              && Prepended(lines, VisitLines(files, path, i, processed))
                 == Prepended(longer, VisitLines(files, path, i + 1, after))
  {
    PrependedStep(files, path, i, processed, lines);
    var head := VisitLine(files, path, i, processed);
    if head.Ok? {
      OutputOfConcat(before, lines, head.value.lines);
    }
  }

  lemma OutputOfConcat(before: string, a: seq<Emitted>, b: seq<Emitted>)
    ensures before + TextOf(a) + TextOf(b) == before + TextOf(a + b)
  {
    TextOfConcat(a, b);
  }

  lemma OneTextLine(files: Files, path: string, i: nat, processed: set<string>, before: string)
    requires path in files && i < |files[path]| && files[path][i].Text?
    ensures Did(VisitLine(files, path, i, processed), Ok(Unit), before, before + files[path][i].text, processed)
  {
    var e := Emitted(path, i, files[path][i].text);
    assert [e][1..] == [];
    assert TextOf([e]) == e.text + "";
  }

  /** The set of processed files and the output file that the nested ProcessFile works on. */
  class Fuser {
    var processed: set<string>
    var output: string

    constructor ()
      ensures processed == {} && output == ""
    {
      processed, output := {}, "";
    }

    /** ProcessFile of FuseGTestH. */
    method ProcessHeader(tree: Tree, path: string) returns (r: Result<Unit, FuseError>)
      modifies this
      ensures Did(VisitFile(HeaderFiles(tree), path, old(processed)), r, old(output), output, processed)
      decreases HeaderFiles(tree).Keys - processed
    {
      if path in processed {
        return Ok(Unit);
      }
      processed := processed + {path};
      if path !in tree {
        return Err(MissingFile(path));
      }
      ghost var files, visit, lines := HeaderFiles(tree), VisitLines(HeaderFiles(tree), path, 0, processed), [];
      NothingPrepended(visit);
      for i := 0 to |tree[path]|
        invariant old(processed) + {path} <= processed
        invariant output == old(output) + TextOf(lines)
        invariant visit == Prepended(lines, VisitLines(files, path, i, processed))
      {
        ghost var earlier := processed;
        var line := tree[path][i];
        var m := MatchInclude(line, "gtest/");
        var done: Result<Unit, FuseError> := Ok(Unit);
        if m.Some? {
          done := ProcessHeader(tree, "include/" + m.value);
        } else {
          OneTextLine(files, path, i, processed, output);
          output := output + line;
        }
        DidStep(files, path, i, earlier, lines, old(output), done, output, processed);
        lines := WithLine(lines, VisitLine(files, path, i, earlier));
        if done.Err? {
          return done;
        }
      }
      assert lines + [] == lines;
      return Ok(Unit);
    }

    /** ProcessFile of FuseGTestAllCcToFile. */
    method ProcessSource(tree: Tree, path: string) returns (r: Result<Unit, FuseError>)
      requires path != GTEST_H_SEED
      modifies this
      ensures Did(VisitFile(SourceFiles(tree), path, old(processed)), r, old(output), output, processed)
      decreases SourceFiles(tree).Keys - processed
    {
      if path in processed {
        return Ok(Unit);
      }
      processed := processed + {path};
      if path !in tree {
        return Err(MissingFile(path));
      }
      ghost var files, visit, lines := SourceFiles(tree), VisitLines(SourceFiles(tree), path, 0, processed), [];
      NothingPrepended(visit);
      for i := 0 to |tree[path]|
        invariant old(processed) + {path} <= processed
        invariant output == old(output) + TextOf(lines)
        invariant visit == Prepended(lines, VisitLines(files, path, i, processed))
      {
        ghost var earlier := processed;
        var line := tree[path][i];
        var m := MatchInclude(line, "gtest/");
        var done: Result<Unit, FuseError> := Ok(Unit);
        if m.Some? {
          if "include/" + m.value == GTEST_SPI_H_SEED {
            done := ProcessSource(tree, GTEST_SPI_H_SEED);
          } else {
            GtestHeaderLine(files, path, i, processed, output);
            if GTEST_H_SEED !in processed {
              processed := processed + {GTEST_H_SEED};
              output := output + GTEST_H_INCLUDE;
            }
          }
        } else {
          m := MatchInclude(line, "src/");
          if m.Some? {
            assert m.value[0] == 's';
            done := ProcessSource(tree, m.value);
          } else {
            OneTextLine(files, path, i, processed, output);
            output := output + line;
          }
        }
        DidStep(files, path, i, earlier, lines, old(output), done, output, processed);
        lines := WithLine(lines, VisitLine(files, path, i, earlier));
        if done.Err? {
          return done;
        }
      }
      assert lines + [] == lines;
      return Ok(Unit);
    }
  }

  /** Including gtest.h is visiting its one-line file: a line of output the first time, nothing
      later. */
  lemma GtestHeaderLine(files: Files, path: string, i: nat, processed: set<string>, before: string)
    requires path in files && i < |files[path]| && files[path][i] == Include(GTEST_H_SEED)
    requires GTEST_H_SEED in files && files[GTEST_H_SEED] == [Text(GTEST_H_INCLUDE)]
    ensures Did(VisitLine(files, path, i, processed), Ok(Unit), before,
                if GTEST_H_SEED in processed then before else before + GTEST_H_INCLUDE, processed + {GTEST_H_SEED})
  {
    if GTEST_H_SEED in processed {
      assert processed + {GTEST_H_SEED} == processed;
      assert before + "" == before;
    } else {
      OneTextLine(files, GTEST_H_SEED, 0, processed + {GTEST_H_SEED}, before);
      var head := VisitLine(files, GTEST_H_SEED, 0, processed + {GTEST_H_SEED}).value;
      assert VisitLines(files, GTEST_H_SEED, 1, head.processed) == Ok(Visited(head.processed, []));
      assert head.lines + [] == head.lines;
      assert VisitFile(files, GTEST_H_SEED, processed) == Ok(head);
    }
  }

  const GTEST_ALL_CC_SEED := "src/gtest-all.cc"

  /** What fusing from `seed` is for: the text of the one sequence of lines that is in order and complete,
      or a header that is needed and missing. */
  ghost predicate IsFusion(files: Files, seed: string, r: Result<string, FuseError>) {
    match r
    case Ok(text) =>
      && (exists lines :: IsFusedOutput(files, seed, lines))
      && (forall lines :: IsFusedOutput(files, seed, lines) ==> text == TextOf(lines))
      && (forall h :: Reaches(files, seed, h) ==> h in files)
    case Err(MissingFile(path)) => Reaches(files, seed, path) && path !in files
  }

  lemma VisitIsFusion(files: Files, seed: string, r: Result<string, FuseError>)
    requires match VisitFile(files, seed, {})
             case Ok(v) => r == Ok(TextOf(v.lines))
             case Err(e) => r == Err(e)
    ensures IsFusion(files, seed, r)
  {
    FusingSucceedsIff(files, seed);
    if r.Ok? {
      FusedOutputIff(files, seed, VisitFile(files, seed, {}).value.lines);
      forall lines | IsFusedOutput(files, seed, lines)
        ensures r.value == TextOf(lines)
      {
        FusedOutputIff(files, seed, lines);
      }
    } else {
      MissingFileIsReached(files, seed, {});
    }
  }

  /** The text of the fused header. */
  method FuseGTestH(tree: Tree) returns (r: Result<string, FuseError>)
    ensures IsFusion(HeaderFiles(tree), "include/gtest/gtest.h", r)
    ensures match VisitFile(HeaderFiles(tree), GTEST_H_SEED, {})
            case Ok(v) => r == Ok(TextOf(v.lines))
            case Err(e) => r == Err(e)
  {
    var fuser := new Fuser();
    var done := fuser.ProcessHeader(tree, GTEST_H_SEED);
    if done.Err? {
      r := Err(done.error);
    } else {
      ghost var v := VisitFile(HeaderFiles(tree), GTEST_H_SEED, {}).value;
      assert "" + TextOf(v.lines) == TextOf(v.lines);
      r := Ok(fuser.output);
    }
    VisitIsFusion(HeaderFiles(tree), GTEST_H_SEED, r);
  }

  /** The text of the fused source file. */
  method FuseGTestAllCc(tree: Tree) returns (r: Result<string, FuseError>)
    ensures IsFusion(SourceFiles(tree), "src/gtest-all.cc", r)
    ensures match VisitFile(SourceFiles(tree), GTEST_ALL_CC_SEED, {})
            case Ok(v) => r == Ok(TextOf(v.lines))
            case Err(e) => r == Err(e)
  {
    var fuser := new Fuser();
    var done := fuser.ProcessSource(tree, GTEST_ALL_CC_SEED);
    if done.Err? {
      r := Err(done.error);
    } else {
      ghost var v := VisitFile(SourceFiles(tree), GTEST_ALL_CC_SEED, {}).value;
      assert "" + TextOf(v.lines) == TextOf(v.lines);
      r := Ok(fuser.output);
    }
    VisitIsFusion(SourceFiles(tree), GTEST_ALL_CC_SEED, r);
  }

  /** The fused source file includes gtest.h once if any of its parts includes a Google Test header
      other than gtest-spi.h, directly or not, and otherwise not at all. */
  lemma GtestHeaderIsIncludedOnce(tree: Tree, seed: string)
    requires VisitFile(SourceFiles(tree), seed, {}).Ok?
    ensures var files, lines := SourceFiles(tree), VisitFile(SourceFiles(tree), seed, {}).value.lines;
            && (IsEmitted(lines, GTEST_H_SEED, 0) <==> Reaches(files, seed, GTEST_H_SEED))
            && (forall a, b | 0 <= a < |lines| && 0 <= b < |lines| ::
                  lines[a].header == lines[b].header == GTEST_H_SEED ==> a == b)
  {
    FusedOutput(SourceFiles(tree), seed);
    var lines := VisitFile(SourceFiles(tree), seed, {}).value.lines;
    assert IsTextLine(SourceFiles(tree), GTEST_H_SEED, 0);
    forall a | 0 <= a < |lines| && lines[a].header == GTEST_H_SEED
      ensures lines[a].index == 0
    {
      assert IsTextLine(SourceFiles(tree), lines[a].header, lines[a].index);
    }
  }
}
