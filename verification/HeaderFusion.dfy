/** The traversal of include graphs, possibly cyclic ones, behind fuse_gtest_files.py: which lines
    come out, how often, and in which order. */
module HeaderFusion {
  import opened Wrappers

  /** A line of a header as the fusing script sees it. */
  datatype Line = Include(path: string) | Text(text: string)

  type Files = map<string, seq<Line>>

  /** An output line, with the place it comes from. */
  datatype Emitted = Emitted(header: string, index: nat, text: string)

  datatype FuseError = MissingFile(path: string)

  datatype Visited = Visited(processed: set<string>, lines: seq<Emitted>)

  type Visit = Result<Visited, FuseError>

  // ----- The traversal --------------------------------------------------------------------------

  /** Depth first: a header is expanded where it is included first. */
  function VisitFile(files: Files, path: string, processed: set<string>): (r: Visit)
    ensures r.Ok? ==> processed <= r.value.processed
    decreases files.Keys - processed, 0, 0
  {
    if path in processed then Ok(Visited(processed, []))
    else if path !in files then Err(MissingFile(path))
    else VisitLines(files, path, 0, processed + {path})
  }

  /** The lines of `path` from the i-th on. */
  function VisitLines(files: Files, path: string, i: nat, processed: set<string>): (r: Visit)
    requires path in files && i <= |files[path]|
    ensures r.Ok? ==> processed <= r.value.processed
    decreases files.Keys - processed, 1, |files[path]| - i
  {
    if i == |files[path]| then Ok(Visited(processed, []))
    else
      var head :- VisitLine(files, path, i, processed);
      var tail :- VisitLines(files, path, i + 1, head.processed);
      Ok(Visited(tail.processed, head.lines + tail.lines))
  }

  function VisitLine(files: Files, path: string, i: nat, processed: set<string>): (r: Visit)
    requires path in files && i < |files[path]|
    ensures r.Ok? ==> processed <= r.value.processed
    decreases files.Keys - processed, 0, 1
  {
    match files[path][i]
    case Text(text) => Ok(Visited(processed, [Emitted(path, i, text)]))
    case Include(included) => VisitFile(files, included, processed)
  }

  // ----- Reachability -----------------------------------------------------------------------------

  predicate Includes(files: Files, h: string, g: string) {
    h in files && Include(g) in files[h]
  }

  ghost predicate IsChain(files: Files, chain: seq<string>) {
    chain != [] && forall k :: 0 <= k < |chain| - 1 ==> Includes(files, chain[k], chain[k + 1])
  }

  ghost predicate Reaches(files: Files, h: string, g: string) {
    exists chain :: IsChain(files, chain) && chain[0] == h && chain[|chain| - 1] == g
  }

  lemma ReachesItself(files: Files, h: string)
    ensures Reaches(files, h, h)
  {
    assert IsChain(files, [h]);
  }

  lemma ReachesThroughInclude(files: Files, h: string, g: string, x: string)
    requires Includes(files, h, g) && Reaches(files, g, x)
    ensures Reaches(files, h, x)
  {
    var chain :| IsChain(files, chain) && chain[0] == g && chain[|chain| - 1] == x;
    var longer := [h] + chain;
    assert longer[|longer| - 1] == x;
    assert IsChain(files, longer);
  }

  // ----- What a visit does ---------------------------------------------------------------------------

  predicate IsTextLine(files: Files, h: string, i: nat) {
    h in files && i < |files[h]| && files[h][i].Text?
  }

  /** The j-th line of `h` is one of those that a visit expands: in a new header, or in the range
      [lo, hi) of the header that is being read. */
  predicate InScope(h: string, j: nat, added: set<string>, own: string, lo: nat, hi: nat) {
    h in added || (h == own && lo <= j < hi)
  }

  ghost predicate IsEmitted(lines: seq<Emitted>, h: string, j: nat) {
    exists a :: 0 <= a < |lines| && lines[a].header == h && lines[a].index == j
  }

  /** Exactly the text lines in scope are emitted, with their texts. */
  ghost predicate EmitsScope(files: Files, lines: seq<Emitted>, added: set<string>, own: string, lo: nat, hi: nat) {
    && (forall a :: 0 <= a < |lines| ==> IsInScope(files, lines[a], added, own, lo, hi))
    && (forall h, j :: IsTextLine(files, h, j) && InScope(h, j, added, own, lo, hi) ==> IsEmitted(lines, h, j))
  }

  predicate IsInScope(files: Files, e: Emitted, added: set<string>, own: string, lo: nat, hi: nat) {
    && IsTextLine(files, e.header, e.index) && files[e.header][e.index] == Text(e.text)
    && InScope(e.header, e.index, added, own, lo, hi)
  }

  /** The lines of one header keep their order; in particular none is emitted twice. */
  ghost predicate KeepsOrder(lines: seq<Emitted>) {
    forall a, b :: 0 <= a < b < |lines| && lines[a].header == lines[b].header ==> lines[a].index < lines[b].index
  }

  /** The k-th line of the header of `early`, in front of `early`, includes the header of `late`,
      which does not in turn include that of `early`, through whatever chain. */
  ghost predicate IncludedTooLate(files: Files, early: Emitted, late: Emitted, k: nat) {
    && early.header in files && k < early.index < |files[early.header]|
    && files[early.header][k] == Include(late.header)
    && !Reaches(files, late.header, early.header)
  }

  /** What a header includes is emitted before the lines behind the include. */
  ghost predicate IncludesComeFirst(files: Files, lines: seq<Emitted>) {
    forall a, b, k :: 0 <= a < b < |lines| ==> !IncludedTooLate(files, lines[a], lines[b], k)
  }

  ghost predicate IncludesProcessed(files: Files, h: string, hi: nat, processed: set<string>)
    requires h in files && hi <= |files[h]|
  {
    forall k :: 0 <= k < hi && files[h][k].Include? ==> files[h][k].path in processed
  }

  ghost predicate AllProcessed(files: Files, headers: set<string>, processed: set<string>) {
    forall h :: h in headers ==> h in files && IncludesProcessed(files, h, |files[h]|, processed)
  }

  /** The visit took `before` to `after` and emitted `lines`: the text lines of the new headers and
      of the lines [lo, hi) of `own`. Every new header is reachable from `own`, and everything it
      includes has been processed. */
  ghost predicate VisitSpec(files: Files, own: string, lo: nat, hi: nat, before: set<string>, v: Visited) {
    var added := v.processed - before;
    && before <= v.processed
    && AllProcessed(files, added, v.processed)
    && (forall h :: h in added ==> Reaches(files, own, h))
    && EmitsScope(files, v.lines, added, own, lo, hi)
    && KeepsOrder(v.lines)
    && IncludesComeFirst(files, v.lines)
  }

  // ----- Proof that visits do that ---------------------------------------------------------------------

  lemma {:induction false} FileIsVisited(files: Files, path: string, processed: set<string>)
    requires VisitFile(files, path, processed).Ok?
    ensures VisitSpec(files, path, 0, 0, processed, VisitFile(files, path, processed).value)
    ensures path in VisitFile(files, path, processed).value.processed
    decreases files.Keys - processed, 0, 0
  {
    if path !in processed {
      LinesAreVisited(files, path, 0, processed + {path});
      OwnLinesBecomeFresh(files, path, processed, VisitFile(files, path, processed).value);
    }
  }

  lemma {:induction false} LinesAreVisited(files: Files, path: string, i: nat, processed: set<string>)
    requires path in files && i <= |files[path]| && path in processed && IncludesProcessed(files, path, i, processed)
    requires VisitLines(files, path, i, processed).Ok?
    ensures var v := VisitLines(files, path, i, processed).value;
            && VisitSpec(files, path, i, |files[path]|, processed, v)
            && IncludesProcessed(files, path, |files[path]|, v.processed)
    decreases files.Keys - processed, 1, |files[path]| - i
  {
    if i < |files[path]| {
      var head := VisitLine(files, path, i, processed).value;
      var tail := VisitLines(files, path, i + 1, head.processed).value;
      LineIsVisited(files, path, i, processed);
      LinesAreVisited(files, path, i + 1, head.processed);
      VisitsCompose(files, path, i, processed, head, tail);
    }
  }

  lemma {:induction false} LineIsVisited(files: Files, path: string, i: nat, processed: set<string>)
    requires path in files && i < |files[path]| && path in processed && IncludesProcessed(files, path, i, processed)
    requires VisitLine(files, path, i, processed).Ok?
    ensures var v := VisitLine(files, path, i, processed).value;
            VisitSpec(files, path, i, i + 1, processed, v) && IncludesProcessed(files, path, i + 1, v.processed)
    decreases files.Keys - processed, 0, 1
  {
    var v := VisitLine(files, path, i, processed).value;
    if files[path][i].Include? {
      var included := files[path][i].path;
      FileIsVisited(files, included, processed);
      forall h | h in v.processed - processed
        ensures Reaches(files, path, h)
      {
        ReachesThroughInclude(files, path, included, h);
      }
    } else {
      assert IsEmitted(v.lines, path, i) by { assert v.lines[0].header == path; }
    }
  }

  /** When all lines of a header have been read, it is one of the new headers. */
  lemma OwnLinesBecomeFresh(files: Files, path: string, before: set<string>, v: Visited)
    requires path in files && path !in before
    requires VisitSpec(files, path, 0, |files[path]|, before + {path}, v)
    requires IncludesProcessed(files, path, |files[path]|, v.processed)
    ensures VisitSpec(files, path, 0, 0, before, v)
  {
    var added := v.processed - before;
    assert added == (v.processed - (before + {path})) + {path};
    ReachesItself(files, path);
  }

  lemma VisitsCompose(files: Files, path: string, i: nat, before: set<string>, head: Visited, tail: Visited)
    requires path in files && i < |files[path]| && path in before && IncludesProcessed(files, path, i, before)
    requires VisitSpec(files, path, i, i + 1, before, head)
    requires VisitSpec(files, path, i + 1, |files[path]|, head.processed, tail)
    ensures VisitSpec(files, path, i, |files[path]|, before, Visited(tail.processed, head.lines + tail.lines))
  {
    var lines := head.lines + tail.lines;
    var n := |files[path]|;
    var added := tail.processed - before;
    assert added == (head.processed - before) + (tail.processed - head.processed);
    ScopesCompose(files, path, i, before, head, tail);
    forall a, b | 0 <= a < b < |lines|
      ensures lines[a].header == lines[b].header ==> lines[a].index < lines[b].index
      ensures forall k :: !IncludedTooLate(files, lines[a], lines[b], k)
    {
      if b < |head.lines| {
      } else if a >= |head.lines| {
        assert lines[a] == tail.lines[a - |head.lines|];
        assert lines[b] == tail.lines[b - |head.lines|];
      } else {
        HeadBeforeTail(files, path, i, before, head, tail, a, b - |head.lines|);
      }
    }
  }

  lemma ScopesCompose(files: Files, path: string, i: nat, before: set<string>, head: Visited, tail: Visited)
    requires path in files && i < |files[path]|
    requires before <= head.processed <= tail.processed
    requires EmitsScope(files, head.lines, head.processed - before, path, i, i + 1)
    requires EmitsScope(files, tail.lines, tail.processed - head.processed, path, i + 1, |files[path]|)
    ensures EmitsScope(files, head.lines + tail.lines, tail.processed - before, path, i, |files[path]|)
  {
    var lines := head.lines + tail.lines;
    forall h, j | IsTextLine(files, h, j) && InScope(h, j, tail.processed - before, path, i, |files[path]|)
      ensures IsEmitted(lines, h, j)
    {
      if InScope(h, j, head.processed - before, path, i, i + 1) {
        var a :| 0 <= a < |head.lines| && head.lines[a].header == h && head.lines[a].index == j;
        assert lines[a] == head.lines[a];
      } else {
        var a :| 0 <= a < |tail.lines| && tail.lines[a].header == h && tail.lines[a].index == j;
        assert lines[|head.lines| + a] == tail.lines[a];
      }
    }
  }

  lemma HeadBeforeTail(files: Files, path: string, i: nat, before: set<string>, head: Visited, tail: Visited, a: nat,
                       b: nat)
    requires path in files && i < |files[path]| && path in before && IncludesProcessed(files, path, i, before)
    requires VisitSpec(files, path, i, i + 1, before, head)
    requires VisitSpec(files, path, i + 1, |files[path]|, head.processed, tail)
    requires a < |head.lines| && b < |tail.lines|
    ensures head.lines[a].header == tail.lines[b].header ==> head.lines[a].index < tail.lines[b].index
    ensures forall k :: !IncludedTooLate(files, head.lines[a], tail.lines[b], k)
  {
    var early, late := head.lines[a], tail.lines[b];
    assert IsInScope(files, early, head.processed - before, path, i, i + 1);
    assert IsInScope(files, late, tail.processed - head.processed, path, i + 1, |files[path]|);
    ReachesItself(files, path);
  }

  // ----- What comes out ----------------------------------------------------------------------------------

  lemma {:induction false} ClosedUnderReaching(files: Files, headers: set<string>, chain: seq<string>)
    requires AllProcessed(files, headers, headers) && IsChain(files, chain) && chain[0] in headers
    ensures chain[|chain| - 1] in headers
    decreases |chain|
  {
    if |chain| > 1 {
      assert Includes(files, chain[0], chain[1]);
      var k :| 0 <= k < |files[chain[0]]| && files[chain[0]][k] == Include(chain[1]);
      assert files[chain[0]][k].path in headers;
      ClosedUnderReaching(files, headers, chain[1..]);
    }
  }

  /** Fusing expands exactly the headers that the seed reaches, each once: the output consists of
      their text lines, every header's in order and none twice. An included header comes out before
      what follows the include, unless it includes the including one in turn. */
  lemma FusedOutput(files: Files, seed: string)
    requires VisitFile(files, seed, {}).Ok?
    ensures var v := VisitFile(files, seed, {}).value;
            && (forall h :: h in v.processed <==> Reaches(files, seed, h))
            && (forall a :: 0 <= a < |v.lines| ==>
                  Reaches(files, seed, v.lines[a].header) && IsTextLine(files, v.lines[a].header, v.lines[a].index)
                  && files[v.lines[a].header][v.lines[a].index] == Text(v.lines[a].text))
            && (forall h, j :: Reaches(files, seed, h) && IsTextLine(files, h, j) ==> IsEmitted(v.lines, h, j))
            && KeepsOrder(v.lines)
            && IncludesComeFirst(files, v.lines)
  {
    FileIsVisited(files, seed, {});
    var v := VisitFile(files, seed, {}).value;
    assert v.processed - {} == v.processed;
    forall h
      ensures h in v.processed <==> Reaches(files, seed, h)
    {
      if Reaches(files, seed, h) {
        var chain :| IsChain(files, chain) && chain[0] == seed && chain[|chain| - 1] == h;
        ClosedUnderReaching(files, v.processed, chain);
      }
    }
    forall a | 0 <= a < |v.lines|
      ensures IsInScope(files, v.lines[a], v.processed, seed, 0, 0)
    {
    }
    forall h, j | Reaches(files, seed, h) && IsTextLine(files, h, j)
      ensures IsEmitted(v.lines, h, j)
    {
      assert InScope(h, j, v.processed, seed, 0, 0);
    }
  }

  lemma {:induction false} MissingFileIsReached(files: Files, path: string, processed: set<string>)
    requires VisitFile(files, path, processed).Err?
    ensures var missing := VisitFile(files, path, processed).error.path;
            Reaches(files, path, missing) && missing !in files
    decreases files.Keys - processed, 0, 0
  {
    if path in files {
      MissingFileIsReachedFromLine(files, path, 0, processed + {path});
    } else {
      ReachesItself(files, path);
    }
  }

  lemma {:induction false} MissingFileIsReachedFromLine(files: Files, path: string, i: nat, processed: set<string>)
    requires path in files && i <= |files[path]| && VisitLines(files, path, i, processed).Err?
    ensures var missing := VisitLines(files, path, i, processed).error.path;
            Reaches(files, path, missing) && missing !in files
    decreases files.Keys - processed, 1, |files[path]| - i
  {
    var head := VisitLine(files, path, i, processed);
    if head.Err? {
      var included := files[path][i].path;
      MissingFileIsReached(files, included, processed);
      ReachesThroughInclude(files, path, included, head.error.path);
    } else {
      MissingFileIsReachedFromLine(files, path, i + 1, head.value.processed);
    }
  }

  /** Fusing comes to an end on every include graph, and it fails exactly when a header that the
      seed reaches is missing. */
  lemma FusingSucceedsIff(files: Files, seed: string)
    ensures VisitFile(files, seed, {}).Ok? <==> forall h :: Reaches(files, seed, h) ==> h in files
  {
    if VisitFile(files, seed, {}).Ok? {
      FusedOutput(files, seed);
      FileIsVisited(files, seed, {});
      var v := VisitFile(files, seed, {}).value;
      forall h | Reaches(files, seed, h)
        ensures h in files
      {
        assert h in v.processed - {};
      }
    } else {
      MissingFileIsReached(files, seed, {});
    }
  }
}
