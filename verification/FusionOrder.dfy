/** The order of the fused output, said without the traversal: every header has a first route from the
    seed, the least of its include chains when chains are compared include by include, and the lines
    come out in the order of these routes. That leaves one output only. */
module FusionOrder {
  import opened HeaderFusion
  import opened Wrappers

  // ----- The order of sequences of numbers -----------------------------------------------------------

  predicate Less(a: seq<nat>, b: seq<nat>) {
    b != [] && (a == [] || a[0] < b[0] || (a[0] == b[0] && Less(a[1..], b[1..])))
  }

  lemma {:induction false} LessIsTotal(a: seq<nat>, b: seq<nat>)
    ensures a == b || Less(a, b) || Less(b, a)
  {
    if a != [] && b != [] {
      LessIsTotal(a[1..], b[1..]);
      assert a == [a[0]] + a[1..] && b == [b[0]] + b[1..];
    }
  }

  lemma {:induction false} LessIsAsymmetric(a: seq<nat>, b: seq<nat>)
    requires Less(a, b)
    ensures !Less(b, a) && a != b
  {
    if a != [] && a[0] == b[0] {
      LessIsAsymmetric(a[1..], b[1..]);
    }
  }

  lemma {:induction false} LessIsTransitive(a: seq<nat>, b: seq<nat>, c: seq<nat>)
    requires Less(a, b) && Less(b, c)
    ensures Less(a, c)
  {
    if a != [] && a[0] == b[0] == c[0] {
      LessIsTransitive(a[1..], b[1..], c[1..]);
    }
  }

  lemma LessBehind(k: nat, a: seq<nat>, b: seq<nat>)
    ensures Less([k] + a, [k] + b) <==> Less(a, b)
  {
    assert ([k] + a)[1..] == a && ([k] + b)[1..] == b;
  }

  // ----- Routes ---------------------------------------------------------------------------------------

  predicate IsInclude(files: Files, h: string, k: nat) {
    h in files && k < |files[h]| && files[h][k].Include?
  }

  /** The include lines `route`, followed from `h`, lead to `g`, through no header twice and through
      none of `avoid`. */
  predicate IsRoute(files: Files, h: string, route: seq<nat>, g: string, avoid: set<string>)
    decreases |route|
  {
    && h !in avoid
    && if route == [] then h == g
       else IsInclude(files, h, route[0]) && IsRoute(files, files[h][route[0]].path, route[1..], g, avoid + {h})
  }

  /** No other route is smaller: at every header it takes the first include that leads on to `g`. */
  ghost predicate IsFirstRoute(files: Files, h: string, route: seq<nat>, g: string, avoid: set<string>) {
    IsRoute(files, h, route, g, avoid) && forall other :: IsRoute(files, h, other, g, avoid) ==> !Less(other, route)
  }

  lemma FirstRouteIsUnique(files: Files, h: string, a: seq<nat>, b: seq<nat>, g: string, avoid: set<string>)
    requires IsFirstRoute(files, h, a, g, avoid) && IsFirstRoute(files, h, b, g, avoid)
    ensures a == b
  {
    LessIsTotal(a, b);
  }

  lemma {:induction false} EndIsNotAvoided(files: Files, h: string, route: seq<nat>, g: string, avoid: set<string>)
    requires IsRoute(files, h, route, g, avoid)
    ensures g !in avoid
    decreases |route|
  {
    if route != [] {
      EndIsNotAvoided(files, files[h][route[0]].path, route[1..], g, avoid + {h});
    }
  }

  lemma {:induction false} AvoidsLess(files: Files, h: string, route: seq<nat>, g: string, avoid: set<string>,
                                      less: set<string>)
    requires IsRoute(files, h, route, g, avoid) && less <= avoid
    ensures IsRoute(files, h, route, g, less)
    decreases |route|
  {
    if route != [] {
      AvoidsLess(files, files[h][route[0]].path, route[1..], g, avoid + {h}, less + {h});
    }
  }

  /** What the headers of `processed` include is processed, up to those of `open`, which are still being
      read. */
  ghost predicate IsClosed(files: Files, processed: set<string>, open: set<string>) {
    AllProcessed(files, processed - open, processed)
  }

  /** A route that enters what has been processed does not leave it again. */
  lemma {:induction false} StaysProcessed(files: Files, h: string, route: seq<nat>, g: string, open: set<string>,
                                          processed: set<string>)
    requires IsRoute(files, h, route, g, open) && IsClosed(files, processed, open) && h in processed
    ensures g in processed
    decreases |route|
  {
    if route != [] {
      assert h in processed - open;
      StaysProcessed(files, files[h][route[0]].path, route[1..], g, open + {h}, processed);
    }
  }

  /** So a route to a new header passes only new headers. */
  lemma {:induction false} AvoidsProcessed(files: Files, h: string, route: seq<nat>, g: string, open: set<string>,
                                           processed: set<string>)
    requires IsRoute(files, h, route, g, open) && IsClosed(files, processed, open) && g !in processed
    ensures IsRoute(files, h, route, g, processed)
    decreases |route|
  {
    if h in processed {
      StaysProcessed(files, h, route, g, open, processed);
    }
    if route != [] {
      EndIsNotAvoided(files, files[h][route[0]].path, route[1..], g, open + {h});
      AvoidsProcessed(files, files[h][route[0]].path, route[1..], g, open + {h}, processed + {h});
    }
  }

  // ----- The keys of the lines ---------------------------------------------------------------------------

  function Behind(k: nat, keys: seq<seq<nat>>): (r: seq<seq<nat>>)
    ensures |r| == |keys| && forall a :: 0 <= a < |keys| ==> r[a] == [k] + keys[a]
  {
    seq(|keys|, a requires 0 <= a < |keys| => [k] + keys[a])
  }

  /** For every line of a visit the include lines through which it was reached, and its own index. */
  function FileKeys(files: Files, path: string, processed: set<string>): (keys: seq<seq<nat>>)
    requires VisitFile(files, path, processed).Ok?
    ensures |keys| == |VisitFile(files, path, processed).value.lines|
    decreases files.Keys - processed, 0, 0
  {
    if path in processed then [] else LineKeys(files, path, 0, processed + {path})
  }

  function LineKeys(files: Files, path: string, i: nat, processed: set<string>): (keys: seq<seq<nat>>)
    requires path in files && i <= |files[path]| && VisitLines(files, path, i, processed).Ok?
    ensures |keys| == |VisitLines(files, path, i, processed).value.lines|
    decreases files.Keys - processed, 1, |files[path]| - i
  {
    if i == |files[path]| then []
    else
      LineKey(files, path, i, processed)
      + LineKeys(files, path, i + 1, VisitLine(files, path, i, processed).value.processed)
  }

  function LineKey(files: Files, path: string, i: nat, processed: set<string>): (keys: seq<seq<nat>>)
    requires path in files && i < |files[path]| && VisitLine(files, path, i, processed).Ok?
    ensures |keys| == |VisitLine(files, path, i, processed).value.lines|
    decreases files.Keys - processed, 0, 1
  {
    match files[path][i]
    case Text(_) => [[i]]
    case Include(included) => Behind(i, FileKeys(files, included, processed))
  }

  ghost predicate Increase(keys: seq<seq<nat>>) {
    forall a, b :: 0 <= a < b < |keys| ==> Less(keys[a], keys[b])
  }

  predicate BeginAt(keys: seq<seq<nat>>, lo: nat) {
    forall a :: 0 <= a < |keys| ==> keys[a] != [] && keys[a][0] >= lo
  }

  lemma {:induction false} FileKeysIncrease(files: Files, path: string, processed: set<string>)
    requires VisitFile(files, path, processed).Ok?
    ensures Increase(FileKeys(files, path, processed))
    decreases files.Keys - processed, 0, 0
  {
    if path !in processed {
      LineKeysIncrease(files, path, 0, processed + {path});
    }
  }

  lemma {:induction false} LineKeysIncrease(files: Files, path: string, i: nat, processed: set<string>)
    requires path in files && i <= |files[path]| && VisitLines(files, path, i, processed).Ok?
    ensures Increase(LineKeys(files, path, i, processed)) && BeginAt(LineKeys(files, path, i, processed), i)
    decreases files.Keys - processed, 1, |files[path]| - i
  {
    if i < |files[path]| {
      LineKeyIncreases(files, path, i, processed);
      LineKeysIncrease(files, path, i + 1, VisitLine(files, path, i, processed).value.processed);
    }
  }

  lemma {:induction false} LineKeyIncreases(files: Files, path: string, i: nat, processed: set<string>)
    requires path in files && i < |files[path]| && VisitLine(files, path, i, processed).Ok?
    ensures var keys := LineKey(files, path, i, processed);
            Increase(keys) && forall a :: 0 <= a < |keys| ==> keys[a] != [] && keys[a][0] == i
    decreases files.Keys - processed, 0, 1
  {
    if files[path][i].Include? {
      var keys := FileKeys(files, files[path][i].path, processed);
      FileKeysIncrease(files, files[path][i].path, processed);
      forall a, b | 0 <= a < b < |keys|
        ensures Less([i] + keys[a], [i] + keys[b])
      {
        LessBehind(i, keys[a], keys[b]);
      }
    }
  }

  // ----- The keys are first routes -------------------------------------------------------------------------

  /** The key is the first route to the header of the line, and the line's own index. */
  ghost predicate KeyFits(files: Files, start: string, avoid: set<string>, e: Emitted, key: seq<nat>) {
    exists route :: IsFirstRoute(files, start, route, e.header, avoid) && key == route + [e.index]
  }

  ghost predicate KeysFit(files: Files, start: string, avoid: set<string>, lines: seq<Emitted>, keys: seq<seq<nat>>) {
    |keys| == |lines| && forall a :: 0 <= a < |lines| ==> KeyFits(files, start, avoid, lines[a], keys[a])
  }

  lemma OtherRouteIsNoLess(files: Files, path: string, i: nat, route: seq<nat>, h: string, before: set<string>,
                           processed: set<string>, other: seq<nat>)
    requires IsInclude(files, path, i) && path !in before && before + {path} <= processed
    requires IsClosed(files, processed, before + {path}) && IncludesProcessed(files, path, i, processed)
    requires IsFirstRoute(files, files[path][i].path, route, h, processed)
    requires IsRoute(files, path, other, h, before)
    ensures !Less(other, [i] + route)
  {
    EndIsNotAvoided(files, files[path][i].path, route, h, processed);
    var m, onward := other[0], other[1..];
    if m < i {
      StaysProcessed(files, files[path][m].path, onward, h, before + {path}, processed);
    } else if m == i {
      AvoidsProcessed(files, files[path][m].path, onward, h, before + {path}, processed);
      assert !Less(onward, route);
    }
    assert ([i] + route)[1..] == route;
  }

  lemma RouteThroughInclude(files: Files, path: string, i: nat, route: seq<nat>, h: string, before: set<string>,
                            processed: set<string>)
    requires IsInclude(files, path, i) && path !in before && before + {path} <= processed
    requires IsClosed(files, processed, before + {path}) && IncludesProcessed(files, path, i, processed)
    requires IsFirstRoute(files, files[path][i].path, route, h, processed)
    ensures IsFirstRoute(files, path, [i] + route, h, before)
  {
    AvoidsLess(files, files[path][i].path, route, h, processed, before + {path});
    assert ([i] + route)[1..] == route;
    forall other | IsRoute(files, path, other, h, before)
      ensures !Less(other, [i] + route)
    {
      OtherRouteIsNoLess(files, path, i, route, h, before, processed, other);
    }
  }

  lemma {:induction false} FileKeysFit(files: Files, path: string, processed: set<string>)
    requires VisitFile(files, path, processed).Ok?
    ensures var lines := VisitFile(files, path, processed).value.lines;
            KeysFit(files, path, processed, lines, FileKeys(files, path, processed))
    decreases files.Keys - processed, 0, 0
  {
    if path !in processed {
      LineKeysFit(files, path, 0, processed, processed + {path});
    }
  }

  lemma {:induction false} LineKeysFit(files: Files, path: string, i: nat, before: set<string>, processed: set<string>)
    requires path in files && i <= |files[path]| && VisitLines(files, path, i, processed).Ok?
    requires path !in before && before + {path} <= processed
    requires IsClosed(files, processed, before + {path}) && IncludesProcessed(files, path, i, processed)
    ensures KeysFit(files, path, before, VisitLines(files, path, i, processed).value.lines,
                    LineKeys(files, path, i, processed))
    decreases files.Keys - processed, 1, |files[path]| - i
  {
    if i < |files[path]| {
      var head := VisitLine(files, path, i, processed).value;
      LineKeyFits(files, path, i, before, processed);
      LineIsVisited(files, path, i, processed);
      StaysClosed(files, processed, head.processed, before + {path});
      LineKeysFit(files, path, i + 1, before, head.processed);
    }
  }

  lemma StaysClosed(files: Files, processed: set<string>, after: set<string>, open: set<string>)
    requires IsClosed(files, processed, open) && processed <= after && AllProcessed(files, after - processed, after)
    ensures IsClosed(files, after, open)
  {
    assert after - open <= (processed - open) + (after - processed);
  }

  lemma {:induction false} LineKeyFits(files: Files, path: string, i: nat, before: set<string>, processed: set<string>)
    requires path in files && i < |files[path]| && VisitLine(files, path, i, processed).Ok?
    requires path !in before && before + {path} <= processed
    requires IsClosed(files, processed, before + {path}) && IncludesProcessed(files, path, i, processed)
    ensures KeysFit(files, path, before, VisitLine(files, path, i, processed).value.lines,
                    LineKey(files, path, i, processed))
    decreases files.Keys - processed, 0, 1
  {
    var lines, keys := VisitLine(files, path, i, processed).value.lines, LineKey(files, path, i, processed);
    if files[path][i].Include? {
      var included := files[path][i].path;
      FileKeysFit(files, included, processed);
      var inner := FileKeys(files, included, processed);
      forall a | 0 <= a < |lines|
        ensures KeyFits(files, path, before, lines[a], keys[a])
      {
        assert KeyFits(files, included, processed, lines[a], inner[a]);
        var route :| IsFirstRoute(files, included, route, lines[a].header, processed)
                     && inner[a] == route + [lines[a].index];
        RouteThroughInclude(files, path, i, route, lines[a].header, before, processed);
        assert [i] + (route + [lines[a].index]) == ([i] + route) + [lines[a].index];
      }
    } else {
      assert IsFirstRoute(files, path, [], path, before);
      assert keys[0] == [] + [i];
    }
  }

  // ----- The output ---------------------------------------------------------------------------------------------

  /** Some first routes put line `e` in front of line `f`. */
  ghost predicate ComesBefore(files: Files, seed: string, e: Emitted, f: Emitted) {
    exists r, q ::
      && IsFirstRoute(files, seed, r, e.header, {}) && IsFirstRoute(files, seed, q, f.header, {})
      && Less(r + [e.index], q + [f.index])
  }

  ghost predicate IsInVisitOrder(files: Files, seed: string, lines: seq<Emitted>) {
    forall a, b :: 0 <= a < b < |lines| ==> ComesBefore(files, seed, lines[a], lines[b])
  }

  /** A line of the fused output: a text line of a header that the seed reaches. */
  ghost predicate IsOutputLine(files: Files, seed: string, e: Emitted) {
    && Reaches(files, seed, e.header) && IsTextLine(files, e.header, e.index)
    && files[e.header][e.index] == Text(e.text)
  }

  /** All lines of the output, in the order of the first routes from the seed. */
  ghost predicate IsFusedOutput(files: Files, seed: string, lines: seq<Emitted>) {
    && (forall a :: 0 <= a < |lines| ==> IsOutputLine(files, seed, lines[a]))
    && (forall e :: IsOutputLine(files, seed, e) ==> e in lines)
    && IsInVisitOrder(files, seed, lines)
  }

  lemma ComesBeforeIsAsymmetric(files: Files, seed: string, e: Emitted, f: Emitted)
    requires ComesBefore(files, seed, e, f)
    ensures !ComesBefore(files, seed, f, e) && e != f
  {
    var r, q :| IsFirstRoute(files, seed, r, e.header, {}) && IsFirstRoute(files, seed, q, f.header, {})
                && Less(r + [e.index], q + [f.index]);
    LessIsAsymmetric(r + [e.index], q + [f.index]);
    forall r', q' | IsFirstRoute(files, seed, r', e.header, {}) && IsFirstRoute(files, seed, q', f.header, {})
      ensures r' == r && q' == q
    {
      FirstRouteIsUnique(files, seed, r, r', e.header, {});
      FirstRouteIsUnique(files, seed, q, q', f.header, {});
    }
  }

  lemma VisitIsInOrder(files: Files, seed: string)
    requires VisitFile(files, seed, {}).Ok?
    ensures IsInVisitOrder(files, seed, VisitFile(files, seed, {}).value.lines)
  {
    var lines, keys := VisitFile(files, seed, {}).value.lines, FileKeys(files, seed, {});
    FileKeysFit(files, seed, {});
    FileKeysIncrease(files, seed, {});
    forall a, b | 0 <= a < b < |lines|
      ensures ComesBefore(files, seed, lines[a], lines[b])
    {
      assert KeyFits(files, seed, {}, lines[a], keys[a]) && KeyFits(files, seed, {}, lines[b], keys[b]);
    }
  }

  /** Two arrangements of the same lines in visit order are the same. */
  lemma {:induction false} OrderIsUnique(files: Files, seed: string, a: seq<Emitted>, b: seq<Emitted>)
    requires IsInVisitOrder(files, seed, a) && IsInVisitOrder(files, seed, b) && forall e :: e in a <==> e in b
    ensures a == b
  {
    assert |a| > 0 <==> |b| > 0 by {
      assert |a| > 0 ==> a[0] in a;
      assert |b| > 0 ==> b[0] in b;
    }
    if a != [] {
      SameFirst(files, seed, a, b);
      forall e
        ensures e in a[1..] <==> e in b[1..]
      {
        NotAgain(files, seed, a, e);
        NotAgain(files, seed, b, e);
      }
      OrderIsUnique(files, seed, a[1..], b[1..]);
      assert a == [a[0]] + a[1..] && b == [b[0]] + b[1..];
    }
  }

  lemma SameFirst(files: Files, seed: string, a: seq<Emitted>, b: seq<Emitted>)
    requires IsInVisitOrder(files, seed, a) && IsInVisitOrder(files, seed, b) && forall e :: e in a <==> e in b
    requires a != [] && b != []
    ensures a[0] == b[0]
  {
    assert a[0] in b && b[0] in a;
    var i :| 0 <= i < |b| && b[i] == a[0];
    var j :| 0 <= j < |a| && a[j] == b[0];
    if i > 0 && j > 0 {
      ComesBeforeIsAsymmetric(files, seed, a[0], a[j]);
    }
  }

  /** The first line does not come again. */
  lemma NotAgain(files: Files, seed: string, a: seq<Emitted>, e: Emitted)
    requires IsInVisitOrder(files, seed, a) && a != []
    ensures e in a[1..] <==> e in a && e != a[0]
  {
    if e in a[1..] {
      var k :| 0 <= k < |a| - 1 && a[1..][k] == e;
      ComesBeforeIsAsymmetric(files, seed, a[0], a[k + 1]);
    }
    if e in a && e != a[0] {
      var k :| 0 <= k < |a| && a[k] == e;
      assert a[1..][k - 1] == e;
    }
  }

  /** The traversal yields the one sequence that has exactly the text lines of the headers that the seed
      reaches, in the order of the first routes. */
  lemma FusedOutputIff(files: Files, seed: string, lines: seq<Emitted>)
    requires VisitFile(files, seed, {}).Ok?
    ensures IsFusedOutput(files, seed, lines) <==> lines == VisitFile(files, seed, {}).value.lines
  {
    var visited := VisitFile(files, seed, {}).value.lines;
    FusedOutput(files, seed);
    VisitIsInOrder(files, seed);
    forall e | IsOutputLine(files, seed, e)
      ensures e in visited
    {
      assert IsEmitted(visited, e.header, e.index);
      var a :| 0 <= a < |visited| && visited[a].header == e.header && visited[a].index == e.index;
      assert visited[a] == e;
    }
    if IsFusedOutput(files, seed, lines) {
      OrderIsUnique(files, seed, lines, visited);
    }
  }

  lemma {:induction false} LessAtBranch(stem: seq<nat>, k: nat, x: seq<nat>, m: nat, y: seq<nat>)
    requires k < m
    ensures Less(stem + ([k] + x), stem + ([m] + y))
  {
    if stem == [] {
      assert stem + ([k] + x) == [k] + x && stem + ([m] + y) == [m] + y;
    } else {
      LessAtBranch(stem[1..], k, x, m, y);
      assert (stem + ([k] + x))[1..] == stem[1..] + ([k] + x);
      assert (stem + ([m] + y))[1..] == stem[1..] + ([m] + y);
    }
  }

  /** Where two first routes part, at the lines `k` and `m` of one header, the smaller line decides. A
      route and the index of a line of its header are compared together, so this says three things: the
      header's own lines in front of an include come before all that is first reached through it, those
      behind it come after all that, and what is first reached through an earlier include comes before
      what is first reached through a later one. */
  lemma BranchesInOrder(files: Files, seed: string, e: Emitted, r: seq<nat>, f: Emitted, q: seq<nat>,
                        stem: seq<nat>, k: nat, x: seq<nat>, m: nat, y: seq<nat>)
    requires IsFirstRoute(files, seed, r, e.header, {}) && r + [e.index] == stem + ([k] + x)
    requires IsFirstRoute(files, seed, q, f.header, {}) && q + [f.index] == stem + ([m] + y)
    ensures k < m ==> ComesBefore(files, seed, e, f)
    ensures k > m ==> ComesBefore(files, seed, f, e)
  {
    if k < m { LessAtBranch(stem, k, x, m, y); }
    if m < k { LessAtBranch(stem, m, y, k, x); }
  }
}
