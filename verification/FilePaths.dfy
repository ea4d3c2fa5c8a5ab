/** File paths on POSIX: normalization, taking paths apart and putting them together, names for new
    files and the creation of directories. */
module FilePaths {
  import opened Numerals

  const NUL: char := '\0'
  const SEPARATOR: char := '/'

  // ----- Normalization -----------------------------------------------------------------------------

  /** What a C string says: everything in front of the first NUL. */
  function UpToNul(s: string): string {
    if s == "" || s[0] == NUL then "" else [s[0]] + UpToNul(s[1..])
  }

  /** Every run of separators becomes one separator. */
  function Normal(s: string): string {
    if s == "" || s[0] == NUL then ""
    else if s[0] == SEPARATOR then [SEPARATOR] + Normal(s[Separators(s)..])
    else [s[0]] + Normal(s[1..])
  }

  /** How many separators `s` begins with. */
  function Separators(s: string): (n: nat)
    ensures n <= |s| && (s != "" && s[0] == SEPARATOR ==> n > 0)
  {
    if s != "" && s[0] == SEPARATOR then 1 + Separators(s[1..]) else 0
  }

  predicate IsNormal(s: string) {
    && (forall i :: 0 <= i < |s| ==> s[i] != NUL)
    && (forall i :: 0 < i < |s| ==> !(s[i - 1] == SEPARATOR && s[i] == SEPARATOR))
  }

  class FilePath {
    var pathname: string

    constructor (pathname: string)
      ensures this.pathname == Normal(pathname)
    {
      this.pathname := pathname;
      new;
      Normalize();
    }

    method Normalize()
      modifies this
      ensures pathname == Normal(old(pathname))
    {
      var src := pathname + [NUL];
      var dest := new char[|src|](_ => NUL);
      var srcPtr, destPtr := 0, 0;
      NormalOfNulEnded(pathname);
      assert src[0..] == src;
      while src[srcPtr] != NUL
        invariant 0 <= destPtr <= srcPtr < |src| && fresh(dest) && dest.Length == |src|
        invariant Normal(src) == dest[..destPtr] + Normal(src[srcPtr..])
        invariant forall i :: 0 <= i < destPtr ==> dest[i] != NUL
        decreases |src| - srcPtr
      {
        ghost var start, written := srcPtr, dest[..destPtr];
        dest[destPtr] := src[srcPtr];
        if src[srcPtr] != SEPARATOR {
          srcPtr := srcPtr + 1;
        } else {
          while src[srcPtr] == SEPARATOR
            invariant start <= srcPtr < |src|
            invariant forall i :: start <= i < srcPtr ==> src[i] == SEPARATOR
            decreases |src| - srcPtr
          {
            srcPtr := srcPtr + 1;
          }
        }
        assert dest[..destPtr + 1] == written + [src[start]];
        NormalStepBehind(written, src, start, srcPtr);
        destPtr := destPtr + 1;
      }
      dest[destPtr] := NUL;
      CStringOf(dest[..], destPtr);
      pathname := UpToNul(dest[..]);
    }
  }

  lemma {:induction false} RunOfSeparators(s: string, i: nat, j: nat)
    requires i <= j < |s| && s[j] != SEPARATOR && forall k :: i <= k < j ==> s[k] == SEPARATOR
    ensures Separators(s[i..]) == j - i
    decreases j - i
  {
    if i < j {
      RunOfSeparators(s, i + 1, j);
      assert s[i..][1..] == s[i + 1..];
    }
  }

  /** A character that is no separator is copied, a whole run of separators counts once. */
  lemma NormalStep(s: string, i: nat, j: nat)
    requires i < j < |s| && s[i] != NUL
    requires s[i] != SEPARATOR ==> j == i + 1
    requires s[i] == SEPARATOR ==> s[j] != SEPARATOR && forall k :: i <= k < j ==> s[k] == SEPARATOR
    ensures Normal(s[i..]) == [s[i]] + Normal(s[j..])
  {
    if s[i] == SEPARATOR {
      RunOfSeparators(s, i, j);
    }
    assert s[i..][j - i..] == s[j..];
  }

  lemma NormalStepBehind(written: string, s: string, i: nat, j: nat)
    requires i < j < |s| && s[i] != NUL
    requires s[i] != SEPARATOR ==> j == i + 1
    requires s[i] == SEPARATOR ==> s[j] != SEPARATOR && forall k :: i <= k < j ==> s[k] == SEPARATOR
    ensures written + Normal(s[i..]) == (written + [s[i]]) + Normal(s[j..])
  {
    NormalStep(s, i, j);
  }

  lemma {:induction false} NormalOfNulEnded(s: string)
    ensures Normal(s + [NUL]) == Normal(s)
    decreases |s|
  {
    if s != "" && s[0] != NUL {
      if s[0] == SEPARATOR {
        SeparatorsOfNulEnded(s);
        NormalOfNulEnded(s[Separators(s)..]);
        assert (s + [NUL])[Separators(s)..] == s[Separators(s)..] + [NUL];
      } else {
        NormalOfNulEnded(s[1..]);
        assert (s + [NUL])[1..] == s[1..] + [NUL];
      }
    }
  }

  lemma {:induction false} SeparatorsOfNulEnded(s: string)
    ensures Separators(s + [NUL]) == Separators(s)
  {
    if s != "" {
      SeparatorsOfNulEnded(s[1..]);
      assert (s + [NUL])[1..] == s[1..] + [NUL];
    }
  }

  lemma {:induction false} CStringOf(s: string, n: nat)
    requires n < |s| && s[n] == NUL && forall i :: 0 <= i < n ==> s[i] != NUL
    ensures UpToNul(s) == s[..n]
  {
    if n > 0 {
      CStringOf(s[1..], n - 1);
      assert s[..n] == [s[0]] + s[1..][..n - 1];
    }
  }

  // ----- What normalization does ---------------------------------------------------------------------

  predicate NoNul(s: string) {
    forall i :: 0 <= i < |s| ==> s[i] != NUL
  }

  lemma Associative(a: string, b: string, c: string)
    ensures a + (b + c) == (a + b) + c
  {
  }

  /** Normalization one character at a time: a separator in front of another is dropped. */
  lemma NormalOneByOne(c: char, s: string)
    requires c != NUL
    ensures Normal([c] + s)
            == if c == SEPARATOR && s != "" && s[0] == SEPARATOR then Normal(s) else [c] + Normal(s)
  {
    var t := [c] + s;
    assert t[1..] == s;
    if c == SEPARATOR {
      assert t[Separators(t)..] == s[Separators(s)..];
      assert s == "" || s[0] != SEPARATOR ==> s[Separators(s)..] == s;
    }
  }

  lemma {:induction false} NormalIsNormal(s: string)
    ensures IsNormal(Normal(s))
    ensures Normal(s) == "" <==> s == "" || s[0] == NUL
    ensures Normal(s) != "" ==> Normal(s)[0] == s[0]
    decreases |s|
  {
    if s != "" && s[0] != NUL {
      assert s == [s[0]] + s[1..];
      NormalOneByOne(s[0], s[1..]);
      NormalIsNormal(s[1..]);
    }
  }

  lemma {:induction false} NormalOfNormal(s: string)
    requires IsNormal(s)
    ensures Normal(s) == s
  {
    if s != "" {
      assert s == [s[0]] + s[1..];
      NormalOneByOne(s[0], s[1..]);
      NormalOfNormal(s[1..]);
    }
  }

  /** Normalization changes exactly the paths that are not normal, and is idempotent. */
  lemma NormalIffUnchanged(s: string)
    ensures Normal(s) == s <==> IsNormal(s)
    ensures Normal(Normal(s)) == Normal(s)
  {
    NormalIsNormal(s);
    NormalOfNormal(Normal(s));
    if IsNormal(s) { NormalOfNormal(s); }
  }

  lemma {:induction false} NormalAbsorbsLeft(a: string, b: string)
    requires NoNul(a)
    ensures Normal(Normal(a) + b) == Normal(a + b)
  {
    if a == "" {
      assert Normal(a) + b == a + b;
    } else {
      var c, a' := a[0], a[1..];
      NormalAbsorbsLeft(a', b);
      NormalIsNormal(a');
      assert a == [c] + a';
      NormalOneByOne(c, a');
      Associative([c], a', b);
      NormalOneByOne(c, a' + b);
      if a' != "" {
        Associative([c], Normal(a'), b);
        NormalOneByOne(c, Normal(a') + b);
      }
    }
  }

  lemma {:induction false} NormalAbsorbsRight(a: string, b: string)
    requires NoNul(a)
    ensures Normal(a + Normal(b)) == Normal(a + b)
  {
    if a == "" {
      NormalIffUnchanged(b);
      assert a + Normal(b) == Normal(b) && a + b == b;
    } else {
      var c, a' := a[0], a[1..];
      assert a + b == [c] + (a' + b) && a + Normal(b) == [c] + (a' + Normal(b));
      NormalOneByOne(c, a' + b);
      NormalOneByOne(c, a' + Normal(b));
      NormalAbsorbsRight(a', b);
      NormalIsNormal(b);
    }
  }

  /** Nothing collapses in front of a character that is no separator. */
  lemma {:induction false} NormalOfConcat(a: string, b: string)
    requires NoNul(a) && b != "" && b[0] != SEPARATOR
    ensures Normal(a + b) == Normal(a) + Normal(b)
  {
    if a == "" {
      assert a + b == b;
    } else {
      var c, a' := a[0], a[1..];
      NormalOfConcat(a', b);
      assert a == [c] + a';
      NormalOneByOne(c, a');
      Associative([c], a', b);
      NormalOneByOne(c, a' + b);
      Associative([c], Normal(a'), Normal(b));
      assert a' == "" || (a' + b)[0] == a'[0];
    }
  }

  // ----- Components ------------------------------------------------------------------------------------

  /** The length of the name that `s` begins with. */
  function NameLength(s: string): (n: nat)
    ensures n <= |s| && (s != "" && s[0] != SEPARATOR ==> n > 0)
  {
    if s == "" || s[0] == SEPARATOR then 0 else 1 + NameLength(s[1..])
  }

  /** The names in a path, without the separators. */
  function Components(s: string): seq<string>
    decreases |s|
  {
    if s == "" then []
    else if s[0] == SEPARATOR then Components(s[1..])
    else [s[..NameLength(s)]] + Components(s[NameLength(s)..])
  }

  lemma {:induction false} NameIsKept(s: string)
    requires NoNul(s)
    ensures var n := NameLength(s);
            NameLength(Normal(s)) == n && Normal(s)[..n] == s[..n] && Normal(s)[n..] == Normal(s[n..])
  {
    if s == "" {
    } else if s[0] == SEPARATOR {
      NormalIsNormal(s);
    } else {
      NameIsKept(s[1..]);
      var n, t := NameLength(s[1..]), Normal(s[1..]);
      assert Normal(s) == [s[0]] + t && Normal(s)[1..] == t;
      assert Normal(s)[..1 + n] == [s[0]] + t[..n];
      assert s[..1 + n] == [s[0]] + s[1..][..n];
    }
  }

  /** Normalization keeps the names. */
  lemma {:induction false} NormalKeepsComponents(s: string)
    requires NoNul(s)
    ensures Components(Normal(s)) == Components(s)
    decreases |s|
  {
    if s == "" {
    } else if s[0] == SEPARATOR {
      var s' := s[1..];
      NormalKeepsComponents(s');
      assert s == [SEPARATOR] + s';
      NormalOneByOne(SEPARATOR, s');
      assert ([SEPARATOR] + Normal(s'))[1..] == Normal(s');
    } else {
      NameIsKept(s);
      NormalKeepsComponents(s[NameLength(s)..]);
    }
  }

  predicate IsAbsolutePath(s: string) {
    s != "" && s[0] == SEPARATOR
  }

  /** The path ends with a separator. */
  predicate IsDirectory(s: string) {
    s != "" && s[|s| - 1] == SEPARATOR
  }

  predicate IsAlike(p: string, q: string) {
    Components(p) == Components(q) && IsAbsolutePath(p) == IsAbsolutePath(q) && IsDirectory(p) == IsDirectory(q)
  }

  lemma {:induction false} NormalFormIsUnique(p: string, q: string)
    requires IsNormal(p) && IsNormal(q) && IsAlike(p, q)
    ensures p == q
    decreases |p|
  {
    if p == "" {
      assert Components(q) == [];
    } else if p[0] == SEPARATOR {
      RelativeFormIsUnique(p[1..], q[1..]);
    } else {
      RelativeFormIsUnique(p, q);
    }
  }

  lemma {:induction false} RelativeFormIsUnique(p: string, q: string)
    requires IsNormal(p) && IsNormal(q) && !IsAbsolutePath(p) && !IsAbsolutePath(q)
    requires Components(p) == Components(q) && (p != "" && q != "" ==> IsDirectory(p) == IsDirectory(q))
    ensures p == q
    decreases |p|, 0
  {
    if p != "" && q != "" {
      NameComesFirst(p);
      NameComesFirst(q);
      var p', q' := p[NameLength(p)..], q[NameLength(q)..];
      if p' != "" && q' != "" {
        NormalFormIsUnique(p', q');
      } else {
        OnlySeparator(p');
        OnlySeparator(q');
      }
    }
  }

  /** A relative path is a name followed by nothing or an absolute path. */
  lemma NameComesFirst(p: string)
    requires IsNormal(p) && p != "" && p[0] != SEPARATOR
    ensures var n := NameLength(p);
            && n > 0 && p == p[..n] + p[n..] && !IsDirectory(p[..n]) && Components(p) == [p[..n]] + Components(p[n..])
            && Components(p)[0] == p[..n] && Components(p)[1..] == Components(p[n..])
            && IsNormal(p[n..]) && (p[n..] != "" ==> IsAbsolutePath(p[n..]) && IsDirectory(p) == IsDirectory(p[n..]))
            && (p[n..] == "" ==> !IsDirectory(p))
  {
    NameEnds(p);
  }

  lemma {:induction false} NameEnds(s: string)
    ensures NameLength(s) < |s| ==> s[NameLength(s)] == SEPARATOR
    ensures forall i :: 0 <= i < NameLength(s) ==> s[i] != SEPARATOR
  {
    if s != "" && s[0] != SEPARATOR {
      NameEnds(s[1..]);
      assert forall i :: 0 < i < NameLength(s) ==> s[i] == s[1..][i - 1];
    }
  }

  /** A normal path without a name is empty or one separator. */
  lemma OnlySeparator(s: string)
    requires IsNormal(s)
    ensures Components(s) == [] <==> s == "" || s == [SEPARATOR]
  {
    if |s| > 1 && s[0] == SEPARATOR {
      assert s[1..][0] == s[1] && s[1] != SEPARATOR;
      assert Components(s[1..]) != [];
    }
  }

  lemma {:induction false} NormalKeepsEnds(s: string)
    requires NoNul(s)
    ensures IsAbsolutePath(Normal(s)) == IsAbsolutePath(s) && IsDirectory(Normal(s)) == IsDirectory(s)
    decreases |s|
  {
    NormalIsNormal(s);
    if |s| > 1 {
      assert s == [s[0]] + s[1..];
      NormalOneByOne(s[0], s[1..]);
      NormalIsNormal(s[1..]);
      NormalKeepsEnds(s[1..]);
    }
  }

  /** The normal form of a path is the one normal path with the same names that is alike at both ends. */
  lemma NormalIff(s: string, t: string)
    requires NoNul(s)
    ensures t == Normal(s) <==> IsNormal(t) && IsAlike(t, s)
  {
    NormalIsNormal(s);
    NormalKeepsEnds(s);
    NormalKeepsComponents(s);
    if IsNormal(t) && IsAlike(t, s) {
      NormalFormIsUnique(t, Normal(s));
    }
  }

  // ----- Putting together and taking apart ---------------------------------------------------------------

  /** A file path is constructed normal and stays so. */
  type Path = s: string | IsNormal(s) witness ""

  function RemoveTrailingPathSeparator(p: Path): Path {
    if IsDirectory(p) then p[..|p| - 1] else p
  }

  function ConcatPaths(directory: Path, relativePath: Path): Path {
    NormalIsNormal(RemoveTrailingPathSeparator(directory) + [SEPARATOR] + relativePath);
    if directory == "" then relativePath
    else Normal(RemoveTrailingPathSeparator(directory) + [SEPARATOR] + relativePath)
  }

  /** A trailing separator of the directory makes no difference. */
  lemma ConcatIsNormalOfJoin(d: Path, r: Path)
    requires d != ""
    ensures ConcatPaths(d, r) == Normal(d + ([SEPARATOR] + r))
  {
    var t := RemoveTrailingPathSeparator(d);
    Associative(t, [SEPARATOR], r);
    if IsDirectory(d) {
      assert d == t + [SEPARATOR];
      Associative(t, [SEPARATOR], [SEPARATOR] + r);
      DoubledSeparator(t, r);
    }
  }

  lemma ConcatIsEmptyIff(d: Path, r: Path)
    ensures ConcatPaths(d, r) == "" <==> d == "" && r == ""
  {
    if d != "" {
      ConcatIsNormalOfJoin(d, r);
      NormalIsNormal(d + ([SEPARATOR] + r));
    }
  }

  /** Paths form a monoid from the left: concatenation is associative and "" is its left identity; on
      the right, "" adds a trailing separator. */
  lemma ConcatIsAssociative(a: Path, b: Path, c: Path)
    ensures ConcatPaths(ConcatPaths(a, b), c) == ConcatPaths(a, ConcatPaths(b, c))
    ensures ConcatPaths("", a) == a
    ensures a != "" ==> ConcatPaths(a, "") == RemoveTrailingPathSeparator(a) + [SEPARATOR]
  {
    if a != "" {
      ConcatWithEmpty(a);
      ConcatIsEmptyIff(a, b);
      ConcatLeft(a, b, c);
      ConcatRight(a, b, c);
    }
  }

  lemma ConcatWithEmpty(a: Path)
    requires a != ""
    ensures ConcatPaths(a, "") == RemoveTrailingPathSeparator(a) + [SEPARATOR]
  {
    var s := RemoveTrailingPathSeparator(a) + [SEPARATOR];
    assert s + "" == s;
    assert IsDirectory(a) ==> s == a;
    NormalOfNormal(s);
  }

  function Joined(a: string, b: string, c: string): string {
    (a + ([SEPARATOR] + b)) + ([SEPARATOR] + c)
  }

  lemma ConcatLeft(a: Path, b: Path, c: Path)
    requires a != ""
    ensures ConcatPaths(ConcatPaths(a, b), c) == Normal(Joined(a, b, c))
  {
    ConcatIsNormalOfJoin(a, b);
    ConcatIsEmptyIff(a, b);
    ConcatIsNormalOfJoin(ConcatPaths(a, b), c);
    NormalAbsorbsLeft(a + ([SEPARATOR] + b), [SEPARATOR] + c);
  }

  lemma JoinedFromRight(a: string, b: string, c: string)
    ensures Joined(a, b, c) == (a + [SEPARATOR]) + (b + ([SEPARATOR] + c))
    ensures b == "" ==> Joined(a, b, c) == a + ([SEPARATOR] + ([SEPARATOR] + c))
  {
  }

  lemma ConcatRight(a: Path, b: Path, c: Path)
    requires a != ""
    ensures ConcatPaths(a, ConcatPaths(b, c)) == Normal(Joined(a, b, c))
  {
    JoinedFromRight(a, b, c);
    ConcatIsNormalOfJoin(a, ConcatPaths(b, c));
    if b == "" {
      DoubledSeparator(a, c);
    } else {
      ConcatIsNormalOfJoin(b, c);
      Associative(a, [SEPARATOR], Normal(b + ([SEPARATOR] + c)));
      NormalAbsorbsRight(a + [SEPARATOR], b + ([SEPARATOR] + c));
    }
  }

  /** One separator more makes no difference. */
  lemma DoubledSeparator(a: string, r: string)
    requires NoNul(a)
    ensures Normal(a + ([SEPARATOR] + ([SEPARATOR] + r))) == Normal(a + ([SEPARATOR] + r))
  {
    NormalOneByOne(SEPARATOR, [SEPARATOR] + r);
    NormalAbsorbsRight(a, [SEPARATOR] + ([SEPARATOR] + r));
    NormalAbsorbsRight(a, [SEPARATOR] + r);
  }

  /** Where the last separator is; -1 if there is none. */
  function FindLastPathSeparator(s: string): (i: int)
    ensures -1 <= i < |s| && (i >= 0 ==> s[i] == SEPARATOR)
    ensures forall j :: i < j < |s| ==> s[j] != SEPARATOR
  {
    if s == "" then -1
    else if s[|s| - 1] == SEPARATOR then |s| - 1
    else FindLastPathSeparator(s[..|s| - 1])
  }

  function RemoveDirectoryName(p: Path): Path {
    p[FindLastPathSeparator(p) + 1..]
  }

  const CURRENT_DIRECTORY: Path := "./"

  function RemoveFileName(p: Path): Path {
    if FindLastPathSeparator(p) >= 0 then p[..FindLastPathSeparator(p) + 1] else CURRENT_DIRECTORY
  }

  /** The two parts of a path make the path again exactly if it has a separator; else they make it a
      path in the current directory. */
  lemma PartsConcatIff(p: Path)
    ensures ConcatPaths(RemoveFileName(p), RemoveDirectoryName(p)) == p <==> SEPARATOR in p
    ensures IsDirectory(RemoveFileName(p)) && SEPARATOR !in RemoveDirectoryName(p)
  {
    if FindLastPathSeparator(p) >= 0 {
      PartsConcat(p);
    } else {
      assert p[0..] == p;
      InCurrentDirectory(p);
    }
  }

  lemma PartsConcat(p: Path)
    requires FindLastPathSeparator(p) >= 0
    ensures ConcatPaths(RemoveFileName(p), RemoveDirectoryName(p)) == p
  {
    PartsJoin(p, FindLastPathSeparator(p));
    NormalOfNormal(p);
  }

  lemma PartsJoin(p: Path, i: nat)
    requires i < |p| && p[i] == SEPARATOR
    ensures RemoveTrailingPathSeparator(p[..i + 1]) + [SEPARATOR] + p[i + 1..] == p
  {
    assert RemoveTrailingPathSeparator(p[..i + 1]) == p[..i];
  }

  lemma InCurrentDirectory(p: Path)
    ensures SEPARATOR in ConcatPaths(CURRENT_DIRECTORY, p)
  {
    var t := ['.'] + ([SEPARATOR] + p);
    assert RemoveTrailingPathSeparator(CURRENT_DIRECTORY) + [SEPARATOR] + p == t;
    NormalOneByOne('.', [SEPARATOR] + p);
    NormalIsNormal([SEPARATOR] + p);
    assert Normal(t)[1] == SEPARATOR;
  }

  /** A path without a separator is all file, in the current directory. */
  lemma PartsWithoutSeparator(p: Path)
    requires SEPARATOR !in p
    ensures RemoveDirectoryName(p) == p && RemoveFileName(p) == "./"
  {
  }

  /** The comments promise the current directory here; the code gives the root. */
  lemma FileInRoot(name: string)
    requires IsNormal([SEPARATOR] + name) && SEPARATOR !in name
    ensures RemoveFileName([SEPARATOR] + name) == [SEPARATOR] && RemoveDirectoryName([SEPARATOR] + name) == name
  {
    var p := [SEPARATOR] + name;
    var i := FindLastPathSeparator(p);
    assert p[0] == SEPARATOR;
    assert forall j :: 0 < j < |p| ==> p[j] == name[j - 1];
  }
}
