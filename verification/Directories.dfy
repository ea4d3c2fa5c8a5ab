/** The creation of a directory together with all that it lies in. */
module Directories {
  import opened FilePaths

  /** The directory that a directory lies in, as CreateDirectoriesRecursively finds it. */
  function Parent(p: Path): Path {
    RemoveFileName(RemoveTrailingPathSeparator(p))
  }

  const ROOT: Path := "/"

  /** The root and the current directory lie in no other directory. */
  predicate IsTop(p: Path) {
    p == ROOT || p == CURRENT_DIRECTORY
  }

  function Height(p: Path): nat {
    if p == CURRENT_DIRECTORY then 0 else |p| + 1
  }

  lemma ParentIsHigher(p: Path)
    requires IsDirectory(p)
    ensures IsDirectory(Parent(p)) && (p != CURRENT_DIRECTORY ==> Height(Parent(p)) < Height(p))
  {
  }

  /** The parent of the root and that of the current directory is the current directory. */
  lemma ParentOfTop(p: Path)
    ensures IsTop(p) <==> p in ["/", "./"]
    ensures IsTop(p) ==> Parent(p) == "./"
  {
    assert RemoveTrailingPathSeparator(CURRENT_DIRECTORY) == ".";
    assert RemoveTrailingPathSeparator(ROOT) == "";
  }

  /** The paths that the recursion goes through when no directory exists: it ends only because the current
      directory is its own parent. */
  function Climb(p: Path): set<Path>
    requires IsDirectory(p)
    decreases Height(p)
  {
    ParentIsHigher(p);
    if p == CURRENT_DIRECTORY then {p} else {p} + Climb(Parent(p))
  }

  /** A directory and all that it lies in, up to the root or the current directory. */
  function Ancestors(p: Path): set<Path>
    requires IsDirectory(p)
    decreases Height(p)
  {
    ParentIsHigher(p);
    if IsTop(p) then {p} else {p} + Ancestors(Parent(p))
  }

  /** Going up from any directory leads to the current directory, and on the way through all that the
      directory lies in. */
  lemma {:induction false} ClimbEndsAtCurrentDirectory(p: Path)
    requires IsDirectory(p)
    ensures CURRENT_DIRECTORY in Climb(p) && Ancestors(p) <= Climb(p)
    decreases Height(p)
  {
    ParentIsHigher(p);
    if p != CURRENT_DIRECTORY {
      ClimbEndsAtCurrentDirectory(Parent(p));
    }
  }

  // ----- Directories above a path, as prefixes of it ------------------------------------------------

  predicate IsPrefixDirectory(a: Path, p: Path) {
    a != "" && a[|a| - 1] == '/' && a <= p
  }

  /** The parent is the longest proper prefix that is a directory, if there is one. */
  lemma ParentIsLongest(p: Path, a: Path)
    requires IsDirectory(p)
    ensures IsPrefixDirectory(a, p) && a != p ==> a <= Parent(p) && Parent(p) <= p
    ensures Parent(p) <= p || Parent(p) == "./"
  {
    var t := p[..|p| - 1];
    if IsPrefixDirectory(a, p) && a != p {
      assert t[|a| - 1] == SEPARATOR;
    }
  }

  lemma PrefixOfPrefix(a: string, b: string, c: string)
    requires a <= b && b <= c
    ensures a <= c
  {
  }

  lemma OnlyCurrentDirectory(a: Path)
    ensures IsPrefixDirectory(a, "./") <==> a == "./"
  {
    if IsPrefixDirectory(a, "./") {
      assert a == "./"[..|a|] && |a| == 2;
    }
  }

  /** The recursion goes through the prefixes that are directories, and the current directory. */
  lemma {:induction false} ClimbIff(p: Path, a: Path)
    requires IsDirectory(p)
    ensures a in Climb(p) <==> a == "./" || IsPrefixDirectory(a, p)
    decreases Height(p)
  {
    ParentIsHigher(p);
    if p == CURRENT_DIRECTORY {
      OnlyCurrentDirectory(a);
    } else {
      ClimbIff(Parent(p), a);
      ParentIsLongest(p, a);
      OnlyCurrentDirectory(a);
      if a <= Parent(p) && Parent(p) <= p { PrefixOfPrefix(a, Parent(p), p); }
    }
  }

  // ----- When the recursion ends --------------------------------------------------------------------

  /** CreateDirectoriesRecursively returns with at most `calls` calls of itself on the stack: it calls
      itself for the parent unless one of its first two tests lets it return. */
  predicate ReturnsWithin(directories: set<Path>, p: Path, calls: nat)
    decreases calls
  {
    calls > 0 && (!IsDirectory(p) || p in directories || ReturnsWithin(directories, Parent(p), calls - 1))
  }

  ghost predicate Ends(directories: set<Path>, p: Path) {
    exists calls: nat :: ReturnsWithin(directories, p, calls)
  }

  lemma {:induction false} ReturnsAtDirectory(directories: set<Path>, p: Path, calls: nat) returns (a: Path)
    requires IsDirectory(p) && ReturnsWithin(directories, p, calls)
    ensures a in Climb(p) && a in directories
    decreases calls
  {
    ParentIsHigher(p);
    if p in directories {
      a := p;
    } else {
      if p == CURRENT_DIRECTORY { ParentOfTop(p); }
      a := ReturnsAtDirectory(directories, Parent(p), calls - 1);
    }
  }

  lemma {:induction false} DirectoryLetsReturn(directories: set<Path>, p: Path, a: Path) returns (calls: nat)
    requires IsDirectory(p) && a in Climb(p) && a in directories
    ensures ReturnsWithin(directories, p, calls)
    decreases Height(p)
  {
    ParentIsHigher(p);
    if p in directories {
      calls := 1;
    } else {
      calls := DirectoryLetsReturn(directories, Parent(p), a);
      calls := calls + 1;
    }
  }

  /** The recursion ends if and only if one of the finitely many paths on the way up is a directory. */
  lemma EndsIff(directories: set<Path>, p: Path)
    requires IsDirectory(p)
    ensures Ends(directories, p) <==> exists a :: a in Climb(p) && a in directories
  {
    if Ends(directories, p) {
      var calls: nat :| ReturnsWithin(directories, p, calls);
      var a := ReturnsAtDirectory(directories, p, calls);
    }
    if a :| a in Climb(p) && a in directories {
      var calls := DirectoryLetsReturn(directories, p, a);
    }
  }

  /** Where there is no directory, not even the current one, the recursion does not end. */
  lemma NoCurrentDirectory()
    ensures !Ends({}, CURRENT_DIRECTORY)
  {
    EndsIff({}, CURRENT_DIRECTORY);
  }

  /** What is missing on the way up to the first directory. */
  function Missing(directories: set<Path>, p: Path): set<Path>
    requires IsDirectory(p)
    decreases Height(p)
  {
    ParentIsHigher(p);
    if p in directories then {}
    else if p == CURRENT_DIRECTORY then {p}
    else {p} + Missing(directories, Parent(p))
  }

  /** What lies between `a` and `p`, `a` and `p` included. */
  predicate IsBetween(a: Path, b: Path, p: Path) {
    (b == "./" || IsPrefixDirectory(b, p)) && (a == "./" || a <= b)
  }

  /** A directory above `p` counts as missing exactly if none exists from it down to `p`. */
  lemma {:induction false} MissingIff(directories: set<Path>, p: Path, a: Path)
    requires IsDirectory(p)
    ensures a in Missing(directories, p) <==>
            (a == "./" || IsPrefixDirectory(a, p)) && forall b :: IsBetween(a, b, p) ==> b !in directories
    decreases Height(p)
  {
    ParentIsHigher(p);
    OnlyCurrentDirectory(a);
    if p in directories {
      if a == "./" || IsPrefixDirectory(a, p) {
        assert IsBetween(a, p, p);
      }
    } else if p == CURRENT_DIRECTORY {
      forall b | IsBetween(a, b, p)
        ensures b == "./"
      {
        OnlyCurrentDirectory(b);
      }
    } else {
      MissingIff(directories, Parent(p), a);
      ClimbIff(p, a);
      ClimbIff(Parent(p), a);
      forall b
        ensures IsBetween(a, b, p) && b != p <==> IsBetween(a, b, Parent(p))
      {
        ClimbIff(p, b);
        ClimbIff(Parent(p), b);
      }
    }
  }

  lemma {:induction false} MissingIsMissing(directories: set<Path>, p: Path)
    requires IsDirectory(p)
    ensures Missing(directories, p) <= Climb(p) && Missing(directories, p) !! directories
    decreases Height(p)
  {
    ParentIsHigher(p);
    if p != CURRENT_DIRECTORY && p !in directories {
      MissingIsMissing(directories, Parent(p));
    }
  }

  // ----- The file system -------------------------------------------------------------------------------

  /** The same directory, its path written with a trailing separator. */
  function AsDirectory(p: Path): (d: Path)
    requires p != ""
    ensures IsDirectory(d)
  {
    if IsDirectory(p) then p else p + [SEPARATOR]
  }

  class FileSystem {
    /** The directories there are, by paths that end with a separator. */
    var directories: set<Path>
    /** The paths that mkdir refuses: another file has the name, or permission is lacking. */
    const refused: set<Path>

    constructor (directories: set<Path>, refused: set<Path>)
      ensures this.directories == directories && this.refused == refused
    {
      this.directories, this.refused := directories, refused;
    }

    /** Every directory but the tops lies in a directory. */
    ghost predicate Valid()
      reads this
    {
      forall d :: d in directories ==> IsDirectory(d) && (IsTop(d) || Parent(d) in directories)
    }

    predicate DirectoryExists(p: Path)
      reads this
    {
      p != "" && AsDirectory(p) in directories
    }

    method Mkdir(p: Path) returns (result: int)
      requires Valid()
      modifies this
      ensures Valid()
      ensures result == if old(CanMake(p)) then 0 else -1
      ensures directories == if old(CanMake(p)) then old(directories) + {AsDirectory(p)} else old(directories)
    {
      if !CanMake(p) {
        return -1;
      }
      directories := directories + {AsDirectory(p)};
      result := 0;
    }

    /** The name is free, not refused, and in a directory that exists. */
    predicate CanMake(p: Path)
      reads this
    {
      p != "" && !DirectoryExists(p) && Parent(AsDirectory(p)) in directories && AsDirectory(p) !in refused
    }

    method CreateFolder(p: Path) returns (created: bool)
      requires Valid()
      modifies this
      ensures Valid()
      ensures created <==> DirectoryExists(p)
      ensures created <==> old(DirectoryExists(p)) || old(CanMake(p))
      ensures directories == if old(CanMake(p)) then old(directories) + {AsDirectory(p)} else old(directories)
    {
      var result := Mkdir(p);
      if result == -1 {
        return DirectoryExists(p);
      }
      created := true;
    }

    /** Where the recursion ends, it fails exactly for paths that do not end with a separator and where a
        missing directory is refused. Success adds exactly the missing directories, so the path and all
        that it lies in are directories; failure adds some of those that are not refused. */
    method CreateDirectoriesRecursively(p: Path) returns (created: bool)
      requires Valid() && Ends(directories, p)
      modifies this
      decreases Height(p)
      ensures Valid()
      ensures created <==> IsDirectory(p) && Missing(old(directories), p) !! refused
      ensures created ==> directories == old(directories) + Missing(old(directories), p)
      ensures created ==> Ancestors(p) <= directories
      ensures !created ==>
                && old(directories) <= directories
                && forall d :: d in directories - old(directories) ==>
                                 IsDirectory(p) && d in Missing(old(directories), p) && d !in refused
    {
      if !IsDirectory(p) {
        return false;
      }
      if |p| == 0 || DirectoryExists(p) {
        AncestorsExist(directories, p);
        return true;
      }
      ParentIsHigher(p);
      var parent := Parent(p);
      EndsHigher(directories, p);
      MissingIsMissing(directories, parent);
      created := CreateDirectoriesRecursively(parent);
      if created {
        AncestorsExist(directories, parent);
        created := CreateFolder(p);
        AncestorsExist(directories, p);
      }
    }
  }

  lemma EndsHigher(directories: set<Path>, p: Path)
    requires IsDirectory(p) && Ends(directories, p) && p !in directories
    ensures p != CURRENT_DIRECTORY && Ends(directories, Parent(p))
  {
    var calls: nat :| ReturnsWithin(directories, p, calls);
    assert ReturnsWithin(directories, Parent(p), calls - 1);
    EndsIff(directories, p);
  }

  /** The ancestors of an absolute path are its prefixes, those of a relative one also the current
      directory. */
  lemma {:induction false} AncestorsIff(p: Path, a: Path)
    requires IsDirectory(p)
    ensures a in Ancestors(p) <==> IsPrefixDirectory(a, p) || (a == "./" && p[0] != '/')
    decreases Height(p)
  {
    ParentIsHigher(p);
    OnlyCurrentDirectory(a);
    if p == ROOT {
      assert p[..1] == p == "/";
      assert IsPrefixDirectory(a, p) ==> |a| == 1 && a == p[..1];
    } else if p != CURRENT_DIRECTORY {
      AncestorsIff(Parent(p), a);
      ParentIsLongest(p, a);
      ParentIsLongest(p, ROOT);
      if a <= Parent(p) && Parent(p) <= p { PrefixOfPrefix(a, Parent(p), p); }
    }
  }

  /** Where every directory lies in a directory, so do all above it. */
  lemma {:induction false} AncestorsExist(directories: set<Path>, p: Path)
    requires IsDirectory(p)
    requires forall d :: d in directories ==> IsDirectory(d) && (IsTop(d) || Parent(d) in directories)
    ensures p in directories ==> Ancestors(p) <= directories
    decreases Height(p)
  {
    ParentIsHigher(p);
    if !IsTop(p) {
      AncestorsExist(directories, Parent(p));
    }
  }
}
