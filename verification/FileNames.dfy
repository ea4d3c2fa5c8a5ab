/** Names for new files, and the creation of the directories of a path. */
module FileNames {
  import opened Numerals
  import opened FilePaths

  // ----- Names with numbers ------------------------------------------------------------------------

  predicate IsWord(s: string) {
    NoNul(s) && SEPARATOR !in s
  }

  /** What distinguishes the names: nothing for 0, else an underscore and the number. */
  function Tag(number: int): string {
    if number == 0 then "" else "_" + Decimal(number)
  }

  function MakeFileName(directory: Path, baseName: Path, number: int, extension: string): Path {
    NormalIsNormal((baseName + Tag(number)) + ("." + extension));
    ConcatPaths(directory, Normal((baseName + Tag(number)) + ("." + extension)))
  }

  lemma TagIsWord(number: int)
    ensures IsWord(Tag(number)) && (number != 0 ==> Tag(number)[0] == '_')
  {
    NumberOfDigits(if number < 0 then -number else number);
  }

  lemma TagsDiffer(m: int, n: int)
    requires Tag(m) == Tag(n)
    ensures m == n
  {
    if m != 0 && n != 0 {
      assert Tag(m)[1..] == Decimal(m) && Tag(n)[1..] == Decimal(n);
      DecimalInjective(m, n);
    }
  }

  lemma {:induction false} NormalOfWord(word: string, s: string)
    requires IsWord(word)
    ensures Normal(word + s) == word + Normal(s)
  {
    if word == "" {
      assert word + s == s;
    } else {
      NormalOfWord(word[1..], s);
      Associative([word[0]], word[1..], s);
      assert [word[0]] + word[1..] == word;
      NormalOneByOne(word[0], word[1..] + s);
      Associative([word[0]], word[1..], Normal(s));
    }
  }

  /** What comes in front of the tag, and what comes behind. */
  function Front(directory: Path, baseName: Path): string {
    Normal(if directory == "" then baseName else directory + ([SEPARATOR] + baseName))
  }

  lemma BehindFront(directory: Path, baseName: Path, tail: string)
    requires tail != "" && tail[0] != SEPARATOR && IsNormal(Normal(baseName + tail))
    ensures ConcatPaths(directory, Normal(baseName + tail)) == Front(directory, baseName) + Normal(tail)
  {
    if directory == "" {
      NormalOfConcat(baseName, tail);
    } else {
      ConcatIsNormalOfJoin(directory, Normal(baseName + tail));
      Associative(directory, [SEPARATOR], Normal(baseName + tail));
      NormalAbsorbsRight(directory + [SEPARATOR], baseName + tail);
      Associative(directory + [SEPARATOR], baseName, tail);
      Associative(directory, [SEPARATOR], baseName);
      NormalOfConcat(directory + ([SEPARATOR] + baseName), tail);
    }
  }

  lemma NameHasTag(directory: Path, baseName: Path, number: int, extension: string)
    ensures MakeFileName(directory, baseName, number, extension)
            == Front(directory, baseName) + (Tag(number) + Normal("." + extension))
  {
    var tail := Tag(number) + ("." + extension);
    TagIsWord(number);
    NormalOfWord(Tag(number), "." + extension);
    Associative(baseName, Tag(number), "." + extension);
    NormalIsNormal(baseName + tail);
    BehindFront(directory, baseName, tail);
  }

  /** The first name has no number in it, the others have theirs behind an underscore. */
  lemma NameOfNumber(directory: Path, baseName: Path, number: int, extension: string)
    ensures MakeFileName(directory, baseName, number, extension)
            == Front(directory, baseName)
               + ((if number == 0 then "" else "_" + Decimal(number)) + Normal("." + extension))
  {
    NameHasTag(directory, baseName, number, extension);
  }

  lemma Cancel(a: string, x: string, y: string, b: string)
    requires a + (x + b) == a + (y + b)
    ensures x == y
  {
    assert (a + (x + b))[|a|..] == x + b && (a + (y + b))[|a|..] == y + b;
    assert |x| == |y|;
    assert (x + b)[..|x|] == x && (y + b)[..|y|] == y;
  }

  /** Different numbers make different names, also after normalization. */
  lemma MakeFileNameInjective(directory: Path, baseName: Path, extension: string, m: int, n: int)
    requires MakeFileName(directory, baseName, m, extension) == MakeFileName(directory, baseName, n, extension)
    ensures m == n
  {
    NameHasTag(directory, baseName, m, extension);
    NameHasTag(directory, baseName, n, extension);
    Cancel(Front(directory, baseName), Tag(m), Tag(n), Normal("." + extension));
    TagsDiffer(m, n);
  }

  // ----- A name that is free --------------------------------------------------------------------------

  function FirstNames(directory: Path, baseName: Path, extension: string, n: nat): set<Path> {
    if n == 0 then {}
    else FirstNames(directory, baseName, extension, n - 1) + {MakeFileName(directory, baseName, n - 1, extension)}
  }

  lemma {:induction false} FirstNamesDiffer(directory: Path, baseName: Path, extension: string, n: nat)
    ensures |FirstNames(directory, baseName, extension, n)| == n
    ensures forall p :: p in FirstNames(directory, baseName, extension, n) ==>
              exists k :: 0 <= k < n && p == MakeFileName(directory, baseName, k, extension)
  {
    if n > 0 {
      FirstNamesDiffer(directory, baseName, extension, n - 1);
      var p := MakeFileName(directory, baseName, n - 1, extension);
      if p in FirstNames(directory, baseName, extension, n - 1) {
        var k :| 0 <= k < n - 1 && p == MakeFileName(directory, baseName, k, extension);
        MakeFileNameInjective(directory, baseName, extension, k, n - 1);
      }
    }
  }

  /** Over the finitely many files that exist the search ends, with the least number that is free. */
  method GenerateUniqueFileName(existing: set<Path>, directory: Path, baseName: Path, extension: string)
    returns (fullPathname: Path, ghost number: nat)
    ensures fullPathname == MakeFileName(directory, baseName, number, extension) && fullPathname !in existing
    ensures forall k :: 0 <= k < number ==> MakeFileName(directory, baseName, k, extension) in existing
    ensures number <= |existing|
  {
    var next := 0;
    fullPathname := MakeFileName(directory, baseName, next, extension);
    next := next + 1;
    TriedNamesExist(existing, directory, baseName, extension, 0);
    while fullPathname in existing
      invariant next > 0 && fullPathname == MakeFileName(directory, baseName, next - 1, extension)
      invariant forall k :: 0 <= k < next - 1 ==> MakeFileName(directory, baseName, k, extension) in existing
      invariant next - 1 <= |existing|
      decreases |existing| - next
    {
      TriedNamesExist(existing, directory, baseName, extension, next);
      fullPathname := MakeFileName(directory, baseName, next, extension);
      next := next + 1;
    }
    number := next - 1;
  }

  lemma TriedNamesExist(existing: set<Path>, directory: Path, baseName: Path, extension: string, n: nat)
    requires forall k :: 0 <= k < n ==> MakeFileName(directory, baseName, k, extension) in existing
    ensures n <= |existing|
  {
    FirstNamesDiffer(directory, baseName, extension, n);
    SubsetIsSmaller(FirstNames(directory, baseName, extension, n), existing);
  }

  lemma {:induction false} SubsetIsSmaller(a: set<Path>, b: set<Path>)
    requires a <= b
    ensures |a| <= |b|
  {
    assert b == a + (b - a);
  }
}
