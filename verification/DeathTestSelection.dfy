/** How a thread-safe death test finds its place again: the parent passes file, line and ordinal of
    the death test to a child that runs the program from the start, and the child skips every
    other death test. */
module DeathTestSelection {
  import opened CTypes
  import opened DeathTestProtocol
  import opened Numerals
  import opened Wrappers

  // ----- Splitting ---------------------------------------------------------------------------------

  /** std::string::find(delimiter, pos) */
  function Find(str: string, delimiter: char, pos: nat): (found: Option<nat>)
    requires pos <= |str|
    ensures found.None? ==> delimiter !in str[pos..]
    ensures found.Some? ==> pos <= found.value < |str| && str[found.value] == delimiter
                            && delimiter !in str[pos..found.value]
    decreases |str| - pos
  {
    if pos == |str| then None
    else if str[pos] == delimiter then Some(pos)
    else
      var found := Find(str, delimiter, pos + 1);
      assert str[pos..] == [str[pos]] + str[pos + 1..];
      assert found.Some? ==> str[pos..found.value] == [str[pos]] + str[pos + 1..found.value];
      found
  }

  /** The fields of `str` from `pos` on. */
  function Split(str: string, delimiter: char, pos: nat): seq<string>
    requires pos <= |str|
    decreases |str| - pos
  {
    var colon := Find(str, delimiter, pos);
    if colon.None? then [str[pos..]]
    else [str[pos..colon.value]] + Split(str, delimiter, colon.value + 1)
  }

  method SplitString(str: string, delimiter: char) returns (dest: seq<string>)
    ensures dest == Split(str, delimiter, 0)
  {
    var parsed: seq<string> := [];
    var pos := 0;
    while true
      invariant 0 <= pos <= |str|
      invariant Split(str, delimiter, 0) == parsed + Split(str, delimiter, pos)
      decreases |str| - pos
    {
      var colon := Find(str, delimiter, pos);
      if colon.None? {
        parsed := parsed + [str[pos..]];
        break;
      } else {
        parsed := parsed + [str[pos..colon.value]];
        pos := colon.value + 1;
      }
    }
    dest := parsed;
  }

  function Join(fields: seq<string>, delimiter: char): string
    requires fields != []
  {
    if |fields| == 1 then fields[0] else fields[0] + [delimiter] + Join(fields[1..], delimiter)
  }

  lemma {:induction false} FindsFirst(str: string, delimiter: char, pos: nat, end: nat)
    requires pos <= end <= |str| && delimiter !in str[pos..end] && (end < |str| ==> str[end] == delimiter)
    ensures Find(str, delimiter, pos) == if end < |str| then Some(end) else None
    decreases end - pos
  {
    if pos < end {
      assert str[pos..end] == [str[pos]] + str[pos + 1..end];
      FindsFirst(str, delimiter, pos + 1, end);
    }
  }

  lemma JoinFromSecond(before: string, fields: seq<string>, delimiter: char)
    requires |fields| > 1
    ensures before + Join(fields, delimiter) == (before + fields[0] + [delimiter]) + Join(fields[1..], delimiter)
  {
  }

  lemma FirstField(before: string, field: string, after: string)
    ensures var str := before + field + after;
            var end := |before| + |field|;
            str[|before|..end] == field && (after == "" ==> end == |str|) && (after != "" ==> str[end] == after[0])
  {
  }

  /** Splitting undoes joining, for fields that do not contain the delimiter. */
  lemma {:induction false} SplitOfJoin(before: string, fields: seq<string>, delimiter: char)
    requires fields != [] && forall i :: 0 <= i < |fields| ==> delimiter !in fields[i]
    ensures Split(before + Join(fields, delimiter), delimiter, |before|) == fields
    decreases |fields|
  {
    var str := before + Join(fields, delimiter);
    var end := |before| + |fields[0]|;
    if |fields| == 1 {
      assert str == before + fields[0] + "";
      FirstField(before, fields[0], "");
      FindsFirst(str, delimiter, |before|, end);
      assert str[|before|..] == fields[0];
    } else {
      var rest := Join(fields[1..], delimiter);
      assert str == before + fields[0] + ([delimiter] + rest);
      FirstField(before, fields[0], [delimiter] + rest);
      FindsFirst(str, delimiter, |before|, end);
      JoinFromSecond(before, fields, delimiter);
      SplitOfJoin(before + fields[0] + [delimiter], fields[1..], delimiter);
      assert fields == [fields[0]] + fields[1..];
    }
  }

  lemma {:induction false} FieldsHaveNoDelimiter(str: string, delimiter: char, pos: nat)
    requires pos <= |str|
    ensures forall field :: field in Split(str, delimiter, pos) ==> delimiter !in field
    decreases |str| - pos
  {
    var colon := Find(str, delimiter, pos);
    if colon.Some? {
      FieldsHaveNoDelimiter(str, delimiter, colon.value + 1);
    }
  }

  /** Joining undoes splitting, for all strings, and no field holds the delimiter. */
  lemma {:induction false} JoinOfSplit(str: string, delimiter: char, pos: nat)
    requires pos <= |str|
    ensures Split(str, delimiter, pos) != [] && Join(Split(str, delimiter, pos), delimiter) == str[pos..]
    ensures forall field :: field in Split(str, delimiter, pos) ==> delimiter !in field
    decreases |str| - pos
  {
    FieldsHaveNoDelimiter(str, delimiter, pos);
    var colon := Find(str, delimiter, pos);
    if colon.Some? {
      JoinOfSplit(str, delimiter, colon.value + 1);
      var fields := Split(str, delimiter, colon.value + 1);
      var first := str[pos..colon.value];
      assert ([first] + fields)[1..] == fields;
      assert str[pos..] == first + [delimiter] + str[colon.value + 1..];
    }
  }

  function Count(str: string, c: char): nat {
    if str == "" then 0 else (if str[0] == c then 1 else 0) + Count(str[1..], c)
  }

  lemma {:induction false} CountConcat(a: string, b: string, c: char)
    ensures Count(a + b, c) == Count(a, c) + Count(b, c)
  {
    if a == "" {
      assert a + b == b;
    } else {
      assert (a + b)[1..] == a[1..] + b;
      CountConcat(a[1..], b, c);
    }
  }

  lemma {:induction false} CountAbsent(str: string, c: char)
    ensures Count(str, c) == 0 <==> c !in str
  {
    if str != "" {
      CountAbsent(str[1..], c);
      assert str == [str[0]] + str[1..];
    }
  }

  /** There is one more field than delimiters. */
  lemma {:induction false} SplitLength(str: string, delimiter: char, pos: nat)
    requires pos <= |str|
    ensures |Split(str, delimiter, pos)| == Count(str[pos..], delimiter) + 1
    decreases |str| - pos
  {
    var colon := Find(str, delimiter, pos);
    if colon.None? {
      CountAbsent(str[pos..], delimiter);
    } else {
      var end := colon.value;
      SplitLength(str, delimiter, end + 1);
      CountAround(str, delimiter, pos, end);
    }
  }

  lemma CountAround(str: string, c: char, pos: nat, end: nat)
    requires pos <= end < |str| && str[end] == c && c !in str[pos..end]
    ensures Count(str[pos..], c) == 1 + Count(str[end + 1..], c)
  {
    CountAbsent(str[pos..end], c);
    CountConcat(str[pos..end], str[end..], c);
    assert str[pos..] == str[pos..end] + str[end..];
    assert str[end..][1..] == str[end + 1..];
  }

  // ----- Natural numbers ----------------------------------------------------------------------------

  const ULLONG_MAX: nat := 0xFFFF_FFFF_FFFF_FFFF

  /** static_cast<int> of an unsigned long long. */
  function ToInt(v: nat): int {
    (v + 0x8000_0000) % 0x1_0000_0000 - 0x8000_0000
  }

  /** static_cast<unsigned long long> of an int. */
  function ToUnsigned(i: int): nat {
    i % 0x1_0000_0000_0000_0000
  }

  /** The length of the run of digits in front. */
  function DigitRun(s: string): (n: nat)
    ensures n <= |s| && AllDigits(s[..n]) && (n < |s| ==> !IsDigit(s[n]))
  {
    if s != "" && IsDigit(s[0]) then
      assert s[..DigitRun(s[1..]) + 1] == [s[0]] + s[1..][..DigitRun(s[1..])];
      1 + DigitRun(s[1..])
    else 0
  }

  /** ParseNaturalNumber for an int; strtoull stops at the first character that is no digit and
      saturates with ERANGE. */
  function ParseNaturalNumber(str: string): Option<int> {
    if str == "" || !IsDigit(str[0]) then None
    else
      var end := DigitRun(str);
      var exact := Number(str[..end]);
      var parsed := if exact > ULLONG_MAX then ULLONG_MAX else exact;
      var parseSuccess := (end == |str| || str[end] == '\0') && exact <= ULLONG_MAX;
      var result := ToInt(parsed);
      if parseSuccess && ToUnsigned(result) == parsed then Some(result) else None
  }

  lemma Conversions(v: nat)
    requires v <= ULLONG_MAX
    ensures v <= INT_MAX ==> ToInt(v) == v && ToUnsigned(ToInt(v)) == v
    ensures ULLONG_MAX - INT_MAX <= v ==> ToInt(v) == v - (ULLONG_MAX + 1) && ToUnsigned(ToInt(v)) == v
    ensures INT_MAX < v < ULLONG_MAX - INT_MAX ==> ToUnsigned(ToInt(v)) != v
  {
  }

  lemma ParsesOnlyDigits(str: string)
    requires '\0' !in str && ParseNaturalNumber(str).Some?
    ensures str != "" && AllDigits(str) && Number(str) <= ULLONG_MAX
    ensures ParseNaturalNumber(str).value == ToInt(Number(str)) && ToUnsigned(ToInt(Number(str))) == Number(str)
  {
    var end := DigitRun(str);
    assert end == |str|;
    assert str[..end] == str;
  }

  lemma ParsesDigits(str: string)
    requires str != "" && AllDigits(str) && Number(str) <= ULLONG_MAX && ToUnsigned(ToInt(Number(str))) == Number(str)
    ensures ParseNaturalNumber(str) == Some(ToInt(Number(str)))
  {
    assert DigitRun(str) == |str|;
    assert str[..|str|] == str;
  }

  /** A C string is accepted exactly when it is a nonempty string of digits whose number fits an int
      or lies within 2^31 below 2^64; in the latter case the number stored is negative, because
      the widening conversion back extends the sign. */
  lemma ParsesExactly(str: string, v: int)
    requires '\0' !in str
    ensures ParseNaturalNumber(str) == Some(v) <==>
            && str != "" && AllDigits(str)
            && (if v >= 0 then Number(str) == v <= INT_MAX
                else Number(str) == v + ULLONG_MAX + 1 && -0x8000_0000 <= v)
  {
    if ParseNaturalNumber(str) == Some(v) {
      ParsesOnlyDigits(str);
      Conversions(Number(str));
    }
    if str != "" && AllDigits(str) && Number(str) <= ULLONG_MAX {
      Conversions(Number(str));
      if ToUnsigned(ToInt(Number(str))) == Number(str) {
        ParsesDigits(str);
      }
    }
  }

  /** Overflow is noticed, so that the number stored is the one written, exactly when the number
      written is not within 2^31 below 2^64. */
  lemma ParsedNumberIsTheOneWrittenIff(str: string)
    requires '\0' !in str && ParseNaturalNumber(str).Some?
    ensures AllDigits(str)
    ensures ParseNaturalNumber(str).value == Number(str) <==> Number(str) < ULLONG_MAX - INT_MAX
  {
    ParsesExactly(str, ParseNaturalNumber(str).value);
  }

  /** 2^64 - 1 is taken for -1. */
  lemma LargestIsMinusOne()
    ensures ParseNaturalNumber(Digits(ULLONG_MAX)) == Some(-1)
  {
    NumberOfDigits(ULLONG_MAX);
    Conversions(ULLONG_MAX);
    ParsesDigits(Digits(ULLONG_MAX));
  }

  lemma ParsesDecimal(i: int)
    requires 0 <= i <= INT_MAX
    ensures ParseNaturalNumber(Decimal(i)) == Some(i) && '|' !in Decimal(i)
  {
    NumberOfDigits(i);
    Conversions(i);
    ParsesDigits(Decimal(i));
  }

  // ----- The flag ------------------------------------------------------------------------------------

  datatype Flag = Flag(file: string, line: int, index: int, writeFd: int)

  datatype ParsedFlag = NoFlag | BadFlag | GivenFlag(flag: Flag)

  /** The value that the parent gives to --gtest_internal_run_death_test. */
  function FlagText(flag: Flag): string {
    flag.file + "|" + Decimal(flag.line) + "|" + Decimal(flag.index) + "|" + Decimal(flag.writeFd)
  }

  method ParseInternalRunDeathTestFlag(text: string) returns (parsed: ParsedFlag)
    ensures parsed == ParseFlag(text)
  {
    if text == "" {
      return NoFlag;
    }
    var fields := SplitString(text, '|');
    if |fields| != 4 {
      return BadFlag;
    }
    var line, index := ParseNaturalNumber(fields[1]), ParseNaturalNumber(fields[2]);
    var writeFd := ParseNaturalNumber(fields[3]);
    if line.None? || index.None? || writeFd.None? {
      return BadFlag;
    }
    return GivenFlag(Flag(fields[0], line.value, index.value, writeFd.value));
  }

  function ParseFlag(text: string): ParsedFlag {
    var fields := Split(text, '|', 0);
    if text == "" then NoFlag
    else if |fields| != 4 then BadFlag
    else
      var line, index := ParseNaturalNumber(fields[1]), ParseNaturalNumber(fields[2]);
      var writeFd := ParseNaturalNumber(fields[3]);
      if line.None? || index.None? || writeFd.None? then BadFlag
      else GivenFlag(Flag(fields[0], line.value, index.value, writeFd.value))
  }

  predicate Representable(flag: Flag) {
    0 <= flag.line <= INT_MAX && 0 <= flag.index <= INT_MAX && 0 <= flag.writeFd <= INT_MAX
  }

  lemma FlagTextIsJoin(flag: Flag)
    ensures FlagText(flag) == Join([flag.file, Decimal(flag.line), Decimal(flag.index), Decimal(flag.writeFd)], '|')
  {
    var fields := [flag.file, Decimal(flag.line), Decimal(flag.index), Decimal(flag.writeFd)];
    assert fields[1..][1..][1..] == [Decimal(flag.writeFd)];
    assert Join(fields[1..][1..], '|') == Decimal(flag.index) + "|" + Decimal(flag.writeFd);
    assert Join(fields[1..], '|') == Decimal(flag.line) + "|" + (Decimal(flag.index) + "|" + Decimal(flag.writeFd));
  }

  lemma FlagRoundTrip(flag: Flag)
    requires Representable(flag) && '|' !in flag.file
    ensures ParseFlag(FlagText(flag)) == GivenFlag(flag)
  {
    ParsesDecimal(flag.line);
    ParsesDecimal(flag.index);
    ParsesDecimal(flag.writeFd);
    var fields := [flag.file, Decimal(flag.line), Decimal(flag.index), Decimal(flag.writeFd)];
    FlagTextIsJoin(flag);
    SplitOfJoin("", fields, '|');
    assert "" + Join(fields, '|') == FlagText(flag);
  }

  lemma BarSpoilsFlag(flag: Flag)
    requires '|' in flag.file
    ensures ParseFlag(FlagText(flag)) == BadFlag
  {
    var text := FlagText(flag);
    var numbers := Decimal(flag.line) + "|" + Decimal(flag.index) + "|" + Decimal(flag.writeFd);
    assert text == flag.file + ("|" + numbers);
    CountConcat(flag.file, "|" + numbers, '|');
    CountAbsent(flag.file, '|');
    CountConcat("|", numbers, '|');
    CountConcat(Decimal(flag.line) + "|" + Decimal(flag.index) + "|", Decimal(flag.writeFd), '|');
    CountConcat(Decimal(flag.line) + "|" + Decimal(flag.index), "|", '|');
    CountConcat(Decimal(flag.line) + "|", Decimal(flag.index), '|');
    CountConcat(Decimal(flag.line), "|", '|');
    assert text[0..] == text;
    SplitLength(text, '|', 0);
  }

  /** The child gets the four fields back exactly when the file name has no bar in it; otherwise it
      rejects the flag. */
  lemma FlagRoundTripIff(flag: Flag)
    requires Representable(flag)
    ensures ParseFlag(FlagText(flag)) == GivenFlag(flag) <==> '|' !in flag.file
  {
    if '|' in flag.file {
      BarSpoilsFlag(flag);
    } else {
      FlagRoundTrip(flag);
    }
  }

  // ----- Creating death tests ------------------------------------------------------------------------

  /** Where a death test stands in the source. */
  datatype Site = Site(file: string, line: int)

  datatype Decision = Fails | Skips | Builds(kind: Kind)

  datatype Kind = Exec(site: Site) | NoExec

  /** What becomes of the death test that is the `ordinal`-th one met. */
  function Decide(ordinal: int, flag: Option<Flag>, style: string, site: Site): Decision {
    if flag.Some? && ordinal > flag.value.index then Fails
    else if flag.Some? && !(flag.value.file == site.file && flag.value.line == site.line && flag.value.index == ordinal)
    then Skips
    else if style == "threadsafe" then Builds(Exec(site))
    else if style == "fast" then Builds(NoExec)
    else Fails
  }

  class TestResult {
    var deathTestCount: int

    constructor ()
      ensures deathTestCount == 0
    {
      deathTestCount := 0;
    }

    method IncrementDeathTestCount() returns (count: int)
      modifies this
      ensures count == deathTestCount == old(deathTestCount) + 1
    {
      deathTestCount := deathTestCount + 1;
      count := deathTestCount;
    }

    /** DefaultDeathTestFactory::Create: false is an error; true without a test skips it. */
    method Create(flag: Option<Flag>, style: string, site: Site) returns (ok: bool, test: Option<Kind>)
      modifies this
      ensures deathTestCount == old(deathTestCount) + 1
      ensures match Decide(deathTestCount, flag, style, site)
              case Fails => !ok
              case Skips => ok && test == None
              case Builds(kind) => ok && test == Some(kind)
    {
      test := None;
      var index := IncrementDeathTestCount();
      if flag.Some? {
        if index > flag.value.index {
          return false, None;
        }
        if !(flag.value.file == site.file && flag.value.line == site.line && flag.value.index == index) {
          return true, None;
        }
      }
      if style == "threadsafe" {
        test := Some(Exec(site));
      } else if style == "fast" {
        test := Some(NoExec);
      } else {
        return false, None;
      }
      return true, test;
    }
  }

  /** ExecDeathTest::AssumeRole, as far as the flag decides it: the child takes the descriptor from
      the flag, the parent writes the flag for its child. */
  function AssumeExecRole(site: Site, flag: Option<Flag>, deathTestCount: int, pipeWriteEnd: int)
    : (TestRole, Option<int>, Option<string>)
  {
    if flag.Some? then (ExecuteTest, Some(flag.value.writeFd), None)
    else (OverseeTest, None, Some(FlagText(Flag(site.file, site.line, deathTestCount, pipeWriteEnd))))
  }

  /** The flag a parent passes for the death test at position `k` of the sites it meets. */
  function PassedFlag(sites: seq<Site>, k: nat, writeEnd: int): Flag
    requires k < |sites|
  {
    Flag(sites[k].file, sites[k].line, k + 1, writeEnd)
  }

  /** The parent builds every death test it meets, passes the flag for it and oversees the child.
      The child, run over the same sites, reads that flag back, skips every death test before the
      one passed, builds that one, to which it gives the parent's write end, and would reject every
      later one. */
  lemma ChildSelects(sites: seq<Site>, k: nat, writeEnd: int)
    requires k < |sites| && '|' !in sites[k].file && Representable(PassedFlag(sites, k, writeEnd))
    ensures Decide(k + 1, None, "threadsafe", sites[k]) == Builds(Exec(sites[k]))
    ensures var (role, _, text) := AssumeExecRole(sites[k], None, k + 1, writeEnd);
            role == OverseeTest && text.Some? && ParseFlag(text.value) == GivenFlag(PassedFlag(sites, k, writeEnd))
    ensures var flag := Some(PassedFlag(sites, k, writeEnd));
            && (forall i :: 0 <= i < |sites| ==>
                  Decide(i + 1, flag, "threadsafe", sites[i]) ==
                  if i < k then Skips else if i == k then Builds(Exec(sites[k])) else Fails)
            && AssumeExecRole(sites[k], flag, k + 1, writeEnd) == (ExecuteTest, Some(writeEnd), None)
  {
    FlagRoundTrip(PassedFlag(sites, k, writeEnd));
  }

  /** What a death test that is neither skipped nor refused runs as depends on the style alone. */
  lemma KindIffStyle(ordinal: int, flag: Option<Flag>, style: string, site: Site)
    requires flag.Some? ==> flag.value.file == site.file && flag.value.line == site.line && flag.value.index == ordinal
    ensures Decide(ordinal, flag, style, site) == Builds(NoExec) <==> style == "fast"
    ensures Decide(ordinal, flag, style, site) == Builds(Exec(site)) <==> style == "threadsafe"
    ensures Decide(ordinal, flag, style, site) == Fails <==> style !in ["fast", "threadsafe"]
  {
  }

  /** Whatever sites a child meets, it builds at most one death test: the one with the ordinal
      that was passed. */
  lemma ChildBuildsAtMostOne(met: seq<Site>, flag: Flag, style: string, i: nat, j: nat)
    requires i < |met| && j < |met|
    requires Decide(i + 1, Some(flag), style, met[i]).Builds? && Decide(j + 1, Some(flag), style, met[j]).Builds?
    ensures i == j == flag.index - 1
  {
  }

  // ----- A test body, run in parent and child -----------------------------------------------------------

  /** The death tests of a test body in the parent, in turn: for each it passes a flag to a child. */
  method ParentMeets(sites: seq<Site>, writeEnds: seq<int>) returns (flags: seq<string>)
    requires |writeEnds| == |sites|
    ensures |flags| == |sites|
    ensures forall i :: 0 <= i < |sites| ==> flags[i] == FlagText(PassedFlag(sites, i, writeEnds[i]))
  {
    var result := new TestResult();
    flags := [];
    for i := 0 to |sites|
      invariant result.deathTestCount == i == |flags| && fresh(result)
      invariant forall j :: 0 <= j < i ==> flags[j] == FlagText(PassedFlag(sites, j, writeEnds[j]))
    {
      var ok, test := result.Create(None, "threadsafe", sites[i]);
      var (_, _, flag) := AssumeExecRole(sites[i], None, result.deathTestCount, writeEnds[i]);
      flags := flags + [flag.value];
    }
  }

  /** The child gets to execute the statement at position `k`. */
  predicate IsSelected(sites: seq<Site>, flag: Flag, k: nat) {
    k < |sites| && flag.index == k + 1 && sites[k] == Site(flag.file, flag.line)
  }

  /** The death tests of a test body in the child, in turn. Executing a statement ends the child, in
      Abort if not before; a death test that is refused is a failure, after which the body goes on. */
  method ChildMeets(sites: seq<Site>, flag: Flag) returns (executed: Option<nat>, failures: nat)
    ensures executed.Some? ==> IsSelected(sites, flag, executed.value) && failures == 0
    ensures executed.None? ==> forall k :: !IsSelected(sites, flag, k)
    ensures executed.None? ==>
              failures == if flag.index < 0 then |sites| else if |sites| < flag.index then 0 else |sites| - flag.index
  {
    var result := new TestResult();
    failures := 0;
    for i := 0 to |sites|
      invariant result.deathTestCount == i && fresh(result)
      invariant forall k: nat :: k < i ==> !IsSelected(sites, flag, k)
      invariant failures == if flag.index < 0 then i else if i < flag.index then 0 else i - flag.index
    {
      var ok, test := result.Create(Some(flag), "threadsafe", sites[i]);
      if !ok {
        failures := failures + 1;
      } else if test.Some? {
        return Some(i), failures;
      }
    }
    executed := None;
  }

  /** For a body that meets the same sites in both processes, the child that is re-executed for the k-th
      death test executes that one and no other, and reports no failure before it. */
  method ReExecute(sites: seq<Site>, writeEnds: seq<int>, k: nat) returns (executed: Option<nat>, failures: nat)
    requires |writeEnds| == |sites| && k < |sites|
    requires '|' !in sites[k].file && Representable(PassedFlag(sites, k, writeEnds[k]))
    ensures executed == Some(k) && failures == 0
  {
    var flags := ParentMeets(sites, writeEnds);
    FlagRoundTrip(PassedFlag(sites, k, writeEnds[k]));
    var parsed := ParseInternalRunDeathTestFlag(flags[k]);
    executed, failures := ChildMeets(sites, parsed.flag);
    assert IsSelected(sites, parsed.flag, k);
  }
}
