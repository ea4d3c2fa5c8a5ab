/** Google Test's printer of char arrays, and the C reader of string literals that undoes it. */
module StringPrinter {
  import opened CTypes
  import opened Wrappers

  // ----- The printer ---------------------------------------------------------------------------

  datatype CharFormat = AsIs | HexEscape | SpecialEscape

  function HexDigit(d: nat): char
    requires d < 16
  {
    if d < 10 then '0' + d as char else 'A' + (d - 10) as char
  }

  function FormatHexInt(value: nat): string {
    if value < 16 then [HexDigit(value)] else FormatHexInt(value / 16) + [HexDigit(value % 16)]
  }

  predicate IsPrintableAscii(c: Byte) {
    0x20 <= c <= 0x7E
  }

  predicate IsHexDigit(c: char) {
    '0' <= c <= '9' || 'A' <= c <= 'F' || 'a' <= c <= 'f'
  }

  /** The letter of a special escape in a string literal, if `c` has one. */
  function SpecialLetter(c: Byte): Option<char> {
    match c
    case 0 => Some('0')
    case 7 => Some('a')
    case 8 => Some('b')
    case 9 => Some('t')
    case 10 => Some('n')
    case 11 => Some('v')
    case 12 => Some('f')
    case 13 => Some('r')
    case 34 => Some('"')
    case 92 => Some('\\')
    case _ => None
  }

  function FormatOf(c: Byte): CharFormat {
    if SpecialLetter(c).Some? then SpecialEscape
    else if IsPrintableAscii(c) then AsIs
    else HexEscape
  }

  /** How `c` is written in a string literal. */
  function Escaped(c: Byte): string {
    match FormatOf(c)
    case SpecialEscape => ['\\', SpecialLetter(c).value]
    case AsIs => [c as char]
    case HexEscape => "\\x" + FormatHexInt(c)
  }

  /** Behind a hexadecimal escape, the literal is broken before a hexadecimal digit. */
  function Break(afterHex: bool, c: Byte): string {
    if afterHex && IsHexDigit(c as char) then "\" \"" else ""
  }

  /** The inside of the literal for `bs`. */
  function Body(bs: seq<Byte>, afterHex: bool): string {
    if bs == [] then ""
    else Break(afterHex, bs[0]) + Escaped(bs[0]) + Body(bs[1..], FormatOf(bs[0]) == HexEscape)
  }

  function Literal(bs: seq<Byte>): string {
    "\"" + Body(bs, false) + "\""
  }

  const NOT_TERMINATED := " (no terminating NUL)"

  function PrintedArray(bs: seq<Byte>): string {
    if bs != [] && bs[|bs| - 1] == 0 then Literal(bs[..|bs| - 1])
    else Literal(bs) + NOT_TERMINATED
  }

  // ----- The printed bytes, written out -------------------------------------------------------------

  const HEX_DIGITS := "0123456789ABCDEF"

  lemma HexIsWrittenOut(c: Byte)
    ensures FormatHexInt(c) == if c < 16 then [HEX_DIGITS[c]] else [HEX_DIGITS[c / 16], HEX_DIGITS[c % 16]]
  {
    HexDigitIsWrittenOut(c % 16);
    HexDigitIsWrittenOut(c / 16);
    assert c >= 16 ==> FormatHexInt(c / 16) == [HexDigit(c / 16)];
  }

  lemma HexDigitIsWrittenOut(d: nat)
    requires d < 16
    ensures HexDigit(d) == HEX_DIGITS[d]
  {
  }

  /** The bytes that stand for themselves are the printable ones other than quote and backslash. */
  lemma StandsForItselfIff(c: Byte)
    ensures Escaped(c) == [c as char] <==> ' ' as int <= c <= '~' as int && c != '"' as int && c != '\\' as int
    ensures Escaped(c) == [c as char] <==> FormatOf(c) == AsIs
  {
  }

  /** Every other byte is written as one of these escapes, or else in hexadecimal. */
  lemma EscapesAreWrittenOut(c: Byte)
    ensures c == 0 ==> Escaped(c) == "\\0"
    ensures c == 7 ==> Escaped(c) == "\\a"
    ensures c == 8 ==> Escaped(c) == "\\b"
    ensures c == 9 ==> Escaped(c) == "\\t"
    ensures c == 10 ==> Escaped(c) == "\\n"
    ensures c == 11 ==> Escaped(c) == "\\v"
    ensures c == 12 ==> Escaped(c) == "\\f"
    ensures c == 13 ==> Escaped(c) == "\\r"
    ensures c == 34 ==> Escaped(c) == "\\\""
    ensures c == 92 ==> Escaped(c) == "\\\\"
    ensures c !in [0, 7, 8, 9, 10, 11, 12, 13] && !(' ' as int <= c <= '~' as int) ==>
              Escaped(c) == "\\x" + FormatHexInt(c)
  {
  }

  /** An array without a final NUL is told by a remark. */
  lemma PrintedArrayIs(bs: seq<Byte>)
    ensures PrintedArray(bs + [0]) == Literal(bs)
    ensures bs == [] || bs[|bs| - 1] != 0 ==> PrintedArray(bs) == Literal(bs) + " (no terminating NUL)"
  {
    assert (bs + [0])[..|bs|] == bs;
  }

  class OStream {
    var text: string

    constructor ()
      ensures text == ""
    {
      text := "";
    }

    method Write(s: string)
      modifies this
      ensures text == old(text) + s
    {
      text := text + s;
    }
  }

  /** The char literal form: escapes the single quote, not the double quote. */
  method PrintAsCharLiteralTo(c: Byte, os: OStream) returns (format: CharFormat)
    modifies os
    ensures c != '\'' as int && c != '"' as int ==> os.text == old(os.text) + Escaped(c) && format == FormatOf(c)
    ensures c == '\'' as int ==> os.text == old(os.text) + "\\'" && format == SpecialEscape
    ensures c == '"' as int ==> os.text == old(os.text) + "\"" && format == AsIs
  {
    match c {
    case 0 => os.Write("\\0");
    case 39 => os.Write("\\'");
    case 92 => os.Write("\\\\");
    case 7 => os.Write("\\a");
    case 8 => os.Write("\\b");
    case 12 => os.Write("\\f");
    case 10 => os.Write("\\n");
    case 13 => os.Write("\\r");
    case 9 => os.Write("\\t");
    case 11 => os.Write("\\v");
    case _ =>
      if IsPrintableAscii(c) {
        os.Write([c as char]);
        return AsIs;
      } else {
        os.Write("\\x" + FormatHexInt(c));
        return HexEscape;
      }
    }
    return SpecialEscape;
  }

  method PrintAsStringLiteralTo(c: Byte, os: OStream) returns (format: CharFormat)
    modifies os
    ensures os.text == old(os.text) + Escaped(c) && format == FormatOf(c)
  {
    if c == '\'' as int {
      os.Write("'");
      return AsIs;
    } else if c == '"' as int {
      os.Write("\\\"");
      return SpecialEscape;
    }
    format := PrintAsCharLiteralTo(c, os);
  }

  lemma BodyStep(bs: seq<Byte>, index: nat, afterHex: bool, written: string)
    requires index < |bs|
    ensures written + Body(bs[index..], afterHex) ==
            written + Break(afterHex, bs[index]) + Escaped(bs[index])
            + Body(bs[index + 1..], FormatOf(bs[index]) == HexEscape)
  {
    assert bs[index..][0] == bs[index] && bs[index..][1..] == bs[index + 1..];
    Append3(written, Break(afterHex, bs[index]), Escaped(bs[index]),
            Body(bs[index + 1..], FormatOf(bs[index]) == HexEscape));
  }

  lemma Append3(a: string, b: string, c: string, d: string)
    ensures a + (b + c + d) == a + b + c + d
  {
  }

  method PrintCharAt(bs: seq<Byte>, index: nat, isPreviousHex: bool, os: OStream) returns (isHex: bool)
    requires index < |bs|
    modifies os
    ensures os.text + Body(bs[index + 1..], isHex) == old(os.text) + Body(bs[index..], isPreviousHex)
  {
    BodyStep(bs, index, isPreviousHex, os.text);
    var cur := bs[index];
    if isPreviousHex && IsHexDigit(cur as char) {
      os.Write("\" " + "\"");
    }
    assert os.text == old(os.text) + Break(isPreviousHex, cur);
    var format := PrintAsStringLiteralTo(cur, os);
    isHex := format == HexEscape;
  }

  method PrintCharsAsStringTo(bs: seq<Byte>, os: OStream)
    modifies os
    ensures os.text == old(os.text) + Literal(bs)
  {
    os.Write("\"");
    var isPreviousHex := false;
    var index := 0;
    assert bs[0..] == bs;
    while index < |bs|
      invariant 0 <= index <= |bs|
      invariant os.text + Body(bs[index..], isPreviousHex) == old(os.text) + "\"" + Body(bs, false)
    {
      isPreviousHex := PrintCharAt(bs, index, isPreviousHex, os);
      index := index + 1;
    }
    assert os.text + "" == os.text;
    os.Write("\"");
  }

  method UniversalPrintCharArray(bs: seq<Byte>, os: OStream)
    modifies os
    ensures os.text == old(os.text) + PrintedArray(bs)
  {
    if |bs| > 0 && bs[|bs| - 1] == 0 {
      PrintCharsAsStringTo(bs[..|bs| - 1], os);
      return;
    }
    PrintCharsAsStringTo(bs, os);
    os.Write(NOT_TERMINATED);
  }

  // ----- Reading string literals by the C standard ------------------------------------------------

  predicate IsOctalDigit(c: char) {
    '0' <= c <= '7'
  }

  function OctalValue(c: char): nat
    requires IsOctalDigit(c)
  {
    c as int - '0' as int
  }

  /** Octal and hexadecimal digits, written out. */
  lemma DigitsAreWrittenOut(c: char)
    ensures IsOctalDigit(c) <==> c in "01234567"
    ensures IsOctalDigit(c) ==> OctalValue(c) < 8 && "01234567"[OctalValue(c)] == c
    ensures IsHexDigit(c) <==> c in "0123456789ABCDEF" || c in "0123456789abcdef"
    ensures IsHexDigit(c) ==> HexValue(c) < 16
    ensures IsHexDigit(c) ==> c == "0123456789ABCDEF"[HexValue(c)] || c == "0123456789abcdef"[HexValue(c)]
  {
    if IsOctalDigit(c) {
      assert "01234567"[OctalValue(c)] == c;
    }
    if IsHexDigit(c) {
      assert c == "0123456789ABCDEF"[HexValue(c)] || c == "0123456789abcdef"[HexValue(c)];
    }
  }

  function HexValue(c: char): nat
    requires IsHexDigit(c)
  {
    if c <= '9' then c as int - '0' as int
    else if c <= 'F' then c as int - 'A' as int + 10
    else c as int - 'a' as int + 10
  }

  /** The value and the end of the run of hexadecimal digits in front of `t`. */
  function HexRun(t: string, value: nat): (r: (nat, string))
    ensures |r.1| <= |t|
  {
    if t != "" && IsHexDigit(t[0]) then HexRun(t[1..], 16 * value + HexValue(t[0])) else (value, t)
  }

  /** The value and the end of a run of at most `limit` octal digits in front of `t`. */
  function OctalRun(t: string, limit: nat, value: nat): (r: (nat, string))
    ensures |r.1| <= |t| && (limit > 0 && t != "" && IsOctalDigit(t[0]) ==> |r.1| < |t|)
    decreases |t|
  {
    if limit > 0 && t != "" && IsOctalDigit(t[0]) then
      OctalRun(t[1..], limit - 1, 8 * value + OctalValue(t[0]))
    else (value, t)
  }

  function SimpleEscape(c: char): Option<Byte> {
    match c
    case '\'' => Some(39)
    case '"' => Some(34)
    case '?' => Some(63)
    case '\\' => Some(92)
    case 'a' => Some(7)
    case 'b' => Some(8)
    case 'f' => Some(12)
    case 'n' => Some(10)
    case 'r' => Some(13)
    case 't' => Some(9)
    case 'v' => Some(11)
    case _ => None
  }

  /** ISO C11 section 6.4.4.4: the value of the escape sequence behind a backslash, and what is
      left of the text. With `nulIsComplete`, `\0` is an escape of its own. */
  function ReadEscape(t: string, nulIsComplete: bool): (r: Option<(Byte, string)>)
    ensures r.Some? ==> |r.value.1| < |t|
  {
    if t == "" then None
    else if SimpleEscape(t[0]).Some? then Some((SimpleEscape(t[0]).value, t[1..]))
    else if t[0] == '0' && nulIsComplete then Some((0, t[1..]))
    else if IsOctalDigit(t[0]) then
      var (value, rest) := OctalRun(t, 3, 0);
      if value < 256 then Some((value, rest)) else None
    else if t[0] == 'x' && |t| > 1 && IsHexDigit(t[1]) then
      var (value, rest) := HexRun(t[1..], 0);
      if value < 256 then Some((value, rest)) else None
    else None
  }

  /** Section 6.4.5: reading inside a string literal. */
  function ReadInside(t: string, nulIsComplete: bool): Option<seq<Byte>>
    decreases |t|
  {
    if t == "" || t[0] == '\n' then None
    else if t[0] == '"' then ReadBehind(t[1..], nulIsComplete)
    else if t[0] == '\\' then
      var escape := ReadEscape(t[1..], nulIsComplete);
      if escape.None? then None
      else Cons(escape.value.0, ReadInside(escape.value.1, nulIsComplete))
    else if t[0] as int < 256 then Cons(t[0] as int, ReadInside(t[1..], nulIsComplete))
    else None
  }

  /** Section 5.1.1.2, phase 6: adjacent literals are one. */
  function ReadBehind(t: string, nulIsComplete: bool): Option<seq<Byte>>
    decreases |t|
  {
    if t == "" then Some([])
    else if t[0] == ' ' then ReadBehind(t[1..], nulIsComplete)
    else if t[0] == '"' then ReadInside(t[1..], nulIsComplete)
    else None
  }

  function Cons(b: Byte, r: Option<seq<Byte>>): Option<seq<Byte>> {
    if r.Some? then Some([b] + r.value) else None
  }

  function ReadLiterals(t: string, nulIsComplete: bool): Option<seq<Byte>> {
    if t != "" && t[0] == '"' then ReadInside(t[1..], nulIsComplete) else None
  }

  // ----- The printed text read back ---------------------------------------------------------------

  lemma HexRunStep(d: nat, rest: string, value: nat)
    requires d < 16
    ensures IsHexDigit(HexDigit(d)) && HexRun([HexDigit(d)] + rest, value) == HexRun(rest, 16 * value + d)
  {
    assert ([HexDigit(d)] + rest)[1..] == rest;
  }

  lemma ReadHexInt(c: Byte, rest: string)
    requires rest == "" || !IsHexDigit(rest[0])
    ensures var digits := FormatHexInt(c);
            digits != "" && IsHexDigit(digits[0]) && HexRun(digits + rest, 0) == (c, rest)
  {
    if c < 16 {
      HexRunStep(c, rest, 0);
    } else {
      var more := [HexDigit(c % 16)] + rest;
      assert FormatHexInt(c) + rest == [HexDigit(c / 16)] + more;
      HexRunStep(c / 16, more, 0);
      HexRunStep(c % 16, rest, c / 16);
    }
  }

  lemma ReadEscapedHex(c: Byte, rest: string, nulIsComplete: bool)
    requires FormatOf(c) == HexEscape && (rest == "" || !IsHexDigit(rest[0]))
    ensures ReadInside(Escaped(c) + rest, nulIsComplete) == Cons(c, ReadInside(rest, nulIsComplete))
  {
    ReadHexInt(c, rest);
    var text := Escaped(c) + rest;
    assert text[1..] == "x" + (FormatHexInt(c) + rest);
    assert text[1..][1..] == FormatHexInt(c) + rest;
  }

  lemma ReadEscapedSpecial(c: Byte, rest: string, nulIsComplete: bool)
    requires FormatOf(c) == SpecialEscape
    requires c == 0 && !nulIsComplete ==> rest == "" || !IsOctalDigit(rest[0])
    ensures ReadInside(Escaped(c) + rest, nulIsComplete) == Cons(c, ReadInside(rest, nulIsComplete))
  {
    var text := Escaped(c) + rest;
    assert text[1..][0] == SpecialLetter(c).value;
    assert text[1..][1..] == rest;
    if c == 0 && !nulIsComplete {
      assert OctalRun(text[1..], 3, 0) == OctalRun(rest, 2, 0) == (0, rest);
    }
  }

  /** One written byte is read back, unless what follows could be taken for more of its escape. */
  lemma ReadEscaped(c: Byte, rest: string, nulIsComplete: bool)
    requires FormatOf(c) == HexEscape ==> rest == "" || !IsHexDigit(rest[0])
    requires c == 0 && !nulIsComplete ==> rest == "" || !IsOctalDigit(rest[0])
    ensures ReadInside(Escaped(c) + rest, nulIsComplete) == Cons(c, ReadInside(rest, nulIsComplete))
  {
    match FormatOf(c)
    case AsIs => assert (Escaped(c) + rest)[1..] == rest;
    case SpecialEscape => ReadEscapedSpecial(c, rest, nulIsComplete);
    case HexEscape => ReadEscapedHex(c, rest, nulIsComplete);
  }

  lemma ReadBreak(rest: string, nulIsComplete: bool)
    ensures ReadInside("\" \"" + rest, nulIsComplete) == ReadInside(rest, nulIsComplete)
  {
    var text := "\" \"" + rest;
    assert text[1..][0] == ' ' && text[1..][1..][0] == '"' && text[1..][1..][1..] == rest;
    assert ReadInside(text, nulIsComplete) == ReadBehind(text[1..], nulIsComplete);
    assert ReadBehind(text[1..], nulIsComplete) == ReadBehind(text[1..][1..], nulIsComplete);
  }

  /** What stands behind the byte written before `bs`: the rest of the literal and its quote. */
  function Remaining(bs: seq<Byte>, afterHex: bool): string {
    Body(bs, afterHex) + "\""
  }

  lemma RemainingStep(bs: seq<Byte>, afterHex: bool)
    requires bs != []
    ensures Remaining(bs, afterHex) ==
            Break(afterHex, bs[0]) + (Escaped(bs[0]) + Remaining(bs[1..], FormatOf(bs[0]) == HexEscape))
  {
  }

  lemma EscapedHead(c: Byte)
    ensures Escaped(c) != ""
    ensures if FormatOf(c) == AsIs then Escaped(c) == [c as char] else Escaped(c)[0] == '\\'
  {
  }

  /** What follows can be taken for more of an escape only if the next byte is such a digit, and
      behind a hexadecimal escape not even then. */
  lemma RemainingHead(bs: seq<Byte>, afterHex: bool)
    ensures var t := Remaining(bs, afterHex);
            && t != ""
            && (afterHex ==> !IsHexDigit(t[0]))
            && (!afterHex ==> (IsOctalDigit(t[0]) <==> bs != [] && IsOctalDigit(bs[0] as char)))
  {
    if bs != [] {
      RemainingStep(bs, afterHex);
      EscapedHead(bs[0]);
    }
  }

  lemma ReadRemaining(bs: seq<Byte>, afterHex: bool, nulIsComplete: bool)
    requires bs != []
    requires bs[0] == 0 && !nulIsComplete ==> |bs| == 1 || !IsOctalDigit(bs[1] as char)
    ensures ReadInside(Remaining(bs, afterHex), nulIsComplete) ==
            Cons(bs[0], ReadInside(Remaining(bs[1..], FormatOf(bs[0]) == HexEscape), nulIsComplete))
  {
    var rest := Remaining(bs[1..], FormatOf(bs[0]) == HexEscape);
    RemainingStep(bs, afterHex);
    RemainingHead(bs[1..], FormatOf(bs[0]) == HexEscape);
    ReadEscaped(bs[0], rest, nulIsComplete);
    if afterHex && IsHexDigit(bs[0] as char) {
      ReadBreak(Escaped(bs[0]) + rest, nulIsComplete);
    } else {
      assert "" + (Escaped(bs[0]) + rest) == Escaped(bs[0]) + rest;
    }
  }

  /** With `\0` read as one complete escape, reading undoes printing for all bytes. */
  lemma {:induction false} ReadBodyComplete(bs: seq<Byte>, afterHex: bool)
    ensures ReadInside(Remaining(bs, afterHex), true) == Some(bs)
  {
    if bs == [] {
      assert Remaining(bs, afterHex) == "\"";
    } else {
      ReadRemaining(bs, afterHex, true);
      ReadBodyComplete(bs[1..], FormatOf(bs[0]) == HexEscape);
      assert [bs[0]] + bs[1..] == bs;
    }
  }

  lemma ReadLiteralComplete(bs: seq<Byte>)
    ensures ReadLiterals(Literal(bs), true) == Some(bs)
  {
    ReadBodyComplete(bs, false);
    assert Literal(bs)[1..] == Remaining(bs, false);
  }

  /** Different arrays are printed differently. */
  lemma PrintedArrayInjective(a: seq<Byte>, b: seq<Byte>)
    requires PrintedArray(a) == PrintedArray(b)
    ensures a == b
  {
    PrintedArrayEnd(a);
    PrintedArrayEnd(b);
    var x, y := Unterminated(a), Unterminated(b);
    var s := PrintedArray(a);
    if |a| == |x| {
      var n := |NOT_TERMINATED|;
      assert s[..|s| - n] == Literal(x);
      assert s[..|s| - n] == Literal(y);
    }
    ReadLiteralComplete(x);
    ReadLiteralComplete(y);
  }

  predicate IsTerminated(bs: seq<Byte>) {
    bs != [] && bs[|bs| - 1] == 0
  }

  function Unterminated(bs: seq<Byte>): seq<Byte> {
    if IsTerminated(bs) then bs[..|bs| - 1] else bs
  }

  lemma PrintedArrayEnd(bs: seq<Byte>)
    ensures var s := PrintedArray(bs);
            s != "" && (s[|s| - 1] == '"' <==> IsTerminated(bs))
  {
  }

  // ----- Standard reading: what happens to a NUL before an octal digit -------------------------------

  /** The bytes that the printed text stands for: a NUL and the octal digits behind it, at most
      two, become one byte. */
  function Merged(bs: seq<Byte>): (r: seq<Byte>)
    ensures |r| <= |bs|
  {
    if bs == [] then []
    else if bs[0] == 0 && |bs| > 1 && IsOctalDigit(bs[1] as char) then
      if |bs| > 2 && IsOctalDigit(bs[2] as char) then
        [8 * OctalValue(bs[1] as char) + OctalValue(bs[2] as char)] + Merged(bs[3..])
      else [OctalValue(bs[1] as char)] + Merged(bs[2..])
    else [bs[0]] + Merged(bs[1..])
  }

  lemma OctalRunStep(d: char, rest: string, limit: nat, value: nat)
    requires IsOctalDigit(d)
    ensures OctalRun([d] + rest, limit + 1, value) == OctalRun(rest, limit, 8 * value + OctalValue(d))
  {
    assert ([d] + rest)[1..] == rest;
  }

  lemma ReadInsideEscape(t: string, nulIsComplete: bool, b: Byte, rest: string)
    requires ReadEscape(t, nulIsComplete) == Some((b, rest))
    ensures ReadInside("\\" + t, nulIsComplete) == Cons(b, ReadInside(rest, nulIsComplete))
  {
    assert ("\\" + t)[1..] == t;
  }

  lemma ReadZeroEscape(t: string)
    requires t != "" && t[0] == '0'
    ensures var (value, rest) := OctalRun(t, 3, 0);
            value < 256 ==> ReadEscape(t, false) == Some((value, rest))
  {
  }

  lemma OctalRunStops(rest: string, limit: nat, value: nat)
    requires rest == "" || !IsOctalDigit(rest[0])
    ensures OctalRun(rest, limit, value) == (value, rest)
  {
  }

  lemma ReadNulAndOctal(d: char, rest: string)
    requires IsOctalDigit(d) && (rest == "" || !IsOctalDigit(rest[0]))
    ensures ReadInside("\\" + (['0'] + ([d] + rest)), false) == Cons(OctalValue(d), ReadInside(rest, false))
  {
    var t := ['0'] + ([d] + rest);
    assert OctalRun(t, 3, 0) == (OctalValue(d), rest) by {
      OctalRunStep('0', [d] + rest, 2, 0);
      OctalRunStep(d, rest, 1, 0);
      OctalRunStops(rest, 1, OctalValue(d));
    }
    ReadZeroEscape(t);
    ReadInsideEscape(t, false, OctalValue(d), rest);
  }

  lemma ReadNulAndTwoOctal(d: char, e: char, rest: string)
    requires IsOctalDigit(d) && IsOctalDigit(e)
    ensures ReadInside("\\" + (['0'] + ([d] + ([e] + rest))), false) ==
            Cons(8 * OctalValue(d) + OctalValue(e), ReadInside(rest, false))
  {
    var t := ['0'] + ([d] + ([e] + rest));
    OctalRunStep('0', [d] + ([e] + rest), 2, 0);
    OctalRunStep(d, [e] + rest, 1, 0);
    OctalRunStep(e, rest, 0, OctalValue(d));
    ReadZeroEscape(t);
    ReadInsideEscape(t, false, 8 * OctalValue(d) + OctalValue(e), rest);
  }

  lemma RemainingNul(bs: seq<Byte>, afterHex: bool)
    requires bs != [] && bs[0] == 0
    ensures Remaining(bs, afterHex) == "\\" + (['0'] + Remaining(bs[1..], false))
  {
    RemainingStep(bs, afterHex);
  }

  lemma RemainingOctal(bs: seq<Byte>)
    requires bs != [] && IsOctalDigit(bs[0] as char)
    ensures Remaining(bs, false) == [bs[0] as char] + Remaining(bs[1..], false)
  {
    RemainingStep(bs, false);
  }

  /** A NUL and the octal digits behind it are read as one escape. */
  lemma ReadMergedEscape(bs: seq<Byte>, afterHex: bool)
    requires |bs| > 1 && bs[0] == 0 && IsOctalDigit(bs[1] as char)
    ensures ReadInside(Remaining(bs, afterHex), false) ==
            if |bs| > 2 && IsOctalDigit(bs[2] as char) then
              Cons(8 * OctalValue(bs[1] as char) + OctalValue(bs[2] as char),
                   ReadInside(Remaining(bs[3..], false), false))
            else Cons(OctalValue(bs[1] as char), ReadInside(Remaining(bs[2..], false), false))
  {
    RemainingNul(bs, afterHex);
    RemainingOctal(bs[1..]);
    assert bs[1..][1..] == bs[2..];
    if |bs| > 2 && IsOctalDigit(bs[2] as char) {
      RemainingOctal(bs[2..]);
      assert bs[2..][1..] == bs[3..];
      ReadNulAndTwoOctal(bs[1] as char, bs[2] as char, Remaining(bs[3..], false));
    } else {
      RemainingHead(bs[2..], false);
      ReadNulAndOctal(bs[1] as char, Remaining(bs[2..], false));
    }
  }

  lemma {:induction false} ReadBodyStandard(bs: seq<Byte>, afterHex: bool)
    ensures ReadInside(Remaining(bs, afterHex), false) == Some(Merged(bs))
    decreases |bs|
  {
    if bs == [] {
      assert Remaining(bs, afterHex) == "\"";
    } else if bs[0] == 0 && |bs| > 1 && IsOctalDigit(bs[1] as char) {
      ReadMergedEscape(bs, afterHex);
      if |bs| > 2 && IsOctalDigit(bs[2] as char) {
        ReadBodyStandard(bs[3..], false);
      } else {
        ReadBodyStandard(bs[2..], false);
      }
    } else {
      ReadRemaining(bs, afterHex, false);
      ReadBodyStandard(bs[1..], FormatOf(bs[0]) == HexEscape);
    }
  }

  /** Read by the standard, the literal for `bs` stands for `Merged(bs)`, for all bytes. */
  lemma ReadLiteralStandard(bs: seq<Byte>)
    ensures ReadLiterals(Literal(bs), false) == Some(Merged(bs))
  {
    ReadBodyStandard(bs, false);
    assert Literal(bs)[1..] == Remaining(bs, false);
  }

  predicate NulBeforeOctalDigit(bs: seq<Byte>) {
    exists i :: 0 <= i < |bs| - 1 && bs[i] == 0 && IsOctalDigit(bs[i + 1] as char)
  }

  lemma {:induction false} MergedIsIdentityIff(bs: seq<Byte>)
    ensures Merged(bs) == bs <==> !NulBeforeOctalDigit(bs)
  {
    if bs != [] {
      var tail := bs[1..];
      MergedIsIdentityIff(tail);
      if bs[0] == 0 && |bs| > 1 && IsOctalDigit(bs[1] as char) {
        assert |Merged(bs)| < |bs|;
      } else {
        assert bs == [bs[0]] + tail;
        assert Merged(bs)[1..] == Merged(tail);
        if i :| 0 <= i < |bs| - 1 && bs[i] == 0 && IsOctalDigit(bs[i + 1] as char) {
          assert tail[i - 1] == 0 && IsOctalDigit(tail[i - 1 + 1] as char);
        }
        if i :| 0 <= i < |tail| - 1 && tail[i] == 0 && IsOctalDigit(tail[i + 1] as char) {
          assert bs[i + 1] == 0 && IsOctalDigit(bs[i + 1 + 1] as char);
        }
      }
    }
  }

  /** By the standard the literal stands for the printed bytes exactly when no NUL is followed by
      an octal digit. */
  lemma LiteralIsFaithfulIff(bs: seq<Byte>)
    ensures ReadLiterals(Literal(bs), false) == Some(bs) <==> !NulBeforeOctalDigit(bs)
  {
    ReadLiteralStandard(bs);
    MergedIsIdentityIff(bs);
  }
}
