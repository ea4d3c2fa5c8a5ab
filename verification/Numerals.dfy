/** Decimal numerals, as `%s`, `%d` and `<<` write integers and as the parsing routines read them. */
module Numerals {
  import opened CharacterSets

  predicate IsDigit(c: char) {
    '0' <= c <= '9'
  }

  predicate AllDigits(s: string) {
    forall i :: 0 <= i < |s| ==> IsDigit(s[i])
  }

  function DigitChar(d: nat): char
    requires d < 10
  {
    '0' + d as char
  }

  function DigitValue(c: char): nat
    requires IsDigit(c)
  {
    c as nat - '0' as nat
  }

  /** The numeral of `n`, without leading zeros. */
  function Digits(n: nat): string {
    if n < 10 then [DigitChar(n)] else Digits(n / 10) + [DigitChar(n % 10)]
  }

  /** The number that a string of digits stands for. */
  function Number(s: string): nat
    requires AllDigits(s)
  {
    if s == "" then 0 else 10 * Number(s[..|s| - 1]) + DigitValue(s[|s| - 1])
  }

  /** Reading a numeral gives the number back. */
  lemma {:induction false} NumberOfDigits(n: nat)
    ensures Digits(n) != "" && AllDigits(Digits(n)) && Number(Digits(n)) == n
  {
    if n >= 10 {
      NumberOfDigits(n / 10);
      var s := Digits(n);
      assert s[..|s| - 1] == Digits(n / 10);
      assert forall i :: 0 <= i < |s| - 1 ==> s[i] == Digits(n / 10)[i];
    } else {
      assert Digits(n)[..0] == "";
    }
  }

  function Decimal(i: int): string {
    if i < 0 then "-" + Digits(-i) else Digits(i)
  }

  /** Different numbers have different numerals. */
  lemma DecimalInjective(i: int, j: int)
    requires Decimal(i) == Decimal(j)
    ensures i == j
  {
    NumberOfDigits(if i < 0 then -i else i);
    NumberOfDigits(if j < 0 then -j else j);
    assert i < 0 ==> Decimal(i)[1..] == Digits(-i) && Decimal(i)[0] == '-';
    assert j < 0 ==> Decimal(j)[1..] == Digits(-j) && Decimal(j)[0] == '-';
    assert i >= 0 ==> IsDigit(Decimal(i)[0]);
    assert j >= 0 ==> IsDigit(Decimal(j)[0]);
  }

  // ----- What numerals stand for -------------------------------------------------------------------

  lemma DigitsHaveValues(c: char, d: nat)
    ensures IsDigit(c) <==> c in DIGITS
    ensures IsDigit(c) ==> DigitValue(c) < 10 && DIGITS[DigitValue(c)] == c
    ensures d < 10 ==> DigitChar(d) == DIGITS[d]
  {
    DigitsAreRange(c);
  }

  function Power10(n: nat): nat {
    if n == 0 then 1 else 10 * Power10(n - 1)
  }

  /** The first digit counts its power of ten. */
  lemma {:induction false} NumberFromLeft(c: char, s: string)
    requires IsDigit(c) && AllDigits(s)
    ensures Number([c] + s) == DigitValue(c) * Power10(|s|) + Number(s)
  {
    if s == "" {
      assert ([c] + s)[..0] == "";
    } else {
      var init := s[..|s| - 1];
      NumberFromLeft(c, init);
      assert ([c] + s)[..|s|] == [c] + init;
      TimesTen(DigitValue(c), Power10(|init|));
    }
  }

  lemma TimesTen(a: nat, b: nat)
    ensures 10 * (a * b) == a * (10 * b)
  {
  }

  predicate IsNumeral(s: string) {
    s != "" && AllDigits(s) && (|s| > 1 ==> s[0] != '0')
  }

  lemma {:induction false} NumeralIsPositive(s: string)
    requires AllDigits(s) && s != "" && s[0] != '0'
    ensures Number(s) > 0
  {
    if |s| > 1 {
      NumeralIsPositive(s[..|s| - 1]);
    }
  }

  lemma {:induction false} DigitsOfNumber(s: string)
    requires IsNumeral(s)
    ensures Digits(Number(s)) == s
  {
    var init, last := s[..|s| - 1], s[|s| - 1];
    if |s| == 1 {
      assert Number(init) == 0;
      assert s == [last];
    } else {
      NumeralIsPositive(init);
      DigitsOfNumber(init);
      assert s == init + [last];
    }
  }

  lemma {:induction false} DigitsAreNumeral(n: nat)
    ensures IsNumeral(Digits(n)) && (n > 0 ==> Digits(n)[0] != '0')
  {
    NumberOfDigits(n);
    if n >= 10 {
      DigitsAreNumeral(n / 10);
      assert Digits(n)[0] == Digits(n / 10)[0];
    }
  }

  /** The numeral of a number is the one without leading zeros that stands for it. */
  lemma DigitsIff(s: string, n: nat)
    ensures s == Digits(n) <==> IsNumeral(s) && Number(s) == n
  {
    NumberOfDigits(n);
    DigitsAreNumeral(n);
    if IsNumeral(s) {
      DigitsOfNumber(s);
    }
  }
}
