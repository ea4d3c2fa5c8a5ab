/** The largest int, 2^31 - 1, is a prime: an int on which trial division overflows. Multiplying by a number
    whose r-th power is 1, for a prime r, moves the numbers below a divisor in circles of r; for four such r
    this leaves three candidates below the square root. */
module LargestPrime {
  import opened CTypes
  import opened PrimeTables

  // ----- Circles ---------------------------------------------------------------------------------

  function Iterated(f: int -> int, x: int, i: nat): int {
    if i == 0 then x else f(Iterated(f, x, i - 1))
  }

  /** On `s` the function does not leave `s`, fixes nothing, and after `r` steps is back. */
  ghost predicate Circles(f: int -> int, s: set<int>, r: nat) {
    forall x :: x in s ==> f(x) in s && HasPeriod(f, x, r)
  }

  predicate HasPeriod(f: int -> int, x: int, r: nat) {
    f(x) != x && Iterated(f, x, r) == x
  }

  lemma {:induction false} IteratedInTwo(f: int -> int, x: int, i: nat, j: nat)
    ensures Iterated(f, x, i + j) == Iterated(f, Iterated(f, x, i), j)
  {
    if j > 0 {
      IteratedInTwo(f, x, i, j - 1);
    }
  }

  lemma {:induction false} PeriodsDivide(f: int -> int, x: int, a: nat, q: nat, r: nat)
    requires Iterated(f, x, a) == x && Iterated(f, x, a * q + r) == x
    ensures Iterated(f, x, r) == x
    decreases q
  {
    if q > 0 {
      assert a * q + r == a + (a * (q - 1) + r);
      IteratedInTwo(f, x, a, a * (q - 1) + r);
      PeriodsDivide(f, x, a, q - 1, r);
    }
  }

  lemma RemainderOfPrime(r: nat, a: nat)
    requires Prime(r) && 1 < a < r
    ensures 0 < r % a < a && r == a * (r / a) + r % a
  {
    assert !Divides(a, r);
  }

  lemma {:induction false} NoShorterPeriod(f: int -> int, x: int, r: nat, a: nat)
    requires Prime(r) && Iterated(f, x, r) == x && f(x) != x && 0 < a < r
    ensures Iterated(f, x, a) != x
    decreases a
  {
    if a == 1 {
      assert Iterated(f, x, 1) == f(Iterated(f, x, 0));
    } else if Iterated(f, x, a) == x {
      RemainderOfPrime(r, a);
      PeriodsDivide(f, x, a, r / a, r % a);
      NoShorterPeriod(f, x, r, r % a);
    }
  }

  lemma {:induction false} StaysInside(f: int -> int, s: set<int>, x: int, r: nat, i: nat)
    requires Circles(f, s, r) && x in s
    ensures Iterated(f, x, i) in s
  {
    if i > 0 {
      StaysInside(f, s, x, r, i - 1);
    }
  }

  function Circle(f: int -> int, x: int, n: nat): set<int> {
    if n == 0 then {} else Circle(f, x, n - 1) + {Iterated(f, x, n - 1)}
  }

  lemma {:induction false} InCircle(f: int -> int, x: int, n: nat, i: nat)
    requires i < n
    ensures Iterated(f, x, i) in Circle(f, x, n)
  {
    if i < n - 1 {
      InCircle(f, x, n - 1, i);
    }
  }

  lemma {:induction false} WhereInCircle(f: int -> int, x: int, n: nat, y: int) returns (i: nat)
    requires y in Circle(f, x, n)
    ensures i < n && y == Iterated(f, x, i)
  {
    if y == Iterated(f, x, n - 1) {
      i := n - 1;
    } else {
      i := WhereInCircle(f, x, n - 1, y);
    }
  }

  lemma NotMetBefore(f: int -> int, x: int, r: nat, n: nat)
    requires Prime(r) && 0 < n <= r
    requires forall i: nat :: HasPeriod(f, Iterated(f, x, i), r)
    ensures Iterated(f, x, n - 1) !in Circle(f, x, n - 1)
  {
    var y := Iterated(f, x, n - 1);
    if y in Circle(f, x, n - 1) {
      var i := WhereInCircle(f, x, n - 1, y);
      IteratedInTwo(f, x, i, n - 1 - i);
      assert HasPeriod(f, y, r) by {
        assert HasPeriod(f, Iterated(f, x, n - 1), r);
      }
      NoShorterPeriod(f, y, r, n - 1 - i);
    }
  }

  lemma {:induction false} CircleSize(f: int -> int, s: set<int>, x: int, r: nat, n: nat)
    requires Prime(r) && Circles(f, s, r) && x in s && n <= r
    ensures Circle(f, x, n) <= s && |Circle(f, x, n)| == n
  {
    if n > 0 {
      CircleSize(f, s, x, r, n - 1);
      forall i: nat
        ensures Iterated(f, x, i) in s && HasPeriod(f, Iterated(f, x, i), r)
      {
        StaysInside(f, s, x, r, i);
      }
      NotMetBefore(f, x, r, n);
    }
  }

  lemma StepBack(f: int -> int, x: int, r: nat, y: int, i: nat)
    requires r > 0 && Iterated(f, x, r) == x && Iterated(f, y, r) == y
    requires i < r && f(y) == Iterated(f, x, i)
    ensures y == Iterated(f, x, if i == 0 then r - 1 else i - 1)
  {
    IteratedInTwo(f, y, 1, r - 1);
    assert Iterated(f, y, 1) == f(Iterated(f, y, 0));
    IteratedInTwo(f, x, i, r - 1);
    if i > 0 {
      IteratedInTwo(f, x, r, i - 1);
      assert i + (r - 1) == r + (i - 1);
    }
  }

  /** What is outside a circle stays outside. */
  lemma EntersNoCircle(f: int -> int, x: int, r: nat, y: int)
    requires r > 0 && Iterated(f, x, r) == x && Iterated(f, y, r) == y
    requires f(y) in Circle(f, x, r)
    ensures y in Circle(f, x, r)
  {
    var i := WhereInCircle(f, x, r, f(y));
    StepBack(f, x, r, y, i);
    InCircle(f, x, r, if i == 0 then r - 1 else i - 1);
  }

  function Below(d: nat): (s: set<int>)
    ensures forall x :: x in s <==> 0 < x < d
    ensures d > 0 ==> |s| == d - 1
  {
    if d <= 1 then {} else Below(d - 1) + {d - 1}
  }

  lemma {:induction false} SomeElement(s: set<int>, d: nat) returns (x: int)
    requires s != {} && s <= Below(d)
    ensures x in s
  {
    if d - 1 in s {
      x := d - 1;
    } else {
      x := SomeElement(s, d - 1);
    }
  }

  lemma WithoutCircle(f: int -> int, s: set<int>, x: int, r: nat)
    requires Prime(r) && Circles(f, s, r) && x in s
    ensures Circles(f, s - Circle(f, x, r), r) && |s| == |s - Circle(f, x, r)| + r
  {
    var circle := Circle(f, x, r);
    CircleSize(f, s, x, r, r);
    forall y | y in s - circle
      ensures f(y) in s - circle && HasPeriod(f, y, r)
    {
      if f(y) in circle { EntersNoCircle(f, x, r, y); }
    }
  }

  /** So the circles divide a set into equal parts. */
  lemma {:induction false} CirclesFill(f: int -> int, d: nat, s: set<int>, r: nat) returns (k: int)
    requires s <= Below(d) && Prime(r) && Circles(f, s, r)
    ensures |s| == r * k
    decreases |s|
  {
    if s == {} {
      k := 0;
    } else {
      var x := SomeElement(s, d);
      WithoutCircle(f, s, x, r);
      k := CirclesFill(f, d, s - Circle(f, x, r), r);
      OneMore(r, k);
      k := k + 1;
    }
  }

  lemma OneMore(r: int, k: int)
    ensures r * (k + 1) == r * k + r
  {
  }

  // ----- Powers modulo a number ---------------------------------------------------------------------

  function Pow(b: int, i: nat): int {
    if i == 0 then 1 else b * Pow(b, i - 1)
  }

  /** Multiplying by `b` modulo `d`. */
  function Times(b: int, d: int): int -> int
    requires d > 0
  {
    y => (b * y) % d
  }

  lemma TimesOnce(b: int, d: int, p: int, z: int, c: int) returns (c': int)
    requires d > 0 && p == z + d * c
    ensures b * p == Times(b, d)(z) + d * c'
  {
    var q := b * z / d;
    assert b * z == (b * z) % d + d * q;
    c' := q + b * c;
    assert b * p == b * z + b * (d * c);
    assert d * c' == d * q + b * (d * c);
  }

  lemma {:induction false} IteratedTimes(b: int, d: int, y: int, i: nat) returns (c: int)
    requires 0 <= y < d
    ensures 0 <= Iterated(Times(b, d), y, i) < d
    ensures Pow(b, i) * y == Iterated(Times(b, d), y, i) + d * c
  {
    if i == 0 {
      c := 0;
    } else {
      c := IteratedTimes(b, d, y, i - 1);
      c := TimesOnce(b, d, Pow(b, i - 1) * y, Iterated(Times(b, d), y, i - 1), c);
      OneFactorMore(b, Pow(b, i - 1), y);
    }
  }

  lemma OneFactorMore(b: int, p: int, y: int)
    ensures b * p * y == b * (p * y)
  {
  }

  // ----- Divisors ----------------------------------------------------------------------------------------

  /** `u` inverts `b - 1` modulo `n`, so a divisor of `n` that divides a multiple of `b - 1` divides its
      factor. */
  lemma NothingFixed(n: int, b: int, u: int, t: int, d: int, y: int)
    requires 1 < d && Divides(d, n) && u * (b - 1) - 1 == n * t && 0 < y < d
    ensures (b * y) % d != y
  {
    if (b * y) % d == y {
      var e := DivisorTimes(d, n);
      var q := b * y / d;
      assert b * y == d * q + y;
      Inverted(b, u, y, d * q);
      assert y + n * t * y == u * (d * q);
      assert y == d * (u * q - e * t * y);
      TimesDivides(d, u * q - e * t * y);
      ModOfMultiple(0, d, y);
      assert false;
    }
  }

  lemma Inverted(b: int, u: int, y: int, m: int)
    requires b * y == m + y
    ensures u * (b - 1) * y == u * m
  {
    assert (b - 1) * y == m;
  }

  lemma ComesBack(n: int, b: int, r: nat, d: int, y: int)
    requires n > 1 && d > 1 && Divides(d, n) && Divides(n, Pow(b, r) - 1) && 0 < y < d
    ensures Iterated(Times(b, d), y, r) == y
  {
    DividesTransitive(d, n, Pow(b, r) - 1);
    var e := DivisorTimes(d, Pow(b, r) - 1);
    var c := IteratedTimes(b, d, y, r);
    Rearrange(d, e, y, Pow(b, r));
    SmallMultiple(d, e * y, c, Iterated(Times(b, d), y, r) - y);
  }

  lemma Rearrange(d: int, e: int, y: int, p: int)
    requires p - 1 == d * e
    ensures p * y == y + d * (e * y)
  {
  }

  lemma SmallMultiple(d: int, a: int, b: int, r: int)
    requires d * a == r + d * b && -d < r < d
    ensures r == 0
  {
    assert d * (a - b) == r;
    assert a - b >= 1 ==> d * (a - b) >= d;
    assert a - b <= -1 ==> d * (a - b) <= -d;
  }

  /** `b` has order `r` modulo every divisor of `n`: its r-th power is 1, and `u` inverts `b - 1`. */
  ghost predicate HasOrder(n: int, b: int, r: nat, u: int) {
    n > 1 && Prime(r) && Divides(n, Pow(b, r) - 1) && Divides(n, u * (b - 1) - 1)
  }

  lemma {:induction false} ZeroStays(b: int, d: int, i: nat)
    requires d > 0
    ensures Iterated(Times(b, d), 0, i) == 0
  {
    if i > 0 {
      ZeroStays(b, d, i - 1);
    }
  }

  lemma StaysPositive(b: int, r: nat, d: int, y: int)
    requires d > 0 && r > 0 && y != 0 && Iterated(Times(b, d), y, r) == y
    ensures Times(b, d)(y) != 0
  {
    IteratedInTwo(Times(b, d), y, 1, r - 1);
    assert Iterated(Times(b, d), y, 1) == Times(b, d)(Iterated(Times(b, d), y, 0));
    ZeroStays(b, d, r - 1);
  }

  lemma DivisorOf(n: int, b: int, r: nat, u: int, d: int) returns (k: int)
    requires HasOrder(n, b, r, u) && d > 1 && Divides(d, n)
    ensures d - 1 == r * k
  {
    var f, s := Times(b, d), Below(d);
    var t := DivisorTimes(n, u * (b - 1) - 1);
    forall y | y in s
      ensures f(y) in s && HasPeriod(f, y, r)
    {
      NothingFixed(n, b, u, t, d, y);
      ComesBack(n, b, r, d, y);
      StaysPositive(b, r, d, y);
    }
    k := CirclesFill(f, d, s, r);
  }

  // ----- The largest int ----------------------------------------------------------------------------------

  lemma Order3()
    ensures HasOrder(INT_MAX, 634005911, 3, 504492578)
  {
  }

  lemma Order7()
    ensures HasOrder(INT_MAX, 894255406, 7, 1953145313)
  {
  }

  lemma Order11()
    ensures HasOrder(INT_MAX, 100973744, 11, 1948282562)
  {
  }

  lemma Order31()
    ensures HasOrder(INT_MAX, 2, 31, 1)
  {
    SquareRootSuffices(31, 6);
    assert Pow(2, 8) == 0x100;
    assert Pow(2, 16) == 0x1_0000;
    assert Pow(2, 24) == 0x100_0000;
    assert Pow(2, 31) == 0x8000_0000;
  }

  /** A common multiple of coprime numbers is a multiple of their product. */
  lemma CommonMultiple(m: int, u: int, r: int, v: int, k: int, a: int, b: int)
    requires m * u + r * v == 1 && k == m * a && k == r * b
    ensures k == m * r * (b * u + a * v)
  {
    assert k == k * (m * u + r * v);
    assert k * (m * u) == r * b * (m * u);
    assert k * (r * v) == m * a * (r * v);
  }

  lemma DivisorOfLargestInt(d: int) returns (k: int)
    requires d > 1 && Divides(d, INT_MAX)
    ensures d - 1 == 14322 * k
  {
    if d % 2 == 0 { DividesTransitive(2, d, INT_MAX); }
    Order3();
    var k3 := DivisorOf(INT_MAX, 634005911, 3, 504492578, d);
    CommonMultiple(2, -1, 3, 1, d - 1, d / 2, k3);
    Order7();
    var k7 := DivisorOf(INT_MAX, 894255406, 7, 1953145313, d);
    CommonMultiple(6, -1, 7, 1, d - 1, -k3 + d / 2, k7);
    Order11();
    var k11 := DivisorOf(INT_MAX, 100973744, 11, 1948282562, d);
    var k42 := -k7 + (-k3 + d / 2);
    CommonMultiple(42, 5, 11, -19, d - 1, k42, k11);
    Order31();
    var k31 := DivisorOf(INT_MAX, 2, 31, 1, d);
    var k462 := 5 * k11 - 19 * k42;
    CommonMultiple(462, 10, 31, -149, d - 1, k462, k31);
    k := 10 * k31 - 149 * k462;
  }

  /** Three candidates are left below the square root. */
  lemma NoSmallDivisor(d: int)
    requires 2 <= d < 46341
    ensures !Divides(d, INT_MAX)
  {
    assert !Divides(14323, INT_MAX) && !Divides(28645, INT_MAX) && !Divides(42967, INT_MAX);
    if Divides(d, INT_MAX) {
      var k := DivisorOfLargestInt(d);
    }
  }

  /** So there is an int on which the loop of IsPrime overflows. */
  lemma LargestIntIsPrime()
    ensures Prime(INT_MAX) && INT_MAX >= 46340 * 46340
  {
    forall d | 2 <= d < 46341
      ensures !Divides(d, INT_MAX)
    {
      NoSmallDivisor(d);
    }
    SquareRootSuffices(INT_MAX, 46341);
  }
}
