/** The prime number samples: trial division, the sieve, their hybrid, and what each promises. */
module PrimeTables {
  import opened CTypes

  // ----- Primes ------------------------------------------------------------------------------------

  predicate Divides(d: int, n: int)
    requires d > 0
  {
    n % d == 0
  }

  ghost predicate Prime(n: int) {
    n >= 2 && forall d :: 2 <= d < n ==> !Divides(d, n)
  }

  /** Nothing from 2 up to, but not including, `limit` divides `n`. */
  ghost predicate NoDivisorBelow(n: int, limit: int) {
    forall d :: 2 <= d < limit ==> !Divides(d, n)
  }

  lemma DivisorTimes(d: int, n: int) returns (e: int)
    requires d > 0 && Divides(d, n)
    ensures n == d * e && e == n / d
  {
    e := n / d;
  }

  lemma TimesDivides(d: int, e: int)
    requires d > 0
    ensures Divides(d, d * e)
  {
    MulMod(d, e);
  }

  lemma MulMod(d: int, e: int)
    requires d > 0
    ensures (d * e) % d == 0
  {
    assert d * e == d * e + 0;
    ModOfMultiple(e, d, 0);
  }

  lemma ModOfMultiple(q: int, d: int, r: int)
    requires 0 <= r < d
    ensures (d * q + r) % d == r && (d * q + r) / d == q
  {
    var n := d * q + r;
    var q', r' := n / d, n % d;
    assert n == d * q' + r';
    assert d * (q - q') == r' - r;
    assert q - q' >= 1 ==> d * (q - q') >= d;
    assert q - q' <= -1 ==> d * (q - q') <= -d;
  }

  lemma DividesTransitive(a: int, b: int, n: int)
    requires a > 0 && b > 0 && Divides(a, b) && Divides(b, n)
    ensures Divides(a, n)
  {
    var x := DivisorTimes(a, b);
    var y := DivisorTimes(b, n);
    assert n == a * (x * y);
    TimesDivides(a, x * y);
  }

  lemma SquaresGrow(a: int, b: int, limit: int)
    requires 0 <= limit <= a && limit <= b
    ensures a * b >= limit * limit
  {
    assert a * b >= limit * b;
    assert limit * b >= limit * limit;
  }

  /** Trial division may stop at the square root. */
  lemma SquareRootSuffices(n: int, limit: int)
    requires n >= 2 && limit >= 2 && NoDivisorBelow(n, limit) && limit * limit > n
    ensures Prime(n)
  {
    if d :| 2 <= d < n && Divides(d, n) {
      var e := DivisorTimes(d, n);
      Cofactor(d, e, n);
      assert n == e * d;
      TimesDivides(e, d);
      SquaresGrow(d, e, limit);
    }
  }

  lemma Cofactor(d: int, e: int, n: int)
    requires 2 <= d < n && n == d * e
    ensures 2 <= e < n
  {
    assert e <= 0 ==> d * e <= 0;
    assert e >= 1 ==> d * e >= 2 * e;
  }

  /** Every number from 2 on has a prime divisor; that of a composite number is smaller. */
  lemma {:induction false} PrimeDivisor(n: int) returns (p: int)
    requires n >= 2
    ensures Prime(p) && p <= n && Divides(p, n) && (!Prime(n) ==> p < n)
    decreases n
  {
    if Prime(n) {
      p := n;
    } else {
      var d :| 2 <= d < n && Divides(d, n);
      p := PrimeDivisor(d);
      DividesTransitive(p, d, n);
    }
  }

  // ----- Euclid ---------------------------------------------------------------------------------------

  function Fact(n: int): (f: int)
    ensures f >= 1
  {
    if n <= 0 then 1 else n * Fact(n - 1)
  }

  lemma {:induction false} FactorDivides(k: int, n: int)
    requires 1 <= k <= n
    ensures Divides(k, Fact(n))
    decreases n
  {
    if k == n {
      TimesDivides(n, Fact(n - 1));
    } else {
      FactorDivides(k, n - 1);
      var e := DivisorTimes(k, Fact(n - 1));
      assert Fact(n) == k * (n * e);
      TimesDivides(k, n * e);
    }
  }

  /** There is a prime above every number. */
  lemma PrimeAbove(n: int) returns (p: int)
    ensures p > n && Prime(p)
  {
    var m := Fact(n) + 1;
    p := PrimeDivisor(m);
    if p <= n {
      FactorDivides(p, n);
      var e := DivisorTimes(p, Fact(n));
      ModOfMultiple(e, p, 1);
    }
  }

  ghost predicate IsNextPrime(p: int, next: int) {
    p < next && Prime(next) && forall q :: p < q < next ==> !Prime(q)
  }

  // ----- sample1 ---------------------------------------------------------------------------------------

  newtype int32 = x: int | -0x8000_0000 <= x < 0x8000_0000

  method Factorial(n: int) returns (result: int)
    ensures result == Fact(n)
  {
    result := 1;
    var i := 1;
    while i <= n
      invariant 1 <= i && (i <= n + 1 || i == 1)
      invariant result == Fact(i - 1)
    {
      result := result * i;
      i := i + 1;
    }
  }

  lemma {:induction false} FactorialGrows(m: int, n: int)
    requires m <= n
    ensures Fact(m) <= Fact(n)
    decreases n - m
  {
    if m < n {
      FactorialGrows(m, n - 1);
      assert n >= 1 ==> n * Fact(n - 1) >= Fact(n - 1);
    }
  }

  /** In 32-bit arithmetic the sample is right up to 12. */
  lemma FactorialFitsIff(n: int)
    ensures Fact(n) <= 0x7FFF_FFFF <==> n <= 12
  {
    assert Fact(4) == 24;
    assert Fact(8) == 40320;
    assert Fact(12) == 479001600;
    if n <= 12 {
      FactorialGrows(n, 12);
    } else {
      assert Fact(13) == 13 * Fact(12);
      FactorialGrows(13, n);
    }
  }

  /** In 32-bit arithmetic; that no operation leaves the range is part of what is verified. */
  method IsPrimeOdd(n: int32) returns (prime: bool)
    ensures prime <==> Prime(n as int)
  {
    if n <= 1 {
      return false;
    }
    if n % 2 == 0 {
      if n != 2 {
        assert Divides(2, n as int);
      }
      return n == 2;
    }
    var i: int32 := 3;
    while true
      invariant 3 <= i <= 46343 && i % 2 == 1
      invariant NoDivisorBelow(n as int, i as int)
      decreases 46343 - i as int
    {
      QuotientAndSquare(n as int, i as int);
      if i > n / i {
        SquareRootSuffices(n as int, i as int);
        break;
      }
      if n % i == 0 {
        assert Divides(i as int, n as int);
        return false;
      }
      OddStep(n as int, i as int);
      i := i + 2;
    }
    return true;
  }

  lemma MulMonotone(a: int, x: int, y: int)
    requires a >= 0 && x <= y
    ensures a * x <= a * y
  {
  }

  lemma QuotientAndSquare(n: int, i: int)
    requires n >= 0 && i > 0
    ensures i > n / i <==> i * i > n
    ensures i > 46340 ==> i * i > 0x7FFF_FFFF
  {
    var q := n / i;
    assert n == i * q + n % i;
    assert i * (q + 1) == i * q + i;
    if i > q {
      MulMonotone(i, q + 1, i);
    } else {
      MulMonotone(i, i, q);
    }
    if i > 46340 { SquaresGrow(i, i, 46341); }
  }

  /** An odd number has no even divisor. */
  lemma OddStep(n: int, i: int)
    requires n % 2 == 1 && i % 2 == 1 && i >= 3 && NoDivisorBelow(n, i) && !Divides(i, n)
    ensures NoDivisorBelow(n, i + 2)
  {
    if Divides(i + 1, n) {
      assert Divides(2, i + 1);
      DividesTransitive(2, i + 1, n);
    }
  }

  // ----- Implementation 1 ---------------------------------------------------------------------------------

  class OnTheFlyPrimeTable {
    constructor () {
    }

    /** `last` is the last number tried, whose square is the largest that is formed. For an int n that
        square leaves the int range exactly when n is a prime from 46340 squared on. */
    method IsPrime(n: int) returns (prime: bool, ghost last: int)
      ensures prime <==> Prime(n)
      ensures n >= 2 ==> last >= 2 && NoDivisorBelow(n, last) && (last == 2 || (last - 1) * (last - 1) <= n)
      ensures n >= 2 ==> if prime then last * last > n else last * last <= n && Divides(last, n)
      ensures n <= INT_MAX ==> (last * last > INT_MAX <==> Prime(n) && n >= 46340 * 46340)
    {
      last := 0;
      if n <= 1 {
        return false, last;
      }
      var i := 2;
      last := i;
      while i * i <= n
        invariant i >= 2 && last == i
        invariant i == 2 || (i - 1) * (i - 1) <= n
        invariant NoDivisorBelow(n, i)
        decreases n - i
      {
        MulMonotone(i, 1, i);
        if n % i == 0 {
          assert Divides(i, n);
          MulMonotone(i, 2, i);
          return false, last;
        }
        i := i + 1;
        last := i;
      }
      SquareRootSuffices(n, i);
      LastSquare(n, i);
      return true, last;
    }

    /** The C++ comment promises the smallest prime above p; for a negative p the loop is not entered. */
    method GetNextPrime(p: int) returns (next: int)
      ensures p >= 0 ==> IsNextPrime(p, next)
      ensures p < 0 ==> next == -1
    {
      ghost var bound := PrimeAbove(p);
      var n := p + 1;
      while n > 0
        invariant p < 0 ==> n == p + 1
        invariant p >= 0 ==> p < n <= bound
        invariant forall q :: p < q < n ==> !Prime(q)
        decreases bound - n
      {
        ghost var last: int;
        var prime: bool;
        prime, last := IsPrime(n);
        if prime {
          return n;
        }
        n := n + 1;
      }
      return -1;
    }
  }

  lemma LastSquare(n: int, i: int)
    requires 2 <= i && i * i > n && (i == 2 || (i - 1) * (i - 1) <= n) && 2 <= n
    ensures n <= INT_MAX ==> (i * i > INT_MAX <==> n >= 46340 * 46340)
  {
    if i > 46340 {
      SquaresGrow(i, i, 46341);
      SquaresGrow(i - 1, i - 1, 46340);
    } else {
      SquaresGrow(46340, 46340, i);
    }
  }

  // ----- Implementation 2 ---------------------------------------------------------------------------------

  /** `k` has a prime divisor below `limit` other than itself: the sieve has marked it. */
  ghost predicate Marked(k: int, limit: int) {
    exists d :: 2 <= d < limit && d < k && Prime(d) && Divides(d, k)
  }

  lemma MarkedMeansComposite(k: int)
    requires k >= 2
    ensures Marked(k, k) <==> !Prime(k)
  {
    if !Prime(k) {
      var d := PrimeDivisor(k);
    }
  }

  lemma NoMoreMarks(k: int, limit: int)
    requires k >= 2 && limit >= k
    ensures Marked(k, limit) <==> !Prime(k)
  {
    MarkedMeansComposite(k);
    if d :| 2 <= d < limit && d < k && Prime(d) && Divides(d, k) {
      assert Marked(k, k);
    }
  }

  lemma MarksOfComposite(k: int, i: int)
    requires i >= 2 && !Prime(i)
    ensures Marked(k, i + 1) <==> Marked(k, i)
  {
  }

  lemma MarksOfPrime(k: int, i: int)
    requires i >= 2 && Prime(i)
    ensures Marked(k, i + 1) <==> Marked(k, i) || (i < k && Divides(i, k))
  {
  }

  class PreCalculatedPrimeTable {
    const isPrimeSize: int
    const isPrime: array<bool>

    ghost predicate Valid()
      reads isPrime
    {
      && isPrimeSize == isPrime.Length && isPrimeSize >= 2
      && forall k :: 0 <= k < isPrimeSize ==> (isPrime[k] <==> Prime(k))
    }

    /** With max below one, writing is_prime_[1] would be out of bounds. */
    constructor (max: int)
      requires max >= 1
      ensures Valid() && isPrimeSize == max + 1 && fresh(isPrime)
    {
      isPrimeSize := max + 1;
      isPrime := new bool[max + 1];
      new;
      CalculatePrimesUpTo(max);
    }

    method CalculatePrimesUpTo(max: int)
      requires max >= 1 && isPrimeSize == max + 1 == isPrime.Length
      modifies isPrime
      ensures Valid()
    {
      forall k | 0 <= k < isPrime.Length {
        isPrime[k] := true;
      }
      isPrime[0], isPrime[1] := false, false;
      var i := 2;
      while i <= max
        invariant 2 <= i <= max + 1
        invariant !isPrime[0] && !isPrime[1]
        invariant forall k :: 2 <= k <= max ==> (isPrime[k] <==> !Marked(k, i))
      {
        MarkedMeansComposite(i);
        if !isPrime[i] {
          forall k | 2 <= k <= max
            ensures Marked(k, i + 1) <==> Marked(k, i)
          {
            MarksOfComposite(k, i);
          }
        } else {
          MarkMultiples(i, max);
        }
        i := i + 1;
      }
      forall k | 2 <= k <= max
        ensures isPrime[k] <==> Prime(k)
      {
        NoMoreMarks(k, max + 1);
      }
    }

    /** The inner loop of the sieve. */
    method MarkMultiples(i: int, max: int)
      requires 2 <= i <= max && max + 1 == isPrime.Length && Prime(i)
      requires forall k :: 2 <= k <= max ==> (isPrime[k] <==> !Marked(k, i))
      modifies isPrime
      ensures isPrime[0] == old(isPrime[0]) && isPrime[1] == old(isPrime[1])
      ensures forall k :: 2 <= k <= max ==> (isPrime[k] <==> !Marked(k, i + 1))
    {
      TimesDivides(i, 2);
      var j := 2 * i;
      while j <= max
        invariant 2 * i <= j && Divides(i, j)
        invariant isPrime[0] == old(isPrime[0]) && isPrime[1] == old(isPrime[1])
        invariant forall k :: 2 <= k <= max ==>
                    (isPrime[k] <==> !Marked(k, i) && !(Divides(i, k) && i < k < j))
        decreases max - j
      {
        isPrime[j] := false;
        NoMultipleBetween(i, j);
        j := j + i;
      }
      forall k | 2 <= k <= max
        ensures isPrime[k] <==> !Marked(k, i + 1)
      {
        MarksOfPrime(k, i);
      }
    }

    method IsPrime(n: int) returns (prime: bool)
      requires Valid()
      ensures prime <==> Prime(n) && n < isPrimeSize
    {
      prime := 0 <= n && n < isPrimeSize && isPrime[n];
    }

    /** Below -1 the C++ reads in front of the table. */
    method GetNextPrime(p: int) returns (next: int)
      requires Valid() && p >= -1
      ensures next != -1 ==> IsNextPrime(p, next) && next < isPrimeSize
      ensures next == -1 <==> forall q :: p < q < isPrimeSize ==> !Prime(q)
    {
      var n := p + 1;
      while n < isPrimeSize
        invariant p < n
        invariant forall q :: p < q < n && q < isPrimeSize ==> !Prime(q)
      {
        if isPrime[n] {
          return n;
        }
        n := n + 1;
      }
      return -1;
    }
  }

  lemma NoMultipleBetween(i: int, j: int)
    requires i >= 2 && Divides(i, j)
    ensures Divides(i, j + i)
    ensures forall k :: j < k < j + i ==> !Divides(i, k)
  {
    var q := DivisorTimes(i, j);
    assert j + i == i * (q + 1);
    TimesDivides(i, q + 1);
    forall k | j < k < j + i
      ensures !Divides(i, k)
    {
      ModOfMultiple(q, i, k - j);
    }
  }

  // ----- Their hybrid ----------------------------------------------------------------------------------------

  class HybridPrimeTable {
    const onTheFly: OnTheFlyPrimeTable
    const precalc: PreCalculatedPrimeTable?
    const maxPrecalculated: int

    ghost predicate Valid()
      reads if precalc == null then {} else {precalc.isPrime}
    {
      precalc != null ==> precalc.Valid() && precalc.isPrimeSize == maxPrecalculated + 1
    }

    constructor (forceOnTheFly: bool, maxPrecalculated: int)
      requires forceOnTheFly || maxPrecalculated >= 1
      ensures Valid() && this.maxPrecalculated == maxPrecalculated && (precalc == null <==> forceOnTheFly)
    {
      onTheFly := new OnTheFlyPrimeTable();
      if forceOnTheFly {
        precalc := null;
      } else {
        precalc := new PreCalculatedPrimeTable(maxPrecalculated);
      }
      this.maxPrecalculated := maxPrecalculated;
    }

    method IsPrime(n: int) returns (prime: bool)
      requires Valid()
      ensures prime <==> Prime(n)
    {
      if precalc != null && n < maxPrecalculated {
        prime := precalc.IsPrime(n);
      } else {
        ghost var last: int;
        prime, last := onTheFly.IsPrime(n);
      }
    }

    /** The same as OnTheFlyPrimeTable gives, with one exception: from -1 the table finds 2 where
        trial division gives up. */
    method GetNextPrime(p: int) returns (next: int)
      requires Valid() && (precalc == null || p >= -1)
      ensures p >= 0 ==> IsNextPrime(p, next)
      ensures p < 0 ==> next == if precalc != null && maxPrecalculated >= 2 then 2 else -1
    {
      var nextPrime := -1;
      if precalc != null && p < maxPrecalculated {
        nextPrime := precalc.GetNextPrime(p);
        TwoIsTheFirst();
      }
      if nextPrime != -1 {
        return nextPrime;
      }
      next := onTheFly.GetNextPrime(p);
    }
  }

  lemma TwoIsTheFirst()
    ensures Prime(2) && forall q :: q < 2 ==> !Prime(q)
  {
  }

  /** The smallest prime above a number is the only one. */
  lemma NextPrimeIsUnique(p: int, a: int, b: int)
    requires IsNextPrime(p, a) && IsNextPrime(p, b)
    ensures a == b
  {
  }
}
