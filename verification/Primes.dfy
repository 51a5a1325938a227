/**
 * Three prime tests and a table that combines two of them: all decide primality, and their searches
 * for the next prime end because there are infinitely many.
 */
module Primes {
  // ----- Divisibility

  predicate Divides(d: int, n: int) {
    d > 0 && n % d == 0
  }

  predicate Prime(n: int) {
    n >= 2 && forall d :: 2 <= d < n ==> !Divides(d, n)
  }

  lemma Division(n: int, d: int)
    requires d > 0
    ensures n == n / d * d + n % d && 0 <= n % d < d
  {
  }

  lemma UniqueRemainder(n: int, d: int, q: int, r: int)
    requires d > 0 && n == q * d + r && 0 <= r < d
    ensures n % d == r && n / d == q
  {
    Division(n, d);
    var k := n / d - q;
    assert k * d == r - n % d;
    assert k >= 1 ==> k * d >= d;
    assert k <= -1 ==> k * d <= -d;
  }

  lemma MultipleIsDivided(d: int, k: int)
    requires d > 0
    ensures Divides(d, k * d) && Divides(d, d * k)
  {
    UniqueRemainder(k * d, d, k, 0);
  }

  lemma DividesTrans(c: int, d: int, n: int)
    requires Divides(c, d) && Divides(d, n)
    ensures Divides(c, n)
  {
    Division(n, d);
    Division(d, c);
    assert n == n / d * (d / c) * c;
    MultipleIsDivided(c, n / d * (d / c));
  }

  lemma DividesProduct(d: int, a: int, b: int)
    requires Divides(d, a)
    ensures Divides(d, a * b) && Divides(d, b * a)
  {
    Division(a, d);
    assert a * b == a / d * b * d;
    MultipleIsDivided(d, a / d * b);
  }

  /** No number greater than 1 divides two neighbours. */
  lemma NoNeighbours(d: int, n: int)
    requires Divides(d, n) && d >= 2
    ensures !Divides(d, n + 1)
  {
    Division(n, d);
    UniqueRemainder(n + 1, d, n / d, 1);
  }

  /** A proper factor has a partner, and the smaller of the two is at most the square root. */
  lemma Cofactor(n: int, d: int)
    requires 2 <= d < n && Divides(d, n)
    ensures var e := n / d; 2 <= e < n && e * d == n && Divides(e, n)
  {
    Division(n, d);
    var e := n / d;
    assert e * d == n;
    assert e <= 1 ==> e * d <= d;
    assert e * d >= e * 2;
    MultipleIsDivided(e, d);
  }

  lemma NoSmallFactor(n: int, i: int)
    requires n >= 2 && i >= 2 && i * i > n && forall d :: 2 <= d < i && d < n ==> !Divides(d, n)
    ensures Prime(n)
  {
    forall d | 2 <= d < n ensures !Divides(d, n) {
      if Divides(d, n) && d >= i {
        Cofactor(n, d);
        ProductGrows(n / d, d, i);
      }
    }
  }

  lemma ProductGrows(e: int, d: int, i: int)
    requires d >= i >= 0
    ensures e >= i ==> e * d >= i * i
  {
    assert e >= i ==> e * d >= i * d >= i * i;
  }

  // ----- There is always a next prime

  function Factorial(n: nat): (f: nat)
    ensures f > 0
  {
    if n == 0 then 1 else n * Factorial(n - 1)
  }

  lemma {:induction false} DividesFactorial(d: nat, n: nat)
    requires 1 <= d <= n
    ensures Divides(d, Factorial(n))
  {
    if d == n {
      MultipleIsDivided(n, Factorial(n - 1));
    } else {
      DividesFactorial(d, n - 1);
      DividesProduct(d, Factorial(n - 1), n);
    }
  }

  /** The least factor greater than 1 is a prime. */
  lemma {:induction false} PrimeFactor(n: int, i: int) returns (q: int)
    requires 2 <= i <= n && forall d :: 2 <= d < i ==> !Divides(d, n)
    ensures Prime(q) && Divides(q, n) && i <= q <= n
    decreases n - i
  {
    if Divides(i, n) {
      q := i;
      forall d | 2 <= d < i ensures !Divides(d, i) {
        if Divides(d, i) {
          DividesTrans(d, i, n);
        }
      }
    } else {
      MultipleIsDivided(n, 1);
      assert i < n;
      q := PrimeFactor(n, i + 1);
    }
  }

  /** Euclid: above every number there is a prime. */
  lemma PrimeAbove(p: nat) returns (q: int)
    ensures Prime(q) && q > p
  {
    var n := Factorial(p) + 1;
    q := PrimeFactor(n, 2);
    if q <= p {
      DividesFactorial(q, p);
      NoNeighbours(q, Factorial(p));
    }
  }

  ghost predicate NextPrime(p: int, q: int) {
    q > p && Prime(q) && forall m :: p < m < q ==> !Prime(m)
  }

  lemma TwoIsPrime()
    ensures Prime(2)
  {
  }

  // ----- Trial division

  method IsPrimeOnTheFly(n: int) returns (b: bool)
    ensures b <==> Prime(n)
  {
    hide Divides;
    if n <= 1 {
      return false;
    }
    var i := 2;
    while i * i <= n
      invariant 2 <= i <= n && forall d :: 2 <= d < i ==> !Divides(d, n)
      decreases n - i
    {
      Square(i);
      DividesIs(i, n);
      if n % i == 0 {
        return false;
      }
      i := i + 1;
    }
    NoSmallFactor(n, i);
    return true;
  }

  /** A negative start never enters the loop. */
  method NextPrimeOnTheFly(p: int) returns (q: int)
    ensures if p >= 0 then NextPrime(p, q) else q == -1
  {
    var n := p + 1;
    if n <= 0 {
      return -1;
    }
    ghost var bound := PrimeAbove(p);
    while true
      invariant p < n <= bound && forall m :: p < m < n ==> !Prime(m)
      decreases bound - n
    {
      var b := IsPrimeOnTheFly(n);
      if b {
        return n;
      }
      n := n + 1;
    }
  }

  lemma OddHasNoEvenFactor(n: int, d: int)
    requires n % 2 == 1 && d % 2 == 0 && d > 0
    ensures !Divides(d, n)
  {
    if Divides(d, n) {
      assert Divides(2, d);
      DividesTrans(2, d, n);
    }
  }

  lemma DividesIs(d: int, n: int)
    requires d > 0
    ensures Divides(d, n) <==> n % d == 0
  {
  }

  /** The test that tries odd numbers only, until the quotient is smaller. */
  method IsPrimeByOdds(n: int) returns (b: bool)
    ensures b <==> Prime(n)
  {
    hide Divides;
    if n <= 1 {
      return false;
    }
    DividesIs(2, n);
    if n % 2 == 0 {
      return n == 2;
    }
    var i := 3;
    while true
      invariant 3 <= i <= n + 2 && i % 2 == 1
      invariant forall d :: 2 <= d < i && d < n ==> !Divides(d, n)
      decreases n + 2 - i
    {
      QuotientBelow(n, i);
      if i > n / i {
        break;
      }
      Square(i);
      DividesIs(i, n);
      if n % i == 0 {
        return false;
      }
      OddHasNoEvenFactor(n, i + 1);
      i := i + 2;
    }
    NoSmallFactor(n, i);
    return true;
  }

  lemma MulMono(a: int, b: int, c: int)
    requires a <= b && c >= 0
    ensures a * c <= b * c
  {
  }

  /** The quotient by `i` is below `i` exactly beyond the square root. */
  lemma QuotientBelow(n: int, i: int)
    requires i > 0
    ensures i > n / i <==> i * i > n
  {
    Division(n, i);
    QuotientBounds(n, i, n / i, n % i);
  }

  lemma QuotientBounds(n: int, i: int, q: int, r: int)
    requires i > 0 && n == q * i + r && 0 <= r < i
    ensures i > q <==> i * i > n
  {
    assert (q + 1) * i == q * i + i;
    if i > q {
      MulMono(q + 1, i, i);
    } else {
      MulMono(i, q, i);
    }
  }

  lemma Square(i: int)
    requires i >= 2
    ensures i < i * i
  {
    MulMono(2, i, i);
  }

  // ----- The sieve

  /** Not crossed out by any number below `i`. */
  predicate Sieved(m: int, i: int) {
    m >= 2 && forall d :: 2 <= d < i && d < m ==> !Divides(d, m)
  }

  lemma SievedNext(m: int, i: int)
    requires i >= 2
    ensures Sieved(m, i + 1) <==> Sieved(m, i) && !(i < m && Divides(i, m))
  {
  }

  /** A number that has been crossed out crosses out nothing new. */
  lemma CompositeAddsNothing(m: int, i: int)
    requires i >= 2 && !Sieved(i, i)
    ensures Sieved(m, i + 1) <==> Sieved(m, i)
  {
    SievedNext(m, i);
    if i < m && Divides(i, m) {
      var d :| 2 <= d < i && Divides(d, i);
      DividesTrans(d, i, m);
    }
  }

  lemma AllSieved(m: int, i: int)
    requires m < i
    ensures Sieved(m, i) <==> Prime(m)
  {
  }

  /** Between two multiples of `i` there is none. */
  lemma NoMultipleBetween(i: int, j: int, m: int)
    requires Divides(i, j) && j < m < j + i
    ensures !Divides(i, m)
  {
    Division(j, i);
    UniqueRemainder(m, i, j / i, m - j);
  }

  lemma NextMultiple(i: int, j: int)
    requires Divides(i, j)
    ensures Divides(i, j + i)
  {
    Division(j, i);
    assert j + i == (j / i + 1) * i;
    MultipleIsDivided(i, j / i + 1);
  }

  class PreCalculatedPrimeTable {
    const max: int
    const isPrime: array<bool>

    ghost predicate Valid()
      reads isPrime
    {
      max >= 1 && isPrime.Length == max + 1 && forall m :: 0 <= m <= max ==> isPrime[m] == Prime(m)
    }

    constructor (max: int)
      requires max >= 1
      ensures Valid() && this.max == max && fresh(isPrime)
    {
      this.max := max;
      isPrime := new bool[max + 1];
      new;
      CalculatePrimesUpTo();
    }

    method CalculatePrimesUpTo()
      requires max >= 1 && isPrime.Length == max + 1
      modifies isPrime
      ensures Valid()
    {
      for k := 0 to max + 1
        invariant forall m :: 0 <= m < k ==> isPrime[m]
      {
        isPrime[k] := true;
      }
      isPrime[0] := false;
      isPrime[1] := false;
      var i := 2;
      while i <= max
        invariant 2 <= i <= max + 1
        invariant forall m :: 0 <= m <= max ==> isPrime[m] == Sieved(m, i)
      {
        if isPrime[i] {
          CrossOut(i);
        } else {
          forall m | 0 <= m <= max ensures Sieved(m, i + 1) == Sieved(m, i) {
            CompositeAddsNothing(m, i);
          }
        }
        i := i + 1;
      }
      forall m | 0 <= m <= max ensures isPrime[m] == Prime(m) {
        AllSieved(m, i);
      }
    }

    /** Marks all multiples of `i` but `i` itself. */
    method CrossOut(i: int)
      requires isPrime.Length == max + 1 && 2 <= i <= max && forall m :: 0 <= m <= max ==> isPrime[m] == Sieved(m, i)
      modifies isPrime
      ensures forall m :: 0 <= m <= max ==> isPrime[m] == Sieved(m, i + 1)
    {
      hide Sieved;
      var j := 2 * i;
      MultipleIsDivided(i, 1);
      MultipleIsDivided(i, 2);
      forall m | i < m < j ensures !Divides(i, m) {
        NoMultipleBetween(i, i, m);
      }
      while j <= max
        invariant j >= 2 * i && Divides(i, j)
        invariant forall m :: 0 <= m <= max ==> isPrime[m] == (Sieved(m, i) && !(i < m < j && Divides(i, m)))
      {
        isPrime[j] := false;
        forall m | j < m < j + i ensures !Divides(i, m) {
          NoMultipleBetween(i, j, m);
        }
        NextMultiple(i, j);
        j := j + i;
      }
      forall m | 0 <= m <= max ensures isPrime[m] == Sieved(m, i + 1) {
        SievedNext(m, i);
      }
    }

    method IsPrime(n: int) returns (b: bool)
      requires Valid()
      ensures b <==> n <= max && Prime(n)
    {
      b := 0 <= n && n < isPrime.Length && isPrime[n];
    }

    /** -1 if the next prime is beyond the table. */
    method GetNextPrime(p: int) returns (q: int)
      requires Valid() && p >= -1
      ensures q != -1 ==> q <= max && NextPrime(p, q)
      ensures q == -1 ==> forall m :: p < m <= max ==> !Prime(m)
    {
      var n := p + 1;
      while n < isPrime.Length
        invariant p < n && forall m :: p < m < n && m <= max ==> !Prime(m)
      {
        if isPrime[n] {
          return n;
        }
        n := n + 1;
      }
      return -1;
    }
  }

  /** Uses the table where it reaches, if there is one, and trial division beyond. */
  class HybridPrimeTable {
    const maxPrecalculated: int
    const precalculated: PreCalculatedPrimeTable?

    ghost predicate Valid()
      reads if precalculated != null then {precalculated.isPrime} else {}
    {
      precalculated != null ==> precalculated.Valid() && precalculated.max == maxPrecalculated
    }

    constructor (forceOnTheFly: bool, maxPrecalculated: int)
      requires !forceOnTheFly ==> maxPrecalculated >= 1
      ensures Valid()
    {
      this.maxPrecalculated := maxPrecalculated;
      if forceOnTheFly {
        precalculated := null;
      } else {
        precalculated := new PreCalculatedPrimeTable(maxPrecalculated);
      }
    }

    method IsPrime(n: int) returns (b: bool)
      requires Valid()
      ensures b <==> Prime(n)
    {
      if precalculated != null && n < maxPrecalculated {
        b := precalculated.IsPrime(n);
      } else {
        b := IsPrimeOnTheFly(n);
      }
    }

    /** The table, when it is asked, cannot be asked below -1; without an answer a negative start ends in -1. */
    method GetNextPrime(p: int) returns (q: int)
      requires Valid() && (precalculated != null && p < maxPrecalculated ==> p >= -1)
      ensures if p >= 0 || (precalculated != null && maxPrecalculated >= 2) then NextPrime(p, q) else q == -1
    {
      TwoIsPrime();
      q := -1;
      if precalculated != null && p < maxPrecalculated {
        q := precalculated.GetNextPrime(p);
      }
      if q == -1 {
        q := NextPrimeOnTheFly(p);
      }
    }
  }
}
