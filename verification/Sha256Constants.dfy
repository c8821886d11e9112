/** The constants of `common/Sha256` are the ones the standard derives from the first primes (sections 4.2.2 and 5.3.3). */
module Sha256Constants {
  import opened Sha256

  const PRIMES: seq<nat> :=
    [2, 3, 5, 7, 11, 13, 17, 19] +
    [23, 29, 31, 37, 41, 43, 47, 53] +
    [59, 61, 67, 71, 73, 79, 83, 89] +
    [97, 101, 103, 107, 109, 113, 127, 131] +
    [137, 139, 149, 151, 157, 163, 167, 173] +
    [179, 181, 191, 193, 197, 199, 211, 223] +
    [227, 229, 233, 239, 241, 251, 257, 263] +
    [269, 271, 277, 281, 283, 293, 307, 311]

  /** `k` is the first 32 bits of the fractional part of the cube root of `p`. */
  predicate IsCubeRootFraction(p: nat, whole: nat, k: nat) {
    var q := whole * 0x1_0000_0000 + k;
    q * q * q <= p * 0x1_0000_0000_0000_0000_0000_0000 < (q + 1) * (q + 1) * (q + 1)
  }

  predicate IsSquareRootFraction(p: nat, whole: nat, k: nat) {
    var q := whole * 0x1_0000_0000 + k;
    q * q <= p * 0x1_0000_0000_0000_0000 < (q + 1) * (q + 1)
  }

  function CubeRoot(p: nat): nat {
    if p < 8 then 1 else if p < 27 then 2 else if p < 64 then 3 else if p < 125 then 4 else if p < 216 then 5 else 6
  }

  function SquareRoot(p: nat): nat {
    if p < 4 then 1 else if p < 9 then 2 else if p < 16 then 3 else 4
  }

  predicate GoodK(i: nat)
    requires i < 64
  {
    IsCubeRootFraction(PRIMES[i], CubeRoot(PRIMES[i]), K[i] as int)
  }

  predicate GoodH0(i: nat)
    requires i < 8
  {
    IsSquareRootFraction(PRIMES[i], SquareRoot(PRIMES[i]), H0[i] as int)
  }

  /** The four round constants from `4 * row` on. */
  predicate GoodRow(row: nat)
    requires row < 16
  {
    GoodK(4 * row) && GoodK(4 * row + 1) && GoodK(4 * row + 2) && GoodK(4 * row + 3)
  }

  lemma Row0()
    ensures GoodRow(0)
  {}

  lemma Row1()
    ensures GoodRow(1)
  {}

  lemma Row2()
    ensures GoodRow(2)
  {}

  lemma Row3()
    ensures GoodRow(3)
  {}

  lemma Row4()
    ensures GoodRow(4)
  {}

  lemma Row5()
    ensures GoodRow(5)
  {}

  lemma Row6()
    ensures GoodRow(6)
  {}

  lemma Row7()
    ensures GoodRow(7)
  {}

  lemma Row8()
    ensures GoodRow(8)
  {}

  lemma Row9()
    ensures GoodRow(9)
  {}

  lemma Row10()
    ensures GoodRow(10)
  {}

  lemma Row11()
    ensures GoodRow(11)
  {}

  lemma Row12()
    ensures GoodRow(12)
  {}

  lemma Row13()
    ensures GoodRow(13)
  {}

  lemma Row14()
    ensures GoodRow(14)
  {}

  lemma Row15()
    ensures GoodRow(15)
  {}

  lemma InitialRow()
    ensures forall i :: 0 <= i < 8 ==> GoodH0(i)
  {}

  /** Every round constant and every initial hash word is the one the standard derives from its prime. */
  lemma ConstantsFromPrimes()
    ensures forall i :: 0 <= i < 64 ==> GoodK(i)
    ensures forall i :: 0 <= i < 8 ==> GoodH0(i)
  {
    hide GoodK, GoodH0;
    InitialRow();
    Row0(); Row1(); Row2(); Row3();
    Row4(); Row5(); Row6(); Row7();
    Row8(); Row9(); Row10(); Row11();
    Row12(); Row13(); Row14(); Row15();
    forall i | 0 <= i < 64
      ensures GoodK(i)
    {
      assert GoodRow(i / 4);
    }
  }

  // ---- The list is the first 64 primes ---------------------------------------------------------

  ghost predicate IsPrime(n: nat) {
    n >= 2 && forall d :: 2 <= d < n ==> n % d != 0
  }

  predicate NotMultiple(n: nat, p: nat)
    requires p > 0
  {
    n == p || n % p != 0
  }

  /** No prime up to 17, other than the number itself, divides it. */
  predicate SmallPrimeFree(n: nat) {
    && NotMultiple(n, 2) && NotMultiple(n, 3) && NotMultiple(n, 5) && NotMultiple(n, 7)
    && NotMultiple(n, 11) && NotMultiple(n, 13) && NotMultiple(n, 17)
  }

  /** Below 18 squared, that is enough. */
  lemma SieveIsPrime(n: nat)
    requires 2 <= n < 324
    ensures IsPrime(n) <==> SmallPrimeFree(n)
  {
    hide SmallPrimeFree, NotMultiple;
    PrimePassesSieve(n);
    forall d | 2 <= d < n
      ensures n % d == 0 ==> !SmallPrimeFree(n)
    {
      FactorFailsSieve(n, d);
    }
  }

  lemma PrimePassesSieve(n: nat)
    ensures IsPrime(n) ==> SmallPrimeFree(n)
  {
    hide IsPrime, NotMultiple;
    forall p: nat | p > 1
      ensures IsPrime(n) ==> NotMultiple(n, p)
    {
      PrimeIsNotMultiple(n, p);
    }
  }

  lemma PrimeIsNotMultiple(n: nat, p: nat)
    requires p > 1
    ensures IsPrime(n) ==> NotMultiple(n, p)
  {
    assert p > n ==> n % p == n;
  }

  lemma FactorFailsSieve(n: nat, d: nat)
    requires 2 <= d < n < 324
    ensures n % d == 0 ==> !SmallPrimeFree(n)
  {
    hide SmallPrimeFree;
    var e := n / d;
    if n % d == 0 {
      FactorsBounded(n, d);
      if d <= 17 {
        SmallFactor(n, d, e);
      } else {
        SmallFactor(n, e, d);
      }
    }
  }

  lemma FactorsBounded(n: nat, d: nat)
    requires 2 <= d < n < 324
    ensures n % d == 0 ==> n == d * (n / d) && 2 <= n / d < n && (d <= 17 || n / d <= 17)
  {
    var e := n / d;
    assert n == d * e + n % d;
    if d >= 18 && e >= 18 {
      ProductGrows(18, d, 18, e);
    }
    ProductGrows(2, d, e, e);
  }

  lemma ProductGrows(a: nat, b: nat, c: nat, d: nat)
    requires a <= b && c <= d
    ensures a * c <= b * d
  {
    assert a * c <= b * c <= b * d;
  }

  /** A factor up to 17 has a prime factor up to 17. */
  lemma SmallFactor(n: nat, c: nat, f: nat)
    requires 2 <= c <= 17 && f >= 2
    ensures n == c * f ==> !SmallPrimeFree(n)
  {
    hide NotMultiple;
    var p := if c % 2 == 0 then 2 else if c % 3 == 0 then 3 else if c % 5 == 0 then 5 else c;
    var g := c / p;
    assert IsSmallPrime(p) && c == p * g && g >= 1;
    ProductGrows(1, g, f, f);
    assert c * f == p * (g * f);
    MultipleIs(n, p, g * f);
  }

  predicate IsSmallPrime(p: nat) {
    p == 2 || p == 3 || p == 5 || p == 7 || p == 11 || p == 13 || p == 17
  }

  lemma MultipleIs(n: nat, p: nat, k: nat)
    requires IsSmallPrime(p) && k >= 2
    ensures n == p * k ==> !NotMultiple(n, p)
  {
    ProductGrows(p, p, 2, k);
    Multiples(k);
  }

  lemma Multiples(k: nat)
    ensures 2 * k % 2 == 0 && 3 * k % 3 == 0 && 5 * k % 5 == 0 && 7 * k % 7 == 0
    ensures 11 * k % 11 == 0 && 13 * k % 13 == 0 && 17 * k % 17 == 0
  {}

  /** None of the numbers between the two passes the sieve. */
  predicate SieveGap(p: nat, q: nat)
    decreases q - p
  {
    p + 1 >= q || (!SmallPrimeFree(p + 1) && SieveGap(p + 1, q))
  }

  lemma {:induction false} GapHasNoPrime(p: nat, q: nat, n: nat)
    requires SieveGap(p, q) && 2 <= p < n < q < 324
    ensures !IsPrime(n)
    decreases q - p
  {
    hide IsPrime, SmallPrimeFree;
    SieveIsPrime(p + 1);
    if n > p + 1 {
      GapHasNoPrime(p + 1, q, n);
    }
  }

  /** Entry `i` passes the sieve, and up to the next entry nothing else does. */
  predicate Sieved(i: nat)
    requires i < 64
  {
    && 2 <= PRIMES[i] < 324 && SmallPrimeFree(PRIMES[i])
    && (i < 63 ==> PRIMES[i] < PRIMES[i + 1] && SieveGap(PRIMES[i], PRIMES[i + 1]))
  }

  predicate PrimeRow(row: nat)
    requires row < 16
  {
    Sieved(4 * row) && Sieved(4 * row + 1) && Sieved(4 * row + 2) && Sieved(4 * row + 3)
  }

  lemma Primes0()
    ensures PrimeRow(0)
  {}

  lemma Primes1()
    ensures PrimeRow(1)
  {}

  lemma Primes2()
    ensures PrimeRow(2)
  {}

  lemma Primes3()
    ensures PrimeRow(3)
  {}

  lemma Primes4()
    ensures PrimeRow(4)
  {}

  lemma Primes5()
    ensures PrimeRow(5)
  {}

  lemma Primes6()
    ensures PrimeRow(6)
  {}

  lemma Primes7()
    ensures PrimeRow(7)
  {}

  lemma Primes8()
    ensures PrimeRow(8)
  {}

  lemma Primes9()
    ensures PrimeRow(9)
  {}

  lemma Primes10()
    ensures PrimeRow(10)
  {}

  lemma Primes11()
    ensures PrimeRow(11)
  {}

  lemma Primes12()
    ensures PrimeRow(12)
  {}

  lemma Primes13()
    ensures PrimeRow(13)
  {}

  lemma Primes14()
    ensures PrimeRow(14)
  {}

  lemma Primes15()
    ensures PrimeRow(15)
  {}

  lemma AllSieved()
    ensures forall i :: 0 <= i < 64 ==> Sieved(i)
  {
    hide Sieved;
    Primes0(); Primes1(); Primes2(); Primes3();
    Primes4(); Primes5(); Primes6(); Primes7();
    Primes8(); Primes9(); Primes10(); Primes11();
    Primes12(); Primes13(); Primes14(); Primes15();
    forall i | 0 <= i < 64
      ensures Sieved(i)
    {
      assert PrimeRow(i / 4);
    }
  }

  /** The list is the first 64 primes in order: it starts at 2, and between neighbours there is no prime. */
  lemma FirstPrimes()
    ensures PRIMES[0] == 2 && |PRIMES| == 64
    ensures forall i :: 0 <= i < 64 ==> IsPrime(PRIMES[i])
    ensures forall i, n :: 0 <= i < 63 && PRIMES[i] < n < PRIMES[i + 1] ==> !IsPrime(n)
  {
    hide IsPrime, SmallPrimeFree, SieveGap;
    AllSieved();
    forall i | 0 <= i < 64
      ensures IsPrime(PRIMES[i])
    {
      assert Sieved(i);
      SieveIsPrime(PRIMES[i]);
    }
    forall i, n | 0 <= i < 63 && PRIMES[i] < n < PRIMES[i + 1]
      ensures !IsPrime(n)
    {
      assert Sieved(i) && Sieved(i + 1);
      GapHasNoPrime(PRIMES[i], PRIMES[i + 1], n);
    }
  }
}
