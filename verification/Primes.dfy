/** Primality, and trial division as 392/signalprimes/primestest.c performs it. */
module Primes {

  ghost predicate Prime(n: int) {
    n >= 2 && forall d :: 2 <= d < n ==> n % d != 0
  }

  lemma {:induction false} MulMonotone(a: nat, b: nat, c: nat, d: nat)
    ensures a <= c && b <= d ==> a * b <= c * d
  {
    assert c * d - a * b == (c - a) * d + a * (d - b);
  }

  lemma {:induction false} DivisorFacts(n: nat, d: nat)
    requires n > 0 && d > 0 && n % d == 0
    ensures n == d * (n / d) && 1 <= n / d <= n && n % (n / d) == 0
    ensures d > 1 ==> n / d < n
  {
    var q := n / d;
    Cofactor(n, d, q);
  }

  lemma {:induction false} Cofactor(n: nat, d: nat, q: nat)
    requires n > 0 && d > 0 && n == d * q
    ensures 1 <= q <= n && n % q == 0
    ensures d > 1 ==> q < n
  {
    assert q != 0;
    MultipleDivisible(q, d);
    MulMonotone(1, q, d, q);
    if d > 1 {
      MulMonotone(2, q, d, q);
    }
  }

  lemma {:induction false} MultipleDivisible(d: nat, k: nat)
    requires d > 0
    ensures (k * d) % d == 0 && (k * d) / d == k
  {
    if k > 0 {
      MultipleDivisible(d, k - 1);
      assert k * d == (k - 1) * d + d;
      AddDivisor((k - 1) * d, d);
    }
  }

  lemma {:induction false} AddDivisor(x: nat, d: nat)
    requires d > 0
    ensures (x + d) % d == x % d && (x + d) / d == x / d + 1
  {
    var q, r := x / d, x % d;
    assert x + d == d * (q + 1) + r;
    DivUnique(x + d, d, q + 1, r);
  }

  lemma {:induction false} DivUnique(x: int, d: nat, q: int, r: int)
    requires d > 0 && x == d * q + r && 0 <= r < d
    ensures x / d == q && x % d == r
  {
    var q', r' := x / d, x % d;
    assert x == d * q' + r';
    assert d * (q - q') == r' - r;
    NonZeroMultiple(d, q - q');
  }

  lemma {:induction false} NonZeroMultiple(d: nat, k: int)
    ensures k > 0 ==> d * k >= d
    ensures k < 0 ==> d * k + d <= 0
  {
    if k > 0 {
      MulMonotone(d, 1, d, k);
    } else {
      MulMonotone(d, 1, d, -k);
      assert d * k == -(d * -k);
    }
  }

  /** Divisibility is transitive. */
  lemma {:induction false} DivisorOfDivisor(d: nat, e: nat, n: nat)
    requires d > 0 && e > 0 && e % d == 0 && n % e == 0
    ensures n % d == 0
  {
    var k, l := e / d, n / e;
    assert e == d * k && n == e * l;
    assert n == (k * l) * d by {
      assert (d * k) * l == (k * l) * d;
    }
    MultipleDivisible(d, k * l);
  }

  /** A composite number has a prime divisor whose square does not exceed it. */
  lemma {:induction false} SmallPrimeDivisor(n: nat) returns (q: nat)
    requires n >= 2 && !Prime(n)
    ensures Prime(q) && q < n && n % q == 0 && q * q <= n
  {
    var d :| 2 <= d < n && n % d == 0;
    DivisorFacts(n, d);
    var e := n / d;
    // the smaller of the two cofactors
    var c := if d <= e then d else e;
    assert c * c <= n by {
      MulMonotone(c, c, d, e);
    }
    if Prime(c) {
      q := c;
    } else {
      q := SmallPrimeDivisor(c);
      DivisorOfDivisor(q, c, n);
      MulMonotone(q, q, c, c);
    }
  }

  // ---- Trial division -----------------------------------------------------------------------

  /** The value of (int)sqrt(n), computed exactly. */
  function FloorSqrt(n: nat): (r: nat)
    ensures r * r <= n < (r + 1) * (r + 1)
  {
    if n == 0 then 0
    else
      var r := FloorSqrt(n - 1);
      if (r + 1) * (r + 1) <= n then r + 1 else r
  }

  /** No divisor is found up to the square root. */
  predicate TrialDivision(n: nat) {
    forall d :: 2 <= d <= FloorSqrt(n) ==> n % d != 0
  }

  /** Although only the divisors up to the square root are tried the answer is exact from 2 on;
      for 0 and 1 nothing is tried and the answer is yes. */
  lemma {:induction false} TrialDivisionExact(n: nat)
    ensures TrialDivision(n) <==> n < 2 || Prime(n)
  {
    var end := FloorSqrt(n);
    if n >= 2 && !Prime(n) {
      var q := SmallPrimeDivisor(n);
      MulMonotone(end + 1, end + 1, q, q);
    }
    if !TrialDivision(n) {
      var d :| 2 <= d <= end && n % d == 0;
      MulMonotone(2, d, d, end);
      MulMonotone(d, end, end, end);
    }
    MulMonotone(2, 2, end, end);
  }

  /** `is_prime`, lines 9 to 16. */
  method IsPrime(n: nat) returns (prime: bool)
    ensures prime <==> TrialDivision(n)
    ensures prime <==> n < 2 || Prime(n)
  {
    var div, end := 2, FloorSqrt(n);
    TrialDivisionExact(n);
    while div <= end
      invariant 2 <= div && end == FloorSqrt(n)
      invariant forall d :: 2 <= d < div ==> n % d != 0
    {
      if n % div == 0 {
        return false;
      }
      div := div + 1;
    }
    return true;
  }
}
