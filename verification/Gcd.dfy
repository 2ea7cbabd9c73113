/** The two gcds of 392/gradingB/gcd.cpp, with the remainder of C, which truncates toward zero. */
module Gcd {

  function Abs(x: int): nat {
    if x < 0 then -x else x
  }

  /** m % n in C: the remainder takes the sign of the dividend. */
  function CRem(m: int, n: int): (r: int)
    requires n != 0
    ensures Abs(r) < Abs(n) && (m >= 0 ==> r >= 0) && (m <= 0 ==> r <= 0)
  {
    if m >= 0 then m % Abs(n) else -((-m) % Abs(n))
  }

  predicate Product(a: int, b: int, x: int) {
    a * b == x
  }

  ghost predicate Divides(d: int, x: int) {
    exists k :: Product(d, k, x)
  }

  lemma {:induction false} CRemCongruent(m: int, n: int) returns (q: int)
    requires n != 0
    ensures m == n * q + CRem(m, n)
  {
    var a := Abs(n);
    var k := if m >= 0 then m / a else -((-m) / a);
    assert m == a * k + CRem(m, n);
    q := if n > 0 then k else -k;
    assert a * k == n * q;
  }

  lemma {:induction false} DividesCombination(d: int, x: int, y: int, q: int)
    requires Divides(d, x) && Divides(d, y)
    ensures Divides(d, x * q + y)
  {
    var k :| Product(d, k, x);
    var l :| Product(d, l, y);
    assert (d * k) * q == d * (k * q);
    assert Product(d, k * q + l, x * q + y);
  }

  /** Lines 21 to 32. */
  function GcdRec(m: int, n: int): int
    decreases Abs(n)
  {
    if n == 0 then m else GcdRec(n, CRem(m, n))
  }

  /** Lines 11 to 19. */
  method GcdIter(m: int, n: int) returns (g: int)
    ensures g == GcdRec(m, n)
  {
    var m', n' := m, n;
    while n' != 0
      invariant GcdRec(m', n') == GcdRec(m, n)
      decreases Abs(n')
    {
      var f := CRem(m', n');
      m' := n';
      n' := f;
    }
    return m';
  }

  /** The result divides both arguments and is divided by every common divisor; it is not negative
      if no argument is. */
  lemma {:induction false} GcdRecIsGcd(m: int, n: int)
    ensures Divides(GcdRec(m, n), m) && Divides(GcdRec(m, n), n)
    ensures forall d :: Divides(d, m) && Divides(d, n) ==> Divides(d, GcdRec(m, n))
    ensures m >= 0 && n >= 0 ==> GcdRec(m, n) >= 0
    decreases Abs(n)
  {
    var g := GcdRec(m, n);
    if n == 0 {
      assert Product(m, 1, m) && Product(m, 0, 0);
    } else {
      var r := CRem(m, n);
      var q := CRemCongruent(m, n);
      GcdRecIsGcd(n, r);
      DividesCombination(g, n, r, q);
      forall d | Divides(d, m) && Divides(d, n) ensures Divides(d, g) {
        DividesCombination(d, n, m, -q);
        assert n * -q + m == r;
      }
    }
  }

  /** The number of remainders taken. */
  function Rounds(m: int, n: int): nat
    decreases Abs(n)
  {
    if n == 0 then 0 else 1 + Rounds(n, CRem(m, n))
  }

  predicate SameSign(x: int, y: int) {
    (x > 0 ==> y >= 0) && (x < 0 ==> y <= 0)
  }

  /** The result has the sign of the first argument after an even number of rounds and that of the
      second after an odd number; so it is not positive if neither argument is. */
  lemma {:induction false} GcdRecSign(m: int, n: int)
    ensures SameSign(GcdRec(m, n), if Rounds(m, n) % 2 == 0 then m else n)
    ensures m <= 0 && n <= 0 ==> GcdRec(m, n) <= 0
    decreases Abs(n)
  {
    if n != 0 {
      GcdRecSign(n, CRem(m, n));
    }
  }

  lemma {:induction false} DividesNonZero(d: int, x: int)
    requires Divides(d, x)
    ensures d == 0 ==> x == 0
    ensures x != 0 ==> Abs(d) <= Abs(x)
  {
    var k :| Product(d, k, x);
    if d == 0 || k == 0 {
      assert x == 0;
    } else {
      ProductGrows(Abs(d), Abs(k));
      assert Abs(x) == Abs(d) * Abs(k);
    }
  }

  lemma {:induction false} ProductGrows(a: nat, b: nat)
    requires b >= 1
    ensures a <= a * b
  {
  }

  /** So its absolute value is the greatest common divisor, and it is 0 only for 0 and 0. */
  lemma {:induction false} GcdRecIsGreatest(m: int, n: int, d: int)
    requires Divides(d, m) && Divides(d, n) && (m != 0 || n != 0)
    ensures GcdRec(m, n) != 0 && Abs(d) <= Abs(GcdRec(m, n))
  {
    var g := GcdRec(m, n);
    GcdRecIsGcd(m, n);
    DividesNonZero(g, m);
    DividesNonZero(g, n);
    DividesNonZero(d, g);
  }
}
