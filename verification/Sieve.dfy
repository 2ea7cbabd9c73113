/** The segmented sieve of mtsieve/mtsieve.c: the work of one thread on its segment [a, b]. */
module Sieve {
  import opened Sums
  import opened Primes

  // ---- Square root and ceiling division, both exact -----------------------------------------

  /** The value of ceil(sqrt(b)). */
  function CeilSqrt(b: nat): (r: nat)
    ensures b <= r * r && (r > 0 ==> (r - 1) * (r - 1) < b)
  {
    var r := FloorSqrt(b);
    if r * r == b then r else r + 1
  }

  /** Being below ceil(sqrt(b)) is having a square below b; the last such square therefore fits
      wherever b does. */
  lemma {:induction false} BelowCeilSqrt(i: nat, b: nat)
    ensures i < CeilSqrt(b) <==> i * i < b
  {
    var r := CeilSqrt(b);
    if i < r {
      MulMonotone(i, i, r - 1, r - 1);
    } else {
      MulMonotone(r, r, i, i);
    }
  }

  lemma {:induction false} CeilSqrtSmall(b: nat)
    requires b >= 2
    ensures CeilSqrt(b) <= b
  {
    BelowCeilSqrt(b, b);
    MulMonotone(b, 1, b, b);
  }

  /** The value of ceil((double)a / p). */
  function CeilDiv(a: nat, p: nat): (r: nat)
    requires p > 0
    ensures a <= r * p < a + p
  {
    var r := (a + p - 1) / p;
    assert a + p - 1 == p * r + (a + p - 1) % p;
    r
  }

  lemma {:induction false} NoMultipleBetween(x: nat, p: nat, y: nat)
    requires p > 0 && x % p == 0
    ensures x < y < x + p ==> y % p != 0
  {
    if x < y < x + p {
      DivUnique(y, p, x / p, y - x);
    }
  }

  // ---- The small primes ---------------------------------------------------------------------

  ghost predicate SmallPrime(k: nat, b: nat) {
    Prime(k) && k * k < b
  }

  ghost predicate NoDivisorBelow(k: nat, i: nat) {
    forall d :: 2 <= d < i && d < k ==> k % d != 0
  }

  /** Lines 32 to 43.  Entries the program never writes are taken to be zero. */
  method LowSieve(b: nat) returns (lowPrimes: array<int>)
    requires b >= 2
    ensures lowPrimes.Length == b && fresh(lowPrimes)
    ensures forall k :: 0 <= k < b ==> lowPrimes[k] == if SmallPrime(k, b) then 1 else 0
  {
    var limit := CeilSqrt(b);
    CeilSqrtSmall(b);
    lowPrimes := new int[b](_ => 0);
    var i := 2;
    while i < limit
      invariant 2 <= i && (i <= limit || limit < 2)
      invariant forall k :: 0 <= k < b ==> lowPrimes[k] == if 2 <= k < i && k < limit then 1 else 0
    {
      lowPrimes[i] := 1;
      i := i + 1;
    }
    i := 2;
    while i < limit
      invariant 2 <= i && (i <= limit || limit < 2)
      invariant forall k :: 0 <= k < b ==>
                  lowPrimes[k] == if 2 <= k < limit && NoDivisorBelow(k, i) then 1 else 0
    {
      if lowPrimes[i] != 0 {
        StrikeLow(lowPrimes, b, i, limit);
      } else {
        forall k | 2 <= k < limit && NoDivisorBelow(k, i) ensures NoDivisorBelow(k, i + 1) {
          if k > i && k % i == 0 {
            var d :| 2 <= d < i && i % d == 0;
            DivisorOfDivisor(d, i, k);
          }
        }
      }
      i := i + 1;
    }
    forall k: nat | k < b ensures 2 <= k < limit && NoDivisorBelow(k, i) <==> SmallPrime(k, b) {
      BelowCeilSqrt(k, b);
    }
  }

  const INT_MAX: nat := 0x7FFF_FFFF

  /** Every product that line 39 evaluates fits the machine integer that `b` fits. */
  lemma {:induction false} ProductFits(i: nat, j: nat, b: nat)
    requires i < CeilSqrt(b) && b <= INT_MAX
    requires i * j <= i * i || i * j < CeilSqrt(b) + i
    ensures i * j <= INT_MAX
  {
    BelowCeilSqrt(i, b);
    BelowCeilSqrt(46341, b);
  }

  /** `k` is a multiple of `i`, at least its square, and below `m`. */
  predicate Crossed(k: nat, i: nat, m: nat) {
    i > 0 && k % i == 0 && i * i <= k < m
  }

  lemma {:induction false} CrossNext(k: nat, i: nat, j: nat)
    requires 2 <= i <= j
    ensures Crossed(k, i, i * (j + 1)) <==> Crossed(k, i, i * j) || k == i * j
  {
    MultipleDivisible(i, j);
    MulMonotone(i, i, i, j);
    assert i * (j + 1) == i * j + i;
    NoMultipleBetween(i * j, i, k);
  }

  /** Of the numbers without a divisor below `i`, the multiples of `i` other than `i` are at least
      its square: the cofactor has no divisor below `i` either. */
  lemma {:induction false} MultipleAtLeastSquare(k: nat, i: nat)
    requires 2 <= i < k && NoDivisorBelow(k, i) && k % i == 0
    ensures i * i <= k
  {
    DivisorFacts(k, i);
    var c := k / i;
    assert c != 1;
    assert c >= i;
    MulMonotone(i, i, i, c);
  }

  lemma {:induction false} CrossedExactly(k: nat, i: nat, limit: nat)
    requires 2 <= k < limit && 2 <= i && NoDivisorBelow(k, i)
    ensures NoDivisorBelow(k, i + 1) <==> !Crossed(k, i, limit)
  {
    if k % i == 0 && k > i {
      MultipleAtLeastSquare(k, i);
    }
    MulMonotone(i, 2, i, i);
  }

  /** Lines 39 to 41, for an `i` that is prime: of the numbers without a smaller divisor, exactly
      the multiples of `i` lose their mark. */
  method StrikeLow(lowPrimes: array<int>, b: nat, i: nat, limit: nat)
    requires 2 <= i < limit <= b == lowPrimes.Length
    requires limit == CeilSqrt(b)
    requires forall k :: 0 <= k < b ==>
               lowPrimes[k] == if 2 <= k < limit && NoDivisorBelow(k, i) then 1 else 0
    modifies lowPrimes
    ensures forall k :: 0 <= k < b ==>
              lowPrimes[k] == if 2 <= k < limit && NoDivisorBelow(k, i + 1) then 1 else 0
  {
    var j := i;
    if b <= INT_MAX {
      ProductFits(i, j, b);
    }
    while i * j < limit
      invariant i <= j && (i * j == i * i || i * j < limit + i)
      invariant b <= INT_MAX ==> i * j <= INT_MAX
      invariant forall k :: 0 <= k < b ==>
                  lowPrimes[k] == if 2 <= k < limit && NoDivisorBelow(k, i) && !Crossed(k, i, i * j) then 1 else 0
      decreases limit - i * j
    {
      forall k: nat ensures Crossed(k, i, i * (j + 1)) <==> Crossed(k, i, i * j) || k == i * j {
        CrossNext(k, i, j);
      }
      MulMonotone(i, i, i, j);
      lowPrimes[i * j] := 0;
      assert i * (j + 1) == i * j + i;
      j := j + 1;
      if b <= INT_MAX {
        ProductFits(i, j, b);
      }
    }
    forall k: nat | 2 <= k < limit && NoDivisorBelow(k, i)
      ensures NoDivisorBelow(k, i + 1) <==> !Crossed(k, i, i * j)
    {
      CrossedExactly(k, i, limit);
    }
  }

  // ---- The segment --------------------------------------------------------------------------

  /** The first offset struck for `p`, lines 52 to 55. */
  function StrikeStart(a: nat, p: nat): (i: int)
    requires p >= 2
  {
    var i := CeilDiv(a, p) * p - a;
    if a <= p then i + p else i
  }

  /** It is the offset of the least multiple of `p` that is in the segment and not `p` itself. */
  lemma {:induction false} StrikeStartLeast(a: nat, p: nat)
    requires a >= 2 && p >= 2
    ensures var i := StrikeStart(a, p);
      && 0 <= i && (a + i) % p == 0 && 2 * p <= a + i
      && forall m: nat :: a <= m && 2 * p <= m && m % p == 0 ==> a + i <= m
  {
    var c := CeilDiv(a, p);
    var i := StrikeStart(a, p);
    if a <= p {
      assert c * p < 2 * p;
      MulMonotone(2, p, c, p);
      assert c == 1;
      MultipleDivisible(p, 2);
      assert a + i == 2 * p;
    } else {
      MulMonotone(c, p, 1, p);
      MulMonotone(2, p, c, p);
      MultipleDivisible(p, c);
      forall m: nat | a <= m && m % p == 0 ensures c * p <= m {
        // otherwise m would lie strictly between two neighbouring multiples
        assert (c - 1) * p == c * p - p;
        MultipleDivisible(p, c - 1);
        NoMultipleBetween((c - 1) * p, p, m);
      }
    }
  }

  predicate ProperMultiple(n: nat, p: nat) {
    p > 0 && n % p == 0 && 2 * p <= n
  }

  /** `n` is a proper multiple of a small prime less than `p`. */
  ghost predicate Struck(n: nat, b: nat, p: nat) {
    exists q: nat :: 2 <= q < p && SmallPrime(q, b) && ProperMultiple(n, q)
  }

  /** Lines 45 to 61. */
  method SegmentSieve(a: nat, b: nat, lowPrimes: array<int>) returns (highPrimes: array<bool>)
    requires 2 <= a <= b == lowPrimes.Length
    requires forall k :: 0 <= k < b ==> lowPrimes[k] == if SmallPrime(k, b) then 1 else 0
    ensures highPrimes.Length == b - a + 1 && fresh(highPrimes)
    ensures forall i :: 0 <= i <= b - a ==> (highPrimes[i] <==> !Struck(a + i, b, b))
  {
    var limit := b - a + 1;
    highPrimes := new bool[limit](_ => true);
    var p := 0;
    while p < b
      invariant 0 <= p <= b
      invariant forall k :: 0 <= k < limit ==> (highPrimes[k] <==> !Struck(a + k, b, p))
    {
      if lowPrimes[p] != 0 {
        var i := CeilDiv(a, p) * p - a;
        if a <= p {
          i := i + p;
        }
        StrikeSegment(a, b, p, i, highPrimes);
      }
      forall n: nat ensures Struck(n, b, p + 1) <==> Struck(n, b, p) || (SmallPrime(p, b) && ProperMultiple(n, p)) {
        StruckNext(n, b, p);
      }
      p := p + 1;
    }
  }

  lemma {:induction false} StruckNext(n: nat, b: nat, p: nat)
    ensures Struck(n, b, p + 1) <==> Struck(n, b, p) || (SmallPrime(p, b) && ProperMultiple(n, p))
  {
  }

  lemma {:induction false} NextProperMultiple(n: nat, p: nat)
    requires ProperMultiple(n, p)
    ensures ProperMultiple(n + p, p)
    ensures forall m: nat :: n < m < n + p ==> !ProperMultiple(m, p)
  {
    AddDivisor(n, p);
    forall m: nat | n < m < n + p ensures !ProperMultiple(m, p) {
      NoMultipleBetween(n, p, m);
    }
  }

  /** Lines 56 to 59: exactly the proper multiples of `p` lose their mark. */
  method StrikeSegment(a: nat, b: nat, p: nat, start: int, highPrimes: array<bool>)
    requires 2 <= a <= b && highPrimes.Length == b - a + 1
    requires p >= 2 && start == StrikeStart(a, p)
    modifies highPrimes
    ensures forall k :: 0 <= k <= b - a ==>
              (highPrimes[k] <==> old(highPrimes[k]) && !ProperMultiple(a + k, p))
  {
    StrikeStartLeast(a, p);
    forall n: nat | a <= n < a + start ensures !ProperMultiple(n, p) {
    }
    var i := start;
    while i < highPrimes.Length
      invariant 0 <= i && ProperMultiple(a + i, p)
      invariant forall k :: 0 <= k < highPrimes.Length ==>
                  (highPrimes[k] <==> old(highPrimes[k]) && !(k < i && ProperMultiple(a + k, p)))
    {
      highPrimes[i] := false;
      NextProperMultiple(a + i, p);
      assert a + i + p == a + (i + p);
      i := i + p;
    }
  }

  /** The sums of line 58 all fit a machine integer exactly when the last one does, that of the
      greatest multiple of `p` in the segment, if any multiple of `p` is struck at all. */
  lemma {:induction false} StrikeFits(a: nat, b: nat, p: nat)
    requires 2 <= a <= b && p >= 2
    ensures var last := b - b % p;
      (forall n: nat :: a <= n <= b && ProperMultiple(n, p) ==> (n - a) + p <= INT_MAX)
      <==> (last < a || last < 2 * p || (last - a) + p <= INT_MAX)
  {
    var last := b - b % p;
    assert last == (b / p) * p;
    MultipleDivisible(p, b / p);
    assert ProperMultiple(last, p) <==> 2 * p <= last;
    forall n: nat | a <= n <= b && ProperMultiple(n, p) ensures n <= last {
      NoMultipleBetween(last, p, n);
    }
  }

  // ---- What the marks mean ------------------------------------------------------------------

  ghost predicate PrimeSquare(n: nat) {
    exists q: nat :: Prime(q) && q * q == n
  }

  /** The numbers of a segment that ends in `b` whose mark survives. */
  ghost predicate Survivor(n: nat, b: nat) {
    Prime(n) || (n == b && PrimeSquare(b))
  }

  lemma {:induction false} FactorNonNegative(x: int, p: nat)
    requires p > 0 && x * p >= 0
    ensures x >= 0
  {
  }

  /** Euclid's lemma, by descent on the remainder of the prime. */
  lemma {:induction false} EuclidStep(p: nat, m: nat, c: nat)
    requires Prime(p) && 0 < m < p && (m * c) % p == 0
    ensures c % p == 0
    decreases m
  {
    if m > 1 {
      var k, r := p / m, p % m;
      assert p == m * k + r;
      assert r * c == c * p - k * (m * c) by {
        assert (m * k + r) * c == k * (m * c) + r * c;
      }
      var l := (m * c) / p;
      assert m * c == p * l;
      assert r * c == (c - k * l) * p by {
        assert k * (p * l) == (k * l) * p;
      }
      FactorNonNegative(c - k * l, p);
      MultipleDivisible(p, c - k * l);
      EuclidStep(p, r, c);
    }
  }

  /** A prime that divides the square of a prime is that prime. */
  lemma {:induction false} DivisorOfPrimeSquare(q: nat, r: nat)
    requires Prime(q) && Prime(r) && (r * r) % q == 0
    ensures q == r
  {
    if q > r {
      EuclidStep(q, r, r);
      DivUnique(r, q, 0, r);
    } else if q < r {
      var m, k := r % q, r / q;
      assert r * r == m * r + (k * r) * q;
      var l := (r * r) / q;
      assert r * r == q * l;
      assert m * r == (l - k * r) * q;
      FactorNonNegative(l - k * r, q);
      MultipleDivisible(q, l - k * r);
      EuclidStep(q, m, r);
    }
  }

  lemma {:induction false} PrimeSquareNotPrime(n: nat)
    requires PrimeSquare(n)
    ensures n >= 4 && !Prime(n)
  {
    var q: nat :| Prime(q) && q * q == n;
    MulMonotone(2, q, q, q);
    MultipleDivisible(q, q);
  }

  /** The exact meaning of a mark: what survives is prime, except that the end of the segment
      survives when it is the square of a prime. */
  lemma {:induction false} StruckExactly(n: nat, b: nat)
    requires 2 <= n <= b
    ensures Struck(n, b, b) <==> !Survivor(n, b)
  {
    if Struck(n, b, b) {
      var q: nat :| 2 <= q < b && SmallPrime(q, b) && ProperMultiple(n, q);
      assert !Prime(n);
      if n == b && PrimeSquare(b) {
        var r: nat :| Prime(r) && r * r == b;
        DivisorOfPrimeSquare(q, r);
      }
    }
    if !Survivor(n, b) {
      var q := SmallPrimeDivisor(n);
      if q * q == b {
        assert PrimeSquare(b);
      }
      DivisorFacts(n, q);
      assert n / q != 1;
      MulMonotone(q, 2, q, n / q);
      MulMonotone(q, 2, q, q);
      assert ProperMultiple(n, q);
      assert q < b && SmallPrime(q, b);
    }
  }

  // ---- Counting the numbers with two digits 3 -----------------------------------------------

  /** The decimal digits, least significant first. */
  function Digits(n: nat): seq<nat> {
    if n == 0 then [] else [n % 10] + Digits(n / 10)
  }

  function FromDigits(ds: seq<nat>): nat {
    if ds == [] then 0 else ds[0] + 10 * FromDigits(ds[1..])
  }

  /** `Digits` is decimal notation: digits below ten, no leading zero, and the value they denote. */
  lemma {:induction false} DigitsDenote(n: nat)
    ensures FromDigits(Digits(n)) == n
    ensures forall i :: 0 <= i < |Digits(n)| ==> Digits(n)[i] < 10
    ensures n > 0 ==> Digits(n) != [] && Digits(n)[|Digits(n)| - 1] != 0
  {
    if n > 0 {
      DigitsDenote(n / 10);
      assert Digits(n)[1..] == Digits(n / 10);
    }
  }

  function IsThree(d: nat): int {
    if d == 3 then 1 else 0
  }

  predicate TwoThrees(n: nat) {
    Sum(IsThree, Digits(n)) >= 2
  }

  /** Two different places of `ds` hold a 3. */
  ghost predicate ThreeTwice(ds: seq<nat>) {
    exists i, j :: 0 <= i < j < |ds| && ds[i] == 3 && ds[j] == 3
  }

  lemma {:induction false} SomeThree(ds: seq<nat>)
    ensures Sum(IsThree, ds) >= 0 && (Sum(IsThree, ds) >= 1 <==> 3 in ds)
  {
    if ds != [] {
      SomeThree(ds[1..]);
      assert ds == [ds[0]] + ds[1..];
    }
  }

  lemma {:induction false} ThreeTwiceExactly(ds: seq<nat>)
    ensures Sum(IsThree, ds) >= 2 <==> ThreeTwice(ds)
  {
    if ds != [] {
      var rest := ds[1..];
      SomeThree(rest);
      ThreeTwiceExactly(rest);
      ThreeTwiceFirst(ds);
    }
  }

  lemma {:induction false} ThreeTwiceFirst(ds: seq<nat>)
    requires ds != []
    ensures ThreeTwice(ds) <==> ThreeTwice(ds[1..]) || (ds[0] == 3 && 3 in ds[1..])
  {
    var rest := ds[1..];
    if ThreeTwice(rest) {
      var i, j :| 0 <= i < j < |rest| && rest[i] == 3 && rest[j] == 3;
      assert ds[i + 1] == 3 && ds[j + 1] == 3;
    }
    if ds[0] == 3 && 3 in rest {
      var j :| 0 <= j < |rest| && rest[j] == 3;
      assert ds[j + 1] == 3;
    }
    if ThreeTwice(ds) {
      var i, j :| 0 <= i < j < |ds| && ds[i] == 3 && ds[j] == 3;
      assert rest[j - 1] == 3;
      assert i > 0 ==> rest[i - 1] == 3;
    }
  }

  /** Lines 67 to 75: whether two different decimal places of `n` hold a 3. */
  method HasTwoThrees(n: nat) returns (found: bool)
    ensures found <==> TwoThrees(n)
    ensures found <==> ThreeTwice(Digits(n))
  {
    ThreeTwiceExactly(Digits(n));
    var counter, temp := 0, n;
    while temp > 0 && counter < 2
      invariant 0 <= counter <= 2 && 0 <= temp
      invariant counter + Sum(IsThree, Digits(temp)) == Sum(IsThree, Digits(n))
    {
      assert Digits(temp)[1..] == Digits(temp / 10);
      if temp % 10 == 3 {
        counter := counter + 1;
      }
      temp := temp / 10;
    }
    SumNonNegative(IsThree, Digits(temp));
    found := counter > 1;
  }

  /** The number of elements of [lo, hi) that satisfy `p`. */
  ghost function CountIf(p: int -> bool, lo: int, hi: int): nat
    decreases hi - lo
  {
    if lo >= hi then 0 else CountIf(p, lo, hi - 1) + (if p(hi - 1) then 1 else 0)
  }

  ghost function Numbers(p: int -> bool, lo: int, hi: int): set<int> {
    set n | lo <= n < hi && p(n)
  }

  lemma {:induction false} NumbersNext(p: int -> bool, lo: int, hi: int)
    requires lo < hi
    ensures Numbers(p, lo, hi) == Numbers(p, lo, hi - 1) + (if p(hi - 1) then {hi - 1} else {})
    ensures hi - 1 !in Numbers(p, lo, hi - 1)
  {
  }

  /** It is their number. */
  lemma {:induction false} CountIfIsCardinality(p: int -> bool, lo: int, hi: int)
    ensures CountIf(p, lo, hi) == |Numbers(p, lo, hi)|
    decreases hi - lo
  {
    if lo < hi {
      CountIfIsCardinality(p, lo, hi - 1);
      NumbersNext(p, lo, hi);
    } else {
      assert Numbers(p, lo, hi) == {};
    }
  }

  ghost function Hit(end: nat): int -> bool {
    (n: int) => n >= 0 && Survivor(n, end) && TwoThrees(n)
  }

  ghost predicate PrimeHit(n: int) {
    Prime(n) && TwoThrees(n)
  }

  /** What the end of a segment adds although it is not prime. */
  ghost function SquareEnd(end: nat): nat {
    if PrimeSquare(end) && TwoThrees(end) then 1 else 0
  }

  /** Lines 64 to 79: the survivors of the segment [a, b] with two digits 3. */
  method CountHits(a: nat, b: nat, highPrimes: array<bool>) returns (counterof3: nat)
    requires 2 <= a <= b && highPrimes.Length == b - a + 1
    requires forall i :: 0 <= i <= b - a ==> (highPrimes[i] <==> Survivor(a + i, b))
    ensures counterof3 == CountIf(Hit(b), a, b + 1)
  {
    counterof3 := 0;
    var i := 0;
    while i < highPrimes.Length
      invariant 0 <= i <= highPrimes.Length
      invariant counterof3 == CountIf(Hit(b), a, a + i)
    {
      if highPrimes[i] {
        var found := HasTwoThrees(i + a);
        if found {
          counterof3 := counterof3 + 1;
        }
      }
      i := i + 1;
    }
  }

  /** `sieve` up to the lock: the count of the segment [a, b]. */
  method CountSegment(a: nat, b: nat) returns (counterof3: nat)
    requires 2 <= a <= b
    ensures counterof3 == CountIf(PrimeHit, a, b + 1) + SquareEnd(b)
  {
    var lowPrimes := LowSieve(b);
    var highPrimes := SegmentSieve(a, b, lowPrimes);
    forall i | 0 <= i <= b - a ensures highPrimes[i] <==> Survivor(a + i, b) {
      StruckExactly(a + i, b);
    }
    counterof3 := CountHits(a, b, highPrimes);
    HitsExactly(a, b, b + 1);
  }

  lemma {:induction false} HitsExactly(a: nat, b: nat, hi: int)
    requires 2 <= a <= hi <= b + 1
    ensures CountIf(Hit(b), a, hi) == CountIf(PrimeHit, a, hi) + (if hi == b + 1 > a then SquareEnd(b) else 0)
    decreases hi
  {
    if a < hi {
      HitsExactly(a, b, hi - 1);
      if hi - 1 == b && PrimeSquare(b) {
        PrimeSquareNotPrime(b);
      }
    }
  }

  // ---- The sieve agrees with trial division --------------------------------------------------

  /** The sieve leaves exactly the numbers that trial division accepts if and only if its segment
      does not end in the square of a prime. */
  lemma {:induction false} SieveRefinesTrialDivision(a: nat, b: nat)
    requires 2 <= a <= b
    ensures (forall n: nat :: a <= n <= b ==> (!Struck(n, b, b) <==> TrialDivision(n))) <==> !PrimeSquare(b)
  {
    forall n: nat | a <= n <= b
      ensures !Struck(n, b, b) <==> Survivor(n, b)
      ensures TrialDivision(n) <==> Prime(n)
    {
      StruckExactly(n, b);
      TrialDivisionExact(n);
    }
    if PrimeSquare(b) {
      PrimeSquareNotPrime(b);
      assert !Struck(b, b, b) && !TrialDivision(b);
    }
  }
}
