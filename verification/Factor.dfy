/** primeFactors of internal/commands/utilities/factor.go: factorization by trial division in 64-bit words. */
module Factor {
  import opened Results

  newtype uint64 = n: int | 0 <= n < 0x1_0000_0000_0000_0000

  predicate Divides(d: int, n: int)
    requires d > 0
  {
    n % d == 0
  }

  ghost predicate IsPrime(p: int) {
    p >= 2 && forall d | 2 <= d < p :: !Divides(d, p)
  }

  function Product(factors: seq<uint64>): int {
    if factors == [] then 1 else Product(factors[..|factors| - 1]) * factors[|factors| - 1] as int
  }

  ghost predicate Sorted(factors: seq<uint64>) {
    forall i, j | 0 <= i < j < |factors| :: factors[i] <= factors[j]
  }

  ghost predicate AllPrime(factors: seq<uint64>) {
    forall i | 0 <= i < |factors| :: IsPrime(factors[i] as int)
  }

  /** What factor is to print for a number. */
  ghost predicate IsFactorization(factors: seq<uint64>, n: int) {
    Sorted(factors) && AllPrime(factors) && Product(factors) == n
  }

  // ------------------------------------------------------------ divisibility

  lemma MulLeast(x: int, d: int)
    requires x >= 1 && d > 0
    ensures x * d >= d
  {
    assert (x - 1) * d >= 0;
  }

  /** Quotient and remainder are determined. */
  lemma DivUnique(n: int, d: int, q: int, r: int)
    requires d > 0 && n == q * d + r && 0 <= r < d
    ensures n / d == q && n % d == r
  {
    var p := n / d;
    assert n == p * d + n % d;
    if q > p {
      MulLeast(q - p, d);
    } else if p > q {
      MulLeast(p - q, d);
    }
  }

  lemma DividesIs(d: int, n: int)
    requires d > 0 && Divides(d, n)
    ensures n == (n / d) * d
  {
  }

  lemma MultipleDivides(k: int, d: int)
    requires d > 0
    ensures Divides(d, k * d)
  {
    DivUnique(k * d, d, k, 0);
  }

  lemma DividesTrans(d: int, e: int, n: int)
    requires d > 0 && e > 0 && Divides(d, e) && Divides(e, n)
    ensures Divides(d, n)
  {
    var a, b := e / d, n / e;
    DividesIs(d, e);
    DividesIs(e, n);
    assert b * (a * d) == (b * a) * d;
    MultipleDivides(b * a, d);
  }

  lemma Cofactor(d: int, n: int)
    requires d >= 2 && n >= 1 && Divides(d, n)
    ensures 1 <= n / d < n && Divides(n / d, n) && (n / d) * d == n
  {
    var q := n / d;
    DividesIs(d, n);
    assert q <= 0 ==> q * d <= 0;
    assert q * d == q + q * (d - 1) && q * (d - 1) >= 1 by { MulLeast(q, d - 1); }
    assert d * q == n;
    MultipleDivides(d, q);
  }

  // --------------------------------------------------------- trial division

  /** No divisor from 2 up to below the bound. */
  ghost predicate Sieved(n: int, bound: int) {
    forall d | 2 <= d < bound :: !Divides(d, n)
  }

  /** The least divisor is prime. */
  lemma LeastDivisorIsPrime(d: int, n: int)
    requires d >= 2 && Divides(d, n) && Sieved(n, d)
    ensures IsPrime(d)
  {
    forall e | 2 <= e < d ensures !Divides(e, d) {
      if Divides(e, d) {
        DividesTrans(e, d, n);
      }
    }
  }

  function Square(n: int): int {
    n * n
  }

  lemma MulMonotone(f: int, e: int, d: int)
    requires f >= d >= 1 && e >= d
    ensures f * e >= d * d
  {
    assert f * e - d * d == f * (e - d) + (f - d) * d;
    assert f * (e - d) >= 0 && (f - d) * d >= 0;
  }

  /** What is left once all divisors up to the square root are out is one or prime. */
  lemma SievedIsPrime(n: int, d: int)
    requires n >= 2 && d >= 1 && Sieved(n, d) && n < Square(d)
    ensures IsPrime(n) && n >= d
  {
    forall e | 2 <= e < n ensures !Divides(e, n) {
      if Divides(e, n) {
        Cofactor(e, n);
        var f := n / e;
        if e >= d && f >= d {
          MulMonotone(f, e, d);
        }
      }
    }
    assert Divides(n, n);
  }

  lemma DividedStaysSieved(n: int, d: int, bound: int)
    requires d >= 2 && n >= 1 && Divides(d, n) && Sieved(n, bound)
    ensures Sieved(n / d, bound)
  {
    Cofactor(d, n);
    forall e | 2 <= e < bound ensures !Divides(e, n / d) {
      if Divides(e, n / d) {
        DividesTrans(e, n / d, n);
      }
    }
  }

  /** A number without odd divisors below d, even ones or d itself has none below d + 2. */
  lemma SievedNext(n: int, d: int)
    requires d >= 3 && d % 2 == 1 && Sieved(n, d) && !Divides(d, n)
    ensures Sieved(n, d + 2)
  {
    if Divides(d + 1, n) {
      assert Divides(2, d + 1);
      DividesTrans(2, d + 1, n);
    }
  }

  // -------------------------------------------------------------- the method

  /** Where trial division stands: what was found and what is left make up the number, every factor found is
      a prime below the divisor, and nothing from 2 up to below the divisor divides what is left. */
  ghost predicate Dividing(factors: seq<uint64>, left: int, divisor: int, number: int) {
    && left >= 1 && divisor >= 2
    && Sorted(factors) && AllPrime(factors) && Product(factors) * left == number
    && (forall i | 0 <= i < |factors| :: factors[i] as int <= divisor)
    && Sieved(left, divisor)
  }

  lemma ProductAppend(factors: seq<uint64>, last: uint64)
    ensures Product(factors + [last]) == Product(factors) * last as int
  {
    assert (factors + [last])[..|factors|] == factors;
  }

  lemma Regroup(p: int, d: int, q: int)
    ensures (p * d) * q == p * (q * d)
  {
  }

  lemma TakeQuotient(factors: seq<uint64>, n: int, divisor: uint64, q: int, number: int)
    requires Dividing(factors, n, divisor as int, number) && IsPrime(divisor as int)
    requires q >= 1 && q * divisor as int == n && Sieved(q, divisor as int)
    ensures Dividing(factors + [divisor], q, divisor as int, number)
  {
    hide Product, Sieved, IsPrime;
    var more := factors + [divisor];
    ProductAppend(factors, divisor);
    Regroup(Product(factors), divisor as int, q);
    forall i | 0 <= i < |more| ensures IsPrime(more[i] as int) && more[i] <= divisor {
      assert i < |factors| ==> more[i] == factors[i];
    }
  }

  lemma TakeFactor(factors: seq<uint64>, left: uint64, divisor: uint64, number: int)
    requires divisor >= 2 && Dividing(factors, left as int, divisor as int, number) && left % divisor == 0
    ensures Dividing(factors + [divisor], (left / divisor) as int, divisor as int, number)
    ensures left / divisor < left
  {
    hide Product;
    var n, d := left as int, divisor as int;
    LeastDivisorIsPrime(d, n);
    Cofactor(d, n);
    DividedStaysSieved(n, d, d);
    hide Sieved, IsPrime, Dividing;
    TakeQuotient(factors, n, divisor, n / d, number);
  }

  /** The divisor and the even number after it are done with. */
  lemma NextDivisor(factors: seq<uint64>, left: int, divisor: int, number: int, tries: nat)
    requires divisor == 2 * tries + 1 && divisor >= 3
    requires Dividing(factors, left, divisor, number) && !Divides(divisor, left)
    ensures Dividing(factors, left, divisor + 2, number)
  {
    hide Product;
    assert divisor % 2 == 1;
    SievedNext(left, divisor);
    hide Sieved;
  }

  lemma AfterTwos(factors: seq<uint64>, left: int, number: int)
    requires Dividing(factors, left, 2, number) && !Divides(2, left)
    ensures Dividing(factors, left, 3, number)
  {
    hide Product;
  }

  /** The loop test; it avoids the square, which could overflow. */
  predicate Within(divisor: uint64, left: uint64)
    requires divisor > 0
  {
    divisor <= left / divisor
  }

  lemma SquareAbove(left: uint64, divisor: uint64)
    requires divisor > 0 && !Within(divisor, left)
    ensures (left as int) < Square(divisor as int)
  {
    var n, d := left as int, divisor as int;
    var q, r := n / d, n % d;
    assert n == q * d + r && 0 <= r < d;
    MulLeast(d - q, d);
    assert (d - q) * d == d * d - q * d;
  }

  lemma SquareBound(d: int, q: int, r: int)
    requires 3 <= d <= q && 0 <= r
    ensures 3 * d <= Square(d) <= q * d + r
  {
    MulLeast(q - d + 1, d);
    MulLeast(d - 2, d);
    assert (q - d + 1) * d == q * d - d * d + d;
    assert (d - 2) * d == d * d - 2 * d;
  }

  lemma SquareWithin(left: uint64, divisor: uint64)
    requires divisor >= 3 && Within(divisor, left)
    ensures Square(divisor as int) <= left as int && (divisor as int) + 2 < 0x1_0000_0000_0000_0000
  {
    var n, d := left as int, divisor as int;
    var q, r := n / d, n % d;
    assert n == q * d + r && 0 <= r < d;
    SquareBound(d, q, r);
    hide Square;
  }

  /** Past the square root, what is left is one or the greatest prime factor. */
  lemma LastFactor(factors: seq<uint64>, left: uint64, divisor: int, number: int)
    requires Dividing(factors, left as int, divisor, number) && (left as int) < Square(divisor)
    ensures IsFactorization(if left > 1 then factors + [left] else factors, number)
  {
    hide Product, Sieved, IsPrime, Square;
    if left > 1 {
      ProductAppend(factors, left);
      SievedIsPrime(left as int, divisor);
      var more := factors + [left];
      forall i | 0 <= i < |more| ensures IsPrime(more[i] as int) && more[i] <= left {
        assert i < |factors| ==> more[i] == factors[i];
      }
    }
  }

  /** Divides one divisor out as often as it goes. */
  method DivideOut(factors: seq<uint64>, number: uint64, divisor: uint64, ghost whole: int)
    returns (more: seq<uint64>, left: uint64)
    requires divisor >= 2 && Dividing(factors, number as int, divisor as int, whole)
    ensures Dividing(more, left as int, divisor as int, whole) && !Divides(divisor as int, left as int)
      && left <= number
  {
    more, left := factors, number;
    while left % divisor == 0
      invariant Dividing(more, left as int, divisor as int, whole) && left <= number
      decreases left
    {
      TakeFactor(more, left, divisor, whole);
      more := more + [divisor];
      left := left / divisor;
    }
  }

  /** The divisors at which the context is polled. */
  predicate PollsAt(divisor: uint64) {
    divisor % 1024 == 1
  }

  /** That is one trial divisor in 512. */
  lemma PollsEvery512(divisor: uint64, tries: nat)
    requires divisor as int == 2 * tries + 3
    ensures (tries + 1) / 512 == tries / 512 + if PollsAt(divisor) then 1 else 0
  {
  }

  /** Before any division the whole number is left. */
  lemma Undivided(number: uint64)
    requires number >= 2
    ensures Dividing([], number as int, 2, number as int)
  {
    assert Product([]) == 1;
  }

  /** With that many trial divisors the last one was at most the square root. */
  predicate Tried(tries: nat, number: int) {
    tries == 0 || Square(2 * tries + 1) <= number
  }

  lemma NothingTried(number: int)
    ensures Tried(0, number)
  {
  }

  lemma OneMoreTry(left: uint64, divisor: uint64, number: int, tries: nat)
    requires divisor >= 3 && Within(divisor, left) && left as int <= number && divisor as int == 2 * tries + 3
    ensures Tried(tries + 1, number) && (divisor as int) + 2 < 0x1_0000_0000_0000_0000 && divisor <= left
  {
    SquareWithin(left, divisor);
    MulLeast(divisor as int, divisor as int);
    assert 2 * (tries + 1) + 1 == divisor as int;
  }

  /** The factors of a number, or nothing when a poll of the context finds it canceled.  The k-th poll
      answers canceled(k). */
  method PrimeFactors(number: uint64, canceled: nat -> bool)
    returns (factors: Option<seq<uint64>>, polls: nat, tries: nat)
    ensures polls > 0 && (forall k | 0 <= k < polls - 1 :: !canceled(k)) && (factors.None? <==> canceled(polls - 1))
    ensures factors.Some? && number >= 2 ==> IsFactorization(factors.value, number as int)
    ensures factors.Some? && number < 2 ==> factors.value == []
    ensures Tried(tries, number as int) && polls == 1 + tries / 512
  {
    hide Dividing, IsFactorization, Divides, Square, Within, PollsAt, Tried;
    polls, tries := 1, 0;
    assert Tried(tries, number as int) by { NothingTried(number as int); }
    if canceled(0) {
      return None, polls, tries;
    }
    if number < 2 {
      return Some([]), polls, tries;
    }
    Undivided(number);
    var found, left := DivideOut([], number, 2, number as int);
    AfterTwos(found, left as int, number as int);
    var divisor: uint64 := 3;
    while Within(divisor, left)
      invariant divisor >= 3 && Dividing(found, left as int, divisor as int, number as int) && left <= number
      invariant divisor as int == 2 * tries + 3
      invariant Tried(tries, number as int) && polls == 1 + tries / 512
      invariant forall k | 0 <= k < polls :: !canceled(k)
      decreases left as int + number as int - divisor as int
    {
      OneMoreTry(left, divisor, number as int, tries);
      PollsEvery512(divisor, tries);
      tries := tries + 1;
      if PollsAt(divisor) {
        polls := polls + 1;
        if canceled(polls - 1) {
          return None, polls, tries;
        }
      }
      found, left := DivideOut(found, left, divisor, number as int);
      NextDivisor(found, left as int, divisor as int, number as int, tries);
      divisor := divisor + 2;
    }
    SquareAbove(left, divisor);
    LastFactor(found, left, divisor as int, number as int);
    if left > 1 {
      found := found + [left];
    }
    factors := Some(found);
  }

  /** Numbers the command accepts need fewer than half a million trial divisors. */
  lemma FewTries(number: int, tries: nat)
    requires number <= 1_000_000_000_000 && Tried(tries, number)
    ensures tries <= 499_999
  {
    if tries >= 500_000 {
      MulMonotone(2 * tries + 1, 2 * tries + 1, 1_000_001);
    }
  }

  // ------------------------------------------------ the only factorization

  ghost predicate Carries(p: int, k: int, b: int)
    requires p > 0
  {
    k >= 1 && Divides(p, k * b)
  }

  /** The least multiplier of b into the multiples of p, from k on down. */
  lemma {:induction false} LeastCarrier(p: int, k: int, b: int) returns (least: int)
    requires p > 0 && Carries(p, k, b)
    ensures Carries(p, least, b) && least <= k && forall j | 1 <= j < least :: !Carries(p, j, b)
    decreases k
  {
    if j :| 1 <= j < k && Carries(p, j, b) {
      least := LeastCarrier(p, j, b);
    } else {
      least := k;
    }
  }

  lemma DifferenceDivides(p: int, x: int, y: int)
    requires p > 0 && Divides(p, x) && Divides(p, y)
    ensures Divides(p, x - y)
  {
    DividesIs(p, x);
    DividesIs(p, y);
    assert (x / p - y / p) * p == x - y;
    MultipleDivides(x / p - y / p, p);
  }

  /** The least multiplier divides all others. */
  lemma LeastDivides(p: int, k: int, m: int, b: int)
    requires p > 0 && k >= 1 && Carries(p, k, b) && Carries(p, m, b)
    requires forall j | 1 <= j < k :: !Carries(p, j, b)
    ensures Divides(k, m)
  {
    var q, r := m / k, m % k;
    assert m == q * k + r && 0 <= r < k;
    if r != 0 {
      DividesIs(p, k * b);
      MultipleDivides(q * (k * b / p), p);
      assert q * (k * b / p) * p == q * (k * b);
      assert m * b - q * (k * b) == r * b;
      DifferenceDivides(p, m * b, q * (k * b));
      assert Carries(p, r, b);
    }
  }

  /** A prime that divides a product divides a factor. */
  lemma EuclidsLemma(p: int, a: int, b: int)
    requires IsPrime(p) && a >= 1 && Divides(p, a * b)
    ensures Divides(p, a) || Divides(p, b)
  {
    assert p * b == b * p;
    MultipleDivides(b, p);
    assert Carries(p, p, b) && Carries(p, a, b);
    var k := LeastCarrier(p, p, b);
    LeastDivides(p, k, p, b);
    LeastDivides(p, k, a, b);
    if k == 1 {
      assert 1 * b == b;
    } else {
      assert k == p;
    }
  }

  lemma {:induction false} ProductPositive(factors: seq<uint64>)
    requires AllPrime(factors)
    ensures Product(factors) >= 1
    decreases |factors|
  {
    if factors != [] {
      ProductPositive(factors[..|factors| - 1]);
      assert IsPrime(factors[|factors| - 1] as int);
      MulLeast(Product(factors[..|factors| - 1]), factors[|factors| - 1] as int);
    }
  }

  lemma PrimeDividesPrime(p: int, q: int)
    requires IsPrime(p) && IsPrime(q) && Divides(p, q)
    ensures p == q
  {
  }

  /** A prime divisor of a product of primes is one of them. */
  lemma {:induction false} PrimeInProduct(p: int, factors: seq<uint64>)
    requires IsPrime(p) && AllPrime(factors) && Divides(p, Product(factors))
    ensures exists i :: 0 <= i < |factors| && factors[i] as int == p
    decreases |factors|
  {
    if factors != [] {
      var front, last := factors[..|factors| - 1], factors[|factors| - 1] as int;
      ProductPositive(front);
      assert IsPrime(last);
      EuclidsLemma(p, Product(front), last);
      hide Product;
      if Divides(p, last) {
        PrimeDividesPrime(p, last);
      } else {
        PrimeInProduct(p, front);
        var i :| 0 <= i < |front| && front[i] as int == p;
        assert factors[i] as int == p;
      }
    }
  }

  lemma LastIsGreatest(a: seq<uint64>, b: seq<uint64>, n: int)
    requires IsFactorization(a, n) && IsFactorization(b, n) && a != []
    ensures b != [] && a[|a| - 1] <= b[|b| - 1]
  {
    var last := a[|a| - 1] as int;
    assert IsPrime(last);
    MultipleDivides(Product(a[..|a| - 1]), last);
    PrimeInProduct(last, b);
  }

  /** A number has one factorization only. */
  lemma {:induction false} FactorizationUnique(a: seq<uint64>, b: seq<uint64>, n: int)
    requires IsFactorization(a, n) && IsFactorization(b, n)
    ensures a == b
    decreases |a|
  {
    if a != [] {
      LastIsGreatest(a, b, n);
      LastIsGreatest(b, a, n);
      var last, x, y := a[|a| - 1] as int, a[..|a| - 1], b[..|b| - 1];
      assert IsPrime(last);
      DivUnique(n, last, Product(x), 0);
      DivUnique(n, last, Product(y), 0);
      FactorizationUnique(x, y, Product(x));
      assert a == x + [a[|a| - 1]] && b == y + [b[|b| - 1]];
    } else if b != [] {
      LastIsGreatest(b, a, n);
    }
  }
}
