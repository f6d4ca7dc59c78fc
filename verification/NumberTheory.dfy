/** Divisibility, Euclid's algorithm, primes and the least common multiple of 1..n. */
module NumberTheory {

  function Product(a: nat, b: nat): nat {
    a * b
  }

  ghost predicate Divides(d: nat, n: nat) {
    exists k: nat :: Product(d, k) == n
  }

  lemma {:induction false} MulMono(a: nat, b: nat, c: nat)
    requires b <= c
    ensures a * b <= a * c && b * a <= c * a
  {
  }

  lemma {:induction false} MulStrict(a: nat, b: int, c: int)
    requires a > 0 && b < c
    ensures a * b + a <= a * c
  {
    var d: nat := c - b;
    MulMono(a, 1, d);
    MulSplit(a, b, d);
  }

  lemma {:induction false} MulSplit(a: int, b: int, c: int)
    ensures a * (b + c) == a * b + a * c
  {
  }

  lemma {:induction false} MulAssoc(a: int, b: int, c: int)
    ensures a * b * c == a * (b * c)
  {
  }

  lemma {:induction false} Multiple(d: nat, k: nat)
    ensures Divides(d, d * k) && Divides(d, k * d)
  {
    assert Product(d, k) == d * k == k * d;
  }

  lemma {:induction false} Quotient(d: nat, n: nat) returns (k: nat)
    requires Divides(d, n)
    ensures n == d * k
    ensures n > 0 ==> k > 0 && d > 0
  {
    k :| Product(d, k) == n;
  }

  lemma {:induction false} DividesTrans(a: nat, b: nat, c: nat)
    requires Divides(a, b) && Divides(b, c)
    ensures Divides(a, c)
  {
    var k := Quotient(a, b);
    var l := Quotient(b, c);
    assert c == (a * k) * l == a * (k * l);
    Multiple(a, k * l);
  }

  lemma {:induction false} DividesLinear(d: nat, x: nat, y: nat, s: int, t: int)
    requires Divides(d, x) && Divides(d, y) && s * x + t * y >= 0
    ensures Divides(d, s * x + t * y)
  {
    var k := Quotient(d, x);
    var l := Quotient(d, y);
    MulAssoc(d, k, s);
    MulAssoc(d, l, t);
    MulSplit(d, k * s, l * t);
    NonnegativeFactor(d, k * s + l * t);
  }

  lemma {:induction false} NonnegativeFactor(d: nat, q: int)
    requires d * q >= 0
    ensures Divides(d, d * q)
  {
    if q >= 0 {
      Multiple(d, q);
    } else {
      Multiple(d, 0);
      if d > 0 { MulStrict(d, q, 0); }
    }
  }

  lemma {:induction false} DividesProducts(a: nat, b: nat, c: nat, d: nat)
    requires Divides(a, b) && Divides(c, d)
    ensures Divides(a * c, b * d)
  {
    var k := Quotient(a, b);
    var l := Quotient(c, d);
    assert b * d == (a * k) * (c * l) == (a * c) * (k * l);
    Multiple(a * c, k * l);
  }

  lemma {:induction false} DividesLeq(d: nat, n: nat)
    requires Divides(d, n) && n > 0
    ensures 1 <= d <= n
  {
    var k := Quotient(d, n);
    assert d * k >= d * 1;
  }

  lemma {:induction false} RemainderZero(d: nat, n: nat)
    requires d > 0
    ensures n % d == 0 <==> Divides(d, n)
  {
    if n % d == 0 {
      assert n == d * (n / d);
      Multiple(d, n / d);
    }
    if Divides(d, n) {
      var k := Quotient(d, n);
      RemainderUnique(n, d, k, 0);
    }
  }

  lemma {:induction false} RemainderUnique(n: nat, d: nat, q: int, r: nat)
    requires d > 0 && n == d * q + r && r < d
    ensures n / d == q && n % d == r
  {
    if q < n / d {
      MulStrict(d, q, n / d);
    } else if n / d < q {
      MulStrict(d, n / d, q);
    }
  }

  lemma {:induction false} QuotientUnique(n: nat, d: nat, q: nat, r: nat)
    requires d > 0 && q * d + r == n && r < d
    ensures q == n / d && r == n % d
  {
    RemainderUnique(n, d, q, r);
  }

  // ---------- Euclid ----------

  function Gcd(a: nat, b: nat): (g: nat)
    decreases b
  {
    if b == 0 then a else Gcd(b, a % b)
  }

  /** The greatest common divisor is an integer combination of its arguments. */
  lemma {:induction false} Bezout(a: nat, b: nat) returns (s: int, t: int)
    ensures s * a + t * b == Gcd(a, b)
    decreases b
  {
    if b == 0 {
      s, t := 1, 0;
    } else {
      var q := a / b;
      var s', t' := Bezout(b, a % b);
      s, t := t', s' - t' * q;
      assert a % b == a - b * q;
      assert t' * (b * q) == (t' * q) * b;
    }
  }

  lemma {:induction false} GcdDivides(a: nat, b: nat)
    ensures Divides(Gcd(a, b), a) && Divides(Gcd(a, b), b)
    decreases b
  {
    if b == 0 {
      Multiple(a, 1);
      Multiple(a, 0);
    } else {
      GcdDivides(b, a % b);
      assert a == (a / b) * b + 1 * (a % b);
      DividesLinear(Gcd(a, b), b, a % b, a / b, 1);
    }
  }

  lemma {:induction false} GcdGreatest(d: nat, a: nat, b: nat)
    requires Divides(d, a) && Divides(d, b)
    ensures Divides(d, Gcd(a, b))
  {
    var s, t := Bezout(a, b);
    DividesLinear(d, a, b, s, t);
  }

  lemma {:induction false} GcdPositive(a: nat, b: nat)
    requires a > 0 || b > 0
    ensures Gcd(a, b) > 0
  {
    GcdDivides(a, b);
    if Gcd(a, b) == 0 {
      var k := Quotient(Gcd(a, b), a);
      var l := Quotient(Gcd(a, b), b);
    }
  }

  /** A factor common to the quotients multiplies the divisor. */
  lemma {:induction false} FactorOfQuotients(g: nat, h: nat, k: nat, l: nat)
    requires Divides(h, k) && Divides(h, l)
    ensures Divides(g * h, g * k) && Divides(g * h, g * l)
  {
    Multiple(g, 1);
    DividesProducts(g, g, h, k);
    DividesProducts(g, g, h, l);
  }

  /** Dividing both by the greatest common divisor leaves a fraction in lowest terms. */
  lemma {:induction false} ReducedCoprime(a: nat, b: nat)
    requires b > 0
    ensures var g := Gcd(a, b);
            g > 0 && (a / g) * g == a && (b / g) * g == b && Gcd(a / g, b / g) == 1
  {
    var g := Gcd(a, b);
    GcdDivides(a, b);
    GcdPositive(a, b);
    var k := ExactQuotient(g, a);
    var l := ExactQuotient(g, b);
    QuotientsCoprime(g, k, l);
  }

  lemma {:induction false} ExactQuotient(g: nat, a: nat) returns (k: nat)
    requires g > 0 && Divides(g, a)
    ensures a == g * k && a / g == k && (a / g) * g == a
    ensures a > 0 ==> k > 0
  {
    k := Quotient(g, a);
    RemainderUnique(a, g, k, 0);
  }

  lemma {:induction false} QuotientsCoprime(g: nat, k: nat, l: nat)
    requires g > 0 && l > 0 && Gcd(g * k, g * l) == g
    ensures Gcd(k, l) == 1
  {
    var h := Gcd(k, l);
    GcdDivides(k, l);
    GcdPositive(k, l);
    FactorOfQuotients(g, h, k, l);
    GcdGreatest(g * h, g * k, g * l);
    DividesLeq(g * h, g);
    if h >= 2 { MulMono(g, 2, h); }
  }

  // ---------- primes ----------

  ghost predicate IsPrime(p: nat) {
    p >= 2 && forall d: nat :: Divides(d, p) ==> d == 1 || d == p
  }

  /** A divisor of a product that is coprime to one factor divides the other. */
  lemma {:induction false} CoprimeDivides(p: nat, a: nat, b: nat)
    requires Gcd(a, p) == 1 && Divides(p, a * b)
    ensures Divides(p, b)
  {
    var s, t := Bezout(a, p);
    BezoutTimes(s, a, t, p, b);
    Multiple(p, 1);
    DividesLinear(p, a * b, p, s, t * b);
  }

  lemma {:induction false} BezoutTimes(s: int, a: nat, t: int, p: nat, b: nat)
    requires s * a + t * p == 1
    ensures s * (a * b) + (t * b) * p == b
  {
    MulAssoc(s, a, b);
    MulAssoc(t, p, b);
    MulAssoc(t, b, p);
    MulSplit(b, s * a, t * p);
  }

  /** Coprime divisors multiply. */
  lemma {:induction false} CoprimeProduct(a: nat, b: nat, c: nat)
    requires Divides(a, c) && Divides(b, c) && Gcd(a, b) == 1
    ensures Divides(a * b, c)
  {
    var k := Quotient(a, c);
    CoprimeDivides(b, a, k);
    Multiple(a, 1);
    DividesProducts(a, a, b, k);
  }

  /** Euclid's lemma. */
  lemma {:induction false} EuclidLemma(p: nat, a: nat, b: nat)
    requires IsPrime(p) && Divides(p, a * b)
    ensures Divides(p, a) || Divides(p, b)
  {
    GcdDivides(a, p);
    if Gcd(a, p) == 1 {
      CoprimeDivides(p, a, b);
    }
  }

  lemma {:induction false} PrimeFactor(n: nat) returns (p: nat)
    requires n >= 2
    ensures IsPrime(p) && Divides(p, n) && p <= n
  {
    if IsPrime(n) {
      p := n;
      Multiple(n, 1);
    } else {
      var d: nat :| Divides(d, n) && d != 1 && d != n;
      DividesLeq(d, n);
      p := PrimeFactor(d);
      DividesTrans(p, d, n);
    }
  }

  /** Of two cofactors, one is below a bound whose square exceeds the product. */
  lemma {:induction false} SmallCofactor(d: nat, k: nat, bound: nat)
    requires d * k < bound * bound
    ensures d < bound || k < bound
  {
    if d >= bound && k >= bound {
      MulMono(bound, bound, k);
      MulMono(k, bound, d);
    }
  }

  /** Trial division up to the square root is enough. */
  lemma {:induction false} TrialDivision(x: nat, bound: nat)
    requires x >= 2 && bound * bound > x
    requires forall d :: 2 <= d < bound ==> x % d != 0
    ensures IsPrime(x)
  {
    forall d: nat | Divides(d, x) ensures d == 1 || d == x {
      DividesLeq(d, x);
      var k := Quotient(d, x);
      if d != 1 && d != x {
        SmallCofactor(d, k, bound);
        Multiple(k, d);
        RemainderZero(d, x);
        RemainderZero(k, x);
      }
    }
  }

  // ---------- prime powers ----------

  function Pow(p: nat, e: nat): nat {
    if e == 0 then 1 else p * Pow(p, e - 1)
  }

  lemma {:induction false} PowPositive(p: nat, e: nat)
    requires p > 0
    ensures Pow(p, e) > 0
  {
    if e > 0 { PowPositive(p, e - 1); }
  }

  lemma {:induction false} PowDivides(p: nat, e: nat, f: nat)
    requires e <= f
    ensures Divides(Pow(p, e), Pow(p, f))
    decreases f
  {
    if e == f {
      Multiple(Pow(p, e), 1);
    } else {
      PowDivides(p, e, f - 1);
      Multiple(Pow(p, f - 1), p);
      DividesTrans(Pow(p, e), Pow(p, f - 1), Pow(p, f));
    }
  }

  lemma {:induction false} CancelFactor(p: nat, x: nat, y: nat)
    requires p > 0 && p * x == p * y
    ensures x == y
  {
    if x < y {
      MulStrict(p, x, y);
    } else if y < x {
      MulStrict(p, y, x);
    }
  }

  lemma {:induction false} CancelInProduct(p: nat, u: nat, a: nat, y: nat)
    requires p > 0 && Divides(p * u, a * (p * y))
    ensures Divides(u, a * y)
  {
    var k := Quotient(p * u, a * (p * y));
    assert p * (a * y) == p * (u * k) by {
      MulAssoc(p, u, k);
      MulAssoc(a, p, y);
      MulAssoc(p, a, y);
    }
    CancelFactor(p, a * y, u * k);
    Multiple(u, k);
  }

  /** If `p` does not divide `a`, a power of `p` dividing `a * x` divides `x`. */
  lemma {:induction false} PowerOfPrimeDivides(p: nat, e: nat, a: nat, x: nat)
    requires IsPrime(p) && !Divides(p, a) && Divides(Pow(p, e), a * x)
    ensures Divides(Pow(p, e), x)
  {
    if e == 0 {
      Multiple(1, x);
    } else {
      Multiple(p, Pow(p, e - 1));
      DividesTrans(p, Pow(p, e), a * x);
      EuclidLemma(p, a, x);
      var y := Quotient(p, x);
      CancelInProduct(p, Pow(p, e - 1), a, y);
      PowerOfPrimeDivides(p, e - 1, a, y);
      Multiple(p, 1);
      DividesProducts(p, p, Pow(p, e - 1), y);
    }
  }

  /** The part of `m` that is a power of `p`, and the rest. */
  lemma {:induction false} SplitPower(p: nat, m: nat) returns (e: nat, r: nat)
    requires p >= 2 && m > 0
    ensures m == Pow(p, e) * r && r > 0 && !Divides(p, r)
    decreases m
  {
    if Divides(p, m) {
      var k := Quotient(p, m);
      assert k < m by { assert p * k >= 2 * k; }
      e, r := SplitPower(p, k);
      e := e + 1;
      assert p * (Pow(p, e - 1) * r) == Pow(p, e) * r;
    } else {
      e, r := 0, m;
    }
  }

  // ---------- lcm(1..n) ----------

  /** `l` is the least common multiple of 1..n: it divides exactly the common multiples. */
  ghost predicate IsLcmUpTo(n: nat, l: nat) {
    && l > 0
    && (forall m :: 1 <= m <= n ==> Divides(m, l))
    && (forall c: nat :: CommonMultiple(n, c) ==> Divides(l, c))
  }

  ghost predicate CommonMultiple(n: nat, c: nat) {
    forall m :: 1 <= m <= n ==> Divides(m, c)
  }

  lemma {:induction false} LcmUnique(n: nat, l: nat, m: nat)
    requires IsLcmUpTo(n, l) && IsLcmUpTo(n, m)
    ensures l == m
  {
    assert CommonMultiple(n, l) && CommonMultiple(n, m);
    DividesLeq(l, m);
    DividesLeq(m, l);
  }

  /** `q` is the largest power of `p` that does not exceed `n`. */
  ghost predicate TopPower(p: nat, n: nat, q: nat) {
    q <= n < p * q && exists e: nat :: q == Pow(p, e)
  }

  /** `l` is the product of the top powers of the primes up to `k`. */
  ghost predicate PrimePowerProduct(k: nat, n: nat, l: nat) {
    if k < 2 then l == 1
    else if !IsPrime(k) then PrimePowerProduct(k - 1, n, l)
    else exists q: nat, rest: nat ::
      TopPower(k, n, q) && PrimePowerProduct(k - 1, n, rest) && Product(rest, q) == l
  }

  lemma {:induction false} ProductPositive(k: nat, n: nat, l: nat)
    requires PrimePowerProduct(k, n, l)
    ensures l > 0
  {
    if k < 2 {
    } else if !IsPrime(k) {
      ProductPositive(k - 1, n, l);
    } else {
      var q: nat, rest: nat :|
        TopPower(k, n, q) && PrimePowerProduct(k - 1, n, rest) && Product(rest, q) == l;
      ProductPositive(k - 1, n, rest);
      var e: nat :| q == Pow(k, e);
      PowPositive(k, e);
      assert rest * q >= 1 * 1;
    }
  }

  /** The product has no prime above `k`. */
  lemma {:induction false} NoOtherPrime(k: nat, n: nat, l: nat, p: nat)
    requires PrimePowerProduct(k, n, l) && IsPrime(p) && p > k
    ensures !Divides(p, l)
  {
    if Divides(p, l) {
      if k < 2 {
        DividesLeq(p, 1);
      } else if !IsPrime(k) {
        NoOtherPrime(k - 1, n, l, p);
      } else {
        var q: nat, rest: nat :|
          TopPower(k, n, q) && PrimePowerProduct(k - 1, n, rest) && Product(rest, q) == l;
        NoOtherPrime(k - 1, n, rest, p);
        EuclidLemma(p, rest, q);
        var e: nat :| q == Pow(k, e);
        PrimeNotInPower(p, k, e);
      }
    }
  }

  lemma {:induction false} PrimeNotInPower(p: nat, k: nat, e: nat)
    requires IsPrime(p) && IsPrime(k) && p != k
    ensures !Divides(p, Pow(k, e))
  {
    if Divides(p, Pow(k, e)) {
      if e == 0 {
        DividesLeq(p, 1);
      } else {
        EuclidLemma(p, k, Pow(k, e - 1));
        PrimeNotInPower(p, k, e - 1);
      }
    }
  }

  /** The product divides every common multiple. */
  lemma {:induction false} ProductDividesMultiple(k: nat, n: nat, l: nat, c: nat)
    requires PrimePowerProduct(k, n, l) && k <= n && CommonMultiple(n, c)
    ensures Divides(l, c)
  {
    if k < 2 {
      Multiple(1, c);
    } else if !IsPrime(k) {
      ProductDividesMultiple(k - 1, n, l, c);
    } else {
      var q: nat, rest: nat :|
        TopPower(k, n, q) && PrimePowerProduct(k - 1, n, rest) && Product(rest, q) == l;
      ProductDividesMultiple(k - 1, n, rest, c);
      var x := Quotient(rest, c);
      var e: nat :| q == Pow(k, e);
      PowPositive(k, e);
      NoOtherPrime(k - 1, n, rest, k);
      PowerOfPrimeDivides(k, e, rest, x);
      Multiple(rest, 1);
      DividesProducts(rest, rest, q, x);
    }
  }

  /** Every number up to `n` whose prime factors are at most `k` divides the product. */
  lemma {:induction false} DividesProduct(k: nat, n: nat, l: nat, m: nat)
    requires PrimePowerProduct(k, n, l) && 1 <= m <= n
    requires forall p: nat :: IsPrime(p) && Divides(p, m) ==> p <= k
    ensures Divides(m, l)
  {
    if k < 2 {
      assert m == 1 by {
        if m >= 2 { var p := PrimeFactor(m); }
      }
      Multiple(1, l);
    } else if !IsPrime(k) {
      DividesProduct(k - 1, n, l, m);
    } else {
      var q: nat, rest: nat :|
        TopPower(k, n, q) && PrimePowerProduct(k - 1, n, rest) && Product(rest, q) == l;
      var e, r := SplitPower(k, m);
      PowPositive(k, e);
      FactorsBelow(Pow(k, e), r);
      CofactorPrimes(k, m, Pow(k, e), r);
      DividesProduct(k - 1, n, rest, r);
      PowerBelowTop(k, n, q, e);
      DividesProducts(Pow(k, e), q, r, rest);
      assert q * rest == Product(rest, q);
    }
  }

  lemma {:induction false} FactorsBelow(a: nat, b: nat)
    requires a > 0 && b > 0
    ensures a <= a * b && b <= a * b
  {
    MulMono(a, 1, b);
    MulMono(b, 1, a);
  }

  lemma {:induction false} CofactorPrimes(k: nat, m: nat, u: nat, r: nat)
    requires m == u * r && !Divides(k, r) && k >= 1
    requires forall p: nat :: IsPrime(p) && Divides(p, m) ==> p <= k
    ensures forall p: nat :: IsPrime(p) && Divides(p, r) ==> p <= k - 1
  {
    forall p: nat | IsPrime(p) && Divides(p, r) ensures p <= k - 1 {
      Multiple(r, u);
      DividesTrans(p, r, m);
    }
  }

  lemma {:induction false} PowerBelowTop(p: nat, n: nat, q: nat, e: nat)
    requires p >= 2 && TopPower(p, n, q) && Pow(p, e) <= n
    ensures Divides(Pow(p, e), q)
  {
    var f: nat :| q == Pow(p, f);
    if e > f {
      PowDivides(p, f + 1, e);
      PowPositive(p, e);
      DividesLeq(Pow(p, f + 1), Pow(p, e));
    }
    PowDivides(p, e, f);
  }

  /** The product of the top prime powers is the least common multiple. */
  lemma {:induction false} ProductIsLcm(n: nat, l: nat)
    requires PrimePowerProduct(n, n, l)
    ensures IsLcmUpTo(n, l)
  {
    ProductPositive(n, n, l);
    forall m | 1 <= m <= n ensures Divides(m, l) {
      forall p: nat | IsPrime(p) && Divides(p, m) ensures p <= n {
        DividesLeq(p, m);
      }
      DividesProduct(n, n, l, m);
    }
    forall c: nat | CommonMultiple(n, c) ensures Divides(l, c) {
      ProductDividesMultiple(n, n, l, c);
    }
  }
}
