/** lcm(1..n) in six words, as `tailgain` and `merge` compute it, and the final reduction of a total
    to a fraction. */
module LcmWords {
  import opened MachineInts
  import opened Limbs
  import opened NumberTheory

  /** Below this bound the u32 square of the trial divisor does not overflow. */
  const TRIAL_LIMIT := 65535 * 65535

  lemma {:induction false} SquareBelow(d: nat, b: nat)
    ensures d * d < b * b ==> d < b
  {
    if d >= b {
      MulMono(b, b, d);
      MulMono(d, b, d);
    }
  }

  /** `is_prime`: trial division. */
  method IsPrimeTrial(x: u32) returns (r: bool)
    requires x < TRIAL_LIMIT
    ensures r <==> IsPrime(x)
  {
    if x < 2 { return false; }
    var d: u32 := 2;
    while d * d <= x
      invariant 2 <= d <= 65535
      invariant forall c :: 2 <= c < d ==> x % c != 0
      decreases 65536 - d
    {
      SquareBelow(d, 65535);
      if x % d == 0 {
        RemainderZero(d, x);
        MulMono(d, 2, d);
        return false;
      }
      d := d + 1;
    }
    TrialDivision(x, d);
    r := true;
  }

  /** The inner loop: the largest power of `p` up to `n`. */
  method LargestPower(p: u32, n: u32) returns (pe: u32)
    requires 2 <= p <= n
    ensures TopPower(p, n, pe)
  {
    pe := p;
    ghost var e := 1;
    assert p == Pow(p, 1) by { assert Pow(p, 0) == 1; }
    while pe * p <= n
      invariant 2 <= pe <= n && pe == Pow(p, e)
      decreases n - pe
    {
      MulStrict(pe, 1, p);
      pe := pe * p;
      e := e + 1;
    }
  }

  /** Working modulo 2^192 throughout gives the product modulo 2^192. */
  lemma {:induction false} ModuloProduct(l: nat, m: nat)
    ensures ((l % TWO_192) * m) % TWO_192 == (l * m) % TWO_192
  {
    var q, r := l / TWO_192, l % TWO_192;
    var k, s := (r * m) / TWO_192, (r * m) % TWO_192;
    assert l == TWO_192 * q + r;
    MulSplit(m, TWO_192 * q, r);
    MulAssoc(TWO_192, q, m);
    RemainderUnique(l * m, TWO_192, q * m + k, s);
  }

  /** `lcm_words`: the product of the largest prime powers up to `n` is the least common multiple of
      1..n, exact when that is below 2^192. */
  method LcmUpTo(n: u32) returns (l: Words, ghost lcm: nat)
    requires n < TRIAL_LIMIT
    ensures IsLcmUpTo(n, lcm)
    ensures Value(l) == lcm % TWO_192
    ensures forall m: nat :: IsLcmUpTo(n, m) ==> Value(l) == m % TWO_192
  {
    var words := new u32[6](_ => 0);
    words[0] := 1;
    assert Value(words[..]) == 1 by { OneWord(words[..]); }
    ghost var prod: nat := 1;
    var p: nat := 2;
    while p <= n
      invariant 2 <= p && (p <= n + 1 || p == 2)
      invariant PrimePowerProduct(p - 1, n, prod)
      invariant words.Length == 6 && Value(words[..]) == prod % TWO_192
      decreases n + 1 - p
    {
      var prime := IsPrimeTrial(p);
      if prime {
        var pe := LargestPower(p, n);
        MulWord(words, pe);
        ModuloProduct(prod, pe);
        assert Product(prod, pe) == prod * pe;
        prod := prod * pe;
      }
      p := p + 1;
    }
    l := words[..];
    lcm := prod;
    if n < 2 {
      TinyLcm(n);
    } else {
      ProductIsLcm(n, prod);
    }
    forall m: nat | IsLcmUpTo(n, m) ensures m == prod {
      LcmUnique(n, m, prod);
    }
  }

  lemma {:induction false} OneWord(w: seq<u32>)
    requires |w| == 6 && w[0] == 1 && forall i :: 1 <= i < 6 ==> w[i] == 0
    ensures Value(w) == 1
  {
    ZeroValue(w[1..]);
  }

  lemma {:induction false} ZeroValue(w: seq<u32>)
    requires forall i :: 0 <= i < |w| ==> w[i] == 0
    ensures Value(w) == 0
  {
    if w != [] { ZeroValue(w[1..]); }
  }

  lemma {:induction false} TinyLcm(n: nat)
    requires n < 2
    ensures IsLcmUpTo(n, 1)
  {
    Multiple(1, 1);
    forall c: nat ensures Divides(1, c) {
      Multiple(1, c);
    }
  }

  /** `gcd_big`. */
  method GcdBig(x: nat, y: nat) returns (a: nat)
    ensures a == Gcd(x, y)
  {
    a := x;
    var b: nat := y;
    while b != 0
      invariant Gcd(a, b) == Gcd(x, y)
      decreases b
    {
      a, b := b, a % b;
    }
  }

  /** The reduction of a total to the fraction that is printed: equal to `val / lval` and in lowest
      terms. */
  method ReduceFraction(val: nat, lval: nat) returns (num: nat, den: nat)
    requires lval > 0
    ensures den > 0 && num * lval == val * den
    ensures Gcd(num, den) == 1
  {
    var g := GcdBig(val, lval);
    ReducedCoprime(val, lval);
    num, den := val / g, lval / g;
    CrossProduct(num, den, g);
    assert den * g == lval && (den > 0 || den * g == 0);
  }

  lemma {:induction false} CrossProduct(num: nat, den: nat, g: nat)
    ensures num * (den * g) == (num * g) * den
  {
    MulAssoc(num, den, g);
    MulAssoc(num, g, den);
  }
}
