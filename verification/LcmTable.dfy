/** The values of lcm(1..n) for n from 65 to 88. */
module LcmTable {
  import opened NumberTheory
  import TailGain

  const LCM_66 := 1182266884102822267511361600

  /** The part of lcm(1..80) that is prime to 3. */
  const LCM_80_BY_27 := 1201254046473851218948991566875200

  /** lcm(1..n): it grows where n is a power of a prime. */
  function Lcm(n: nat): nat {
    if n < 67 then LCM_66
    else if n < 71 then 79211881234889091923261227200
    else if n < 73 then 5624043567677125526551547131200
    else if n < 79 then 410555180440430163438262940577600
    else if n < 81 then 32433859254793982911622772305630400
    else if n < 83 then 97301577764381948734868316916891200
    else TailGain.LCM_88
  }

  /** The largest powers of the primes up to 66. */
  const POWERS: seq<nat> := [
    64, 27, 25, 49, 11, 13, 17, 19, 23, 29, 31, 37, 41, 43, 47, 53, 59, 61
  ]

  /** Their products, from the left. */
  const PRODUCTS: seq<nat> := [
    1, 64, 1728, 43200, 2116800, 23284800, 302702400, 5145940800, 97772875200, 2248776129600,
    65214507758400, 2021649740510400, 74801040398884800, 3066842656354276800,
    131874234223233902400, 6198089008491993412800, 328498717450075650878400,
    19381424329554463401825600, 1182266884102822267511361600
  ]

  lemma {:induction false} NextProduct(i: nat)
    requires i < 18
    ensures 1 <= POWERS[i] <= 65
    ensures PRODUCTS[i] * POWERS[i] == PRODUCTS[i + 1]
    ensures Gcd(PRODUCTS[i], POWERS[i]) == 1
  {
    if i == 0 {
      assert Gcd(1, 64) == 1;
    } else if i == 1 {
      assert Gcd(64, 27) == 1;
    } else if i == 2 {
      assert Gcd(1728, 25) == 1;
    } else if i == 3 {
      assert Gcd(43200, 49) == 1;
    } else if i == 4 {
      assert Gcd(2116800, 11) == 1;
    } else if i == 5 {
      assert Gcd(23284800, 13) == 1;
    } else if i == 6 {
      assert Gcd(302702400, 17) == 1;
    } else if i == 7 {
      assert Gcd(5145940800, 19) == 1;
    } else if i == 8 {
      assert Gcd(97772875200, 23) == 1;
    } else if i == 9 {
      assert Gcd(2248776129600, 29) == 1;
    } else if i == 10 {
      assert Gcd(65214507758400, 31) == 1;
    } else if i == 11 {
      assert Gcd(2021649740510400, 37) == 1;
    } else if i == 12 {
      assert Gcd(74801040398884800, 41) == 1;
    } else if i == 13 {
      assert Gcd(3066842656354276800, 43) == 1;
    } else if i == 14 {
      assert Gcd(131874234223233902400, 47) == 1;
    } else if i == 15 {
      assert Gcd(6198089008491993412800, 53) == 1;
    } else if i == 16 {
      assert Gcd(328498717450075650878400, 59) == 1;
    } else {
      assert Gcd(19381424329554463401825600, 61) == 1;
    }
  }

  /** The powers are pairwise coprime, so a common multiple of 1..65 is a multiple of their product. */
  lemma {:induction false} ProductDivides(i: nat, c: nat)
    requires i <= 18 && CommonMultiple(65, c)
    ensures Divides(PRODUCTS[i], c)
  {
    if i == 0 {
      Multiple(1, c);
    } else {
      ProductDivides(i - 1, c);
      NextProduct(i - 1);
      CoprimeProduct(PRODUCTS[i - 1], POWERS[i - 1], c);
    }
  }

  lemma {:induction false} Lcm65()
    ensures IsLcmUpTo(65, LCM_66)
  {
    assert TailGain.DividedByAll(LCM_66, 11);
    assert TailGain.DividedByAll(LCM_66, 22);
    assert TailGain.DividedByAll(LCM_66, 33);
    assert TailGain.DividedByAll(LCM_66, 44);
    assert TailGain.DividedByAll(LCM_66, 55);
    assert TailGain.DividedByAll(LCM_66, 65);
    TailGain.DividedByAllIsMultiple(LCM_66, 65);
    forall c: nat | CommonMultiple(65, c) ensures Divides(LCM_66, c) {
      ProductDivides(18, c);
    }
  }

  /** One more factor that divides the lcm already. */
  lemma {:induction false} Unchanged(n: nat, l: nat)
    requires IsLcmUpTo(n, l) && l % (n + 1) == 0
    ensures IsLcmUpTo(n + 1, l)
  {
    RemainderZero(n + 1, l);
    forall c: nat | CommonMultiple(n + 1, c) ensures Divides(l, c) {
      assert CommonMultiple(n, c);
    }
  }

  /** One more factor: `l = m k` with `m` coprime to it and `k` a divisor of it. */
  lemma {:induction false} Grows(n: nat, l: nat, m: nat, k: nat)
    requires IsLcmUpTo(n, l) && l == m * k && m > 0 && Gcd(m, n + 1) == 1 && (n + 1) % k == 0
    requires k > 0
    ensures IsLcmUpTo(n + 1, m * (n + 1))
  {
    RemainderZero(k, n + 1);
    var q := Quotient(k, n + 1);
    var next := m * (n + 1);
    assert next == l * q by { MulAssoc(m, k, q); }
    Multiple(l, q);
    Multiple(n + 1, m);
    Multiple(m, k);
    forall d | 1 <= d <= n + 1 ensures Divides(d, next) {
      if d <= n { DividesTrans(d, l, next); }
    }
    forall c: nat | CommonMultiple(n + 1, c) ensures Divides(next, c) {
      assert CommonMultiple(n, c);
      DividesTrans(m, l, c);
      CoprimeProduct(m, n + 1, c);
    }
  }

  lemma {:induction false} LcmIs(n: nat)
    requires 65 <= n <= 88
    ensures IsLcmUpTo(n, Lcm(n))
  {
    if n == 65 {
      Lcm65();
    } else {
      LcmIs(n - 1);
      LcmStep(n, Lcm(n - 1), Lcm(n));
    }
  }

  lemma {:induction false} LcmStep(n: nat, before: nat, after: nat)
    requires 66 <= n <= 88 && before == Lcm(n - 1) && after == Lcm(n) && IsLcmUpTo(n - 1, before)
    ensures IsLcmUpTo(n, after)
  {
    if n == 67 || n == 71 || n == 73 || n == 79 || n == 83 {
      PrimeStep(n);
      Grows(n - 1, before, before, 1);
    } else if n == 81 {
      CubeStep();
      Grows(80, before, LCM_80_BY_27, 27);
    } else {
      OtherStep(n);
      Unchanged(n - 1, before);
    }
  }

  lemma {:induction false} CubeStep()
    ensures Gcd(LCM_80_BY_27, 81) == 1 && Lcm(80) == LCM_80_BY_27 * 27 && Lcm(81) == LCM_80_BY_27 * 81
  {
  }

  lemma {:induction false} PrimeStep(n: nat)
    requires n == 67 || n == 71 || n == 73 || n == 79 || n == 83
    ensures Gcd(Lcm(n - 1), n) == 1 && Lcm(n) == Lcm(n - 1) * n
  {
    if n == 67 { assert Gcd(1182266884102822267511361600, 67) == 1; }
    else if n == 71 { assert Gcd(79211881234889091923261227200, 71) == 1; }
    else if n == 73 { assert Gcd(5624043567677125526551547131200, 73) == 1; }
    else if n == 79 { assert Gcd(410555180440430163438262940577600, 79) == 1; }
    else { assert Gcd(97301577764381948734868316916891200, 83) == 1; }
  }

  lemma {:induction false} OtherStep(n: nat)
    requires 66 <= n <= 88 && n != 67 && n != 71 && n != 73 && n != 79 && n != 81 && n != 83
    ensures Lcm(n) == Lcm(n - 1) && Lcm(n) % n == 0
  {
  }
}
