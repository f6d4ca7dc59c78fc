/** Masks and joins of aligned bit fields. */
module BitMasks {
  import opened Bits

  /** `x << k`, `x >> k`, the mask of the low `n` bits, and what it keeps of `x`. */
  function Shift(x: nat, k: nat): nat { if k == 0 then x else 2 * Shift(x, k - 1) }
  function Drop(x: nat, k: nat): nat { if k == 0 then x else Drop(x / 2, k - 1) }
  function Ones(n: nat): nat { if n == 0 then 0 else 2 * Ones(n - 1) + 1 }
  function Low(x: nat, n: nat): nat { if n == 0 then 0 else 2 * Low(x / 2, n - 1) + x % 2 }

  lemma {:induction false} OrZero(x: nat)
    ensures Or(x, 0) == x && Or(0, x) == x
  {
    if x > 0 { OrZero(x / 2); }
  }

  lemma {:induction false} OrStep(z: nat, y: nat)
    ensures Or(2 * z, y) == 2 * Or(z, y / 2) + y % 2
  {
    assert (2 * z) / 2 == z && (2 * z) % 2 == 0;
    OrZero(0);
  }

  lemma {:induction false} AndEven(x: nat, z: nat)
    ensures And(x, 2 * z) == 2 * And(x / 2, z)
  {
    assert (2 * z) / 2 == z && (2 * z) % 2 == 0;
  }

  lemma {:induction false} AndOdd(x: nat, z: nat)
    ensures And(x, 2 * z + 1) == 2 * And(x / 2, z) + x % 2
  {
    assert (2 * z + 1) / 2 == z && (2 * z + 1) % 2 == 1;
  }

  /** Joining a field above bit `k` with one below it is adding. */
  lemma {:induction false} OrAbove(x: nat, y: nat, k: nat)
    requires y < Pow2(k)
    ensures Or(Shift(x, k), y) == Shift(x, k) + y
  {
    if k == 0 {
      OrZero(x);
    } else {
      OrAbove(x, y / 2, k - 1);
      OrStep(Shift(x, k - 1), y);
    }
  }

  /** A mask of the low `n` bits. */
  lemma {:induction false} AndLow(x: nat, n: nat)
    ensures And(x, Ones(n)) == Low(x, n)
  {
    if n > 0 {
      AndLow(x / 2, n - 1);
      AndOdd(x, Ones(n - 1));
    }
  }

  /** A mask of `n` bits from bit `k` on. */
  lemma {:induction false} AndField(x: nat, k: nat, n: nat)
    ensures And(x, Shift(Ones(n), k)) == Shift(Low(Drop(x, k), n), k)
  {
    if k == 0 {
      AndLow(x, n);
    } else {
      AndField(x / 2, k - 1, n);
      AndEven(x, Shift(Ones(n), k - 1));
    }
  }

  lemma {:induction false} Ones4()
    ensures Ones(1) == 1 && Ones(2) == 3 && Ones(4) == 15
  {
    assert Ones(3) == 7;
  }

  lemma {:induction false} Low2(x: nat)
    ensures Low(x, 1) == x % 2 && Low(x, 2) == x % 4
  {
    assert Low(x / 2 / 2, 0) == 0 && Low(x / 2, 0) == 0;
    assert Low(x / 2, 1) == x / 2 % 2;
  }

  lemma {:induction false} Low3(x: nat)
    ensures Low(x, 3) == x % 8
  {
    Low2(x / 2);
    assert x % 8 == 2 * (x / 2 % 4) + x % 2;
  }

  lemma {:induction false} Low4(x: nat)
    ensures Low(x, 1) == x % 2 && Low(x, 2) == x % 4 && Low(x, 4) == x % 16
  {
    Low2(x);
    Low3(x / 2);
    Halves(x);
    LowStep(x);
  }

  lemma {:induction false} LowStep(x: nat)
    ensures Low(x, 4) == 2 * Low(x / 2, 3) + x % 2
  {
  }

  lemma {:induction false} Halves(x: nat)
    ensures x % 16 == 2 * (x / 2 % 8) + x % 2
  {
    var q, r := x / 16, x % 16;
    assert x / 2 == 8 * q + r / 2;
    assert x / 2 % 8 == r / 2;
  }

  lemma {:induction false} Shift4(x: nat)
    ensures Shift(x, 4) == 16 * x && Shift(x, 5) == 32 * x && Shift(x, 6) == 64 * x
  {
    assert Shift(x, 0) == x;
    assert Shift(x, 1) == 2 * x;
    assert Shift(x, 2) == 4 * x;
    assert Shift(x, 3) == 8 * x;
  }

  lemma {:induction false} Drop4(x: nat)
    ensures Drop(x, 4) == x / 16 && Drop(x, 5) == x / 32 && Drop(x, 6) == x / 64
  {
    DropTwo(x, 2);
    DropTwo(x, 3);
    DropTwo(x, 4);
    DropTwo(x / 2 / 2, 0);
    DropTwo(x / 2 / 2, 2);
    DropTwo(x / 2 / 2 / 2 / 2, 0);
    assert Drop(x / 2 / 2, 3) == Drop(x / 2 / 2 / 2, 2);
    DropTwo(x / 2 / 2 / 2, 0);
  }

  lemma {:induction false} Powers()
    ensures Pow2(4) == 16 && Pow2(5) == 32 && Pow2(6) == 64
  {
    assert Pow2(2) == 4;
    assert Pow2(4) == 16;
  }

  lemma {:induction false} DropTwo(x: nat, k: nat)
    ensures Drop(x, k + 2) == Drop(x / 2 / 2, k)
    ensures Drop(x, 0) == x
  {
    assert Drop(x, k + 2) == Drop(x / 2, k + 1);
  }
}
