/** Bitwise operations on natural numbers, defined bit by bit, as the kernels' u32 `&`, `|`, `^`
    and single-bit masks use them. */
module Bits {

  function Pow2(n: nat): (r: nat)
    ensures r >= 1
  {
    if n == 0 then 1 else 2 * Pow2(n - 1)
  }

  /** Bit `i` of `x`, bit 0 the least significant. */
  predicate Bit(x: nat, i: nat) {
    if i == 0 then x % 2 == 1 else Bit(x / 2, i - 1)
  }

  function And(x: nat, y: nat): (r: nat) {
    if x == 0 || y == 0 then 0
    else 2 * And(x / 2, y / 2) + (if x % 2 == 1 && y % 2 == 1 then 1 else 0)
  }

  function Or(x: nat, y: nat): (r: nat) {
    if x == 0 && y == 0 then 0
    else 2 * Or(x / 2, y / 2) + (if x % 2 == 1 || y % 2 == 1 then 1 else 0)
  }

  function Xor(x: nat, y: nat): (r: nat) {
    if x == 0 && y == 0 then 0
    else 2 * Xor(x / 2, y / 2) + (if x % 2 != y % 2 then 1 else 0)
  }

  lemma {:induction false} ZeroBit(i: nat)
    ensures !Bit(0, i)
  {
    if i > 0 { ZeroBit(i - 1); }
  }

  lemma {:induction false} AndBit(x: nat, y: nat, i: nat)
    ensures Bit(And(x, y), i) <==> Bit(x, i) && Bit(y, i)
  {
    if x == 0 || y == 0 {
      ZeroBit(i);
    } else if i > 0 {
      AndBit(x / 2, y / 2, i - 1);
    }
  }

  lemma {:induction false} OrBit(x: nat, y: nat, i: nat)
    ensures Bit(Or(x, y), i) <==> Bit(x, i) || Bit(y, i)
  {
    if x == 0 && y == 0 {
      ZeroBit(i);
    } else if i > 0 {
      OrBit(x / 2, y / 2, i - 1);
    }
  }

  lemma {:induction false} Pow2Bit(a: nat, i: nat)
    ensures Bit(Pow2(a), i) <==> i == a
  {
    if a == 0 {
      if i > 0 { ZeroBit(i - 1); }
    } else if i > 0 {
      Pow2Bit(a - 1, i - 1);
    }
  }

  /** Two numbers with the same bits are the same number. */
  lemma {:induction false} SameBits(x: nat, y: nat)
    requires forall i: nat :: Bit(x, i) <==> Bit(y, i)
    ensures x == y
  {
    if x == 0 && y == 0 {
    } else {
      assert Bit(x, 0) <==> Bit(y, 0);
      forall i: nat ensures Bit(x / 2, i) <==> Bit(y / 2, i) {
        assert Bit(x, i + 1) <==> Bit(y, i + 1);
      }
      SameBits(x / 2, y / 2);
    }
  }

  /** A number other than zero has a bit. */
  lemma {:induction false} HasBit(x: nat) returns (i: nat)
    requires x > 0
    ensures Bit(x, i)
  {
    if x % 2 == 1 {
      i := 0;
    } else {
      var j := HasBit(x / 2);
      i := j + 1;
    }
  }

  lemma {:induction false} HighBitsClear(x: nat, m: nat, i: nat)
    requires x < Pow2(m) && m <= i
    ensures !Bit(x, i)
  {
    if i == 0 {
    } else if m == 0 {
      ZeroBit(i);
    } else {
      HighBitsClear(x / 2, m - 1, i - 1);
    }
  }

  /** Adding a higher power of two leaves the lower bits alone. */
  lemma {:induction false} ShiftedBit(x: nat, m: nat, i: nat)
    requires i < m
    ensures Bit(x + Pow2(m), i) <==> Bit(x, i)
  {
    if i == 0 {
    } else {
      assert (x + Pow2(m)) / 2 == x / 2 + Pow2(m - 1);
      ShiftedBit(x / 2, m - 1, i - 1);
    }
  }

  lemma {:induction false} TopBit(x: nat, m: nat)
    requires x < Pow2(m)
    ensures Bit(x + Pow2(m), m)
  {
    if m > 0 {
      assert (x + Pow2(m)) / 2 == x / 2 + Pow2(m - 1);
      TopBit(x / 2, m - 1);
    }
  }

  lemma {:induction false} Pow2Mono(a: nat, b: nat)
    requires a < b
    ensures 2 * Pow2(a) <= Pow2(b)
  {
    if a + 1 < b { Pow2Mono(a, b - 1); }
  }

  lemma {:induction false} Pow2Order(a: nat, b: nat)
    ensures Pow2(a) <= Pow2(b) <==> a <= b
  {
    if a < b {
      Pow2Mono(a, b);
    } else if b < a {
      Pow2Mono(b, a);
    }
  }

  /** `x & 2^a` tests bit `a`. */
  lemma {:induction false} AndPow2(x: nat, a: nat)
    ensures And(x, Pow2(a)) == if Bit(x, a) then Pow2(a) else 0
  {
    if x == 0 {
      ZeroBit(a);
    } else if a > 0 {
      AndPow2(x / 2, a - 1);
    }
  }

  lemma {:induction false} XorZero(x: nat)
    ensures Xor(x, 0) == x
  {
    if x > 0 { XorZero(x / 2); }
  }

  /** `x ^ 2^a` flips bit `a`. */
  lemma {:induction false} XorPow2(x: nat, a: nat)
    ensures Bit(x, a) ==> x >= Pow2(a)
    ensures Xor(x, Pow2(a)) == if Bit(x, a) then x - Pow2(a) else x + Pow2(a)
  {
    if a == 0 {
      XorZero(x / 2);
    } else {
      XorPow2(x / 2, a - 1);
      XorHalf(x, Pow2(a - 1));
    }
  }

  lemma {:induction false} XorHalf(x: nat, m: nat)
    requires m > 0
    ensures Xor(x, 2 * m) == 2 * Xor(x / 2, m) + x % 2
  {
    assert (2 * m) / 2 == m && (2 * m) % 2 == 0;
  }

  lemma {:induction false} FlippedBit(x: nat, a: nat, i: nat)
    ensures Bit(Xor(x, Pow2(a)), i) <==> (Bit(x, i) != (i == a))
  {
    if x == 0 {
      FlippedZero(a, i);
    } else if a == 0 {
      XorZero(x / 2);
    } else if i > 0 {
      FlippedBit(x / 2, a - 1, i - 1);
    }
  }

  lemma {:induction false} FlippedZero(a: nat, i: nat)
    ensures Bit(Xor(0, Pow2(a)), i) <==> i == a
    ensures !Bit(0, i)
  {
    Pow2Bit(a, i);
    XorPow2(0, a);
    ZeroBit(a);
    ZeroBit(i);
  }
}
