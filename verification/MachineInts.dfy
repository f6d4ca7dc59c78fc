/** The fixed-width integers of the kernels and their wrap-around. */
module MachineInts {

  const U32: int := 0x1_0000_0000
  const U64: int := 0x1_0000_0000_0000_0000

  type byte = x: int | 0 <= x < 256
  type u32 = x: int | 0 <= x < 0x1_0000_0000
  type u64 = x: int | 0 <= x < 0x1_0000_0000_0000_0000
  type i32 = x: int | -0x8000_0000 <= x < 0x8000_0000

  predicate FitsI32(x: int) {
    -0x8000_0000 <= x < 0x8000_0000
  }

  function WrapU32(x: int): (r: u32)
    ensures 0 <= x < U32 ==> r == x
    ensures (x - r) % U32 == 0
  {
    x % U32
  }

  /** The i32 with the low 32 bits of `x`. */
  function WrapI32(x: int): (r: i32)
    ensures FitsI32(x) ==> r == x
    ensures (x - r) % U32 == 0
  {
    (x + 0x8000_0000) % U32 - 0x8000_0000
  }

  /** Wrapping after each addition is wrapping once at the end. */
  lemma {:induction false} WrapI32Add(x: int, y: int)
    ensures WrapI32(WrapI32(x) + y) == WrapI32(x + y)
  {
    var d := x - WrapI32(x);
    assert d % U32 == 0;
    var q := d / U32;
    assert WrapI32(x) + y + 0x8000_0000 == (x + y + 0x8000_0000) - q * U32;
    ModShift(x + y + 0x8000_0000, q);
  }

  lemma {:induction false} ModShift(x: int, q: int)
    ensures (x - q * U32) % U32 == x % U32
  {
    var r := x % U32;
    var p := x / U32;
    assert x - q * U32 == (p - q) * U32 + r;
  }
}
