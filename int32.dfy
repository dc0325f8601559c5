/**
 * .NET Int32 arithmetic in an unchecked context: values wrap around modulo 2^32, and `^`
 * is the exclusive or of the two's-complement bit patterns.
 */
module Int32s {
  newtype Int32 = x: int | -0x8000_0000 <= x < 0x8000_0000

  function Pow2(n: nat): (p: nat)
    ensures p >= 1
  {
    if n == 0 then 1 else 2 * Pow2(n - 1)
  }

  lemma {:induction false} Pow2Add(m: nat, n: nat)
    ensures Pow2(m + n) == Pow2(m) * Pow2(n)
  {
    if m > 0 {
      Pow2Add(m - 1, n);
    }
  }

  lemma Pow2Of32()
    ensures Pow2(32) == 0x1_0000_0000
  {
    assert Pow2(4) == 16;
    Pow2Add(4, 4);
    Pow2Add(8, 8);
    Pow2Add(16, 16);
  }

  /** Bitwise exclusive or of the low `n` bits of `a` and `b`. */
  function XorBits(a: nat, b: nat, n: nat): (r: nat)
    ensures r < Pow2(n)
  {
    if n == 0 then 0 else (a % 2 + b % 2) % 2 + 2 * XorBits(a / 2, b / 2, n - 1)
  }

  /** The 32-bit pattern of an integer, as an unsigned value (unchecked truncation). */
  function Bits(x: int): (u: nat)
    ensures u < 0x1_0000_0000
  {
    x % 0x1_0000_0000
  }

  /** The Int32 whose two's-complement pattern is `u`. */
  function FromBits(u: nat): (r: Int32)
    requires u < 0x1_0000_0000
    ensures Bits(r as int) == u
  {
    if u < 0x8000_0000 then u as Int32 else (u - 0x1_0000_0000) as Int32
  }

  /** Reading back a pattern gives the Int32 it came from. */
  lemma FromBitsOfBits(x: Int32)
    ensures FromBits(Bits(x as int)) == x
  {
    if x < 0 {
      assert Bits(x as int) == x as int + 0x1_0000_0000;
    } else {
      assert Bits(x as int) == x as int;
    }
  }

  /** Int32 `^`: exclusive or of the two 32-bit patterns. */
  function Xor32(a: nat, b: nat): (r: nat)
    ensures r < 0x1_0000_0000
  {
    Pow2Of32();
    XorBits(a, b, 32)
  }

  lemma {:induction false} XorZeroLeft(b: nat, n: nat)
    requires b < Pow2(n)
    ensures XorBits(0, b, n) == b
  {
    if n > 0 {
      XorZeroLeft(b / 2, n - 1);
    }
  }

  lemma {:induction false} XorZeroRight(a: nat, n: nat)
    requires a < Pow2(n)
    ensures XorBits(a, 0, n) == a
  {
    if n > 0 {
      XorZeroRight(a / 2, n - 1);
    }
  }

  /** An unchecked Int32 result: the mathematical value wrapped into the Int32 range. */
  function Wrap(x: int): (r: Int32)
    ensures (r as int - x) % 0x1_0000_0000 == 0
    ensures -0x8000_0000 <= x < 0x8000_0000 ==> r as int == x
  {
    FromBits(Bits(x))
  }
}
