/**
 * Fixed-width integers of the source: `i32` coordinates and `u32` sizes.
 * Arithmetic on `i32` wraps around in two's complement, which is what a
 * release build does on overflow (a debug build panics instead).
 */
module Int32 {

  const MIN: int := -0x8000_0000
  const MAX: int := 0x7fff_ffff
  const MODULUS: int := 0x1_0000_0000

  type I32 = x: int | MIN <= x <= MAX
  type U32 = x: int | 0 <= x < MODULUS

  /** The `i32` that `n` wraps to; a value already in range is unchanged. */
  function Wrap(n: int): (r: I32)
    ensures MIN <= n <= MAX ==> r == n
  {
    var m := n % MODULUS;
    if m <= MAX then m else m - MODULUS
  }

  /** Wrapping is reduction modulo 2^32: the result differs from `n` by a multiple of 2^32, and it is the only `i32` that does. */
  lemma WrapIsModular(n: int, r: I32)
    ensures (n - Wrap(n)) % MODULUS == 0
    ensures (n - r) % MODULUS == 0 ==> r == Wrap(n)
  {
    var k := n / MODULUS;
    assert n == k * MODULUS + n % MODULUS;
    if (n - r) % MODULUS == 0 {
      var j := (n - r) / MODULUS;
      assert n - r == j * MODULUS;
      assert r % MODULUS == n % MODULUS by {
        assert r == n - j * MODULUS;
      }
    }
  }

  /** `a + b` on `i32`. */
  function Add(a: I32, b: I32): I32 { Wrap(a as int + b as int) }

  /** `a - b` on `i32`. */
  function Sub(a: I32, b: I32): I32 { Wrap(a as int - b as int) }

  /** `-a` on `i32`; only `MIN` overflows, and it wraps to itself. */
  function Neg(a: I32): (r: I32)
    ensures a != MIN ==> r == -(a as int)
    ensures a == MIN ==> r == MIN
  {
    Wrap(-(a as int))
  }

  function Min(a: I32, b: I32): I32 { if a <= b then a else b }

  function Max(a: I32, b: I32): I32 { if a >= b then a else b }

  /** `a.abs() as u32`: the wrapped absolute value reinterpreted as unsigned, which is |a| for every `a`. */
  function UnsignedAbs(a: I32): (r: U32)
    ensures r == if a < 0 then -(a as int) else a as int
  {
    var w := if a < 0 then Neg(a) else a;
    if w < 0 then w + MODULUS else w
  }

  /** `x as i32` for an unsigned 32-bit `x`. */
  function FromU32(x: U32): (r: I32)
    ensures x <= MAX ==> r == x
    ensures x > MAX ==> r == x - MODULUS
  {
    Wrap(x)
  }

  /** Wrapping negation undoes itself, even at `MIN`. */
  lemma NegInvolutive(a: I32)
    ensures Neg(Neg(a)) == a
  {
  }

  /** Negating does not change the unsigned absolute value, even at `MIN`. */
  lemma UnsignedAbsNeg(a: I32)
    ensures UnsignedAbs(Neg(a)) == UnsignedAbs(a)
  {
  }
}
