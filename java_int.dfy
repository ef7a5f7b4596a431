/** Java `int` arithmetic: 32-bit two's complement with wrap-around. */
module JavaInt {
  const TWO_32: int := 0x1_0000_0000
  const TWO_31: int := 0x8000_0000

  type Int32 = x: int | -TWO_31 <= x < TWO_31

  /** The `int` a mathematical integer wraps to. */
  function Wrap32(x: int): (r: Int32)
    ensures (x - r) % TWO_32 == 0
  {
    var m := (x + TWO_31) % TWO_32;
    assert x + TWO_31 == TWO_32 * ((x + TWO_31) / TWO_32) + m;
    m - TWO_31
  }

  /** `a + b` on Java `int`s. */
  function Add32(a: Int32, b: Int32): Int32 {
    Wrap32(a + b)
  }

  /** `a * b` on Java `int`s. */
  function Mul32(a: Int32, b: Int32): Int32 {
    Wrap32(a * b)
  }

  /** Two integers congruent modulo 2^32 wrap to the same `int`. */
  lemma WrapCongruent(a: int, b: int)
    requires (a - b) % TWO_32 == 0
    ensures Wrap32(a) == Wrap32(b)
  {
    var ra, rb := Wrap32(a), Wrap32(b);
    var k := (a - b) / TWO_32;
    assert a - b == TWO_32 * k;
    var ka, kb := (a - ra) / TWO_32, (b - rb) / TWO_32;
    assert a - ra == TWO_32 * ka;
    assert b - rb == TWO_32 * kb;
    assert ra - rb == TWO_32 * (k - ka + kb);
  }

  /** An `int` wraps to itself. */
  lemma WrapInRange(x: Int32)
    ensures Wrap32(x) == x
  {
    WrapCongruent(x, Wrap32(x));
    var r := Wrap32(x);
    var k := (x - r) / TWO_32;
    assert x - r == TWO_32 * k;
  }

  /** Wrapping after every operation is wrapping once at the end. */
  lemma WrapSum(a: int, b: int)
    ensures Wrap32(Wrap32(a) + b) == Wrap32(a + b)
  {
    var k := (a - Wrap32(a)) / TWO_32;
    assert a - Wrap32(a) == TWO_32 * k;
    assert (a + b) - (Wrap32(a) + b) == TWO_32 * k;
    WrapCongruent(a + b, Wrap32(a) + b);
  }

  lemma WrapProduct(c: int, a: int)
    ensures Wrap32(c * Wrap32(a)) == Wrap32(c * a)
  {
    var k := (a - Wrap32(a)) / TWO_32;
    assert a - Wrap32(a) == TWO_32 * k;
    assert c * a - c * Wrap32(a) == TWO_32 * (c * k);
    WrapCongruent(c * a, c * Wrap32(a));
  }
}
