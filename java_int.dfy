/**
 * Java's 32-bit `int` and its wrapping subtraction.
 *
 * Java integer arithmetic is two's complement: when the mathematical
 * difference does not fit in 32 bits, the result is its low-order 32 bits
 * (The Java Language Specification, section 15.18.2).
 */
module JavaInt {

  const Min: int := -0x8000_0000
  const Max: int := 0x7fff_ffff
  const Modulus: int := 0x1_0000_0000

  newtype I32 = x: int | -0x8000_0000 <= x < 0x8000_0000

  /** The 32-bit value congruent to `v` modulo 2^32. */
  function Wrap(v: int): (r: I32)
    ensures (r as int - v) % Modulus == 0
    ensures Min <= v <= Max ==> r as int == v
  {
    var w := (v - Min) % Modulus + Min;
    assert (w - v) % Modulus == 0 by {
      assert w - v == (v - Min) % Modulus - (v - Min);
    }
    w as I32
  }

  /** `a - b` as Java evaluates it on two `int` operands. */
  function Sub(a: I32, b: I32): (r: I32)
    ensures ((r as int) - (a as int - b as int)) % Modulus == 0
    ensures Min <= a as int - b as int <= Max ==> r as int == a as int - b as int
  {
    Wrap(a as int - b as int)
  }
}
