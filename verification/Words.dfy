/** Machine integers, written out where the arithmetic of their width matters. */
module Words {
  const TWO_16 := 0x1_0000
  const TWO_31 := 0x8000_0000
  const TWO_32 := 0x1_0000_0000
  const TWO_63 := 0x8000_0000_0000_0000
  const TWO_64 := 0x1_0000_0000_0000_0000
  const MAX_INT32 := 0x7FFF_FFFF
  const MAX_UINT16 := 0xFFFF

  type byte = x: int | 0 <= x < 0x100
  type uint16 = x: int | 0 <= x < TWO_16
  type uint32 = x: int | 0 <= x < TWO_32
  type uint64 = x: int | 0 <= x < TWO_64
  type int32 = x: int | -TWO_31 <= x < TWO_31
  type int64 = x: int | -TWO_63 <= x < TWO_63

  /** Conversion of an integer to 32 bits, as in `uint32(x)`. */
  function Low32(x: int): uint32 {
    x % TWO_32
  }

  function Plus32(a: uint32, b: uint32): uint32 {
    Low32(a + b)
  }

  function Minus32(a: uint32, b: uint32): uint32 {
    Low32(a - b)
  }

  /** `^x` */
  function Complement32(x: uint32): uint32 {
    TWO_32 - 1 - x
  }

  function Low16(x: int): uint16 {
    x % TWO_16
  }

  /** Adding `^uint32(n-1)` subtracts `n`, also when `n` is 0 and `n-1` wraps. */
  lemma ComplementSubtracts(size: uint32, n: nat)
    ensures Plus32(size, Complement32(Low32(n - 1))) == Low32(size - n)
  {
    var q := (n - 1) / TWO_32;
    assert n - 1 == q * TWO_32 + Low32(n - 1);
    assert size + Complement32(Low32(n - 1)) == size - n + (q + 1) * TWO_32;
    Low32Shift(size - n, q + 1);
  }

  lemma Low32Shift(x: int, k: int)
    ensures Low32(x + k * TWO_32) == Low32(x)
  {
    var q := x / TWO_32;
    assert x + k * TWO_32 == (q + k) * TWO_32 + Low32(x);
  }

  lemma Low32Own(x: uint32)
    ensures Low32(x) == x
  {
  }

  lemma Low32Below(x: nat)
    ensures Low32(x) <= x
  {
  }

  /** The low 32 bits of a sum or difference depend only on those of its parts. */
  lemma Low32Sum(x: int, y: int)
    ensures Low32(Low32(x) + y) == Low32(x + y)
    ensures Low32(Low32(x) - y) == Low32(x - y)
  {
    Low32Shift(x + y, -(x / TWO_32));
    Low32Shift(x - y, -(x / TWO_32));
  }
}
