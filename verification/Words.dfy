// Machine words, bit operations on them, and the two small wrapper types the
// other modules share.

module Words {

  datatype Option<+T> = None | Some(value: T)

  type u8 = x: nat | x < 0x100
  type u16 = x: nat | x < 0x1_0000
  type u32 = x: nat | x < 0x1_0000_0000

  const U32_SIZE: nat := 0x1_0000_0000

  type Packet = seq<u8>

  function Pow2(n: nat): (p: nat)
    ensures p > 0
  {
    if n == 0 then 1 else 2 * Pow2(n - 1)
  }

  lemma Pow2Of32()
    ensures Pow2(32) == 0x1_0000_0000
  {
    assert Pow2(8) == 0x100;
    assert Pow2(16) == 0x1_0000;
    assert Pow2(24) == 0x100_0000;
  }

  // ----- 32-bit arithmetic, wrapping as the Rust `wrapping_*` operations do -----

  function Add32(a: u32, b: u32): u32 { if a + b < U32_SIZE then a + b else a + b - U32_SIZE }

  function Sub32(a: u32, b: u32): u32 { if a >= b then a - b else a - b + U32_SIZE }

  function Mul32(a: u32, b: u32): u32 { (a * b) % U32_SIZE }

  function Div32(a: u32, b: u32): u32
    requires b != 0
  {
    DivNoLarger(a, b);
    a / b
  }

  // ----- network byte order -----

  function Be16(b0: u8, b1: u8): u32 { b0 * 0x100 + b1 as int }

  function Be32(b0: u8, b1: u8, b2: u8, b3: u8): u32 {
    Be16(b0, b1) * 0x1_0000 + Be16(b2, b3)
  }

  // ----- bitwise operations, one bit at a time -----

  datatype BitOp = AndBits | OrBits | XorBits

  function Bit(op: BitOp, p: nat, q: nat): (b: nat)
    ensures b <= 1
  {
    match op
    case AndBits => if p == 1 && q == 1 then 1 else 0
    case OrBits => if p == 1 || q == 1 then 1 else 0
    case XorBits => if p != q then 1 else 0
  }

  /** The low `n` bits of `a op b`. */
  function Bitwise(op: BitOp, a: nat, b: nat, n: nat): (r: nat)
    ensures r < Pow2(n)
  {
    if n == 0 then 0 else 2 * Bitwise(op, a / 2, b / 2, n - 1) + Bit(op, a % 2, b % 2)
  }

  function Bitwise32(op: BitOp, a: u32, b: u32): u32 {
    Pow2Of32();
    Bitwise(op, a, b, 32)
  }

  function BitAnd(a: u32, b: u32): u32 { Bitwise32(AndBits, a, b) }

  /** `a << (s & 31)` in 32 bits. */
  function ShiftLeft(a: u32, s: u32): u32 { (a * Pow2(s % 32)) % U32_SIZE }

  /** `a >> (s & 31)`. */
  function ShiftRight(a: u32, s: u32): (r: u32)
    ensures r <= a
  {
    Quotient(a, Pow2(s % 32))
  }

  function Quotient(a: u32, d: nat): (q: u32)
    requires d > 0
    ensures q <= a
  {
    DivNoLarger(a, d);
    a / d
  }

  lemma DivNoLarger(a: nat, d: nat)
    requires d > 0
    ensures a / d <= a
  {
    var q := a / d;
    assert a == d * q + a % d;
    MulNoSmaller(d, q);
  }

  lemma {:induction false} MulNoSmaller(d: nat, q: nat)
    requires d > 0
    ensures d * q >= q
  {
    assert (d - 1) * q >= 0;
    assert d * q == (d - 1) * q + q;
  }

  lemma Grows(m: int, d: int)
    requires m >= 0
    ensures d >= 1 ==> m * d >= m
    ensures d <= -1 ==> m * d + m <= 0
  {
    if d >= 1 { assert m * (d - 1) >= 0; }
    if d <= -1 { assert m * (-1 - d) >= 0; }
  }

  lemma {:induction false} AndZero(a: nat, n: nat)
    ensures Bitwise(AndBits, a, 0, n) == 0 && Bitwise(AndBits, 0, a, n) == 0
    decreases n
  {
    if n > 0 { AndZero(a / 2, n - 1); }
  }

  /** How many of the first `i` flags are set. */
  function Count(flags: seq<bool>, i: nat): (c: nat)
    requires i <= |flags|
    ensures c <= i
  {
    if i == 0 then 0 else Count(flags, i - 1) + if flags[i - 1] then 1 else 0
  }
}
