// Two's complement on unbounded integers, and the 64-bit machine operations of
// the offset evaluator (pktbaffle/src/parser.rs:1096-1168).

module Integers {
  import opened Words

  const I64_MIN: int := -0x8000_0000_0000_0000

  predicate InI64(v: int) { I64_MIN <= v < -I64_MIN }

  datatype BinOp = OrOp | XorOp | AndOp | ShlOp | ShrOp | AddOp | SubOp | MulOp | DivOp

  /** Division that truncates toward zero. */
  function TruncDiv(a: int, b: int): int
    requires b != 0
  {
    var q := Magnitude(a) / Magnitude(b);
    if (a < 0) == (b < 0) then q else -q
  }

  function Magnitude(a: int): nat { if a < 0 then -a else a }

  /** How far `a` is from having only copies of its sign bit. */
  function Width(a: int): nat { if a < 0 then -a - 1 else a }

  /** Bitwise operation on unbounded two's complement numbers. */
  function Bits(op: BitOp, a: int, b: int): int
    decreases Width(a) + Width(b)
  {
    if Width(a) == 0 && Width(b) == 0 then -(Bit(op, a % 2, b % 2) as int)
    else 2 * Bits(op, a / 2, b / 2) + Bit(op, a % 2, b % 2)
  }

  function BitOpOf(op: BinOp): BitOp
    requires op.OrOp? || op.XorOp? || op.AndOp?
  {
    match op
    case OrOp => OrBits
    case XorOp => XorBits
    case AndOp => AndBits
  }

  /** The exact result over the unbounded integers, where it is defined. */
  function Exact(op: BinOp, a: int, b: int): Option<int> {
    match op
    case ShlOp => if 0 <= b < 64 then Some(a * Pow2(b)) else None
    case ShrOp => if 0 <= b < 64 then Some(a / Pow2(b)) else None
    case AddOp => Some(a + b)
    case SubOp => Some(a - b)
    case MulOp => Some(a * b)
    case DivOp => if b == 0 then None else Some(TruncDiv(a, b))
    case _ => Some(Bits(BitOpOf(op), a, b))
  }

  // ----- the machine operations -----

  const U64_SIZE: nat := 0x1_0000_0000_0000_0000

  function Unsigned(v: int): nat { v % U64_SIZE }

  function Signed(u: int): int { if u < -I64_MIN then u else u - U64_SIZE }

  /** `v` reduced to 64 bits. */
  function Wrap(v: int): int { Signed(Unsigned(v)) }

  /** `checked_*`: `None` on overflow. */
  function InRangeOnly(v: int): Option<int> { if InI64(v) then Some(v) else None }

  /** What the evaluator computes from two 64-bit operands. */
  function Machine(op: BinOp, a: int, b: int): Option<int> {
    match op
    case ShlOp =>
      if !(0 <= b < 64) then None
      else
        var shifted := Wrap(a * Pow2(b));
        if shifted / Pow2(b) != a then None else Some(shifted)
    case ShrOp => if 0 <= b < 64 then Some(a / Pow2(b)) else None
    case AddOp => InRangeOnly(a + b)
    case SubOp => InRangeOnly(a - b)
    case MulOp => InRangeOnly(a * b)
    case DivOp => if b == 0 then None else InRangeOnly(TruncDiv(a, b))
    case _ => Some(Signed(Bitwise(BitOpOf(op), Unsigned(a), Unsigned(b), 64)))
  }

  // ----- arithmetic facts -----

  lemma DivModUnique(x: int, m: int, q: int, r: int)
    requires m > 0 && x == m * q + r && 0 <= r < m
    ensures x / m == q && x % m == r
  {
    var d := x / m - q;
    assert m * d == m * (x / m) - m * q == r - x % m;
    Grows(m, d);
  }

  lemma HalfMod(a: int, p: nat)
    requires p > 0
    ensures (a % (2 * p)) / 2 == (a / 2) % p && (a % (2 * p)) % 2 == a % 2
  {
    var q, r := a / (2 * p), a % (2 * p);
    assert a == 2 * (p * q) + r;
    assert a / 2 == p * q + r / 2;
    DivModUnique(a / 2, p, q, r / 2);
  }

  lemma DoubleMod(half: int, p: nat, low: nat)
    requires p > 0 && low <= 1
    ensures (2 * half + low) % (2 * p) == 2 * (half % p) + low
  {
    var q, r := half / p, half % p;
    assert half == p * q + r;
    assert 2 * (p * q) == (2 * p) * q;
    DivModUnique(2 * half + low, 2 * p, q, 2 * r + low);
  }

  /** `a` fits `n + 1` bits, sign included. */
  predicate Within(a: int, n: nat) { 0 <= a + Pow2(n) && a < Pow2(n) }

  /** In `n + 1` bits the unbounded operation stays within them and agrees with
      the bit-by-bit one. */
  lemma {:induction false} BitsAgree(op: BitOp, a: int, b: int, n: nat)
    requires Within(a, n) && Within(b, n)
    ensures Within(Bits(op, a, b), n)
    ensures Bits(op, a, b) % Pow2(n + 1) == Bitwise(op, a % Pow2(n + 1), b % Pow2(n + 1), n + 1)
    decreases n
  {
    if n == 0 {
      OneBitAgrees(op, a, b);
    } else {
      var p := Pow2(n);
      BitsAgree(op, a / 2, b / 2, n - 1);
      BitsStep(op, a, b);
      DoubleMod(Bits(op, a / 2, b / 2), p, Bit(op, a % 2, b % 2));
      BitwiseHalves(op, a, b, p, n);
      assert Pow2(n + 1) == 2 * p;
    }
  }

  lemma OneBitAgrees(op: BitOp, a: int, b: int)
    requires Within(a, 0) && Within(b, 0)
    ensures Within(Bits(op, a, b), 0)
    ensures Bits(op, a, b) % Pow2(1) == Bitwise(op, a % Pow2(1), b % Pow2(1), 1)
  {
    assert Pow2(1) == 2;
    assert Bitwise(op, a % 2, b % 2, 1) == Bit(op, a % 2, b % 2);
  }

  lemma BitwiseHalves(op: BitOp, a: int, b: int, p: nat, n: nat)
    requires p > 0
    ensures Bitwise(op, a % (2 * p), b % (2 * p), n + 1) ==
            2 * Bitwise(op, (a / 2) % p, (b / 2) % p, n) + Bit(op, a % 2, b % 2)
  {
    HalfMod(a, p);
    HalfMod(b, p);
  }

  lemma BitsStep(op: BitOp, a: int, b: int)
    ensures Bits(op, a, b) == 2 * Bits(op, a / 2, b / 2) + Bit(op, a % 2, b % 2)
  {
  }

  lemma Pow2Of63()
    ensures Pow2(63) == 0x8000_0000_0000_0000 && Pow2(64) == U64_SIZE
  {
    Pow2Of32();
    assert Pow2(40) == 0x100_0000_0000;
    assert Pow2(48) == 0x1_0000_0000_0000;
    assert Pow2(56) == 0x100_0000_0000_0000;
  }

  lemma {:induction false} Pow2Add(m: nat, n: nat)
    ensures Pow2(m + n) == Pow2(m) * Pow2(n)
  {
    if m > 0 {
      Pow2Add(m - 1, n);
      assert Pow2(m + n) == 2 * Pow2(m - 1 + n) && Pow2(m) == 2 * Pow2(m - 1);
      Doubled(Pow2(m - 1), Pow2(n));
    }
  }

  lemma Doubled(a: int, b: int)
    ensures 2 * (a * b) == (2 * a) * b
  {
  }

  lemma WrapIsExactInRange(v: int)
    ensures Wrap(v) == v <==> InI64(v)
    ensures exists m: int :: Wrap(v) == v - m * U64_SIZE
  {
    var m := v / U64_SIZE;
    assert v == U64_SIZE * m + Unsigned(v);
    assert Wrap(v) == v - m * U64_SIZE || Wrap(v) == v - (m + 1) * U64_SIZE;
  }

  /** The shift test: reading the shifted value back gives the operand exactly
      when nothing was lost. */
  lemma ShiftReadsBack(a: int, b: nat)
    requires b < 64
    ensures Wrap(a * Pow2(b)) / Pow2(b) == a <==> InI64(a * Pow2(b))
  {
    var p, hi, x := Pow2(b), Pow2(64 - b), a * Pow2(b);
    Pow2Add(b, 64 - b);
    Pow2Of63();
    WrapIsExactInRange(x);
    var m: int :| Wrap(x) == x - m * U64_SIZE;
    Quotient(a, p, m, hi, Wrap(x));
  }

  lemma Quotient(a: int, p: int, m: int, h: int, w: int)
    requires p > 0 && h > 0 && w == a * p - m * (p * h)
    ensures w / p == a <==> m == 0
  {
    Factor(a, p, m, h);
    DivModUnique(w, p, a - m * h, 0);
    Grows(h, m);
  }

  lemma Factor(a: int, p: int, m: int, h: int)
    ensures a * p - m * (p * h) == p * (a - m * h)
  {
    assert m * (p * h) == p * (m * h);
  }

  lemma ShiftRightInRange(a: int, b: nat)
    requires InI64(a)
    ensures InI64(a / Pow2(b))
  {
    FloorBounds(a, Pow2(b));
  }

  lemma FloorBounds(a: int, p: int)
    requires p > 0
    ensures if a >= 0 then 0 <= a / p <= a else a <= a / p < 0
  {
    var q, r := a / p, a % p;
    assert a == p * q + r;
    Grows(p, q);
    Grows(p - 1, q);
    assert (p - 1) * q == p * q - q;
  }

  /** Every machine operation on 64-bit operands yields the exact result, or
      nothing where there is none in 64 bits. */
  lemma {:induction false} MachineIsExact(op: BinOp, a: int, b: int)
    requires InI64(a) && InI64(b)
    ensures Machine(op, a, b) ==
            var v := Exact(op, a, b); if v.Some? && InI64(v.value) then v else None
  {
    match op
    case ShlOp =>
      if 0 <= b < 64 {
        ShiftReadsBack(a, b);
        WrapIsExactInRange(a * Pow2(b));
      }
    case ShrOp => if 0 <= b < 64 { ShiftRightInRange(a, b); }
    case AddOp =>
    case SubOp =>
    case MulOp =>
    case DivOp =>
    case _ =>
      Pow2Of63();
      BitsAgree(BitOpOf(op), a, b, 63);
      WrapIsExactInRange(Bits(BitOpOf(op), a, b));
  }
}
