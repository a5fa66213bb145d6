// The eBPF instructions the XDP back end emits and what they do, after
// RFC 9669 sections 4.2 (byte swap), 4.3 (jumps) and 5 (loads)
// (pktbaffle/src/ebpf.rs).

module EbpfVm {
  import opened Words
  import Bpf
  import Vm

  const U64_SIZE: nat := 0x1_0000_0000_0000_0000

  type u64 = x: nat | x < U64_SIZE

  datatype Reg = R0 | R2 | R3 | R4 | R5 | R6

  /** Registers; `None` has not been written yet. */
  datatype Regs = Regs(r0: Option<u64>, r2: Option<u64>, r3: Option<u64>, r4: Option<u64>, r5: Option<u64>, r6: Option<u64>)

  const NO_REGS: Regs := Regs(None, None, None, None, None, None)

  function Get(r: Regs, x: Reg): Option<u64> {
    match x
    case R0 => r.r0
    case R2 => r.r2
    case R3 => r.r3
    case R4 => r.r4
    case R5 => r.r5
    case R6 => r.r6
  }

  function Set(r: Regs, x: Reg, v: u64): Regs {
    match x
    case R0 => r.(r0 := Some(v))
    case R2 => r.(r2 := Some(v))
    case R3 => r.(r3 := Some(v))
    case R4 => r.(r4 := Some(v))
    case R5 => r.(r5 := Some(v))
    case R6 => r.(r6 := Some(v))
  }

  /** The packet sits at address `data`; the host has either byte order. */
  datatype Env = Env(pkt: Packet, data: nat, little: bool)

  function End(env: Env): nat { env.data + |env.pkt| }

  /** A packet below 4 GiB with 2 GiB and 64 KiB of addresses behind it. */
  predicate Sensible(env: Env) { |env.pkt| < U32_SIZE && End(env) + 0x8001_0000 < U64_SIZE }

  datatype Cond = Jeq | Jne | Jgt | Jge | Jlt | Jle | Jset

  /** Instructions that fall through. Immediates are the low 32 bits of the
      field, offsets are signed. */
  datatype Insn =
    | LdCtx(dst: Reg, end: bool)
    | Mov(dst: Reg, src: Reg)
    | MovImm(dst: Reg, imm: u32)
    | AddImm(dst: Reg, imm: u32)
    | AddReg(dst: Reg, src: Reg)
    | SubReg(dst: Reg, src: Reg)
    | Alu32(op: Bpf.AluOp, dst: Reg, imm: u32)
    | ToBe(dst: Reg, size: Bpf.Size)
    | Ldx(size: Bpf.Size, dst: Reg, src: Reg, off: int)

  /** Conditions of jumps. */
  datatype Test = Always | Imm(c: Cond, dst: Reg, imm: u32) | RegGt(dst: Reg, src: Reg)

  /** 32-bit immediates are sign-extended to 64 bits. */
  function SignExtend(v: u32): u64 { if v < 0x8000_0000 then v else v + U64_SIZE - U32_SIZE }

  function Add64(a: u64, b: int): u64 { if 0 <= a + b < U64_SIZE then a + b else (a + b) % U64_SIZE }

  /** Bytes in memory order, read in the host's byte order. */
  function HostLoad(env: Env, at: nat, size: Bpf.Size): u32
    requires at + Bpf.Bytes(size) <= |env.pkt|
  {
    var p := env.pkt;
    match size
    case SizeB => p[at]
    case SizeH => if env.little then Be16(p[at + 1], p[at]) else Be16(p[at], p[at + 1])
    case SizeW =>
      if env.little then Be32(p[at + 3], p[at + 2], p[at + 1], p[at]) else Be32(p[at], p[at + 1], p[at + 2], p[at + 3])
  }

  /** `BPF_END` to big-endian: swap on a little-endian host, truncate always. */
  function Swap(env: Env, v: u64, size: Bpf.Size): u32 {
    match size
    case SizeB => v % 0x100
    case SizeH => if env.little then SwapHalf(v % 0x1_0000) else v % 0x1_0000
    case SizeW => if env.little then SwapWord(v % U32_SIZE) else v % U32_SIZE
  }

  function SwapHalf(h: u16): u32 { Be16(h % 0x100, h / 0x100) }

  function SwapWord(w: u32): u32 {
    Be32(w % 0x100, w / 0x100 % 0x100, w / 0x1_0000 % 0x100, w / 0x100_0000)
  }

  /** One instruction; `None` on a read of an unwritten register or of memory
      outside the packet. */
  function Step(i: Insn, env: Env, r: Regs): Option<Regs> {
    match i
    case LdCtx(dst, end) =>
      var p := if end then End(env) else env.data;
      if p < U64_SIZE then Some(Set(r, dst, p)) else None
    case Mov(dst, src) => if Get(r, src).None? then None else Some(Set(r, dst, Get(r, src).value))
    case MovImm(dst, imm) => Some(Set(r, dst, SignExtend(imm)))
    case AddImm(dst, imm) =>
      if Get(r, dst).None? then None else Some(Set(r, dst, Add64(Get(r, dst).value, SignExtend(imm))))
    case AddReg(dst, src) =>
      if Get(r, dst).None? || Get(r, src).None? then None
      else Some(Set(r, dst, Add64(Get(r, dst).value, Get(r, src).value)))
    case SubReg(dst, src) =>
      if Get(r, dst).None? || Get(r, src).None? then None
      else Some(Set(r, dst, Add64(Get(r, dst).value, -(Get(r, src).value as int))))
    case Alu32(op, dst, imm) =>
      if Get(r, dst).None? then None
      else
        var v := Vm.AluResult(op, Get(r, dst).value % U32_SIZE, imm);
        if v.None? then None else Some(Set(r, dst, v.value))
    case ToBe(dst, size) => if Get(r, dst).None? then None else Some(Set(r, dst, Swap(env, Get(r, dst).value, size)))
    case Ldx(size, dst, src, off) =>
      if Get(r, src).None? then None
      else
        var a := Add64(Get(r, src).value, off);
        if env.data <= a && a + Bpf.Bytes(size) <= End(env) then Some(Set(r, dst, HostLoad(env, a - env.data, size))) else None
  }

  predicate Compares64(c: Cond, a: u64, v: u64) {
    match c
    case Jeq => a == v
    case Jne => a != v
    case Jgt => a > v
    case Jge => a >= v
    case Jlt => a < v
    case Jle => a <= v
    case Jset => Bitwise(AndBits, a, v, 64) != 0
  }

  /** Whether a jump is taken; `None` on a read of an unwritten register. */
  function Taken(t: Test, r: Regs): Option<bool> {
    match t
    case Always => Some(true)
    case Imm(c, dst, imm) => if Get(r, dst).None? then None else Some(Compares64(c, Get(r, dst).value, SignExtend(imm)))
    case RegGt(dst, src) =>
      if Get(r, dst).None? || Get(r, src).None? then None else Some(Get(r, dst).value > Get(r, src).value)
  }

  lemma Split8(q: nat, r: nat)
    requires r < 0x100
    ensures (0x100 * q + r) % 0x100 == r && (0x100 * q + r) / 0x100 == q
  {
  }

  lemma Split16(q: nat, r: nat)
    requires r < 0x1_0000
    ensures (0x1_0000 * q + r) / 0x1_0000 == q
  {
  }

  lemma Split24(q: nat, r: nat)
    requires r < 0x100_0000
    ensures (0x100_0000 * q + r) / 0x100_0000 == q
  {
  }

  lemma WordBytes(a: u8, b: u8, c: u8, d: u8)
    ensures var w := Be32(d, c, b, a);
            && w % 0x100 == a && w / 0x100 % 0x100 == b
            && w / 0x1_0000 % 0x100 == c && w / 0x100_0000 == d
  {
    var w: nat, half: nat := Be32(d, c, b, a), 0x100 * d + c;
    var low: nat := 0x100 * half + b;
    assert w == 0x100 * low + a && w == 0x1_0000 * half + (0x100 * b + a) && w == 0x100_0000 * d + (0x1_0000 * c + 0x100 * b + a);
    Split8(low, a);
    Split8(half, b);
    Split8(d, c);
    Split16(half, 0x100 * b + a);
    Split24(d, 0x1_0000 * c + 0x100 * b + a);
  }

  lemma Truncates(w: u32)
    ensures w % U32_SIZE == w
  {
  }

  lemma SwapWordOf(w: u32, a: u8, b: u8, c: u8, d: u8)
    requires w % 0x100 == a && w / 0x100 % 0x100 == b && w / 0x1_0000 % 0x100 == c && w / 0x100_0000 == d
    ensures SwapWord(w) == Be32(a, b, c, d)
  {
  }

  lemma SwapHalfBytes(env: Env, a: u8, b: u8)
    ensures Swap(env, if env.little then Be16(b, a) else Be16(a, b), Bpf.SizeH) == Be16(a, b)
  {
    assert Be16(b, a) % 0x100 == a && Be16(b, a) / 0x100 == b;
  }

  /** A host-order load followed by the swap reads network order on any host. */
  lemma LoadThenSwap(env: Env, at: nat, size: Bpf.Size)
    requires at + Bpf.Bytes(size) <= |env.pkt| && at < U32_SIZE
    ensures Some(Swap(env, HostLoad(env, at, size), size)) == Vm.SizedLoad(env.pkt, at, size)
  {
    match size
    case SizeB =>
    case SizeH => SwapHalfBytes(env, env.pkt[at], env.pkt[at + 1]);
    case SizeW =>
      var a, b, c, d := env.pkt[at], env.pkt[at + 1], env.pkt[at + 2], env.pkt[at + 3];
      WordBytes(a, b, c, d);
      SwapWordOf(Be32(d, c, b, a), a, b, c, d);
      Truncates(Be32(d, c, b, a));
      Truncates(Be32(a, b, c, d));
  }

  // ----- whole programs -----

  datatype Code = Do(i: Insn) | Jump(t: Test, off: nat) | Exit

  type Program = seq<Code>

  datatype Outcome = Crash | Returned(v: u64)

  /** Jumps only go forward. Running off the end is a crash. */
  function Exec(prog: Program, env: Env, pc: nat, r: Regs): Outcome
    decreases |prog| - pc
  {
    if pc >= |prog| then Crash
    else match prog[pc]
      case Do(i) => var r' := Step(i, env, r); if r'.None? then Crash else Exec(prog, env, pc + 1, r'.value)
      case Jump(t, off) =>
        var b := Taken(t, r);
        if b.None? then Crash else Exec(prog, env, pc + 1 + (if b.value then off else 0), r)
      case Exit => if r.r0.None? then Crash else Returned(r.r0.value)
  }
}
