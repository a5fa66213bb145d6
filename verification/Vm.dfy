// The software interpreter (pktbaffle/src/vm.rs).

module Vm {
  import opened Words
  import opened Bpf

  const SCRATCH: nat := 16

  const ZEROES: seq<u32> := [0, 0, 0, 0, 0, 0, 0, 0, 0, 0, 0, 0, 0, 0, 0, 0]

  type Scratch = s: seq<u32> | |s| == SCRATCH witness ZEROES

  /** The registers: accumulator, index register, scratch memory. */
  datatype Regs = Regs(a: u32, x: u32, m: Scratch)

  const INITIAL_REGS: Regs := Regs(0, 0, ZEROES)

  /** `inner` returns `None` on a fault and `Some(accepted)` on a return. */
  datatype Outcome = Fault | Verdict(accept: bool)

  /** Big-endian packet load; `None` when any byte lies past the end. */
  function SizedLoad(pkt: Packet, off: u32, size: Size): Option<u32> {
    if off + Bytes(size) > |pkt| then None
    else match size
      case SizeW => Some(Be32(pkt[off], pkt[off + 1], pkt[off + 2], pkt[off + 3]))
      case SizeH => Some(Be16(pkt[off], pkt[off + 1]))
      case SizeB => Some(pkt[off])
  }

  /** `ldxb 4*([k]&0xf)`: the IPv4 header length in bytes. */
  function MshLoad(pkt: Packet, k: u32): (r: Option<u32>)
    ensures r.Some? <==> k < |pkt|
    ensures r.Some? ==> r.value <= 60
  {
    if k < |pkt| then Some(4 * (pkt[k] % 16)) else None
  }

  function Operand(src: Source, k: u32, x: u32): u32 {
    if src.SrcX? then x else k
  }

  function AluResult(op: AluOp, a: u32, v: u32): Option<u32> {
    match op
    case Add => Some(Add32(a, v))
    case Sub => Some(Sub32(a, v))
    case Mul => Some(Mul32(a, v))
    case Div => if v == 0 then None else Some(Div32(a, v))
    case Or => Some(Bitwise32(OrBits, a, v))
    case And => Some(BitAnd(a, v))
    case Lsh => Some(ShiftLeft(a, v))
    case Rsh => Some(ShiftRight(a, v))
    case Neg => Some(Sub32(0, a))
    case Xor => Some(Bitwise32(XorBits, a, v))
  }

  predicate Taken(cond: Cond, a: u32, v: u32) {
    match cond
    case Jeq => a == v
    case Jgt => a > v
    case Jge => a >= v
    case Jset => BitAnd(a, v) != 0
  }

  function WithA(r: Regs, v: Option<u32>): Option<Regs> {
    if v.Some? then Some(r.(a := v.value)) else None
  }

  function WithX(r: Regs, v: Option<u32>): Option<Regs> {
    if v.Some? then Some(r.(x := v.value)) else None
  }

  function ScratchAt(r: Regs, k: u32): Option<u32> {
    if k < SCRATCH then Some(r.m[k]) else None
  }

  /** The effect of an instruction that neither jumps nor returns. */
  function Step(i: Insn, pkt: Packet, r: Regs): Option<Regs>
    requires Straight(i)
  {
    match i
    case LdAbs(size, k) => WithA(r, SizedLoad(pkt, k, size))
    case LdInd(size, k) => WithA(r, SizedLoad(pkt, Add32(r.x, k), size))
    case LdLen => WithA(r, Some(|pkt| % U32_SIZE))
    case LdImm(k) => WithA(r, Some(k))
    case LdMem(k) => WithA(r, ScratchAt(r, k))
    case LdxMsh(k) => WithX(r, MshLoad(pkt, k))
    case LdxImm(k) => WithX(r, Some(k))
    case LdxMem(k) => WithX(r, ScratchAt(r, k))
    case LdxLen => WithX(r, Some(|pkt| % U32_SIZE))
    case St(k) => if k < SCRATCH then Some(r.(m := r.m[k := r.a])) else None
    case Stx(k) => if k < SCRATCH then Some(r.(m := r.m[k := r.x])) else None
    case Alu(op, src, k) => WithA(r, AluResult(op, r.a, Operand(src, k, r.x)))
    case Tax => Some(r.(x := r.a))
    case Txa => Some(r.(a := r.x))
  }

  /** Where a jump at `pc` goes. */
  function JumpTarget(i: Insn, pc: nat, r: Regs): (t: nat)
    requires i.Ja? || i.Jmp?
    ensures t > pc
  {
    match i
    case Ja(k) => pc + 1 + k
    case Jmp(cond, src, k, jt, jf) =>
      pc + 1 + if Taken(cond, r.a, Operand(src, k, r.x)) then jt else jf
  }

  function ReturnValue(i: Insn, r: Regs): u32
    requires i.RetK? || i.RetA?
  {
    if i.RetK? then i.k else r.a
  }

  /** The outcome of running `prog` from `pc`: jumps only go forward. */
  function Exec(prog: Program, pkt: Packet, pc: nat, r: Regs): Outcome
    decreases |prog| - pc
  {
    if pc >= |prog| then Fault
    else
      var i := prog[pc];
      if Straight(i) then
        var r' := Step(i, pkt, r);
        if r'.None? then Fault else Exec(prog, pkt, pc + 1, r'.value)
      else if i.Ja? || i.Jmp? then Exec(prog, pkt, JumpTarget(i, pc, r), r)
      else Verdict(ReturnValue(i, r) != 0)
  }

  function Outcomes(prog: Program, pkt: Packet): Outcome {
    Exec(prog, pkt, 0, INITIAL_REGS)
  }

  /** `run`: a fault drops the packet. */
  predicate Accepts(prog: Program, pkt: Packet) {
    Outcomes(prog, pkt) == Verdict(true)
  }

  /** `inner`: the interpreter loop. */
  method Inner(prog: Program, pkt: Packet) returns (o: Outcome)
    ensures o == Outcomes(prog, pkt)
  {
    var r := INITIAL_REGS;
    var pc := 0;
    while pc < |prog|
      invariant Exec(prog, pkt, pc, r) == Outcomes(prog, pkt)
    {
      var i := prog[pc];
      if Straight(i) {
        var r' := Step(i, pkt, r);
        if r'.None? { return Fault; }
        r := r'.value;
        pc := pc + 1;
      } else if i.Ja? || i.Jmp? {
        pc := JumpTarget(i, pc, r);
      } else {
        return Verdict(ReturnValue(i, r) != 0);
      }
    }
    return Fault;
  }

  // ----- whole runs, configuration by configuration -----

  datatype Config = Running(pc: nat, r: Regs) | Halted(o: Outcome)

  function Next(prog: Program, pkt: Packet, c: Config): Config {
    if c.Halted? then c
    else if c.pc >= |prog| then Halted(Fault)
    else Act(prog[c.pc], pkt, c.pc, c.r)
  }

  /** What the instruction at `pc` does. */
  function Act(i: Insn, pkt: Packet, pc: nat, r: Regs): Config {
    if Straight(i) then
      var r' := Step(i, pkt, r);
      if r'.None? then Halted(Fault) else Running(pc + 1, r'.value)
    else if i.Ja? || i.Jmp? then Running(JumpTarget(i, pc, r), r)
    else Halted(Verdict(ReturnValue(i, r) != 0))
  }

  /** The configuration `n` steps into the run of `prog` on `pkt`. */
  function After(prog: Program, pkt: Packet, n: nat): Config {
    if n == 0 then Running(0, INITIAL_REGS) else Next(prog, pkt, After(prog, pkt, n - 1))
  }
}
