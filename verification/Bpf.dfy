// Classic BPF instructions, restricted to the canonical opcodes
// (pktbaffle/src/bpf.rs).

module Bpf {
  import opened Words

  datatype Size = SizeW | SizeH | SizeB

  function Bytes(s: Size): nat {
    match s
    case SizeW => 4
    case SizeH => 2
    case SizeB => 1
  }

  datatype Source = SrcK | SrcX

  datatype AluOp = Add | Sub | Mul | Div | Or | And | Lsh | Rsh | Neg | Xor

  datatype Cond = Jeq | Jgt | Jge | Jset

  datatype Insn =
    | LdAbs(size: Size, k: u32)
    | LdInd(size: Size, k: u32)
    | LdLen
    | LdImm(k: u32)
    | LdMem(k: u32)
    | LdxMsh(k: u32)
    | LdxImm(k: u32)
    | LdxMem(k: u32)
    | LdxLen
    | St(k: u32)
    | Stx(k: u32)
    | Alu(op: AluOp, src: Source, k: u32)
    | Ja(k: u32)
    | Jmp(cond: Cond, src: Source, k: u32, jt: u8, jf: u8)
    | RetK(k: u32)
    | RetA
    | Tax
    | Txa

  type Program = seq<Insn>

  const BPF_ACCEPT: u32 := 0xffff_ffff
  const BPF_DROP: u32 := 0

  /** True of the instructions after which control goes to the next one. */
  predicate Straight(i: Insn) {
    !i.Ja? && !i.Jmp? && !i.RetK? && !i.RetA?
  }

  /** Control may go from instruction `i` to index `t`. */
  predicate Edge(prog: Program, i: nat, t: nat) {
    && i < |prog|
    && match prog[i]
       case Ja(k) => t == i + 1 + k
       case Jmp(_, _, _, jt, jf) => t == i + 1 + jt || t == i + 1 + jf
       case RetK(_) => false
       case RetA => false
       case _ => t == i + 1
  }

  /** The targets of all edges out of `i`. */
  function Successors(prog: Program, i: nat): (s: seq<nat>)
    requires i < |prog|
    ensures forall t :: t in s <==> Edge(prog, i, t)
  {
    match prog[i]
    case Ja(k) => [i + 1 + k]
    case Jmp(_, _, _, jt, jf) => [i + 1 + jt, i + 1 + jf]
    case RetK(_) => []
    case RetA => []
    case _ => [i + 1]
  }

  /** Control never leaves the program except through a return. */
  ghost predicate InRange(prog: Program) {
    forall i: nat, t: nat :: Edge(prog, i, t) ==> t < |prog|
  }

  // ----- paths through the control-flow graph -----

  /** `path` runs from the entry to `t`; `t` itself may lie past the end. */
  ghost predicate IsPath(prog: Program, path: seq<nat>, t: nat)
    decreases |path|
  {
    && |path| > 0
    && path[|path| - 1] == t
    && if |path| == 1 then t == 0
       else Edge(prog, path[|path| - 2], t) && IsPath(prog, path[..|path| - 1], path[|path| - 2])
  }

  ghost predicate Reachable(prog: Program, t: nat) {
    exists path :: IsPath(prog, path, t)
  }

  lemma ExtendPath(prog: Program, path: seq<nat>, i: nat, t: nat)
    requires IsPath(prog, path, i) && Edge(prog, i, t)
    ensures IsPath(prog, path + [t], t)
  {
    assert (path + [t])[..|path|] == path;
  }

  lemma EntryReachable(prog: Program)
    ensures IsPath(prog, [0], 0) && Reachable(prog, 0)
  {
    assert IsPath(prog, [0], 0);
  }
}
