// Pass 1 of the optimizer: jump threading (pktbaffle/src/optimizer.rs:60-93).

module Threading {
  import opened Words
  import opened Bpf
  import opened Vm

  /** The first index that is not a `ja` on the chain starting at `t`. */
  function FinalTarget(prog: Program, t: nat): (f: nat)
    ensures f >= t
    decreases |prog| - t
  {
    if t < |prog| && prog[t].Ja? then FinalTarget(prog, t + 1 + prog[t].k) else t
  }

  /** The retargeted 8-bit offset, or the old one if the new one does not fit. */
  function ThreadOffset(prog: Program, i: nat, was: u8): u8 {
    var off := FinalTarget(prog, i + 1 + was) - i - 1;
    if off < 0x100 then off else was
  }

  function ThreadInsn(prog: Program, i: nat): Insn
    requires i < |prog|
  {
    match prog[i]
    case Ja(k) => Ja((FinalTarget(prog, i + 1 + k) - i - 1) % U32_SIZE)
    case Jmp(cond, src, k, jt, jf) =>
      Jmp(cond, src, k, ThreadOffset(prog, i, jt), ThreadOffset(prog, i, jf))
    case insn => insn
  }

  function Threaded(prog: Program): (p: Program)
    ensures |p| == |prog|
  {
    seq(|prog|, i requires 0 <= i < |prog| => ThreadInsn(prog, i))
  }

  /** No `ja` chain is longer than a 32-bit offset can express. */
  ghost predicate ChainsFit(prog: Program) {
    forall i :: 0 <= i < |prog| && prog[i].Ja? ==> FinalTarget(prog, i) - i - 1 < U32_SIZE
  }

  lemma {:induction false} FinalTargetInRange(prog: Program, t: nat)
    requires InRange(prog) && t < |prog|
    ensures FinalTarget(prog, t) < |prog|
    decreases |prog| - t
  {
    if prog[t].Ja? {
      assert Edge(prog, t, t + 1 + prog[t].k);
      FinalTargetInRange(prog, t + 1 + prog[t].k);
    }
  }

  /** A fully patched program of at most 2^32 instructions meets the condition. */
  lemma {:induction false} InRangeChainsFit(prog: Program)
    requires InRange(prog) && |prog| <= U32_SIZE
    ensures ChainsFit(prog)
  {
    forall i | 0 <= i < |prog| && prog[i].Ja?
      ensures FinalTarget(prog, i) - i - 1 < U32_SIZE
    {
      FinalTargetInRange(prog, i);
    }
  }

  /** The first loop of `thread_jumps`: `fin`, filled back to front. */
  method FinalTargets(insns: array<Insn>) returns (fin: seq<nat>)
    ensures |fin| == insns.Length
    ensures forall j :: 0 <= j < |fin| ==> fin[j] == FinalTarget(insns[..], j)
  {
    var n := insns.Length;
    ghost var prog := insns[..];
    var a := new nat[n](i => i);
    var i := n;
    while i > 0
      invariant 0 <= i <= n
      invariant forall j :: 0 <= j < i ==> a[j] == j
      invariant forall j :: i <= j < n ==> a[j] == FinalTarget(prog, j)
    {
      i := i - 1;
      if insns[i].Ja? {
        var t := i + 1 + insns[i].k;
        a[i] := if t < n then a[t] else t;
      }
    }
    return a[..];
  }

  /** `final_target` as the second loop reads it off the table. */
  function Lookup(fin: seq<nat>, t: nat): nat {
    if t < |fin| then fin[t] else t
  }

  function RetargetOffset(fin: seq<nat>, i: nat, was: u8): u8 {
    var off := Lookup(fin, i + 1 + was) - i - 1;
    if 0 <= off < 0x100 then off else was
  }

  function Retarget(fin: seq<nat>, i: nat, insn: Insn): Insn {
    match insn
    case Ja(k) => Ja((Lookup(fin, i + 1 + k) - i - 1) % U32_SIZE)
    case Jmp(cond, src, k, jt, jf) =>
      Jmp(cond, src, k, RetargetOffset(fin, i, jt), RetargetOffset(fin, i, jf))
    case _ => insn
  }

  lemma RetargetThreads(prog: Program, fin: seq<nat>, i: nat)
    requires i < |prog| && |fin| == |prog|
    requires forall j :: 0 <= j < |fin| ==> fin[j] == FinalTarget(prog, j)
    ensures Retarget(fin, i, prog[i]) == ThreadInsn(prog, i)
  {
    if prog[i].Ja? {
      LookupIsFinal(prog, fin, i + 1 + prog[i].k);
    } else if prog[i].Jmp? {
      OffsetThreads(prog, fin, i, prog[i].jt);
      OffsetThreads(prog, fin, i, prog[i].jf);
    }
    RetargetBy(prog, fin, i);
  }

  lemma RetargetBy(prog: Program, fin: seq<nat>, i: nat)
    requires i < |prog|
    requires prog[i].Ja? ==> Lookup(fin, i + 1 + prog[i].k) == FinalTarget(prog, i + 1 + prog[i].k)
    requires prog[i].Jmp? ==>
             && RetargetOffset(fin, i, prog[i].jt) == ThreadOffset(prog, i, prog[i].jt)
             && RetargetOffset(fin, i, prog[i].jf) == ThreadOffset(prog, i, prog[i].jf)
    ensures Retarget(fin, i, prog[i]) == ThreadInsn(prog, i)
  {
  }

  lemma OffsetThreads(prog: Program, fin: seq<nat>, i: nat, was: u8)
    requires i < |prog| && |fin| == |prog|
    requires forall j :: 0 <= j < |fin| ==> fin[j] == FinalTarget(prog, j)
    ensures RetargetOffset(fin, i, was) == ThreadOffset(prog, i, was)
  {
    LookupIsFinal(prog, fin, i + 1 + was);
  }

  lemma LookupIsFinal(prog: Program, fin: seq<nat>, t: nat)
    requires |fin| == |prog| && forall j :: 0 <= j < |fin| ==> fin[j] == FinalTarget(prog, j)
    ensures Lookup(fin, t) == FinalTarget(prog, t)
  {
  }

  /** `thread_jumps`, in place. */
  method ThreadJumps(insns: array<Insn>)
    modifies insns
    ensures insns[..] == Threaded(old(insns[..]))
  {
    ghost var prog := insns[..];
    var fin := FinalTargets(insns);
    for i := 0 to insns.Length
      invariant forall j :: 0 <= j < i ==> insns[j] == ThreadInsn(prog, j)
      invariant forall j :: i <= j < insns.Length ==> insns[j] == prog[j]
    {
      RetargetThreads(prog, fin, i);
      insns[i] := Retarget(fin, i, insns[i]);
    }
  }

  lemma {:induction false} ExecThroughChain(prog: Program, pkt: Packet, t: nat, r: Regs)
    ensures Exec(prog, pkt, t, r) == Exec(prog, pkt, FinalTarget(prog, t), r)
    decreases |prog| - t
  {
    if t < |prog| && prog[t].Ja? {
      ExecThroughChain(prog, pkt, t + 1 + prog[t].k, r);
    }
  }

  /** Threading changes no outcome, from any program point. */
  lemma {:induction false} ThreadingPreservesExec(prog: Program, pkt: Packet, pc: nat, r: Regs)
    requires ChainsFit(prog)
    ensures Exec(Threaded(prog), pkt, pc, r) == Exec(prog, pkt, pc, r)
    decreases |prog| - pc
  {
    if pc < |prog| {
      var i := prog[pc];
      var i' := Threaded(prog)[pc];
      if Straight(i) {
        var r' := Step(i, pkt, r);
        if r'.Some? { ThreadingPreservesExec(prog, pkt, pc + 1, r'.value); }
      } else if i.Ja? || i.Jmp? {
        var t := JumpTarget(i, pc, r);
        var t' := JumpTarget(i', pc, r);
        if i.Ja? {
          assert FinalTarget(prog, pc) == FinalTarget(prog, t);
        }
        assert t' == FinalTarget(prog, t) || t' == t;
        ExecThroughChain(prog, pkt, t, r);
        ThreadingPreservesExec(prog, pkt, t', r);
      }
    }
  }

  /** Outside the documented domain a `ja` chain can wrap round: the first
      program faults and the threaded one accepts. */
  lemma UnpatchedChainsCanWrap(pkt: Packet)
    ensures var prog := [Ja(1), RetK(BPF_ACCEPT), Ja(0xffff_fffe)];
            !Accepts(prog, pkt) && Accepts(Threaded(prog), pkt)
  {
    var prog := [Ja(1), RetK(BPF_ACCEPT), Ja(0xffff_fffe)];
    assert FinalTarget(prog, 0x1_0000_0001) == 0x1_0000_0001;
    assert FinalTarget(prog, 2) == 0x1_0000_0001;
    assert Threaded(prog)[0] == Ja(0);
    assert Exec(Threaded(prog), pkt, 1, INITIAL_REGS) == Verdict(true);
    assert Exec(prog, pkt, 2, INITIAL_REGS) == Fault;
  }
}
