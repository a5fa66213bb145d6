// The optimizer as a whole, and the older standalone load de-duplication
// (pktbaffle/src/optimizer.rs:18-36, 229-289).

module Optimizer {
  import opened Words
  import opened Bpf
  import opened Vm
  import Threading
  import Dataflow
  import Removal

  /** The instructions `optimize` keeps. */
  ghost predicate KeepFlags(prog: Program, flow: Dataflow.Flow, keep: seq<bool>) {
    && Dataflow.Solves(prog, flow)
    && |keep| == |prog|
    && forall i :: 0 <= i < |prog| ==>
        (keep[i] <==> Reachable(prog, i) && !Dataflow.Redundant(prog, flow, i) && prog[i] != Ja(0))
  }

  /** A live instruction that is dropped only falls through. */
  lemma DroppedFallsThrough(prog: Program, flow: Dataflow.Flow, keep: seq<bool>, i: nat, t: nat)
    requires KeepFlags(prog, flow, keep) && i < |prog| && !keep[i] && Reachable(prog, i)
    ensures Edge(prog, i, t) <==> t == i + 1
    ensures Removal.NewIndex(keep, i + 1) == Removal.NewIndex(keep, i)
  {
  }

  /** A kept instruction sits at its new index with its edges moved along. */
  lemma KeptEdges(prog: Program, keep: seq<bool>, i: nat, t: nat)
    requires |keep| == |prog| && i < |prog| && keep[i] && Edge(prog, i, t)
    ensures var out := Removal.Compact(prog, keep, |prog|);
            Edge(out, Removal.NewIndex(keep, i), Removal.NewIndex(keep, t))
  {
    Removal.KeptAt(prog, keep, i);
    var out, at := Removal.Compact(prog, keep, |prog|), Removal.NewIndex(keep, i);
    EdgeMoves(prog, out, keep, i, at, t);
  }

  lemma EdgeMoves(prog: Program, out: Program, keep: seq<bool>, i: nat, at: nat, t: nat)
    requires Edge(prog, i, t) && at < |out|
    requires Removal.MovedInsn(prog[i], out[at], keep, i, at) && Removal.NewIndex(keep, i + 1) == at + 1
    ensures Edge(out, at, Removal.NewIndex(keep, t))
  {
  }

  function Moved(keep: seq<bool>, c: Config): Config {
    if c.Running? then Running(Removal.NewIndex(keep, c.pc), c.r) else c
  }

  /** At a kept instruction the compacted program takes the same step. */
  lemma KeptStep(prog: Program, keep: seq<bool>, pkt: Packet, pc: nat, r: Regs)
    requires |keep| == |prog| && pc < |prog| && keep[pc]
    ensures var out := Removal.Compact(prog, keep, |prog|);
            Next(out, pkt, Running(Removal.NewIndex(keep, pc), r)) == Moved(keep, Next(prog, pkt, Running(pc, r)))
  {
    Removal.KeptAt(prog, keep, pc);
    var out, at := Removal.Compact(prog, keep, |prog|), Removal.NewIndex(keep, pc);
    ActMoves(prog[pc], out[at], keep, pkt, pc, at, r);
  }

  lemma ActMoves(insn: Insn, now: Insn, keep: seq<bool>, pkt: Packet, pc: nat, at: nat, r: Regs)
    requires Removal.MovedInsn(insn, now, keep, pc, at) && Removal.NewIndex(keep, pc + 1) == at + 1
    ensures Act(now, pkt, at, r) == Moved(keep, Act(insn, pkt, pc, r))
  {
    if insn.Ja? || insn.Jmp? { JumpMoves(insn, now, keep, pc, at, r); } else { assert now == insn; }
  }

  lemma JumpMoves(insn: Insn, now: Insn, keep: seq<bool>, pc: nat, at: nat, r: Regs)
    requires Removal.MovedInsn(insn, now, keep, pc, at) && (insn.Ja? || insn.Jmp?)
    ensures (now.Ja? || now.Jmp?) && JumpTarget(now, at, r) == Removal.NewIndex(keep, JumpTarget(insn, pc, r))
  {
  }

  /** At a live dropped instruction the original steps without effect. */
  lemma DroppedStep(prog: Program, flow: Dataflow.Flow, keep: seq<bool>, pkt: Packet, pc: nat, r: Regs)
    requires KeepFlags(prog, flow, keep) && pc < |prog| && !keep[pc] && Reachable(prog, pc)
    requires flow[pc].Some? && Dataflow.Holds(flow[pc].value, pkt, r)
    ensures Next(prog, pkt, Running(pc, r)) == Running(pc + 1, r)
    ensures Removal.NewIndex(keep, pc + 1) == Removal.NewIndex(keep, pc)
  {
  }

  lemma ExecIsNext(prog: Program, pkt: Packet, pc: nat, r: Regs)
    ensures var c := Next(prog, pkt, Running(pc, r));
            Exec(prog, pkt, pc, r) == if c.Running? then Exec(prog, pkt, c.pc, c.r) else c.o
  {
  }

  /** Dropping what `optimize` drops changes no outcome, from any live point. */
  lemma {:induction false} RemovalPreservesExec(prog: Program, flow: Dataflow.Flow, keep: seq<bool>, pkt: Packet, pc: nat, r: Regs)
    requires KeepFlags(prog, flow, keep)
    requires pc < |prog| ==> flow[pc].Some? && Dataflow.Holds(flow[pc].value, pkt, r)
    ensures Exec(Removal.Compact(prog, keep, |prog|), pkt, Removal.NewIndex(keep, pc), r) == Exec(prog, pkt, pc, r)
    decreases |prog| - pc
  {
    if pc < |prog| {
      Dataflow.MarksAreExact(prog, flow, pc);
      var c := Next(prog, pkt, Running(pc, r));
      ExecIsNext(prog, pkt, pc, r);
      if keep[pc] {
        KeptStep(prog, keep, pkt, pc, r);
        ExecIsNext(Removal.Compact(prog, keep, |prog|), pkt, Removal.NewIndex(keep, pc), r);
      } else {
        DroppedStep(prog, flow, keep, pkt, pc, r);
      }
      if c.Running? {
        if c.pc < |prog| { Dataflow.StepFlows(prog, flow, pkt, pc, r, c.pc, c.r); }
        RemovalPreservesExec(prog, flow, keep, pkt, c.pc, c.r);
      }
    }
  }

  // ----- what remains is reachable and in range -----

  lemma {:induction false} ReachableAfterRemoval(prog: Program, flow: Dataflow.Flow, keep: seq<bool>, path: seq<nat>, t: nat)
    requires KeepFlags(prog, flow, keep) && IsPath(prog, path, t)
    ensures Reachable(Removal.Compact(prog, keep, |prog|), Removal.NewIndex(keep, t))
    decreases |path|
  {
    var out := Removal.Compact(prog, keep, |prog|);
    if |path| == 1 {
      EntryReachable(out);
    } else {
      var p := path[|path| - 2];
      assert IsPath(prog, path[..|path| - 1], p);
      ReachableAfterRemoval(prog, flow, keep, path[..|path| - 1], p);
      if keep[p] {
        KeptEdges(prog, keep, p, t);
        Removal.SuccessorsReachable(out, Removal.NewIndex(keep, p), Removal.NewIndex(keep, t));
      } else {
        DroppedFallsThrough(prog, flow, keep, p, t);
      }
    }
  }

  /** Every index of the compacted program is the new index of a kept one. */
  lemma {:induction false} CountHits(keep: seq<bool>, j: nat, n: nat) returns (i: nat)
    requires n <= |keep| && j < Count(keep, n)
    ensures i < n && keep[i] && Count(keep, i) == j
  {
    if j < Count(keep, n - 1) {
      i := CountHits(keep, j, n - 1);
    } else {
      i := n - 1;
    }
  }

  /** From a live point of an in-range program some kept instruction follows. */
  lemma {:induction false} KeptAhead(prog: Program, flow: Dataflow.Flow, keep: seq<bool>, t: nat)
    requires KeepFlags(prog, flow, keep) && InRange(prog) && t < |prog| && Reachable(prog, t)
    ensures Removal.NewIndex(keep, t) < Count(keep, |prog|)
    decreases |prog| - t
  {
    if keep[t] {
      Removal.CountMonotone(keep, t + 1, |prog|);
    } else {
      DroppedFallsThrough(prog, flow, keep, t, t + 1);
      Removal.SuccessorsReachable(prog, t, t + 1);
      KeptAhead(prog, flow, keep, t + 1);
    }
  }

  /** An edge of the compacted program comes from an edge of the original. */
  lemma EdgeBefore(prog: Program, keep: seq<bool>, i: nat, u: nat) returns (t: nat)
    requires |keep| == |prog| && i < |prog| && keep[i]
    requires Edge(Removal.Compact(prog, keep, |prog|), Removal.NewIndex(keep, i), u)
    ensures Edge(prog, i, t) && u == Removal.NewIndex(keep, t)
  {
    Removal.KeptAt(prog, keep, i);
    var insn := prog[i];
    if insn.Ja? {
      t := i + 1 + insn.k;
    } else if insn.Jmp? && u != Removal.NewIndex(keep, i + 1 + insn.jt) {
      t := i + 1 + insn.jf;
    } else {
      t := i + 1 + if insn.Jmp? then insn.jt else 0;
    }
  }

  lemma {:induction false} RemovalKeepsInRange(prog: Program, flow: Dataflow.Flow, keep: seq<bool>)
    requires KeepFlags(prog, flow, keep) && InRange(prog)
    ensures InRange(Removal.Compact(prog, keep, |prog|))
  {
    var out := Removal.Compact(prog, keep, |prog|);
    forall j: nat, u: nat | Edge(out, j, u) ensures u < |out| {
      var i := CountHits(keep, j, |prog|);
      var t := EdgeBefore(prog, keep, i, u);
      Removal.SuccessorsReachable(prog, i, t);
      KeptAhead(prog, flow, keep, t);
    }
  }

  lemma {:induction false} RemovalLeavesReachable(prog: Program, flow: Dataflow.Flow, keep: seq<bool>, j: nat)
    requires KeepFlags(prog, flow, keep) && j < Count(keep, |prog|)
    ensures Reachable(Removal.Compact(prog, keep, |prog|), j)
  {
    var i := CountHits(keep, j, |prog|);
    var path :| IsPath(prog, path, i);
    ReachableAfterRemoval(prog, flow, keep, path, i);
  }

  lemma {:induction false} ThreadingKeepsInRange(prog: Program)
    requires InRange(prog) && |prog| <= U32_SIZE
    ensures InRange(Threading.Threaded(prog))
  {
    var out := Threading.Threaded(prog);
    forall i: nat, u: nat | Edge(out, i, u) ensures u < |out| {
      if prog[i].Ja? {
        assert Edge(prog, i, i + 1 + prog[i].k);
        Threading.FinalTargetInRange(prog, i + 1 + prog[i].k);
      } else if prog[i].Jmp? {
        assert Edge(prog, i, i + 1 + prog[i].jt) && Edge(prog, i, i + 1 + prog[i].jf);
        Threading.FinalTargetInRange(prog, i + 1 + prog[i].jt);
        Threading.FinalTargetInRange(prog, i + 1 + prog[i].jf);
      } else {
        assert Edge(prog, i, u);
      }
    }
  }

  // ----- the optimizer -----

  /** `optimize`. On every program whose `ja` chains fit a 32-bit offset (every
      fully patched one does) no packet's outcome changes, faults included; the
      result is no longer, and every instruction left is reachable. */
  method Optimize(prog: Program) returns (out: Program)
    ensures Threading.ChainsFit(prog) ==> forall pkt :: Outcomes(out, pkt) == Outcomes(prog, pkt)
    ensures |out| <= |prog|
    ensures forall j :: 0 <= j < |out| ==> Reachable(out, j)
    ensures InRange(prog) && |prog| <= U32_SIZE ==> InRange(out)
  {
    var insns := new Insn[|prog|](i requires 0 <= i < |prog| => prog[i]);
    assert insns[..] == prog;
    Threading.ThreadJumps(insns);
    var threaded := insns[..];
    var redundant, flow := Dataflow.RedundantLoadMarks(threaded);
    var reachable := Removal.ReachableMarks(threaded);
    var keep := seq(|threaded|, i requires 0 <= i < |threaded| =>
                    reachable[i] && !redundant[i] && threaded[i] != Ja(0));
    out := Removal.RemoveUnkept(threaded, keep);
    forall pkt | Threading.ChainsFit(prog) ensures Outcomes(out, pkt) == Outcomes(prog, pkt) {
      PassesPreserveOutcomes(prog, flow, keep, out, pkt);
    }
    PassesLeaveReachable(threaded, flow, keep, out);
    PassesKeepInRange(prog, flow, keep, out);
  }

  lemma {:induction false} PassesLeaveReachable(prog: Program, flow: Dataflow.Flow, keep: seq<bool>, out: Program)
    requires KeepFlags(prog, flow, keep)
    requires out == if forall i :: 0 <= i < |keep| ==> keep[i] then prog else Removal.Compact(prog, keep, |prog|)
    ensures |out| <= |prog| && forall j :: 0 <= j < |out| ==> Reachable(out, j)
  {
    forall j | 0 <= j < |out| ensures Reachable(out, j) {
      if forall i :: 0 <= i < |keep| ==> keep[i] {
        assert keep[j];
      } else {
        RemovalLeavesReachable(prog, flow, keep, j);
      }
    }
  }

  lemma {:induction false} PassesKeepInRange(prog: Program, flow: Dataflow.Flow, keep: seq<bool>, out: Program)
    requires var threaded := Threading.Threaded(prog);
             && KeepFlags(threaded, flow, keep)
             && (out == threaded || out == Removal.Compact(threaded, keep, |threaded|))
    ensures InRange(prog) && |prog| <= U32_SIZE ==> InRange(out)
  {
    if InRange(prog) && |prog| <= U32_SIZE {
      ThreadingKeepsInRange(prog);
      RemovalKeepsInRange(Threading.Threaded(prog), flow, keep);
    }
  }

  lemma {:induction false} PassesPreserveOutcomes(prog: Program, flow: Dataflow.Flow, keep: seq<bool>, out: Program, pkt: Packet)
    requires Threading.ChainsFit(prog)
    requires var threaded := Threading.Threaded(prog);
             && KeepFlags(threaded, flow, keep)
             && (out == threaded || out == Removal.Compact(threaded, keep, |threaded|))
    ensures Outcomes(out, pkt) == Outcomes(prog, pkt)
  {
    Threading.ThreadingPreservesExec(prog, pkt, 0, INITIAL_REGS);
    RemovalPreservesExec(Threading.Threaded(prog), flow, keep, pkt, 0, INITIAL_REGS);
  }

  // ----- the standalone `dedup_loads` -----

  /** One jump offset after the instruction at `gone` is removed. */
  function ShrunkOffset(src: nat, off: nat, gone: nat): nat {
    if src < gone && src + 1 + off >= gone && off > 0 then off - 1 else off
  }

  /** `adjust_jumps` on one instruction: its `ja` case has no zero test. */
  function Adjusted(insn: Insn, src: nat, gone: nat): Insn
    requires insn.Ja? && src < gone && src + 1 + insn.k >= gone ==> insn.k > 0
  {
    match insn
    case Ja(k) => Ja(ShrunkOffset(src, k, gone))
    case Jmp(cond, s, k, jt, jf) => Jmp(cond, s, k, ShrunkOffset(src, jt, gone), ShrunkOffset(src, jf, gone))
    case _ => insn
  }

  /** The program with the second of two adjacent equal loads removed. */
  function WithoutDuplicate(prog: Program, i: nat): (p: Program)
    requires i + 1 < |prog| && prog[i].LdAbs? && prog[i] == prog[i + 1]
    ensures |p| == |prog| - 1
  {
    seq(|prog| - 1, j requires 0 <= j < |prog| - 1 =>
      if j <= i then Adjusted(prog[j], j, i + 1) else Adjusted(prog[j + 1], j, i + 1))
  }

  /** Where control at old index `pc` continues: a jump onto the removed load
      now lands on its twin. */
  function AfterRemoval(i: nat, pc: nat): nat {
    if pc <= i then pc else pc - 1
  }

  function Shifted(i: nat, c: Config): Config {
    if c.Running? then Running(AfterRemoval(i, c.pc), c.r) else c
  }

  lemma AfterRemovalAt(prog: Program, i: nat, pc: nat)
    requires i + 1 < |prog| && prog[i].LdAbs? && prog[i] == prog[i + 1] && pc < |prog|
    ensures AfterRemoval(i, pc) < |prog| - 1
    ensures WithoutDuplicate(prog, i)[AfterRemoval(i, pc)] == Adjusted(prog[pc], AfterRemoval(i, pc), i + 1)
  {
    var at := AfterRemoval(i, pc);
    if pc > i + 1 { assert WithoutDuplicate(prog, i)[at] == Adjusted(prog[at + 1], at, i + 1); }
  }

  lemma AdjustedTarget(insn: Insn, i: nat, pc: nat, r: Regs)
    requires (insn.Ja? || insn.Jmp?) && pc != i && pc != i + 1
    ensures var at := AfterRemoval(i, pc);
            JumpTarget(Adjusted(insn, at, i + 1), at, r) == AfterRemoval(i, JumpTarget(insn, pc, r))
  {
  }

  lemma DuplicateStep(prog: Program, i: nat, pkt: Packet, pc: nat, r: Regs)
    requires i + 1 < |prog| && prog[i].LdAbs? && prog[i] == prog[i + 1]
    requires pc < |prog| && pc != i
    ensures Next(WithoutDuplicate(prog, i), pkt, Running(AfterRemoval(i, pc), r))
            == Shifted(i, Next(prog, pkt, Running(pc, r)))
  {
    var out, at := WithoutDuplicate(prog, i), AfterRemoval(i, pc);
    AfterRemovalAt(prog, i, pc);
    if prog[pc].Ja? || prog[pc].Jmp? {
      AdjustedTarget(prog[pc], i, pc, r);
    } else {
      assert out[at] == prog[pc];
    }
  }

  lemma {:induction false} DuplicateRemovalPreservesExec(prog: Program, i: nat, pkt: Packet, pc: nat, r: Regs)
    requires i + 1 < |prog| && prog[i].LdAbs? && prog[i] == prog[i + 1]
    ensures Exec(WithoutDuplicate(prog, i), pkt, AfterRemoval(i, pc), r) == Exec(prog, pkt, pc, r)
    decreases |prog| - pc
  {
    var out := WithoutDuplicate(prog, i);
    if pc < |prog| {
      var c := Next(prog, pkt, Running(pc, r));
      ExecIsNext(prog, pkt, pc, r);
      ExecIsNext(out, pkt, AfterRemoval(i, pc), r);
      if pc == i {
        assert out[i] == prog[i];
        if c.Running? {
          ExecIsNext(prog, pkt, i + 1, c.r);
          DuplicateRemovalPreservesExec(prog, i, pkt, i + 2, c.r);
        }
      } else {
        DuplicateStep(prog, i, pkt, pc, r);
        if c.Running? { DuplicateRemovalPreservesExec(prog, i, pkt, c.pc, c.r); }
      }
    }
  }

  /** `dedup_loads`: no program's outcome changes on any packet, and no two
      adjacent equal absolute loads remain. */
  method DedupLoads(prog: Program) returns (out: Program)
    ensures forall pkt :: Outcomes(out, pkt) == Outcomes(prog, pkt)
    ensures forall j :: 0 <= j && j + 1 < |out| ==> !(out[j].LdAbs? && out[j] == out[j + 1])
    ensures |out| <= |prog|
  {
    out := prog;
    var i := 0;
    while i + 1 < |out|
      invariant forall pkt :: Outcomes(out, pkt) == Outcomes(prog, pkt)
      invariant 0 <= i && |out| <= |prog|
      invariant forall j :: 0 <= j < i && j + 1 < |out| ==> !(out[j].LdAbs? && out[j] == out[j + 1])
      decreases |out| - i
    {
      if out[i].LdAbs? && out[i] == out[i + 1] {
        forall pkt ensures Outcomes(WithoutDuplicate(out, i), pkt) == Outcomes(out, pkt) {
          DuplicateRemovalPreservesExec(out, i, pkt, 0, INITIAL_REGS);
        }
        out := WithoutDuplicate(out, i);
      } else {
        i := i + 1;
      }
    }
  }
}
