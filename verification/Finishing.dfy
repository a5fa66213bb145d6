// The finished program (pktbaffle/src/codegen.rs:1682-1696): its jumps are in
// range, and it runs as its symbolic code does.

module Finishing {
  import opened Words
  import opened Results
  import opened Bpf
  import opened Vm
  import opened Ast
  import opened Meaning
  import opened Fragments
  import opened Emission
  import opened Backpatch
  import opened ShapeProofs
  import opened PatchProofs
  import opened BuildProofs

  /** `prog` is the code `f` with its success and failure slots leading to the
      two returns behind it. */
  ghost predicate Finished(prog: Program, f: Frag) {
    && |prog| == |f| + 2 && prog[|f|] == RetK(BPF_ACCEPT) && prog[|f| + 1] == RetK(BPF_DROP)
    && Represents(prog, 0, Link(f, At(|f|), At(|f| + 1)))
  }

  lemma {:induction false} LinkTwice(f: Frag, s: nat, t: nat)
    requires s >= |f| && t >= |f|
    ensures Link(Link(f, At(s), Pending(ToFail)), Pending(ToSucc), At(t)) == Link(f, At(s), At(t))
  {
  }

  lemma {:induction false} ListsLinked(ps: seq<Patch>, f: Frag, s: nat)
    requires Lists(ps, f, 0, ToFail) && s >= |f|
    ensures Lists(ps, Link(f, At(s), Pending(ToFail)), 0, ToFail)
  {
    forall p ensures p in ps <==> IsSlot(Link(f, At(s), Pending(ToFail)), 0, p, ToFail) {
      IsSlotLink(f, 0, At(s), Pending(ToFail), p, ToFail);
    }
  }

  /** Resolving both remaining lists finishes the code, and cannot panic. */
  lemma {:induction false} TerminateFinishes(s: State, p: Patches, f: Frag)
    requires Holds(s.insns, [], f) && BothLists(p, f, 0)
    ensures !Terminate(s, p).Panic?
    ensures Terminate(s, p).Ok? ==> Finished(Terminate(s, p).value, f)
  {
    var n := |f|;
    var all := s.insns + [RetK(BPF_ACCEPT), RetK(BPF_DROP)];
    RepresentsSame(s.insns, all, 0, f);
    SlotsPatchable(all, 0, f, ToSucc, p.success, n);
    ResolveAllNoPanic(all, p.success, n);
    var mid := ResolveAll(all, p.success, n);
    if mid.Ok? {
      ResolveLinks(all, 0, f, ToSucc, p.success, n);
      FailuresFinish(mid.value, f, p.failure);
    }
  }

  lemma {:induction false} FailuresFinish(mid: Program, f: Frag, ps: seq<Patch>)
    requires |mid| == |f| + 2 && mid[|f|] == RetK(BPF_ACCEPT) && mid[|f| + 1] == RetK(BPF_DROP)
    requires Represents(mid, 0, Link(f, At(|f|), Pending(ToFail))) && Lists(ps, f, 0, ToFail)
    ensures var r := ResolveAll(mid, ps, |f| + 1); !r.Panic? && (r.Ok? ==> Finished(r.value, f))
  {
    var n, g := |f|, Link(f, At(|f|), Pending(ToFail));
    ListsLinked(ps, f, n);
    SlotsPatchable(mid, 0, g, ToFail, ps, n + 1);
    ResolveAllNoPanic(mid, ps, n + 1);
    if ResolveAll(mid, ps, n + 1).Ok? {
      ResolveLinks(mid, 0, g, ToFail, ps, n + 1);
      LinkTwice(f, n, n + 1);
    }
  }

  function Ending(x: Exit): Outcome {
    match Kind(x)
    case Abort => Fault
    case True => Verdict(true)
    case False => Verdict(false)
  }

  /** Where a jump of the code lands in the finished program. */
  lemma JumpLands(insn: Insn, c: FInsn, pc: nat, n: nat, r: Regs)
    requires Fits(insn, LinkInsn(c, pc, At(n), At(n + 1))) && !c.Plain? && pc < n
    ensures insn.Ja? || insn.Jmp?
    ensures JumpTarget(insn, pc, r) == match Picked(c, r)
                                      case Rel(off) => pc + 1 + off
                                      case ToSucc => n
                                      case ToFail => n + 1
  {
  }

  lemma FinishedAt(prog: Program, f: Frag, pc: nat)
    requires Finished(prog, f) && pc < |f|
    ensures Fits(prog[pc], LinkInsn(f[pc], pc, At(|f|), At(|f| + 1)))
  {
    assert Fits(prog[0 + pc], Link(f, At(|f|), At(|f| + 1))[pc]);
  }

  lemma ReturnsBehind(prog: Program, f: Frag, pkt: Packet, r: Regs)
    requires Finished(prog, f)
    ensures Exec(prog, pkt, |f|, r) == Verdict(true) && Exec(prog, pkt, |f| + 1, r) == Verdict(false)
  {
  }

  /** The interpreter on the finished program agrees with the symbolic run. */
  lemma {:induction false} ExecFinished(prog: Program, f: Frag, pkt: Packet, pc: nat, r: Regs)
    requires Finished(prog, f) && WellFormed(f) && pc <= |f|
    ensures Exec(prog, pkt, pc, r) == Ending(Run(f, pkt, pc, r))
    decreases |f| - pc
  {
    ReturnsBehind(prog, f, pkt, r);
    if pc < |f| {
      var c, n := f[pc], |f|;
      assert InsnWithin(c, pc, n);
      FinishedAt(prog, f, pc);
      if c.Plain? {
        var r' := Step(c.i, pkt, r);
        if r'.Some? { ExecFinished(prog, f, pkt, pc + 1, r'.value); }
      } else {
        JumpLands(prog[pc], c, pc, n, r);
        var j := Picked(c, r);
        if j.Rel? { ExecFinished(prog, f, pkt, pc + 1 + j.off, r); }
      }
    }
  }

  /** Every jump of the finished program stays inside it. */
  lemma {:induction false} FinishedInRange(prog: Program, f: Frag)
    requires Finished(prog, f) && WellFormed(f)
    ensures InRange(prog)
  {
    var n := |f|;
    forall i: nat, t: nat | Edge(prog, i, t) ensures t < |prog| {
      if i < n {
        assert InsnWithin(f[i], i, n);
        assert Fits(prog[0 + i], Link(f, At(n), At(n + 1))[i]);
      }
    }
  }

  /** A compile that succeeds is the symbolic compile, finished; none panics. */
  lemma {:induction false} AssembleFinishes(e: Expr, link: LinkType) returns (em: Emitted)
    ensures !Assemble(e, link).Panic?
    ensures Assemble(e, link).Ok? ==>
            && Emit(e, Layout(link, 0), InitialState(link).facts) == Ok(em)
            && Finished(Assemble(e, link).value, em.frag) && WellFormed(em.frag)
            && InRange(Assemble(e, link).value)
  {
    var s := InitialState(link);
    BuildNoPanic(e, link, s);
    em := Emitted([], s.facts);
    if Build(e, link, s).Ok? {
      var b, built := BuildRefines(e, link, s);
      em := built;
      EmitShape(e, Layout(link, 0), s.facts);
      TerminateFinishes(b.s, b.patches, em.frag);
      if Terminate(b.s, b.patches).Ok? { FinishedInRange(Terminate(b.s, b.patches).value, em.frag); }
    }
  }

  /** An expression that can be emitted in at most 255 instructions compiles. */
  lemma {:induction false} SmallAssembles(e: Expr, link: LinkType)
    requires Emit(e, Layout(link, 0), InitialState(link).facts).Ok?
    requires |Emit(e, Layout(link, 0), InitialState(link).facts).value.frag| <= 255
    ensures Assemble(e, link).Ok?
  {
    var s := InitialState(link);
    BuildSucceeds(e, link, s);
    var b, em := BuildRefines(e, link, s);
    TerminateSucceeds(b.s, b.patches, em.frag);
  }

  lemma {:induction false} TerminateSucceeds(s: State, p: Patches, f: Frag)
    requires Holds(s.insns, [], f) && BothLists(p, f, 0) && |f| <= 255
    ensures Terminate(s, p).Ok?
  {
    var n, all := |f|, s.insns + [RetK(BPF_ACCEPT), RetK(BPF_DROP)];
    RepresentsSame(s.insns, all, 0, f);
    SlotsPatchable(all, 0, f, ToSucc, p.success, n);
    ResolveAllNear(all, p.success, n);
    var mid := ResolveAll(all, p.success, n).value;
    ResolveLinks(all, 0, f, ToSucc, p.success, n);
    ListsLinked(p.failure, f, n);
    SlotsPatchable(mid, 0, Link(f, At(n), Pending(ToFail)), ToFail, p.failure, n + 1);
    ResolveAllNear(mid, p.failure, n + 1);
  }

  /** No run leaves an in-range program except through a return or a faulting
      instruction of its own. */
  lemma {:induction false} RunsStayInside(prog: Program, pkt: Packet, n: nat)
    requires InRange(prog) && prog != []
    ensures After(prog, pkt, n).Running? ==> After(prog, pkt, n).pc < |prog|
  {
    if n > 0 && After(prog, pkt, n).Running? {
      RunsStayInside(prog, pkt, n - 1);
      assert Edge(prog, After(prog, pkt, n - 1).pc, After(prog, pkt, n).pc);
    }
  }
}
