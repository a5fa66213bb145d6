// The compiled program means what the expression says.

module CompileProofs {
  import opened Words
  import opened Results
  import opened Bpf
  import opened Vm
  import opened Ast
  import opened Meaning
  import opened Guards
  import opened Fragments
  import opened Emission
  import opened Backpatch
  import opened Lengths
  import opened Hoisting
  import opened EmitProofs
  import opened Finishing

  function Verdict3(t: Tri): Outcome {
    match t
    case Abort => Fault
    case True => Verdict(true)
    case False => Verdict(false)
  }

  /** The program's outcome on every packet, faults included, is the hoisted
      meaning of the expression. */
  ghost predicate Implements(prog: Program, e: Expr, link: LinkType) {
    forall pkt :: ImplementsOn(prog, e, link, pkt)
  }

  predicate ImplementsOn(prog: Program, e: Expr, link: LinkType, pkt: Packet) {
    Outcomes(prog, pkt) == Verdict3(EvalHoisted(e, Layout(link, 0), pkt))
  }

  lemma InitialFactsHold(link: LinkType, pkt: Packet, x: u32)
    ensures FactsHold(Layout(link, 0), InitialFacts(link), pkt, x)
  {
  }

  // ----- whole programs -----

  /** The expressions whose compile is exact. */
  predicate Covered(e: Expr) { Tracked(e, true) }

  /** Among them are all in which no `vlan` shifts offsets and every `and` chain
      that begins with one. */
  lemma {:induction false} PlainlyCovered(e: Expr)
    requires NoShift(e) || Chain(e)
    ensures Covered(e)
  {
    if NoShift(e) { NoShiftTracked(e, true); } else { ChainLeads(e.left); }
  }

  /** Hoisting fits all of them, too, unless they test for a tag behind a tag. */
  lemma {:induction false} PlainlyFits(e: Expr)
    requires NoShift(e) || Chain(e)
    ensures HoistFits(e) && (NoShift(e) ==> OneTag(e))
  {
    if NoShift(e) {
      NoShiftFits(e);
      NoShiftOneTag(e);
    } else {
      PlainlyFits(e.left);
      NoShiftFits(e.right);
    }
  }

  lemma {:induction false} FinishedRight(e: Expr, link: LinkType, em: Emitted, prog: Program, pkt: Packet)
    requires Covered(e) && Emit(e, Layout(link, 0), InitialFacts(link)) == Ok(em)
    requires Finished(prog, em.frag) && WellFormed(em.frag)
    ensures ImplementsOn(prog, e, link, pkt)
  {
    ExecFinished(prog, em.frag, pkt, 0, INITIAL_REGS);
    EmitCompiles(e, Layout(link, 0), InitialFacts(link), pkt, true);
    InitialFactsHold(link, pkt, 0);
    assert RunsRight(em, e, Layout(link, 0), pkt, INITIAL_REGS, IsTagged(Layout(link, 0), pkt));
  }

  /** Compiler correctness up to the optimizer. */
  lemma {:induction false} AssembledImplements(e: Expr, link: LinkType)
    requires Covered(e) && Assemble(e, link).Ok?
    ensures Implements(Assemble(e, link).value, e, link)
  {
    var em := AssembleFinishes(e, link);
    var prog := Assemble(e, link).value;
    forall pkt ensures ImplementsOn(prog, e, link, pkt) { FinishedRight(e, link, em, prog, pkt); }
  }

  /** What optimization must keep for the result to stay right. */
  lemma SameOutcomesImplement(prog: Program, out: Program, e: Expr, link: LinkType)
    requires Implements(prog, e, link) && forall pkt :: Outcomes(out, pkt) == Outcomes(prog, pkt)
    ensures Implements(out, e, link)
  {
    forall pkt ensures ImplementsOn(out, e, link, pkt) { assert ImplementsOn(prog, e, link, pkt); }
  }

  // ----- what that says about verdicts -----

  /** The hoisted meaning is not wrong, does not fault where every test can be
      read, and without `or` is the three-valued meaning. */
  lemma {:induction false} HoistedMeaning(e: Expr, lay: Layout, pkt: Packet)
    requires HoistFits(e) && TagsOnce(e, lay)
    ensures EvalHoisted(e, lay, pkt) != Abort ==> EvalHoisted(e, lay, pkt) == FromBool(Matches(e, lay, pkt))
    ensures Readable(e, lay, pkt) ==> EvalHoisted(e, lay, pkt) != Abort
  {
    HoistedNeverWrong(e, lay, pkt);
    if Readable(e, lay, pkt) { HoistedReadable(e, lay, pkt); }
  }

  /** No verdict of a compiled program is wrong, on any packet. */
  lemma {:induction false} VerdictsAreRight(e: Expr, link: LinkType, pkt: Packet)
    requires Covered(e) && HoistFits(e) && OneTag(e) && Assemble(e, link).Ok?
    ensures var o := Outcomes(Assemble(e, link).value, pkt);
            o == Fault || o == Verdict(Matches(e, Layout(link, 0), pkt))
  {
    AssembledImplements(e, link);
    assert ImplementsOn(Assemble(e, link).value, e, link, pkt);
    HoistedMeaning(e, Layout(link, 0), pkt);
  }

  /** A packet as long as the loads need is accepted exactly when it matches. */
  lemma {:induction false} LongEnoughDecides(e: Expr, link: LinkType, pkt: Packet)
    requires Covered(e) && HoistFits(e) && OneTag(e) && Assemble(e, link).Ok? && LongEnough(e, Layout(link, 0), |pkt|)
    ensures Outcomes(Assemble(e, link).value, pkt) == Verdict(Matches(e, Layout(link, 0), pkt))
    ensures Accepts(Assemble(e, link).value, pkt) <==> Eval3(e, Layout(link, 0), pkt) == True
  {
    AssembledImplements(e, link);
    assert ImplementsOn(Assemble(e, link).value, e, link, pkt);
    LongEnoughIsReadable(e, Layout(link, 0), pkt);
    ReadableEvaluates(e, Layout(link, 0), pkt);
    HoistedMeaning(e, Layout(link, 0), pkt);
  }

  /** Without `or` agreement is exact on every packet, short ones included. */
  lemma {:induction false} NoOrDecides(e: Expr, link: LinkType, pkt: Packet)
    requires Covered(e) && OneTag(e) && NoOr(e) && Assemble(e, link).Ok?
    ensures Outcomes(Assemble(e, link).value, pkt) == Verdict3(Eval3(e, Layout(link, 0), pkt))
  {
    AssembledImplements(e, link);
    assert ImplementsOn(Assemble(e, link).value, e, link, pkt);
    HoistedWithoutOr(e, Layout(link, 0), pkt);
  }
}
