// What an expression means once the guards both arms of an `or` require are
// tested in front of it (pktbaffle/src/codegen.rs:672-700): the exact outcome
// of the compiled program, and how it relates to the plain meaning.

module Hoisting {
  import opened Words
  import opened Ast
  import opened Meaning
  import opened Guards
  import opened Lengths

  function HoistFormula(lay: Layout, g: GuardSet): Formula {
    Both(if g.ethertype.Some? && EtherProtoOffset(lay.link).Some? then TypeAsCompiled(lay, g.ethertype.value) else Known(true),
    Both(if g.ip4Proto.Some? then Ip4ProtoIs(lay, g.ip4Proto.value) else Known(true),
    Both(if g.ip6Next.Some? then Ip6NextIs(lay, g.ip6Next.value) else Known(true),
         if g.portPrereqs.Some? then HasPorts(lay, g.portPrereqs.value) else Known(true))))
  }

  function Shared(l: Expr, r: Expr): GuardSet { Intersect(Required(l), Required(r)) }

  /** Left to right like `Eval3`, with the shared guards in front of each `or` and
      no test for the type of a tag behind one. */
  function EvalHoisted(e: Expr, lay: Layout, pkt: Packet): Tri {
    match e
    case Prim(p) => Eval(PrimAsCompiled(lay, p), pkt)
    case And(l, r) =>
      And3(EvalHoisted(l, lay, pkt), EvalHoisted(r, if LeadingVlan(l) then Tagged(lay) else lay, pkt))
    case Or(l, r) =>
      And3(Eval(HoistFormula(lay, Shared(l, r)), pkt), Or3(EvalHoisted(l, lay, pkt), EvalHoisted(r, lay, pkt)))
    case Not(x) => Not3(EvalHoisted(x, lay, pkt))
  }

  /** A packet that fails the hoisted guards fails both arms. */
  lemma GuardsImplyHoist(lay: Layout, g: GuardSet, pkt: Packet)
    requires GuardsHold(lay, g, pkt)
    ensures Eval(HoistFormula(lay, g), pkt) != False
  {
    var h := HoistFormula(lay, g);
    assert Sat(h.g.g, pkt);
    assert Sat(h.g, pkt);
    EvalIsSat(h, pkt);
  }

  lemma ReadableHoist(lay: Layout, g: GuardSet, pkt: Packet)
    requires GuardsReadable(lay, g, pkt)
    ensures Eval(HoistFormula(lay, g), pkt) != Abort
  {
    var h := HoistFormula(lay, g);
    assert Eval(h.g.g, pkt) != Abort;
    assert Eval(h.g, pkt) != Abort;
  }

  /** The guards look at nothing behind the ethertype. */
  predicate TypeOnly(g: GuardSet) { g.ip4Proto.None? && g.ip6Next.None? && g.portPrereqs.None? }

  /** No `or` hoists a guard on the network header in front of an arm that tests
      that header behind a tag. */
  predicate HoistFits(e: Expr) {
    match e
    case Prim(_) => true
    case And(l, r) => HoistFits(l) && HoistFits(r)
    case Or(l, r) => HoistFits(l) && HoistFits(r) && ((NoShift(l) && NoShift(r)) || TypeOnly(Shared(l, r)))
    case Not(x) => HoistFits(x)
  }

  lemma {:induction false} NoShiftFits(e: Expr)
    requires NoShift(e)
    ensures HoistFits(e)
  {
    match e
    case Prim(_) =>
    case And(l, r) => NoShiftFits(l); NoShiftFits(r);
    case Or(l, r) => NoShiftFits(l); NoShiftFits(r);
    case Not(x) => NoShiftFits(x);
  }

  lemma {:induction false} MatchedHoist(l: Expr, r: Expr, lay: Layout, pkt: Packet)
    requires HoistFits(Or(l, r)) && Matches(Or(l, r), lay, pkt)
    ensures Eval(HoistFormula(lay, Shared(l, r)), pkt) != False
  {
    var e := Or(l, r);
    assert Required(e) == Shared(l, r);
    if NoShift(l) && NoShift(r) {
      HoistingIsSound(l, r, lay, pkt);
    } else if Required(e).ethertype.Some? {
      TypeGuardIsSound(e, lay, pkt);
    }
    GuardsImplyHoist(lay, Shared(l, r), pkt);
  }

  /** No tag test behind a tag, read from `lay` on. */
  predicate TagsOnce(e: Expr, lay: Layout) { if lay.depth == 0 then OneTag(e) else NoTagTest(e) }

  /** Hoisting then never yields a wrong verdict ... */
  lemma {:induction false} HoistedNeverWrong(e: Expr, lay: Layout, pkt: Packet)
    requires HoistFits(e) && TagsOnce(e, lay)
    ensures EvalHoisted(e, lay, pkt) != Abort ==> EvalHoisted(e, lay, pkt) == FromBool(Matches(e, lay, pkt))
  {
    match e
    case Prim(p) =>
      CompiledAsWritten(lay, p);
      EvalIsSat(PrimFormula(lay, p), pkt);
    case And(l, r) =>
      if lay.depth > 0 { NoTagTestNoShift(l); }
      HoistedNeverWrong(l, lay, pkt);
      HoistedNeverWrong(r, if LeadingVlan(l) then Tagged(lay) else lay, pkt);
    case Or(l, r) =>
      HoistedNeverWrong(l, lay, pkt);
      HoistedNeverWrong(r, lay, pkt);
      if Matches(e, lay, pkt) { MatchedHoist(l, r, lay, pkt); }
    case Not(x) => HoistedNeverWrong(x, lay, pkt);
  }

  lemma {:induction false} SharedReadable(l: Expr, r: Expr, lay: Layout, pkt: Packet)
    requires HoistFits(Or(l, r)) && Readable(Or(l, r), lay, pkt)
    ensures Eval(HoistFormula(lay, Shared(l, r)), pkt) != Abort
  {
    var e := Or(l, r);
    assert Required(e) == Shared(l, r);
    if NoShift(l) && NoShift(r) {
      GuardsAreReadable(e, lay, pkt);
    } else if Required(e).ethertype.Some? {
      TypeGuardReadable(e, lay, pkt);
    }
    ReadableHoist(lay, Shared(l, r), pkt);
  }

  /** ... nor a fault where every test can be read. */
  lemma {:induction false} HoistedReadable(e: Expr, lay: Layout, pkt: Packet)
    requires HoistFits(e) && TagsOnce(e, lay) && Readable(e, lay, pkt)
    ensures EvalHoisted(e, lay, pkt) != Abort
  {
    match e
    case Prim(p) => CompiledAsWritten(lay, p);
    case And(l, r) =>
      if lay.depth > 0 { NoTagTestNoShift(l); }
      HoistedReadable(l, lay, pkt);
      HoistedReadable(r, if LeadingVlan(l) then Tagged(lay) else lay, pkt);
    case Or(l, r) =>
      HoistedReadable(l, lay, pkt);
      HoistedReadable(r, lay, pkt);
      SharedReadable(l, r, lay, pkt);
    case Not(x) => HoistedReadable(x, lay, pkt);
  }

  /** Without `or` it is the plain three-valued meaning. */
  lemma {:induction false} HoistedWithoutOr(e: Expr, lay: Layout, pkt: Packet)
    requires NoOr(e) && TagsOnce(e, lay)
    ensures EvalHoisted(e, lay, pkt) == Eval3(e, lay, pkt)
  {
    match e
    case Prim(p) => CompiledAsWritten(lay, p);
    case And(l, r) =>
      if lay.depth > 0 { NoTagTestNoShift(l); }
      HoistedWithoutOr(l, lay, pkt);
      HoistedWithoutOr(r, if LeadingVlan(l) then Tagged(lay) else lay, pkt);
    case Not(x) => HoistedWithoutOr(x, lay, pkt);
  }
}
