// Where compiled programs do something else than the documentation says: the
// exact frames, and one of each.

module Deviations {
  import opened Words
  import opened Results
  import opened Bpf
  import opened Vm
  import opened Ast
  import opened Meaning
  import opened Guards
  import opened Emission
  import opened Backpatch
  import opened Lengths
  import opened Hoisting
  import opened Finishing
  import opened CompileProofs
  import VlanProofs

  /** The 16-bit frame type, behind `tags` tags. */
  function TypeIn(link: LinkType, tags: nat, pkt: Packet): u32
    requires |pkt| >= VlanProofs.TagAt(link) + 4 * tags + 2
  {
    var at := VlanProofs.TagAt(link) + 4 * tags;
    Be16(pkt[at], pkt[at + 1])
  }

  lemma TypeTest(link: LinkType, tags: nat, et: u32, pkt: Packet)
    requires !link.RawIp? && tags <= 1 && |pkt| >= VlanProofs.TagAt(link) + 4 * tags + 2
    ensures Eval(EthIs(Layout(link, tags), et), pkt) == FromBool(TypeIn(link, tags, pkt) == et)
    ensures Sat(EthIs(Layout(link, tags), et), pkt) <==> TypeIn(link, tags, pkt) == et
  {
    var at := VlanProofs.TagAt(link) + 4 * tags;
    assert EthAt(Layout(link, tags)) == Some(at);
    HalfTest(at, et, pkt);
  }

  lemma HalfTest(at: nat, et: u32, pkt: Packet)
    requires at < 100 && at + 2 <= |pkt|
    ensures Eval(FieldIs(SizeH, at, et), pkt) == FromBool(Be16(pkt[at], pkt[at + 1]) == et)
    ensures Sat(FieldIs(SizeH, at, et), pkt) <==> Be16(pkt[at], pkt[at + 1]) == et
  {
    assert Off(at) == at && SizedLoad(pkt, at, SizeH) == Some(Be16(pkt[at], pkt[at + 1]));
  }

  // ----- `mpls <label>` -----

  /** The 20-bit label of the first label stack entry. */
  function LabelOf(link: LinkType, pkt: Packet): u32
    requires |pkt| >= VlanProofs.TagAt(link) + 6
  {
    var at := VlanProofs.TagAt(link) + 2;
    TopBits(Be32(pkt[at], pkt[at + 1], pkt[at + 2], pkt[at + 3]))
  }

  /** The upper 20 bits. */
  function TopBits(v: u32): (r: u32)
    ensures r <= v
  {
    ShiftRight(v, 12)
  }

  /** `mpls <label>` as documented. */
  predicate IsMpls(link: LinkType, lbl: u32, pkt: Packet)
    requires |pkt| >= VlanProofs.TagAt(link) + 6
  {
    (TypeIn(link, 0, pkt) == 0x8847 || TypeIn(link, 0, pkt) == 0x8848) && LabelOf(link, pkt) == lbl
  }

  lemma LabelShift(v: u32)
    ensures Apply([(Bpf.Rsh, 12)], v) == Some(ShiftRight(v, 12))
  {
    var ops: Ops := [(Bpf.Rsh, 12)];
    assert ops[1..] == [];
    assert Apply(ops[1..], ShiftRight(v, 12)) == Some(ShiftRight(v, 12));
  }

  lemma LabelTest(link: LinkType, lbl: u32, pkt: Packet)
    requires !link.RawIp? && |pkt| >= VlanProofs.TagAt(link) + 6
    ensures Eval(LabelIs(Layout(link, 0), Some(lbl)), pkt) == FromBool(LabelOf(link, pkt) == lbl)
  {
    var at := VlanProofs.TagAt(link) + 2;
    assert EthOr(Layout(link, 0), 0) + 2 == at && Off(at) == at;
    var v := Be32(pkt[at], pkt[at + 1], pkt[at + 2], pkt[at + 3]);
    assert SizedLoad(pkt, at, SizeW) == Some(v);
    LabelShift(v);
  }

  lemma MplsMeaning(lbl: u32, link: LinkType, pkt: Packet)
    requires !link.RawIp? && |pkt| >= VlanProofs.TagAt(link) + 6
    ensures Eval(MplsAsCompiled(Layout(link, 0), Some(lbl)), pkt) ==
            FromBool(TypeIn(link, 0, pkt) == 0x8847 || (TypeIn(link, 0, pkt) == 0x8848 && LabelOf(link, pkt) == lbl))
  {
    var lay := Layout(link, 0);
    TypeTest(link, 0, 0x8847, pkt);
    TypeTest(link, 0, 0x8848, pkt);
    LabelTest(link, lbl, pkt);
    assert Eval(Both(EthIs(lay, 0x8848), LabelIs(lay, Some(lbl))), pkt) ==
           And3(Eval(EthIs(lay, 0x8848), pkt), Eval(LabelIs(lay, Some(lbl)), pkt));
  }

  lemma {:induction false} PrimDecides(p: Primitive, link: LinkType, pkt: Packet)
    requires Assemble(Prim(p), link).Ok?
    ensures Outcomes(Assemble(Prim(p), link).value, pkt) == Verdict3(Eval(PrimFormula(Layout(link, 0), p), pkt))
  {
    NoOrDecides(Prim(p), link, pkt);
  }

  lemma {:induction false} MplsVerdict(lbl: u32, link: LinkType, pkt: Packet, holds: bool)
    requires Assemble(Prim(Mpls(Some(lbl))), link).Ok?
    requires Eval(MplsAsCompiled(Layout(link, 0), Some(lbl)), pkt) == FromBool(holds)
    ensures Accepts(Assemble(Prim(Mpls(Some(lbl))), link).value, pkt) <==> holds
  {
    PrimDecides(Mpls(Some(lbl)), link, pkt);
  }

  lemma {:induction false} MplsOutcome(lbl: u32, link: LinkType, pkt: Packet)
    requires Assemble(Prim(Mpls(Some(lbl))), link).Ok? && !link.RawIp? && |pkt| >= VlanProofs.TagAt(link) + 6
    ensures Accepts(Assemble(Prim(Mpls(Some(lbl))), link).value, pkt) <==>
            TypeIn(link, 0, pkt) == 0x8847 || (TypeIn(link, 0, pkt) == 0x8848 && LabelOf(link, pkt) == lbl)
  {
    MplsMeaning(lbl, link, pkt);
    MplsVerdict(lbl, link, pkt, TypeIn(link, 0, pkt) == 0x8847 || (TypeIn(link, 0, pkt) == 0x8848 && LabelOf(link, pkt) == lbl));
  }

  /** The program for `mpls <label>` does what is documented exactly on frames
      that are not unicast MPLS with another label. */
  lemma {:induction false} MplsLabelIgnoredOnUnicast(lbl: u32, link: LinkType, pkt: Packet)
    requires Assemble(Prim(Mpls(Some(lbl))), link).Ok? && !link.RawIp? && |pkt| >= VlanProofs.TagAt(link) + 6
    ensures (Accepts(Assemble(Prim(Mpls(Some(lbl))), link).value, pkt) <==> IsMpls(link, lbl, pkt))
            <==> !(TypeIn(link, 0, pkt) == 0x8847 && LabelOf(link, pkt) != lbl)
  {
    MplsOutcome(lbl, link, pkt);
  }

  lemma MplsCompiles(lbl: u32)
    ensures Assemble(Prim(Mpls(Some(lbl))), Ethernet).Ok?
  {
    var e, lay, f := Prim(Mpls(Some(lbl))), Layout(Ethernet, 0), InitialFacts(Ethernet);
    var code := MplsFrag(12, Some(lbl));
    assert |code| == 6;
    assert Emit(e, lay, f) == Ok(Push(Emitted([], f), code));
    SmallAssembles(e, Ethernet);
  }

  /** A unicast MPLS frame with label 0. */
  const UNICAST_MPLS: Packet := [0, 0, 0, 0, 0, 0, 0, 0, 0, 0, 0, 0, 0x88, 0x47, 0, 0, 0, 0]

  lemma LabelAtMost(link: LinkType, pkt: Packet, at: nat)
    requires at == VlanProofs.TagAt(link) + 2 && |pkt| >= at + 4
    ensures LabelOf(link, pkt) <= Be32(pkt[at], pkt[at + 1], pkt[at + 2], pkt[at + 3])
  {
  }

  lemma UnicastFields(link: LinkType, pkt: Packet)
    requires link.Ethernet? && pkt == UNICAST_MPLS
    ensures |pkt| == 18 && TypeIn(link, 0, pkt) == 0x8847 && LabelOf(link, pkt) == 0
  {
    LabelAtMost(link, pkt, 14);
  }

  /** `mpls 5`, or any label but 0, accepts it. */
  lemma MplsAcceptsOtherLabel(lbl: u32)
    requires lbl != 0
    ensures Assemble(Prim(Mpls(Some(lbl))), Ethernet).Ok?
    ensures Accepts(Assemble(Prim(Mpls(Some(lbl))), Ethernet).value, UNICAST_MPLS) && !IsMpls(Ethernet, lbl, UNICAST_MPLS)
  {
    MplsCompiles(lbl);
    UnicastFields(Ethernet, UNICAST_MPLS);
    MplsOutcome(lbl, Ethernet, UNICAST_MPLS);
  }

  // ----- `mpls <label>` among other tests -----

  /** The meaning of an expression with `mpls <label>` as documented. */
  predicate Documented(e: Expr, lay: Layout, pkt: Packet) {
    match e
    case Prim(p) => if p.Mpls? then Sat(MplsAsDocumented(lay, p.lbl), pkt) else Sat(PrimFormula(lay, p), pkt)
    case And(l, r) => Documented(l, lay, pkt) && Documented(r, if LeadingVlan(l) then Tagged(lay) else lay, pkt)
    case Or(l, r) => Documented(l, lay, pkt) || Documented(r, lay, pkt)
    case Not(x) => !Documented(x, lay, pkt)
  }

  predicate NoMpls(e: Expr) {
    match e
    case Prim(p) => !p.Mpls?
    case And(l, r) => NoMpls(l) && NoMpls(r)
    case Or(l, r) => NoMpls(l) && NoMpls(r)
    case Not(x) => NoMpls(x)
  }

  /** Every `mpls` is a conjunct of the whole expression. */
  predicate MplsConjuncts(e: Expr) { e.Prim? || NoMpls(e) || (e.And? && MplsConjuncts(e.left) && MplsConjuncts(e.right)) }

  /** Unicast MPLS with another label than some `mpls` of the expression asks
      for. */
  predicate OtherLabel(e: Expr, lay: Layout, pkt: Packet) {
    match e
    case Prim(p) => p.Mpls? && Sat(EthIs(lay, 0x8847), pkt) && !Sat(LabelIs(lay, p.lbl), pkt)
    case And(l, r) => OtherLabel(l, lay, pkt) || OtherLabel(r, if LeadingVlan(l) then Tagged(lay) else lay, pkt)
    case Or(l, r) => OtherLabel(l, lay, pkt) || OtherLabel(r, lay, pkt)
    case Not(x) => OtherLabel(x, lay, pkt)
  }

  lemma MplsDiffers(lay: Layout, lbl: Option<u32>, pkt: Packet)
    ensures Sat(MplsAsDocumented(lay, lbl), pkt) <==>
            Sat(MplsAsCompiled(lay, lbl), pkt) && !(Sat(EthIs(lay, 0x8847), pkt) && !Sat(LabelIs(lay, lbl), pkt))
  {
    var a, b, l := EthIs(lay, 0x8847), EthIs(lay, 0x8848), LabelIs(lay, lbl);
    assert Sat(Either(a, b), pkt) <==> Sat(a, pkt) || Sat(b, pkt);
    assert Sat(Both(b, l), pkt) <==> Sat(b, pkt) && Sat(l, pkt);
  }

  /** Without such a label any expression means what is documented. */
  lemma {:induction false} SameLabels(e: Expr, lay: Layout, pkt: Packet)
    requires !OtherLabel(e, lay, pkt)
    ensures Documented(e, lay, pkt) == Matches(e, lay, pkt)
  {
    match e
    case Prim(p) => if p.Mpls? { MplsDiffers(lay, p.lbl, pkt); }
    case And(l, r) => SameLabels(l, lay, pkt); SameLabels(r, if LeadingVlan(l) then Tagged(lay) else lay, pkt);
    case Or(l, r) => SameLabels(l, lay, pkt); SameLabels(r, lay, pkt);
    case Not(x) => SameLabels(x, lay, pkt);
  }

  lemma {:induction false} NoMplsNoLabel(e: Expr, lay: Layout, pkt: Packet)
    requires NoMpls(e)
    ensures !OtherLabel(e, lay, pkt)
  {
    match e
    case Prim(_) =>
    case And(l, r) => NoMplsNoLabel(l, lay, pkt); NoMplsNoLabel(r, if LeadingVlan(l) then Tagged(lay) else lay, pkt);
    case Or(l, r) => NoMplsNoLabel(l, lay, pkt); NoMplsNoLabel(r, lay, pkt);
    case Not(x) => NoMplsNoLabel(x, lay, pkt);
  }

  /** As a conjunct `mpls` accepts such a label and should not. */
  lemma {:induction false} ConjunctLabels(e: Expr, lay: Layout, pkt: Packet)
    requires MplsConjuncts(e)
    ensures Documented(e, lay, pkt) <==> Matches(e, lay, pkt) && !OtherLabel(e, lay, pkt)
  {
    if NoMpls(e) {
      NoMplsNoLabel(e, lay, pkt);
      SameLabels(e, lay, pkt);
    } else if e.Prim? {
      MplsDiffers(lay, e.p.lbl, pkt);
    } else {
      ConjunctLabels(e.left, lay, pkt);
      ConjunctLabels(e.right, if LeadingVlan(e.left) then Tagged(lay) else lay, pkt);
    }
  }

  /** The program for an expression with `mpls <label>` among its conjuncts does
      what is documented exactly unless it matches but for such a label. */
  lemma {:induction false} MplsConjunctsExactly(e: Expr, link: LinkType, pkt: Packet)
    requires Covered(e) && HoistFits(e) && OneTag(e) && MplsConjuncts(e)
    requires Assemble(e, link).Ok? && Readable(e, Layout(link, 0), pkt)
    ensures (Accepts(Assemble(e, link).value, pkt) <==> Documented(e, Layout(link, 0), pkt))
            <==> !(Matches(e, Layout(link, 0), pkt) && OtherLabel(e, Layout(link, 0), pkt))
  {
    AssembledImplements(e, link);
    assert ImplementsOn(Assemble(e, link).value, e, link, pkt);
    HoistedMeaning(e, Layout(link, 0), pkt);
    ConjunctLabels(e, Layout(link, 0), pkt);
  }
}
