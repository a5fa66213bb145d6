// Where the facts and guards of the code generator, which are not kept apart by
// tag depth, change what an expression with `vlan` matches: exactly on which
// frames, and one of each.

module TagDeviations {
  import opened Words
  import opened Results
  import Bpf
  import opened Vm
  import opened Ast
  import opened Meaning
  import opened Guards
  import opened Fragments
  import opened Emission
  import opened Backpatch
  import opened Lengths
  import opened Hoisting
  import Finishing
  import opened CompileProofs
  import Deviations
  import VlanProofs
  import opened EmitProofs

  // ----- `or` with an arm behind a tag -----

  /** An arm that begins with its only tag test, or in which no tag shifts
      offsets. */
  predicate Arm(e: Expr) { (Chain(e) && OneTag(e)) || NoShift(e) }

  lemma OtherType(lay: Layout, et: u32, pkt: Packet)
    requires IsTagged(lay, pkt) && et != 0x8100
    ensures Eval(EthIs(lay, et), pkt) == False
  {
  }

  lemma NoPortsInFront(lay: Layout, s: L4Set, pkt: Packet)
    requires IsTagged(lay, pkt)
    ensures Eval(HasPorts(lay, s), pkt) == False
  {
    OtherType(lay, 0x0800, pkt);
    OtherType(lay, 0x86dd, pkt);
    Ports4Parts(lay, s, pkt);
    Ports6Parts(lay, s, pkt);
  }

  /** No tagged frame passes guards on the network header in front of its tag. */
  lemma {:induction false} TaggedHoist(lay: Layout, g: GuardSet, pkt: Packet)
    requires IsTagged(lay, pkt) && !TypeOnly(g)
    ensures Eval(HoistFormula(lay, g), pkt) != True
  {
    OtherType(lay, 0x0800, pkt);
    OtherType(lay, 0x86dd, pkt);
    var h := HoistFormula(lay, g);
    assert Eval(h, pkt) == And3(Eval(h.f, pkt), Eval(h.g, pkt)) && Eval(h.g, pkt) == And3(Eval(h.g.f, pkt), Eval(h.g.g, pkt));
    assert Eval(h.g.g, pkt) == And3(Eval(h.g.g.f, pkt), Eval(h.g.g.g, pkt));
    if g.portPrereqs.Some? { NoPortsInFront(lay, g.portPrereqs.value, pkt); }
  }

  lemma HoistPasses(lay: Layout, g: GuardSet, pkt: Packet)
    requires GuardsHold(lay, g, pkt) && GuardsReadable(lay, g, pkt)
    ensures Eval(HoistFormula(lay, g), pkt) == True
  {
    GuardsImplyHoist(lay, g, pkt);
    ReadableHoist(lay, g, pkt);
  }

  lemma {:induction false} PlainArmPasses(m: Expr, g: GuardSet, lay: Layout, pkt: Packet)
    requires NoShift(m) && Matches(m, lay, pkt) && Readable(m, lay, pkt)
    requires g.ethertype.Some? ==> g.ethertype == Required(m).ethertype
    requires g.ip4Proto.Some? ==> g.ip4Proto == Required(m).ip4Proto
    requires g.ip6Next.Some? ==> g.ip6Next == Required(m).ip6Next
    requires g.portPrereqs.Some? ==> g.portPrereqs == Required(m).portPrereqs
    ensures Eval(HoistFormula(lay, g), pkt) == True
  {
    GuardsAreSound(m, lay, pkt);
    GuardsAreReadable(m, lay, pkt);
    HoistPasses(lay, g, pkt);
  }

  lemma {:induction false} ChainIsTagged(m: Expr, lay: Layout, pkt: Packet)
    requires Chain(m) && Matches(m, lay, pkt) && Readable(m, lay, pkt)
    ensures IsTagged(lay, pkt)
  {
    ChainLeads(m);
    LeadingTypeRequired(m);
    TypeGuardIsSound(m, lay, pkt);
    TypeGuardReadable(m, lay, pkt);
    EvalIsSat(EthIs(lay, 0x8100), pkt);
  }

  lemma {:induction false} TypeGuardPasses(e: Expr, lay: Layout, pkt: Packet)
    requires Matches(e, lay, pkt) && Readable(e, lay, pkt) && TypeOnly(Required(e))
    ensures Eval(HoistFormula(lay, Required(e)), pkt) == True
  {
    if Required(e).ethertype.Some? {
      TypeGuardIsSound(e, lay, pkt);
      TypeGuardReadable(e, lay, pkt);
    }
    HoistPasses(lay, Required(e), pkt);
  }

  /** When a matching packet gets past the guards in front of an `or`. */
  lemma {:induction false} MatchedPasses(l: Expr, r: Expr, lay: Layout, pkt: Packet)
    requires Arm(l) && Arm(r) && Readable(Or(l, r), lay, pkt) && Matches(Or(l, r), lay, pkt)
    ensures Eval(HoistFormula(lay, Shared(l, r)), pkt) == True <==> !IsTagged(lay, pkt) || TypeOnly(Shared(l, r))
  {
    var e := Or(l, r);
    assert Required(e) == Shared(l, r);
    if TypeOnly(Shared(l, r)) {
      TypeGuardPasses(e, lay, pkt);
    } else if IsTagged(lay, pkt) {
      TaggedHoist(lay, Shared(l, r), pkt);
    } else {
      var m := if Matches(l, lay, pkt) then l else r;
      if Chain(m) { ChainIsTagged(m, lay, pkt); }
      PlainArmPasses(m, Shared(l, r), lay, pkt);
    }
  }

  /** What the program for `l or r` accepts where every test can be read. */
  lemma {:induction false} OrAccepts(l: Expr, r: Expr, link: LinkType, pkt: Packet)
    requires Arm(l) && Arm(r) && Assemble(Or(l, r), link).Ok? && Readable(Or(l, r), Layout(link, 0), pkt)
    ensures Accepts(Assemble(Or(l, r), link).value, pkt) <==>
            Eval(HoistFormula(Layout(link, 0), Shared(l, r)), pkt) == True && Matches(Or(l, r), Layout(link, 0), pkt)
  {
    PlainlyCovered(l);
    PlainlyCovered(r);
    PlainlyFits(l);
    PlainlyFits(r);
    OrOutcome(l, r, link, pkt);
    HoistedMeaning(l, Layout(link, 0), pkt);
    HoistedMeaning(r, Layout(link, 0), pkt);
  }

  lemma {:induction false} OrOutcome(l: Expr, r: Expr, link: LinkType, pkt: Packet)
    requires Covered(l) && Covered(r) && Assemble(Or(l, r), link).Ok?
    ensures var lay := Layout(link, 0);
            Outcomes(Assemble(Or(l, r), link).value, pkt) ==
            Verdict3(And3(Eval(HoistFormula(lay, Shared(l, r)), pkt), Or3(EvalHoisted(l, lay, pkt), EvalHoisted(r, lay, pkt))))
  {
    AssembledImplements(Or(l, r), link);
    assert ImplementsOn(Assemble(Or(l, r), link).value, Or(l, r), link, pkt);
  }

  /** Where every test can be read, the program for `l or r` gives the written
      verdict on all packets but one kind: tagged frames that match, when both
      arms require the same protocol or ports. */
  lemma {:induction false} TaggedOrExactly(l: Expr, r: Expr, link: LinkType, pkt: Packet)
    requires Arm(l) && Arm(r) && Assemble(Or(l, r), link).Ok? && Readable(Or(l, r), Layout(link, 0), pkt)
    ensures var lay, e := Layout(link, 0), Or(l, r);
            (Accepts(Assemble(e, link).value, pkt) <==> Matches(e, lay, pkt))
            <==> !(Matches(e, lay, pkt) && IsTagged(lay, pkt) && !TypeOnly(Shared(l, r)))
  {
    OrAccepts(l, r, link, pkt);
    if Matches(Or(l, r), Layout(link, 0), pkt) { MatchedPasses(l, r, Layout(link, 0), pkt); }
  }

  /** In particular `vlan and port 80 or vlan and port 443` accepts no packet at
      all, nor does any `or` of two chains that share such a guard. */
  lemma {:induction false} TwoTagsAcceptNothing(l: Expr, r: Expr, link: LinkType, pkt: Packet)
    requires Chain(l) && Chain(r) && !TypeOnly(Shared(l, r)) && Assemble(Or(l, r), link).Ok?
    ensures !Accepts(Assemble(Or(l, r), link).value, pkt)
  {
    var lay, g := Layout(link, 0), Shared(l, r);
    PlainlyCovered(l);
    PlainlyCovered(r);
    ChainLeads(l);
    ChainLeads(r);
    LeadingTypeRequired(l);
    LeadingTypeRequired(r);
    OrOutcome(l, r, link, pkt);
    var h := HoistFormula(lay, g);
    if Eval(h, pkt) == True {
      assert Eval(h.f, pkt) == True;
      if IsTagged(lay, pkt) { TaggedHoist(lay, g, pkt); }
      TagCompiles(l, r, link);
    }
  }

  /** Raw IP has no tags, so a chain does not compile there. */
  lemma {:induction false} ChainNeedsTags(e: Expr, lay: Layout, f: Facts)
    requires Chain(e) && Emit(e, lay, f).Ok?
    ensures !lay.link.RawIp?
  {
    if e.Prim? {
      assert EmitPrim(lay, f, e.p) == EmitTypeWith(lay, f, 0x8100, VlanChecks(lay, e.p.id));
    } else {
      ChainNeedsTags(e.left, lay, f);
    }
  }

  lemma {:induction false} TagCompiles(l: Expr, r: Expr, link: LinkType)
    requires Chain(l) && Assemble(Or(l, r), link).Ok?
    ensures !link.RawIp?
  {
    var em := Finishing.AssembleFinishes(Or(l, r), link);
    var h := EmitHoist(Layout(link, 0), InitialFacts(link), Shared(l, r)).value;
    ChainNeedsTags(l, Layout(link, 0), h.facts);
  }

  /** `ip proto n or (vlan and ip proto n)`, meant for frames with and without a
      tag. */
  function TagOrNot(n: u8): Expr { Or(OfProto(n), Expr.And(Prim(Vlan(None)), OfProto(n))) }

  function OfProto(n: u8): Expr { Prim(IsProto(Num(n))) }

  lemma TagOrNotGuards(n: u8)
    ensures Shared(OfProto(n), TagOrNot(n).right) == GuardSet(None, Some(n), None, None)
  {
    assert Required(TagOrNot(n).right) == Union(EthGuard(0x8100), Ip4Guard(n));
  }

  /** The facts behind the guards hoisted in front of it. */
  function ProtoKnown(n: u8): Facts { Facts(Some(0x0800), Some(n), None, None) }

  lemma TagOrNotHoist(n: u8) returns (h: Emitted)
    ensures EmitHoist(Layout(Ethernet, 0), InitialFacts(Ethernet), GuardSet(None, Some(n), None, None)) == Ok(h)
    ensures |h.frag| == 4 && h.facts == ProtoKnown(n)
  {
    var lay, f := Layout(Ethernet, 0), InitialFacts(Ethernet);
    var code := CheckFrag(EqCheck(Bpf.SizeH, 12, 0x0800)) + CheckFrag(EqCheck(Bpf.SizeB, 23, n));
    assert EmitIp4L4(lay, f, n) == Ok(Emitted(code, ProtoKnown(n)));
    h := EmitHoist(lay, f, GuardSet(None, Some(n), None, None)).value;
  }

  /** The hoisted facts leave nothing of either arm but the tag test. */
  lemma {:induction false} TagOrNotArms(n: u8, f: Facts)
    requires f == ProtoKnown(n)
    ensures Emit(OfProto(n), Layout(Ethernet, 0), f) == Ok(Emitted([], f))
    ensures var b := Emit(TagOrNot(n).right, Layout(Ethernet, 0), f); b.Ok? && |b.value.frag| == 2
  {
    var tag := Push(Emitted(CheckFrag(EqCheck(Bpf.SizeH, 12, 0x8100)), f), ChecksFrag([]));
    assert EmitPrim(Layout(Ethernet, 0), f, Vlan(None)) == Ok(tag) && tag.facts == f;
    assert EmitIp4L4(Layout(Ethernet, 1), f, n) == Ok(Emitted([], f));
    assert Emit(OfProto(n), Tagged(Layout(Ethernet, 0)), f) == Ok(Emitted([], f));
  }

  lemma {:induction false} TagOrNotCompiles(n: u8)
    ensures Assemble(TagOrNot(n), Ethernet).Ok?
  {
    TagOrNotGuards(n);
    var h := TagOrNotHoist(n);
    TagOrNotArms(n, h.facts);
    assert Restored(h.facts, []) == h.facts;
    Finishing.SmallAssembles(TagOrNot(n), Ethernet);
  }

  /** A frame with one tag and protocol `n` behind it. */
  function TaggedFrame(n: u8): Packet {
    [0, 0, 0, 0, 0, 0, 0, 0, 0, 0, 0, 0, 0x81, 0x00, 0, 0, 0x08, 0x00, 0, 0, 0, 0, 0, 0, 0, 0, 0, n]
  }

  lemma TaggedFields(n: u8)
    ensures IsTagged(Layout(Ethernet, 0), TaggedFrame(n))
    ensures Eval(Ip4ProtoIs(Layout(Ethernet, 1), n), TaggedFrame(n)) == True
  {
    Deviations.TypeTest(Ethernet, 0, 0x8100, TaggedFrame(n));
    Deviations.TypeTest(Ethernet, 1, 0x0800, TaggedFrame(n));
    assert SizedLoad(TaggedFrame(n), 27, Bpf.SizeB) == Some(n);
  }

  lemma {:induction false} TaggedFrameMatches(n: u8)
    ensures Readable(TagOrNot(n), Layout(Ethernet, 0), TaggedFrame(n)) && Matches(TagOrNot(n), Layout(Ethernet, 0), TaggedFrame(n))
  {
    var lay, pkt := Layout(Ethernet, 0), TaggedFrame(n);
    TaggedFields(n);
    OtherType(lay, 0x0800, pkt);
    assert Eval(Ip4ProtoIs(lay, n), pkt) == False;
    TagOrNotReads(n, lay, pkt);
  }

  /** What makes a frame match: its tag, and the protocol behind it. */
  lemma {:induction false} TagOrNotReads(n: u8, lay: Layout, pkt: Packet)
    requires IsTagged(lay, pkt) && Eval(Ip4ProtoIs(lay, n), pkt) != Abort && Eval(Ip4ProtoIs(Tagged(lay), n), pkt) == True
    ensures Readable(TagOrNot(n), lay, pkt) && Matches(TagOrNot(n), lay, pkt)
  {
    var t := Both(EthIs(lay, 0x8100), Known(true));
    assert PrimFormula(lay, Vlan(None)) == t && Eval(t, pkt) == True;
    EvalIsSat(t, pkt);
    EvalIsSat(Ip4ProtoIs(Tagged(lay), n), pkt);
    assert LeadingVlan(Prim(Vlan(None)));
  }

  lemma TagOrNotArm(n: u8)
    ensures Arm(OfProto(n)) && Arm(TagOrNot(n).right) && TagOrNot(n) == Or(OfProto(n), TagOrNot(n).right)
  {
    var tag := Prim(Vlan(None));
    assert Chain(tag) && OneTag(tag) && LeadingVlan(tag) && NoTagTest(OfProto(n)) && NoShift(OfProto(n));
  }

  /** The program drops that frame. */
  lemma {:induction false} TagOrNotMissesTagged(n: u8)
    ensures Assemble(TagOrNot(n), Ethernet).Ok? && Matches(TagOrNot(n), Layout(Ethernet, 0), TaggedFrame(n))
    ensures !Accepts(Assemble(TagOrNot(n), Ethernet).value, TaggedFrame(n))
  {
    TagOrNotCompiles(n);
    TaggedFields(n);
    TaggedFrameMatches(n);
    TagOrNotGuards(n);
    TagOrNotArm(n);
    TaggedOrExactly(OfProto(n), TagOrNot(n).right, Ethernet, TaggedFrame(n));
  }

  // ----- tests for a tag behind the tag -----

  /** What a tag test asks for besides the type. */
  function BehindType(lay: Layout, p: Primitive): seq<Check> { if p.Vlan? then VlanChecks(lay, p.id) else [] }

  predicate IsTagTest(e: Expr) { e.Prim? && TagTest(e.p) }

  /** A chain in which each further conjunct is a tag test or has none. */
  predicate TagChain(e: Expr) {
    match e
    case Prim(p) => p.Vlan?
    case And(l, r) => TagChain(l) && (IsTagTest(r) || NoTagTest(r))
    case _ => false
  }

  lemma {:induction false} TagChainIsChain(e: Expr)
    requires TagChain(e)
    ensures Chain(e) && LeadingVlan(e)
  {
    if e.And? {
      TagChainIsChain(e.left);
      if NoTagTest(e.right) { NoTagTestNoShift(e.right); }
    }
  }

  /** One of the further conjuncts is a tag test. */
  predicate SecondTag(e: Expr) { e.And? && (SecondTag(e.left) || IsTagTest(e.right)) }

  /** The packet fits the chain, whatever the type behind its tag. */
  predicate AllButType(e: Expr, lay: Layout, pkt: Packet)
    requires TagChain(e)
  {
    match e
    case Prim(p) => Sat(PrimFormula(lay, p), pkt)
    case And(l, r) =>
      AllButType(l, lay, pkt)
      && if IsTagTest(r) then Sat(All(BehindType(Tagged(lay), r.p)), pkt) else Matches(r, Tagged(lay), pkt)
  }

  lemma {:induction false} WrittenTagChain(e: Expr, lay: Layout, pkt: Packet)
    requires TagChain(e)
    ensures Matches(e, lay, pkt) <==> AllButType(e, lay, pkt) && (SecondTag(e) ==> Sat(EthIs(Tagged(lay), 0x8100), pkt))
  {
    if e.And? {
      TagChainIsChain(e.left);
      WrittenTagChain(e.left, lay, pkt);
      if IsTagTest(e.right) { InnerTestMeaning(Tagged(lay), e.right.p, pkt); }
    }
  }

  lemma {:induction false} CompiledConjunct(r: Expr, link: LinkType, pkt: Packet)
    requires IsTagTest(r) || NoTagTest(r)
    requires Readable(r, Layout(link, 1), pkt) && !link.RawIp? && |pkt| >= VlanProofs.TagAt(link) + 8
    ensures var lay := Layout(link, 1);
            EvalHoisted(r, lay, pkt) ==
            FromBool(if IsTagTest(r) then Sat(All(BehindType(lay, r.p)), pkt) else Matches(r, lay, pkt))
  {
    var lay := Layout(link, 1);
    if IsTagTest(r) {
      InnerChecksReadable(link, r.p, pkt);
      EvalIsSat(All(BehindType(lay, r.p)), pkt);
      BehindTypeOnly(lay, r.p, pkt);
    } else {
      NoTagTestNoShift(r);
      NoShiftFits(r);
      HoistedMeaning(r, lay, pkt);
    }
  }

  lemma BehindTypeOnly(lay: Layout, p: Primitive, pkt: Packet)
    requires TagTest(p) && lay.depth > 0
    ensures EvalHoisted(Prim(p), lay, pkt) == Eval(All(BehindType(lay, p)), pkt)
  {
    if p.Vlan? {
      var f := PrimAsCompiled(lay, p);
      assert f.f == Known(true) && Eval(f, pkt) == And3(Eval(f.f, pkt), Eval(f.g, pkt));
    }
  }

  lemma {:induction false} CompiledTagChain(e: Expr, link: LinkType, pkt: Packet)
    requires TagChain(e) && Readable(e, Layout(link, 0), pkt) && !link.RawIp? && |pkt| >= VlanProofs.TagAt(link) + 8
    ensures EvalHoisted(e, Layout(link, 0), pkt) == FromBool(AllButType(e, Layout(link, 0), pkt))
  {
    var lay := Layout(link, 0);
    if e.And? {
      TagChainIsChain(e.left);
      assert Tagged(lay) == Layout(link, 1);
      CompiledTagChain(e.left, link, pkt);
      CompiledConjunct(e.right, link, pkt);
    } else {
      CompiledAsWritten(lay, e.p);
      EvalIsSat(PrimFormula(lay, e.p), pkt);
    }
  }

  /** The verdict for a chain with tag tests anywhere in it is the written one
      unless the packet fits but for the type behind its tag. */
  lemma {:induction false} InnerTagTestsExactly(e: Expr, link: LinkType, pkt: Packet)
    requires TagChain(e) && Assemble(e, link).Ok?
    requires Readable(e, Layout(link, 0), pkt) && |pkt| >= VlanProofs.TagAt(link) + 8
    ensures (Accepts(Assemble(e, link).value, pkt) <==> Matches(e, Layout(link, 0), pkt))
            <==> !(AllButType(e, Layout(link, 0), pkt) && SecondTag(e) && Deviations.TypeIn(link, 1, pkt) != 0x8100)
  {
    TagChainIsChain(e);
    ChainCompiled(e, link);
    PlainlyCovered(e);
    AssembledImplements(e, link);
    assert ImplementsOn(Assemble(e, link).value, e, link, pkt);
    CompiledTagChain(e, link, pkt);
    WrittenTagChain(e, Layout(link, 0), pkt);
    assert Tagged(Layout(link, 0)) == Layout(link, 1);
    Deviations.TypeTest(link, 1, 0x8100, pkt);
  }

  lemma {:induction false} ChainCompiled(e: Expr, link: LinkType)
    requires Chain(e) && Assemble(e, link).Ok?
    ensures !link.RawIp?
  {
    var em := Finishing.AssembleFinishes(e, link);
    ChainNeedsTags(e, Layout(link, 0), InitialFacts(link));
  }

  /** `c and vlan and r`: the second `vlan`, or `ether proto 0x8100`, does nothing
      on any packet, also in front of any `r` that shifts no offsets. */
  lemma {:induction false} SecondTagIsIgnored(c: Expr, p: Primitive, r: Expr, link: LinkType, pkt: Packet)
    requires Chain(c) && TagTest(p) && BehindType(Layout(link, 1), p) == [] && NoShift(r)
    requires Assemble(Expr.And(Expr.And(c, Prim(p)), r), link).Ok? && Assemble(Expr.And(c, r), link).Ok?
    ensures Outcomes(Assemble(Expr.And(Expr.And(c, Prim(p)), r), link).value, pkt) ==
            Outcomes(Assemble(Expr.And(c, r), link).value, pkt)
  {
    var e, short, lay := Expr.And(Expr.And(c, Prim(p)), r), Expr.And(c, r), Layout(link, 0);
    ChainLeads(c);
    PlainlyCovered(e);
    PlainlyCovered(short);
    AssembledImplements(e, link);
    AssembledImplements(short, link);
    assert ImplementsOn(Assemble(e, link).value, e, link, pkt) && ImplementsOn(Assemble(short, link).value, short, link, pkt);
    BehindTypeOnly(Tagged(lay), p, pkt);
    assert EvalHoisted(Expr.And(c, Prim(p)), lay, pkt) == EvalHoisted(c, lay, pkt);
  }

  /** As written such an expression matches nothing if `r` asks for another type:
      `vlan and vlan and ip` should accept no frame and accepts what `vlan and ip`
      accepts. */
  lemma {:induction false} SecondTagMatchesNothing(c: Expr, p: Primitive, r: Expr, lay: Layout, pkt: Packet)
    requires Chain(c) && TagTest(p) && EthAt(lay).Some?
    requires Required(r).ethertype.Some? && Required(r).ethertype.value != 0x8100
    ensures !Matches(Expr.And(Expr.And(c, Prim(p)), r), lay, pkt)
  {
    ChainLeads(c);
    if Matches(Expr.And(Expr.And(c, Prim(p)), r), lay, pkt) {
      InnerTestMeaning(Tagged(lay), p, pkt);
      TypeGuardIsSound(r, Tagged(lay), pkt);
    }
  }

  lemma InnerTestMeaning(lay: Layout, p: Primitive, pkt: Packet)
    requires TagTest(p)
    ensures Matches(Prim(p), lay, pkt) <==> Sat(EthIs(lay, 0x8100), pkt) && Sat(All(BehindType(lay, p)), pkt)
  {
    if p.Vlan? { assert PrimFormula(lay, p) == TypeWith(lay, 0x8100, VlanChecks(lay, p.id)); }
  }

  lemma MaskApplies(v: u32, m: u32)
    ensures Apply([(Bpf.And, m)], v).Some?
  {
    var ops: Ops := [(Bpf.And, m)];
    assert ops[1..] == [];
  }

  lemma InnerChecksReadable(link: LinkType, p: Primitive, pkt: Packet)
    requires !link.RawIp? && |pkt| >= VlanProofs.TagAt(link) + 8
    ensures Eval(All(BehindType(Layout(link, 1), p)), pkt) != Abort
  {
    var lay, cs := Layout(link, 1), BehindType(Layout(link, 1), p);
    var at := VlanProofs.TagAt(link) + 6;
    if cs != [] {
      assert EthAt(lay) == Some(at - 2) && Off(at) == at;
      assert SizedLoad(pkt, at, Bpf.SizeH).Some? && cs[1..] == [];
      MaskApplies(Be16(pkt[at], pkt[at + 1]), 0x0fff);
      assert All(cs) == Both(CheckFormula(cs[0]), Known(true));
    }
  }

  /** The recorded outer type passes for the inner one, so only the other checks
      are emitted. */
  lemma TypeElided(lay: Layout, f: Facts, p: Primitive)
    requires TagTest(p) && f.ethertype == Some(0x8100) && EthAt(lay).Some?
    ensures EmitPrim(lay, f, p) == Ok(Push(Emitted([], f), ChecksFrag(BehindType(lay, p))))
  {
    assert EmitEthertype(lay, f, 0x8100) == Ok(Emitted([], f));
    if p.Vlan? {
      assert EmitPrim(lay, f, p) == Guarded(lay, f, 0x8100, ChecksFrag(BehindType(lay, p)));
    } else {
      assert Push(Emitted([], f), []) == Emitted([], f);
    }
  }

  lemma {:induction false} ChainFromStart(c: Expr, link: LinkType, a: Emitted, pkt: Packet)
    requires Chain(c) && Emit(c, Layout(link, 0), InitialFacts(link)) == Ok(a)
    ensures WellFormed(a.frag) && ChainRunsFrom(a, c, Layout(link, 0), pkt, INITIAL_REGS)
  {
    ChainCompiles(c, Layout(link, 0), InitialFacts(link), pkt);
    InitialFactsHold(link, pkt, 0);
  }

  /** A frame with one tag around an IPv4 type. */
  const ONE_TAG: Packet := [0, 0, 0, 0, 0, 0, 0, 0, 0, 0, 0, 0, 0x81, 0x00, 0, 0, 0x08, 0x00]

  function TwoTests(id: Option<u16>, p: Primitive): Expr { Expr.And(Prim(Vlan(id)), Prim(p)) }

  lemma {:induction false} SecondTagCompiles(id: Option<u16>, p: Primitive)
    requires id.None? && TagTest(p) && BehindType(Layout(Ethernet, 1), p) == []
    ensures Assemble(TwoTests(id, p), Ethernet).Ok?
  {
    var c, lay, f := Prim(Vlan(id)), Layout(Ethernet, 0), InitialFacts(Ethernet);
    var a := EmitPrim(lay, f, Vlan(id));
    assert a == Ok(Push(Emitted(CheckFrag(EqCheck(Bpf.SizeH, 12, 0x8100)), f.(ethertype := Some(0x8100))), ChecksFrag([])));
    assert Emit(c, lay, f) == a && LeadingVlan(c) && |a.value.frag| == 2;
    TypeElided(Layout(Ethernet, 1), a.value.facts, p);
    Finishing.SmallAssembles(TwoTests(id, p), Ethernet);
  }

  lemma OneTagFields(id: Option<u16>, p: Primitive)
    requires id.None? && TagTest(p)
    ensures EvalHoisted(Prim(Vlan(id)), Layout(Ethernet, 0), ONE_TAG) == True
    ensures !Matches(Prim(p), Layout(Ethernet, 1), ONE_TAG)
  {
    Deviations.TypeTest(Ethernet, 0, 0x8100, ONE_TAG);
    Deviations.TypeTest(Ethernet, 1, 0x8100, ONE_TAG);
    var lay := Layout(Ethernet, 0);
    CompiledAsWritten(lay, Vlan(id));
    assert PrimFormula(lay, Vlan(id)) == Both(EthIs(lay, 0x8100), Known(true));
    InnerTestMeaning(Layout(Ethernet, 1), p, ONE_TAG);
  }

  /** `vlan and vlan` and `vlan and ether proto 0x8100` accept it. */
  lemma {:induction false} SecondTagAcceptsIPv4(id: Option<u16>, p: Primitive)
    requires id.None? && TagTest(p) && BehindType(Layout(Ethernet, 1), p) == []
    ensures Assemble(TwoTests(id, p), Ethernet).Ok?
    ensures Accepts(Assemble(TwoTests(id, p), Ethernet).value, ONE_TAG)
    ensures !Matches(TwoTests(id, p), Layout(Ethernet, 0), ONE_TAG)
  {
    SecondTagCompiles(id, p);
    OneTagFields(id, p);
    var e, lay := TwoTests(id, p), Layout(Ethernet, 0);
    PlainlyCovered(e);
    AssembledImplements(e, Ethernet);
    assert ImplementsOn(Assemble(e, Ethernet).value, e, Ethernet, ONE_TAG);
    assert Tagged(lay) == Layout(Ethernet, 1) && LeadingVlan(Prim(Vlan(id)));
    BehindTypeOnly(Tagged(lay), p, ONE_TAG);
  }
}
