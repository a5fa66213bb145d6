// A transport offset found behind a tag and used in front of it: why chains
// with port tests must come last.

module TagPorts {
  import opened Words
  import opened Results
  import Bpf
  import opened Vm
  import opened Ast
  import opened Meaning
  import opened Guards
  import opened Fragments
  import opened Emission
  import opened Backpatch
  import opened Lengths
  import opened Hoisting
  import opened EmitProofs
  import opened ShapeProofs
  import opened Finishing
  import opened CompileProofs
  import CheckProofs
  import PortProofs
  import Deviations
  import opened TagDeviations

  /** `vlan and tcp src port a` */
  function TagPort(a: u16): Expr { Expr.And(Prim(Vlan(None)), Prim(Port(a, Src, Some(Tcp)))) }

  /** `src port p` */
  function SrcPort(p: u16): Expr { Prim(Port(p, Src, None)) }

  /** `(vlan and tcp src port a or src port b) and src port c` */
  function TagPortThen(a: u16, b: u16, c: u16): Expr { Expr.And(Or(TagPort(a), SrcPort(b)), SrcPort(c)) }

  const OUTER: Layout := Layout(Ethernet, 0)
  const INNER: Layout := Layout(Ethernet, 1)

  lemma NothingHoisted(a: u16, b: u16, f: Facts)
    ensures Shared(TagPort(a), SrcPort(b)) == NO_GUARDS && EmitHoist(OUTER, f, NO_GUARDS) == Ok(Emitted([], f))
  {
    var none := Emitted([], f);
    assert Then(none, none) == none;
    assert HoistRest(OUTER, f, NO_GUARDS) == Ok(none);
    assert Required(TagPort(a)) == Union(EthGuard(0x8100), NO_GUARDS.(portPrereqs := Some(One(6))));
    assert Required(SrcPort(b)) == NO_GUARDS.(portPrereqs := Some(TcpOrUdp));
  }

  lemma BareKeepsX(lay: Layout, p: u16)
    ensures XWrites(PortEqFrag(lay, false, p)) == 0 && WellFormed(PortEqFrag(lay, false, p))
  {
    CheckProofs.XWritesOne(PortLoad(lay, false));
    CheckProofs.XWritesOne(CmpBranch(Eq, p));
    XWritesAppend([PortLoad(lay, false)], [CmpBranch(Eq, p)]);
    assert PortEqFrag(lay, false, p) == [PortLoad(lay, false)] + [CmpBranch(Eq, p)];
  }

  /** A port test behind a prologue for both versions. */
  lemma PortEmitted(lay: Layout, f: Facts, p: u16, proto: Option<Proto>, s: L4Set)
    requires f.ethertype != Some(0x0800) && f.ethertype != Some(0x86dd) && f.portsReady.None?
    requires EthAt(lay).Some? && L4SetFor(proto) == Some(s)
    ensures var r := EmitPrim(lay, f, Port(p, Src, proto));
            r.Ok? && r.value.facts == f.(portsReady := Some(s)) && |r.value.frag| <= 40
  {
    var em := Emitted(DualFrag(lay, EthAt(lay).value, s), f.(portsReady := Some(s)));
    assert EmitPortPrereqs(lay, f, s) == Ok(em);
    assert EmitPrim(lay, f, Port(p, Src, proto)) == Ok(Push(em, PortEqFrag(lay, false, p)));
    BareKeepsX(lay, p);
  }

  lemma {:induction false} TagPortEmitted(a: u16, f: Facts)
    requires f == InitialFacts(Ethernet)
    ensures var r := Emit(TagPort(a), OUTER, f);
            r.Ok? && r.value.facts == Facts(Some(0x8100), None, None, Some(One(6))) && |r.value.frag| <= 42
  {
    var g := f.(ethertype := Some(0x8100));
    var tag := Push(Emitted(CheckFrag(EqCheck(Bpf.SizeH, 12, 0x8100)), g), ChecksFrag([]));
    assert EmitPrim(OUTER, f, Vlan(None)) == Ok(tag) && tag.facts == g;
    PortEmitted(INNER, g, a, Some(Tcp), One(6));
    assert Tagged(OUTER) == INNER;
  }

  /** The two arms. */
  lemma {:induction false} Arms(a: u16, b: u16, f: Facts) returns (l: Emitted, r: Emitted)
    requires f == InitialFacts(Ethernet)
    ensures Emit(TagPort(a), OUTER, f) == Ok(l) && l.facts.portsReady == Some(One(6))
    ensures Emit(SrcPort(b), OUTER, Restored(f, l.frag)) == Ok(r) && r.facts.portsReady == Some(TcpOrUdp)
    ensures WellFormed(l.frag) && WellFormed(r.frag) && |l.frag| <= 42 && |r.frag| <= 40
  {
    TagPortEmitted(a, f);
    l := Emit(TagPort(a), OUTER, f).value;
    assert Restored(f, l.frag) == f;
    PortEmitted(OUTER, f, b, None, TcpOrUdp);
    r := Emit(SrcPort(b), OUTER, f).value;
    EmitShape(TagPort(a), OUTER, f);
    EmitShape(SrcPort(b), OUTER, f);
  }

  lemma {:induction false} OrEmitted(e: Expr, f: Facts, l: Emitted, r: Emitted)
    requires e.Or? && Shared(e.left, e.right) == NO_GUARDS && EmitHoist(OUTER, f, NO_GUARDS) == Ok(Emitted([], f))
    requires Emit(e.left, OUTER, f) == Ok(l) && Emit(e.right, OUTER, Restored(f, l.frag)) == Ok(r)
    ensures Emit(e, OUTER, f) == Ok(Emitted(OrFrag(l.frag, r.frag), MeetFacts(l.facts, r.facts)))
  {
    assert [] + OrFrag(l.frag, r.frag) == OrFrag(l.frag, r.frag);
  }

  /** The first operand, and the bare port comparison behind it. */
  lemma {:induction false} Parts(a: u16, b: u16, c: u16) returns (l: Emitted, r: Emitted)
    ensures Emit(TagPort(a), OUTER, InitialFacts(Ethernet)) == Ok(l) && l.facts.portsReady == Some(One(6))
    ensures Emit(SrcPort(b), OUTER, InitialFacts(Ethernet)) == Ok(r) && r.facts.portsReady == Some(TcpOrUdp)
    ensures WellFormed(l.frag) && WellFormed(r.frag) && |l.frag| <= 42 && |r.frag| <= 40
    ensures var em := Emit(TagPortThen(a, b, c), OUTER, InitialFacts(Ethernet));
            em.Ok? && em.value.frag == AndFrag(OrFrag(l.frag, r.frag), PortEqFrag(OUTER, false, c))
  {
    var f := InitialFacts(Ethernet);
    l, r := Arms(a, b, f);
    NothingHoisted(a, b, f);
    OrEmitted(Or(TagPort(a), SrcPort(b)), f, l, r);
    PortElided(MeetFacts(l.facts, r.facts), c);
    assert Restored(f, l.frag) == f;
  }

  /** The recorded transport offset leaves only the comparison. */
  lemma PortElided(f: Facts, c: u16)
    requires f.portsReady == Some(TcpOrUdp)
    ensures Emit(SrcPort(c), OUTER, f) == Ok(Push(Emitted([], f), PortEqFrag(OUTER, false, c)))
    ensures Push(Emitted([], f), PortEqFrag(OUTER, false, c)).frag == PortEqFrag(OUTER, false, c)
  {
    assert EmitPortPrereqs(OUTER, f, TcpOrUdp) == Ok(Emitted([], f));
  }

  /** The half-word the bare comparison reads for an X found behind the tag: four
      bytes in front of the source port. */
  function Stray(pkt: Packet): Option<u32> {
    var x := if Eval(EthIs(INNER, 0x0800), pkt) == True then MshLoad(pkt, 18) else Some(40);
    if x.None? then None else SizedLoad(pkt, Add32(x.value, 14), Bpf.SizeH)
  }

  /** `X` as the chain leaves it. */
  predicate InnerX(pkt: Packet, x: u32) {
    if Eval(EthIs(INNER, 0x0800), pkt) == True then MshLoad(pkt, 18) == Some(x) else x == 40
  }

  function StrayIs(c: u16, pkt: Packet): Tri { if Stray(pkt).None? then Abort else FromBool(Stray(pkt).value == c) }

  lemma {:induction false} BareComparison(c: u16, pkt: Packet, r: Regs)
    requires InnerX(pkt, r.x)
    ensures Kind(Run(PortEqFrag(OUTER, false, c), pkt, 0, r)) == StrayIs(c, pkt)
  {
    var load, b := [PortLoad(OUTER, false).i], [CmpBranch(Eq, c)];
    assert PortEqFrag(OUTER, false, c) == Plains(load) + b && load[1..] == [];
    CheckProofs.RunPlains(load, b, pkt, r);
    var v := SizedLoad(pkt, Add32(r.x, 14), Bpf.SizeH);
    if v.Some? { CheckProofs.CmpBranchRuns(Eq, c, pkt, r.(a := v.value)); }
  }

  lemma XBehindTag(f: Facts, pkt: Packet, x: u32)
    requires FactsHold(INNER, f, pkt, x) && f.portsReady == Some(One(6))
    ensures InnerX(pkt, x)
  {
    PortProofs.PortsAtByVersion(INNER, One(6), pkt, x);
    Ports4Parts(INNER, One(6), pkt);
    Ports6Parts(INNER, One(6), pkt);
    assert HeaderLength(INNER) == HeaderLen(18);
  }

  /** Where the chain succeeds it leaves X for the inner header. */
  lemma {:induction false} ChainLeavesX(l: Emitted, a: u16, pkt: Packet)
    requires Emit(TagPort(a), OUTER, InitialFacts(Ethernet)) == Ok(l) && l.facts.portsReady == Some(One(6))
    ensures var o := Run(l.frag, pkt, 0, INITIAL_REGS);
            Kind(o) == EvalHoisted(TagPort(a), OUTER, pkt) && (Kind(o) == True ==> InnerX(pkt, o.r.x) && IsTagged(OUTER, pkt))
  {
    assert Chain(TagPort(a));
    ChainFromStart(TagPort(a), Ethernet, l, pkt);
    assert Tagged(OUTER) == INNER;
    var o := Run(l.frag, pkt, 0, INITIAL_REGS);
    if Kind(o) == True { XBehindTag(l.facts, pkt, o.r.x); }
  }

  /** Where the chain fails, the rest is compiled right. */
  lemma {:induction false} OtherwiseRight(l: Emitted, r: Emitted, b: u16, c: u16, pkt: Packet, q: Regs)
    requires l.facts.portsReady == Some(One(6)) && r.facts.portsReady == Some(TcpOrUdp)
    requires Emit(SrcPort(b), OUTER, InitialFacts(Ethernet)) == Ok(r)
    ensures var o := Run(r.frag, pkt, 0, q);
            && Kind(o) == EvalHoisted(SrcPort(b), OUTER, pkt)
            && (Kind(o) == True ==>
                  Kind(Run(PortEqFrag(OUTER, false, c), pkt, 0, o.r)) == EvalHoisted(SrcPort(c), OUTER, pkt))
  {
    var f, met := InitialFacts(Ethernet), MeetFacts(l.facts, r.facts);
    InitialFactsHold(Ethernet, pkt, q.x);
    EmitCompiles(SrcPort(b), OUTER, f, pkt, false);
    assert RunsRight(r, SrcPort(b), OUTER, pkt, q, false);
    PortElided(met, c);
    EmitCompiles(SrcPort(c), OUTER, met, pkt, false);
    var o := Run(r.frag, pkt, 0, q);
    if Kind(o) == True {
      MeetIsSound(OUTER, l.facts, r.facts, pkt, o.r.x);
      assert RunsRight(Emit(SrcPort(c), OUTER, met).value, SrcPort(c), OUTER, pkt, o.r, false);
    }
  }

  /** The exact outcome on every packet: behind the chain the stray half-word is
      compared, behind the other arm the port. */
  lemma {:induction false} TagPortThenReads(a: u16, b: u16, c: u16, pkt: Packet)
    requires Assemble(TagPortThen(a, b, c), Ethernet).Ok?
    ensures var l := EvalHoisted(TagPort(a), OUTER, pkt);
            Outcomes(Assemble(TagPortThen(a, b, c), Ethernet).value, pkt) ==
            Verdict3(if l == True then StrayIs(c, pkt)
                     else And3(Or3(l, EvalHoisted(SrcPort(b), OUTER, pkt)), EvalHoisted(SrcPort(c), OUTER, pkt)))
    ensures EvalHoisted(TagPort(a), OUTER, pkt) == True ==> IsTagged(OUTER, pkt)
  {
    var em := AssembleFinishes(TagPortThen(a, b, c), Ethernet);
    var l, r := Parts(a, b, c);
    var arms, bare := OrFrag(l.frag, r.frag), PortEqFrag(OUTER, false, c);
    ExecFinished(Assemble(TagPortThen(a, b, c), Ethernet).value, em.frag, pkt, 0, INITIAL_REGS);
    ChainLeavesX(l, a, pkt);
    var o := Run(l.frag, pkt, 0, INITIAL_REGS);
    BareKeepsX(OUTER, c);
    RunOrThen(l.frag, r.frag, bare, pkt);
    if Kind(o) == True {
      BareComparison(c, pkt, o.r);
    } else if o.Failed? {
      OtherwiseRight(l, r, b, c, pkt, o.r);
    }
  }

  /** Two arms and what follows them, in terms of how each ends. */
  lemma {:induction false} RunOrThen(f: Frag, g: Frag, h: Frag, pkt: Packet)
    requires WellFormed(f) && WellFormed(g) && WellFormed(h)
    ensures var o := Run(f, pkt, 0, INITIAL_REGS);
            Kind(Run(AndFrag(OrFrag(f, g), h), pkt, 0, INITIAL_REGS)) ==
            if o.Crashed? then Abort
            else if o.Failed? then
              var o' := Run(g, pkt, 0, o.r);
              if Kind(o') == True then Kind(Run(h, pkt, 0, o'.r)) else Kind(o')
            else Kind(Run(h, pkt, 0, o.r))
  {
    RunOr(f, g, pkt, INITIAL_REGS);
    RunAnd(OrFrag(f, g), h, pkt, INITIAL_REGS);
  }

  /** A port test as written, where it can be read. */
  lemma {:induction false} SrcPortRead(p: u16, pkt: Packet)
    requires Readable(SrcPort(p), OUTER, pkt)
    ensures EvalHoisted(SrcPort(p), OUTER, pkt) == FromBool(Matches(SrcPort(p), OUTER, pkt))
  {
    CompiledAsWritten(OUTER, Port(p, Src, None));
    EvalIsSat(PrimFormula(OUTER, Port(p, Src, None)), pkt);
  }

  /** So, where every test can be read, the verdict is the written one exactly
      unless the chain accepts the packet and the stray half-word happens to be
      `c`. */
  lemma {:induction false} TagPortThenExactly(a: u16, b: u16, c: u16, pkt: Packet)
    requires Assemble(TagPortThen(a, b, c), Ethernet).Ok? && Readable(TagPortThen(a, b, c), OUTER, pkt)
    ensures (Accepts(Assemble(TagPortThen(a, b, c), Ethernet).value, pkt) <==> Matches(TagPortThen(a, b, c), OUTER, pkt))
            <==> !(Matches(TagPort(a), OUTER, pkt) && Stray(pkt) == Some(c))
  {
    TagPortThenReads(a, b, c, pkt);
    ChainRead(a, pkt);
    SrcPortRead(b, pkt);
    SrcPortRead(c, pkt);
    if Matches(TagPort(a), OUTER, pkt) { NoPortMatches(c, pkt); }
  }

  lemma {:induction false} ChainRead(a: u16, pkt: Packet)
    requires Readable(TagPort(a), OUTER, pkt)
    ensures EvalHoisted(TagPort(a), OUTER, pkt) == FromBool(Matches(TagPort(a), OUTER, pkt))
  {
    assert Chain(TagPort(a)) && OneTag(TagPort(a));
    PlainlyFits(TagPort(a));
    HoistedMeaning(TagPort(a), OUTER, pkt);
  }

  lemma {:induction false} NoPortMatches(c: u16, pkt: Packet)
    requires IsTagged(OUTER, pkt)
    ensures !Matches(SrcPort(c), OUTER, pkt)
  {
    var f := OnPorts(OUTER, TcpOrUdp, Src, x => PortIs(x, c));
    NoPortsInFront(OUTER, TcpOrUdp, pkt);
    PortProofs.NoPortsNoTest(OUTER, TcpOrUdp, Src, x => PortIs(x, c), pkt);
    EvalIsSat(f, pkt);
    assert PrimFormula(OUTER, Port(c, Src, None)) == PortFormula(OUTER, c, Src, None);
    PortFormulaIs(c);
  }

  lemma PortFormulaIs(c: u16)
    ensures PortFormula(OUTER, c, Src, None) == OnPorts(OUTER, TcpOrUdp, Src, x => PortIs(x, c))
  {
  }

  lemma {:induction false} TagPortThenCompiles(a: u16, b: u16, c: u16)
    ensures Assemble(TagPortThen(a, b, c), Ethernet).Ok?
  {
    var l, r := Parts(a, b, c);
    SmallAssembles(TagPortThen(a, b, c), Ethernet);
  }

  /** A tagged TCP segment from port `s` to an address that begins with `d`, each
      in two bytes. */
  function Segment(s1: u8, s2: u8, d1: u8, d2: u8): Packet {
    [0, 0, 0, 0, 0, 0, 0, 0, 0, 0, 0, 0, 0x81, 0x00, 0, 0, 0x08, 0x00,
     0x45, 0, 0, 0, 0, 0, 0, 0, 0, 6, 0, 0, 0, 0, 0, 0, d1, d2, 0, 0, s1, s2]
  }

  lemma SegmentTypes(s1: u8, s2: u8, d1: u8, d2: u8)
    ensures Eval(EthIs(OUTER, 0x8100), Segment(s1, s2, d1, d2)) == True
    ensures Eval(EthIs(INNER, 0x0800), Segment(s1, s2, d1, d2)) == True
    ensures Eval(EthIs(INNER, 0x86dd), Segment(s1, s2, d1, d2)) == False
  {
    Deviations.TypeTest(Ethernet, 0, 0x8100, Segment(s1, s2, d1, d2));
    Deviations.TypeTest(Ethernet, 1, 0x0800, Segment(s1, s2, d1, d2));
    Deviations.TypeTest(Ethernet, 1, 0x86dd, Segment(s1, s2, d1, d2));
  }

  lemma SegmentFields(s1: u8, s2: u8, d1: u8, d2: u8)
    ensures var pkt := Segment(s1, s2, d1, d2);
            && MshLoad(pkt, 18) == Some(20) && SizedLoad(pkt, 24, Bpf.SizeH) == Some(0)
            && SizedLoad(pkt, 27, Bpf.SizeB) == Some(6)
            && SizedLoad(pkt, 34, Bpf.SizeH) == Some(Be16(d1, d2)) && SizedLoad(pkt, 38, Bpf.SizeH) == Some(Be16(s1, s2))
  {
  }

  lemma {:induction false} SegmentPorts(s1: u8, s2: u8, d1: u8, d2: u8, a: u16)
    requires a == Be16(s1, s2)
    ensures Eval(OnPorts(INNER, One(6), Src, x => PortIs(x, a)), Segment(s1, s2, d1, d2)) == True
  {
    var pkt := Segment(s1, s2, d1, d2);
    SegmentIsTcp(s1, s2, d1, d2);
    SegmentSource(s1, s2, d1, d2, a);
    PortProofs.OnPortsParts(INNER, One(6), Src, x => PortIs(x, a), pkt);
  }

  lemma {:induction false} SegmentIsTcp(s1: u8, s2: u8, d1: u8, d2: u8)
    ensures var pkt := Segment(s1, s2, d1, d2);
            Eval(Ports4(INNER, One(6)), pkt) == True && Eval(Ports6(INNER, One(6)), pkt) == False
  {
    var pkt := Segment(s1, s2, d1, d2);
    SegmentTypes(s1, s2, d1, d2);
    SegmentFields(s1, s2, d1, d2);
    Ports6Parts(INNER, One(6), pkt);
    Ports4Parts(INNER, One(6), pkt);
    ByteTest(27, 6, pkt);
    NoFragment(pkt);
  }

  lemma ByteTest(at: nat, n: u8, pkt: Packet)
    requires at < 100 && SizedLoad(pkt, at, Bpf.SizeB) == Some(n)
    ensures Eval(ByteIn(at, One(n)), pkt) == True
  {
  }

  lemma SegmentSource(s1: u8, s2: u8, d1: u8, d2: u8, a: u16)
    requires a == Be16(s1, s2)
    ensures Eval(PortIs(PortField(INNER, false, false), a), Segment(s1, s2, d1, d2)) == True
  {
    SegmentFields(s1, s2, d1, d2);
    assert PortField(INNER, false, false) == Behind(18, Bpf.SizeH, 18);
  }

  lemma NoFragment(pkt: Packet)
    requires SizedLoad(pkt, 24, Bpf.SizeH) == Some(0)
    ensures Eval(FirstFragment(INNER), pkt) == True
  {
    ZeroMasked(0, 0x1fff);
    assert Off(NetAt(INNER) + 6) == 24;
  }

  lemma ZeroMasked(v: u32, m: u32)
    requires v == 0
    ensures Apply([(Bpf.And, m)], v) == Some(0)
  {
    var ops: Ops := [(Bpf.And, m)];
    assert ops[1..] == [];
    AndZero(m, 32);
    assert Apply(ops[1..], 0) == Some(0);
  }

  /** `(vlan and tcp src port a or src port b) and src port c` accepts that
      segment when `d` happens to be `c`. */
  lemma {:induction false} TagPortThenAccepts(s1: u8, s2: u8, d1: u8, d2: u8, b: u16)
    ensures var e, pkt := TagPortThen(Be16(s1, s2), b, Be16(d1, d2)), Segment(s1, s2, d1, d2);
            Assemble(e, Ethernet).Ok? && Accepts(Assemble(e, Ethernet).value, pkt) && !Matches(e, OUTER, pkt)
  {
    var a, c, pkt := Be16(s1, s2), Be16(d1, d2), Segment(s1, s2, d1, d2);
    TagPortThenCompiles(a, b, c);
    SegmentTypes(s1, s2, d1, d2);
    SegmentFields(s1, s2, d1, d2);
    SegmentMatchesTag(s1, s2, d1, d2, a);
    TagPortThenReads(a, b, c, pkt);
    NoPortMatches(c, pkt);
  }

  lemma {:induction false} SegmentMatchesTag(s1: u8, s2: u8, d1: u8, d2: u8, a: u16)
    requires a == Be16(s1, s2)
    ensures EvalHoisted(TagPort(a), OUTER, Segment(s1, s2, d1, d2)) == True
  {
    SegmentTypes(s1, s2, d1, d2);
    SegmentPorts(s1, s2, d1, d2, a);
    CompiledAsWritten(OUTER, Vlan(None));
    assert PrimFormula(OUTER, Vlan(None)) == Both(EthIs(OUTER, 0x8100), Known(true));
    TagPortMeaning(a, Segment(s1, s2, d1, d2));
  }

  lemma {:induction false} TagPortMeaning(a: u16, pkt: Packet)
    ensures EvalHoisted(TagPort(a), OUTER, pkt) ==
            And3(Eval(PrimFormula(OUTER, Vlan(None)), pkt), Eval(OnPorts(INNER, One(6), Src, x => PortIs(x, a)), pkt))
  {
    CompiledAsWritten(OUTER, Vlan(None));
    CompiledAsWritten(INNER, Port(a, Src, Some(Tcp)));
    assert Tagged(OUTER) == INNER && LeadingVlan(Prim(Vlan(None)));
    assert PortFormula(INNER, a, Src, Some(Tcp)) == OnPorts(INNER, One(6), Src, x => PortIs(x, a));
  }
}
