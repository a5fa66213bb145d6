// The recursive compile is correct: elided guards, hoisted guards and X
// clobbering change no verdict (pktbaffle/src/codegen.rs:515-700).

module EmitProofs {
  import opened Words
  import opened Results
  import Bpf
  import opened Vm
  import opened Ast
  import opened Meaning
  import opened Guards
  import opened Fragments
  import opened Emission
  import opened CheckProofs
  import opened Hoisting
  import opened PrimProofs
  import opened PortProofs
  import opened AccessProofs
  import opened ShapeProofs
  import opened PortFacts

  /** The facts that can be relied on where a transport offset may be `loose`. */
  function Reliable(f: Facts, loose: bool): Facts { if loose then Drop(f) else f }

  /** What the code of `e` does wherever the facts hold: exactly what the
      hoisted meaning says, faults included; and on every success exit the
      recorded facts hold. */
  ghost predicate Compiles(em: Emitted, e: Expr, lay: Layout, f: Facts, pkt: Packet, loose: bool) {
    && WellFormed(em.frag)
    && forall r: Regs {:trigger RunsRight(em, e, lay, pkt, r, loose)} ::
        FactsHold(lay, f, pkt, r.x) ==> RunsRight(em, e, lay, pkt, r, loose)
  }

  ghost predicate RunsRight(em: Emitted, e: Expr, lay: Layout, pkt: Packet, r: Regs, loose: bool) {
    var o := Run(em.frag, pkt, 0, r);
    && Kind(o) == EvalHoisted(e, lay, pkt)
    && (Kind(o) == True ==> FactsHold(lay, Reliable(em.facts, loose), pkt, o.r.x))
  }

  /** The expressions the theorem is about: facts stay right, and behind a
      matched tag, which is on record, no offsets shift. */
  predicate Supported(e: Expr, lay: Layout, f: Facts, last: bool) {
    OffsetsFit(lay) && if lay.depth == 0 then Tracked(e, last) else NoShift(e) && f.ethertype == Some(0x8100)
  }

  // ----- hoisted guards -----

  lemma HoistEthertypeSound(lay: Layout, f: Facts, et: Option<u32>, pkt: Packet)
    requires et.Some? ==> OnRecord(lay, f, et.value)
    requires HoistEthertype(lay, f, et).Ok?
    ensures var em := HoistEthertype(lay, f, et).value;
            Sound(em, lay, f, if et.Some? && EtherProtoOffset(lay.link).Some? then TypeAsCompiled(lay, et.value) else Known(true), pkt)
            && NoSucc(em.frag)
  {
    SoundNothing(lay, f, pkt);
    if et.Some? && EtherProtoOffset(lay.link).Some? { EthertypeSound(lay, f, et.value, pkt); }
  }

  lemma {:induction false} HoistSound(lay: Layout, f: Facts, g: GuardSet, pkt: Packet)
    requires OffsetsFit(lay) && (g.ethertype.Some? ==> OnRecord(lay, f, g.ethertype.value))
    requires EmitHoist(lay, f, g).Ok?
    ensures var em := EmitHoist(lay, f, g).value;
            Sound(em, lay, f, HoistFormula(lay, g), pkt) && NoSucc(em.frag)
  {
    var a := HoistEthertype(lay, f, g.ethertype).value;
    var b := HoistIp4(lay, a.facts, g.ip4Proto).value;
    var c := HoistIp6(lay, b.facts, g.ip6Next).value;
    var d := HoistPorts(lay, c.facts, g.portPrereqs).value;
    var p := if g.ethertype.Some? && EtherProtoOffset(lay.link).Some? then TypeAsCompiled(lay, g.ethertype.value) else Known(true);
    var q := if g.ip4Proto.Some? then Ip4ProtoIs(lay, g.ip4Proto.value) else Known(true);
    var s := if g.ip6Next.Some? then Ip6NextIs(lay, g.ip6Next.value) else Known(true);
    var t := if g.portPrereqs.Some? then HasPorts(lay, g.portPrereqs.value) else Known(true);
    HoistEthertypeSound(lay, f, g.ethertype, pkt);
    SoundNothing(lay, a.facts, pkt);
    SoundNothing(lay, b.facts, pkt);
    SoundNothing(lay, c.facts, pkt);
    if g.ip4Proto.Some? { Ip4L4Sound(lay, a.facts, g.ip4Proto.value, pkt); }
    if g.ip6Next.Some? { Ip6L4Sound(lay, b.facts, g.ip6Next.value, pkt); }
    if g.portPrereqs.Some? { PortPrereqsSound(lay, c.facts, g.portPrereqs.value, pkt); }
    HoistJoins(lay, f, a, p, b, q, c, s, d, t, pkt);
  }

  lemma {:induction false} HoistJoins(lay: Layout, f: Facts, a: Emitted, p: Formula, b: Emitted, q: Formula,
                                      c: Emitted, s: Formula, d: Emitted, t: Formula, pkt: Packet)
    requires Sound(a, lay, f, p, pkt) && Sound(b, lay, a.facts, q, pkt)
    requires Sound(c, lay, b.facts, s, pkt) && Sound(d, lay, c.facts, t, pkt)
    requires NoSucc(a.frag) && NoSucc(b.frag) && NoSucc(c.frag) && NoSucc(d.frag)
    ensures var em := Then(a, Then(b, Then(c, d)));
            Sound(em, lay, f, Both(p, Both(q, Both(s, t))), pkt) && NoSucc(em.frag)
  {
    SoundThen(c, lay, b.facts, s, d, t, pkt);
    NoSuccAppend(c.frag, d.frag);
    SoundThen(b, lay, a.facts, q, Then(c, d), Both(s, t), pkt);
    NoSuccAppend(b.frag, Then(c, d).frag);
    SoundThen(a, lay, f, p, Then(b, Then(c, d)), Both(q, Both(s, t)), pkt);
    NoSuccAppend(a.frag, Then(b, Then(c, d)).frag);
  }

  // ----- connectives -----

  lemma {:induction false} AndCompiles(a: Emitted, l: Expr, b: Emitted, r: Expr, lay: Layout, f: Facts, pkt: Packet, left: bool, loose: bool)
    requires !LeadingVlan(l) && Compiles(a, l, lay, f, pkt, left) && Compiles(b, r, lay, Reliable(a.facts, left), pkt, loose)
    ensures Compiles(Emitted(AndFrag(a.frag, b.frag), b.facts), And(l, r), lay, f, pkt, loose)
  {
    var em := Emitted(AndFrag(a.frag, b.frag), b.facts);
    RunAnd(a.frag, b.frag, pkt, INITIAL_REGS);
    forall q: Regs | FactsHold(lay, f, pkt, q.x) ensures RunsRight(em, And(l, r), lay, pkt, q, loose) {
      RunAnd(a.frag, b.frag, pkt, q);
      assert RunsRight(a, l, lay, pkt, q, left);
      var o := Run(a.frag, pkt, 0, q);
      if Kind(o) == True { assert RunsRight(b, r, lay, pkt, o.r, loose); }
    }
  }

  lemma {:induction false} NotCompiles(a: Emitted, x: Expr, lay: Layout, f: Facts, pkt: Packet, inner: bool, loose: bool)
    requires Compiles(a, x, lay, f, pkt, inner)
    ensures Compiles(Emitted(NotFrag(a.frag), Restored(f, a.frag)), Not(x), lay, f, pkt, loose)
  {
    var em := Emitted(NotFrag(a.frag), Restored(f, a.frag));
    RunNot(a.frag, pkt, INITIAL_REGS);
    forall q: Regs | FactsHold(lay, f, pkt, q.x) ensures RunsRight(em, Not(x), lay, pkt, q, loose) {
      RunNot(a.frag, pkt, q);
      assert RunsRight(a, x, lay, pkt, q, inner);
      var o := Run(a.frag, pkt, 0, q);
      if o.Failed? {
        PushKeepsFacts(lay, f, a.frag, pkt, q);
        FactsWithoutX(lay, Restored(f, a.frag), pkt, o.r.x, o.r.x);
      }
    }
  }

  /** The arms of an `or`, entered behind the hoisted guards. */
  lemma {:induction false} ArmsRun(a: Emitted, l: Expr, b: Emitted, r: Expr, lay: Layout, f: Facts, pkt: Packet, q: Regs, loose: bool)
    requires Compiles(a, l, lay, f, pkt, loose) && Compiles(b, r, lay, Restored(f, a.frag), pkt, loose)
    requires FactsHold(lay, f, pkt, q.x)
    ensures var o := Run(OrFrag(a.frag, b.frag), pkt, 0, q);
            && Kind(o) == Or3(EvalHoisted(l, lay, pkt), EvalHoisted(r, lay, pkt))
            && (Kind(o) == True ==> FactsHold(lay, Reliable(MeetFacts(a.facts, b.facts), loose), pkt, o.r.x))
  {
    RunOr(a.frag, b.frag, pkt, q);
    assert RunsRight(a, l, lay, pkt, q, loose);
    var fa, fb := Reliable(a.facts, loose), Reliable(b.facts, loose);
    assert MeetFacts(fa, fb) == Reliable(MeetFacts(a.facts, b.facts), loose);
    var o := Run(a.frag, pkt, 0, q);
    if Kind(o) == True {
      MeetIsSound(lay, fa, fb, pkt, o.r.x);
    } else if o.Failed? {
      PushKeepsFacts(lay, f, a.frag, pkt, q);
      assert RunsRight(b, r, lay, pkt, o.r, loose);
      var o' := Run(b.frag, pkt, 0, o.r);
      if Kind(o') == True { MeetIsSound(lay, fa, fb, pkt, o'.r.x); }
    }
  }

  lemma {:induction false} OrCompiles(h: Emitted, g: GuardSet, a: Emitted, l: Expr, b: Emitted, r: Expr, lay: Layout, f: Facts, pkt: Packet, loose: bool)
    requires g == Shared(l, r)
    requires Sound(h, lay, f, HoistFormula(lay, g), pkt) && NoSucc(h.frag)
    requires Compiles(a, l, lay, h.facts, pkt, loose) && Compiles(b, r, lay, Restored(h.facts, a.frag), pkt, loose)
    ensures Compiles(Emitted(h.frag + OrFrag(a.frag, b.frag), MeetFacts(a.facts, b.facts)), Or(l, r), lay, f, pkt, loose)
  {
    var arms := OrFrag(a.frag, b.frag);
    var em := Emitted(h.frag + arms, MeetFacts(a.facts, b.facts));
    RunOr(a.frag, b.frag, pkt, INITIAL_REGS);
    NoSuccAnd(h.frag, arms);
    RunAnd(h.frag, arms, pkt, INITIAL_REGS);
    forall q: Regs | FactsHold(lay, f, pkt, q.x) ensures RunsRight(em, Or(l, r), lay, pkt, q, loose) {
      RunAnd(h.frag, arms, pkt, q);
      var o := Run(h.frag, pkt, 0, q);
      if Kind(o) == True { ArmsRun(a, l, b, r, lay, h.facts, pkt, o.r, loose); }
    }
  }

  // ----- and chains that begin with `vlan` -----

  /** Facts from in front of a matched tag also hold behind it ... */
  lemma FactsBehindTag(lay: Layout, f: Facts, pkt: Packet, x: u32)
    requires lay.depth == 0 && FactsHold(lay, f, pkt, x) && Eval(EthIs(lay, 0x8100), pkt) == True
    ensures FactsHold(Tagged(lay), f, pkt, x)
    ensures f.portsReady.None? && (f.ethertype.Some? ==> f.ethertype.value == 0x8100)
  {
    if f.ethertype.Some? { OneType(lay, f.ethertype.value, 0x8100, pkt); }
    if f.portsReady.Some? {
      Ports4Parts(lay, f.portsReady.value, pkt);
      Ports6Parts(lay, f.portsReady.value, pkt);
      OneType(lay, if Eval(EthIs(lay, 0x0800), pkt) == True then 0x0800 else 0x86dd, 0x8100, pkt);
    }
  }

  /** ... and the other way round, except for the transport offset. */
  lemma FactsBeforeTag(lay: Layout, f: Facts, pkt: Packet, x: u32)
    requires lay.depth == 0 && FactsHold(Tagged(lay), f, pkt, x) && Eval(EthIs(lay, 0x8100), pkt) == True
    requires f.portsReady.None? && (f.ethertype.Some? ==> f.ethertype.value == 0x8100)
    ensures FactsHold(lay, f, pkt, x)
  {
    if Eval(EthIs(lay, 0x0800), pkt) == True { OneType(lay, 0x0800, 0x8100, pkt); }
    if Eval(EthIs(lay, 0x86dd), pkt) == True { OneType(lay, 0x86dd, 0x8100, pkt); }
  }

  /** The code of a chain: the hoisted meaning exactly, and on success there is a
      tag, behind which the recorded facts hold. */
  ghost predicate ChainRuns(em: Emitted, e: Expr, lay: Layout, f: Facts, pkt: Packet) {
    && WellFormed(em.frag) && em.facts.ethertype.Some?
    && forall r: Regs {:trigger ChainRunsFrom(em, e, lay, pkt, r)} ::
        FactsHold(lay, f, pkt, r.x) ==> ChainRunsFrom(em, e, lay, pkt, r)
  }

  ghost predicate ChainRunsFrom(em: Emitted, e: Expr, lay: Layout, pkt: Packet, r: Regs) {
    var o := Run(em.frag, pkt, 0, r);
    && Kind(o) == EvalHoisted(e, lay, pkt)
    && (Kind(o) == True ==>
          && Eval(EthIs(lay, 0x8100), pkt) == True && em.facts.ethertype == Some(0x8100)
          && FactsHold(Tagged(lay), em.facts, pkt, o.r.x))
  }

  lemma TagMeaning(lay: Layout, id: Option<u16>, pkt: Packet)
    requires Eval(PrimFormula(lay, Vlan(id)), pkt) == True
    ensures Eval(EthIs(lay, 0x8100), pkt) == True
  {
    var f := TypeWith(lay, 0x8100, VlanChecks(lay, id));
    assert PrimFormula(lay, Vlan(id)) == f && f.Both? && f.f == EthIs(lay, 0x8100);
  }

  lemma TagRecorded(lay: Layout, f: Facts, id: Option<u16>)
    requires EmitPrim(lay, f, Vlan(id)).Ok?
    ensures EmitPrim(lay, f, Vlan(id)).value.facts.ethertype.Some?
  {
    assert EmitPrim(lay, f, Vlan(id)) == EmitTypeWith(lay, f, 0x8100, VlanChecks(lay, id));
  }

  lemma {:induction false} TagRuns(lay: Layout, f: Facts, id: Option<u16>, pkt: Packet)
    requires lay.depth == 0 && OffsetsFit(lay) && EmitPrim(lay, f, Vlan(id)).Ok?
    ensures ChainRuns(EmitPrim(lay, f, Vlan(id)).value, Prim(Vlan(id)), lay, f, pkt)
  {
    var em := EmitPrim(lay, f, Vlan(id)).value;
    PrimSound(lay, f, Vlan(id), pkt);
    CompiledAsWritten(lay, Vlan(id));
    TagRecorded(lay, f, id);
    forall r: Regs | FactsHold(lay, f, pkt, r.x) ensures ChainRunsFrom(em, Prim(Vlan(id)), lay, pkt, r) {
      var o := Run(em.frag, pkt, 0, r);
      if Kind(o) == True {
        TagMeaning(lay, id, pkt);
        FactsBehindTag(lay, em.facts, pkt, o.r.x);
      }
    }
  }

  lemma {:induction false} ChainAndRuns(a: Emitted, l: Expr, b: Emitted, r: Expr, lay: Layout, f: Facts, pkt: Packet)
    requires LeadingVlan(l) && ChainRuns(a, l, lay, f, pkt) && WellFormed(b.frag) && TypeKept(a.facts, b.facts)
    requires a.facts.ethertype == Some(0x8100) ==> Compiles(b, r, Tagged(lay), a.facts, pkt, false)
    ensures ChainRuns(Emitted(AndFrag(a.frag, b.frag), b.facts), And(l, r), lay, f, pkt)
  {
    var em := Emitted(AndFrag(a.frag, b.frag), b.facts);
    RunAnd(a.frag, b.frag, pkt, INITIAL_REGS);
    forall q: Regs | FactsHold(lay, f, pkt, q.x) ensures ChainRunsFrom(em, And(l, r), lay, pkt, q) {
      RunAnd(a.frag, b.frag, pkt, q);
      assert ChainRunsFrom(a, l, lay, pkt, q);
      var o := Run(a.frag, pkt, 0, q);
      if Kind(o) == True { assert RunsRight(b, r, Tagged(lay), pkt, o.r, false); }
    }
  }

  /** What the compile of a chain consists of. */
  lemma {:induction false} ChainParts(e: Expr, lay: Layout, f: Facts) returns (a: Emitted, b: Emitted)
    requires Chain(e) && e.And? && Emit(e, lay, f).Ok?
    ensures Emit(e.left, lay, f) == Ok(a) && Emit(e.right, Tagged(lay), a.facts) == Ok(b)
    ensures Emit(e, lay, f) == Ok(Emitted(AndFrag(a.frag, b.frag), b.facts)) && LeadingVlan(e.left)
  {
    ChainLeads(e.left);
    a := Emit(e.left, lay, f).value;
    b := Emit(e.right, Tagged(lay), a.facts).value;
  }

  lemma {:induction false} ChainCompiles(e: Expr, lay: Layout, f: Facts, pkt: Packet)
    requires Chain(e) && lay.depth == 0 && Emit(e, lay, f).Ok?
    ensures ChainRuns(Emit(e, lay, f).value, e, lay, f, pkt)
    decreases e, 0
  {
    if e.Prim? {
      TagRuns(lay, f, e.p.id, pkt);
    } else {
      var a, b := ChainParts(e, lay, f);
      ChainCompiles(e.left, lay, f, pkt);
      if a.facts.ethertype == Some(0x8100) { EmitCompiles(e.right, Tagged(lay), a.facts, pkt, false); }
      EmitShape(e.right, Tagged(lay), a.facts);
      ChainAndRuns(a, e.left, b, e.right, lay, f, pkt);
    }
  }

  /** A chain among other expressions: loose only where there is a tag. */
  lemma {:induction false} ChainAmongOthers(em: Emitted, e: Expr, lay: Layout, f: Facts, pkt: Packet, last: bool)
    requires lay.depth == 0 && ChainRuns(em, e, lay, f, pkt)
    requires last || (f.portsReady.None? ==> em.facts.portsReady.None?)
    ensures Compiles(em, e, lay, f, pkt, last && IsTagged(lay, pkt))
  {
    var loose := last && IsTagged(lay, pkt);
    forall r: Regs | FactsHold(lay, f, pkt, r.x) ensures RunsRight(em, e, lay, pkt, r, loose) {
      assert ChainRunsFrom(em, e, lay, pkt, r);
      var o := Run(em.frag, pkt, 0, r);
      if Kind(o) == True {
        FactsBehindTag(lay, f, pkt, r.x);
        FactsWithoutX(Tagged(lay), em.facts, pkt, o.r.x, o.r.x);
        FactsBeforeTag(lay, Drop(em.facts), pkt, o.r.x);
      }
    }
  }

  /** An expression that leaves no transport offset of its own is not loose: with
      an offset on entry there is no tag. */
  lemma {:induction false} NotLoose(em: Emitted, e: Expr, lay: Layout, f: Facts, pkt: Packet, loose: bool)
    requires lay.depth == 0 && Compiles(em, e, lay, f, pkt, loose) && (loose ==> IsTagged(lay, pkt))
    requires f.portsReady.None? ==> em.facts.portsReady.None?
    ensures Compiles(em, e, lay, f, pkt, false)
  {
    forall r: Regs | FactsHold(lay, f, pkt, r.x) ensures RunsRight(em, e, lay, pkt, r, false) {
      assert RunsRight(em, e, lay, pkt, r, loose);
      if loose { FactsBehindTag(lay, f, pkt, r.x); }
    }
  }

  // ----- the theorem -----

  /** Correctness of the recursive compile, for every supported expression that
      compiles and every packet. */
  lemma {:induction false} EmitCompiles(e: Expr, lay: Layout, f: Facts, pkt: Packet, last: bool)
    requires Supported(e, lay, f, last) && Emit(e, lay, f).Ok?
    ensures Compiles(Emit(e, lay, f).value, e, lay, f, pkt, last && IsTagged(lay, pkt))
    decreases e, 2
  {
    var loose := last && IsTagged(lay, pkt);
    match e
    case Prim(p) =>
      PrimSound(lay, f, p, pkt);
      PrimCompiles(EmitPrim(lay, f, p).value, p, lay, f, pkt, loose);
    case And(l, r) => AndEmitCompiles(e, lay, f, pkt, last);
    case Or(l, r) => OrEmitCompiles(e, lay, f, pkt, last);
    case Not(x) =>
      EmitCompiles(x, lay, f, pkt, true);
      NotCompiles(Emit(x, lay, f).value, x, lay, f, pkt, IsTagged(lay, pkt), loose);
  }

  lemma {:induction false} AndEmitCompiles(e: Expr, lay: Layout, f: Facts, pkt: Packet, last: bool)
    requires e.And? && Supported(e, lay, f, last) && Emit(e, lay, f).Ok?
    ensures Compiles(Emit(e, lay, f).value, e, lay, f, pkt, last && IsTagged(lay, pkt))
    decreases e, 1
  {
    if LeadingVlan(e.left) {
      ChainCompiles(e, lay, f, pkt);
      if !last && f.portsReady.None? { NoneLeft(e, lay, f); }
      ChainAmongOthers(Emit(e, lay, f).value, e, lay, f, pkt, last);
    } else {
      PlainAndCompiles(e, lay, f, pkt, last);
    }
  }

  /** An `and` that shifts nothing. Behind a left operand whose offset may be loose
      comes no port test, so that offset does not matter. */
  lemma {:induction false} PlainAndCompiles(e: Expr, lay: Layout, f: Facts, pkt: Packet, last: bool)
    requires e.And? && !LeadingVlan(e.left) && Supported(e, lay, f, last) && Emit(e, lay, f).Ok?
    ensures Compiles(Emit(e, lay, f).value, e, lay, f, pkt, last && IsTagged(lay, pkt))
    decreases e, 0
  {
    var a, b := AndParts(e, lay, f);
    var left := lay.depth == 0 && (!LeavesPorts(e.left) || (last && NoPorts(e.right)));
    EmitShape(e.left, lay, f);
    EmitCompiles(e.left, lay, f, pkt, left);
    if left && LeavesPorts(e.left) && IsTagged(lay, pkt) {
      PortsIrrelevant(e.right, lay, a.facts);
      EmitCompiles(e.right, lay, Drop(a.facts), pkt, true);
      AndCompiles(a, e.left, Dropped(b), e.right, lay, f, pkt, true, true);
      SameReliable(Emitted(AndFrag(a.frag, b.frag), b.facts), e, lay, f, pkt);
    } else {
      if left && IsTagged(lay, pkt) {
        if f.portsReady.None? { NoneLeft(e.left, lay, f); }
        NotLoose(a, e.left, lay, f, pkt, true);
      }
      EmitCompiles(e.right, lay, a.facts, pkt, last);
      AndCompiles(a, e.left, b, e.right, lay, f, pkt, false, last && IsTagged(lay, pkt));
    }
  }

  lemma {:induction false} AndParts(e: Expr, lay: Layout, f: Facts) returns (a: Emitted, b: Emitted)
    requires e.And? && !LeadingVlan(e.left) && Emit(e, lay, f).Ok?
    ensures Emit(e.left, lay, f) == Ok(a) && Emit(e.right, lay, a.facts) == Ok(b)
    ensures Emit(e, lay, f) == Ok(Emitted(AndFrag(a.frag, b.frag), b.facts))
  {
    a := Emit(e.left, lay, f).value;
    b := Emit(e.right, lay, a.facts).value;
  }

  /** Loosely, an offset more or less does not matter. */
  lemma SameReliable(em: Emitted, e: Expr, lay: Layout, f: Facts, pkt: Packet)
    requires Compiles(Dropped(em), e, lay, f, pkt, true)
    ensures Compiles(em, e, lay, f, pkt, true)
  {
    forall r: Regs | FactsHold(lay, f, pkt, r.x) ensures RunsRight(em, e, lay, pkt, r, true) {
      assert RunsRight(Dropped(em), e, lay, pkt, r, true);
    }
  }

  lemma {:induction false} OrEmitCompiles(e: Expr, lay: Layout, f: Facts, pkt: Packet, last: bool)
    requires e.Or? && Supported(e, lay, f, last) && Emit(e, lay, f).Ok?
    ensures Compiles(Emit(e, lay, f).value, e, lay, f, pkt, last && IsTagged(lay, pkt))
    decreases e, 0
  {
    var g, loose := Shared(e.left, e.right), last && IsTagged(lay, pkt);
    var h := EmitHoist(lay, f, g).value;
    var a := Emit(e.left, lay, h.facts).value;
    HoistShape(lay, f, g);
    HoistSound(lay, f, g, pkt);
    EmitCompiles(e.left, lay, h.facts, pkt, last);
    EmitCompiles(e.right, lay, Restored(h.facts, a.frag), pkt, last);
    OrCompiles(h, g, a, e.left, Emit(e.right, lay, Restored(h.facts, a.frag)).value, e.right, lay, f, pkt, loose);
  }

  lemma PrimCompiles(em: Emitted, p: Primitive, lay: Layout, f: Facts, pkt: Packet, loose: bool)
    requires Sound(em, lay, f, PrimAsCompiled(lay, p), pkt)
    ensures Compiles(em, Prim(p), lay, f, pkt, loose)
  {
    forall r: Regs | FactsHold(lay, f, pkt, r.x) ensures RunsRight(em, Prim(p), lay, pkt, r, loose) {
      var o := Run(em.frag, pkt, 0, r);
      if Kind(o) == True { FactsWithoutX(lay, em.facts, pkt, o.r.x, o.r.x); }
    }
  }
}
