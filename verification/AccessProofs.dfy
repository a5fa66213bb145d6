// Byte access, packet length and MPLS, and then every primitive at once
// (pktbaffle/src/codegen.rs:704-734, 1395-1648).

module AccessProofs {
  import opened Words
  import opened Results
  import opened Bpf
  import opened Vm
  import opened Ast
  import opened Meaning
  import opened Guards
  import opened Fragments
  import opened Emission
  import opened CheckProofs
  import opened PrimProofs
  import opened PortProofs

  lemma OneStep(i: Insn, pkt: Packet, r: Regs)
    requires Straight(i)
    ensures AllStraight([i]) && RunCode([i], pkt, r) == Step(i, pkt, r)
  {
    assert [i][1..] == [];
  }

  lemma TwoSteps(i: Insn, j: Insn, pkt: Packet, r: Regs)
    requires Straight(i) && Straight(j)
    ensures AllStraight([i, j])
    ensures RunCode([i, j], pkt, r) == var r' := Step(i, pkt, r); if r'.None? then None else Step(j, pkt, r'.value)
  {
    assert [i, j] == [i] + [j];
    OneStep(i, pkt, r);
    RunCodeAppend([i], [j], pkt, r);
    var r' := Step(i, pkt, r);
    if r'.Some? { OneStep(j, pkt, r'.value); }
  }

  /** Registers after loading a field: A is its value, and X is either the
      header length or untouched. */
  predicate Loaded(lay: Layout, l: ByteLoad, pkt: Packet, r: Regs, r': Option<Regs>) {
    var v := Read(LayerField(lay, l), pkt);
    if v.None? then r' == None
    else
      && r'.Some? && r'.value.a == v.value && r'.value.m == r.m
      && if l.layer.Trans? then Read(HeaderLength(lay), pkt) == Some(r'.value.x) else r'.value.x == r.x
  }

  lemma FieldRuns(lay: Layout, l: ByteLoad, pkt: Packet, r: Regs)
    ensures AllStraight(FieldCode(lay, l))
    ensures Loaded(lay, l, pkt, r, RunCode(FieldCode(lay, l), pkt, r))
  {
    if l.layer.Trans? {
      TwoSteps(LdxMsh(Off(NetAt(lay))), LdInd(l.size, Off(NetAt(lay) + l.offset)), pkt, r);
    } else {
      OneStep(FieldCode(lay, l)[0], pkt, r);
    }
  }

  /** A second transport load reuses the header length in X. */
  lemma FieldRunsAgain(lay: Layout, l: ByteLoad, pkt: Packet, r: Regs)
    requires l.layer.Trans? && Read(HeaderLength(lay), pkt) == Some(r.x)
    ensures AllStraight(FieldCode(lay, l)[1..])
    ensures Loaded(lay, l, pkt, r, RunCode(FieldCode(lay, l)[1..], pkt, r))
  {
    OneStep(FieldCode(lay, l)[1], pkt, r);
    assert FieldCode(lay, l)[1..] == [FieldCode(lay, l)[1]];
  }

  /** Load, then ALU operations. */
  lemma {:induction false} OperandRuns(lay: Layout, l: ByteLoad, ops: Ops, pkt: Packet, r: Regs)
    ensures var code := FieldCode(lay, l) + AluCode(ops);
            && AllStraight(code)
            && var r', v := RunCode(code, pkt, r), ReadThen(LayerField(lay, l), ops, pkt);
            if v.None? then r' == None
            else
              && r'.Some? && r'.value.a == v.value && r'.value.m == r.m
              && (l.layer.Trans? ==> Read(HeaderLength(lay), pkt) == Some(r'.value.x))
  {
    FieldRuns(lay, l, pkt, r);
    RunAlu(ops, pkt, r);
    RunCodeAppend(FieldCode(lay, l), AluCode(ops), pkt, r);
    var r' := RunCode(FieldCode(lay, l), pkt, r);
    if r'.Some? { RunAlu(ops, pkt, r'.value); }
  }

  /** Shuttling the left value through X directly. */
  lemma {:induction false} TaxRuns(lay: Layout, l: ByteLoad, pkt: Packet, r: Regs)
    requires !l.layer.Trans?
    ensures var code := [Tax] + FieldCode(lay, l);
            && AllStraight(code)
            && var r', w := RunCode(code, pkt, r), Read(LayerField(lay, l), pkt);
            if w.None? then r' == None else r'.Some? && r'.value.a == w.value && r'.value.x == r.a
  {
    OneStep(Tax, pkt, r);
    FieldRuns(lay, l, pkt, r);
    RunCodeAppend([Tax], FieldCode(lay, l), pkt, r);
    FieldRuns(lay, l, pkt, r.(x := r.a));
  }

  /** Shuttling the left value through scratch memory; `load` is the code that
      loads the right-hand field from the registers after the store. */
  lemma {:induction false} ScratchRuns(lay: Layout, l: ByteLoad, load: seq<Insn>, pkt: Packet, r: Regs)
    requires AllStraight(load)
    requires Loaded(lay, l, pkt, r.(m := r.m[0 := r.a]), RunCode(load, pkt, r.(m := r.m[0 := r.a])))
    ensures var code := [St(0)] + load + [LdxMem(0)];
            && AllStraight(code)
            && var r', w := RunCode(code, pkt, r), Read(LayerField(lay, l), pkt);
            if w.None? then r' == None else r'.Some? && r'.value.a == w.value && r'.value.x == r.a
  {
    OneStep(St(0), pkt, r);
    OneStep(LdxMem(0), pkt, r);
    RunCodeAppend([St(0)], load, pkt, r);
    RunCodeAppend([St(0)] + load, [LdxMem(0)], pkt, r);
    var r' := RunCode(load, pkt, r.(m := r.m[0 := r.a]));
    if r'.Some? { OneStep(LdxMem(0), pkt, r'.value); }
  }

  /** What follows the left operand in a field-against-field comparison. */
  function RhsCode(lay: Layout, lhs: ByteLoad, rhs: ByteLoad): seq<Insn> {
    var load := FieldCode(lay, rhs);
    if lhs.layer.Trans? then [St(0)] + (if rhs.layer.Trans? then load[1..] else load) + [LdxMem(0)]
    else if rhs.layer.Trans? then [St(0)] + load + [LdxMem(0)]
    else [Tax] + load
  }

  lemma {:induction false} RhsRuns(lay: Layout, lhs: ByteLoad, rhs: ByteLoad, pkt: Packet, r: Regs)
    requires lhs.layer.Trans? ==> Read(HeaderLength(lay), pkt) == Some(r.x)
    ensures AllStraight(RhsCode(lay, lhs, rhs))
    ensures var r', w := RunCode(RhsCode(lay, lhs, rhs), pkt, r), Read(LayerField(lay, rhs), pkt);
            if w.None? then r' == None else r'.Some? && r'.value.a == w.value && r'.value.x == r.a
  {
    var stored := r.(m := r.m[0 := r.a]);
    if lhs.layer.Trans? && rhs.layer.Trans? {
      FieldRunsAgain(lay, rhs, pkt, stored);
      ScratchRuns(lay, rhs, FieldCode(lay, rhs)[1..], pkt, r);
    } else if lhs.layer.Trans? || rhs.layer.Trans? {
      FieldRuns(lay, rhs, pkt, stored);
      ScratchRuns(lay, rhs, FieldCode(lay, rhs), pkt, r);
    } else {
      TaxRuns(lay, rhs, pkt, r);
    }
  }

  lemma {:induction false} AccessCodeParts(lay: Layout, ba: ByteAccess, ops: Ops)
    ensures AccessCode(lay, ba, ops) ==
            FieldCode(lay, ba.lhs) + AluCode(ops) + if ba.rhs.Const? then [] else RhsCode(lay, ba.lhs, ba.rhs.load)
  {
    var lhs := FieldCode(lay, ba.lhs) + AluCode(ops);
    if ba.rhs.Field? {
      var load := FieldCode(lay, ba.rhs.load);
      if ba.lhs.layer.Trans? {
        var l := if ba.rhs.load.layer.Trans? then load[1..] else load;
        assert lhs + [St(0)] + l + [LdxMem(0)] == lhs + ([St(0)] + l + [LdxMem(0)]);
      } else if ba.rhs.load.layer.Trans? {
        assert lhs + [St(0)] + load + [LdxMem(0)] == lhs + ([St(0)] + load + [LdxMem(0)]);
      } else {
        assert lhs + [Tax] + load == lhs + ([Tax] + load);
      }
    }
  }

  lemma {:induction false} AccessRuns(lay: Layout, ba: ByteAccess, ops: Ops, pkt: Packet, r: Regs)
    ensures var code := AccessCode(lay, ba, ops);
            && AllStraight(code)
            && var r', v := RunCode(code, pkt, r), ReadThen(LayerField(lay, ba.lhs), ops, pkt);
            if ba.rhs.Const? then (if v.None? then r' == None else r'.Some? && r'.value.a == v.value)
            else
              var w := Read(LayerField(lay, ba.rhs.load), pkt);
              if v.None? || w.None? then r' == None
              else r'.Some? && r'.value.a == w.value && r'.value.x == v.value
  {
    var lhs := FieldCode(lay, ba.lhs) + AluCode(ops);
    AccessCodeParts(lay, ba, ops);
    OperandRuns(lay, ba.lhs, ops, pkt, r);
    var r' := RunCode(lhs, pkt, r);
    if ba.rhs.Const? {
      assert lhs + [] == lhs;
    } else {
      var rhs := RhsCode(lay, ba.lhs, ba.rhs.load);
      assert AllStraight(rhs) by { RhsStraight(lay, ba.lhs, ba.rhs.load); }
      RunCodeAppend(lhs, rhs, pkt, r);
      if r'.Some? { RhsRuns(lay, ba.lhs, ba.rhs.load, pkt, r'.value); }
    }
  }

  lemma RhsStraight(lay: Layout, lhs: ByteLoad, rhs: ByteLoad)
    ensures AllStraight(RhsCode(lay, lhs, rhs))
  {
    FieldRuns(lay, rhs, [], INITIAL_REGS);
  }

  lemma {:induction false} AccessEnds(lay: Layout, ba: ByteAccess, ops: Ops, b: FInsn, pkt: Packet, r: Regs)
    requires AluOps(ba.ops) == Some(ops)
    requires b == if ba.rhs.Const? then CmpBranch(ba.op, ba.rhs.value) else CmpXBranch(ba.op)
    ensures Kind(Run(Plains(AccessCode(lay, ba, ops)) + [b], pkt, 0, r)) == Eval(AccessFormula(lay, ba), pkt)
  {
    var code := AccessCode(lay, ba, ops);
    AccessRuns(lay, ba, ops, pkt, r);
    RunPlains(code, [b], pkt, r);
    var r' := RunCode(code, pkt, r);
    if r'.Some? {
      if ba.rhs.Const? { CmpBranchRuns(ba.op, ba.rhs.value, pkt, r'.value); } else { CmpXBranchRuns(ba.op, pkt, r'.value); }
    }
  }

  lemma {:induction false} AccessSound(lay: Layout, f: Facts, ba: ByteAccess, pkt: Packet)
    requires EmitAccess(lay, f, ba).Ok?
    ensures Sound(EmitAccess(lay, f, ba).value, lay, f, AccessFormula(lay, ba), pkt)
  {
    var ops := AluOps(ba.ops).value;
    var b := if ba.rhs.Const? then CmpBranch(ba.op, ba.rhs.value) else CmpXBranch(ba.op);
    var code := AccessCode(lay, ba, ops);
    AccessRuns(lay, ba, ops, pkt, INITIAL_REGS);
    CodeThenBranch(code, b);
    forall r: Regs ensures Kind(Run(Plains(code) + [b], pkt, 0, r)) == Eval(AccessFormula(lay, ba), pkt) {
      AccessEnds(lay, ba, ops, b, pkt, r);
    }
    SoundAlone(lay, f, Plains(code) + [b], AccessFormula(lay, ba), pkt);
  }

  // ----- length and MPLS -----

  lemma {:induction false} LenSound(lay: Layout, f: Facts, op: CmpOp, v: u32, pkt: Packet)
    ensures Sound(EmitLen(f, op, v).value, lay, f, Compare(Length, [], op, Literal(v)), pkt)
  {
    LenDecides(op, v, pkt);
    SoundAlone(lay, f, [Plain(LdLen), CmpBranch(op, v)], Compare(Length, [], op, Literal(v)), pkt);
  }

  lemma {:induction false} LenDecides(op: CmpOp, v: u32, pkt: Packet)
    ensures Decides([Plain(LdLen), CmpBranch(op, v)], Compare(Length, [], op, Literal(v)), pkt)
  {
    var code, g := [Plain(LdLen), CmpBranch(op, v)], Compare(Length, [], op, Literal(v));
    assert code == Plains([LdLen]) + [CmpBranch(op, v)];
    CodeThenBranch([LdLen], CmpBranch(op, v));
    forall r: Regs ensures Kind(Run(code, pkt, 0, r)) == Eval(g, pkt) {
      OneStep(LdLen, pkt, r);
      RunPlains([LdLen], [CmpBranch(op, v)], pkt, r);
      CmpBranchRuns(op, v, pkt, r.(a := |pkt| % U32_SIZE));
    }
  }

  lemma MplsBranches(pkt: Packet, r: Regs)
    ensures Run([SuccessBranch(0x8847), CmpBranch(Eq, 0x8848)], pkt, 0, r) ==
            if r.a == 0x8847 then Succeeded(r) else if r.a == 0x8848 then Fell(r) else Failed(r)
  {
    var a, b := [SuccessBranch(0x8847)], [CmpBranch(Eq, 0x8848)];
    assert [SuccessBranch(0x8847), CmpBranch(Eq, 0x8848)] == a + b;
    BranchRuns(a[0], pkt, r);
    CmpBranchRuns(Eq, 0x8848, pkt, r);
    RunAppend(a, b, pkt, r);
  }

  /** The ethertype tests, without the label. */
  function MplsHead(eth: nat): Frag {
    [Plain(LdAbs(SizeH, Off(eth))), SuccessBranch(0x8847), CmpBranch(Eq, 0x8848)]
  }

  lemma {:induction false} MplsHeadRuns(eth: nat, pkt: Packet, r: Regs)
    ensures WellFormed(MplsHead(eth))
    ensures Run(MplsHead(eth), pkt, 0, r) ==
            var v := SizedLoad(pkt, Off(eth), SizeH);
            if v.None? then Crashed
            else
              var r' := r.(a := v.value);
              if v.value == 0x8847 then Succeeded(r') else if v.value == 0x8848 then Fell(r') else Failed(r')
  {
    var br := [SuccessBranch(0x8847), CmpBranch(Eq, 0x8848)];
    assert MplsHead(eth) == [Plain(LdAbs(SizeH, Off(eth)))] + br;
    OneLoad(SizeH, Off(eth), br, pkt, r);
    var v := SizedLoad(pkt, Off(eth), SizeH);
    if v.Some? { MplsBranches(pkt, r.(a := v.value)); }
  }

  lemma {:induction false} MplsTailTests(lay: Layout, eth: nat, lbl: Option<u32>, pkt: Packet)
    requires EthAt(lay) == Some(eth)
    ensures var tail := if lbl.None? then [] else CheckFrag(Check(SizeW, Off(eth + 2), [(Bpf.Rsh, 12)], Eq, lbl.value));
            MplsFrag(eth, lbl) == MplsHead(eth) + tail && Tests(tail, LabelIs(lay, lbl), pkt, None)
  {
    if lbl.None? {
      TestsNothing(pkt, None);
    } else {
      CheckTests(Check(SizeW, Off(eth + 2), [(Bpf.Rsh, 12)], Eq, lbl.value), pkt, None);
    }
  }

  lemma {:induction false} MplsDecides(lay: Layout, eth: nat, lbl: Option<u32>, pkt: Packet)
    requires EthAt(lay) == Some(eth)
    ensures Decides(MplsFrag(eth, lbl), MplsAsCompiled(lay, lbl), pkt)
  {
    var head, f := MplsHead(eth), MplsFrag(eth, lbl);
    var tail := if lbl.None? then [] else CheckFrag(Check(SizeW, Off(eth + 2), [(Bpf.Rsh, 12)], Eq, lbl.value));
    MplsTailTests(lay, eth, lbl, pkt);
    MplsHeadRuns(eth, pkt, INITIAL_REGS);
    RunAppend(head, tail, pkt, INITIAL_REGS);
    EthertypeValue(lay, eth, 0x8847, pkt);
    EthertypeValue(lay, eth, 0x8848, pkt);
    MplsParts(lay, lbl, pkt);
    forall r: Regs ensures Kind(Run(f, pkt, 0, r)) == Eval(MplsAsCompiled(lay, lbl), pkt) {
      RunAppend(head, tail, pkt, r);
      MplsHeadRuns(eth, pkt, r);
    }
  }

  lemma MplsParts(lay: Layout, lbl: Option<u32>, pkt: Packet)
    ensures Eval(MplsAsCompiled(lay, lbl), pkt) ==
            Or3(Eval(EthIs(lay, 0x8847), pkt), And3(Eval(EthIs(lay, 0x8848), pkt), Eval(LabelIs(lay, lbl), pkt)))
  {
    var both := Both(EthIs(lay, 0x8848), LabelIs(lay, lbl));
    assert Eval(both, pkt) == And3(Eval(EthIs(lay, 0x8848), pkt), Eval(LabelIs(lay, lbl), pkt));
  }

  // ----- every primitive -----

  lemma {:induction false} ProtoSound(lay: Layout, f: Facts, p: Proto, pkt: Packet)
    requires EmitProto(lay, f, p).Ok?
    ensures Sound(EmitProto(lay, f, p).value, lay, f, ProtoFormula(lay, p), pkt)
  {
    match p
    case Ip => EthertypeSound(lay, f, 0x0800, pkt);
    case Ip6 => EthertypeSound(lay, f, 0x86dd, pkt);
    case Arp => EthertypeSound(lay, f, 0x0806, pkt);
    case Rarp => EthertypeSound(lay, f, 0x8035, pkt);
    case Tcp => Ip4L4Sound(lay, f, 6, pkt);
    case Udp => Ip4L4Sound(lay, f, 17, pkt);
    case Icmp => Ip4L4Sound(lay, f, 1, pkt);
    case Igmp => Ip4L4Sound(lay, f, 2, pkt);
    case Sctp => Ip4L4Sound(lay, f, 132, pkt);
    case Icmp6 => Ip6L4Sound(lay, f, 58, pkt);
    case Num(n) => Ip4L4Sound(lay, f, n, pkt);
    case Ip6Proto(n) => Ip6L4Sound(lay, f, n, pkt);
  }

  /** If the primitive compiles, its code is sound for its formula. */
  ghost predicate Right(em: Result<Emitted>, lay: Layout, f: Facts, g: Formula, pkt: Packet) {
    em.Ok? ==> Sound(em.value, lay, f, g, pkt)
  }

  lemma {:induction false} PortRight(lay: Layout, f: Facts, port: u16, dir: Dir, proto: Option<Proto>, pkt: Packet)
    requires OffsetsFit(lay)
    ensures Right(EmitOnPorts(lay, f, proto, PortFrag(lay, dir, port)), lay, f, PortFormula(lay, port, dir, proto), pkt)
  {
    var t := (g: Field) => PortIs(g, port);
    var code := PortFrag(lay, dir, port);
    forall v6: bool, x: u32 | XFor(lay, v6, pkt, x)
      ensures Tests(code, ByDir(dir, t(PortField(lay, v6, false)), t(PortField(lay, v6, true))), pkt, Some(x))
    {
      PortFragTests(lay, dir, port, v6, pkt, x);
    }
    assert XFor(lay, true, pkt, 40);
    if EmitOnPorts(lay, f, proto, code).Ok? { OnPortsSound(lay, f, proto, code, dir, t, pkt); }
  }

  lemma {:induction false} PortRangeRight(lay: Layout, f: Facts, lo: u16, hi: u16, dir: Dir, proto: Option<Proto>, pkt: Packet)
    requires OffsetsFit(lay)
    ensures Right(EmitOnPorts(lay, f, proto, RangeFrag(lay, dir, lo, hi)), lay, f,
                  PortRangeFormula(lay, lo, hi, dir, proto), pkt)
  {
    var t := (g: Field) => PortIn(g, lo, hi);
    var code := RangeFrag(lay, dir, lo, hi);
    forall v6: bool, x: u32 | XFor(lay, v6, pkt, x)
      ensures Tests(code, ByDir(dir, t(PortField(lay, v6, false)), t(PortField(lay, v6, true))), pkt, Some(x))
    {
      RangeFragTests(lay, dir, lo, hi, v6, pkt, x);
    }
    assert XFor(lay, true, pkt, 40);
    if EmitOnPorts(lay, f, proto, code).Ok? { OnPortsSound(lay, f, proto, code, dir, t, pkt); }
  }

  lemma {:induction false} EtherHostRight(lay: Layout, f: Facts, mac: MacAddr, dir: Dir, pkt: Packet)
    ensures Right(EmitEtherHost(lay, f, mac, dir), lay, f, EtherHostFormula(mac, dir), pkt)
  {
    var flip := match dir case Src => Dst case Dst => Src case d => d;
    ListTests(flip, Mac(mac, 0), Mac(mac, 6), pkt, None);
    SoundAlone(lay, f, ListFrag(flip, Mac(mac, 0), Mac(mac, 6)), EtherHostFormula(mac, dir), pkt);
  }

  lemma {:induction false} DirectRight(lay: Layout, f: Facts, et: u32, dir: Dir, s: Check, d: Check, pkt: Packet)
    requires et != 0x8100 && s.op.Eq?
    ensures Right(Guarded(lay, f, et, DirectFrag(dir, s, d)), lay, f,
                  Both(EthIs(lay, et), ByDir(dir, All([s]), All([d]))), pkt)
  {
    DirectTests(dir, s, d, pkt, None);
    if Guarded(lay, f, et, DirectFrag(dir, s, d)).Ok? {
      GuardedSound(lay, f, et, DirectFrag(dir, s, d), ByDir(dir, All([s]), All([d])), pkt);
    }
  }

  lemma {:induction false} ListRight(lay: Layout, f: Facts, et: u32, dir: Dir, s: seq<Check>, d: seq<Check>, pkt: Packet)
    requires et != 0x8100
    ensures Right(Guarded(lay, f, et, ListFrag(dir, s, d)), lay, f,
                  Both(EthIs(lay, et), ByDir(dir, All(s), All(d))), pkt)
  {
    ListTests(dir, s, d, pkt, None);
    if Guarded(lay, f, et, ListFrag(dir, s, d)).Ok? {
      GuardedSound(lay, f, et, ListFrag(dir, s, d), ByDir(dir, All(s), All(d)), pkt);
    }
  }

  lemma {:induction false} TypeWithRight(lay: Layout, f: Facts, et: u32, cs: seq<Check>, pkt: Packet)
    requires OnRecord(lay, f, et)
    ensures Right(EmitTypeWith(lay, f, et, cs), lay, f, Both(TypeAsCompiled(lay, et), All(cs)), pkt)
  {
    ChecksTest(cs, pkt, None);
    if Guarded(lay, f, et, ChecksFrag(cs)).Ok? { GuardedSound(lay, f, et, ChecksFrag(cs), All(cs), pkt); }
  }

  lemma {:induction false} EtherMulticastRight(lay: Layout, f: Facts, pkt: Packet)
    ensures Right(EmitEtherMulticast(lay, f), lay, f, All(EtherMulticastChecks()), pkt)
  {
    ChecksTest(EtherMulticastChecks(), pkt, None);
    SoundAlone(lay, f, ChecksFrag(EtherMulticastChecks()), All(EtherMulticastChecks()), pkt);
  }

  lemma {:induction false} MplsRight(lay: Layout, f: Facts, lbl: Option<u32>, pkt: Packet)
    ensures Right(EmitMpls(lay, f, lbl), lay, f, MplsAsCompiled(lay, lbl), pkt)
  {
    if EthAt(lay).Some? {
      MplsDecides(lay, EthAt(lay).value, lbl, pkt);
      SoundAlone(lay, f, MplsFrag(EthAt(lay).value, lbl), MplsAsCompiled(lay, lbl), pkt);
    }
  }

  lemma {:induction false} TypeRight(lay: Layout, f: Facts, p: Primitive, pkt: Packet)
    requires p.IsProto? || p.EtherProto? || p.PppoeDiscovery? || p.IpProtoChain? || p.Ip6ProtoChain?
    requires TagTest(p) ==> OnRecord(lay, f, 0x8100)
    ensures Right(EmitPrim(lay, f, p), lay, f, PrimAsCompiled(lay, p), pkt)
  {
    if EmitPrim(lay, f, p).Ok? {
      match p
      case IsProto(pr) => ProtoSound(lay, f, pr, pkt);
      case EtherProto(et) => EthertypeSound(lay, f, et, pkt);
      case PppoeDiscovery => EthertypeSound(lay, f, 0x8863, pkt);
      case IpProtoChain(n) => Ip4L4Sound(lay, f, n, pkt);
      case Ip6ProtoChain(n) => Ip6L4Sound(lay, f, n, pkt);
    }
  }

  lemma {:induction false} Host4Right(lay: Layout, f: Facts, a: u32, dir: Dir, pkt: Packet)
    ensures Right(EmitHost4(lay, f, a, dir), lay, f, Host4Formula(lay, a, dir), pkt)
  {
    var s, d := EqCheck(SizeW, NetAt(lay) + 12, a), EqCheck(SizeW, NetAt(lay) + 16, a);
    assert EmitHost4(lay, f, a, dir) == Guarded(lay, f, 0x0800, DirectFrag(dir, s, d));
    assert Host4Formula(lay, a, dir) == Both(EthIs(lay, 0x0800), ByDir(dir, All([s]), All([d])));
    DirectRight(lay, f, 0x0800, dir, s, d, pkt);
  }

  lemma {:induction false} Host6Right(lay: Layout, f: Facts, a: Ip6Addr, dir: Dir, pkt: Packet)
    ensures Right(EmitHost6(lay, f, a, dir), lay, f, Host6Formula(lay, a, dir), pkt)
  {
    var s, d := Groups(a, NetAt(lay) + 8, 0), Groups(a, NetAt(lay) + 24, 0);
    assert EmitHost6(lay, f, a, dir) == Guarded(lay, f, 0x86dd, ListFrag(dir, s, d));
    assert Host6Formula(lay, a, dir) == Both(EthIs(lay, 0x86dd), ByDir(dir, All(s), All(d)));
    ListRight(lay, f, 0x86dd, dir, s, d, pkt);
  }

  lemma {:induction false} NetworkRight(lay: Layout, f: Facts, a: u32, mask: u32, dir: Dir, pkt: Packet)
    ensures Right(EmitNetwork(lay, f, a, mask, dir), lay, f, NetworkFormula(lay, a, mask, dir), pkt)
  {
    var s, d := Masked(NetAt(lay) + 12, a, mask), Masked(NetAt(lay) + 16, a, mask);
    assert EmitNetwork(lay, f, a, mask, dir) == Guarded(lay, f, 0x0800, DirectFrag(dir, s, d));
    assert NetworkFormula(lay, a, mask, dir) == Both(EthIs(lay, 0x0800), ByDir(dir, All([s]), All([d])));
    DirectRight(lay, f, 0x0800, dir, s, d, pkt);
  }

  lemma {:induction false} Network6Emits(lay: Layout, f: Facts, a: Ip6Addr, n: u8, dir: Dir)
    ensures EmitNetwork6(lay, f, a, n, dir) ==
            Guarded(lay, f, 0x86dd, ListFrag(dir, PrefixGroups(a, n, NetAt(lay) + 8, 0), PrefixGroups(a, n, NetAt(lay) + 24, 0)))
  {
  }

  lemma {:induction false} Network6Means(lay: Layout, a: Ip6Addr, n: u8, dir: Dir)
    ensures Network6Formula(lay, a, n, dir) ==
            Both(EthIs(lay, 0x86dd), ByDir(dir, All(PrefixGroups(a, n, NetAt(lay) + 8, 0)), All(PrefixGroups(a, n, NetAt(lay) + 24, 0))))
  {
  }

  lemma {:induction false} Network6Right(lay: Layout, f: Facts, a: Ip6Addr, n: u8, dir: Dir, pkt: Packet)
    ensures Right(EmitNetwork6(lay, f, a, n, dir), lay, f, Network6Formula(lay, a, n, dir), pkt)
  {
    var s, d := PrefixGroups(a, n, NetAt(lay) + 8, 0), PrefixGroups(a, n, NetAt(lay) + 24, 0);
    Network6Emits(lay, f, a, n, dir);
    Network6Means(lay, a, n, dir);
    ListRight(lay, f, 0x86dd, dir, s, d, pkt);
  }

  lemma {:induction false} AddressRight(lay: Layout, f: Facts, p: Primitive, pkt: Packet)
    requires p.Host4? || p.Host6? || p.Network? || p.Network6?
    ensures Right(EmitPrim(lay, f, p), lay, f, PrimFormula(lay, p), pkt)
  {
    match p
    case Host4(a, dir) => Host4Right(lay, f, a, dir, pkt);
    case Host6(a, dir) => Host6Right(lay, f, a, dir, pkt);
    case Network(a, mask, dir) => NetworkRight(lay, f, a, mask, dir, pkt);
    case Network6(a, n, dir) => Network6Right(lay, f, a, n, dir, pkt);
  }

  lemma {:induction false} FieldRight(lay: Layout, f: Facts, p: Primitive, pkt: Packet)
    requires p.EtherHost? || p.EtherMulticast? || p.Mpls? || p.Len? || p.Access? || p.Inbound? || p.Outbound?
    ensures Right(EmitPrim(lay, f, p), lay, f, PrimFormula(lay, p), pkt)
  {
    match p
    case EtherHost(mac, dir) => EtherHostRight(lay, f, mac, dir, pkt);
    case EtherMulticast => EtherMulticastRight(lay, f, pkt);
    case Mpls(lbl) => MplsRight(lay, f, lbl, pkt);
    case Len(op, v) => LenSound(lay, f, op, v, pkt);
    case Access(ba) => if EmitAccess(lay, f, ba).Ok? { AccessSound(lay, f, ba, pkt); }
    case Inbound =>
    case Outbound =>
  }

  /** Every primitive that compiles decides its formula on every packet. */
  lemma {:induction false} PrimSound(lay: Layout, f: Facts, p: Primitive, pkt: Packet)
    requires OffsetsFit(lay) && (TagTest(p) ==> OnRecord(lay, f, 0x8100))
    ensures Right(EmitPrim(lay, f, p), lay, f, PrimAsCompiled(lay, p), pkt)
  {
    if p.Host4? || p.Host6? || p.Network? || p.Network6? {
      AddressRight(lay, f, p, pkt);
    } else if p.IsProto? || p.EtherProto? || p.PppoeDiscovery? || p.IpProtoChain? || p.Ip6ProtoChain? {
      TypeRight(lay, f, p, pkt);
    } else if p.EtherHost? || p.EtherMulticast? || p.Mpls? || p.Len? || p.Access? || p.Inbound? || p.Outbound? {
      FieldRight(lay, f, p, pkt);
    } else {
      match p
      case Port(port, dir, proto) => PortRight(lay, f, port, dir, proto, pkt);
      case PortRange(lo, hi, dir, proto) => PortRangeRight(lay, f, lo, hi, dir, proto, pkt);
      case IpBroadcast => TypeWithRight(lay, f, 0x0800, BroadcastChecks(lay), pkt);
      case IpMulticast => TypeWithRight(lay, f, 0x0800, MulticastChecks(lay), pkt);
      case Ip6Multicast => TypeWithRight(lay, f, 0x86dd, Multicast6Checks(lay), pkt);
      case Vlan(id) => TypeWithRight(lay, f, 0x8100, VlanChecks(lay, id), pkt);
      case PppoeSession(id) => TypeWithRight(lay, f, 0x8864, SessionChecks(lay, id), pkt);
    }
  }
}
