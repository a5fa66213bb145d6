// Shape of the emitted code, for every expression: resolved jumps stay inside,
// hoisted guards wait for nothing but failure, and no `expect` can fail.

module ShapeProofs {
  import opened Words
  import opened Results
  import opened Bpf
  import opened Vm
  import opened Ast
  import opened Meaning
  import opened Guards
  import opened Fragments
  import opened Emission
  import opened CheckProofs
  import opened PortProofs
  import opened AccessProofs

  /** Raw IP always counts as IPv4, so the dual-version prologue is never
      needed where there is no ethertype field. */
  predicate RawKnown(lay: Layout, f: Facts) {
    lay.link.RawIp? ==> f.ethertype == Some(0x0800)
  }

  /** A recorded ethertype is never replaced. */
  predicate TypeKept(f: Facts, f': Facts) { f.ethertype.Some? ==> f'.ethertype == f.ethertype }

  predicate GoodGuard(em: Result<Emitted>, lay: Layout, f: Facts) {
    GoodCode(em, lay, f) && (em.Ok? ==> NoSucc(em.value.frag))
  }

  predicate GoodCode(em: Result<Emitted>, lay: Layout, f: Facts) {
    && (em.Ok? ==> WellFormed(em.value.frag) && TypeKept(f, em.value.facts))
    && (RawKnown(lay, f) ==> !em.Panic?)
  }

  lemma EthertypeShape(lay: Layout, f: Facts, et: u32)
    ensures GoodGuard(EmitEthertype(lay, f, et), lay, f)
  {
    if EthAt(lay).Some? { CheckTests(EqCheck(SizeH, EthAt(lay).value, et), [], None); }
  }

  lemma {:induction false} FormAppend(f: Frag, g: Frag)
    requires WellFormed(f) && WellFormed(g)
    ensures WellFormed(f + g)
    ensures NoSucc(f) && NoSucc(g) ==> NoSucc(f + g)
  {
    RunAppend(f, g, [], INITIAL_REGS);
  }

  lemma {:induction false} ThenCheckShape(em: Emitted, c: Check)
    requires WellFormed(em.frag) && NoSucc(em.frag)
    ensures WellFormed(Push(em, CheckFrag(c)).frag) && NoSucc(Push(em, CheckFrag(c)).frag)
  {
    CheckTests(c, [], None);
    FormAppend(em.frag, CheckFrag(c));
  }

  lemma {:induction false} Ip4L4Shape(lay: Layout, f: Facts, n: u8)
    ensures GoodGuard(EmitIp4L4(lay, f, n), lay, f)
  {
    EthertypeShape(lay, f, 0x0800);
    var a := EmitEthertype(lay, f, 0x0800);
    if a.Ok? { ThenCheckShape(a.value, EqCheck(SizeB, NetAt(lay) + 9, n)); }
  }

  lemma {:induction false} Ip6L4Shape(lay: Layout, f: Facts, n: u8)
    ensures GoodGuard(EmitIp6L4(lay, f, n), lay, f)
  {
    EthertypeShape(lay, f, 0x86dd);
    var a := EmitEthertype(lay, f, 0x86dd);
    if a.Ok? { ThenCheckShape(a.value, EqCheck(SizeB, NetAt(lay) + 6, n)); }
  }

  lemma L4Shape(lay: Layout, f: Facts, n: u8)
    ensures GoodGuard(EmitIp4L4(lay, f, n), lay, f) && GoodGuard(EmitIp6L4(lay, f, n), lay, f)
  {
    Ip4L4Shape(lay, f, n);
    Ip6L4Shape(lay, f, n);
  }

  lemma PrereqsShape(lay: Layout, f: Facts, want: L4Set)
    ensures GoodGuard(EmitPortPrereqs(lay, f, want), lay, f)
  {
    var em := EmitPortPrereqs(lay, f, want);
    if em.Ok? {
      PrereqsForm(lay, f, want);
      assert em.value.facts.ethertype == f.ethertype;
    }
  }

  lemma PrereqsForm(lay: Layout, f: Facts, want: L4Set)
    requires EmitPortPrereqs(lay, f, want).Ok?
    ensures var code := EmitPortPrereqs(lay, f, want).value.frag; WellFormed(code) && NoSucc(code)
  {
    var code := EmitPortPrereqs(lay, f, want).value.frag;
    if f.portsReady.Some? && SubsetOf(f.portsReady.value, want) {
      assert code == [];
    } else if f.ethertype == Some(0x0800) {
      if f.portsReady.Some? {
        assert code == L4Frag(NetAt(lay) + 9, want);
        L4Tests(NetAt(lay) + 9, want, []);
      } else {
        assert code == ProtocolFrag(f.ip4Proto, NetAt(lay) + 9, want) + FragmentFrag(lay) + LoadX4(lay);
        Full4Form(lay, f.ip4Proto, want);
      }
    } else if f.ethertype == Some(0x86dd) {
      if f.portsReady.Some? {
        assert code == L4Frag(NetAt(lay) + 6, want);
        L4Tests(NetAt(lay) + 6, want, []);
      } else {
        assert code == ProtocolFrag(f.ip6Next, NetAt(lay) + 6, want) + LoadX6();
        Full6Form(lay, f.ip6Next, want);
      }
    } else {
      assert code == DualFrag(lay, EthAt(lay).value, want);
      DualForm(lay, EthAt(lay).value, want);
    }
  }

  lemma DualForm(lay: Layout, eth: nat, want: L4Set)
    ensures WellFormed(DualFrag(lay, eth, want)) && NoSucc(DualFrag(lay, eth, want))
  {
    Full4Form(lay, None, want);
    Full6Form(lay, None, want);
    ByVersionForm(Off(eth), V4Frag(lay, want), V6Frag(lay, want));
  }

  lemma NothingShape(lay: Layout, f: Facts)
    ensures GoodGuard(Ok(Emitted([], f)), lay, f)
  {
  }

  lemma HoistPieceShape(lay: Layout, f: Facts, g: GuardSet)
    ensures GoodGuard(HoistEthertype(lay, f, g.ethertype), lay, f) && GoodGuard(HoistIp4(lay, f, g.ip4Proto), lay, f)
    ensures GoodGuard(HoistIp6(lay, f, g.ip6Next), lay, f) && GoodGuard(HoistPorts(lay, f, g.portPrereqs), lay, f)
  {
    NothingShape(lay, f);
    if g.ethertype.Some? { EthertypeShape(lay, f, g.ethertype.value); }
    if g.ip4Proto.Some? { L4Shape(lay, f, g.ip4Proto.value); }
    if g.ip6Next.Some? { L4Shape(lay, f, g.ip6Next.value); }
    if g.portPrereqs.Some? { PrereqsShape(lay, f, g.portPrereqs.value); }
  }

  lemma {:induction false} ThenShape(lay: Layout, f: Facts, a: Emitted, b: Emitted)
    requires GoodGuard(Ok(a), lay, f) && GoodGuard(Ok(b), lay, a.facts)
    ensures GoodGuard(Ok(Then(a, b)), lay, f)
  {
    FormAppend(a.frag, b.frag);
  }

  lemma {:induction false} HoistRestShape(lay: Layout, f: Facts, g: GuardSet)
    ensures GoodGuard(HoistRest(lay, f, g), lay, f)
  {
    HoistPieceShape(lay, f, g);
    var rc := HoistIp6(lay, f, g.ip6Next);
    if rc.Ok? {
      HoistPieceShape(lay, rc.value.facts, g);
      var rd := HoistPorts(lay, rc.value.facts, g.portPrereqs);
      if rd.Ok? { ThenShape(lay, f, rc.value, rd.value); }
    }
  }

  lemma {:induction false} HoistShape(lay: Layout, f: Facts, g: GuardSet)
    ensures GoodGuard(EmitHoist(lay, f, g), lay, f)
  {
    HoistPieceShape(lay, f, g);
    var ra := HoistEthertype(lay, f, g.ethertype);
    if ra.Ok? {
      HoistPieceShape(lay, ra.value.facts, g);
      var rb := HoistIp4(lay, ra.value.facts, g.ip4Proto);
      if rb.Ok? {
        HoistRestShape(lay, rb.value.facts, g);
        var rest := HoistRest(lay, rb.value.facts, g);
        if rest.Ok? {
          ThenShape(lay, ra.value.facts, rb.value, rest.value);
          ThenShape(lay, f, ra.value, Then(rb.value, rest.value));
        }
      }
    }
  }

  lemma GuardedShape(lay: Layout, f: Facts, et: u32, code: Frag)
    requires WellFormed(code)
    ensures GoodCode(Guarded(lay, f, et, code), lay, f)
  {
    EthertypeShape(lay, f, et);
    if EmitEthertype(lay, f, et).Ok? { FormAppend(EmitEthertype(lay, f, et).value.frag, code); }
  }

  lemma OnPortsShape(lay: Layout, f: Facts, proto: Option<Proto>, code: Frag)
    requires WellFormed(code)
    ensures GoodCode(EmitOnPorts(lay, f, proto, code), lay, f)
  {
    var s := L4SetFor(proto);
    if s.Some? {
      PrereqsShape(lay, f, s.value);
      var em := EmitPortPrereqs(lay, f, s.value);
      if em.Ok? { FormAppend(em.value.frag, code); }
    }
  }

  lemma AloneShape(lay: Layout, f: Facts, code: Frag)
    requires WellFormed(code)
    ensures GoodCode(Ok(Push(Emitted([], f), code)), lay, f)
  {
    assert [] + code == code;
  }

  lemma AccessShape(lay: Layout, f: Facts, ba: ByteAccess)
    ensures GoodCode(EmitAccess(lay, f, ba), lay, f)
  {
    var ops := AluOps(ba.ops);
    if ops.Some? {
      var b := if ba.rhs.Const? then CmpBranch(ba.op, ba.rhs.value) else CmpXBranch(ba.op);
      var code := AccessCode(lay, ba, ops.value);
      AccessRuns(lay, ba, ops.value, [], INITIAL_REGS);
      CodeThenBranch(code, b);
      AloneShape(lay, f, Plains(code) + [b]);
    }
  }

  lemma DirectShape(lay: Layout, f: Facts, et: u32, dir: Dir, s: Check, d: Check)
    requires s.op.Eq?
    ensures GoodCode(Guarded(lay, f, et, DirectFrag(dir, s, d)), lay, f)
  {
    DirectTests(dir, s, d, [], None);
    GuardedShape(lay, f, et, DirectFrag(dir, s, d));
  }

  lemma ListShape(lay: Layout, f: Facts, et: u32, dir: Dir, s: seq<Check>, d: seq<Check>)
    ensures GoodCode(Guarded(lay, f, et, ListFrag(dir, s, d)), lay, f)
  {
    ListTests(dir, s, d, [], None);
    GuardedShape(lay, f, et, ListFrag(dir, s, d));
  }

  lemma HostShape(lay: Layout, f: Facts, a: u32, a6: Ip6Addr, dir: Dir)
    ensures GoodCode(EmitHost4(lay, f, a, dir), lay, f) && GoodCode(EmitHost6(lay, f, a6, dir), lay, f)
  {
    DirectShape(lay, f, 0x0800, dir, EqCheck(SizeW, NetAt(lay) + 12, a), EqCheck(SizeW, NetAt(lay) + 16, a));
    ListShape(lay, f, 0x86dd, dir, Groups(a6, NetAt(lay) + 8, 0), Groups(a6, NetAt(lay) + 24, 0));
  }

  lemma NetworkShape(lay: Layout, f: Facts, a: u32, mask: u32, a6: Ip6Addr, n: u8, dir: Dir)
    ensures GoodCode(EmitNetwork(lay, f, a, mask, dir), lay, f) && GoodCode(EmitNetwork6(lay, f, a6, n, dir), lay, f)
  {
    DirectShape(lay, f, 0x0800, dir, Masked(NetAt(lay) + 12, a, mask), Masked(NetAt(lay) + 16, a, mask));
    ListShape(lay, f, 0x86dd, dir, PrefixGroups(a6, n, NetAt(lay) + 8, 0), PrefixGroups(a6, n, NetAt(lay) + 24, 0));
  }

  lemma AddressShape(lay: Layout, f: Facts, p: Primitive)
    requires p.Host4? || p.Host6? || p.Network? || p.Network6?
    ensures GoodCode(EmitPrim(lay, f, p), lay, f)
  {
    var none: Ip6Addr := [0, 0, 0, 0, 0, 0, 0, 0];
    match p
    case Host4(a, dir) => HostShape(lay, f, a, none, dir);
    case Host6(a, dir) => HostShape(lay, f, 0, a, dir);
    case Network(a, mask, dir) => NetworkShape(lay, f, a, mask, none, 0, dir);
    case Network6(a, n, dir) => NetworkShape(lay, f, 0, 0, a, n, dir);
  }

  lemma TypeWithShape(lay: Layout, f: Facts, et: u32, cs: seq<Check>)
    ensures GoodCode(EmitTypeWith(lay, f, et, cs), lay, f)
  {
    ChecksTest(cs, [], None);
    GuardedShape(lay, f, et, ChecksFrag(cs));
  }

  lemma EtherHostShape(lay: Layout, f: Facts, mac: MacAddr, dir: Dir)
    ensures GoodCode(EmitEtherHost(lay, f, mac, dir), lay, f)
  {
    var flip := match dir case Src => Dst case Dst => Src case d => d;
    ListTests(flip, Mac(mac, 0), Mac(mac, 6), [], None);
    AloneShape(lay, f, ListFrag(flip, Mac(mac, 0), Mac(mac, 6)));
  }

  lemma MplsShape(lay: Layout, f: Facts, lbl: Option<u32>)
    ensures GoodCode(EmitMpls(lay, f, lbl), lay, f)
  {
    if EthAt(lay).Some? {
      MplsDecides(lay, EthAt(lay).value, lbl, []);
      AloneShape(lay, f, MplsFrag(EthAt(lay).value, lbl));
    }
  }

  lemma PortCodeShape(lay: Layout, dir: Dir, port: u16, lo: u16, hi: u16)
    ensures WellFormed(PortFrag(lay, dir, port)) && WellFormed(RangeFrag(lay, dir, lo, hi))
  {
    PortFragTests(lay, dir, port, true, [], 40);
    RangeFragTests(lay, dir, lo, hi, true, [], 40);
  }

  lemma FieldShape(lay: Layout, f: Facts, p: Primitive)
    requires p.EtherHost? || p.EtherMulticast? || p.Mpls? || p.Len? || p.Access? || p.Inbound? || p.Outbound?
    ensures GoodCode(EmitPrim(lay, f, p), lay, f)
  {
    match p
    case EtherHost(mac, dir) => EtherHostShape(lay, f, mac, dir);
    case EtherMulticast =>
      ChecksTest(EtherMulticastChecks(), [], None);
      AloneShape(lay, f, ChecksFrag(EtherMulticastChecks()));
    case Mpls(lbl) => MplsShape(lay, f, lbl);
    case Len(op, v) => AloneShape(lay, f, [Plain(LdLen), CmpBranch(op, v)]);
    case Access(ba) => AccessShape(lay, f, ba);
    case Inbound =>
    case Outbound =>
  }

  lemma ProtoShape(lay: Layout, f: Facts, p: Proto)
    ensures GoodCode(EmitProto(lay, f, p), lay, f)
  {
    match p
    case Ip => EthertypeShape(lay, f, 0x0800);
    case Ip6 => EthertypeShape(lay, f, 0x86dd);
    case Arp => EthertypeShape(lay, f, 0x0806);
    case Rarp => EthertypeShape(lay, f, 0x8035);
    case Tcp => L4Shape(lay, f, 6);
    case Udp => L4Shape(lay, f, 17);
    case Icmp => L4Shape(lay, f, 1);
    case Igmp => L4Shape(lay, f, 2);
    case Sctp => L4Shape(lay, f, 132);
    case Icmp6 => L4Shape(lay, f, 58);
    case Num(n) => L4Shape(lay, f, n);
    case Ip6Proto(n) => L4Shape(lay, f, n);
  }

  lemma {:induction false} PrimShape(lay: Layout, f: Facts, p: Primitive)
    ensures GoodCode(EmitPrim(lay, f, p), lay, f)
  {
    if p.Host4? || p.Host6? || p.Network? || p.Network6? {
      AddressShape(lay, f, p);
    } else if p.EtherHost? || p.EtherMulticast? || p.Mpls? || p.Len? || p.Access? || p.Inbound? || p.Outbound? {
      FieldShape(lay, f, p);
    } else {
      match p
      case Port(port, dir, proto) =>
        PortCodeShape(lay, dir, port, 0, 0);
        OnPortsShape(lay, f, proto, PortFrag(lay, dir, port));
      case PortRange(lo, hi, dir, proto) =>
        PortCodeShape(lay, dir, 0, lo, hi);
        OnPortsShape(lay, f, proto, RangeFrag(lay, dir, lo, hi));
      case IsProto(pr) => ProtoShape(lay, f, pr);
      case EtherProto(et) => EthertypeShape(lay, f, et);
      case IpBroadcast => TypeWithShape(lay, f, 0x0800, BroadcastChecks(lay));
      case IpMulticast => TypeWithShape(lay, f, 0x0800, MulticastChecks(lay));
      case Ip6Multicast => TypeWithShape(lay, f, 0x86dd, Multicast6Checks(lay));
      case Vlan(id) => TypeWithShape(lay, f, 0x8100, VlanChecks(lay, id));
      case PppoeDiscovery => EthertypeShape(lay, f, 0x8863);
      case PppoeSession(id) => TypeWithShape(lay, f, 0x8864, SessionChecks(lay, id));
      case IpProtoChain(n) => L4Shape(lay, f, n);
      case Ip6ProtoChain(n) => L4Shape(lay, f, n);
    }
  }

  /** Every expression's code is well formed, and emission never panics. */
  lemma {:induction false} EmitShape(e: Expr, lay: Layout, f: Facts)
    ensures GoodCode(Emit(e, lay, f), lay, f)
  {
    match e
    case Prim(p) => PrimShape(lay, f, p);
    case And(l, r) =>
      EmitShape(l, lay, f);
      var a := Emit(l, lay, f);
      if a.Ok? {
        var lay' := if LeadingVlan(l) then Tagged(lay) else lay;
        EmitShape(r, lay', a.value.facts);
        var b := Emit(r, lay', a.value.facts);
        if b.Ok? { RunAnd(a.value.frag, b.value.frag, [], INITIAL_REGS); }
      }
    case Or(l, r) =>
      var g := Intersect(Required(l), Required(r));
      HoistShape(lay, f, g);
      var h := EmitHoist(lay, f, g);
      if h.Ok? {
        EmitShape(l, lay, h.value.facts);
        var a := Emit(l, lay, h.value.facts);
        if a.Ok? {
          EmitShape(r, lay, Restored(h.value.facts, a.value.frag));
          var b := Emit(r, lay, Restored(h.value.facts, a.value.frag));
          if b.Ok? {
            RunOr(a.value.frag, b.value.frag, [], INITIAL_REGS);
            FormAppend(h.value.frag, OrFrag(a.value.frag, b.value.frag));
          }
        }
      }
    case Not(x) =>
      EmitShape(x, lay, f);
      if Emit(x, lay, f).Ok? { RunNot(Emit(x, lay, f).value.frag, [], INITIAL_REGS); }
  }
}
