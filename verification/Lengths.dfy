// Packets long enough for every load of an expression. Hoisting moves loads in
// front of an `or`, so its theorem is about such packets.

module Lengths {
  import opened Words
  import opened Bpf
  import opened Vm
  import opened Ast
  import opened Meaning
  import opened Guards

  /** No test of the expression reads past the end of the packet. */
  predicate Readable(e: Expr, lay: Layout, pkt: Packet) {
    match e
    case Prim(p) => Eval(PrimFormula(lay, p), pkt) != Abort
    case And(l, r) => Readable(l, lay, pkt) && Readable(r, if LeadingVlan(l) then Tagged(lay) else lay, pkt)
    case Or(l, r) => Readable(l, lay, pkt) && Readable(r, lay, pkt)
    case Not(x) => Readable(x, lay, pkt)
  }

  /** Then nothing aborts, and both meanings are the same. */
  lemma {:induction false} ReadableEvaluates(e: Expr, lay: Layout, pkt: Packet)
    requires Readable(e, lay, pkt)
    ensures Eval3(e, lay, pkt) == FromBool(Matches(e, lay, pkt))
  {
    match e
    case Prim(p) => EvalIsSat(PrimFormula(lay, p), pkt);
    case And(l, r) =>
      ReadableEvaluates(l, lay, pkt);
      ReadableEvaluates(r, if LeadingVlan(l) then Tagged(lay) else lay, pkt);
    case Or(l, r) => ReadableEvaluates(l, lay, pkt); ReadableEvaluates(r, lay, pkt);
    case Not(x) => ReadableEvaluates(x, lay, pkt);
  }

  // ----- by length alone -----

  /** Readable in every packet of `n` bytes; an IPv4 header has at most 60. */
  predicate FieldFits(f: Field, n: nat) {
    match f
    case Abs(size, k) => k + Bytes(size) <= n
    case Behind(net, size, k) => net < n && 60 + k + Bytes(size) <= n
    case HeaderLen(net) => net < n
    case Length => true
    case Literal(_) => true
  }

  predicate FormulaFits(f: Formula, n: nat) {
    match f
    case Known(_) => true
    case Compare(lhs, _, _, rhs) => FieldFits(lhs, n) && FieldFits(rhs, n)
    case Both(p, q) => FormulaFits(p, n) && FormulaFits(q, n)
    case Either(p, q) => FormulaFits(p, n) && FormulaFits(q, n)
  }

  /** Every field any test of the expression mentions lies within `n` bytes. */
  predicate LongEnough(e: Expr, lay: Layout, n: nat) {
    match e
    case Prim(p) => FormulaFits(PrimFormula(lay, p), n)
    case And(l, r) => LongEnough(l, lay, n) && LongEnough(r, if LeadingVlan(l) then Tagged(lay) else lay, n)
    case Or(l, r) => LongEnough(l, lay, n) && LongEnough(r, lay, n)
    case Not(x) => LongEnough(x, lay, n)
  }

  predicate OpsDefined(ops: Ops) {
    forall i :: 0 <= i < |ops| ==> !(ops[i].0.Div? && ops[i].1 == 0)
  }

  /** No division by zero anywhere in the formula. */
  predicate Defined(f: Formula) {
    match f
    case Known(_) => true
    case Compare(_, ops, _, _) => OpsDefined(ops)
    case Both(p, q) => Defined(p) && Defined(q)
    case Either(p, q) => Defined(p) && Defined(q)
  }

  lemma {:induction false} DefinedApplies(ops: Ops, v: u32)
    requires OpsDefined(ops)
    ensures Apply(ops, v).Some?
  {
    if ops != [] {
      assert !(ops[0].0.Div? && ops[0].1 == 0);
      DefinedApplies(ops[1..], AluResult(ops[0].0, v, ops[0].1).value);
    }
  }

  lemma FitsReads(f: Field, pkt: Packet)
    requires FieldFits(f, |pkt|)
    ensures Read(f, pkt).Some?
  {
    if f.Behind? {
      var hl := MshLoad(pkt, f.net).value;
      assert Add32(hl, f.k) <= hl + f.k;
    }
  }

  lemma {:induction false} FitsEvaluates(f: Formula, pkt: Packet)
    requires FormulaFits(f, |pkt|) && Defined(f)
    ensures Eval(f, pkt) != Abort
  {
    match f
    case Known(_) =>
    case Compare(lhs, ops, _, rhs) =>
      FitsReads(lhs, pkt);
      FitsReads(rhs, pkt);
      DefinedApplies(ops, Read(lhs, pkt).value);
    case Both(p, q) => FitsEvaluates(p, pkt); FitsEvaluates(q, pkt);
    case Either(p, q) => FitsEvaluates(p, pkt); FitsEvaluates(q, pkt);
  }

  lemma {:induction false} AllDefined(cs: seq<Check>)
    requires forall i :: 0 <= i < |cs| ==> OpsDefined(cs[i].ops)
    ensures Defined(All(cs))
  {
    if cs != [] {
      assert OpsDefined(cs[0].ops);
      AllDefined(cs[1..]);
    }
  }

  lemma {:induction false} GroupsDefined(a: Ip6Addr, n: u8, at: nat, i: nat)
    requires i <= 8
    ensures Defined(All(Groups(a, at, i))) && Defined(All(PrefixGroups(a, n, at, i)))
    decreases 8 - i
  {
    if i < 8 {
      GroupsDefined(a, n, at, i + 1);
      assert Groups(a, at, i)[1..] == Groups(a, at, i + 1);
      if i * 16 < n { assert PrefixGroups(a, n, at, i)[1..] == PrefixGroups(a, n, at, i + 1); }
    }
  }

  lemma {:induction false} AluOpsDefined(ops: seq<(ArithOp, u32)>)
    ensures AluOps(ops).Some? ==> OpsDefined(AluOps(ops).value)
  {
    if ops != [] { AluOpsDefined(ops[1..]); }
  }

  lemma ByteInDefined(at: nat, s: L4Set)
    ensures Defined(ByteIn(at, s))
  {
    assert forall v :: Defined(FieldIs(SizeB, at, v));
  }

  lemma PrereqsDefined(lay: Layout, s: L4Set)
    ensures Defined(Ports4(lay, s)) && Defined(Ports6(lay, s))
  {
    ByteInDefined(NetAt(lay) + 9, s);
    ByteInDefined(NetAt(lay) + 6, s);
    assert Defined(FirstFragment(lay));
    assert Defined(Both(ByteIn(NetAt(lay) + 9, s), FirstFragment(lay)));
  }

  lemma ByDirDefined(dir: Dir, p: Formula, q: Formula)
    requires Defined(p) && Defined(q)
    ensures Defined(ByDir(dir, p, q))
  {
  }

  lemma PortsDefined(lay: Layout, s: L4Set, dir: Dir, t: Field -> Formula)
    requires forall f :: Defined(t(f))
    ensures Defined(OnPorts(lay, s, dir, t))
  {
    PrereqsDefined(lay, s);
    var six := ByDir(dir, t(PortField(lay, true, false)), t(PortField(lay, true, true)));
    var four := ByDir(dir, t(PortField(lay, false, false)), t(PortField(lay, false, true)));
    ByDirDefined(dir, t(PortField(lay, true, false)), t(PortField(lay, true, true)));
    ByDirDefined(dir, t(PortField(lay, false, false)), t(PortField(lay, false, true)));
    assert Defined(Both(Ports6(lay, s), six)) && Defined(Both(Ports4(lay, s), four));
  }

  lemma AddressDefined(lay: Layout, dir: Dir, s: seq<Check>, d: seq<Check>, et: u32)
    requires Defined(All(s)) && Defined(All(d))
    ensures Defined(Both(EthIs(lay, et), ByDir(dir, All(s), All(d))))
  {
    ByDirDefined(dir, All(s), All(d));
  }

  lemma Address4Defined(lay: Layout, a: u32, m: u32, dir: Dir)
    ensures Defined(Host4Formula(lay, a, dir)) && Defined(NetworkFormula(lay, a, m, dir))
  {
    var n := NetAt(lay);
    var s, d := [EqCheck(SizeW, n + 12, a)], [EqCheck(SizeW, n + 16, a)];
    AllDefined(s);
    AllDefined(d);
    AddressDefined(lay, dir, s, d, 0x0800);
    s, d := [Masked(n + 12, a, m)], [Masked(n + 16, a, m)];
    AllDefined(s);
    AllDefined(d);
    AddressDefined(lay, dir, s, d, 0x0800);
  }

  lemma Address6Defined(lay: Layout, a: Ip6Addr, k: u8, dir: Dir)
    ensures Defined(Host6Formula(lay, a, dir)) && Defined(Network6Formula(lay, a, k, dir))
  {
    var s, d := NetAt(lay) + 8, NetAt(lay) + 24;
    GroupsDefined(a, k, s, 0);
    GroupsDefined(a, k, d, 0);
    AddressDefined(lay, dir, Groups(a, s, 0), Groups(a, d, 0), 0x86dd);
    AddressDefined(lay, dir, PrefixGroups(a, k, s, 0), PrefixGroups(a, k, d, 0), 0x86dd);
  }

  lemma TypeDefined(lay: Layout, p: Primitive)
    requires p.EtherMulticast? || p.IpBroadcast? || p.IpMulticast? || p.Ip6Multicast? || p.Vlan? || p.PppoeSession? || p.EtherHost?
    ensures Defined(PrimFormula(lay, p))
  {
    match p
    case EtherMulticast => AllDefined(EtherMulticastChecks());
    case IpBroadcast => AllDefined(BroadcastChecks(lay));
    case IpMulticast => AllDefined(MulticastChecks(lay));
    case Ip6Multicast => AllDefined(Multicast6Checks(lay));
    case Vlan(id) => AllDefined(VlanChecks(lay, id));
    case PppoeSession(id) => AllDefined(SessionChecks(lay, id));
    case EtherHost(mac, _) => AllDefined(Mac(mac, 0)); AllDefined(Mac(mac, 6));
  }

  lemma PrimDefined(lay: Layout, p: Primitive)
    ensures Defined(PrimFormula(lay, p))
  {
    if p.Host4? {
      Address4Defined(lay, p.addr, 0, p.dir);
    } else if p.Network? {
      Address4Defined(lay, p.addr, p.mask, p.dir);
    } else if p.Host6? {
      Address6Defined(lay, p.addr6, 0, p.dir);
    } else if p.Network6? {
      Address6Defined(lay, p.addr6, p.prefixLen, p.dir);
    } else if p.EtherMulticast? || p.IpBroadcast? || p.IpMulticast? || p.Ip6Multicast? || p.Vlan? || p.PppoeSession? || p.EtherHost? {
      TypeDefined(lay, p);
    } else if p.Port? {
      if L4SetFor(p.proto).Some? { PortsDefined(lay, L4SetFor(p.proto).value, p.dir, f => PortIs(f, p.port)); }
    } else if p.PortRange? {
      if L4SetFor(p.proto).Some? { PortsDefined(lay, L4SetFor(p.proto).value, p.dir, f => PortIn(f, p.lo, p.hi)); }
    } else if p.Access? {
      AluOpsDefined(p.ba.ops);
    }
  }

  /** A length test a caller can make is enough for every load. */
  lemma {:induction false} LongEnoughIsReadable(e: Expr, lay: Layout, pkt: Packet)
    requires LongEnough(e, lay, |pkt|)
    ensures Readable(e, lay, pkt)
  {
    match e
    case Prim(p) => PrimDefined(lay, p); FitsEvaluates(PrimFormula(lay, p), pkt);
    case And(l, r) =>
      LongEnoughIsReadable(l, lay, pkt);
      LongEnoughIsReadable(r, if LeadingVlan(l) then Tagged(lay) else lay, pkt);
    case Or(l, r) => LongEnoughIsReadable(l, lay, pkt); LongEnoughIsReadable(r, lay, pkt);
    case Not(x) => LongEnoughIsReadable(x, lay, pkt);
  }

  // ----- guards -----

  /** No hoisted check of the guard set reads past the end. */
  predicate GuardsReadable(lay: Layout, g: GuardSet, pkt: Packet) {
    && (g.ethertype.Some? ==> Eval(EthIs(lay, g.ethertype.value), pkt) != Abort)
    && (g.ip4Proto.Some? ==> Eval(Ip4ProtoIs(lay, g.ip4Proto.value), pkt) != Abort)
    && (g.ip6Next.Some? ==> Eval(Ip6NextIs(lay, g.ip6Next.value), pkt) != Abort)
    && (g.portPrereqs.Some? ==> Eval(HasPorts(lay, g.portPrereqs.value), pkt) != Abort)
  }

  lemma PortsReadable(lay: Layout, s: L4Set, dir: Dir, t: Field -> Formula, pkt: Packet)
    requires Eval(OnPorts(lay, s, dir, t), pkt) != Abort
    ensures Eval(HasPorts(lay, s), pkt) != Abort
  {
    var six := Both(Ports6(lay, s), ByDir(dir, t(PortField(lay, true, false)), t(PortField(lay, true, true))));
    var four := Both(Ports4(lay, s), ByDir(dir, t(PortField(lay, false, false)), t(PortField(lay, false, true))));
    assert OnPorts(lay, s, dir, t) == Either(six, four);
    assert Eval(six, pkt) == False ==> Eval(Ports6(lay, s), pkt) != Abort && Eval(four, pkt) != Abort;
    assert Eval(six, pkt) == True ==> Eval(Ports6(lay, s), pkt) == True;
    assert Eval(four, pkt) != Abort ==> Eval(Ports4(lay, s), pkt) != Abort;
  }

  lemma TypeReadable(lay: Layout, et: u32, rest: Formula, pkt: Packet)
    requires Eval(Both(EthIs(lay, et), rest), pkt) != Abort
    ensures Eval(EthIs(lay, et), pkt) != Abort
  {
  }

  lemma ProtoReadable(lay: Layout, p: Proto, pkt: Packet)
    requires Eval(ProtoFormula(lay, p), pkt) != Abort
    ensures GuardsReadable(lay, ProtoGuards(p), pkt)
  {
  }

  lemma PrimReadable(lay: Layout, p: Primitive, pkt: Packet)
    requires Eval(PrimFormula(lay, p), pkt) != Abort
    ensures GuardsReadable(lay, PrimGuards(p), pkt)
  {
    if p.Port? {
      if L4SetFor(p.proto).Some? { PortsReadable(lay, L4SetFor(p.proto).value, p.dir, f => PortIs(f, p.port), pkt); }
    } else if p.PortRange? {
      if L4SetFor(p.proto).Some? { PortsReadable(lay, L4SetFor(p.proto).value, p.dir, f => PortIn(f, p.lo, p.hi), pkt); }
    } else if p.IsProto? {
      ProtoReadable(lay, p.p, pkt);
    } else {
      var g, f := PrimGuards(p), PrimFormula(lay, p);
      if g.ethertype.Some? && g.ip4Proto.None? && g.ip6Next.None? && f.Both? {
        assert f == Both(EthIs(lay, g.ethertype.value), f.g);
        TypeReadable(lay, g.ethertype.value, f.g, pkt);
      }
    }
  }

  /** Guards are tests of the expression's own primitives, so they read nothing
      the primitives do not read. */
  lemma {:induction false} GuardsAreReadable(e: Expr, lay: Layout, pkt: Packet)
    requires NoShift(e) && Readable(e, lay, pkt)
    ensures GuardsReadable(lay, Required(e), pkt)
  {
    match e
    case Prim(p) => PrimReadable(lay, p, pkt);
    case And(l, r) =>
      GuardsAreReadable(l, lay, pkt);
      GuardsAreReadable(r, lay, pkt);
    case Or(l, r) => GuardsAreReadable(l, lay, pkt); GuardsAreReadable(r, lay, pkt);
    case Not(_) =>
  }

  lemma {:induction false} TypeGuardReadable(e: Expr, lay: Layout, pkt: Packet)
    requires Readable(e, lay, pkt) && Required(e).ethertype.Some?
    ensures Eval(EthIs(lay, Required(e).ethertype.value), pkt) != Abort
  {
    match e
    case Prim(p) => PrimReadable(lay, p, pkt);
    case And(l, r) =>
      if LeadingVlan(l) { LeadingTypeRequired(l); }
      if Required(l).ethertype.Some? { TypeGuardReadable(l, lay, pkt); } else { TypeGuardReadable(r, lay, pkt); }
    case Or(l, r) => TypeGuardReadable(l, lay, pkt);
  }
}
