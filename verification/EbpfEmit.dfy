// The eBPF code of each primitive and connective
// (pktbaffle/src/ebpf_codegen.rs:131-1131) and what it is meant to test: plain
// boolean tests, each false when it reads past the end of the packet.

module EbpfEmit {
  import opened Words
  import opened Results
  import opened Bpf
  import opened Ast
  import opened Meaning
  import opened EbpfVm
  import opened EbpfCode

  // ----- meaning -----

  /** Comparison of a 32-bit value with a constant. The emitted jumps compare 64
      bits with the constant sign-extended (`wide`); `AnyBit` sees only 32. */
  predicate CompareAs(op: CmpOp, a: u32, v: u32, wide: bool) {
    var k := if wide then SignExtend(v) else v;
    match op
    case Eq => a == k
    case Ne => a != k
    case Lt => a < k
    case Le => a <= k
    case Gt => a > k
    case Ge => a >= k
    case AnyBit => BitAnd(a, v) != 0
  }

  /** A test is false where it reads past the end. */
  predicate Holds(f: Formula, pkt: Packet, wide: bool) {
    match f
    case Known(b) => b
    case Compare(lhs, ops, op, rhs) =>
      var a := ReadThen(lhs, ops, pkt);
      a.Some? && rhs.Literal? && CompareAs(op, a.value, rhs.v, wide)
    case Both(p, q) => Holds(p, pkt, wide) && Holds(q, pkt, wide)
    case Either(p, q) => Holds(p, pkt, wide) || Holds(q, pkt, wide)
  }

  function ReadableWord(f: Field): Formula { Compare(f, [], Ge, Literal(0)) }

  /** The protocol byte and four readable port bytes, of either IP version. There
      is no fragment test in this back end. */
  function Transport6(lay: Layout, s: L4Set): Formula {
    Both(EthIs(lay, 0x86dd), Both(ByteIn(NetAt(lay) + 6, s), ReadableWord(Abs(SizeW, Off(NetAt(lay) + 40)))))
  }

  function Transport4(lay: Layout, s: L4Set): Formula {
    Both(EthIs(lay, 0x0800), Both(ByteIn(NetAt(lay) + 9, s), ReadableWord(Behind(Off(NetAt(lay)), SizeW, Off(NetAt(lay))))))
  }

  function OnTransport(lay: Layout, s: L4Set, dir: Dir, t: Field -> Formula): Formula {
    Either(Both(Transport6(lay, s), ByDir(dir, t(PortField(lay, true, false)), t(PortField(lay, true, true)))),
           Both(Transport4(lay, s), ByDir(dir, t(PortField(lay, false, false)), t(PortField(lay, false, true)))))
  }

  function EitherVersion(lay: Layout, n: u8): Formula { Either(Ip6NextIs(lay, n), Ip4ProtoIs(lay, n)) }

  function ProtoTest(lay: Layout, p: Proto): Formula {
    match p
    case Tcp => EitherVersion(lay, 6)
    case Udp => EitherVersion(lay, 17)
    case Sctp => EitherVersion(lay, 132)
    case _ => ProtoFormula(lay, p)
  }

  function PortTest(lay: Layout, port: u16, dir: Dir, proto: Option<Proto>): Formula {
    var s := L4SetFor(proto);
    if s.None? then Known(false) else OnTransport(lay, s.value, dir, f => PortIs(f, port))
  }

  function PortRangeTest(lay: Layout, lo: u16, hi: u16, dir: Dir, proto: Option<Proto>): Formula {
    var s := L4SetFor(proto);
    if s.None? then Known(false) else OnTransport(lay, s.value, dir, f => PortIn(f, lo, hi))
  }

  /** What each primitive tests; as in the classic back end except for transport
      protocols, ports and `mpls`, and never behind a tag. */
  function PrimTest(lay: Layout, p: Primitive): Formula {
    match p
    case IsProto(pr) => ProtoTest(lay, pr)
    case Port(port, dir, proto) => PortTest(lay, port, dir, proto)
    case PortRange(lo, hi, dir, proto) => PortRangeTest(lay, lo, hi, dir, proto)
    case Mpls(lbl) => MplsAsDocumented(lay, lbl)
    case _ => PrimFormula(lay, p)
  }

  function Low16(n: nat): nat { if n < 0x1_0000 then n else n % 0x1_0000 }

  /** The field a byte access really loads: its offset is cut to 16 bits,
      signed. */
  function LoadedField(lay: Layout, l: ByteLoad): Field {
    match l.layer
    case Raw => Abs(l.size, Position(AsI16(l.offset)))
    case Net => Abs(l.size, Position(AsI16(NetAt(lay) + l.offset)))
    case Trans => Behind(Off(NetAt(lay)), l.size, Position(NetAt(lay) + AsI16(l.offset)))
  }

  /** A position, where it is one. */
  function Position(x: int): u32 { if x < 0 then 0 else Off(x) }

  /** A byte access as compiled: the written field must lie in the packet, and
      the loaded one is compared. */
  function AccessCompiled(lay: Layout, ba: ByteAccess): Formula {
    var ops := AluOps(ba.ops);
    if ops.None? || !ba.rhs.Const? then Known(false)
    else
      Both(ReadableWord(LayerField(lay, ba.lhs)),
           Compare(LoadedField(lay, ba.lhs), ops.value, ba.op, Literal(ba.rhs.value)))
  }

  function PrimCompiled(lay: Layout, p: Primitive): Formula {
    if p.Access? then AccessCompiled(lay, p.ba) else PrimTest(lay, p)
  }

  /** The boolean meaning of an expression: as written, or as `compiled`, with
      64-bit comparisons and 16-bit offsets. */
  predicate ExprHolds(e: Expr, lay: Layout, pkt: Packet, compiled: bool) {
    match e
    case Prim(p) => Holds(if compiled then PrimCompiled(lay, p) else PrimTest(lay, p), pkt, compiled)
    case And(l, r) => ExprHolds(l, lay, pkt, compiled) && ExprHolds(r, lay, pkt, compiled)
    case Or(l, r) => ExprHolds(l, lay, pkt, compiled) || ExprHolds(r, lay, pkt, compiled)
    case Not(x) => !ExprHolds(x, lay, pkt, compiled)
  }

  // ----- building blocks -----

  /** `offset as i16`: the low 16 bits, signed. */
  function AsI16(n: nat): int { if Low16(n) < 0x8000 then Low16(n) else Low16(n) - 0x1_0000 }

  /** Leave for failure unless `end` bytes from `base` lie in the packet. */
  function BoundFrag(base: Reg, end: nat): Frag {
    [Plain(Mov(R5, base)), Plain(AddImm(R5, Off(end))), Branch(RegGt(R5, R3), ToFail)]
  }

  function LoadFrag(base: Reg, size: Size, off: nat): Frag {
    [Plain(Ldx(size, R4, base, AsI16(off)))] + if size.SizeB? then [] else [Plain(ToBe(R4, size))]
  }

  function AbsLoad(size: Size, k: nat): Frag { BoundFrag(R2, k + Bytes(size)) + LoadFrag(R2, size, k) }

  function OpsFrag(ops: Ops): (f: Frag)
    ensures |f| == |ops|
  {
    seq(|ops|, i requires 0 <= i < |ops| => Plain(Alu32(ops[i].0, R4, ops[i].1)))
  }

  /** `emit_cmp`: fall through when the comparison holds. */
  function CmpFrag(op: CmpOp, v: u32): Frag {
    match op
    case Eq => [Branch(Imm(Jne, R4, v), ToFail)]
    case Ne => [Branch(Imm(EbpfVm.Jeq, R4, v), ToFail)]
    case Gt => [Branch(Imm(Jle, R4, v), ToFail)]
    case Ge => [Branch(Imm(Jlt, R4, v), ToFail)]
    case Lt => [Branch(Imm(EbpfVm.Jge, R4, v), ToFail)]
    case Le => [Branch(Imm(EbpfVm.Jgt, R4, v), ToFail)]
    case AnyBit => [Branch(Imm(EbpfVm.Jset, R4, v), Rel(1)), Goto(ToFail)]
  }

  function SuccessFrag(v: u32): Frag { [Branch(Imm(EbpfVm.Jeq, R4, v), ToSucc)] }

  function Fetch(c: Check): Frag { AbsLoad(c.size, c.k) + OpsFrag(c.ops) }

  function CheckFrag(c: Check): Frag { Fetch(c) + CmpFrag(c.op, c.v) }

  function ChecksFrag(cs: seq<Check>): Frag {
    if cs == [] then [] else CheckFrag(cs[0]) + ChecksFrag(cs[1..])
  }

  function DirectFrag(dir: Dir, s: Check, d: Check): Frag {
    match dir
    case Src => CheckFrag(s)
    case Dst => CheckFrag(d)
    case SrcAndDst => CheckFrag(s) + CheckFrag(d)
    case SrcOrDst => Fetch(s) + SuccessFrag(s.v) + CheckFrag(d)
  }

  function ListFrag(dir: Dir, s: seq<Check>, d: seq<Check>): Frag {
    match dir
    case Src => ChecksFrag(s)
    case Dst => ChecksFrag(d)
    case SrcAndDst => ChecksFrag(s) + ChecksFrag(d)
    case SrcOrDst => OrFrag(ChecksFrag(s), ChecksFrag(d))
  }

  /** The ethertype guard: nothing to emit for IPv4 on raw IP. */
  function EthFrag(lay: Layout, et: u32): Result<Frag> {
    var at := EthAt(lay);
    if at.Some? then Ok(CheckFrag(EqCheck(SizeH, at.value, et)))
    else if et == 0x0800 then Ok([])
    else Err
  }

  function Guarded(lay: Layout, et: u32, code: Frag): Result<Frag> {
    var g :- EthFrag(lay, et);
    Ok(g + code)
  }

  /** `emit_l4_proto_check`. */
  function L4Frag(at: nat, s: L4Set): Frag {
    match s
    case One(n) => CheckFrag(EqCheck(SizeB, at, n))
    case TcpOrUdp =>
      AbsLoad(SizeB, at) + [Branch(Imm(EbpfVm.Jeq, R4, 6), Rel(1)), Branch(Imm(Jne, R4, 17), ToFail)]
  }

  /** The ethertype picks the IPv4 path, behind, or the IPv6 path. */
  function ByVersion(eth: nat, v6: Frag, v4: Frag): Frag {
    AbsLoad(SizeH, eth)
    + ([Branch(Imm(EbpfVm.Jeq, R4, 0x0800), Rel(|v6| + 2)), Branch(Imm(Jne, R4, 0x86dd), ToFail)]
       + v6 + [Goto(Rel(|v4|))] + v4)
  }

  /** `emit_dual_l4`. */
  function EmitDual(lay: Layout, n: u8): Result<Frag> {
    var eth, net := EthAt(lay), NetAt(lay);
    var v4 := CheckFrag(EqCheck(SizeB, net + 9, n));
    if eth.None? then Guarded(lay, 0x0800, v4)
    else Ok(ByVersion(eth.value, CheckFrag(EqCheck(SizeB, net + 6, n)), v4))
  }

  /** R6 to the header behind a 40-byte IPv6 header, four bytes of it in bounds. */
  function Pointer6(net: nat): Frag {
    [Plain(Mov(R6, R2)), Plain(AddImm(R6, Off(net + 40)))] + BoundFrag(R6, 4)
  }

  /** R6 to the header behind the IPv4 header, `end` bytes of it in bounds. */
  function Pointer4(net: nat, end: nat): Frag {
    AbsLoad(SizeB, net)
    + [Plain(Alu32(Bpf.And, R4, 0x0f)), Plain(Alu32(Bpf.Lsh, R4, 2)), Plain(Mov(R6, R2)),
       Plain(AddImm(R6, Off(net))), Plain(AddReg(R6, R4))]
    + BoundFrag(R6, end)
  }

  /** `emit_port_prereqs`. */
  function PortsFrag(lay: Layout, s: L4Set): Frag {
    var eth, net := EthAt(lay), NetAt(lay);
    var v4 := L4Frag(net + 9, s) + Pointer4(net, 4);
    if eth.None? then v4 else ByVersion(eth.value, L4Frag(net + 6, s) + Pointer6(net), v4)
  }

  function PortAt(isDst: bool): nat { if isDst then 2 else 0 }

  function PortFrag(dir: Dir, port: u16): Frag {
    var s, d := LoadFrag(R6, SizeH, 0), LoadFrag(R6, SizeH, 2) + CmpFrag(Eq, port);
    match dir
    case Src => s + CmpFrag(Eq, port)
    case Dst => d
    case SrcAndDst => (s + CmpFrag(Eq, port)) + d
    case SrcOrDst => (s + SuccessFrag(port)) + d
  }

  function RangeTest(isDst: bool, lo: u16, hi: u16): Frag {
    LoadFrag(R6, SizeH, PortAt(isDst)) + (CmpFrag(Ge, lo) + CmpFrag(Le, hi))
  }

  function RangeFrag(dir: Dir, lo: u16, hi: u16): Frag {
    var s, d := RangeTest(false, lo, hi), RangeTest(true, lo, hi);
    match dir
    case Src => s
    case Dst => d
    case SrcAndDst => s + d
    case SrcOrDst => OrFrag(s, d)
  }

  function EmitOnPorts(lay: Layout, proto: Option<Proto>, code: Frag): Result<Frag> {
    var s := L4SetFor(proto);
    if s.None? then Err else Ok(PortsFrag(lay, s.value) + code)
  }

  /** The load of a byte access and the test behind it. */
  function AccessFrag(net: nat, l: ByteLoad, test: Frag): Frag {
    match l.layer
    case Raw => AbsLoad(l.size, l.offset) + test
    case Net => AbsLoad(l.size, net + l.offset) + test
    case Trans => Pointer4(net, l.offset + Bytes(l.size)) + (LoadFrag(R6, l.size, l.offset) + test)
  }

  function EmitAccess(lay: Layout, ba: ByteAccess): Result<Frag> {
    var ops := AluOps(ba.ops);
    if ops.None? || !ba.rhs.Const? then Err
    else Ok(AccessFrag(NetAt(lay), ba.lhs, OpsFrag(ops.value) + CmpFrag(ba.op, ba.rhs.value)))
  }

  function EmitProto(lay: Layout, p: Proto): Result<Frag> {
    var net := NetAt(lay);
    match p
    case Ip => EthFrag(lay, 0x0800)
    case Ip6 => EthFrag(lay, 0x86dd)
    case Arp => EthFrag(lay, 0x0806)
    case Rarp => EthFrag(lay, 0x8035)
    case Tcp => EmitDual(lay, 6)
    case Udp => EmitDual(lay, 17)
    case Sctp => EmitDual(lay, 132)
    case Icmp => EmitIp4(lay, 1)
    case Igmp => EmitIp4(lay, 2)
    case Icmp6 => EmitIp6(lay, 58)
    case Num(n) => EmitIp4(lay, n)
    case Ip6Proto(n) => EmitIp6(lay, n)
  }

  function EmitIp4(lay: Layout, n: u8): Result<Frag> {
    Guarded(lay, 0x0800, CheckFrag(EqCheck(SizeB, NetAt(lay) + 9, n)))
  }

  function EmitIp6(lay: Layout, n: u8): Result<Frag> {
    Guarded(lay, 0x86dd, CheckFrag(EqCheck(SizeB, NetAt(lay) + 6, n)))
  }

  function MplsFrag(eth: nat, lbl: Option<u32>): Frag {
    (AbsLoad(SizeH, eth) + [Branch(Imm(EbpfVm.Jeq, R4, 0x8847), Rel(1)), Branch(Imm(Jne, R4, 0x8848), ToFail)])
    + if lbl.None? then [] else CheckFrag(Check(SizeW, Off(eth + 2), [(Bpf.Rsh, 12)], Eq, lbl.value))
  }

  function EmitHost4(lay: Layout, a: u32, dir: Dir): Result<Frag> {
    var net := NetAt(lay);
    Guarded(lay, 0x0800, DirectFrag(dir, EqCheck(SizeW, net + 12, a), EqCheck(SizeW, net + 16, a)))
  }

  function EmitHost6(lay: Layout, a: Ip6Addr, dir: Dir): Result<Frag> {
    var net := NetAt(lay);
    Guarded(lay, 0x86dd, ListFrag(dir, Groups(a, net + 8, 0), Groups(a, net + 24, 0)))
  }

  function EmitNetwork(lay: Layout, a: u32, mask: u32, dir: Dir): Result<Frag> {
    var net := NetAt(lay);
    Guarded(lay, 0x0800, DirectFrag(dir, Masked(net + 12, a, mask), Masked(net + 16, a, mask)))
  }

  function EmitNetwork6(lay: Layout, a: Ip6Addr, n: u8, dir: Dir): Result<Frag> {
    var net := NetAt(lay);
    Guarded(lay, 0x86dd, ListFrag(dir, PrefixGroups(a, n, net + 8, 0), PrefixGroups(a, n, net + 24, 0)))
  }

  /** The destination address is at offset 0 and is tested first. */
  function EmitEtherHost(lay: Layout, mac: MacAddr, dir: Dir): Result<Frag> {
    var flip := match dir case Src => Dst case Dst => Src case d => d;
    if lay.link.RawIp? then Err else Ok(ListFrag(flip, Mac(mac, 0), Mac(mac, 6)))
  }

  function EmitPrim(lay: Layout, p: Primitive): Result<Frag> {
    match p
    case IsProto(pr) => EmitProto(lay, pr)
    case Host4(a, dir) => EmitHost4(lay, a, dir)
    case Host6(a, dir) => EmitHost6(lay, a, dir)
    case Network(a, mask, dir) => EmitNetwork(lay, a, mask, dir)
    case Network6(a, n, dir) => EmitNetwork6(lay, a, n, dir)
    case Port(port, dir, proto) => EmitOnPorts(lay, proto, PortFrag(dir, port))
    case PortRange(lo, hi, dir, proto) => EmitOnPorts(lay, proto, RangeFrag(dir, lo, hi))
    case EtherHost(mac, dir) => EmitEtherHost(lay, mac, dir)
    case EtherProto(et) => EthFrag(lay, et)
    case EtherMulticast => if lay.link.RawIp? then Err else Ok(ChecksFrag(EtherMulticastChecks()))
    case IpBroadcast => Guarded(lay, 0x0800, ChecksFrag(BroadcastChecks(lay)))
    case IpMulticast => Guarded(lay, 0x0800, ChecksFrag(MulticastChecks(lay)))
    case Ip6Multicast => Guarded(lay, 0x86dd, ChecksFrag(Multicast6Checks(lay)))
    case Vlan(id) => Guarded(lay, 0x8100, ChecksFrag(VlanChecks(lay, id)))
    case Mpls(lbl) => if EthAt(lay).None? then Err else Ok(MplsFrag(EthAt(lay).value, lbl))
    case PppoeDiscovery => EthFrag(lay, 0x8863)
    case PppoeSession(id) => Guarded(lay, 0x8864, ChecksFrag(SessionChecks(lay, id)))
    case IpProtoChain(n) => EmitIp4(lay, n)
    case Ip6ProtoChain(n) => EmitIp6(lay, n)
    case Len(op, v) => Ok([Plain(Mov(R4, R3)), Plain(SubReg(R4, R2))] + CmpFrag(op, v))
    case Inbound => Err
    case Outbound => Err
    case Access(ba) => EmitAccess(lay, ba)
  }

  function EmitExpr(e: Expr, lay: Layout): Result<Frag> {
    match e
    case Prim(p) => EmitPrim(lay, p)
    case And(l, r) =>
      var a :- EmitExpr(l, lay);
      var b :- EmitExpr(r, lay);
      Ok(AndFrag(a, b))
    case Or(l, r) =>
      var a :- EmitExpr(l, lay);
      var b :- EmitExpr(r, lay);
      Ok(OrFrag(a, b))
    case Not(x) =>
      var a :- EmitExpr(x, lay);
      Ok(NotFrag(a))
  }

  // ----- whole programs -----

  function Untagged(link: LinkType): Layout { Layout(link, 0) }

  const XDP_DROP: u32 := 1
  const XDP_PASS: u32 := 2

  /** Every offset fits the 16-bit field. */
  predicate ShortJumps(f: Frag) {
    forall i :: 0 <= i < |f| && f[i].Branch? && f[i].to.Rel? ==> f[i].to.off <= 0x7fff
  }

  function Place(c: Op): Code {
    if c.Plain? then Do(c.i) else Jump(c.t, if c.to.Rel? then c.to.off else 0)
  }

  function PlaceAll(f: Frag): (p: EbpfVm.Program)
    ensures |p| == |f|
  {
    seq(|f|, i requires 0 <= i < |f| => Place(f[i]))
  }

  const PROLOGUE: EbpfVm.Program := [Do(LdCtx(R2, false)), Do(LdCtx(R3, true))]

  const EPILOGUE: EbpfVm.Program := [Do(MovImm(R0, XDP_PASS)), EbpfVm.Exit, Do(MovImm(R0, XDP_DROP)), EbpfVm.Exit]

  /** The symbolic compile: success leads to the first epilogue, failure to the
      second. */
  function Compile(e: Expr, link: LinkType): Result<EbpfVm.Program> {
    var f :- EmitExpr(e, Untagged(link));
    var linked := Link(f, At(|f|), At(|f| + 2));
    if ShortJumps(linked) then Ok(PROLOGUE + PlaceAll(linked) + EPILOGUE) else Err
  }
}
