// The code each primitive and each connective emits, with its pending jumps
// still symbolic (pktbaffle/src/codegen.rs:515-1648).

module Emission {
  import opened Words
  import opened Results
  import opened Bpf
  import opened Ast
  import opened Meaning
  import opened Guards
  import opened Fragments

  /** Emitted code and the facts on its fall-through path. */
  datatype Emitted = Emitted(frag: Frag, facts: Facts)

  /** Writing X invalidates the transport-offset fact. */
  function AfterPush(f: Facts, code: Frag): Facts {
    if XWrites(code) > 0 then f.(portsReady := None) else f
  }

  function Push(em: Emitted, code: Frag): Emitted {
    Emitted(em.frag + code, AfterPush(em.facts, code))
  }

  // ----- single checks -----

  function Plains(code: seq<Insn>): (f: Frag)
    ensures |f| == |code|
  {
    seq(|code|, i requires 0 <= i < |code| => Plain(code[i]))
  }

  function AluCode(ops: Ops): (c: seq<Insn>)
    ensures |c| == |ops|
  {
    seq(|ops|, i requires 0 <= i < |ops| => Alu(ops[i].0, SrcK, ops[i].1))
  }

  /** `emit_cmp`: fall through when `A op v`, else fail. */
  function CmpBranch(op: CmpOp, v: u32): FInsn {
    match op
    case Eq => Branch(Jeq, SrcK, v, Rel(0), ToFail)
    case Ne => Branch(Jeq, SrcK, v, ToFail, Rel(0))
    case Gt => Branch(Jgt, SrcK, v, Rel(0), ToFail)
    case Ge => Branch(Jge, SrcK, v, Rel(0), ToFail)
    case Lt => Branch(Jge, SrcK, v, ToFail, Rel(0))
    case Le => Branch(Jgt, SrcK, v, ToFail, Rel(0))
    case AnyBit => Branch(Jset, SrcK, v, Rel(0), ToFail)
  }

  /** `emit_cmp_x`: A is the right-hand side, X the left-hand side. */
  function CmpXBranch(op: CmpOp): FInsn {
    match op
    case Eq => Branch(Jeq, SrcX, 0, Rel(0), ToFail)
    case Ne => Branch(Jeq, SrcX, 0, ToFail, Rel(0))
    case Lt => Branch(Jgt, SrcX, 0, Rel(0), ToFail)
    case Le => Branch(Jge, SrcX, 0, Rel(0), ToFail)
    case Gt => Branch(Jge, SrcX, 0, ToFail, Rel(0))
    case Ge => Branch(Jgt, SrcX, 0, ToFail, Rel(0))
    case AnyBit => Branch(Jset, SrcX, 0, Rel(0), ToFail)
  }

  /** A match that leaves for success at once and otherwise falls through. */
  function SuccessBranch(v: u32): FInsn { Branch(Jeq, SrcK, v, ToSucc, Rel(0)) }

  function CheckCode(c: Check): seq<Insn> { [LdAbs(c.size, c.k)] + AluCode(c.ops) }

  function CheckFrag(c: Check): Frag { Plains(CheckCode(c)) + [CmpBranch(c.op, c.v)] }

  function ChecksFrag(cs: seq<Check>): Frag {
    if cs == [] then [] else CheckFrag(cs[0]) + ChecksFrag(cs[1..])
  }

  /** Address checks by direction where either side matching may leave early. */
  function DirectFrag(dir: Dir, s: Check, d: Check): Frag {
    match dir
    case Src => ChecksFrag([s])
    case Dst => ChecksFrag([d])
    case SrcAndDst => ChecksFrag([s]) + ChecksFrag([d])
    case SrcOrDst => Plains(CheckCode(s)) + [SuccessBranch(s.v)] + ChecksFrag([d])
  }

  /** Multi-instruction address checks: `or` goes through a `ja`. */
  function ListFrag(dir: Dir, s: seq<Check>, d: seq<Check>): Frag {
    match dir
    case Src => ChecksFrag(s)
    case Dst => ChecksFrag(d)
    case SrcAndDst => ChecksFrag(s) + ChecksFrag(d)
    case SrcOrDst => OrFrag(ChecksFrag(s), ChecksFrag(d))
  }

  // ----- guards -----

  function EmitEthertype(lay: Layout, f: Facts, et: u32): Result<Emitted> {
    if EthAt(lay).Some? then
      if f.ethertype == Some(et) then Ok(Emitted([], f))
      else
        Ok(Emitted(CheckFrag(EqCheck(SizeH, EthAt(lay).value, et)),
                   if f.ethertype.None? then f.(ethertype := Some(et)) else f))
    else if et == 0x0800 then Ok(Emitted([], f))
    else Err
  }

  function EmitIp4L4(lay: Layout, f: Facts, n: u8): Result<Emitted> {
    var em :- EmitEthertype(lay, f, 0x0800);
    if em.facts.ip4Proto == Some(n) then Ok(em)
    else
      var em' := Push(em, CheckFrag(EqCheck(SizeB, NetAt(lay) + 9, n)));
      Ok(if em'.facts.ip4Proto.None? then em'.(facts := em'.facts.(ip4Proto := Some(n))) else em')
  }

  function EmitIp6L4(lay: Layout, f: Facts, n: u8): Result<Emitted> {
    var em :- EmitEthertype(lay, f, 0x86dd);
    if em.facts.ip6Next == Some(n) then Ok(em)
    else
      var em' := Push(em, CheckFrag(EqCheck(SizeB, NetAt(lay) + 6, n)));
      Ok(if em'.facts.ip6Next.None? then em'.(facts := em'.facts.(ip6Next := Some(n))) else em')
  }

  /** An ethertype guard, then code that records no fact. */
  function Guarded(lay: Layout, f: Facts, et: u32, code: Frag): Result<Emitted> {
    var em :- EmitEthertype(lay, f, et);
    Ok(Push(em, code))
  }

  // ----- the port prologue -----

  /** `emit_l4_set_check` behind the load of the protocol byte. */
  function L4Frag(at: nat, want: L4Set): Frag {
    match want
    case One(n) => [Plain(LdAbs(SizeB, Off(at))), CmpBranch(Eq, n)]
    case TcpOrUdp =>
      [Plain(LdAbs(SizeB, Off(at))), Branch(Jeq, SrcK, 6, Rel(1), Rel(0)), CmpBranch(Eq, 17)]
  }

  function FragmentFrag(lay: Layout): Frag {
    [Plain(LdAbs(SizeH, Off(NetAt(lay) + 6))), Branch(Jset, SrcK, 0x1fff, ToFail, Rel(0))]
  }

  function LoadX4(lay: Layout): Frag { [Plain(LdxMsh(Off(NetAt(lay))))] }

  function LoadX6(): Frag { [Plain(LdxImm(40))] }

  function V4Frag(lay: Layout, want: L4Set): Frag {
    L4Frag(NetAt(lay) + 9, want) + FragmentFrag(lay) + LoadX4(lay)
  }

  function V6Frag(lay: Layout, want: L4Set): Frag {
    L4Frag(NetAt(lay) + 6, want) + LoadX6()
  }

  /** The ethertype at `k` picks the IPv6 or the IPv4 path; both join behind
      the IPv6 path. */
  function ByVersion(k: u32, v4: Frag, v6: Frag): Frag {
    [Plain(LdAbs(SizeH, k)),
     Branch(Jeq, SrcK, 0x86dd, Rel(|v4| + 2), Rel(0)),
     CmpBranch(Eq, 0x0800)]
    + v4 + [Goto(Rel(|v6|))] + v6
  }

  function DualFrag(lay: Layout, eth: nat, want: L4Set): Frag {
    ByVersion(Off(eth), V4Frag(lay, want), V6Frag(lay, want))
  }

  /** What the single-version prologue proves about the protocol, and the code
      for it, when X is not in place yet. */
  function Established(known: Option<u8>, want: L4Set): L4Set {
    if known.Some? && Contains(want, known.value) then One(known.value) else want
  }

  function ProtocolFrag(known: Option<u8>, at: nat, want: L4Set): Frag {
    if known.Some? && Contains(want, known.value) then [] else L4Frag(at, want)
  }

  function PinnedProto(known: Option<u8>, s: L4Set): Option<u8> {
    if known.None? && s.One? then Some(s.n) else known
  }

  function EmitPortPrereqs(lay: Layout, f: Facts, want: L4Set): Result<Emitted> {
    if f.portsReady.Some? && SubsetOf(f.portsReady.value, want) then Ok(Emitted([], f))
    else if f.ethertype == Some(0x0800) then
      if f.portsReady.Some? then
        Ok(Emitted(L4Frag(NetAt(lay) + 9, want),
                   f.(ip4Proto := PinnedProto(f.ip4Proto, want), portsReady := Some(want))))
      else
        var s := Established(f.ip4Proto, want);
        Ok(Emitted(ProtocolFrag(f.ip4Proto, NetAt(lay) + 9, want) + FragmentFrag(lay) + LoadX4(lay),
                   f.(ip4Proto := PinnedProto(f.ip4Proto, s), portsReady := Some(s))))
    else if f.ethertype == Some(0x86dd) then
      if f.portsReady.Some? then
        Ok(Emitted(L4Frag(NetAt(lay) + 6, want),
                   f.(ip6Next := PinnedProto(f.ip6Next, want), portsReady := Some(want))))
      else
        var s := Established(f.ip6Next, want);
        Ok(Emitted(ProtocolFrag(f.ip6Next, NetAt(lay) + 6, want) + LoadX6(),
                   f.(ip6Next := PinnedProto(f.ip6Next, s), portsReady := Some(s))))
    else if EthAt(lay).None? then Panic
    else Ok(Emitted(DualFrag(lay, EthAt(lay).value, want), f.(portsReady := Some(want))))
  }

  // ----- ports -----

  function PortLoad(lay: Layout, isDst: bool): FInsn {
    Plain(LdInd(SizeH, Off(NetAt(lay) + if isDst then 2 else 0)))
  }

  function PortEqFrag(lay: Layout, isDst: bool, port: u16): Frag {
    [PortLoad(lay, isDst), CmpBranch(Eq, port)]
  }

  function PortRangeFrag(lay: Layout, isDst: bool, lo: u16, hi: u16): Frag {
    [PortLoad(lay, isDst), CmpBranch(Ge, lo), CmpBranch(Le, hi)]
  }

  function PortFrag(lay: Layout, dir: Dir, port: u16): Frag {
    match dir
    case Src => PortEqFrag(lay, false, port)
    case Dst => PortEqFrag(lay, true, port)
    case SrcAndDst => PortEqFrag(lay, false, port) + PortEqFrag(lay, true, port)
    case SrcOrDst => [PortLoad(lay, false), SuccessBranch(port)] + PortEqFrag(lay, true, port)
  }

  function RangeFrag(lay: Layout, dir: Dir, lo: u16, hi: u16): Frag {
    var s, d := PortRangeFrag(lay, false, lo, hi), PortRangeFrag(lay, true, lo, hi);
    match dir
    case Src => s
    case Dst => d
    case SrcAndDst => s + d
    case SrcOrDst => OrFrag(s, d)
  }

  function EmitOnPorts(lay: Layout, f: Facts, proto: Option<Proto>, code: Frag): Result<Emitted> {
    var s := L4SetFor(proto);
    if s.None? then Err
    else
      var em :- EmitPortPrereqs(lay, f, s.value);
      Ok(Push(em, code))
  }

  // ----- byte access -----

  function FieldCode(lay: Layout, l: ByteLoad): seq<Insn> {
    match l.layer
    case Raw => [LdAbs(l.size, l.offset)]
    case Net => [LdAbs(l.size, Off(NetAt(lay) + l.offset))]
    case Trans => [LdxMsh(Off(NetAt(lay))), LdInd(l.size, Off(NetAt(lay) + l.offset))]
  }

  function AccessCode(lay: Layout, ba: ByteAccess, ops: Ops): seq<Insn> {
    var lhs := FieldCode(lay, ba.lhs) + AluCode(ops);
    match ba.rhs
    case Const(_) => lhs
    case Field(rhs) =>
      if ba.lhs.layer.Trans? then
        // X still holds the header length for a second transport load.
        var load := FieldCode(lay, rhs);
        lhs + [St(0)] + (if rhs.layer.Trans? then load[1..] else load) + [LdxMem(0)]
      else if rhs.layer.Trans? then lhs + [St(0)] + FieldCode(lay, rhs) + [LdxMem(0)]
      else lhs + [Tax] + FieldCode(lay, rhs)
  }

  function EmitAccess(lay: Layout, f: Facts, ba: ByteAccess): Result<Emitted> {
    var ops := AluOps(ba.ops);
    if ops.None? || (ba.rhs.Const? && ba.lhs.layer.Raw? && lay.link.RawIp?) then Err
    else
      var branch := if ba.rhs.Const? then CmpBranch(ba.op, ba.rhs.value) else CmpXBranch(ba.op);
      Ok(Push(Emitted([], f), Plains(AccessCode(lay, ba, ops.value)) + [branch]))
  }

  // ----- primitives -----

  function EmitProto(lay: Layout, f: Facts, p: Proto): Result<Emitted> {
    match p
    case Ip => EmitEthertype(lay, f, 0x0800)
    case Ip6 => EmitEthertype(lay, f, 0x86dd)
    case Arp => EmitEthertype(lay, f, 0x0806)
    case Rarp => EmitEthertype(lay, f, 0x8035)
    case Tcp => EmitIp4L4(lay, f, 6)
    case Udp => EmitIp4L4(lay, f, 17)
    case Icmp => EmitIp4L4(lay, f, 1)
    case Igmp => EmitIp4L4(lay, f, 2)
    case Sctp => EmitIp4L4(lay, f, 132)
    case Icmp6 => EmitIp6L4(lay, f, 58)
    case Num(n) => EmitIp4L4(lay, f, n)
    case Ip6Proto(n) => EmitIp6L4(lay, f, n)
  }

  function MplsFrag(eth: nat, lbl: Option<u32>): Frag {
    [Plain(LdAbs(SizeH, Off(eth))), SuccessBranch(0x8847), CmpBranch(Eq, 0x8848)]
    + if lbl.None? then [] else CheckFrag(Check(SizeW, Off(eth + 2), [(Bpf.Rsh, 12)], Eq, lbl.value))
  }

  function EmitHost4(lay: Layout, f: Facts, a: u32, dir: Dir): Result<Emitted> {
    Guarded(lay, f, 0x0800,
            DirectFrag(dir, EqCheck(SizeW, NetAt(lay) + 12, a), EqCheck(SizeW, NetAt(lay) + 16, a)))
  }

  function EmitHost6(lay: Layout, f: Facts, a: Ip6Addr, dir: Dir): Result<Emitted> {
    Guarded(lay, f, 0x86dd, ListFrag(dir, Groups(a, NetAt(lay) + 8, 0), Groups(a, NetAt(lay) + 24, 0)))
  }

  function EmitNetwork(lay: Layout, f: Facts, a: u32, mask: u32, dir: Dir): Result<Emitted> {
    Guarded(lay, f, 0x0800,
            DirectFrag(dir, Masked(NetAt(lay) + 12, a, mask), Masked(NetAt(lay) + 16, a, mask)))
  }

  function EmitNetwork6(lay: Layout, f: Facts, a: Ip6Addr, n: u8, dir: Dir): Result<Emitted> {
    Guarded(lay, f, 0x86dd,
            ListFrag(dir, PrefixGroups(a, n, NetAt(lay) + 8, 0), PrefixGroups(a, n, NetAt(lay) + 24, 0)))
  }

  /** The destination address is at offset 0 and is tested first. */
  function EmitEtherHost(lay: Layout, f: Facts, mac: MacAddr, dir: Dir): Result<Emitted> {
    if lay.link.RawIp? then Err
    else
      var flip := match dir case Src => Dst case Dst => Src case d => d;
      Ok(Push(Emitted([], f), ListFrag(flip, Mac(mac, 0), Mac(mac, 6))))
  }

  function EmitTypeWith(lay: Layout, f: Facts, et: u32, cs: seq<Check>): Result<Emitted> {
    Guarded(lay, f, et, ChecksFrag(cs))
  }

  function EmitEtherMulticast(lay: Layout, f: Facts): Result<Emitted> {
    if lay.link.RawIp? then Err else Ok(Push(Emitted([], f), ChecksFrag(EtherMulticastChecks())))
  }

  function EmitMpls(lay: Layout, f: Facts, lbl: Option<u32>): Result<Emitted> {
    if EthAt(lay).None? then Err else Ok(Push(Emitted([], f), MplsFrag(EthAt(lay).value, lbl)))
  }

  function EmitLen(f: Facts, op: CmpOp, v: u32): Result<Emitted> {
    Ok(Push(Emitted([], f), [Plain(LdLen), CmpBranch(op, v)]))
  }

  function EmitPrim(lay: Layout, f: Facts, p: Primitive): Result<Emitted> {
    match p
    case Host4(a, dir) => EmitHost4(lay, f, a, dir)
    case Host6(a, dir) => EmitHost6(lay, f, a, dir)
    case Network(a, mask, dir) => EmitNetwork(lay, f, a, mask, dir)
    case Network6(a, n, dir) => EmitNetwork6(lay, f, a, n, dir)
    case Port(port, dir, proto) => EmitOnPorts(lay, f, proto, PortFrag(lay, dir, port))
    case PortRange(lo, hi, dir, proto) => EmitOnPorts(lay, f, proto, RangeFrag(lay, dir, lo, hi))
    case IsProto(pr) => EmitProto(lay, f, pr)
    case EtherHost(mac, dir) => EmitEtherHost(lay, f, mac, dir)
    case EtherProto(et) => EmitEthertype(lay, f, et)
    case EtherMulticast => EmitEtherMulticast(lay, f)
    case IpBroadcast => EmitTypeWith(lay, f, 0x0800, BroadcastChecks(lay))
    case IpMulticast => EmitTypeWith(lay, f, 0x0800, MulticastChecks(lay))
    case Ip6Multicast => EmitTypeWith(lay, f, 0x86dd, Multicast6Checks(lay))
    case Vlan(id) => EmitTypeWith(lay, f, 0x8100, VlanChecks(lay, id))
    case Mpls(lbl) => EmitMpls(lay, f, lbl)
    case PppoeDiscovery => EmitEthertype(lay, f, 0x8863)
    case PppoeSession(id) => EmitTypeWith(lay, f, 0x8864, SessionChecks(lay, id))
    case IpProtoChain(n) => EmitIp4L4(lay, f, n)
    case Ip6ProtoChain(n) => EmitIp6L4(lay, f, n)
    case Len(op, v) => EmitLen(f, op, v)
    case Inbound => Err
    case Outbound => Err
    case Access(ba) => EmitAccess(lay, f, ba)
  }

  // ----- connectives -----

  function Then(em: Emitted, next: Emitted): Emitted { Emitted(em.frag + next.frag, next.facts) }

  function HoistEthertype(lay: Layout, f: Facts, et: Option<u32>): Result<Emitted> {
    // Raw IP rejects other ethertypes; the arms themselves would report that.
    if et.Some? && EtherProtoOffset(lay.link).Some? then EmitEthertype(lay, f, et.value) else Ok(Emitted([], f))
  }

  function HoistIp4(lay: Layout, f: Facts, n: Option<u8>): Result<Emitted> {
    if n.Some? then EmitIp4L4(lay, f, n.value) else Ok(Emitted([], f))
  }

  function HoistIp6(lay: Layout, f: Facts, n: Option<u8>): Result<Emitted> {
    if n.Some? then EmitIp6L4(lay, f, n.value) else Ok(Emitted([], f))
  }

  function HoistPorts(lay: Layout, f: Facts, s: Option<L4Set>): Result<Emitted> {
    if s.Some? then EmitPortPrereqs(lay, f, s.value) else Ok(Emitted([], f))
  }

  /** `emit_or_hoist` for the guards both arms require. */
  function EmitHoist(lay: Layout, f: Facts, g: GuardSet): Result<Emitted> {
    var a :- HoistEthertype(lay, f, g.ethertype);
    var b :- HoistIp4(lay, a.facts, g.ip4Proto);
    var rest :- HoistRest(lay, b.facts, g);
    Ok(Then(a, Then(b, rest)))
  }

  function HoistRest(lay: Layout, f: Facts, g: GuardSet): Result<Emitted> {
    var c :- HoistIp6(lay, f, g.ip6Next);
    var d :- HoistPorts(lay, c.facts, g.portPrereqs);
    Ok(Then(c, d))
  }

  /** Facts restored on an edge out of code that may have clobbered X. */
  function Restored(f: Facts, code: Frag): Facts { AfterPush(f, code) }

  /** The recursive compile, with its pending jumps symbolic. */
  function Emit(e: Expr, lay: Layout, f: Facts): Result<Emitted> {
    match e
    case Prim(p) => EmitPrim(lay, f, p)
    case And(l, r) =>
      var a :- Emit(l, lay, f);
      var b :- Emit(r, if LeadingVlan(l) then Tagged(lay) else lay, a.facts);
      Ok(Emitted(AndFrag(a.frag, b.frag), b.facts))
    case Or(l, r) =>
      var h :- EmitHoist(lay, f, Intersect(Required(l), Required(r)));
      var a :- Emit(l, lay, h.facts);
      var b :- Emit(r, lay, Restored(h.facts, a.frag));
      Ok(Emitted(h.frag + OrFrag(a.frag, b.frag), MeetFacts(a.facts, b.facts)))
    case Not(x) =>
      var a :- Emit(x, lay, f);
      Ok(Emitted(NotFrag(a.frag), Restored(f, a.frag)))
  }
}
