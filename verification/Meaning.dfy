// What a filter expression says about a packet, independently of any code:
// each primitive is a formula over header fields, read three-valued (left to
// right, a field past the end aborts) or two-valued (a field past the end
// reads as zero).

module Meaning {
  import opened Words
  import opened Bpf
  import opened Vm
  import opened Ast

  // ----- header layout -----

  /** Where the ethertype and the network header are, after `depth` 802.1Q tags. */
  datatype Layout = Layout(link: LinkType, depth: nat)

  /** Offsets are `u32` in the source. */
  function Off(n: nat): u32 { if n < U32_SIZE then n else n % U32_SIZE }

  function NetAt(lay: Layout): nat { NetOffset(lay.link) + lay.depth * 4 }

  /** The tags matched so far do not push the IP header across 2^32. */
  predicate OffsetsFit(lay: Layout) { NetAt(lay) + 6 < U32_SIZE }

  function EthAt(lay: Layout): Option<nat> {
    var o := EtherProtoOffset(lay.link);
    if o.Some? then Some(o.value + lay.depth * 4) else None
  }

  function Tagged(lay: Layout): Layout { lay.(depth := lay.depth + 1) }

  // ----- fields and formulas -----

  datatype Field =
    | Abs(size: Size, k: u32)
    /** `k` bytes into the header that follows the IPv4 header at `net`. */
    | Behind(net: u32, size: Size, k: u32)
    /** `4 * IHL` of the IPv4 header at `net`. */
    | HeaderLen(net: u32)
    | Length
    | Literal(v: u32)

  function Read(f: Field, pkt: Packet): Option<u32> {
    match f
    case Abs(size, k) => SizedLoad(pkt, k, size)
    case Behind(net, size, k) =>
      var hl := MshLoad(pkt, net);
      if hl.None? then None else SizedLoad(pkt, Add32(hl.value, k), size)
    case HeaderLen(net) => MshLoad(pkt, net)
    case Length => Some(|pkt| % U32_SIZE)
    case Literal(v) => Some(v)
  }

  function ToAlu(op: ArithOp): Option<AluOp> {
    match op
    case AddOp => Some(Bpf.Add)
    case SubOp => Some(Bpf.Sub)
    case MulOp => Some(Bpf.Mul)
    case DivOp => Some(Bpf.Div)
    case ModOp => None
    case AndOp => Some(Bpf.And)
    case OrOp => Some(Bpf.Or)
    case XorOp => Some(Bpf.Xor)
    case ShlOp => Some(Bpf.Lsh)
    case ShrOp => Some(Bpf.Rsh)
  }

  type Ops = seq<(AluOp, u32)>

  function Apply(ops: Ops, v: u32): Option<u32> {
    if ops == [] then Some(v)
    else
      var w := AluResult(ops[0].0, v, ops[0].1);
      if w.None? then None else Apply(ops[1..], w.value)
  }

  predicate Compares(op: CmpOp, a: u32, b: u32) {
    match op
    case Eq => a == b
    case Ne => a != b
    case Lt => a < b
    case Le => a <= b
    case Gt => a > b
    case Ge => a >= b
    case AnyBit => BitAnd(a, b) != 0
  }

  datatype Formula =
    | Known(b: bool)
    | Compare(lhs: Field, ops: Ops, op: CmpOp, rhs: Field)
    | Both(f: Formula, g: Formula)
    | Either(f: Formula, g: Formula)

  datatype Tri = True | False | Abort

  function FromBool(b: bool): Tri { if b then True else False }

  function And3(a: Tri, b: Tri): Tri { if a == True then b else a }

  function Or3(a: Tri, b: Tri): Tri { if a == False then b else a }

  function Not3(a: Tri): Tri { if a == True then False else if a == False then True else Abort }

  function ReadThen(f: Field, ops: Ops, pkt: Packet): Option<u32> {
    var v := Read(f, pkt);
    if v.None? then None else Apply(ops, v.value)
  }

  /** Three-valued, left to right: the first unreadable field aborts. */
  function Eval(f: Formula, pkt: Packet): Tri {
    match f
    case Known(b) => FromBool(b)
    case Compare(lhs, ops, op, rhs) =>
      var a, b := ReadThen(lhs, ops, pkt), Read(rhs, pkt);
      if a.None? || b.None? then Abort else FromBool(Compares(op, a.value, b.value))
    case Both(p, q) => And3(Eval(p, pkt), Eval(q, pkt))
    case Either(p, q) => Or3(Eval(p, pkt), Eval(q, pkt))
  }

  function OrZero(v: Option<u32>): u32 { if v.Some? then v.value else 0 }

  /** Two-valued: an unreadable field reads as zero. */
  predicate Sat(f: Formula, pkt: Packet) {
    match f
    case Known(b) => b
    case Compare(lhs, ops, op, rhs) => Compares(op, OrZero(ReadThen(lhs, ops, pkt)), OrZero(Read(rhs, pkt)))
    case Both(p, q) => Sat(p, pkt) && Sat(q, pkt)
    case Either(p, q) => Sat(p, pkt) || Sat(q, pkt)
  }

  // ----- primitives -----

  function FieldIs(size: Size, at: nat, v: u32): Formula {
    Compare(Abs(size, Off(at)), [], Eq, Literal(v))
  }

  function EthIs(lay: Layout, et: u32): Formula {
    if EthAt(lay).Some? then FieldIs(SizeH, EthAt(lay).value, et) else Known(et == 0x0800)
  }

  function Ip4ProtoIs(lay: Layout, n: u8): Formula {
    Both(EthIs(lay, 0x0800), FieldIs(SizeB, NetAt(lay) + 9, n))
  }

  function Ip6NextIs(lay: Layout, n: u8): Formula {
    Both(EthIs(lay, 0x86dd), FieldIs(SizeB, NetAt(lay) + 6, n))
  }

  /** The protocol numbers a port test admits. */
  datatype L4Set = One(n: u8) | TcpOrUdp

  predicate Contains(s: L4Set, p: nat) {
    match s
    case One(n) => n == p
    case TcpOrUdp => p == 6 || p == 17
  }

  function L4SetFor(proto: Option<Proto>): Option<L4Set> {
    match proto
    case None => Some(TcpOrUdp)
    case Some(Tcp) => Some(One(6))
    case Some(Udp) => Some(One(17))
    case Some(Sctp) => Some(One(132))
    case Some(_) => None
  }

  function ByteIn(at: nat, s: L4Set): Formula {
    match s
    case One(n) => FieldIs(SizeB, at, n)
    case TcpOrUdp => Either(FieldIs(SizeB, at, 6), FieldIs(SizeB, at, 17))
  }

  /** Not a later fragment: the 13-bit fragment offset is zero (RFC 791, section 3.1). */
  function FirstFragment(lay: Layout): Formula {
    Compare(Abs(SizeH, Off(NetAt(lay) + 6)), [(Bpf.And, 0x1fff)], Eq, Literal(0))
  }

  /** IPv4, one of the protocols, and a first fragment. */
  function Ports4(lay: Layout, s: L4Set): Formula {
    Both(EthIs(lay, 0x0800), Both(ByteIn(NetAt(lay) + 9, s), FirstFragment(lay)))
  }

  /** IPv6 with one of the protocols as next header (RFC 8200, section 3). */
  function Ports6(lay: Layout, s: L4Set): Formula {
    Both(EthIs(lay, 0x86dd), ByteIn(NetAt(lay) + 6, s))
  }

  /** The packet has readable ports of one of the protocols. */
  function HasPorts(lay: Layout, s: L4Set): Formula {
    Either(Ports6(lay, s), Ports4(lay, s))
  }

  /** A source or destination port: behind the IPv4 header, or behind the fixed
      40-byte IPv6 header. */
  function PortField(lay: Layout, v6: bool, isDst: bool): Field {
    var k := Off(NetAt(lay) + if isDst then 2 else 0);
    if v6 then Abs(SizeH, Add32(40, k)) else Behind(Off(NetAt(lay)), SizeH, k)
  }

  function ByDir(dir: Dir, src: Formula, dst: Formula): Formula {
    match dir
    case Src => src
    case Dst => dst
    case SrcAndDst => Both(src, dst)
    case SrcOrDst => Either(src, dst)
  }

  function PortIs(f: Field, port: u16): Formula { Compare(f, [], Eq, Literal(port)) }

  function PortIn(f: Field, lo: u16, hi: u16): Formula {
    Both(Compare(f, [], Ge, Literal(lo)), Compare(f, [], Le, Literal(hi)))
  }

  /** A port test `t` on the packet's ports, whichever IP version carries them. */
  function OnPorts(lay: Layout, s: L4Set, dir: Dir, t: Field -> Formula): Formula {
    Either(Both(Ports6(lay, s), ByDir(dir, t(PortField(lay, true, false)), t(PortField(lay, true, true)))),
           Both(Ports4(lay, s), ByDir(dir, t(PortField(lay, false, false)), t(PortField(lay, false, true)))))
  }

  /** One absolute field compared with a constant after optional masking. */
  datatype Check = Check(size: Size, k: u32, ops: Ops, op: CmpOp, v: u32)

  function CheckFormula(c: Check): Formula { Compare(Abs(c.size, c.k), c.ops, c.op, Literal(c.v)) }

  function All(cs: seq<Check>): Formula {
    if cs == [] then Known(true) else Both(CheckFormula(cs[0]), All(cs[1..]))
  }

  function EqCheck(size: Size, at: nat, v: u32): Check { Check(size, Off(at), [], Eq, v) }

  /** The eight 16-bit groups of an IPv6 address at `at`, from group `i` on. */
  function Groups(addr: Ip6Addr, at: nat, i: nat): seq<Check>
    requires i <= 8
    decreases 8 - i, at
  {
    if i == 8 then [] else [EqCheck(SizeH, at + i * 2, addr[i])] + Groups(addr, at, i + 1)
  }

  /** The groups a prefix covers; the last one may be covered in part. */
  function PrefixGroups(addr: Ip6Addr, prefixLen: u8, at: nat, i: nat): seq<Check>
    requires i <= 8
    decreases 8 - i, at
  {
    if i == 8 || i * 16 >= prefixLen then []
    else if i * 16 + 16 <= prefixLen then
      [EqCheck(SizeH, at + i * 2, addr[i])] + PrefixGroups(addr, prefixLen, at, i + 1)
    else
      var mask: u32 := GroupMask(prefixLen - i * 16);
      [Check(SizeH, Off(at + i * 2), [(Bpf.And, mask)], Eq, BitAnd(addr[i], mask))] + PrefixGroups(addr, prefixLen, at, i + 1)
  }

  /** `(0xffff << (16 - bits)) & 0xffff`. */
  function GroupMask(bits: nat): u32
    requires bits <= 16
  {
    0xffff * Pow2(16 - bits) % 0x1_0000
  }

  function Masked(at: nat, addr: u32, mask: u32): Check {
    Check(SizeW, Off(at), [(Bpf.And, mask)], Eq, BitAnd(addr, mask))
  }

  function Mac(mac: MacAddr, at: nat): seq<Check> {
    [EqCheck(SizeW, at, Be32(mac[0], mac[1], mac[2], mac[3])), EqCheck(SizeH, at + 4, Be16(mac[4], mac[5]))]
  }

  function LayerField(lay: Layout, l: ByteLoad): Field {
    match l.layer
    case Raw => Abs(l.size, l.offset)
    case Net => Abs(l.size, Off(NetAt(lay) + l.offset))
    case Trans => Behind(Off(NetAt(lay)), l.size, Off(NetAt(lay) + l.offset))
  }

  /** The ALU operations of a byte access, if all are expressible. */
  function AluOps(ops: seq<(ArithOp, u32)>): Option<Ops> {
    if ops == [] then Some([])
    else
      var o, rest := ToAlu(ops[0].0), AluOps(ops[1..]);
      if o.None? || rest.None? || (o.value.Div? && ops[0].1 == 0) then None
      else Some([(o.value, ops[0].1)] + rest.value)
  }

  function AccessFormula(lay: Layout, ba: ByteAccess): Formula {
    var ops := AluOps(ba.ops);
    if ops.None? then Known(false)
    else
      var rhs := match ba.rhs case Const(v) => Literal(v) case Field(l) => LayerField(lay, l);
      Compare(LayerField(lay, ba.lhs), ops.value, ba.op, rhs)
  }

  function ProtoFormula(lay: Layout, p: Proto): Formula {
    match p
    case Ip => EthIs(lay, 0x0800)
    case Ip6 => EthIs(lay, 0x86dd)
    case Arp => EthIs(lay, 0x0806)
    case Rarp => EthIs(lay, 0x8035)
    case Tcp => Ip4ProtoIs(lay, 6)
    case Udp => Ip4ProtoIs(lay, 17)
    case Icmp => Ip4ProtoIs(lay, 1)
    case Igmp => Ip4ProtoIs(lay, 2)
    case Sctp => Ip4ProtoIs(lay, 132)
    case Icmp6 => Ip6NextIs(lay, 58)
    case Num(n) => Ip4ProtoIs(lay, n)
    case Ip6Proto(n) => Ip6NextIs(lay, n)
  }

  function Host4Formula(lay: Layout, a: u32, dir: Dir): Formula {
    Both(EthIs(lay, 0x0800),
         ByDir(dir, All([EqCheck(SizeW, NetAt(lay) + 12, a)]), All([EqCheck(SizeW, NetAt(lay) + 16, a)])))
  }

  function Host6Formula(lay: Layout, a: Ip6Addr, dir: Dir): Formula {
    Both(EthIs(lay, 0x86dd),
         ByDir(dir, All(Groups(a, NetAt(lay) + 8, 0)), All(Groups(a, NetAt(lay) + 24, 0))))
  }

  function NetworkFormula(lay: Layout, a: u32, mask: u32, dir: Dir): Formula {
    Both(EthIs(lay, 0x0800),
         ByDir(dir, All([Masked(NetAt(lay) + 12, a, mask)]), All([Masked(NetAt(lay) + 16, a, mask)])))
  }

  function Network6Formula(lay: Layout, a: Ip6Addr, n: u8, dir: Dir): Formula {
    Both(EthIs(lay, 0x86dd),
         ByDir(dir, All(PrefixGroups(a, n, NetAt(lay) + 8, 0)), All(PrefixGroups(a, n, NetAt(lay) + 24, 0))))
  }

  function PortFormula(lay: Layout, port: u16, dir: Dir, proto: Option<Proto>): Formula {
    var s := L4SetFor(proto);
    if s.None? then Known(false) else OnPorts(lay, s.value, dir, f => PortIs(f, port))
  }

  function PortRangeFormula(lay: Layout, lo: u16, hi: u16, dir: Dir, proto: Option<Proto>): Formula {
    var s := L4SetFor(proto);
    if s.None? then Known(false) else OnPorts(lay, s.value, dir, f => PortIn(f, lo, hi))
  }

  /** The destination address comes first in the frame and is tested first. */
  function EtherHostFormula(mac: MacAddr, dir: Dir): Formula {
    match dir
    case Src => All(Mac(mac, 6))
    case Dst => All(Mac(mac, 0))
    case SrcAndDst => Both(All(Mac(mac, 0)), All(Mac(mac, 6)))
    case SrcOrDst => Either(All(Mac(mac, 0)), All(Mac(mac, 6)))
  }

  function BroadcastChecks(lay: Layout): seq<Check> { [EqCheck(SizeW, NetAt(lay) + 16, 0xffff_ffff)] }

  function MulticastChecks(lay: Layout): seq<Check> {
    [Check(SizeW, Off(NetAt(lay) + 16), [(Bpf.And, 0xf000_0000)], Eq, 0xe000_0000)]
  }

  function Multicast6Checks(lay: Layout): seq<Check> { [EqCheck(SizeB, NetAt(lay) + 24, 0xff)] }

  function EtherMulticastChecks(): seq<Check> { [Check(SizeB, 0, [], AnyBit, 1)] }

  function VlanChecks(lay: Layout, id: Option<u16>): seq<Check> {
    if id.None? then [] else [Check(SizeH, Off(EthOr(lay, 14) + 2), [(Bpf.And, 0x0fff)], Eq, id.value)]
  }

  function SessionChecks(lay: Layout, id: Option<u16>): seq<Check> {
    if id.None? then [] else [EqCheck(SizeH, EthOr(lay, 12) + 4, id.value)]
  }

  /** A frame type, and more fields of that type. */
  function TypeWith(lay: Layout, et: u32, cs: seq<Check>): Formula { Both(EthIs(lay, et), All(cs)) }

  /** What each primitive tests. Where a primitive does not compile the formula
      is arbitrary. */
  function PrimFormula(lay: Layout, p: Primitive): Formula {
    match p
    case Host4(a, dir) => Host4Formula(lay, a, dir)
    case Host6(a, dir) => Host6Formula(lay, a, dir)
    case Network(a, mask, dir) => NetworkFormula(lay, a, mask, dir)
    case Network6(a, n, dir) => Network6Formula(lay, a, n, dir)
    case Port(port, dir, proto) => PortFormula(lay, port, dir, proto)
    case PortRange(lo, hi, dir, proto) => PortRangeFormula(lay, lo, hi, dir, proto)
    case IsProto(pr) => ProtoFormula(lay, pr)
    case EtherHost(mac, dir) => EtherHostFormula(mac, dir)
    case EtherProto(et) => EthIs(lay, et)
    case EtherMulticast => All(EtherMulticastChecks())
    case IpBroadcast => TypeWith(lay, 0x0800, BroadcastChecks(lay))
    case IpMulticast => TypeWith(lay, 0x0800, MulticastChecks(lay))
    case Ip6Multicast => TypeWith(lay, 0x86dd, Multicast6Checks(lay))
    case Vlan(id) => TypeWith(lay, 0x8100, VlanChecks(lay, id))
    case Mpls(lbl) => MplsAsCompiled(lay, lbl)
    case PppoeDiscovery => EthIs(lay, 0x8863)
    case PppoeSession(id) => TypeWith(lay, 0x8864, SessionChecks(lay, id))
    case IpProtoChain(n) => Ip4ProtoIs(lay, n)
    case Ip6ProtoChain(n) => Ip6NextIs(lay, n)
    case Len(op, v) => Compare(Length, [], op, Literal(v))
    case Inbound => Known(false)
    case Outbound => Known(false)
    case Access(ba) => AccessFormula(lay, ba)
  }

  function EthOr(lay: Layout, n: nat): nat { if EthAt(lay).Some? then EthAt(lay).value else n }

  function LabelIs(lay: Layout, lbl: Option<u32>): Formula {
    if lbl.None? then Known(true)
    else Compare(Abs(SizeW, Off(EthOr(lay, 0) + 2)), [(Bpf.Rsh, 12)], Eq, Literal(lbl.value))
  }

  /** `mpls` as documented: either ethertype, and the label if one is given. */
  function MplsAsDocumented(lay: Layout, lbl: Option<u32>): Formula {
    Both(Either(EthIs(lay, 0x8847), EthIs(lay, 0x8848)), LabelIs(lay, lbl))
  }

  /** `mpls` as compiled: the unicast match leaves before the label is tested. */
  function MplsAsCompiled(lay: Layout, lbl: Option<u32>): Formula {
    Either(EthIs(lay, 0x8847), Both(EthIs(lay, 0x8848), LabelIs(lay, lbl)))
  }

  /** The ethertype test as compiled: behind a matched tag, whose type is still on
      record, a test for that type is left out. */
  function TypeAsCompiled(lay: Layout, et: u32): Formula {
    if lay.depth > 0 && et == 0x8100 then Known(true) else EthIs(lay, et)
  }

  function PrimAsCompiled(lay: Layout, p: Primitive): Formula {
    match p
    case EtherProto(et) => TypeAsCompiled(lay, et)
    case Vlan(id) => Both(TypeAsCompiled(lay, 0x8100), All(VlanChecks(lay, id)))
    case _ => PrimFormula(lay, p)
  }

  lemma CompiledAsWritten(lay: Layout, p: Primitive)
    requires lay.depth == 0 || !TagTest(p)
    ensures PrimAsCompiled(lay, p) == PrimFormula(lay, p)
  {
  }

  // ----- expressions -----

  /** Three-valued meaning of an expression. A leading `vlan` shifts what
      follows it in an `and`. */
  function Eval3(e: Expr, lay: Layout, pkt: Packet): Tri {
    match e
    case Prim(p) => Eval(PrimFormula(lay, p), pkt)
    case And(l, r) => And3(Eval3(l, lay, pkt), Eval3(r, if LeadingVlan(l) then Tagged(lay) else lay, pkt))
    case Or(l, r) => Or3(Eval3(l, lay, pkt), Eval3(r, lay, pkt))
    case Not(x) => Not3(Eval3(x, lay, pkt))
  }

  /** Two-valued meaning of an expression. */
  predicate Matches(e: Expr, lay: Layout, pkt: Packet) {
    match e
    case Prim(p) => Sat(PrimFormula(lay, p), pkt)
    case And(l, r) => Matches(l, lay, pkt) && Matches(r, if LeadingVlan(l) then Tagged(lay) else lay, pkt)
    case Or(l, r) => Matches(l, lay, pkt) || Matches(r, lay, pkt)
    case Not(x) => !Matches(x, lay, pkt)
  }

  lemma {:induction false} EvalIsSat(f: Formula, pkt: Packet)
    ensures Eval(f, pkt) != Abort ==> Eval(f, pkt) == FromBool(Sat(f, pkt))
  {
    match f
    case Both(p, q) => EvalIsSat(p, pkt); EvalIsSat(q, pkt);
    case Either(p, q) => EvalIsSat(p, pkt); EvalIsSat(q, pkt);
    case _ =>
  }

  /** Where evaluation does not abort the two meanings agree. */
  lemma {:induction false} Eval3IsMatches(e: Expr, lay: Layout, pkt: Packet)
    ensures Eval3(e, lay, pkt) != Abort ==> Eval3(e, lay, pkt) == FromBool(Matches(e, lay, pkt))
  {
    match e
    case Prim(p) => EvalIsSat(PrimFormula(lay, p), pkt);
    case And(l, r) =>
      Eval3IsMatches(l, lay, pkt);
      Eval3IsMatches(r, if LeadingVlan(l) then Tagged(lay) else lay, pkt);
    case Or(l, r) => Eval3IsMatches(l, lay, pkt); Eval3IsMatches(r, lay, pkt);
    case Not(x) => Eval3IsMatches(x, lay, pkt);
  }
}
