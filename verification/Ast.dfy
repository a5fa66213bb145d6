// Filter expressions (pktbaffle/src/ast.rs) and link types
// (pktbaffle/src/codegen.rs:48-78).

module Ast {
  import opened Words
  import Bpf

  datatype LinkType = Ethernet | RawIp | LinuxSll

  function NetOffset(link: LinkType): nat {
    match link
    case Ethernet => 14
    case RawIp => 0
    case LinuxSll => 16
  }

  function EtherProtoOffset(link: LinkType): Option<nat> {
    match link
    case Ethernet => Some(12)
    case LinuxSll => Some(14)
    case RawIp => None
  }

  datatype Dir = SrcOrDst | Src | Dst | SrcAndDst

  datatype Proto =
    | Ip | Ip6 | Arp | Rarp | Tcp | Udp | Icmp | Icmp6 | Igmp | Sctp
    | Num(n: u8)
    | Ip6Proto(n: u8)

  type Ip6Addr = s: seq<u16> | |s| == 8 witness [0, 0, 0, 0, 0, 0, 0, 0]

  type MacAddr = m: seq<u8> | |m| == 6 witness [0, 0, 0, 0, 0, 0]

  datatype CmpOp = Eq | Ne | Lt | Le | Gt | Ge | AnyBit

  datatype ArithOp = AddOp | SubOp | MulOp | DivOp | ModOp | AndOp | OrOp | XorOp | ShlOp | ShrOp

  datatype Layer = Raw | Net | Trans

  /** A byte-access offset: an `i32` the parser has checked to be non-negative. */
  type AccessOffset = n: nat | n < 0x8000_0000

  datatype ByteLoad = ByteLoad(layer: Layer, offset: AccessOffset, size: Bpf.Size)

  datatype CmpRhs = Const(value: u32) | Field(load: ByteLoad)

  datatype ByteAccess = ByteAccess(lhs: ByteLoad, ops: seq<(ArithOp, u32)>, op: CmpOp, rhs: CmpRhs)

  datatype Primitive =
    | Host4(addr: u32, dir: Dir)
    | Host6(addr6: Ip6Addr, dir: Dir)
    | Network(addr: u32, mask: u32, dir: Dir)
    | Network6(addr6: Ip6Addr, prefixLen: u8, dir: Dir)
    | Port(port: u16, dir: Dir, proto: Option<Proto>)
    | PortRange(lo: u16, hi: u16, dir: Dir, proto: Option<Proto>)
    | IsProto(p: Proto)
    | EtherHost(mac: MacAddr, dir: Dir)
    | EtherProto(et: u16)
    | EtherMulticast
    | IpBroadcast
    | IpMulticast
    | Ip6Multicast
    | Vlan(id: Option<u16>)
    | Mpls(lbl: Option<u32>)
    | PppoeDiscovery
    | PppoeSession(session: Option<u16>)
    | IpProtoChain(n: u8)
    | Ip6ProtoChain(n: u8)
    | Len(op: CmpOp, value: u32)
    | Inbound
    | Outbound
    | Access(ba: ByteAccess)

  datatype Expr =
    | And(left: Expr, right: Expr)
    | Or(left: Expr, right: Expr)
    | Not(inner: Expr)
    | Prim(p: Primitive)

  /** More than the steps an explicit stack takes over the expression. */
  function ExprSize(e: Expr): nat {
    match e
    case Prim(_) => 1
    case And(l, r) => 3 + ExprSize(l) + ExprSize(r)
    case Or(l, r) => 3 + ExprSize(l) + ExprSize(r)
    case Not(x) => 3 + ExprSize(x)
  }

  /** The expression is, or begins with, a `vlan` check. */
  predicate LeadingVlan(e: Expr) {
    match e
    case Prim(p) => p.Vlan?
    case And(l, _) => LeadingVlan(l)
    case Or(_, _) => false
    case Not(_) => false
  }

  /** No operand of `and` begins with a `vlan` check, so no offsets shift. A
      `vlan` elsewhere, as in `not vlan` or `vlan or arp`, is fine. */
  predicate NoShift(e: Expr) {
    match e
    case Prim(_) => true
    case And(l, r) => NoShift(l) && NoShift(r) && !LeadingVlan(l)
    case Or(l, r) => NoShift(l) && NoShift(r)
    case Not(x) => NoShift(x)
  }

  /** A test for the 802.1Q ethertype, by number or as `vlan`. */
  predicate TagTest(p: Primitive) { p == EtherProto(0x8100) || p.Vlan? }

  predicate NoTagTest(e: Expr) {
    match e
    case Prim(p) => !TagTest(p)
    case And(l, r) => NoTagTest(l) && NoTagTest(r)
    case Or(l, r) => NoTagTest(l) && NoTagTest(r)
    case Not(x) => NoTagTest(x)
  }

  lemma {:induction false} NoTagTestNoShift(e: Expr)
    requires NoTagTest(e)
    ensures NoShift(e) && !LeadingVlan(e)
  {
    match e
    case Prim(_) =>
    case And(l, r) => NoTagTestNoShift(l); NoTagTestNoShift(r);
    case Or(l, r) => NoTagTestNoShift(l); NoTagTestNoShift(r);
    case Not(x) => NoTagTestNoShift(x);
  }

  /** No tag test behind a tag. */
  predicate OneTag(e: Expr) {
    match e
    case Prim(_) => true
    case And(l, r) => OneTag(l) && if LeadingVlan(l) then NoTagTest(r) else OneTag(r)
    case Or(l, r) => OneTag(l) && OneTag(r)
    case Not(x) => OneTag(x)
  }

  lemma {:induction false} NoShiftOneTag(e: Expr)
    requires NoShift(e)
    ensures OneTag(e)
  {
    match e
    case Prim(_) =>
    case And(l, r) => NoShiftOneTag(l); NoShiftOneTag(r);
    case Or(l, r) => NoShiftOneTag(l); NoShiftOneTag(r);
    case Not(x) => NoShiftOneTag(x);
  }

  /** `vlan`, or an `and` chain that begins with one and shifts offsets only
      there. It may test for further tags. */
  predicate Chain(e: Expr) {
    match e
    case Prim(p) => p.Vlan?
    case And(l, r) => Chain(l) && NoShift(r)
    case _ => false
  }

  lemma {:induction false} ChainLeads(e: Expr)
    requires Chain(e)
    ensures LeadingVlan(e)
  {
    if e.And? { ChainLeads(e.left); }
  }

  predicate NoPorts(e: Expr) {
    match e
    case Prim(p) => !p.Port? && !p.PortRange?
    case And(l, r) => NoPorts(l) && NoPorts(r)
    case Or(l, r) => NoPorts(l) && NoPorts(r)
    case Not(x) => NoPorts(x)
  }

  /** A transport offset may be known behind the expression that was not before:
      `or` keeps only what both arms leave, `not` nothing. */
  predicate LeavesPorts(e: Expr) {
    match e
    case Prim(p) => p.Port? || p.PortRange?
    case And(l, r) => LeavesPorts(l) || LeavesPorts(r)
    case Or(l, r) => LeavesPorts(l) && LeavesPorts(r)
    case Not(_) => false
  }

  /** Expressions on which facts stay right although they are not kept apart by
      tag depth: a `vlan` shifts the rest of its own `and` chain and nothing in
      it, and a transport offset from behind its tag is left only where no port
      test follows (`last`). */
  predicate Tracked(e: Expr, last: bool) {
    match e
    case Prim(_) => true
    case And(l, r) =>
      if LeadingVlan(l) then Chain(e) && (last || !LeavesPorts(e))
      else Tracked(l, !LeavesPorts(l) || (last && NoPorts(r))) && Tracked(r, last)
    case Or(l, r) => Tracked(l, last) && Tracked(r, last)
    case Not(x) => Tracked(x, true)
  }

  lemma {:induction false} NoShiftTracked(e: Expr, last: bool)
    requires NoShift(e)
    ensures Tracked(e, last)
  {
    match e
    case Prim(_) =>
    case And(l, r) =>
      NoShiftTracked(l, !LeavesPorts(l) || (last && NoPorts(r)));
      NoShiftTracked(r, last);
    case Or(l, r) => NoShiftTracked(l, last); NoShiftTracked(r, last);
    case Not(x) => NoShiftTracked(x, true);
  }

  predicate NoOr(e: Expr) {
    match e
    case Prim(p) => true
    case And(l, r) => NoOr(l) && NoOr(r)
    case Or(l, r) => false
    case Not(x) => NoOr(x)
  }
}
