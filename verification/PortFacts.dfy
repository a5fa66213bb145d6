// The recorded transport offset: which code depends on it, and which leaves one
// (pktbaffle/src/codegen.rs:1149-1259).

module PortFacts {
  import opened Words
  import opened Results
  import Bpf
  import opened Ast
  import opened Meaning
  import opened Guards
  import opened Fragments
  import opened Emission

  /** The facts without the transport offset. */
  function Drop(f: Facts): Facts { f.(portsReady := None) }

  function Dropped(em: Emitted): Emitted { em.(facts := Drop(em.facts)) }

  /** The same code without the offset on entry, and the same facts but for it. */
  predicate Independent(r: Result<Emitted>, r': Result<Emitted>) { r.Ok? ==> r' == Ok(Dropped(r.value)) }

  lemma GuardsIrrelevant(lay: Layout, f: Facts, et: u32, n: u8)
    ensures Independent(EmitEthertype(lay, f, et), EmitEthertype(lay, Drop(f), et))
    ensures Independent(EmitIp4L4(lay, f, n), EmitIp4L4(lay, Drop(f), n))
    ensures Independent(EmitIp6L4(lay, f, n), EmitIp6L4(lay, Drop(f), n))
  {
  }

  lemma GuardedIrrelevant(lay: Layout, f: Facts, et: u32, code: Frag)
    ensures Independent(Guarded(lay, f, et, code), Guarded(lay, Drop(f), et, code))
  {
    GuardsIrrelevant(lay, f, et, 0);
  }

  lemma ProtoIrrelevant(lay: Layout, f: Facts, p: Proto)
    ensures Independent(EmitProto(lay, f, p), EmitProto(lay, Drop(f), p))
  {
    match p
    case Ip => GuardsIrrelevant(lay, f, 0x0800, 0);
    case Ip6 => GuardsIrrelevant(lay, f, 0x86dd, 0);
    case Arp => GuardsIrrelevant(lay, f, 0x0806, 0);
    case Rarp => GuardsIrrelevant(lay, f, 0x8035, 0);
    case Num(n) => GuardsIrrelevant(lay, f, 0, n);
    case Ip6Proto(n) => GuardsIrrelevant(lay, f, 0, n);
    case Tcp => GuardsIrrelevant(lay, f, 0, 6);
    case Udp => GuardsIrrelevant(lay, f, 0, 17);
    case Sctp => GuardsIrrelevant(lay, f, 0, 132);
    case Icmp => GuardsIrrelevant(lay, f, 0, 1);
    case Igmp => GuardsIrrelevant(lay, f, 0, 2);
    case Icmp6 => GuardsIrrelevant(lay, f, 0, 58);
  }

  lemma {:induction false} AddressIrrelevant(lay: Layout, f: Facts, p: Primitive)
    requires p.Host4? || p.Host6? || p.Network? || p.Network6?
    ensures Independent(EmitPrim(lay, f, p), EmitPrim(lay, Drop(f), p))
  {
    match p
    case Host4(a, dir) =>
      GuardedIrrelevant(lay, f, 0x0800, DirectFrag(dir, EqCheck(Bpf.SizeW, NetAt(lay) + 12, a), EqCheck(Bpf.SizeW, NetAt(lay) + 16, a)));
    case Host6(a, dir) =>
      GuardedIrrelevant(lay, f, 0x86dd, ListFrag(dir, Groups(a, NetAt(lay) + 8, 0), Groups(a, NetAt(lay) + 24, 0)));
    case Network(a, mask, dir) =>
      GuardedIrrelevant(lay, f, 0x0800, DirectFrag(dir, Masked(NetAt(lay) + 12, a, mask), Masked(NetAt(lay) + 16, a, mask)));
    case Network6(a, n, dir) =>
      GuardedIrrelevant(lay, f, 0x86dd, ListFrag(dir, PrefixGroups(a, n, NetAt(lay) + 8, 0), PrefixGroups(a, n, NetAt(lay) + 24, 0)));
  }

  lemma UnguardedIrrelevant(lay: Layout, f: Facts, p: Primitive)
    requires p.EtherHost? || p.EtherMulticast? || p.Mpls? || p.Len? || p.Access? || p.Inbound? || p.Outbound?
    ensures Independent(EmitPrim(lay, f, p), EmitPrim(lay, Drop(f), p))
  {
  }

  /** Only port tests look at the offset. */
  lemma {:induction false} PrimIrrelevant(lay: Layout, f: Facts, p: Primitive)
    requires !p.Port? && !p.PortRange?
    ensures Independent(EmitPrim(lay, f, p), EmitPrim(lay, Drop(f), p))
  {
    if p.Host4? || p.Host6? || p.Network? || p.Network6? {
      AddressIrrelevant(lay, f, p);
    } else if p.EtherHost? || p.EtherMulticast? || p.Mpls? || p.Len? || p.Access? || p.Inbound? || p.Outbound? {
      UnguardedIrrelevant(lay, f, p);
    } else {
      match p
      case IsProto(pr) => ProtoIrrelevant(lay, f, pr);
      case EtherProto(et) => GuardsIrrelevant(lay, f, et, 0);
      case IpBroadcast => GuardedIrrelevant(lay, f, 0x0800, ChecksFrag(BroadcastChecks(lay)));
      case IpMulticast => GuardedIrrelevant(lay, f, 0x0800, ChecksFrag(MulticastChecks(lay)));
      case Ip6Multicast => GuardedIrrelevant(lay, f, 0x86dd, ChecksFrag(Multicast6Checks(lay)));
      case Vlan(id) => GuardedIrrelevant(lay, f, 0x8100, ChecksFrag(VlanChecks(lay, id)));
      case PppoeDiscovery => GuardsIrrelevant(lay, f, 0x8863, 0);
      case PppoeSession(id) => GuardedIrrelevant(lay, f, 0x8864, ChecksFrag(SessionChecks(lay, id)));
      case IpProtoChain(n) => GuardsIrrelevant(lay, f, 0, n);
      case Ip6ProtoChain(n) => GuardsIrrelevant(lay, f, 0, n);
    }
  }

  lemma {:induction false} HoistIrrelevant(lay: Layout, f: Facts, g: GuardSet)
    requires g.portPrereqs.None?
    ensures Independent(EmitHoist(lay, f, g), EmitHoist(lay, Drop(f), g))
  {
    if EmitHoist(lay, f, g).Ok? {
      var a := HoistEthertype(lay, f, g.ethertype).value;
      var b := HoistIp4(lay, a.facts, g.ip4Proto).value;
      if g.ethertype.Some? { GuardsIrrelevant(lay, f, g.ethertype.value, 0); }
      if g.ip4Proto.Some? { GuardsIrrelevant(lay, a.facts, 0, g.ip4Proto.value); }
      if g.ip6Next.Some? { GuardsIrrelevant(lay, b.facts, 0, g.ip6Next.value); }
    }
  }

  /** Ports are required only by expressions that leave an offset. */
  lemma {:induction false} RequiredPortsLeft(e: Expr)
    ensures Required(e).portPrereqs.Some? ==> LeavesPorts(e) && !NoPorts(e)
  {
    match e
    case Prim(p) =>
    case And(l, r) => RequiredPortsLeft(l); RequiredPortsLeft(r);
    case Or(l, r) => RequiredPortsLeft(l); RequiredPortsLeft(r);
    case Not(_) =>
  }

  /** An expression without port tests compiles alike with and without an offset
      on record. */
  lemma {:induction false} PortsIrrelevant(e: Expr, lay: Layout, f: Facts)
    requires NoPorts(e)
    ensures Independent(Emit(e, lay, f), Emit(e, lay, Drop(f)))
  {
    if Emit(e, lay, f).Ok? {
      match e
      case Prim(p) => PrimIrrelevant(lay, f, p);
      case And(l, r) =>
        var a := Emit(l, lay, f).value;
        PortsIrrelevant(l, lay, f);
        PortsIrrelevant(r, if LeadingVlan(l) then Tagged(lay) else lay, a.facts);
      case Or(l, r) =>
        var g := Intersect(Required(l), Required(r));
        RequiredPortsLeft(l);
        HoistIrrelevant(lay, f, g);
        var h := EmitHoist(lay, f, g).value;
        var a := Emit(l, lay, h.facts).value;
        PortsIrrelevant(l, lay, h.facts);
        PortsIrrelevant(r, lay, Restored(h.facts, a.frag));
      case Not(x) => PortsIrrelevant(x, lay, f);
    }
  }

  /** Where no offset is on record, such an expression leaves none. */
  lemma {:induction false} NoneLeft(e: Expr, lay: Layout, f: Facts)
    requires !LeavesPorts(e) && f.portsReady.None? && Emit(e, lay, f).Ok?
    ensures Emit(e, lay, f).value.facts.portsReady.None?
  {
    match e
    case Prim(p) =>
      PrimIrrelevant(lay, f, p);
      assert Drop(f) == f;
    case And(l, r) =>
      NoneLeft(l, lay, f);
      NoneLeft(r, if LeadingVlan(l) then Tagged(lay) else lay, Emit(l, lay, f).value.facts);
    case Or(l, r) =>
      var g := Intersect(Required(l), Required(r));
      var h := EmitHoist(lay, f, g).value;
      RequiredPortsLeft(l);
      RequiredPortsLeft(r);
      HoistIrrelevant(lay, f, g);
      assert Drop(f) == f && h.facts.portsReady.None?;
      if !LeavesPorts(l) { NoneLeft(l, lay, h.facts); } else { NoneLeft(r, lay, Restored(h.facts, Emit(l, lay, h.facts).value.frag)); }
    case Not(_) =>
  }
}
