// `vlan and e`: behind one matched tag the program for `e` sees the frame with
// the tag removed (pktbaffle/src/codegen.rs:441-453, 551-583, 1376-1389).

module VlanProofs {
  import opened Words
  import opened Results
  import opened Bpf
  import opened Vm
  import opened Ast
  import opened Meaning
  import opened Guards
  import opened Backpatch
  import opened Lengths
  import opened Hoisting
  import opened CompileProofs

  // ----- removing the tag -----

  function TagAt(link: LinkType): nat { if link.LinuxSll? then 14 else 12 }

  /** The frame with its four tag bytes removed. */
  function Untagged(link: LinkType, pkt: Packet): Packet
    requires |pkt| >= TagAt(link) + 4
  {
    pkt[..TagAt(link)] + pkt[TagAt(link) + 4..]
  }

  /** `g` reads of a tagged frame what `f` reads of the untagged one. */
  predicate FieldMoves(f: Field, g: Field, at: nat) {
    match f
    case Abs(size, k) => g.Abs? && g.size == size && ((k >= at && g.k == k + 4) || (k + Bytes(size) <= at && g.k == k))
    case Behind(net, size, k) =>
      g.Behind? && g.size == size && net >= at && g.net == net + 4 && k >= at && g.k == k + 4 && k + 64 < U32_SIZE
    case HeaderLen(net) => g.HeaderLen? && net >= at && g.net == net + 4
    case Length => false
    case Literal(_) => f == g
  }

  predicate FormulaMoves(f: Formula, g: Formula, at: nat) {
    match f
    case Known(_) => f == g
    case Compare(lhs, ops, op, rhs) =>
      g.Compare? && g.ops == ops && g.op == op && FieldMoves(lhs, g.lhs, at) && FieldMoves(rhs, g.rhs, at)
    case Both(p, q) => g.Both? && FormulaMoves(p, g.f, at) && FormulaMoves(q, g.g, at)
    case Either(p, q) => g.Either? && FormulaMoves(p, g.f, at) && FormulaMoves(q, g.g, at)
  }

  lemma {:induction false} LoadMoves(link: LinkType, size: Size, k: u32, k': u32, pkt: Packet)
    requires |pkt| >= TagAt(link) + 4
    requires (k >= TagAt(link) && k' == k + 4) || (k + Bytes(size) <= TagAt(link) && k' == k)
    ensures SizedLoad(pkt, k', size) == SizedLoad(Untagged(link, pkt), k, size)
  {
    var u := Untagged(link, pkt);
    if k' + Bytes(size) <= |pkt| {
      assert u[k] == pkt[k'];
      assert size != SizeB ==> u[k + 1] == pkt[k' + 1];
      assert size == SizeW ==> u[k + 2] == pkt[k' + 2] && u[k + 3] == pkt[k' + 3];
    }
  }

  lemma {:induction false} ReadMoves(link: LinkType, f: Field, g: Field, pkt: Packet)
    requires |pkt| >= TagAt(link) + 4 && FieldMoves(f, g, TagAt(link))
    ensures Read(g, pkt) == Read(f, Untagged(link, pkt))
  {
    var u := Untagged(link, pkt);
    match f
    case Abs(size, k) => LoadMoves(link, size, k, g.k, pkt);
    case Behind(net, size, k) =>
      assert MshLoad(pkt, g.net) == MshLoad(u, net);
      var hl := MshLoad(u, net);
      if hl.Some? { LoadMoves(link, size, Add32(hl.value, k), Add32(hl.value, g.k), pkt); }
    case HeaderLen(net) =>
    case Literal(_) =>
  }

  lemma {:induction false} EvalMoves(link: LinkType, f: Formula, g: Formula, pkt: Packet)
    requires |pkt| >= TagAt(link) + 4 && FormulaMoves(f, g, TagAt(link))
    ensures Eval(g, pkt) == Eval(f, Untagged(link, pkt)) && Sat(g, pkt) == Sat(f, Untagged(link, pkt))
  {
    match f
    case Known(_) =>
    case Compare(lhs, ops, op, rhs) =>
      ReadMoves(link, lhs, g.lhs, pkt);
      ReadMoves(link, rhs, g.rhs, pkt);
    case Both(p, q) => EvalMoves(link, p, g.f, pkt); EvalMoves(link, q, g.g, pkt);
    case Either(p, q) => EvalMoves(link, p, g.f, pkt); EvalMoves(link, q, g.g, pkt);
  }

  // ----- every formula moves with the headers -----

  predicate AccessMoves(l: ByteLoad) { !l.layer.Raw? }

  /** Primitives that do not speak of the frame's length, its link-layer bytes
      at a fixed offset, or its tags. */
  predicate PrimMoves(p: Primitive) {
    match p
    case Vlan(_) => false
    case Len(_, _) => false
    case EtherProto(et) => et != 0x8100
    case Access(ba) => AccessMoves(ba.lhs) && (ba.rhs.Field? ==> AccessMoves(ba.rhs.load))
    case _ => true
  }

  predicate Movable(e: Expr) {
    match e
    case Prim(p) => PrimMoves(p)
    case And(l, r) => Movable(l) && Movable(r)
    case Or(l, r) => Movable(l) && Movable(r)
    case Not(x) => Movable(x)
  }

  lemma {:induction false} MovableSupported(e: Expr)
    requires Movable(e)
    ensures NoTagTest(e)
  {
    match e
    case Prim(_) =>
    case And(l, r) => MovableSupported(l); MovableSupported(r);
    case Or(l, r) => MovableSupported(l); MovableSupported(r);
    case Not(x) => MovableSupported(x);
  }

  predicate CheckMoves(c: Check, d: Check, at: nat) {
    d == c.(k := d.k) && FieldMoves(Abs(c.size, c.k), Abs(d.size, d.k), at)
  }

  lemma {:induction false} AllMoves(cs: seq<Check>, ds: seq<Check>, at: nat)
    requires |cs| == |ds| && forall i :: 0 <= i < |cs| ==> CheckMoves(cs[i], ds[i], at)
    ensures FormulaMoves(All(cs), All(ds), at)
  {
    if cs != [] {
      assert CheckMoves(cs[0], ds[0], at);
      AllMoves(cs[1..], ds[1..], at);
    }
  }

  lemma OneMore(c: Check, cs: seq<Check>, d: Check, ds: seq<Check>, at: nat)
    requires CheckMoves(c, d, at) && FormulaMoves(All(cs), All(ds), at)
    ensures FormulaMoves(All([c] + cs), All([d] + ds), at)
  {
    assert ([c] + cs)[1..] == cs && ([d] + ds)[1..] == ds;
  }

  lemma SmallCheckMoves(size: Size, k: nat, ops: Ops, v: u32, at: nat)
    requires at <= k <= 200
    ensures CheckMoves(Check(size, Off(k), ops, Eq, v), Check(size, Off(k + 4), ops, Eq, v), at)
    ensures ops == [] ==> CheckMoves(EqCheck(size, k, v), EqCheck(size, k + 4, v), at)
  {
  }

  lemma OneCheckMoves(size: Size, k: nat, ops: Ops, v: u32, at: nat)
    requires at <= k <= 200
    ensures FormulaMoves(All([Check(size, Off(k), ops, Eq, v)]), All([Check(size, Off(k + 4), ops, Eq, v)]), at)
  {
    SmallCheckMoves(size, k, ops, v, at);
    OneMore(Check(size, Off(k), ops, Eq, v), [], Check(size, Off(k + 4), ops, Eq, v), [], at);
  }

  lemma {:induction false} GroupsMove(a: Ip6Addr, k: nat, at: nat, i: nat)
    requires i <= 8 && at <= k <= 100
    ensures FormulaMoves(All(Groups(a, k, i)), All(Groups(a, k + 4, i)), at)
    decreases 8 - i
  {
    if i < 8 {
      GroupsMove(a, k, at, i + 1);
      SmallCheckMoves(SizeH, k + i * 2, [], a[i], at);
      OneMore(EqCheck(SizeH, k + i * 2, a[i]), Groups(a, k, i + 1), EqCheck(SizeH, k + 4 + i * 2, a[i]), Groups(a, k + 4, i + 1), at);
    }
  }

  lemma {:induction false} PrefixGroupsMove(a: Ip6Addr, n: u8, k: nat, at: nat, i: nat)
    requires i <= 8 && at <= k <= 100
    ensures FormulaMoves(All(PrefixGroups(a, n, k, i)), All(PrefixGroups(a, n, k + 4, i)), at)
    decreases 8 - i
  {
    if i < 8 && i * 16 < n {
      PrefixGroupsMove(a, n, k, at, i + 1);
      var rest, rest' := PrefixGroups(a, n, k, i + 1), PrefixGroups(a, n, k + 4, i + 1);
      if i * 16 + 16 <= n {
        SmallCheckMoves(SizeH, k + i * 2, [], a[i], at);
        OneMore(EqCheck(SizeH, k + i * 2, a[i]), rest, EqCheck(SizeH, k + 4 + i * 2, a[i]), rest', at);
      } else {
        var mask := GroupMask(n - i * 16);
        var ops, v := [(Bpf.And, mask)], BitAnd(a[i], mask);
        SmallCheckMoves(SizeH, k + i * 2, ops, v, at);
        OneMore(Check(SizeH, Off(k + i * 2), ops, Eq, v), rest, Check(SizeH, Off(k + 4 + i * 2), ops, Eq, v), rest', at);
      }
    }
  }

  lemma ByDirMoves(dir: Dir, p: Formula, q: Formula, p': Formula, q': Formula, at: nat)
    requires FormulaMoves(p, p', at) && FormulaMoves(q, q', at)
    ensures FormulaMoves(ByDir(dir, p, q), ByDir(dir, p', q'), at)
  {
  }

  /** Two layouts of one link type: without a tag and behind one. */
  predicate Behind1(lay: Layout, lay': Layout, at: nat) {
    && !lay.link.RawIp? && lay == Layout(lay.link, 0) && lay' == Layout(lay.link, 1) && at == TagAt(lay.link)
  }

  lemma Offsets(lay: Layout, lay': Layout, at: nat)
    requires Behind1(lay, lay', at)
    ensures NetAt(lay) == at + 2 && NetAt(lay') == at + 6 && EthAt(lay) == Some(at) && EthAt(lay') == Some(at + 4) && at <= 14
  {
  }

  lemma EthMoves(lay: Layout, lay': Layout, at: nat)
    requires Behind1(lay, lay', at)
    ensures forall et :: FormulaMoves(EthIs(lay, et), EthIs(lay', et), at)
  {
    Offsets(lay, lay', at);
  }

  lemma ByteMoves(k: nat, at: nat, n: u8, s: L4Set)
    requires at <= k <= 100
    ensures FormulaMoves(FieldIs(SizeB, k, n), FieldIs(SizeB, k + 4, n), at)
    ensures FormulaMoves(ByteIn(k, s), ByteIn(k + 4, s), at)
  {
    assert forall v :: FormulaMoves(FieldIs(SizeB, k, v), FieldIs(SizeB, k + 4, v), at);
  }

  lemma L4Moves(lay: Layout, lay': Layout, at: nat, n: u8)
    requires Behind1(lay, lay', at)
    ensures FormulaMoves(Ip4ProtoIs(lay, n), Ip4ProtoIs(lay', n), at)
    ensures FormulaMoves(Ip6NextIs(lay, n), Ip6NextIs(lay', n), at)
  {
    Offsets(lay, lay', at);
    EthMoves(lay, lay', at);
    ByteMoves(NetAt(lay) + 9, at, n, TcpOrUdp);
    ByteMoves(NetAt(lay) + 6, at, n, TcpOrUdp);
  }

  lemma PrereqsMove(lay: Layout, lay': Layout, at: nat, s: L4Set)
    requires Behind1(lay, lay', at)
    ensures FormulaMoves(Ports4(lay, s), Ports4(lay', s), at) && FormulaMoves(Ports6(lay, s), Ports6(lay', s), at)
  {
    Offsets(lay, lay', at);
    EthMoves(lay, lay', at);
    ByteMoves(NetAt(lay) + 9, at, 0, s);
    ByteMoves(NetAt(lay) + 6, at, 0, s);
    assert FormulaMoves(FirstFragment(lay), FirstFragment(lay'), at);
    assert FormulaMoves(Both(ByteIn(NetAt(lay) + 9, s), FirstFragment(lay)), Both(ByteIn(NetAt(lay') + 9, s), FirstFragment(lay')), at);
  }

  lemma PortFieldMoves(lay: Layout, lay': Layout, at: nat, v6: bool, isDst: bool)
    requires Behind1(lay, lay', at)
    ensures FieldMoves(PortField(lay, v6, isDst), PortField(lay', v6, isDst), at)
  {
    Offsets(lay, lay', at);
    var k: u32 := at + if isDst then 4 else 2;
    assert Off(NetAt(lay) + if isDst then 2 else 0) == k && Off(NetAt(lay') + if isDst then 2 else 0) == k + 4;
    assert Add32(40, k) == 40 + k && Add32(40, k + 4) == 44 + k;
  }

  lemma PortsMove(lay: Layout, lay': Layout, at: nat, s: L4Set, dir: Dir, t: Field -> Formula)
    requires Behind1(lay, lay', at)
    requires forall f, g :: FieldMoves(f, g, at) ==> FormulaMoves(t(f), t(g), at)
    ensures FormulaMoves(OnPorts(lay, s, dir, t), OnPorts(lay', s, dir, t), at)
  {
    PrereqsMove(lay, lay', at, s);
    forall v6, d ensures FormulaMoves(t(PortField(lay, v6, d)), t(PortField(lay', v6, d)), at) {
      PortFieldMoves(lay, lay', at, v6, d);
    }
    forall v6 ensures FormulaMoves(ByDir(dir, t(PortField(lay, v6, false)), t(PortField(lay, v6, true))),
                                   ByDir(dir, t(PortField(lay', v6, false)), t(PortField(lay', v6, true))), at) {
      ByDirMoves(dir, t(PortField(lay, v6, false)), t(PortField(lay, v6, true)),
                 t(PortField(lay', v6, false)), t(PortField(lay', v6, true)), at);
    }
    var six := Both(Ports6(lay, s), ByDir(dir, t(PortField(lay, true, false)), t(PortField(lay, true, true))));
    var four := Both(Ports4(lay, s), ByDir(dir, t(PortField(lay, false, false)), t(PortField(lay, false, true))));
    var six' := Both(Ports6(lay', s), ByDir(dir, t(PortField(lay', true, false)), t(PortField(lay', true, true))));
    var four' := Both(Ports4(lay', s), ByDir(dir, t(PortField(lay', false, false)), t(PortField(lay', false, true))));
    assert FormulaMoves(six, six', at) && FormulaMoves(four, four', at);
  }

  lemma TypeWithMoves(lay: Layout, lay': Layout, at: nat, et: u32, size: Size, k: nat, ops: Ops, v: u32)
    requires Behind1(lay, lay', at) && at <= k <= 200
    ensures FormulaMoves(TypeWith(lay, et, []), TypeWith(lay', et, []), at)
    ensures FormulaMoves(TypeWith(lay, et, [Check(size, Off(k), ops, Eq, v)]), TypeWith(lay', et, [Check(size, Off(k + 4), ops, Eq, v)]), at)
  {
    EthMoves(lay, lay', at);
    OneCheckMoves(size, k, ops, v, at);
  }

  lemma AddressMoves(lay: Layout, lay': Layout, at: nat, et: u32, dir: Dir, p: Formula, q: Formula, p': Formula, q': Formula)
    requires Behind1(lay, lay', at) && FormulaMoves(p, p', at) && FormulaMoves(q, q', at)
    ensures FormulaMoves(Both(EthIs(lay, et), ByDir(dir, p, q)), Both(EthIs(lay', et), ByDir(dir, p', q')), at)
  {
    EthMoves(lay, lay', at);
    ByDirMoves(dir, p, q, p', q', at);
  }

  lemma Address4Moves(lay: Layout, lay': Layout, at: nat, a: u32, m: u32, dir: Dir)
    requires Behind1(lay, lay', at)
    ensures FormulaMoves(Host4Formula(lay, a, dir), Host4Formula(lay', a, dir), at)
    ensures FormulaMoves(NetworkFormula(lay, a, m, dir), NetworkFormula(lay', a, m, dir), at)
  {
    Offsets(lay, lay', at);
    var n := NetAt(lay);
    OneCheckMoves(SizeW, n + 12, [], a, at);
    OneCheckMoves(SizeW, n + 16, [], a, at);
    AddressMoves(lay, lay', at, 0x0800, dir, All([EqCheck(SizeW, n + 12, a)]), All([EqCheck(SizeW, n + 16, a)]),
                 All([EqCheck(SizeW, n + 16, a)]), All([EqCheck(SizeW, n + 20, a)]));
    OneCheckMoves(SizeW, n + 12, [(Bpf.And, m)], BitAnd(a, m), at);
    OneCheckMoves(SizeW, n + 16, [(Bpf.And, m)], BitAnd(a, m), at);
    AddressMoves(lay, lay', at, 0x0800, dir, All([Masked(n + 12, a, m)]), All([Masked(n + 16, a, m)]),
                 All([Masked(n + 16, a, m)]), All([Masked(n + 20, a, m)]));
  }

  lemma Address6Moves(lay: Layout, lay': Layout, at: nat, a: Ip6Addr, k: u8, dir: Dir)
    requires Behind1(lay, lay', at)
    ensures FormulaMoves(Host6Formula(lay, a, dir), Host6Formula(lay', a, dir), at)
    ensures FormulaMoves(Network6Formula(lay, a, k, dir), Network6Formula(lay', a, k, dir), at)
  {
    Offsets(lay, lay', at);
    var s, d := NetAt(lay) + 8, NetAt(lay) + 24;
    GroupsMove(a, s, at, 0);
    GroupsMove(a, d, at, 0);
    PrefixGroupsMove(a, k, s, at, 0);
    PrefixGroupsMove(a, k, d, at, 0);
    AddressMoves(lay, lay', at, 0x86dd, dir, All(Groups(a, s, 0)), All(Groups(a, d, 0)),
                 All(Groups(a, s + 4, 0)), All(Groups(a, d + 4, 0)));
    AddressMoves(lay, lay', at, 0x86dd, dir, All(PrefixGroups(a, k, s, 0)), All(PrefixGroups(a, k, d, 0)),
                 All(PrefixGroups(a, k, s + 4, 0)), All(PrefixGroups(a, k, d + 4, 0)));
  }

  lemma MacMoves(at: nat, mac: MacAddr, dir: Dir)
    requires at >= 12
    ensures FormulaMoves(EtherHostFormula(mac, dir), EtherHostFormula(mac, dir), at)
  {
    AllMoves(Mac(mac, 0), Mac(mac, 0), at);
    AllMoves(Mac(mac, 6), Mac(mac, 6), at);
  }

  lemma AccessFieldMoves(lay: Layout, lay': Layout, at: nat, l: ByteLoad)
    requires Behind1(lay, lay', at) && AccessMoves(l)
    ensures FieldMoves(LayerField(lay, l), LayerField(lay', l), at)
  {
    Offsets(lay, lay', at);
  }

  lemma AccessFormulaMoves(lay: Layout, lay': Layout, at: nat, ba: ByteAccess)
    requires Behind1(lay, lay', at) && PrimMoves(Access(ba))
    ensures FormulaMoves(AccessFormula(lay, ba), AccessFormula(lay', ba), at)
  {
    AccessFieldMoves(lay, lay', at, ba.lhs);
    if ba.rhs.Field? { AccessFieldMoves(lay, lay', at, ba.rhs.load); }
  }

  lemma ProtoMoves(lay: Layout, lay': Layout, at: nat, p: Proto)
    requires Behind1(lay, lay', at)
    ensures FormulaMoves(ProtoFormula(lay, p), ProtoFormula(lay', p), at)
  {
    EthMoves(lay, lay', at);
    forall n: u8 ensures FormulaMoves(Ip4ProtoIs(lay, n), Ip4ProtoIs(lay', n), at)
                      && FormulaMoves(Ip6NextIs(lay, n), Ip6NextIs(lay', n), at) {
      L4Moves(lay, lay', at, n);
    }
  }

  lemma MplsMoves(lay: Layout, lay': Layout, at: nat, lbl: Option<u32>)
    requires Behind1(lay, lay', at)
    ensures FormulaMoves(MplsAsCompiled(lay, lbl), MplsAsCompiled(lay', lbl), at)
  {
    Offsets(lay, lay', at);
    EthMoves(lay, lay', at);
    assert FormulaMoves(LabelIs(lay, lbl), LabelIs(lay', lbl), at);
    assert FormulaMoves(Both(EthIs(lay, 0x8848), LabelIs(lay, lbl)), Both(EthIs(lay', 0x8848), LabelIs(lay', lbl)), at);
  }

  lemma TypesMove(lay: Layout, lay': Layout, at: nat, p: Primitive)
    requires Behind1(lay, lay', at)
    requires p.IpBroadcast? || p.IpMulticast? || p.Ip6Multicast? || p.PppoeSession?
    ensures FormulaMoves(PrimFormula(lay, p), PrimFormula(lay', p), at)
  {
    Offsets(lay, lay', at);
    var n := NetAt(lay);
    match p
    case IpBroadcast => TypeWithMoves(lay, lay', at, 0x0800, SizeW, n + 16, [], 0xffff_ffff);
    case IpMulticast => TypeWithMoves(lay, lay', at, 0x0800, SizeW, n + 16, [(Bpf.And, 0xf000_0000)], 0xe000_0000);
    case Ip6Multicast => TypeWithMoves(lay, lay', at, 0x86dd, SizeB, n + 24, [], 0xff);
    case PppoeSession(id) => TypeWithMoves(lay, lay', at, 0x8864, SizeH, at + 4, [], if id.Some? then id.value else 0);
  }

  lemma {:induction false} PrimFormulaMoves(lay: Layout, lay': Layout, at: nat, p: Primitive)
    requires Behind1(lay, lay', at) && PrimMoves(p)
    ensures FormulaMoves(PrimFormula(lay, p), PrimFormula(lay', p), at)
  {
    if p.Host4? {
      Address4Moves(lay, lay', at, p.addr, 0, p.dir);
    } else if p.Network? {
      Address4Moves(lay, lay', at, p.addr, p.mask, p.dir);
    } else if p.Host6? {
      Address6Moves(lay, lay', at, p.addr6, 0, p.dir);
    } else if p.Network6? {
      Address6Moves(lay, lay', at, p.addr6, p.prefixLen, p.dir);
    } else if p.Port? {
      if L4SetFor(p.proto).Some? { PortsMove(lay, lay', at, L4SetFor(p.proto).value, p.dir, f => PortIs(f, p.port)); }
    } else if p.PortRange? {
      if L4SetFor(p.proto).Some? { PortsMove(lay, lay', at, L4SetFor(p.proto).value, p.dir, f => PortIn(f, p.lo, p.hi)); }
    } else if p.IsProto? {
      ProtoMoves(lay, lay', at, p.p);
    } else if p.IpProtoChain? || p.Ip6ProtoChain? {
      L4Moves(lay, lay', at, p.n);
    } else if p.EtherHost? {
      MacMoves(at, p.mac, p.dir);
    } else if p.Mpls? {
      MplsMoves(lay, lay', at, p.lbl);
    } else if p.Access? {
      AccessFormulaMoves(lay, lay', at, p.ba);
    } else if p.EtherMulticast? {
      AllMoves(EtherMulticastChecks(), EtherMulticastChecks(), at);
    } else if p.EtherProto? || p.PppoeDiscovery? {
      EthMoves(lay, lay', at);
    } else if !p.Inbound? && !p.Outbound? {
      TypesMove(lay, lay', at, p);
    }
  }

  lemma {:induction false} NoTagGuard(e: Expr)
    requires NoTagTest(e)
    ensures Required(e).ethertype != Some(0x8100)
  {
    match e
    case Prim(_) =>
    case And(l, r) => NoTagGuard(l); NoTagGuard(r);
    case Or(l, r) => NoTagGuard(l); NoTagGuard(r);
    case Not(_) =>
  }

  lemma GuardMoves(lay: Layout, lay': Layout, at: nat, g: GuardSet)
    requires Behind1(lay, lay', at) && g.ethertype != Some(0x8100)
    ensures FormulaMoves(HoistFormula(lay, g), HoistFormula(lay', g), at)
  {
    EthMoves(lay, lay', at);
    L4Moves(lay, lay', at, if g.ip4Proto.Some? then g.ip4Proto.value else 0);
    L4Moves(lay, lay', at, if g.ip6Next.Some? then g.ip6Next.value else 0);
    if g.portPrereqs.Some? { HasPortsMoves(lay, lay', at, g.portPrereqs.value); }
    var h, h' := HoistFormula(lay, g), HoistFormula(lay', g);
    assert FormulaMoves(h.f, h'.f, at) && FormulaMoves(h.g.f, h'.g.f, at);
    assert FormulaMoves(h.g.g.f, h'.g.g.f, at) && FormulaMoves(h.g.g.g, h'.g.g.g, at);
    assert FormulaMoves(h.g.g, h'.g.g, at);
    assert FormulaMoves(h.g, h'.g, at);
  }

  lemma HasPortsMoves(lay: Layout, lay': Layout, at: nat, s: L4Set)
    requires Behind1(lay, lay', at)
    ensures FormulaMoves(HasPorts(lay, s), HasPorts(lay', s), at)
  {
    PrereqsMove(lay, lay', at, s);
  }

  /** A movable expression behind the tag says of the tagged frame what it says
      of the frame without the tag, with and without hoisting. */
  lemma {:induction false} MeaningMoves(e: Expr, link: LinkType, pkt: Packet)
    requires Movable(e) && !link.RawIp? && |pkt| >= TagAt(link) + 4
    ensures Matches(e, Layout(link, 1), pkt) == Matches(e, Layout(link, 0), Untagged(link, pkt))
    ensures Eval3(e, Layout(link, 1), pkt) == Eval3(e, Layout(link, 0), Untagged(link, pkt))
    ensures EvalHoisted(e, Layout(link, 1), pkt) == EvalHoisted(e, Layout(link, 0), Untagged(link, pkt))
  {
    match e
    case Prim(p) =>
      PrimFormulaMoves(Layout(link, 0), Layout(link, 1), TagAt(link), p);
      MovableSupported(e);
      CompiledAsWritten(Layout(link, 0), p);
      CompiledAsWritten(Layout(link, 1), p);
      EvalMoves(link, PrimFormula(Layout(link, 0), p), PrimFormula(Layout(link, 1), p), pkt);
    case And(l, r) =>
      MovableSupported(l);
      NoTagTestNoShift(l);
      MeaningMoves(l, link, pkt);
      MeaningMoves(r, link, pkt);
    case Or(l, r) =>
      MeaningMoves(l, link, pkt);
      MeaningMoves(r, link, pkt);
      MovableSupported(l);
      NoTagGuard(l);
      GuardMoves(Layout(link, 0), Layout(link, 1), TagAt(link), Shared(l, r));
      EvalMoves(link, HoistFormula(Layout(link, 0), Shared(l, r)), HoistFormula(Layout(link, 1), Shared(l, r)), pkt);
    case Not(x) => MeaningMoves(x, link, pkt);
  }

  // ----- the chain and its tail -----

  /** The identifier the leading `vlan` of a chain asks for. */
  function TagId(e: Expr): Option<u16>
    requires Chain(e)
  {
    if e.Prim? then e.p.id else TagId(e.left)
  }

  /** The chain without its leading `vlan`. */
  function Tail(e: Expr): Expr
    requires Chain(e) && e.And?
  {
    if e.left.Prim? then e.right else Expr.And(Tail(e.left), e.right)
  }

  /** The frame carries a tag that the `vlan` test accepts. */
  predicate TagMatches(link: LinkType, id: Option<u16>, pkt: Packet) {
    Sat(PrimFormula(Layout(link, 0), Vlan(id)), pkt)
  }

  lemma TagReadable(link: LinkType, id: Option<u16>, pkt: Packet)
    requires !link.RawIp? && |pkt| >= TagAt(link) + 4
    ensures Eval(PrimFormula(Layout(link, 0), Vlan(id)), pkt) == FromBool(TagMatches(link, id, pkt))
  {
    var f := PrimFormula(Layout(link, 0), Vlan(id));
    var lay, at := Layout(link, 0), TagAt(link);
    PrimDefined(lay, Vlan(id));
    var cs := VlanChecks(lay, id);
    assert EthAt(lay) == Some(at) && FormulaFits(EthIs(lay, 0x8100), |pkt|);
    if id.Some? { assert cs[1..] == [] && FormulaFits(CheckFormula(cs[0]), |pkt|) && FormulaFits(All([]), |pkt|); }
    assert FormulaFits(All(cs), |pkt|);
    FitsEvaluates(f, pkt);
    EvalIsSat(f, pkt);
  }

  /** A chain is its tag test and then its tail, read behind the tag. */
  lemma {:induction false} ChainMeaning(e: Expr, link: LinkType, pkt: Packet)
    requires Chain(e) && e.And? && NoTagTest(Tail(e))
    ensures EvalHoisted(e, Layout(link, 0), pkt) ==
            And3(Eval(PrimFormula(Layout(link, 0), Vlan(TagId(e))), pkt), EvalHoisted(Tail(e), Layout(link, 1), pkt))
  {
    ChainLeads(e.left);
    assert Tagged(Layout(link, 0)) == Layout(link, 1);
    if e.left.And? {
      ChainMeaning(e.left, link, pkt);
      NoTagTestNoShift(Tail(e.left));
    } else {
      CompiledAsWritten(Layout(link, 0), Vlan(TagId(e)));
      assert EvalHoisted(e.left, Layout(link, 0), pkt) == Eval(PrimFormula(Layout(link, 0), Vlan(TagId(e))), pkt);
    }
  }

  /** The program for a chain `vlan and ...` against the program for its tail on
      the frame without the tag: on every frame that holds a tag, the very same
      outcome, faults included, if the tag matches, and a drop if not. */
  lemma {:induction false} VlanStripsTag(e: Expr, link: LinkType, pkt: Packet)
    requires Chain(e) && e.And? && Movable(Tail(e)) && !link.RawIp? && |pkt| >= TagAt(link) + 4
    requires Assemble(e, link).Ok? && Assemble(Tail(e), link).Ok?
    ensures Outcomes(Assemble(e, link).value, pkt) ==
            if TagMatches(link, TagId(e), pkt) then Outcomes(Assemble(Tail(e), link).value, Untagged(link, pkt)) else Verdict(false)
  {
    var u := Untagged(link, pkt);
    MovableSupported(Tail(e));
    ChainMeaning(e, link, pkt);
    NoTagTestNoShift(Tail(e));
    PlainlyCovered(e);
    PlainlyCovered(Tail(e));
    AssembledImplements(e, link);
    AssembledImplements(Tail(e), link);
    assert ImplementsOn(Assemble(e, link).value, e, link, pkt);
    assert ImplementsOn(Assemble(Tail(e), link).value, Tail(e), link, u);
    TagReadable(link, TagId(e), pkt);
    MeaningMoves(Tail(e), link, pkt);
  }
}
