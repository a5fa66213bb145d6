// The port prologue and the port tests behind it
// (pktbaffle/src/codegen.rs:1037-1259).

module PortProofs {
  import opened Words
  import opened Results
  import opened Bpf
  import opened Vm
  import opened Ast
  import opened Meaning
  import opened Guards
  import opened Fragments
  import opened Emission
  import opened CheckProofs
  import opened PrimProofs

  // ----- pieces of the prologue -----

  /** A load, then two branches that together admit TCP or UDP. */
  lemma TcpOrUdpRuns(pkt: Packet, r: Regs)
    ensures Run([Branch(Jeq, SrcK, 6, Rel(1), Rel(0)), CmpBranch(Eq, 17)], pkt, 0, r) ==
            if r.a == 6 || r.a == 17 then Fell(r) else Failed(r)
  {
    var w := [Branch(Jeq, SrcK, 6, Rel(1), Rel(0)), CmpBranch(Eq, 17)];
    assert Run(w, pkt, 2, r) == Fell(r);
    assert Run(w, pkt, 1, r) == if r.a == 17 then Fell(r) else Failed(r) by {
      assert Run(w, pkt, 1, r) == Leave(w, pkt, Picked(w[1], r), 1, r);
    }
    assert Run(w, pkt, 0, r) == Leave(w, pkt, Picked(w[0], r), 0, r);
  }

  lemma OneLoad(size: Size, k: u32, g: Frag, pkt: Packet, r: Regs)
    ensures Run([Plain(LdAbs(size, k))] + g, pkt, 0, r) ==
            var v := SizedLoad(pkt, k, size); if v.None? then Crashed else Run(g, pkt, 0, r.(a := v.value))
  {
    var code := [LdAbs(size, k)];
    assert [Plain(LdAbs(size, k))] == Plains(code);
    RunPlains(code, g, pkt, r);
    assert code[1..] == [];
  }

  lemma {:induction false} L4Tests(at: nat, want: L4Set, pkt: Packet)
    ensures Tests(L4Frag(at, want), ByteIn(at, want), pkt, None) && NoSucc(L4Frag(at, want))
  {
    match want
    case One(n) =>
      var c := EqCheck(SizeB, at, n);
      CheckTests(c, pkt, None);
      assert CheckFrag(c) == L4Frag(at, want);
    case TcpOrUdp =>
      var w := [Branch(Jeq, SrcK, 6, Rel(1), Rel(0)), CmpBranch(Eq, 17)];
      var f := L4Frag(at, want);
      assert f == [Plain(LdAbs(SizeB, Off(at)))] + w;
      XWritesOne(f[0]);
      XWritesAppend([f[0]], w);
      XWritesAppend([w[0]], [w[1]]);
      XWritesOne(w[0]);
      XWritesOne(w[1]);
      assert w == [w[0]] + [w[1]];
      forall r: Regs ensures Kind(Run(f, pkt, 0, r)) == Eval(ByteIn(at, want), pkt) {
        OneLoad(SizeB, Off(at), w, pkt, r);
        var v := SizedLoad(pkt, Off(at), SizeB);
        if v.Some? { TcpOrUdpRuns(pkt, r.(a := v.value)); }
        assert Eval(FieldIs(SizeB, at, 6), pkt) == if v.None? then Abort else FromBool(v.value == 6);
        assert Eval(FieldIs(SizeB, at, 17), pkt) == if v.None? then Abort else FromBool(v.value == 17);
      }
  }

  lemma FirstFragmentValue(lay: Layout, pkt: Packet)
    ensures Eval(FirstFragment(lay), pkt) ==
            var v := SizedLoad(pkt, Off(NetAt(lay) + 6), SizeH);
            if v.None? then Abort else FromBool(BitAnd(v.value, 0x1fff) == 0)
  {
    var ops: Ops := [(Bpf.And, 0x1fff)];
    assert ops[1..] == [];
    var v := SizedLoad(pkt, Off(NetAt(lay) + 6), SizeH);
    if v.Some? { assert Apply(ops, v.value) == Some(BitAnd(v.value, 0x1fff)); }
  }

  lemma {:induction false} FragmentTests(lay: Layout, pkt: Packet)
    ensures Tests(FragmentFrag(lay), FirstFragment(lay), pkt, None) && NoSucc(FragmentFrag(lay))
  {
    var k := Off(NetAt(lay) + 6);
    var b := Branch(Jset, SrcK, 0x1fff, ToFail, Rel(0));
    var f := FragmentFrag(lay);
    assert f == [Plain(LdAbs(SizeH, k))] + [b];
    XWritesOne(f[0]);
    XWritesOne(b);
    XWritesAppend([f[0]], [b]);
    FirstFragmentValue(lay, pkt);
    forall r: Regs ensures Kind(Run(f, pkt, 0, r)) == Eval(FirstFragment(lay), pkt) {
      OneLoad(SizeH, k, [b], pkt, r);
      var v := SizedLoad(pkt, k, SizeH);
      if v.Some? { BranchRuns(b, pkt, r.(a := v.value)); }
    }
  }

  /** A readable fragment field means the header's first byte is readable. */
  lemma FirstByteReadable(lay: Layout, pkt: Packet)
    requires OffsetsFit(lay) && Eval(FirstFragment(lay), pkt) == True
    ensures Read(HeaderLength(lay), pkt).Some?
  {
    FirstFragmentValue(lay, pkt);
    var net := NetAt(lay);
    OffSmall(net);
    OffSmall(net + 6);
    LoadReaches(pkt, net + 6, SizeH);
  }

  lemma OffSmall(n: nat)
    requires n < U32_SIZE
    ensures Off(n) == n
  {
  }

  lemma LoadReaches(pkt: Packet, k: u32, size: Size)
    requires SizedLoad(pkt, k, size).Some?
    ensures k < |pkt|
  {
  }

  lemma LoadX4Runs(lay: Layout, pkt: Packet, r: Regs)
    ensures Run(LoadX4(lay), pkt, 0, r) ==
            var v := Read(HeaderLength(lay), pkt); if v.None? then Crashed else Fell(r.(x := v.value))
  {
    var v := Read(HeaderLength(lay), pkt);
    if v.Some? { assert Run(LoadX4(lay), pkt, 1, r.(x := v.value)) == Fell(r.(x := v.value)); }
  }

  lemma LoadX6Runs(pkt: Packet, r: Regs)
    ensures Run(LoadX6(), pkt, 0, r) == Fell(r.(x := 40))
  {
    assert Run(LoadX6(), pkt, 1, r.(x := 40)) == Fell(r.(x := 40));
  }

  /** A protocol test, the fragment test and the IPv4 header length. */
  lemma {:induction false} IPv4PathRuns(lay: Layout, code: Frag, p: Formula, pkt: Packet, r: Regs)
    requires OffsetsFit(lay) && Tests(code, p, pkt, None) && NoSucc(code)
    ensures var f := code + FragmentFrag(lay) + LoadX4(lay);
            var o := Run(f, pkt, 0, r);
            && WellFormed(f) && NoSucc(f)
            && Kind(o) == Eval(Both(p, FirstFragment(lay)), pkt)
            && (Kind(o) == True ==> Read(HeaderLength(lay), pkt) == Some(o.r.x))
  {
    var f := code + FragmentFrag(lay);
    FragmentTests(lay, pkt);
    TestsBoth(code, p, FragmentFrag(lay), FirstFragment(lay), pkt, None);
    NoSuccAppend(code, FragmentFrag(lay));
    NoSuccAppend(f, LoadX4(lay));
    NoSuccAnd(f, LoadX4(lay));
    RunAnd(f, LoadX4(lay), pkt, r);
    var o := Run(f, pkt, 0, r);
    assert Kind(o) == Eval(Both(p, FirstFragment(lay)), pkt);
    if Kind(o) == True {
      FirstByteReadable(lay, pkt);
      LoadX4Runs(lay, pkt, o.r);
    }
  }

  /** A protocol test and the fixed IPv6 header length. */
  lemma {:induction false} IPv6PathRuns(code: Frag, p: Formula, pkt: Packet, r: Regs)
    requires Tests(code, p, pkt, None) && NoSucc(code)
    ensures var f := code + LoadX6();
            var o := Run(f, pkt, 0, r);
            && WellFormed(f) && NoSucc(f)
            && Kind(o) == Eval(p, pkt)
            && (Kind(o) == True ==> o.r.x == 40)
  {
    NoSuccAppend(code, LoadX6());
    NoSuccAnd(code, LoadX6());
    RunAnd(code, LoadX6(), pkt, r);
    var o := Run(code, pkt, 0, r);
    if Kind(o) == True { LoadX6Runs(pkt, o.r); }
  }

  lemma {:induction false} IPv4PathSkips(v4: Frag, v6: Frag, pkt: Packet, r: Regs)
    requires WellFormed(v4)
    ensures Run(v4 + ([Goto(Rel(|v6|))] + v6), pkt, 0, r) == Run(v4, pkt, 0, r)
  {
    RunAppend(v4, [Goto(Rel(|v6|))] + v6, pkt, r);
    var o := Run(v4, pkt, 0, r);
    if o.Fell? { SkipRuns(v6, pkt, o.r); }
  }

  /** The two paths joined: the ethertype picks one of them. */
  lemma {:induction false} ByVersionRuns(k: u32, v4: Frag, v6: Frag, pkt: Packet, r: Regs)
    requires WellFormed(v4)
    ensures var et := SizedLoad(pkt, k, SizeH);
            Run(ByVersion(k, v4, v6), pkt, 0, r) ==
            if et.None? then Crashed
            else
              var r1 := r.(a := et.value);
              if et.value == 0x86dd then Run(v6, pkt, 0, r1)
              else if et.value == 0x0800 then Run(v4, pkt, 0, r1)
              else Failed(r1)
  {
    var br := [Branch(Jeq, SrcK, 0x86dd, Rel(|v4| + 2), Rel(0)), CmpBranch(Eq, 0x0800)];
    var skip := [Goto(Rel(|v6|))];
    var w := br + v4 + skip + v6;
    assert ByVersion(k, v4, v6) == [Plain(LdAbs(SizeH, k))] + w;
    OneLoad(SizeH, k, w, pkt, r);
    var et := SizedLoad(pkt, k, SizeH);
    if et.Some? {
      var r1 := r.(a := et.value);
      assert w[0] == br[0] && w[1] == br[1];
      assert Run(w, pkt, 0, r1) == Leave(w, pkt, Picked(w[0], r1), 0, r1);
      if et.value == 0x86dd {
        RunBehind(br + v4 + skip, v6, pkt, 0, r1);
      } else {
        assert Run(w, pkt, 1, r1) == Leave(w, pkt, Picked(w[1], r1), 1, r1);
        assert w == br + (v4 + (skip + v6));
        RunBehind(br, v4 + (skip + v6), pkt, 0, r1);
        IPv4PathSkips(v4, v6, pkt, r1);
      }
    }
  }

  lemma SkipRuns(v6: Frag, pkt: Packet, r: Regs)
    ensures Run([Goto(Rel(|v6|))] + v6, pkt, 0, r) == Fell(r)
  {
    var w := [Goto(Rel(|v6|))] + v6;
    assert Run(w, pkt, |w|, r) == Fell(r);
    assert Run(w, pkt, 0, r) == Leave(w, pkt, Rel(|v6|), 0, r);
  }

  lemma {:induction false} ByVersionForm(k: u32, v4: Frag, v6: Frag)
    requires WellFormed(v4) && WellFormed(v6) && NoSucc(v4) && NoSucc(v6)
    ensures WellFormed(ByVersion(k, v4, v6)) && NoSucc(ByVersion(k, v4, v6))
  {
    var w := ByVersion(k, v4, v6);
    forall i | 0 <= i < |w| ensures InsnWithin(w[i], i, |w|) {
      if 3 <= i < 3 + |v4| {
        assert InsnWithin(v4[i - 3], i - 3, |v4|);
      } else if 4 + |v4| <= i {
        assert InsnWithin(v6[i - 4 - |v4|], i - 4 - |v4|, |v6|);
      }
    }
  }

  // ----- what the facts say about ports -----

  lemma EthertypesExclude(lay: Layout, pkt: Packet)
    ensures Eval(EthIs(lay, 0x0800), pkt) == True ==> Eval(EthIs(lay, 0x86dd), pkt) == False
    ensures Eval(EthIs(lay, 0x86dd), pkt) == True ==> Eval(EthIs(lay, 0x0800), pkt) == False
  {
  }

  /** `HasPorts` once the IP version is known. */
  lemma HasPortsByVersion(lay: Layout, s: L4Set, pkt: Packet)
    ensures Eval(EthIs(lay, 0x0800), pkt) == True ==>
            Eval(HasPorts(lay, s), pkt) == And3(Eval(ByteIn(NetAt(lay) + 9, s), pkt), Eval(FirstFragment(lay), pkt))
    ensures Eval(EthIs(lay, 0x86dd), pkt) == True ==>
            Eval(HasPorts(lay, s), pkt) == Eval(ByteIn(NetAt(lay) + 6, s), pkt)
  {
    EthertypesExclude(lay, pkt);
    Ports4Parts(lay, s, pkt);
    Ports6Parts(lay, s, pkt);
    assert Eval(HasPorts(lay, s), pkt) == Or3(Eval(Ports6(lay, s), pkt), Eval(Ports4(lay, s), pkt));
  }

  lemma PortsAtHasPorts(lay: Layout, s: L4Set, pkt: Packet, x: u32)
    requires PortsAt(lay, s, pkt, x)
    ensures Eval(HasPorts(lay, s), pkt) == True
  {
    HasPortsByVersion(lay, s, pkt);
    Ports4Parts(lay, s, pkt);
    Ports6Parts(lay, s, pkt);
  }

  lemma PortsAtByVersion(lay: Layout, s: L4Set, pkt: Packet, x: u32)
    ensures Eval(EthIs(lay, 0x0800), pkt) == True ==>
            (PortsAt(lay, s, pkt, x) <==>
             Eval(ByteIn(NetAt(lay) + 9, s), pkt) == True && Eval(FirstFragment(lay), pkt) == True
             && Read(HeaderLength(lay), pkt) == Some(x))
    ensures Eval(EthIs(lay, 0x86dd), pkt) == True ==>
            (PortsAt(lay, s, pkt, x) <==> Eval(ByteIn(NetAt(lay) + 6, s), pkt) == True && x == 40)
  {
    EthertypesExclude(lay, pkt);
    Ports4Parts(lay, s, pkt);
    Ports6Parts(lay, s, pkt);
  }

  // ----- the prologue as a whole -----

  /** What the prologue guarantees: it decides `HasPorts`, and behind it X is
      the transport offset for a subset of the wanted protocols. */
  ghost predicate PrologueSound(em: Emitted, lay: Layout, f: Facts, want: L4Set, pkt: Packet) {
    && Sound(em, lay, f, HasPorts(lay, want), pkt)
    && NoSucc(em.frag)
    && em.facts.portsReady.Some? && SubsetOf(em.facts.portsReady.value, want)
  }

  lemma {:induction false} PrologueElided(lay: Layout, f: Facts, want: L4Set, pkt: Packet)
    requires f.portsReady.Some? && SubsetOf(f.portsReady.value, want)
    ensures PrologueSound(Emitted([], f), lay, f, want, pkt)
  {
    SoundNothing(lay, f, pkt);
    forall x | FactsHold(lay, f, pkt, x) ensures Eval(HasPorts(lay, want), pkt) == True {
      PortsAtWider(lay, f.portsReady.value, want, pkt, x);
      PortsAtHasPorts(lay, want, pkt, x);
    }
    SoundReplace(Emitted([], f), lay, f, Known(true), HasPorts(lay, want), pkt);
  }

  lemma SubsetReflexive(s: L4Set)
    ensures SubsetOf(s, s)
  {
  }

  // Narrowing: X and the fragment test are in place from a wider prologue.

  lemma {:induction false} Narrowed4Runs(lay: Layout, f: Facts, want: L4Set, pkt: Packet, r: Regs)
    requires f.ethertype == Some(0x0800) && f.portsReady.Some? && FactsHold(lay, f, pkt, r.x)
    ensures var o, g := Run(L4Frag(NetAt(lay) + 9, want), pkt, 0, r), f.(ip4Proto := PinnedProto(f.ip4Proto, want), portsReady := Some(want));
            && Kind(o) == Eval(HasPorts(lay, want), pkt)
            && (Kind(o) == True ==> FactsHold(lay, g, pkt, o.r.x))
  {
    var at := NetAt(lay) + 9;
    L4Tests(at, want, pkt);
    assert Kind(Run(L4Frag(at, want), pkt, 0, r)) == Eval(ByteIn(at, want), pkt);
    HasPortsByVersion(lay, want, pkt);
    PortsAtByVersion(lay, f.portsReady.value, pkt, r.x);
    PortsAtByVersion(lay, want, pkt, r.x);
    if Eval(ByteIn(at, want), pkt) == True { PinnedHolds(f.ip4Proto, lay, 0x0800, 9, want, pkt); }
    RunKeepsX(L4Frag(at, want), pkt, 0, r);
  }

  lemma {:induction false} PrologueNarrowed4(lay: Layout, f: Facts, want: L4Set, pkt: Packet)
    requires f.ethertype == Some(0x0800) && f.portsReady.Some? && !SubsetOf(f.portsReady.value, want)
    ensures PrologueSound(EmitPortPrereqs(lay, f, want).value, lay, f, want, pkt)
  {
    var em := EmitPortPrereqs(lay, f, want).value;
    L4Tests(NetAt(lay) + 9, want, pkt);
    SubsetReflexive(want);
    forall r: Regs | FactsHold(lay, f, pkt, r.x)
      ensures Kind(Run(em.frag, pkt, 0, r)) == Eval(HasPorts(lay, want), pkt)
      ensures Kind(Run(em.frag, pkt, 0, r)) == True ==> FactsHold(lay, em.facts, pkt, Run(em.frag, pkt, 0, r).r.x)
    {
      Narrowed4Runs(lay, f, want, pkt, r);
    }
  }

  lemma {:induction false} Narrowed6Runs(lay: Layout, f: Facts, want: L4Set, pkt: Packet, r: Regs)
    requires f.ethertype == Some(0x86dd) && f.portsReady.Some? && FactsHold(lay, f, pkt, r.x)
    ensures var o, g := Run(L4Frag(NetAt(lay) + 6, want), pkt, 0, r), f.(ip6Next := PinnedProto(f.ip6Next, want), portsReady := Some(want));
            && Kind(o) == Eval(HasPorts(lay, want), pkt)
            && (Kind(o) == True ==> FactsHold(lay, g, pkt, o.r.x))
  {
    var at := NetAt(lay) + 6;
    L4Tests(at, want, pkt);
    assert Kind(Run(L4Frag(at, want), pkt, 0, r)) == Eval(ByteIn(at, want), pkt);
    HasPortsByVersion(lay, want, pkt);
    PortsAtByVersion(lay, f.portsReady.value, pkt, r.x);
    PortsAtByVersion(lay, want, pkt, r.x);
    if Eval(ByteIn(at, want), pkt) == True { PinnedHolds(f.ip6Next, lay, 0x86dd, 6, want, pkt); }
    RunKeepsX(L4Frag(at, want), pkt, 0, r);
  }

  lemma {:induction false} PrologueNarrowed6(lay: Layout, f: Facts, want: L4Set, pkt: Packet)
    requires f.ethertype == Some(0x86dd) && f.portsReady.Some? && !SubsetOf(f.portsReady.value, want)
    ensures PrologueSound(EmitPortPrereqs(lay, f, want).value, lay, f, want, pkt)
  {
    var em := EmitPortPrereqs(lay, f, want).value;
    L4Tests(NetAt(lay) + 6, want, pkt);
    SubsetReflexive(want);
    forall r: Regs | FactsHold(lay, f, pkt, r.x)
      ensures Kind(Run(em.frag, pkt, 0, r)) == Eval(HasPorts(lay, want), pkt)
      ensures Kind(Run(em.frag, pkt, 0, r)) == True ==> FactsHold(lay, em.facts, pkt, Run(em.frag, pkt, 0, r).r.x)
    {
      Narrowed6Runs(lay, f, want, pkt, r);
    }
  }

  /** The protocol test of a single-version prologue, or nothing when the
      protocol is already pinned to a wanted one. */
  lemma {:induction false} ProtocolTests(known: Option<u8>, at: nat, want: L4Set, pkt: Packet)
    requires known.Some? ==> Eval(FieldIs(SizeB, at, known.value), pkt) == True
    ensures Tests(ProtocolFrag(known, at, want), ByteIn(at, want), pkt, None)
    ensures NoSucc(ProtocolFrag(known, at, want))
    ensures SubsetOf(Established(known, want), want)
    ensures Eval(ByteIn(at, want), pkt) == True ==> Eval(ByteIn(at, Established(known, want)), pkt) == True
  {
    SubsetReflexive(want);
    L4Tests(at, want, pkt);
    if known.Some? && Contains(want, known.value) {
      ByteInWider(at, One(known.value), want, pkt);
      TestsNothing(pkt, None);
    }
  }

  /** Recording a protocol that the established set pins is right. */
  lemma PinnedHolds(known: Option<u8>, lay: Layout, et: u32, off: nat, s: L4Set, pkt: Packet)
    requires et != 0x8100 && Eval(EthIs(lay, et), pkt) == True
    requires known.Some? ==> ByteKnown(lay, et, off, known.value, pkt)
    requires Eval(ByteIn(NetAt(lay) + off, s), pkt) == True
    ensures var n := PinnedProto(known, s); n.Some? ==> ByteKnown(lay, et, off, n.value, pkt)
  {
    if known.None? && s.One? { ByteRecorded(lay, et, off, s.n, pkt); }
  }

  lemma {:induction false} Full4Runs(lay: Layout, f: Facts, want: L4Set, pkt: Packet, r: Regs)
    requires OffsetsFit(lay) && f.ethertype == Some(0x0800) && FactsHold(lay, f, pkt, r.x)
    ensures var at, s := NetAt(lay) + 9, Established(f.ip4Proto, want);
            var o, g := Run(ProtocolFrag(f.ip4Proto, at, want) + FragmentFrag(lay) + LoadX4(lay), pkt, 0, r), f.(ip4Proto := PinnedProto(f.ip4Proto, s), portsReady := Some(s));
            && Kind(o) == Eval(HasPorts(lay, want), pkt)
            && (Kind(o) == True ==> FactsHold(lay, g, pkt, o.r.x))
  {
    var at, s := NetAt(lay) + 9, Established(f.ip4Proto, want);
    ProtocolTests(f.ip4Proto, at, want, pkt);
    IPv4PathRuns(lay, ProtocolFrag(f.ip4Proto, at, want), ByteIn(at, want), pkt, r);
    HasPortsByVersion(lay, want, pkt);
    var o := Run(ProtocolFrag(f.ip4Proto, at, want) + FragmentFrag(lay) + LoadX4(lay), pkt, 0, r);
    if Kind(o) == True {
      PinnedHolds(f.ip4Proto, lay, 0x0800, 9, s, pkt);
      PortsAtByVersion(lay, s, pkt, o.r.x);
    }
  }

  lemma {:induction false} PrologueFull4(lay: Layout, f: Facts, want: L4Set, pkt: Packet)
    requires OffsetsFit(lay) && f.ethertype == Some(0x0800) && f.portsReady.None?
    ensures PrologueSound(EmitPortPrereqs(lay, f, want).value, lay, f, want, pkt)
  {
    var em := EmitPortPrereqs(lay, f, want).value;
    Full4Form(lay, f.ip4Proto, want);
    forall r: Regs | FactsHold(lay, f, pkt, r.x)
      ensures Kind(Run(em.frag, pkt, 0, r)) == Eval(HasPorts(lay, want), pkt)
      ensures Kind(Run(em.frag, pkt, 0, r)) == True ==> FactsHold(lay, em.facts, pkt, Run(em.frag, pkt, 0, r).r.x)
    {
      Full4Runs(lay, f, want, pkt, r);
    }
  }

  /** Shape only: no packet is involved. */
  lemma Full4Form(lay: Layout, known: Option<u8>, want: L4Set)
    ensures var f := ProtocolFrag(known, NetAt(lay) + 9, want) + FragmentFrag(lay) + LoadX4(lay);
            WellFormed(f) && NoSucc(f)
    ensures SubsetOf(Established(known, want), want)
  {
    SubsetReflexive(want);
  }

  lemma Full6Form(lay: Layout, known: Option<u8>, want: L4Set)
    ensures var f := ProtocolFrag(known, NetAt(lay) + 6, want) + LoadX6();
            WellFormed(f) && NoSucc(f)
    ensures SubsetOf(Established(known, want), want)
  {
    SubsetReflexive(want);
  }

  lemma {:induction false} Full6Runs(lay: Layout, f: Facts, want: L4Set, pkt: Packet, r: Regs)
    requires f.ethertype == Some(0x86dd) && FactsHold(lay, f, pkt, r.x)
    ensures var at, s := NetAt(lay) + 6, Established(f.ip6Next, want);
            var o, g := Run(ProtocolFrag(f.ip6Next, at, want) + LoadX6(), pkt, 0, r), f.(ip6Next := PinnedProto(f.ip6Next, s), portsReady := Some(s));
            && Kind(o) == Eval(HasPorts(lay, want), pkt)
            && (Kind(o) == True ==> FactsHold(lay, g, pkt, o.r.x))
  {
    var at, s := NetAt(lay) + 6, Established(f.ip6Next, want);
    ProtocolTests(f.ip6Next, at, want, pkt);
    IPv6PathRuns(ProtocolFrag(f.ip6Next, at, want), ByteIn(at, want), pkt, r);
    HasPortsByVersion(lay, want, pkt);
    var o := Run(ProtocolFrag(f.ip6Next, at, want) + LoadX6(), pkt, 0, r);
    if Kind(o) == True {
      PinnedHolds(f.ip6Next, lay, 0x86dd, 6, s, pkt);
      PortsAtByVersion(lay, s, pkt, o.r.x);
    }
  }

  lemma {:induction false} PrologueFull6(lay: Layout, f: Facts, want: L4Set, pkt: Packet)
    requires f.ethertype == Some(0x86dd) && f.portsReady.None?
    ensures PrologueSound(EmitPortPrereqs(lay, f, want).value, lay, f, want, pkt)
  {
    var em := EmitPortPrereqs(lay, f, want).value;
    Full6Form(lay, f.ip6Next, want);
    forall r: Regs | FactsHold(lay, f, pkt, r.x)
      ensures Kind(Run(em.frag, pkt, 0, r)) == Eval(HasPorts(lay, want), pkt)
      ensures Kind(Run(em.frag, pkt, 0, r)) == True ==> FactsHold(lay, em.facts, pkt, Run(em.frag, pkt, 0, r).r.x)
    {
      Full6Runs(lay, f, want, pkt, r);
    }
  }

  lemma {:induction false} PrologueDual(lay: Layout, f: Facts, want: L4Set, pkt: Packet)
    requires OffsetsFit(lay) && EthAt(lay).Some?
    ensures var em := Emitted(DualFrag(lay, EthAt(lay).value, want), f.(portsReady := Some(want)));
            PrologueSound(em, lay, f, want, pkt)
  {
    var eth := EthAt(lay).value;
    var em := Emitted(DualFrag(lay, eth, want), f.(portsReady := Some(want)));
    SubsetReflexive(want);
    Full4Form(lay, None, want);
    Full6Form(lay, None, want);
    ByVersionForm(Off(eth), V4Frag(lay, want), V6Frag(lay, want));
    forall r: Regs | FactsHold(lay, f, pkt, r.x)
      ensures Kind(Run(em.frag, pkt, 0, r)) == Eval(HasPorts(lay, want), pkt)
      ensures Kind(Run(em.frag, pkt, 0, r)) == True ==> FactsHold(lay, em.facts, pkt, Run(em.frag, pkt, 0, r).r.x)
    {
      DualDecides(lay, eth, want, pkt, r);
    }
  }

  lemma EthertypeValue(lay: Layout, eth: nat, et: u32, pkt: Packet)
    requires EthAt(lay) == Some(eth)
    ensures Eval(EthIs(lay, et), pkt) ==
            var v := SizedLoad(pkt, Off(eth), SizeH); if v.None? then Abort else FromBool(v.value == et)
  {
  }

  lemma NoIpNoPorts(lay: Layout, s: L4Set, pkt: Packet)
    requires Eval(EthIs(lay, 0x0800), pkt) == Eval(EthIs(lay, 0x86dd), pkt) != True
    ensures Eval(HasPorts(lay, s), pkt) == Eval(EthIs(lay, 0x0800), pkt)
  {
    Ports4Parts(lay, s, pkt);
    Ports6Parts(lay, s, pkt);
    assert Eval(HasPorts(lay, s), pkt) == Or3(Eval(Ports6(lay, s), pkt), Eval(Ports4(lay, s), pkt));
  }

  lemma {:induction false} DualPath4(lay: Layout, want: L4Set, pkt: Packet, r: Regs)
    requires OffsetsFit(lay) && Eval(EthIs(lay, 0x0800), pkt) == True
    ensures var o := Run(V4Frag(lay, want), pkt, 0, r);
            && Kind(o) == Eval(HasPorts(lay, want), pkt)
            && (Kind(o) == True ==> PortsAt(lay, want, pkt, o.r.x))
  {
    var at := NetAt(lay) + 9;
    L4Tests(at, want, pkt);
    IPv4PathRuns(lay, L4Frag(at, want), ByteIn(at, want), pkt, r);
    var o := Run(V4Frag(lay, want), pkt, 0, r);
    assert V4Frag(lay, want) == L4Frag(at, want) + FragmentFrag(lay) + LoadX4(lay);
    HasPortsByVersion(lay, want, pkt);
    if Kind(o) == True { PortsAtByVersion(lay, want, pkt, o.r.x); }
  }

  lemma {:induction false} DualPath6(lay: Layout, want: L4Set, pkt: Packet, r: Regs)
    requires Eval(EthIs(lay, 0x86dd), pkt) == True
    ensures var o := Run(V6Frag(lay, want), pkt, 0, r);
            && Kind(o) == Eval(HasPorts(lay, want), pkt)
            && (Kind(o) == True ==> PortsAt(lay, want, pkt, o.r.x))
  {
    var at := NetAt(lay) + 6;
    L4Tests(at, want, pkt);
    IPv6PathRuns(L4Frag(at, want), ByteIn(at, want), pkt, r);
    HasPortsByVersion(lay, want, pkt);
    var o := Run(V6Frag(lay, want), pkt, 0, r);
    if Kind(o) == True { PortsAtByVersion(lay, want, pkt, o.r.x); }
  }

  lemma {:induction false} DualDecides(lay: Layout, eth: nat, want: L4Set, pkt: Packet, r: Regs)
    requires OffsetsFit(lay) && EthAt(lay) == Some(eth)
    ensures var o := Run(DualFrag(lay, eth, want), pkt, 0, r);
            && Kind(o) == Eval(HasPorts(lay, want), pkt)
            && (Kind(o) == True ==> PortsAt(lay, want, pkt, o.r.x))
  {
    Full4Form(lay, None, want);
    Full6Form(lay, None, want);
    ByVersionRuns(Off(eth), V4Frag(lay, want), V6Frag(lay, want), pkt, r);
    EthertypeValue(lay, eth, 0x0800, pkt);
    EthertypeValue(lay, eth, 0x86dd, pkt);
    var et := SizedLoad(pkt, Off(eth), SizeH);
    if et.None? || (et.value != 0x0800 && et.value != 0x86dd) {
      NoIpNoPorts(lay, want, pkt);
    } else if et.value == 0x86dd {
      DualPath6(lay, want, pkt, r.(a := et.value));
    } else {
      DualPath4(lay, want, pkt, r.(a := et.value));
    }
  }

  lemma {:induction false} PortPrereqsSound(lay: Layout, f: Facts, want: L4Set, pkt: Packet)
    requires OffsetsFit(lay) && EmitPortPrereqs(lay, f, want).Ok?
    ensures PrologueSound(EmitPortPrereqs(lay, f, want).value, lay, f, want, pkt)
  {
    if f.portsReady.Some? && SubsetOf(f.portsReady.value, want) {
      PrologueElided(lay, f, want, pkt);
    } else if f.ethertype == Some(0x0800) {
      if f.portsReady.Some? { PrologueNarrowed4(lay, f, want, pkt); } else { PrologueFull4(lay, f, want, pkt); }
    } else if f.ethertype == Some(0x86dd) {
      if f.portsReady.Some? { PrologueNarrowed6(lay, f, want, pkt); } else { PrologueFull6(lay, f, want, pkt); }
    } else {
      PrologueDual(lay, f, want, pkt);
    }
  }

  // ----- port tests -----

  /** X is where the ports of this IP version start, relative to the header. */
  predicate XFor(lay: Layout, v6: bool, pkt: Packet, x: u32) {
    if v6 then x == 40 else Read(HeaderLength(lay), pkt) == Some(x)
  }

  lemma PortLoadRuns(lay: Layout, isDst: bool, v6: bool, g: Frag, pkt: Packet, r: Regs)
    requires XFor(lay, v6, pkt, r.x)
    ensures Run([PortLoad(lay, isDst)] + g, pkt, 0, r) ==
            var v := Read(PortField(lay, v6, isDst), pkt); if v.None? then Crashed else Run(g, pkt, 0, r.(a := v.value))
  {
    var code := [PortLoad(lay, isDst).i];
    assert [PortLoad(lay, isDst)] == Plains(code);
    RunPlains(code, g, pkt, r);
    assert code[1..] == [];
  }

  lemma {:induction false} PortEqTests(lay: Layout, isDst: bool, port: u16, v6: bool, pkt: Packet, x: u32)
    requires XFor(lay, v6, pkt, x)
    ensures Tests(PortEqFrag(lay, isDst, port), PortIs(PortField(lay, v6, isDst), port), pkt, Some(x))
    ensures NoSucc(PortEqFrag(lay, isDst, port))
  {
    var f, b := PortEqFrag(lay, isDst, port), CmpBranch(Eq, port);
    assert f == [PortLoad(lay, isDst)] + [b];
    XWritesOne(f[0]);
    XWritesOne(b);
    XWritesAppend([f[0]], [b]);
    forall r: Regs | x == r.x ensures Kind(Run(f, pkt, 0, r)) == Eval(PortIs(PortField(lay, v6, isDst), port), pkt) {
      PortLoadRuns(lay, isDst, v6, [b], pkt, r);
      var v := Read(PortField(lay, v6, isDst), pkt);
      if v.Some? { CmpBranchRuns(Eq, port, pkt, r.(a := v.value)); }
    }
  }

  lemma RangeBranches(lo: u16, hi: u16, pkt: Packet, r: Regs)
    ensures Run([CmpBranch(Ge, lo), CmpBranch(Le, hi)], pkt, 0, r) == if lo <= r.a <= hi then Fell(r) else Failed(r)
  {
    var a, b := [CmpBranch(Ge, lo)], [CmpBranch(Le, hi)];
    assert [CmpBranch(Ge, lo), CmpBranch(Le, hi)] == a + b;
    RunAppend(a, b, pkt, r);
    CmpBranchRuns(Ge, lo, pkt, r);
    CmpBranchRuns(Le, hi, pkt, r);
  }

  lemma {:induction false} PortRangeTests(lay: Layout, isDst: bool, lo: u16, hi: u16, v6: bool, pkt: Packet, x: u32)
    requires XFor(lay, v6, pkt, x)
    ensures Tests(PortRangeFrag(lay, isDst, lo, hi), PortIn(PortField(lay, v6, isDst), lo, hi), pkt, Some(x))
    ensures NoSucc(PortRangeFrag(lay, isDst, lo, hi))
  {
    var f := PortRangeFrag(lay, isDst, lo, hi);
    var g := [CmpBranch(Ge, lo), CmpBranch(Le, hi)];
    assert f == [PortLoad(lay, isDst)] + g && g == [g[0]] + [g[1]];
    XWritesOne(f[0]);
    XWritesOne(g[0]);
    XWritesOne(g[1]);
    XWritesAppend([f[0]], g);
    XWritesAppend([g[0]], [g[1]]);
    forall r: Regs | x == r.x
      ensures Kind(Run(f, pkt, 0, r)) == Eval(PortIn(PortField(lay, v6, isDst), lo, hi), pkt)
    {
      PortLoadRuns(lay, isDst, v6, g, pkt, r);
      var v := Read(PortField(lay, v6, isDst), pkt);
      PortInValue(PortField(lay, v6, isDst), lo, hi, pkt);
      if v.Some? { RangeBranches(lo, hi, pkt, r.(a := v.value)); }
    }
  }

  lemma PortInValue(f: Field, lo: u16, hi: u16, pkt: Packet)
    ensures Eval(PortIn(f, lo, hi), pkt) ==
            var v := Read(f, pkt); if v.None? then Abort else FromBool(lo <= v.value <= hi)
  {
    var a, b := Compare(f, [], Ge, Literal(lo)), Compare(f, [], Le, Literal(hi));
    assert Eval(PortIn(f, lo, hi), pkt) == And3(Eval(a, pkt), Eval(b, pkt));
  }

  lemma {:induction false} PortFragTests(lay: Layout, dir: Dir, port: u16, v6: bool, pkt: Packet, x: u32)
    requires XFor(lay, v6, pkt, x)
    ensures Tests(PortFrag(lay, dir, port),
                  ByDir(dir, PortIs(PortField(lay, v6, false), port), PortIs(PortField(lay, v6, true), port)),
                  pkt, Some(x))
  {
    PortEqTests(lay, false, port, v6, pkt, x);
    PortEqTests(lay, true, port, v6, pkt, x);
    var s, d := PortIs(PortField(lay, v6, false), port), PortIs(PortField(lay, v6, true), port);
    TestsBoth(PortEqFrag(lay, false, port), s, PortEqFrag(lay, true, port), d, pkt, Some(x));
    var code := [PortLoad(lay, false).i];
    assert Plains(code) + [CmpBranch(Eq, port)] == PortEqFrag(lay, false, port);
    assert Plains(code) + [SuccessBranch(port)] == [PortLoad(lay, false), SuccessBranch(port)];
    EarlySuccessTests(code, port, s, PortEqFrag(lay, true, port), d, pkt, Some(x));
  }

  lemma {:induction false} RangeFragTests(lay: Layout, dir: Dir, lo: u16, hi: u16, v6: bool, pkt: Packet, x: u32)
    requires XFor(lay, v6, pkt, x)
    ensures Tests(RangeFrag(lay, dir, lo, hi),
                  ByDir(dir, PortIn(PortField(lay, v6, false), lo, hi), PortIn(PortField(lay, v6, true), lo, hi)),
                  pkt, Some(x))
  {
    PortRangeTests(lay, false, lo, hi, v6, pkt, x);
    PortRangeTests(lay, true, lo, hi, v6, pkt, x);
    var s, d := PortIn(PortField(lay, v6, false), lo, hi), PortIn(PortField(lay, v6, true), lo, hi);
    ByDirTests(dir, PortRangeFrag(lay, false, lo, hi), s, PortRangeFrag(lay, true, lo, hi), d, pkt, Some(x));
  }

  lemma {:induction false} ByDirTests(dir: Dir, f: Frag, s: Formula, g: Frag, d: Formula, pkt: Packet, x: Option<u32>)
    requires Tests(f, s, pkt, x) && Tests(g, d, pkt, x) && NoSucc(f)
    ensures Tests(match dir case Src => f case Dst => g case SrcAndDst => f + g case SrcOrDst => OrFrag(f, g),
                  ByDir(dir, s, d), pkt, x)
  {
    TestsBoth(f, s, g, d, pkt, x);
    TestsEither(f, s, g, d, pkt, x);
  }

  /** The test `OnPorts` reduces to, once X shows which version carries the ports. */
  lemma OnPortsAt(lay: Layout, s: L4Set, dir: Dir, t: Field -> Formula, pkt: Packet, x: u32) returns (v6: bool)
    requires PortsAt(lay, s, pkt, x)
    ensures XFor(lay, v6, pkt, x)
    ensures Eval(OnPorts(lay, s, dir, t), pkt) ==
            Eval(ByDir(dir, t(PortField(lay, v6, false)), t(PortField(lay, v6, true))), pkt)
  {
    Ports4Parts(lay, s, pkt);
    Ports6Parts(lay, s, pkt);
    EthertypesExclude(lay, pkt);
    OnPortsParts(lay, s, dir, t, pkt);
    v6 := !(Eval(Ports4(lay, s), pkt) == True && Read(HeaderLength(lay), pkt) == Some(x));
  }

  lemma OnPortsParts(lay: Layout, s: L4Set, dir: Dir, t: Field -> Formula, pkt: Packet)
    ensures Eval(OnPorts(lay, s, dir, t), pkt) ==
            Or3(And3(Eval(Ports6(lay, s), pkt),
                     Eval(ByDir(dir, t(PortField(lay, true, false)), t(PortField(lay, true, true))), pkt)),
                And3(Eval(Ports4(lay, s), pkt),
                     Eval(ByDir(dir, t(PortField(lay, false, false)), t(PortField(lay, false, true))), pkt)))
  {
    var six := Both(Ports6(lay, s), ByDir(dir, t(PortField(lay, true, false)), t(PortField(lay, true, true))));
    var four := Both(Ports4(lay, s), ByDir(dir, t(PortField(lay, false, false)), t(PortField(lay, false, true))));
    assert OnPorts(lay, s, dir, t) == Either(six, four);
    assert Eval(six, pkt) == And3(Eval(Ports6(lay, s), pkt), Eval(six.g, pkt));
    assert Eval(four, pkt) == And3(Eval(Ports4(lay, s), pkt), Eval(four.g, pkt));
  }

  /** Without ports (or with an unreadable header) the whole test ends there. */
  lemma NoPortsNoTest(lay: Layout, s: L4Set, dir: Dir, t: Field -> Formula, pkt: Packet)
    requires Eval(HasPorts(lay, s), pkt) != True
    ensures Eval(OnPorts(lay, s, dir, t), pkt) == Eval(HasPorts(lay, s), pkt)
  {
    OnPortsParts(lay, s, dir, t, pkt);
    assert Eval(HasPorts(lay, s), pkt) == Or3(Eval(Ports6(lay, s), pkt), Eval(Ports4(lay, s), pkt));
  }

  /** Port tests of one shape, for every X the prologue can leave. */
  ghost predicate PortCode(code: Frag, lay: Layout, dir: Dir, t: Field -> Formula, pkt: Packet) {
    forall v6: bool, x: u32 {:trigger XFor(lay, v6, pkt, x)} :: XFor(lay, v6, pkt, x) ==>
      Tests(code, ByDir(dir, t(PortField(lay, v6, false)), t(PortField(lay, v6, true))), pkt, Some(x))
  }

  lemma {:induction false} OnPortsSound(lay: Layout, f: Facts, proto: Option<Proto>, code: Frag, dir: Dir, t: Field -> Formula, pkt: Packet)
    requires OffsetsFit(lay) && EmitOnPorts(lay, f, proto, code).Ok?
    requires PortCode(code, lay, dir, t, pkt) && WellFormed(code)
    ensures Sound(EmitOnPorts(lay, f, proto, code).value, lay, f, OnPorts(lay, L4SetFor(proto).value, dir, t), pkt)
  {
    var s := L4SetFor(proto).value;
    var em := EmitPortPrereqs(lay, f, s).value;
    var em' := EmitOnPorts(lay, f, proto, code).value;
    PortPrereqsSound(lay, f, s, pkt);
    NoSuccAnd(em.frag, code);
    RunAnd(em.frag, code, pkt, INITIAL_REGS);
    forall r: Regs | FactsHold(lay, f, pkt, r.x)
      ensures Kind(Run(em'.frag, pkt, 0, r)) == Eval(OnPorts(lay, s, dir, t), pkt)
      ensures Kind(Run(em'.frag, pkt, 0, r)) == True ==> FactsHold(lay, em'.facts, pkt, Run(em'.frag, pkt, 0, r).r.x)
    {
      RunAnd(em.frag, code, pkt, r);
      var o := Run(em.frag, pkt, 0, r);
      if Kind(o) == True {
        PortsAtWider(lay, em.facts.portsReady.value, s, pkt, o.r.x);
        var v6 := OnPortsAt(lay, s, dir, t, pkt, o.r.x);
        assert Tests(code, ByDir(dir, t(PortField(lay, v6, false)), t(PortField(lay, v6, true))), pkt, Some(o.r.x));
        if Kind(Run(code, pkt, 0, o.r)) == True { PushKeepsFacts(lay, em.facts, code, pkt, o.r); }
      } else {
        NoPortsNoTest(lay, s, dir, t, pkt);
      }
    }
  }
}
