// The eBPF back end is safe and exact: no emitted program crashes on any
// packet, and its verdict is the plain boolean meaning of the expression.

module EbpfTheorem {
  import opened Words
  import opened Results
  import opened Bpf
  import opened Ast
  import opened Meaning
  import opened Lengths
  import opened EbpfVm
  import opened EbpfCode
  import opened EbpfEmit
  import opened EbpfProofs
  import opened EbpfPrims
  import Vm

  // ----- byte access -----

  /** Where the bounds check and the load of a byte access count from. */
  function AccessAt(lay: Layout, l: ByteLoad): nat { if l.layer.Net? then NetAt(lay) + l.offset else l.offset }

  /** How far into the packet the base of the load is at least. */
  function AccessBase(lay: Layout, l: ByteLoad): nat { if l.layer.Trans? then NetAt(lay) else 0 }

  /** Byte accesses whose load is safe. */
  predicate AccessSafe(lay: Layout, p: Primitive) {
    p.Access? ==> SafeLoad(AccessBase(lay, p.ba.lhs), AccessAt(lay, p.ba.lhs), p.ba.lhs.size)
  }

  /** A loaded value, arithmetic on it, and a comparison. */
  lemma {:induction false} ValueTest(env: Env, code: Frag, n: Need, v: Option<u32>, ops: Ops, op: CmpOp, k: u32)
    requires Loads(env, code, n, v) && OpsDefined(ops)
    ensures var w := ThenOps(v, ops);
            Decides(env, code + (OpsFrag(ops) + CmpFrag(op, k)), n, w.Some? && CompareAs(op, w.value, k, true), n)
  {
    OpsLoad(env, code, n, v, ops);
    CmpDecides(env, code + OpsFrag(ops), n, ThenOps(v, ops), op, k);
    assert code + (OpsFrag(ops) + CmpFrag(op, k)) == code + OpsFrag(ops) + CmpFrag(op, k);
  }

  /** What the compiled access formula says, given what its two fields read. */
  lemma AccessMeaning(f: Field, g: Field, v: Option<u32>, ops: Ops, op: CmpOp, k: u32, pkt: Packet)
    requires if v.Some? then Read(f, pkt).Some? && Read(g, pkt) == v else Read(f, pkt).None?
    ensures var w := ThenOps(v, ops);
            Holds(Both(ReadableWord(f), Compare(g, ops, op, Literal(k))), pkt, true) <==> w.Some? && CompareAs(op, w.value, k, true)
  {
    ReadableHolds(f, pkt);
  }

  lemma TransField(env: Env, net: nat, offset: nat, size: Size)
    requires Sensible(env) && net <= 100 && offset < 0x8000_0000
    ensures var t := Behind4(env, net);
            Read(Behind(Off(net), size, Off(net + offset)), env.pkt) ==
            if t.Some? then Vm.SizedLoad(env.pkt, t.value + offset, size) else None
  {
    assert Off(net) == net && Off(net + offset) == net + offset;
    if net < |env.pkt| {
      var hl := 4 * (env.pkt[net] % 16);
      assert Add32(hl, net + offset) == net + hl + offset;
    }
  }

  /** A transport field at packet offset `k` behind the header length. */
  lemma TransCut(env: Env, net: nat, k: nat, size: Size)
    requires Sensible(env) && net <= 100 && k < 0x1_0000
    ensures var t := Behind4(env, net);
            Read(Behind(Off(net), size, Position(k)), env.pkt) ==
            if t.Some? then Vm.SizedLoad(env.pkt, t.value - net + k, size) else None
  {
    assert Off(net) == net && Position(k) == k;
    if net < |env.pkt| {
      var hl := 4 * (env.pkt[net] % 16);
      assert Add32(hl, k) == hl + k;
    }
  }

  /** The written and the loaded transport field, as the code reads them. */
  lemma TransFields(env: Env, net: nat, l: ByteLoad)
    requires Sensible(env) && net <= 100 && SafeLoad(net, l.offset, l.size)
    ensures var t := Behind4(env, net);
            var v := TransValue(env, net, l);
            var f, g := Behind(Off(net), l.size, Off(net + l.offset)), Behind(Off(net), l.size, Position(net + AsI16(l.offset)));
            if v.Some? then Read(f, env.pkt).Some? && Read(g, env.pkt) == v else Read(f, env.pkt).None?
  {
    CutOffset(l.offset);
    TransField(env, net, l.offset, l.size);
    TransCut(env, net, net + AsI16(l.offset), l.size);
  }

  function TransValue(env: Env, net: nat, l: ByteLoad): Option<u32>
    requires Sensible(env) && net + AsI16(l.offset) >= 0
  {
    var t := Behind4(env, net);
    if t.Some? then LoadedAt(env.pkt, t.value, l.offset, l.size) else None
  }

  lemma {:induction false} TransDecides(env: Env, net: nat, l: ByteLoad, ops: Ops, op: CmpOp, k: u32)
    requires Sensible(env) && net <= 100 && SafeLoad(net, l.offset, l.size) && OpsDefined(ops)
    ensures var f, g := Behind(Off(net), l.size, Off(net + l.offset)), Behind(Off(net), l.size, Position(net + AsI16(l.offset)));
            Decides(env, Pointer4(net, l.offset + Bytes(l.size)) + (LoadFrag(R6, l.size, l.offset) + (OpsFrag(ops) + CmpFrag(op, k))),
                    Any, Holds(Both(ReadableWord(f), Compare(g, ops, op, Literal(k))), env.pkt, true), Any)
  {
    var f, g := Behind(Off(net), l.size, Off(net + l.offset)), Behind(Off(net), l.size, Position(net + AsI16(l.offset)));
    TransFields(env, net, l);
    AccessMeaning(f, g, TransValue(env, net, l), ops, op, k, env.pkt);
    TransRuns(env, net, l, ops, op, k);
  }

  lemma {:induction false} TransRuns(env: Env, net: nat, l: ByteLoad, ops: Ops, op: CmpOp, k: u32)
    requires Sensible(env) && net <= 100 && SafeLoad(net, l.offset, l.size) && OpsDefined(ops)
    ensures var w := ThenOps(TransValue(env, net, l), ops);
            Decides(env, Pointer4(net, l.offset + Bytes(l.size)) + (LoadFrag(R6, l.size, l.offset) + (OpsFrag(ops) + CmpFrag(op, k))),
                    Any, w.Some? && CompareAs(op, w.value, k, true), Any)
  {
    var end, t := l.offset + Bytes(l.size), Behind4(env, net);
    var code := LoadFrag(R6, l.size, l.offset) + (OpsFrag(ops) + CmpFrag(op, k));
    var ok, w := t.Some? && t.value + end <= |env.pkt|, ThenOps(TransValue(env, net, l), ops);
    Pointer4Decides(env, net, end);
    if ok {
      SixLoads(env, t.value, l.size, l.offset);
      ValueTest(env, LoadFrag(R6, l.size, l.offset), Six4(env, net), TransValue(env, net, l), ops, op, k);
      Forgets(env, code, Six4(env, net), w.Some? && CompareAs(op, w.value, k, true));
    }
    TestForm(LoadFrag(R6, l.size, l.offset), ops, op, k);
    ThenDecides(env, Pointer4(net, end), code, Any, ok, Six4(env, net), w.Some? && CompareAs(op, w.value, k, true), Any);
  }

  lemma TestForm(load: Frag, ops: Ops, op: CmpOp, k: u32)
    requires WellFormed(load)
    ensures WellFormed(load + (OpsFrag(ops) + CmpFrag(op, k)))
  {
    assert WellFormed(OpsFrag(ops)) && WellFormed(CmpFrag(op, k));
    var env := Env([], 0, true);
    RunAppend(OpsFrag(ops), CmpFrag(op, k), env, NO_REGS);
    RunAppend(load, OpsFrag(ops) + CmpFrag(op, k), env, NO_REGS);
  }

  lemma {:induction false} AbsDecides(env: Env, at: nat, size: Size, ops: Ops, op: CmpOp, k: u32)
    requires Sensible(env) && SafeLoad(0, at, size) && OpsDefined(ops)
    ensures Decides(env, AbsLoad(size, at) + (OpsFrag(ops) + CmpFrag(op, k)), Any,
                    Holds(Both(ReadableWord(Abs(size, Off(at))), Compare(Abs(size, Position(AsI16(at))), ops, op, Literal(k))), env.pkt, true), Any)
  {
    var v := LoadedAt(env.pkt, 0, at, size);
    CutOffset(at);
    FarLoads(env, size, at, Any);
    ValueTest(env, AbsLoad(size, at), Any, v, ops, op, k);
    assert Off(at) == at;
    AccessMeaning(Abs(size, Off(at)), Abs(size, Position(AsI16(at))), v, ops, op, k, env.pkt);
  }

  lemma {:induction false} AccessFragDecides(env: Env, lay: Layout, l: ByteLoad, ops: Ops, op: CmpOp, k: u32)
    requires Sensible(env) && lay.depth == 0 && SafeLoad(AccessBase(lay, l), AccessAt(lay, l), l.size) && OpsDefined(ops)
    ensures Decides(env, AccessFrag(NetAt(lay), l, OpsFrag(ops) + CmpFrag(op, k)), Any,
                    Holds(Both(ReadableWord(LayerField(lay, l)), Compare(LoadedField(lay, l), ops, op, Literal(k))), env.pkt, true), Any)
  {
    match l.layer
    case Raw =>
      assert Off(l.offset) == l.offset;
      AbsDecides(env, l.offset, l.size, ops, op, k);
    case Net => AbsDecides(env, NetAt(lay) + l.offset, l.size, ops, op, k);
    case Trans => TransDecides(env, NetAt(lay), l, ops, op, k);
  }

  lemma {:induction false} AccessDecides(env: Env, lay: Layout, ba: ByteAccess)
    requires Sensible(env) && lay.depth == 0 && AccessSafe(lay, Access(ba)) && EmitAccess(lay, ba).Ok?
    ensures Decides(env, EmitAccess(lay, ba).value, Any, Holds(AccessCompiled(lay, ba), env.pkt, true), Any)
  {
    AluOpsDefined(ba.ops);
    AccessFragDecides(env, lay, ba.lhs, AluOps(ba.ops).value, ba.op, ba.rhs.value);
  }

  // ----- the other primitives -----

  lemma {:induction false} MplsDecides(env: Env, lay: Layout, lbl: Option<u32>)
    requires Sensible(env) && lay.depth == 0 && EthAt(lay).Some?
    ensures Decides(env, MplsFrag(EthAt(lay).value, lbl), Any, Holds(MplsAsDocumented(lay, lbl), env.pkt, true), Any)
  {
    var eth := EthAt(lay).value;
    var first, v := AbsLoad(SizeH, eth) + OneOf(0x8847, 0x8848), TypeOf(env, eth);
    var a := v == Some(0x8847) || v == Some(0x8848);
    AbsLoads(env, SizeH, eth, Any);
    OneOfDecides(env, AbsLoad(SizeH, eth), Any, v, 0x8847, 0x8848);
    MplsTypes(env, lay);
    if lbl.None? {
      assert MplsFrag(eth, lbl) == first;
    } else {
      var c := Check(SizeW, Off(eth + 2), [(Bpf.Rsh, 12)], Eq, lbl.value);
      assert LabelIs(lay, lbl) == CheckFormula(c);
      CheckDecides(env, c, Any);
      ThenDecides(env, first, CheckFrag(c), Any, a, Any, Holds(CheckFormula(c), env.pkt, true), Any);
    }
  }

  lemma MplsTypes(env: Env, lay: Layout)
    requires EthAt(lay).Some?
    ensures var v := TypeOf(env, EthAt(lay).value);
            Holds(Either(EthIs(lay, 0x8847), EthIs(lay, 0x8848)), env.pkt, true) <==> v == Some(0x8847) || v == Some(0x8848)
  {
    var f := Abs(SizeH, Off(EthAt(lay).value));
    ReadCompares(f, Eq, 0x8847, env.pkt);
    ReadCompares(f, Eq, 0x8848, env.pkt);
  }

  lemma LengthOf(env: Env)
    requires Sensible(env)
    ensures Add64(End(env), -(env.data as int)) == |env.pkt| && Read(Length, env.pkt) == Some(|env.pkt|)
  {
  }

  lemma {:induction false} LenLoads(env: Env)
    requires Sensible(env)
    ensures Loads(env, [Plain(Mov(R4, R3)), Plain(SubReg(R4, R2))], Any, Read(Length, env.pkt))
  {
    var i, j := Mov(R4, R3), SubReg(R4, R2);
    var code := [Plain(i), Plain(j)];
    LengthOf(env);
    assert WellFormed(code) && code == [Plain(i)] + ([Plain(j)] + []);
    forall r: Regs | Meets(env, Any, r) ensures LoadsWell(Run(code, env, 0, r), env, Any, Read(Length, env.pkt)) {
      RunPlain(i, [Plain(j)] + [], env, r);
      RunPlain(j, [], env, r.(r4 := Some(End(env))));
      RunNothing(env, r.(r4 := Some(|env.pkt|)));
    }
  }

  lemma {:induction false} LenDecides(env: Env, op: CmpOp, k: u32)
    requires Sensible(env)
    ensures Decides(env, [Plain(Mov(R4, R3)), Plain(SubReg(R4, R2))] + CmpFrag(op, k), Any,
                    Holds(Compare(Length, [], op, Literal(k)), env.pkt, true), Any)
  {
    LenLoads(env);
    ReadCompares(Length, op, k, env.pkt);
    CmpDecides(env, [Plain(Mov(R4, R3)), Plain(SubReg(R4, R2))], Any, Read(Length, env.pkt), op, k);
  }

  lemma {:induction false} DualDecides(env: Env, lay: Layout, n: u8)
    requires Sensible(env) && lay.depth == 0
    ensures EmitDual(lay, n).Ok?
    ensures Decides(env, EmitDual(lay, n).value, Any, Holds(EitherVersion(lay, n), env.pkt, true), Any)
  {
    var net, eth := NetAt(lay), EthAt(lay);
    var c6, c4 := EqCheck(SizeB, net + 6, n), EqCheck(SizeB, net + 9, n);
    var b6, b4 := Holds(CheckFormula(c6), env.pkt, true), Holds(CheckFormula(c4), env.pkt, true);
    SmallCheck(SizeB, net + 6, n);
    SmallCheck(SizeB, net + 9, n);
    CheckDecides(env, c6, Any);
    CheckDecides(env, c4, Any);
    TypeTests(env, lay);
    DualParts(lay, n, env.pkt);
    if eth.None? {
      GuardedDecides(env, lay, 0x0800, CheckFrag(c4), CheckFormula(c4));
    } else {
      ByVersionDecides(env, eth.value, CheckFrag(c6), b6, CheckFrag(c4), b4, Any);
    }
  }

  lemma DualParts(lay: Layout, n: u8, pkt: Packet)
    ensures Holds(EitherVersion(lay, n), pkt, true) ==
            ((Holds(EthIs(lay, 0x86dd), pkt, true) && Holds(CheckFormula(EqCheck(SizeB, NetAt(lay) + 6, n)), pkt, true))
             || (Holds(EthIs(lay, 0x0800), pkt, true) && Holds(CheckFormula(EqCheck(SizeB, NetAt(lay) + 9, n)), pkt, true)))
  {
    assert Holds(Ip6NextIs(lay, n), pkt, true) ==
           (Holds(EthIs(lay, 0x86dd), pkt, true) && Holds(CheckFormula(EqCheck(SizeB, NetAt(lay) + 6, n)), pkt, true));
    assert Holds(Ip4ProtoIs(lay, n), pkt, true) ==
           (Holds(EthIs(lay, 0x0800), pkt, true) && Holds(CheckFormula(EqCheck(SizeB, NetAt(lay) + 9, n)), pkt, true));
  }

  /** What a primitive's compile must achieve. */
  ghost predicate Right(env: Env, code: Result<Frag>, f: Formula) {
    code.Ok? ==> Decides(env, code.value, Any, Holds(f, env.pkt, true), Any)
  }

  lemma RightSame(env: Env, c: Result<Frag>, f: Formula, c': Result<Frag>, f': Formula)
    requires Right(env, c, f) && c == c' && f == f'
    ensures Right(env, c', f')
  {
  }

  lemma {:induction false} L4Right(env: Env, lay: Layout, n: u8)
    requires Sensible(env) && lay.depth == 0
    ensures Right(env, EmitIp4(lay, n), Ip4ProtoIs(lay, n))
    ensures Right(env, EmitIp6(lay, n), Ip6NextIs(lay, n))
  {
    var c4, c6 := EqCheck(SizeB, NetAt(lay) + 9, n), EqCheck(SizeB, NetAt(lay) + 6, n);
    SmallCheck(SizeB, NetAt(lay) + 9, n);
    SmallCheck(SizeB, NetAt(lay) + 6, n);
    CheckDecides(env, c4, Any);
    CheckDecides(env, c6, Any);
    if EmitIp4(lay, n).Ok? { GuardedDecides(env, lay, 0x0800, CheckFrag(c4), CheckFormula(c4)); }
    if EmitIp6(lay, n).Ok? { GuardedDecides(env, lay, 0x86dd, CheckFrag(c6), CheckFormula(c6)); }
  }

  lemma {:induction false} EthRight(env: Env, lay: Layout, et: u32)
    requires Sensible(env) && lay.depth == 0
    ensures Right(env, EthFrag(lay, et), EthIs(lay, et))
  {
    if EthFrag(lay, et).Ok? { EthDecides(env, lay, et); }
  }

  lemma {:induction false} ProtoRight(env: Env, lay: Layout, p: Proto)
    requires Sensible(env) && lay.depth == 0
    ensures Right(env, EmitProto(lay, p), ProtoTest(lay, p))
  {
    match p
    case Ip => EthRight(env, lay, 0x0800);
    case Ip6 => EthRight(env, lay, 0x86dd);
    case Arp => EthRight(env, lay, 0x0806);
    case Rarp => EthRight(env, lay, 0x8035);
    case Tcp => DualDecides(env, lay, 6);
    case Udp => DualDecides(env, lay, 17);
    case Sctp => DualDecides(env, lay, 132);
    case Icmp => L4Right(env, lay, 1);
    case Igmp => L4Right(env, lay, 2);
    case Icmp6 => L4Right(env, lay, 58);
    case Num(n) => L4Right(env, lay, n);
    case Ip6Proto(n) => L4Right(env, lay, n);
  }

  // ----- addresses and frame types -----

  lemma ConsReachable(c: Check, cs: seq<Check>)
    requires EbpfProofs.Reachable(c) && AllReachable(cs)
    ensures AllReachable([c] + cs)
  {
  }

  lemma GroupReachable(at: nat, ops: Ops, v: u32)
    requires at <= 200 && OpsDefined(ops)
    ensures EbpfProofs.Reachable(Check(SizeH, Off(at), ops, Eq, v))
  {
  }

  lemma {:induction false} GroupsReachable(a: Ip6Addr, at: nat, i: nat)
    requires i <= 8 && at <= 100
    ensures AllReachable(Groups(a, at, i))
    decreases 8 - i
  {
    if i < 8 {
      GroupsReachable(a, at, i + 1);
      GroupReachable(at + i * 2, [], a[i]);
      ConsReachable(EqCheck(SizeH, at + i * 2, a[i]), Groups(a, at, i + 1));
    }
  }

  lemma {:induction false} PrefixGroupsReachable(a: Ip6Addr, n: u8, at: nat, i: nat)
    requires i <= 8 && at <= 100
    ensures AllReachable(PrefixGroups(a, n, at, i))
    decreases 8 - i
  {
    if i < 8 && i * 16 < n {
      PrefixGroupsReachable(a, n, at, i + 1);
      var rest := PrefixGroups(a, n, at, i + 1);
      if i * 16 + 16 <= n {
        GroupReachable(at + i * 2, [], a[i]);
        ConsReachable(EqCheck(SizeH, at + i * 2, a[i]), rest);
      } else {
        var mask := GroupMask(n - i * 16);
        GroupReachable(at + i * 2, [(Bpf.And, mask)], BitAnd(a[i], mask));
        ConsReachable(Check(SizeH, Off(at + i * 2), [(Bpf.And, mask)], Eq, BitAnd(a[i], mask)), rest);
      }
    }
  }

  lemma {:induction false} DirectRight(env: Env, lay: Layout, dir: Dir, s: Check, d: Check)
    requires Sensible(env) && lay.depth == 0 && EbpfProofs.Reachable(s) && EbpfProofs.Reachable(d)
    requires s.op.Eq? && s.k + Bytes(s.size) <= d.k + Bytes(d.size)
    ensures Right(env, Guarded(lay, 0x0800, DirectFrag(dir, s, d)), Both(EthIs(lay, 0x0800), ByDir(dir, All([s]), All([d]))))
  {
    DirectDecides(env, dir, s, d);
    if Guarded(lay, 0x0800, DirectFrag(dir, s, d)).Ok? {
      GuardedDecides(env, lay, 0x0800, DirectFrag(dir, s, d), ByDir(dir, All([s]), All([d])));
    }
  }

  lemma {:induction false} ListRight(env: Env, lay: Layout, dir: Dir, s: seq<Check>, d: seq<Check>)
    requires Sensible(env) && lay.depth == 0 && AllReachable(s) && AllReachable(d)
    ensures Right(env, Guarded(lay, 0x86dd, ListFrag(dir, s, d)), Both(EthIs(lay, 0x86dd), ByDir(dir, All(s), All(d))))
  {
    ListDecides(env, dir, s, d);
    if Guarded(lay, 0x86dd, ListFrag(dir, s, d)).Ok? {
      GuardedDecides(env, lay, 0x86dd, ListFrag(dir, s, d), ByDir(dir, All(s), All(d)));
    }
  }

  lemma {:induction false} TypeWithRight(env: Env, lay: Layout, et: u32, cs: seq<Check>)
    requires Sensible(env) && lay.depth == 0 && AllReachable(cs)
    ensures Right(env, Guarded(lay, et, ChecksFrag(cs)), TypeWith(lay, et, cs))
  {
    ChecksDecide(env, cs);
    if Guarded(lay, et, ChecksFrag(cs)).Ok? { GuardedDecides(env, lay, et, ChecksFrag(cs), All(cs)); }
  }

  lemma {:induction false} Host4Right(env: Env, lay: Layout, a: u32, dir: Dir)
    requires Sensible(env) && lay.depth == 0
    ensures Right(env, EmitHost4(lay, a, dir), Host4Formula(lay, a, dir))
  {
    var net := NetAt(lay);
    SmallCheck(SizeW, net + 12, a);
    SmallCheck(SizeW, net + 16, a);
    DirectRight(env, lay, dir, EqCheck(SizeW, net + 12, a), EqCheck(SizeW, net + 16, a));
  }

  lemma MaskedReachable(at: nat, a: u32, mask: u32)
    requires at <= 200
    ensures var c := Masked(at, a, mask); EbpfProofs.Reachable(c) && c.op.Eq? && c.k == at && c.size == SizeW
  {
  }

  lemma {:induction false} NetworkRight(env: Env, lay: Layout, a: u32, mask: u32, dir: Dir)
    requires Sensible(env) && lay.depth == 0
    ensures Right(env, EmitNetwork(lay, a, mask, dir), NetworkFormula(lay, a, mask, dir))
  {
    var net := NetAt(lay);
    MaskedReachable(net + 12, a, mask);
    MaskedReachable(net + 16, a, mask);
    DirectRight(env, lay, dir, Masked(net + 12, a, mask), Masked(net + 16, a, mask));
  }

  lemma {:induction false} GroupsRight(env: Env, lay: Layout, a: Ip6Addr, net: nat, dir: Dir)
    requires Sensible(env) && lay.depth == 0 && net <= 50
    ensures var s, d := Groups(a, net + 8, 0), Groups(a, net + 24, 0);
            Right(env, Guarded(lay, 0x86dd, ListFrag(dir, s, d)), Both(EthIs(lay, 0x86dd), ByDir(dir, All(s), All(d))))
  {
    GroupsReachable(a, net + 8, 0);
    GroupsReachable(a, net + 24, 0);
    ListRight(env, lay, dir, Groups(a, net + 8, 0), Groups(a, net + 24, 0));
  }

  lemma {:induction false} PrefixGroupsRight(env: Env, lay: Layout, a: Ip6Addr, n: u8, net: nat, dir: Dir)
    requires Sensible(env) && lay.depth == 0 && net <= 50
    ensures var s, d := PrefixGroups(a, n, net + 8, 0), PrefixGroups(a, n, net + 24, 0);
            Right(env, Guarded(lay, 0x86dd, ListFrag(dir, s, d)), Both(EthIs(lay, 0x86dd), ByDir(dir, All(s), All(d))))
  {
    PrefixGroupsReachable(a, n, net + 8, 0);
    PrefixGroupsReachable(a, n, net + 24, 0);
    ListRight(env, lay, dir, PrefixGroups(a, n, net + 8, 0), PrefixGroups(a, n, net + 24, 0));
  }

  lemma {:induction false} Host6Right(env: Env, lay: Layout, a: Ip6Addr, dir: Dir)
    requires Sensible(env) && lay.depth == 0
    ensures Right(env, EmitHost6(lay, a, dir), Host6Formula(lay, a, dir))
  {
    GroupsRight(env, lay, a, NetAt(lay), dir);
  }

  lemma {:induction false} Network6Right(env: Env, lay: Layout, a: Ip6Addr, n: u8, dir: Dir)
    requires Sensible(env) && lay.depth == 0
    ensures Right(env, EmitNetwork6(lay, a, n, dir), Network6Formula(lay, a, n, dir))
  {
    PrefixGroupsRight(env, lay, a, n, NetAt(lay), dir);
  }

  lemma {:induction false} MacRight(env: Env, lay: Layout, mac: MacAddr, dir: Dir)
    requires Sensible(env) && lay.depth == 0
    ensures Right(env, EmitEtherHost(lay, mac, dir), EtherHostFormula(mac, dir))
  {
    var flip := match dir case Src => Dst case Dst => Src case d => d;
    assert AllReachable(Mac(mac, 0)) && AllReachable(Mac(mac, 6));
    ListDecides(env, flip, Mac(mac, 0), Mac(mac, 6));
    assert EtherHostFormula(mac, dir) == ByDir(flip, All(Mac(mac, 0)), All(Mac(mac, 6)));
  }

  lemma FrameChecks(lay: Layout, vid: Option<u16>)
    requires lay.depth == 0
    ensures AllReachable(BroadcastChecks(lay)) && AllReachable(MulticastChecks(lay)) && AllReachable(Multicast6Checks(lay))
    ensures AllReachable(VlanChecks(lay, vid)) && AllReachable(SessionChecks(lay, vid))
  {
  }

  // ----- ports -----

  lemma {:induction false} PortCodes(env: Env, dir: Dir, port: u16, lo: u16, hi: u16)
    requires Sensible(env)
    ensures PortCode(env, dir, f => PortIs(f, port), PortFrag(dir, port))
    ensures PortCode(env, dir, f => PortIn(f, lo, hi), RangeFrag(dir, lo, hi))
  {
    PortForms(dir, port, lo, hi);
    forall at: nat, s, d | PortsAre(env, at, s, d)
      ensures Decides(env, PortFrag(dir, port), Six(env.data + at), Holds(ByDir(dir, PortIs(s, port), PortIs(d, port)), env.pkt, true), Six(env.data + at))
      ensures Decides(env, RangeFrag(dir, lo, hi), Six(env.data + at), Holds(ByDir(dir, PortIn(s, lo, hi), PortIn(d, lo, hi)), env.pkt, true), Six(env.data + at))
    {
      PortDecides(env, at, s, d, dir, port);
      RangeDecides(env, at, s, d, dir, lo, hi);
    }
  }

  lemma PortForms(dir: Dir, port: u16, lo: u16, hi: u16)
    ensures WellFormed(PortFrag(dir, port)) && WellFormed(RangeFrag(dir, lo, hi))
  {
    // Any frame with ports will do.
    var env := Env(seq(4, _ => 0), 0, true);
    assert PortsAre(env, 0, Abs(SizeH, 0), Abs(SizeH, 2));
    PortDecides(env, 0, Abs(SizeH, 0), Abs(SizeH, 2), dir, port);
    RangeDecides(env, 0, Abs(SizeH, 0), Abs(SizeH, 2), dir, lo, hi);
  }

  lemma {:induction false} PortRight(env: Env, lay: Layout, port: u16, dir: Dir, proto: Option<Proto>)
    requires Sensible(env) && lay.depth == 0
    ensures Right(env, EmitOnPorts(lay, proto, PortFrag(dir, port)), PortTest(lay, port, dir, proto))
  {
    var s := L4SetFor(proto);
    PortCodes(env, dir, port, 0, 0);
    if s.Some? { OnPortsDecides(env, lay, s.value, dir, f => PortIs(f, port), PortFrag(dir, port)); }
  }

  lemma {:induction false} PortRangeRight(env: Env, lay: Layout, lo: u16, hi: u16, dir: Dir, proto: Option<Proto>)
    requires Sensible(env) && lay.depth == 0
    ensures Right(env, EmitOnPorts(lay, proto, RangeFrag(dir, lo, hi)), PortRangeTest(lay, lo, hi, dir, proto))
  {
    var s := L4SetFor(proto);
    PortCodes(env, dir, 0, lo, hi);
    if s.Some? { OnPortsDecides(env, lay, s.value, dir, f => PortIn(f, lo, hi), RangeFrag(dir, lo, hi)); }
  }

  // ----- every primitive, every expression -----

  lemma {:induction false} FieldRight(env: Env, lay: Layout, p: Primitive)
    requires Sensible(env) && lay.depth == 0
    requires p.EtherMulticast? || p.Mpls? || p.Len? || p.Inbound? || p.Outbound?
    ensures Right(env, EmitPrim(lay, p), PrimTest(lay, p))
  {
    match p
    case EtherMulticast => ChecksDecide(env, EtherMulticastChecks());
    case Mpls(lbl) => if EthAt(lay).Some? { MplsDecides(env, lay, lbl); }
    case Len(op, v) => LenDecides(env, op, v);
    case Inbound =>
    case Outbound =>
  }

  lemma {:induction false} AccessRight(env: Env, lay: Layout, ba: ByteAccess)
    requires Sensible(env) && lay.depth == 0 && AccessSafe(lay, Access(ba))
    ensures Right(env, EmitAccess(lay, ba), AccessCompiled(lay, ba))
  {
    if EmitAccess(lay, ba).Ok? { AccessDecides(env, lay, ba); }
  }

  lemma {:induction false} AddressRight(env: Env, lay: Layout, p: Primitive)
    requires Sensible(env) && lay.depth == 0 && (p.Host4? || p.Host6? || p.Network? || p.Network6? || p.EtherHost?)
    ensures Right(env, EmitPrim(lay, p), PrimTest(lay, p))
  {
    match p
    case Host4(a, dir) => Host4Right(env, lay, a, dir);
    case Network(a, mask, dir) => NetworkRight(env, lay, a, mask, dir);
    case Host6(a, dir) => Host6Right(env, lay, a, dir);
    case Network6(a, n, dir) => Network6Right(env, lay, a, n, dir);
    case EtherHost(mac, dir) => MacRight(env, lay, mac, dir);
  }

  lemma {:induction false} FrameRight(env: Env, lay: Layout, p: Primitive)
    requires Sensible(env) && lay.depth == 0
    requires p.IpBroadcast? || p.IpMulticast? || p.Ip6Multicast? || p.Vlan? || p.PppoeSession?
    ensures Right(env, EmitPrim(lay, p), PrimTest(lay, p))
  {
    var et, cs := FrameType(p), FrameList(lay, p);
    FrameChecks(lay, if p.Vlan? then p.id else if p.PppoeSession? then p.session else None);
    FrameIs(lay, p);
    TypeWithRight(env, lay, et, cs);
    RightSame(env, Guarded(lay, et, ChecksFrag(cs)), TypeWith(lay, et, cs), EmitPrim(lay, p), PrimTest(lay, p));
  }

  lemma FrameIs(lay: Layout, p: Primitive)
    requires p.IpBroadcast? || p.IpMulticast? || p.Ip6Multicast? || p.Vlan? || p.PppoeSession?
    ensures var et, cs := FrameType(p), FrameList(lay, p);
            EmitPrim(lay, p) == Guarded(lay, et, ChecksFrag(cs)) && PrimTest(lay, p) == TypeWith(lay, et, cs)
  {
  }

  function FrameType(p: Primitive): u32 {
    if p.Vlan? then 0x8100 else if p.PppoeSession? then 0x8864 else if p.Ip6Multicast? then 0x86dd else 0x0800
  }

  function FrameList(lay: Layout, p: Primitive): seq<Check>
    requires p.IpBroadcast? || p.IpMulticast? || p.Ip6Multicast? || p.Vlan? || p.PppoeSession?
  {
    match p
    case IpBroadcast => BroadcastChecks(lay)
    case IpMulticast => MulticastChecks(lay)
    case Ip6Multicast => Multicast6Checks(lay)
    case Vlan(id) => VlanChecks(lay, id)
    case PppoeSession(id) => SessionChecks(lay, id)
  }

  lemma {:induction false} PrimRight(env: Env, lay: Layout, p: Primitive)
    requires Sensible(env) && lay.depth == 0 && AccessSafe(lay, p)
    ensures Right(env, EmitPrim(lay, p), PrimCompiled(lay, p))
  {
    if p.Access? {
      AccessRight(env, lay, p.ba);
    } else if p.Host4? || p.Host6? || p.Network? || p.Network6? || p.EtherHost? {
      AddressRight(env, lay, p);
    } else if p.IpBroadcast? || p.IpMulticast? || p.Ip6Multicast? || p.Vlan? || p.PppoeSession? {
      FrameRight(env, lay, p);
    } else if p.EtherMulticast? || p.Mpls? || p.Len? || p.Inbound? || p.Outbound? {
      FieldRight(env, lay, p);
    } else {
      match p
      case Port(port, dir, proto) => PortRight(env, lay, port, dir, proto);
      case PortRange(lo, hi, dir, proto) => PortRangeRight(env, lay, lo, hi, dir, proto);
      case IsProto(pr) => ProtoRight(env, lay, pr);
      case EtherProto(et) => EthRight(env, lay, et);
      case PppoeDiscovery => EthRight(env, lay, 0x8863);
      case IpProtoChain(n) => L4Right(env, lay, n);
      case Ip6ProtoChain(n) => L4Right(env, lay, n);
    }
  }

  predicate AccessesSafe(lay: Layout, e: Expr) {
    match e
    case Prim(p) => AccessSafe(lay, p)
    case And(l, r) => AccessesSafe(lay, l) && AccessesSafe(lay, r)
    case Or(l, r) => AccessesSafe(lay, l) && AccessesSafe(lay, r)
    case Not(x) => AccessesSafe(lay, x)
  }

  lemma {:induction false} ExprDecides(e: Expr, lay: Layout, env: Env)
    requires Sensible(env) && lay.depth == 0 && AccessesSafe(lay, e) && EmitExpr(e, lay).Ok?
    ensures Decides(env, EmitExpr(e, lay).value, Any, ExprHolds(e, lay, env.pkt, true), Any)
  {
    match e
    case Prim(p) => PrimRight(env, lay, p);
    case And(l, r) =>
      ExprDecides(l, lay, env);
      ExprDecides(r, lay, env);
      AndDecides(env, EmitExpr(l, lay).value, EmitExpr(r, lay).value, Any, ExprHolds(l, lay, env.pkt, true), Any,
                 ExprHolds(r, lay, env.pkt, true), Any);
    case Or(l, r) =>
      ExprDecides(l, lay, env);
      ExprDecides(r, lay, env);
      OrDecides(env, EmitExpr(l, lay).value, EmitExpr(r, lay).value, Any, ExprHolds(l, lay, env.pkt, true), ExprHolds(r, lay, env.pkt, true));
    case Not(x) =>
      ExprDecides(x, lay, env);
      NotDecides(env, EmitExpr(x, lay).value, ExprHolds(x, lay, env.pkt, true));
  }
}
