// Every eBPF primitive decides its test.

module EbpfPrims {
  import opened Words
  import opened Bpf
  import opened Ast
  import opened Meaning
  import opened EbpfVm
  import opened EbpfCode
  import opened EbpfEmit
  import opened EbpfProofs
  import Vm

  // ----- one of two values -----

  function OneOf(a: u32, b: u32): Frag {
    [Branch(Imm(EbpfVm.Jeq, R4, a), Rel(1)), Branch(Imm(Jne, R4, b), ToFail)]
  }

  lemma {:induction false} OneOfRuns(env: Env, a: u32, b: u32, v: u32, r: Regs)
    requires r.r4 == Some(v as nat) && a < 0x8000_0000 && b < 0x8000_0000
    ensures Run(OneOf(a, b), env, 0, r) == if v == a || v == b then Fell(r) else Failed(r)
  {
    var second := [Branch(Imm(Jne, R4, b), ToFail)];
    assert OneOf(a, b) == [Branch(Imm(EbpfVm.Jeq, R4, a), Rel(1))] + second && second == second + [];
    RunBranch(Imm(EbpfVm.Jeq, R4, a), Rel(1), second, env, r);
    RunBranch(Imm(Jne, R4, b), ToFail, [], env, r);
    RunNothing(env, r);
  }

  lemma {:induction false} OneOfDecides(env: Env, code: Frag, n: Need, v: Option<u32>, a: u32, b: u32)
    requires Loads(env, code, n, v) && NoSucc(code) && a < 0x8000_0000 && b < 0x8000_0000
    ensures Decides(env, code + OneOf(a, b), n, v.Some? && (v.value == a || v.value == b), n)
    ensures NoSucc(code + OneOf(a, b))
  {
    var g, ok := OneOf(a, b), v.Some? && (v.value == a || v.value == b);
    assert WellFormed(g);
    RunAppend(code, g, env, NO_REGS);
    forall r: Regs | Meets(env, n, r) ensures LeavesWell(Run(code + g, env, 0, r), env, n, ok, n) {
      LoadThen(env, code, g, n, v, r);
      if v.Some? { OneOfRuns(env, a, b, v.value, Run(code, env, 0, r).r); }
    }
  }

  lemma SmallCheck(size: Size, at: nat, v: u32)
    requires at <= 200
    ensures EbpfProofs.Reachable(EqCheck(size, at, v)) && Off(at) == at
  {
  }

  lemma {:induction false} L4Decides(env: Env, at: nat, s: L4Set)
    requires Sensible(env) && at <= 200
    ensures Decides(env, L4Frag(at, s), Any, Holds(ByteIn(at, s), env.pkt, true), Any) && NoSucc(L4Frag(at, s))
  {
    match s
    case One(n) =>
      SmallCheck(SizeB, at, n);
      CheckDecides(env, EqCheck(SizeB, at, n), Any);
    case TcpOrUdp =>
      AbsLoads(env, SizeB, at, Any);
      OneOfDecides(env, AbsLoad(SizeB, at), Any, Vm.SizedLoad(env.pkt, at, SizeB), 6, 17);
  }

  // ----- either IP version -----

  function Split(v6: Frag, v4: Frag): Frag {
    [Branch(Imm(EbpfVm.Jeq, R4, 0x0800), Rel(|v6| + 2)), Branch(Imm(Jne, R4, 0x86dd), ToFail)]
    + v6 + [Goto(Rel(|v4|))] + v4
  }

  lemma {:induction false} SplitForm(v6: Frag, v4: Frag)
    requires WellFormed(v6) && WellFormed(v4)
    ensures WellFormed(Split(v6, v4)) && (NoSucc(v6) && NoSucc(v4) ==> NoSucc(Split(v6, v4)))
  {
    var f := Split(v6, v4);
    forall i | 0 <= i < |f| ensures Within(f[i], i, |f|) {
      if 2 <= i < 2 + |v6| { assert f[i] == v6[i - 2] && Within(v6[i - 2], i - 2, |v6|); }
      if 3 + |v6| <= i { assert f[i] == v4[i - 3 - |v6|] && Within(v4[i - 3 - |v6|], i - 3 - |v6|, |v4|); }
    }
  }

  lemma {:induction false} SplitRuns(env: Env, v6: Frag, v4: Frag, v: u32, r: Regs)
    requires r.r4 == Some(v as nat) && WellFormed(v6)
    ensures Run(Split(v6, v4), env, 0, r) ==
            if v == 0x0800 then Run(v4, env, 0, r)
            else if v == 0x86dd then Run(v6, env, 0, r)
            else Failed(r)
  {
    var jne, over := [Branch(Imm(Jne, R4, 0x86dd), ToFail)], [Goto(Rel(|v4|))];
    var tail := over + v4;
    var rest := jne + (v6 + tail);
    assert Split(v6, v4) == [Branch(Imm(EbpfVm.Jeq, R4, 0x0800), Rel(|v6| + 2))] + rest;
    RunBranch(Imm(EbpfVm.Jeq, R4, 0x0800), Rel(|v6| + 2), rest, env, r);
    RunBranch(Imm(Jne, R4, 0x86dd), ToFail, v6 + tail, env, r);
    assert rest == (jne + v6 + over) + v4;
    RunBehind(jne + v6 + over, v4, env, 0, r);
    RunAppend(v6, tail, env, r);
    var o := Run(v6, env, 0, r);
    if o.Fell? { RunBranch(Always, Rel(|v4|), v4, env, o.r); }
  }

  function TypeOf(env: Env, eth: nat): Option<u32> { Vm.SizedLoad(env.pkt, Off(eth), SizeH) }

  lemma {:induction false} ByVersionDecides(env: Env, eth: nat, v6: Frag, b6: bool, v4: Frag, b4: bool, m: Need)
    requires Sensible(env) && eth <= 200 && WellFormed(v6) && WellFormed(v4) && NoSucc(v6) && NoSucc(v4)
    requires TypeOf(env, eth) == Some(0x86dd) ==> Decides(env, v6, Any, b6, m)
    requires TypeOf(env, eth) == Some(0x0800) ==> Decides(env, v4, Any, b4, m)
    ensures var t := TypeOf(env, eth);
            Decides(env, ByVersion(eth, v6, v4), Any, (t == Some(0x86dd) && b6) || (t == Some(0x0800) && b4), m)
    ensures NoSucc(ByVersion(eth, v6, v4))
  {
    var t, load, rest := TypeOf(env, eth), AbsLoad(SizeH, eth), Split(v6, v4);
    var b := (t == Some(0x86dd) && b6) || (t == Some(0x0800) && b4);
    AbsLoads(env, SizeH, eth, Any);
    SplitForm(v6, v4);
    RunAppend(load, rest, env, NO_REGS);
    assert ByVersion(eth, v6, v4) == load + rest;
    forall r: Regs | Meets(env, Any, r) ensures LeavesWell(Run(load + rest, env, 0, r), env, Any, b, m) {
      LoadThen(env, load, rest, Any, t, r);
      if t.Some? {
        var r' := Run(load, env, 0, r).r;
        SplitRuns(env, v6, v4, t.value, r');
        assert t == Some(0x86dd) ==> LeavesWell(Run(v6, env, 0, r'), env, Any, b6, m);
        assert t == Some(0x0800) ==> LeavesWell(Run(v4, env, 0, r'), env, Any, b4, m);
      }
    }
  }

  // ----- the transport header -----

  lemma LowNibble(a: nat)
    ensures Bitwise(AndBits, a, 15, 32) == a % 16
  {
    var a1, a2, a3, a4 := a / 2, a / 4, a / 8, a / 16;
    assert a1 / 2 == a2 && a2 / 2 == a3 && a3 / 2 == a4;
    AndZero(a4, 28);
    assert Bitwise(AndBits, a3, 1, 29) == a3 % 2;
    assert Bitwise(AndBits, a2, 3, 30) == 2 * (a3 % 2) + a2 % 2;
    assert Bitwise(AndBits, a1, 7, 31) == 4 * (a3 % 2) + 2 * (a2 % 2) + a1 % 2;
  }

  const HEADER_OPS: Ops := [(Bpf.And, 0x0f), (Bpf.Lsh, 2)]

  lemma NibbleTimes4(x: u32)
    requires x < 16
    ensures Vm.AluResult(Bpf.Lsh, x, 2) == Some(4 * x)
  {
    assert 2 % 32 == 2 && Pow2(2) == 4;
    assert x * 4 % U32_SIZE == 4 * x;
  }

  lemma MaskNibble(v: u32)
    ensures Vm.AluResult(Bpf.And, v, 0x0f) == Some(v % 16)
  {
    LowNibble(v);
  }

  /** `4 * IHL` from the first header byte. */
  lemma HeaderOps(v: u32)
    ensures Apply(HEADER_OPS, v) == Some(4 * (v % 16))
  {
    MaskNibble(v);
    NibbleTimes4(v % 16);
    var rest := HEADER_OPS[1..];
    assert rest == [(Bpf.Lsh, 2)] && rest[1..] == [];
    assert Apply(rest[1..], 4 * (v % 16)) == Some(4 * (v % 16));
    assert Apply(rest, v % 16) == Some(4 * (v % 16));
  }

  lemma {:induction false} Pointer6Decides(env: Env, net: nat)
    requires Sensible(env) && net <= 200
    ensures Decides(env, Pointer6(net), Any, net + 44 <= |env.pkt|, Six(env.data + net + 40)) && NoSucc(Pointer6(net))
  {
    var i, j, bound := Mov(R6, R2), AddImm(R6, Off(net + 40)), BoundFrag(R6, 4);
    var f := Pointer6(net);
    assert f == [Plain(i)] + ([Plain(j)] + bound);
    assert WellFormed(f);
    AddSmall(env.data, net + 40);
    forall r: Regs | Meets(env, Any, r)
      ensures LeavesWell(Run(f, env, 0, r), env, Any, net + 44 <= |env.pkt|, Six(env.data + net + 40))
    {
      RunPlain(i, [Plain(j)] + bound, env, r);
      RunPlain(j, bound, env, r.(r6 := Some(env.data)));
      BoundRuns(env, R6, env.data + net + 40, 4, r.(r6 := Some(env.data + net + 40)));
    }
  }

  /** R6 to `R2 + net + R4`. */
  function PointFrag(net: nat): Frag {
    [Plain(Mov(R6, R2)), Plain(AddImm(R6, Off(net))), Plain(AddReg(R6, R4))]
  }

  lemma {:induction false} PointRuns(env: Env, base: u64, net: nat, hl: nat, r: Regs)
    requires net <= 200 && hl <= 60 && base + 300 < U64_SIZE && r.r2 == Some(base) && r.r4 == Some(hl)
    ensures Run(PointFrag(net), env, 0, r) == Fell(r.(r6 := Some(base + net + hl)))
  {
    AddSmall(base, net);
    AddSmall(base + net, hl);
    var c, d, e := Mov(R6, R2), AddImm(R6, Off(net)), AddReg(R6, R4);
    var t2 := [Plain(e)] + [];
    var t1 := [Plain(d)] + t2;
    assert PointFrag(net) == [Plain(c)] + t1;
    RunPlain(c, t1, env, r);
    RunPlain(d, t2, env, r.(r6 := Some(base)));
    RunPlain(e, [], env, r.(r6 := Some(base + net)));
    RunNothing(env, r.(r6 := Some(base + net + hl)));
  }

  /** Where the header behind the IPv4 header begins, if that can be read. */
  function Behind4(env: Env, net: nat): Option<nat> {
    if net < |env.pkt| then Some(net + 4 * (env.pkt[net] % 16)) else None
  }

  function Six4(env: Env, net: nat): Need
    requires Sensible(env) && net <= 200
  {
    Six(if net < |env.pkt| then env.data + net + 4 * (env.pkt[net] % 16) else 0)
  }

  lemma {:induction false} Pointer4Decides(env: Env, net: nat, end: nat)
    requires Sensible(env) && net <= 200 && end < 0x8000_0000
    ensures var t := Behind4(env, net);
            Decides(env, Pointer4(net, end), Any, t.Some? && t.value + end <= |env.pkt|, Six4(env, net))
    ensures NoSucc(Pointer4(net, end))
  {
    var load, point, bound := AbsLoad(SizeB, net), PointFrag(net), BoundFrag(R6, end);
    var first, rest := load + OpsFrag(HEADER_OPS), point + bound;
    var t, v := Behind4(env, net), Vm.SizedLoad(env.pkt, net, SizeB);
    var b := t.Some? && t.value + end <= |env.pkt|;
    assert Pointer4(net, end) == first + rest;
    AbsLoads(env, SizeB, net, Any);
    OpsLoad(env, load, Any, v, HEADER_OPS);
    assert WellFormed(point) && WellFormed(bound) && NoSucc(point) && NoSucc(bound);
    RunAppend(point, bound, env, NO_REGS);
    RunAppend(first, rest, env, NO_REGS);
    forall r: Regs | Meets(env, Any, r) ensures LeavesWell(Run(first + rest, env, 0, r), env, Any, b, Six4(env, net)) {
      LoadThen(env, first, rest, Any, ThenOps(v, HEADER_OPS), r);
      if t.Some? {
        HeaderOps(v.value);
        Point4Leaves(env, net, end, Run(first, env, 0, r).r);
      }
    }
  }

  lemma {:induction false} Point4Leaves(env: Env, net: nat, end: nat, r: Regs)
    requires Sensible(env) && net <= 200 && end < 0x8000_0000 && Meets(env, Any, r) && net < |env.pkt|
    requires r.r4 == Some(4 * (env.pkt[net] % 16))
    ensures LeavesWell(Run(PointFrag(net) + BoundFrag(R6, end), env, 0, r), env, Any,
                       Behind4(env, net).value + end <= |env.pkt|, Six4(env, net))
  {
    var hl := 4 * (env.pkt[net] % 16);
    var six := env.data + net + hl;
    assert WellFormed(PointFrag(net));
    RunAppend(PointFrag(net), BoundFrag(R6, end), env, r);
    PointRuns(env, env.data, net, hl, r);
    BoundRuns(env, R6, six, end, r.(r6 := Some(six)));
  }

  // ----- ports -----

  lemma ReadableHolds(f: Field, pkt: Packet)
    ensures Holds(ReadableWord(f), pkt, true) <==> Read(f, pkt).Some?
  {
    ReadCompares(f, Ge, 0, pkt);
  }

  lemma ReadBehind(env: Env, net: nat)
    requires Sensible(env) && net <= 200
    ensures Read(Behind(net, SizeW, net), env.pkt).Some? <==>
            Behind4(env, net).Some? && Behind4(env, net).value + 4 <= |env.pkt|
  {
    if net < |env.pkt| {
      var hl := 4 * (env.pkt[net] % 16);
      assert Vm.MshLoad(env.pkt, net) == Some(hl);
      assert Add32(hl, net) == net + hl;
    }
  }

  lemma SmallOff(n: nat)
    requires n <= 300
    ensures Off(n) == n
  {
  }

  lemma ReadableWords(env: Env, net: nat)
    requires Sensible(env) && net <= 200
    ensures Holds(ReadableWord(Abs(SizeW, Off(net + 40))), env.pkt, true) <==> net + 44 <= |env.pkt|
    ensures Holds(ReadableWord(Behind(Off(net), SizeW, Off(net))), env.pkt, true) <==>
            Behind4(env, net).Some? && Behind4(env, net).value + 4 <= |env.pkt|
  {
    SmallOff(net + 40);
    SmallOff(net);
    ReadableHolds(Abs(SizeW, net + 40), env.pkt);
    ReadableHolds(Behind(net, SizeW, net), env.pkt);
    ReadBehind(env, net);
  }

  /** The transport tests behind the ethertype. */
  function Rest6(net: nat, s: L4Set): Formula {
    Both(ByteIn(net + 6, s), ReadableWord(Abs(SizeW, Off(net + 40))))
  }

  function Rest4(net: nat, s: L4Set): Formula {
    Both(ByteIn(net + 9, s), ReadableWord(Behind(Off(net), SizeW, Off(net))))
  }

  lemma {:induction false} V6Decides(env: Env, net: nat, s: L4Set)
    requires Sensible(env) && net <= 100
    ensures var f, q := L4Frag(net + 6, s) + Pointer6(net), Rest6(net, s);
            Decides(env, f, Any, Holds(q, env.pkt, true), Six(env.data + net + 40)) && NoSucc(f)
  {
    L4Decides(env, net + 6, s);
    Pointer6Decides(env, net);
    ReadableWords(env, net);
    ThenDecides(env, L4Frag(net + 6, s), Pointer6(net), Any, Holds(ByteIn(net + 6, s), env.pkt, true), Any,
                net + 44 <= |env.pkt|, Six(env.data + net + 40));
  }

  lemma {:induction false} V4Decides(env: Env, net: nat, s: L4Set)
    requires Sensible(env) && net <= 100
    ensures var f, q := L4Frag(net + 9, s) + Pointer4(net, 4),
                        Rest4(net, s);
            Decides(env, f, Any, Holds(q, env.pkt, true), Six4(env, net)) && NoSucc(f)
  {
    var t := Behind4(env, net);
    L4Decides(env, net + 9, s);
    Pointer4Decides(env, net, 4);
    ReadableWords(env, net);
    ThenDecides(env, L4Frag(net + 9, s), Pointer4(net, 4), Any, Holds(ByteIn(net + 9, s), env.pkt, true), Any,
                t.Some? && t.value + 4 <= |env.pkt|, Six4(env, net));
  }

  lemma TypeTests(env: Env, lay: Layout)
    requires Sensible(env) && lay.depth == 0
    ensures var eth := EthAt(lay);
            if eth.None? then !Holds(EthIs(lay, 0x86dd), env.pkt, true) && Holds(EthIs(lay, 0x0800), env.pkt, true)
            else && (Holds(EthIs(lay, 0x86dd), env.pkt, true) <==> TypeOf(env, eth.value) == Some(0x86dd))
                 && (Holds(EthIs(lay, 0x0800), env.pkt, true) <==> TypeOf(env, eth.value) == Some(0x0800))
  {
    var eth := EthAt(lay);
    if eth.Some? {
      var t := TypeOf(env, eth.value);
      assert ReadThen(Abs(SizeH, Off(eth.value)), [], env.pkt) == t;
    }
  }

  /** R6 behind the header of whichever IP version the frame carries. */
  function PortsSix(env: Env, lay: Layout): Need
    requires Sensible(env) && lay.depth == 0
  {
    if Holds(EthIs(lay, 0x86dd), env.pkt, true) then Six(env.data + NetAt(lay) + 40)
    else Six4(env, NetAt(lay))
  }

  /** Transport tests, split into ethertype and the rest. */
  lemma TransportParts(env: Env, lay: Layout, s: L4Set)
    ensures var net := NetAt(lay);
            && Holds(Transport6(lay, s), env.pkt, true) ==
               (Holds(EthIs(lay, 0x86dd), env.pkt, true)
                && Holds(Rest6(net, s), env.pkt, true))
            && Holds(Transport4(lay, s), env.pkt, true) ==
               (Holds(EthIs(lay, 0x0800), env.pkt, true)
                && Holds(Rest4(net, s), env.pkt, true))
  {
  }

  /** The code for each IP version decides its test. */
  ghost predicate BothVersions(env: Env, net: nat, v6: Frag, b6: bool, v4: Frag, b4: bool)
    requires Sensible(env) && net <= 100
  {
    && NoSucc(v6) && NoSucc(v4)
    && Decides(env, v6, Any, b6, Six(env.data + net + 40)) && Decides(env, v4, Any, b4, Six4(env, net))
  }

  /** The verdict and R6, by the version the frame carries. */
  predicate Chosen(env: Env, eth: Option<nat>, net: nat, b6: bool, b4: bool, b: bool, m: Need)
    requires Sensible(env) && net <= 100
  {
    if eth.None? then b == b4 && m == Six4(env, net)
    else
      var t := TypeOf(env, eth.value);
      && eth.value <= 200
      && b == ((t == Some(0x86dd) && b6) || (t == Some(0x0800) && b4))
      && m == if t == Some(0x86dd) then Six(env.data + net + 40) else Six4(env, net)
  }

  lemma TransportChosen(env: Env, lay: Layout, s: L4Set)
    requires Sensible(env) && lay.depth == 0
    ensures var net := NetAt(lay);
            Chosen(env, EthAt(lay), net, Holds(Rest6(net, s), env.pkt, true), Holds(Rest4(net, s), env.pkt, true),
                   Holds(Transport6(lay, s), env.pkt, true) || Holds(Transport4(lay, s), env.pkt, true), PortsSix(env, lay))
  {
    TypeTests(env, lay);
    TransportParts(env, lay, s);
  }

  lemma {:induction false} PortsJoin(env: Env, eth: Option<nat>, net: nat, v6: Frag, b6: bool, v4: Frag, b4: bool, b: bool, m: Need)
    requires Sensible(env) && net <= 100 && BothVersions(env, net, v6, b6, v4, b4) && Chosen(env, eth, net, b6, b4, b, m)
    ensures var f := if eth.None? then v4 else ByVersion(eth.value, v6, v4);
            Decides(env, f, Any, b, m) && NoSucc(f)
  {
    if eth.Some? { VersionsDecide(env, eth.value, net, v6, b6, v4, b4); }
  }

  lemma {:induction false} PortsBoth(env: Env, net: nat, s: L4Set)
    requires Sensible(env) && net <= 100
    ensures BothVersions(env, net, L4Frag(net + 6, s) + Pointer6(net), Holds(Rest6(net, s), env.pkt, true),
                         L4Frag(net + 9, s) + Pointer4(net, 4), Holds(Rest4(net, s), env.pkt, true))
  {
    V4Decides(env, net, s);
    V6Decides(env, net, s);
  }

  lemma {:induction false} PortsDecideWith(env: Env, lay: Layout, s: L4Set, f: Frag, b: bool, m: Need)
    requires Sensible(env) && lay.depth == 0 && f == PortsFrag(lay, s)
    requires var net := NetAt(lay);
             Chosen(env, EthAt(lay), net, Holds(Rest6(net, s), env.pkt, true), Holds(Rest4(net, s), env.pkt, true), b, m)
    ensures Decides(env, f, Any, b, m) && NoSucc(f)
  {
    var net := NetAt(lay);
    PortsBoth(env, net, s);
    PortsFragIs(lay, s, L4Frag(net + 6, s) + Pointer6(net), L4Frag(net + 9, s) + Pointer4(net, 4));
    PortsJoin(env, EthAt(lay), net, L4Frag(net + 6, s) + Pointer6(net), Holds(Rest6(net, s), env.pkt, true),
              L4Frag(net + 9, s) + Pointer4(net, 4), Holds(Rest4(net, s), env.pkt, true), b, m);
  }

  lemma {:induction false} PortsDecide(env: Env, lay: Layout, s: L4Set)
    requires Sensible(env) && lay.depth == 0
    ensures Decides(env, PortsFrag(lay, s), Any,
                    Holds(Transport6(lay, s), env.pkt, true) || Holds(Transport4(lay, s), env.pkt, true), PortsSix(env, lay))
    ensures NoSucc(PortsFrag(lay, s))
  {
    TransportChosen(env, lay, s);
    PortsDecideWith(env, lay, s, PortsFrag(lay, s),
                    Holds(Transport6(lay, s), env.pkt, true) || Holds(Transport4(lay, s), env.pkt, true), PortsSix(env, lay));
  }

  lemma PortsFragIs(lay: Layout, s: L4Set, v6: Frag, v4: Frag)
    requires v6 == L4Frag(NetAt(lay) + 6, s) + Pointer6(NetAt(lay))
    requires v4 == L4Frag(NetAt(lay) + 9, s) + Pointer4(NetAt(lay), 4)
    ensures var eth := EthAt(lay);
            PortsFrag(lay, s) == if eth.None? then v4 else ByVersion(eth.value, v6, v4)
  {
  }

  lemma {:induction false} VersionsDecide(env: Env, eth: nat, net: nat, v6: Frag, b6: bool, v4: Frag, b4: bool)
    requires Sensible(env) && eth <= 200 && net <= 200 && NoSucc(v6) && NoSucc(v4)
    requires Decides(env, v6, Any, b6, Six(env.data + net + 40)) && Decides(env, v4, Any, b4, Six4(env, net))
    ensures var t := TypeOf(env, eth);
            Decides(env, ByVersion(eth, v6, v4), Any, (t == Some(0x86dd) && b6) || (t == Some(0x0800) && b4),
                    if t == Some(0x86dd) then Six(env.data + net + 40) else Six4(env, net))
    ensures NoSucc(ByVersion(eth, v6, v4))
  {
    var m := if TypeOf(env, eth) == Some(0x86dd) then Six(env.data + net + 40) else Six4(env, net);
    ByVersionDecides(env, eth, v6, b6, v4, b4, m);
  }

  lemma {:induction false} SixLoads(env: Env, t: nat, size: Size, off: nat)
    requires Sensible(env) && t + AsI16(off) >= 0 && t + off + Bytes(size) <= |env.pkt|
    ensures Loads(env, LoadFrag(R6, size, off), Six(env.data + t), LoadedAt(env.pkt, t, off, size))
    ensures LoadedAt(env.pkt, t, off, size).Some? && NoSucc(LoadFrag(R6, size, off))
    ensures off <= 0x7fff ==> LoadedAt(env.pkt, t, off, size) == Vm.SizedLoad(env.pkt, t + off, size)
  {
    var f, n, v := LoadFrag(R6, size, off), Six(env.data + t), LoadedAt(env.pkt, t, off, size);
    CutOffset(off);
    forall r: Regs | Meets(env, n, r) ensures LoadsWell(Run(f, env, 0, r), env, n, v) {
      LoadRuns(env, R6, env.data + t, size, off, r);
    }
    assert WellFormed(f);
  }

  /** The fields `s` and `d` are the ports of the header at `t`. */
  predicate PortsAre(env: Env, t: nat, s: Field, d: Field) {
    && t + 4 <= |env.pkt| && |env.pkt| < U32_SIZE
    && Read(s, env.pkt) == Vm.SizedLoad(env.pkt, t, SizeH) && Read(d, env.pkt) == Vm.SizedLoad(env.pkt, t + 2, SizeH)
  }

  lemma ReadCompares(f: Field, op: CmpOp, k: u32, pkt: Packet)
    ensures Holds(Compare(f, [], op, Literal(k)), pkt, true) <==>
            Read(f, pkt).Some? && CompareAs(op, Read(f, pkt).value, k, true)
  {
  }

  lemma {:induction false} PortDecides(env: Env, t: nat, s: Field, d: Field, dir: Dir, port: u16)
    requires Sensible(env) && PortsAre(env, t, s, d)
    ensures Decides(env, PortFrag(dir, port), Six(env.data + t),
                    Holds(ByDir(dir, PortIs(s, port), PortIs(d, port)), env.pkt, true), Six(env.data + t))
  {
    var n, cmp := Six(env.data + t), CmpFrag(Eq, port);
    var ls, ld := LoadFrag(R6, SizeH, 0), LoadFrag(R6, SizeH, 2);
    var vs, vd := Vm.SizedLoad(env.pkt, t, SizeH), Vm.SizedLoad(env.pkt, t + 2, SizeH);
    SixLoads(env, t, SizeH, 0);
    SixLoads(env, t, SizeH, 2);
    ReadCompares(s, Eq, port, env.pkt);
    ReadCompares(d, Eq, port, env.pkt);
    CmpDecides(env, ls, n, vs, Eq, port);
    CmpDecides(env, ld, n, vd, Eq, port);
    var a, b := Holds(PortIs(s, port), env.pkt, true), Holds(PortIs(d, port), env.pkt, true);
    match dir
    case Src =>
    case Dst =>
    case SrcAndDst => ThenDecides(env, ls + cmp, ld + cmp, n, a, n, b, n);
    case SrcOrDst => EarlySuccess(env, ls, n, vs, port, ld + cmp, b);
  }

  lemma {:induction false} RangeTestDecides(env: Env, t: nat, f: Field, isDst: bool, lo: u16, hi: u16)
    requires Sensible(env) && t + 4 <= |env.pkt|
    requires Read(f, env.pkt) == Vm.SizedLoad(env.pkt, t + PortAt(isDst), SizeH)
    ensures Decides(env, RangeTest(isDst, lo, hi), Six(env.data + t), Holds(PortIn(f, lo, hi), env.pkt, true), Six(env.data + t))
    ensures NoSucc(RangeTest(isDst, lo, hi))
  {
    var n, load := Six(env.data + t), LoadFrag(R6, SizeH, PortAt(isDst));
    var v := Vm.SizedLoad(env.pkt, t + PortAt(isDst), SizeH);
    SixLoads(env, t, SizeH, PortAt(isDst));
    ReadCompares(f, Ge, lo, env.pkt);
    ReadCompares(f, Le, hi, env.pkt);
    BetweenDecides(env, load, n, v.value, lo, hi);
  }

  /** A loaded value between two constants. */
  lemma {:induction false} BetweenDecides(env: Env, load: Frag, n: Need, v: u32, lo: u16, hi: u16)
    requires Loads(env, load, n, Some(v)) && NoSucc(load)
    ensures var f := load + (CmpFrag(Ge, lo) + CmpFrag(Le, hi));
            Decides(env, f, n, CompareAs(Ge, v, lo, true) && CompareAs(Le, v, hi, true), n) && NoSucc(f)
  {
    var ge, le := CmpFrag(Ge, lo), CmpFrag(Le, hi);
    var b := CompareAs(Ge, v, lo, true) && CompareAs(Le, v, hi, true);
    assert WellFormed(ge) && WellFormed(le) && NoSucc(ge) && NoSucc(le);
    RunAppend(ge, le, env, NO_REGS);
    RunAppend(load, ge + le, env, NO_REGS);
    forall r: Regs | Meets(env, n, r) ensures LeavesWell(Run(load + (ge + le), env, 0, r), env, n, b, n) {
      LoadThen(env, load, ge + le, n, Some(v), r);
      BetweenRuns(env, lo, hi, v, Run(load, env, 0, r).r);
    }
  }

  lemma {:induction false} BetweenRuns(env: Env, lo: u16, hi: u16, v: u32, r: Regs)
    requires r.r4 == Some(v as nat)
    ensures Run(CmpFrag(Ge, lo) + CmpFrag(Le, hi), env, 0, r) ==
            if CompareAs(Ge, v, lo, true) && CompareAs(Le, v, hi, true) then Fell(r) else Failed(r)
  {
    assert WellFormed(CmpFrag(Ge, lo));
    RunAppend(CmpFrag(Ge, lo), CmpFrag(Le, hi), env, r);
    CmpRuns(env, Ge, lo, v, r);
    CmpRuns(env, Le, hi, v, r);
  }

  lemma {:induction false} RangeDecides(env: Env, t: nat, s: Field, d: Field, dir: Dir, lo: u16, hi: u16)
    requires Sensible(env) && PortsAre(env, t, s, d)
    ensures Decides(env, RangeFrag(dir, lo, hi), Six(env.data + t),
                    Holds(ByDir(dir, PortIn(s, lo, hi), PortIn(d, lo, hi)), env.pkt, true), Six(env.data + t))
  {
    var n, fs, fd := Six(env.data + t), RangeTest(false, lo, hi), RangeTest(true, lo, hi);
    RangeTestDecides(env, t, s, false, lo, hi);
    RangeTestDecides(env, t, d, true, lo, hi);
    var a, b := Holds(PortIn(s, lo, hi), env.pkt, true), Holds(PortIn(d, lo, hi), env.pkt, true);
    match dir
    case Src =>
    case Dst =>
    case SrcAndDst => ThenDecides(env, fs, fd, n, a, n, b, n);
    case SrcOrDst => OrDecides(env, fs, fd, n, a, b);
  }

  lemma PortFields6(env: Env, lay: Layout)
    requires Sensible(env) && lay.depth == 0 && NetAt(lay) + 44 <= |env.pkt|
    ensures PortsAre(env, NetAt(lay) + 40, PortField(lay, true, false), PortField(lay, true, true))
  {
    var net := NetAt(lay);
    assert Off(net) == net && Off(net + 2) == net + 2;
    assert Add32(40, net) == net + 40 && Add32(40, net + 2) == net + 42;
  }

  lemma PortFields4(env: Env, lay: Layout)
    requires Sensible(env) && lay.depth == 0 && Behind4(env, NetAt(lay)).Some? && Behind4(env, NetAt(lay)).value + 4 <= |env.pkt|
    ensures PortsAre(env, Behind4(env, NetAt(lay)).value, PortField(lay, false, false), PortField(lay, false, true))
  {
    var net := NetAt(lay);
    var hl := 4 * (env.pkt[net] % 16);
    assert Off(net) == net && Off(net + 2) == net + 2;
    assert Vm.MshLoad(env.pkt, net) == Some(hl);
    assert Add32(hl, net) == net + hl && Add32(hl, net + 2) == net + hl + 2;
  }

  /** Port code that decides its test wherever the ports are. */
  ghost predicate PortCode(env: Env, dir: Dir, t: Field -> Formula, code: Frag)
    requires Sensible(env)
  {
    WellFormed(code) && forall at: nat, f, g {:trigger PortsAre(env, at, f, g)} :: PortsAre(env, at, f, g) ==>
      Decides(env, code, Six(env.data + at), Holds(ByDir(dir, t(f), t(g)), env.pkt, true), Six(env.data + at))
  }

  function DirTest(lay: Layout, v6: bool, dir: Dir, t: Field -> Formula): Formula {
    ByDir(dir, t(PortField(lay, v6, false)), t(PortField(lay, v6, true)))
  }

  lemma {:induction false} Test6Decides(env: Env, lay: Layout, s: L4Set, dir: Dir, t: Field -> Formula, code: Frag)
    requires Sensible(env) && lay.depth == 0 && PortCode(env, dir, t, code) && Holds(Transport6(lay, s), env.pkt, true)
    ensures Decides(env, code, PortsSix(env, lay), Holds(DirTest(lay, true, dir, t), env.pkt, true), Any)
  {
    TransportParts(env, lay, s);
    ReadableWords(env, NetAt(lay));
    PortFields6(env, lay);
    TestAt(env, NetAt(lay) + 40, PortField(lay, true, false), PortField(lay, true, true), dir, t, code);
  }

  lemma {:induction false} Ports4Found(env: Env, lay: Layout, s: L4Set)
    requires Sensible(env) && lay.depth == 0 && Holds(Transport4(lay, s), env.pkt, true)
    ensures var t := Behind4(env, NetAt(lay));
            && t.Some? && PortsSix(env, lay) == Six(env.data + t.value)
            && PortsAre(env, t.value, PortField(lay, false, false), PortField(lay, false, true))
  {
    TransportParts(env, lay, s);
    TypeTests(env, lay);
    ReadableWords(env, NetAt(lay));
    PortFields4(env, lay);
  }

  lemma {:induction false} Test4Decides(env: Env, lay: Layout, s: L4Set, dir: Dir, t: Field -> Formula, code: Frag)
    requires Sensible(env) && lay.depth == 0 && PortCode(env, dir, t, code) && Holds(Transport4(lay, s), env.pkt, true)
    ensures Decides(env, code, PortsSix(env, lay), Holds(DirTest(lay, false, dir, t), env.pkt, true), Any)
  {
    Ports4Found(env, lay, s);
    TestAt(env, Behind4(env, NetAt(lay)).value, PortField(lay, false, false), PortField(lay, false, true), dir, t, code);
  }

  lemma {:induction false} TestAt(env: Env, at: nat, f: Field, g: Field, dir: Dir, t: Field -> Formula, code: Frag)
    requires Sensible(env) && PortCode(env, dir, t, code) && PortsAre(env, at, f, g)
    ensures Decides(env, code, Six(env.data + at), Holds(ByDir(dir, t(f), t(g)), env.pkt, true), Any)
  {
    Forgets(env, code, Six(env.data + at), Holds(ByDir(dir, t(f), t(g)), env.pkt, true));
  }

  lemma OneVersion(env: Env, lay: Layout, s: L4Set)
    requires Sensible(env) && lay.depth == 0
    ensures !(Holds(Transport6(lay, s), env.pkt, true) && Holds(Transport4(lay, s), env.pkt, true))
  {
    TransportParts(env, lay, s);
    TypeTests(env, lay);
  }

  lemma OnTransportParts(lay: Layout, s: L4Set, dir: Dir, t: Field -> Formula, pkt: Packet)
    ensures Holds(OnTransport(lay, s, dir, t), pkt, true) ==
            ((Holds(Transport6(lay, s), pkt, true) && Holds(DirTest(lay, true, dir, t), pkt, true))
             || (Holds(Transport4(lay, s), pkt, true) && Holds(DirTest(lay, false, dir, t), pkt, true)))
  {
    var six, four := Both(Transport6(lay, s), DirTest(lay, true, dir, t)), Both(Transport4(lay, s), DirTest(lay, false, dir, t));
    assert OnTransport(lay, s, dir, t) == Either(six, four);
  }

  /** A port test behind the prerequisites. */
  lemma {:induction false} OnPortsDecides(env: Env, lay: Layout, s: L4Set, dir: Dir, t: Field -> Formula, code: Frag)
    requires Sensible(env) && lay.depth == 0 && PortCode(env, dir, t, code)
    ensures Decides(env, PortsFrag(lay, s) + code, Any, Holds(OnTransport(lay, s, dir, t), env.pkt, true), Any)
  {
    var t6, t4 := Holds(Transport6(lay, s), env.pkt, true), Holds(Transport4(lay, s), env.pkt, true);
    var b := Holds(DirTest(lay, t6, dir, t), env.pkt, true);
    PortsDecide(env, lay, s);
    OneVersion(env, lay, s);
    OnTransportParts(lay, s, dir, t, env.pkt);
    if t6 {
      Test6Decides(env, lay, s, dir, t, code);
    } else if t4 {
      Test4Decides(env, lay, s, dir, t, code);
    }
    ThenDecides(env, PortsFrag(lay, s), code, Any, t6 || t4, PortsSix(env, lay), b, Any);
  }

  lemma Forgets(env: Env, code: Frag, n: Need, b: bool)
    requires Decides(env, code, n, b, n)
    ensures Decides(env, code, n, b, Any)
  {
    forall r: Regs | Meets(env, n, r) ensures LeavesWell(Run(code, env, 0, r), env, n, b, Any) {
      assert LeavesWell(Run(code, env, 0, r), env, n, b, n);
    }
  }
}
