// Which byte accesses the eBPF back end can load: exactly when a load never
// leaves the packet, and exactly when it reads what was asked for
// (pktbaffle/src/ebpf_codegen.rs:142-166, 986-1049).

module EbpfReach {
  import opened Words
  import opened Results
  import opened Bpf
  import opened Ast
  import opened Meaning
  import opened EbpfVm
  import opened EbpfCode
  import opened EbpfEmit
  import opened EbpfProofs
  import opened EbpfPrims
  import opened EbpfTheorem
  import opened EbpfFinal
  import Vm

  /** No run of the code, from registers as the prologue leaves them, reads
      outside the packet. */
  ghost predicate NeverCrashes(code: Frag) {
    forall env, r {:trigger Run(code, env, 0, r)} :: Sensible(env) && Meets(env, Any, r) ==> !Run(code, env, 0, r).Crashed?
  }

  function Entered(env: Env): Regs
    requires Sensible(env)
  {
    Regs(None, Some(env.data), Some(End(env)), None, None, None)
  }

  lemma LoadCrashes(env: Env, base: Reg, a: u64, size: Size, off: nat, r: Regs)
    requires Get(r, base) == Some(a)
    requires var x := Add64(a, AsI16(off)); x < env.data || x + Bytes(size) > End(env)
    ensures Run(LoadFrag(base, size, off), env, 0, r).Crashed?
  {
    var f := LoadFrag(base, size, off);
    assert f == [f[0]] + f[1..];
    RunPlain(f[0].i, f[1..], env, r);
  }

  /** The immediate of a bounds check is sign-extended: from 2^31 on it is
      negative and the check passes. */
  lemma {:induction false} BoundWraps(env: Env, base: Reg, a: u64, end: nat, r: Regs)
    requires r.r3 == Some(End(env)) && Get(r, base) == Some(a)
    requires 0x8000_0000 <= end < U32_SIZE <= a && a + end - U32_SIZE <= End(env)
    ensures Run(BoundFrag(base, end), env, 0, r) == Fell(r.(r5 := Some(a + end - U32_SIZE)))
  {
    var i, j, k := Plain(Mov(R5, base)), Plain(AddImm(R5, Off(end))), Branch(RegGt(R5, R3), ToFail);
    var r1 := r.(r5 := Some(a));
    var r2 := r.(r5 := Some(a + end - U32_SIZE));
    WrapsBelow(a, end);
    assert BoundFrag(base, end) == [i] + ([j] + ([k] + []));
    RunPlain(i.i, [j] + ([k] + []), env, r);
    RunPlain(j.i, [k] + [], env, r1);
    RunBranch(k.t, k.to, [], env, r2);
    RunNothing(env, r2);
  }

  lemma WrapsBelow(a: u64, end: nat)
    requires 0x8000_0000 <= end < U32_SIZE <= a
    ensures Off(end) == end && Add64(a, SignExtend(end)) == a + end - U32_SIZE
  {
    var s := a + end + U64_SIZE - U32_SIZE;
    assert s >= U64_SIZE && s - U64_SIZE < U64_SIZE;
    assert s % U64_SIZE == s - U64_SIZE;
  }

  // ----- absolute loads -----

  lemma {:induction false} BoundThenLoad(env: Env, size: Size, k: nat, r: Regs, r': Regs)
    requires Run(BoundFrag(R2, k + Bytes(size)), env, 0, r) == Fell(r') && Run(LoadFrag(R2, size, k), env, 0, r').Crashed?
    ensures Run(AbsLoad(size, k), env, 0, r).Crashed?
  {
    assert WellFormed(BoundFrag(R2, k + Bytes(size)));
    RunAppend(BoundFrag(R2, k + Bytes(size)), LoadFrag(R2, size, k), env, r);
  }

  /** A load whose cut offset is negative reads in front of every packet that
      passes its bounds check. */
  lemma {:induction false} NegativeOffsetCrashes(env: Env, size: Size, k: nat, r: Regs)
    requires Sensible(env) && Meets(env, Any, r) && AsI16(k) < 0 && k + Bytes(size) <= |env.pkt| && k + Bytes(size) < 0x8000_0000
    ensures Run(AbsLoad(size, k), env, 0, r).Crashed?
  {
    var end := k + Bytes(size);
    var r' := r.(r5 := Some(env.data + end));
    CutOffset(k);
    BoundRuns(env, R2, env.data, end, r);
    InFront(env.data, End(env), AsI16(k));
    LoadCrashes(env, R2, env.data, size, k, r');
    BoundThenLoad(env, size, k, r, r');
  }

  lemma InFront(data: nat, end: nat, x: int)
    requires data <= end && end + 0x1_0000 < U64_SIZE && -0x8000 <= x < 0
    ensures Add64(data, x) < data || Add64(data, x) >= end
  {
    if data + x < 0 { assert (data + x) % U64_SIZE == data + x + U64_SIZE; }
  }

  /** A load whose bounds check wraps is not checked at all. */
  lemma {:induction false} WrappedCheckCrashes(env: Env, size: Size, k: nat, r: Regs)
    requires Sensible(env) && Meets(env, Any, r) && env.data >= U32_SIZE
    requires 0x8000_0000 <= k + Bytes(size) < U32_SIZE && (AsI16(k) < 0 || AsI16(k) + Bytes(size) > |env.pkt|)
    ensures Run(AbsLoad(size, k), env, 0, r).Crashed?
  {
    var end := k + Bytes(size);
    var r' := r.(r5 := Some(env.data + end - U32_SIZE));
    CutOffset(k);
    BoundWraps(env, R2, env.data, end, r);
    AddOffset(env.data, AsI16(k));
    LoadCrashes(env, R2, env.data, size, k, r');
    BoundThenLoad(env, size, k, r, r');
  }

  lemma {:induction false} UnsafeLoadCrashes(size: Size, k: nat) returns (env: Env, r: Regs)
    requires k + 4 < U32_SIZE && !SafeLoad(0, k, size)
    ensures Sensible(env) && Meets(env, Any, r) && Run(AbsLoad(size, k), env, 0, r).Crashed?
  {
    var end := k + Bytes(size);
    if end < 0x8000_0000 {
      env := Env(seq(end, _ => 0), 0, true);
      r := Entered(env);
      NegativeOffsetCrashes(env, size, k, r);
    } else {
      env := Env([], U32_SIZE, true);
      r := Entered(env);
      WrappedCheckCrashes(env, size, k, r);
    }
  }

  /** An absolute load never leaves any packet if and only if its end is below
      2^31 and its offset, cut to 16 bits, is not negative. */
  lemma {:induction false} LoadSafeExactly(size: Size, k: nat)
    requires k + 4 < U32_SIZE
    ensures NeverCrashes(AbsLoad(size, k)) <==> k + Bytes(size) < 0x8000_0000 && AsI16(k) >= 0
  {
    if SafeLoad(0, k, size) {
      forall env, r | Sensible(env) && Meets(env, Any, r) ensures !Run(AbsLoad(size, k), env, 0, r).Crashed? {
        FarLoads(env, size, k, Any);
      }
    } else {
      var env, r := UnsafeLoadCrashes(size, k);
    }
  }

  /** The load puts the value of the field it was asked for into R4, on every
      packet. */
  ghost predicate AlwaysRight(size: Size, k: u32) {
    forall env :: Sensible(env) ==> Loads(env, AbsLoad(size, k), Any, Vm.SizedLoad(env.pkt, k, size))
  }

  lemma {:induction false} LoadsOnce(env: Env, code: Frag, v: Option<u32>, w: Option<u32>)
    requires Sensible(env) && Loads(env, code, Any, v) && Loads(env, code, Any, w)
    ensures v == w
  {
    var o := Run(code, env, 0, Entered(env));
    assert LoadsWell(o, env, Any, v) && LoadsWell(o, env, Any, w);
  }

  /** A packet of zeroes up to position `k` and ones from there on. */
  function Marked(k: nat, n: nat): Packet { seq(n, i => if i < k then 0 else 1) }

  lemma MarkedLoads(k: u32, size: Size, at: u32)
    requires at + Bytes(size) <= k
    ensures var pkt := Marked(k, k + Bytes(size));
            Vm.SizedLoad(pkt, at, size) == Some(0) && Vm.SizedLoad(pkt, k, size).Some? && Vm.SizedLoad(pkt, k, size) != Some(0)
  {
  }

  /** A far load that does not leave the packet reads another field. */
  lemma {:induction false} FarLoadIsWrong(size: Size, k: nat)
    requires SafeLoad(0, k, size) && k > 0x7fff
    ensures var env := Env(Marked(k, k + Bytes(size)), 0, true);
            Sensible(env) && !Loads(env, AbsLoad(size, k), Any, Vm.SizedLoad(env.pkt, k, size))
  {
    var env := Env(Marked(k, k + Bytes(size)), 0, true);
    CutOffset(k);
    FarCut(k);
    FarLoads(env, size, k, Any);
    MarkedLoads(k, size, AsI16(k));
    LoadsOnlyThat(env, AbsLoad(size, k), LoadedAt(env.pkt, 0, k, size), Vm.SizedLoad(env.pkt, k, size));
  }

  lemma FarCut(k: nat)
    requires k > 0x7fff && AsI16(k) >= 0
    ensures AsI16(k) + 4 <= k
  {
  }

  /** An absolute load is right on every packet if and only if its offset is at
      most 32767. */
  lemma {:induction false} LoadRightExactly(size: Size, k: nat)
    requires k + 4 < U32_SIZE
    ensures AlwaysRight(size, k) <==> k <= 0x7fff
  {
    if k <= 0x7fff {
      forall env | Sensible(env) ensures Loads(env, AbsLoad(size, k), Any, Vm.SizedLoad(env.pkt, k, size)) {
        AbsLoads(env, size, k, Any);
      }
    } else if SafeLoad(0, k, size) {
      FarLoadIsWrong(size, k);
    } else {
      var env, r := UnsafeLoadCrashes(size, k);
      CrashLoadsNothing(env, AbsLoad(size, k), Vm.SizedLoad(env.pkt, k, size), r);
    }
  }

  lemma CrashLoadsNothing(env: Env, code: Frag, v: Option<u32>, r: Regs)
    requires Meets(env, Any, r) && Run(code, env, 0, r).Crashed?
    ensures !Loads(env, code, Any, v)
  {
  }

  // ----- transport loads -----

  function TransLoad(net: nat, size: Size, off: nat): Frag {
    Pointer4(net, off + Bytes(size)) + LoadFrag(R6, size, off)
  }

  /** R6 before its bounds check. */
  function Before4(net: nat): Frag { AbsLoad(SizeB, net) + OpsFrag(HEADER_OPS) + PointFrag(net) }

  lemma {:induction false} Before4Runs(env: Env, net: nat, r: Regs) returns (r': Regs)
    requires Sensible(env) && Meets(env, Any, r) && net <= 100 && net < |env.pkt|
    ensures WellFormed(Before4(net)) && Run(Before4(net), env, 0, r) == Fell(r')
    ensures Meets(env, Any, r') && r'.r6 == Some(env.data + net + 4 * (env.pkt[net] % 16))
  {
    var first, v, hl := AbsLoad(SizeB, net) + OpsFrag(HEADER_OPS), Vm.SizedLoad(env.pkt, net, SizeB), 4 * (env.pkt[net] % 16);
    AbsLoads(env, SizeB, net, Any);
    OpsLoad(env, AbsLoad(SizeB, net), Any, v, HEADER_OPS);
    HeaderOps(v.value);
    LoadThen(env, first, PointFrag(net), Any, ThenOps(v, HEADER_OPS), r);
    var r1 := Run(first, env, 0, r).r;
    PointRuns(env, env.data, net, hl, r1);
    assert WellFormed(PointFrag(net));
    r' := r1.(r6 := Some(env.data + net + hl));
  }

  lemma {:induction false} TransCrashes(env: Env, net: nat, size: Size, off: nat, r: Regs, r1: Regs, r2: Regs)
    requires WellFormed(Before4(net)) && Run(Before4(net), env, 0, r) == Fell(r1)
    requires Run(BoundFrag(R6, off + Bytes(size)), env, 0, r1) == Fell(r2) && Run(LoadFrag(R6, size, off), env, 0, r2).Crashed?
    ensures Run(TransLoad(net, size, off), env, 0, r).Crashed?
  {
    var bound, load := BoundFrag(R6, off + Bytes(size)), LoadFrag(R6, size, off);
    assert WellFormed(bound);
    assert TransLoad(net, size, off) == Before4(net) + (bound + load);
    RunAppend(Before4(net), bound + load, env, r);
    RunAppend(bound, load, env, r1);
  }

  lemma {:induction false} NegativeTransCrashes(net: nat, size: Size, off: nat) returns (env: Env, r: Regs)
    requires net <= 100 && off + Bytes(size) < 0x8000_0000 && net + AsI16(off) < 0
    ensures Sensible(env) && Meets(env, Any, r) && Run(TransLoad(net, size, off), env, 0, r).Crashed?
  {
    var end := off + Bytes(size);
    env := Env(seq(net + end, _ => 0), U32_SIZE, true);
    r := Entered(env);
    var r1 := Before4Runs(env, net, r);
    var a := env.data + net;
    CutOffset(off);
    BoundRuns(env, R6, a, end, r1);
    var r2 := r1.(r5 := Some(a + end));
    AddOffset(a, AsI16(off));
    LoadCrashes(env, R6, a, size, off, r2);
    TransCrashes(env, net, size, off, r, r1, r2);
  }

  /** A short packet whose header length points far behind its end. */
  lemma {:induction false} WrappedTransCrashes(net: nat, size: Size, off: nat) returns (env: Env, r: Regs)
    requires net <= 100 && off < 0x8000_0000 <= off + Bytes(size)
    ensures Sensible(env) && Meets(env, Any, r) && Run(TransLoad(net, size, off), env, 0, r).Crashed?
  {
    var end := off + Bytes(size);
    env := Env(seq(net + 1, _ => 15), U32_SIZE, true);
    r := Entered(env);
    var r1 := Before4Runs(env, net, r);
    var a := env.data + net + 60;
    BoundWraps(env, R6, a, end, r1);
    var r2 := r1.(r5 := Some(a + end - U32_SIZE));
    TopOffsets(off);
    AddOffset(a, AsI16(off));
    LoadCrashes(env, R6, a, size, off, r2);
    TransCrashes(env, net, size, off, r, r1, r2);
  }

  lemma TopOffsets(off: nat)
    requires 0x8000_0000 - 4 <= off < 0x8000_0000
    ensures -4 <= AsI16(off) < 0
  {
  }

  lemma {:induction false} TransLoads(env: Env, net: nat, l: ByteLoad)
    requires Sensible(env) && net <= 100 && SafeLoad(net, l.offset, l.size)
    ensures Loads(env, TransLoad(net, l.size, l.offset), Any, TransValue(env, net, l))
  {
    var end, t := l.offset + Bytes(l.size), Behind4(env, net);
    var p, load, v := Pointer4(net, end), LoadFrag(R6, l.size, l.offset), TransValue(env, net, l);
    Pointer4Decides(env, net, end);
    var ok := t.Some? && t.value + end <= |env.pkt|;
    if ok { SixLoads(env, t.value, l.size, l.offset); }
    assert WellFormed(load);
    RunAppend(p, load, env, NO_REGS);
    forall r: Regs | Meets(env, Any, r) ensures LoadsWell(Run(p + load, env, 0, r), env, Any, v) {
      RunAppend(p, load, env, r);
      var o := Run(p, env, 0, r);
      assert LeavesWell(o, env, Any, ok, Six4(env, net));
      NoSuccNeverSucceeds(p, env, 0, r);
      if ok { assert LoadsWell(Run(load, env, 0, o.r), env, Six4(env, net), v); }
    }
  }

  lemma {:induction false} NoSuccNeverSucceeds(f: Frag, env: Env, pc: nat, r: Regs)
    requires NoSucc(f)
    ensures !Run(f, env, pc, r).Succeeded?
    decreases |f| - pc
  {
    if pc < |f| {
      if f[pc].Plain? {
        var r' := Step(f[pc].i, env, r);
        if r'.Some? { NoSuccNeverSucceeds(f, env, pc + 1, r'.value); }
      } else {
        var b := Taken(f[pc].t, r);
        if b.Some? {
          var to := if b.value then f[pc].to else Rel(0);
          if to.Rel? { NoSuccNeverSucceeds(f, env, pc + 1 + to.off, r); }
        }
      }
    }
  }

  lemma {:induction false} UnsafeTransCrashes(net: nat, l: ByteLoad) returns (env: Env, r: Regs)
    requires net <= 100 && !SafeLoad(net, l.offset, l.size)
    ensures Sensible(env) && Meets(env, Any, r) && Run(TransLoad(net, l.size, l.offset), env, 0, r).Crashed?
  {
    if l.offset + Bytes(l.size) < 0x8000_0000 {
      env, r := NegativeTransCrashes(net, l.size, l.offset);
    } else {
      env, r := WrappedTransCrashes(net, l.size, l.offset);
    }
  }

  /** A transport load never leaves any packet if and only if its end is below
      2^31 and its cut offset does not reach in front of the link header. */
  lemma {:induction false} TransSafeExactly(net: nat, l: ByteLoad)
    requires net <= 100
    ensures NeverCrashes(TransLoad(net, l.size, l.offset)) <==>
            l.offset + Bytes(l.size) < 0x8000_0000 && net + AsI16(l.offset) >= 0
  {
    if SafeLoad(net, l.offset, l.size) {
      forall env, r | Sensible(env) && Meets(env, Any, r) ensures !Run(TransLoad(net, l.size, l.offset), env, 0, r).Crashed? {
        TransLoads(env, net, l);
      }
    } else {
      var env, r := UnsafeTransCrashes(net, l);
    }
  }

  ghost predicate TransAlwaysRight(net: nat, l: ByteLoad) {
    forall env :: Sensible(env) ==>
      Loads(env, TransLoad(net, l.size, l.offset), Any, Read(Behind(Off(net), l.size, Off(net + l.offset)), env.pkt))
  }

  lemma {:induction false} NearTransRight(net: nat, l: ByteLoad, env: Env)
    requires Sensible(env) && net <= 100 && l.offset <= 0x7fff
    ensures Loads(env, TransLoad(net, l.size, l.offset), Any, Read(Behind(Off(net), l.size, Off(net + l.offset)), env.pkt))
  {
    CutOffset(l.offset);
    TransLoads(env, net, l);
    TransField(env, net, l.offset, l.size);
    var t := Behind4(env, net);
    if t.Some? { NearLoaded(env.pkt, t.value, l.offset, l.size); }
  }

  function MarkedEnv(net: nat, l: ByteLoad): Env { Env(Marked(net + l.offset, net + l.offset + Bytes(l.size)), 0, true) }

  /** In a marked packet the IPv4 header length is zero. */
  lemma MarkedHeader(net: nat, l: ByteLoad)
    requires net <= 100 && 0x7fff < l.offset && l.offset + Bytes(l.size) < 0x8000_0000
    ensures Sensible(MarkedEnv(net, l)) && Behind4(MarkedEnv(net, l), net) == Some(net)
  {
    var pkt := MarkedEnv(net, l).pkt;
    assert pkt[net] == 0;
  }

  lemma FarCutAny(k: nat)
    requires k > 0x7fff
    ensures AsI16(k) + 4 <= k
  {
    CutOffset(k);
    if AsI16(k) >= 0 { FarCut(k); }
  }

  /** Both positions in the marked packet: the loaded one and the written one. */
  lemma {:induction false} FarTransLoads(net: nat, l: ByteLoad)
    requires net <= 100 && SafeLoad(net, l.offset, l.size) && l.offset > 0x7fff
    ensures var pkt, k, x := MarkedEnv(net, l).pkt, net + l.offset, net + AsI16(l.offset);
            && 0 <= x < U32_SIZE && |pkt| == k + Bytes(l.size)
            && Vm.SizedLoad(pkt, x, l.size) == Some(0) && Vm.SizedLoad(pkt, k, l.size) != Some(0)
  {
    FarCutAny(l.offset);
    MarkedLoads(net + l.offset, l.size, net + AsI16(l.offset));
  }

  lemma TransValueIs(env: Env, net: nat, l: ByteLoad)
    requires Sensible(env) && Behind4(env, net) == Some(net) && |env.pkt| == net + l.offset + Bytes(l.size)
    requires 0 <= net + AsI16(l.offset) < U32_SIZE
    ensures TransValue(env, net, l) == Vm.SizedLoad(env.pkt, net + AsI16(l.offset), l.size)
  {
  }

  lemma {:induction false} FarTransValue(net: nat, l: ByteLoad)
    requires net <= 100 && SafeLoad(net, l.offset, l.size) && l.offset > 0x7fff
    ensures var env := MarkedEnv(net, l); Sensible(env) && TransValue(env, net, l) == Some(0)
  {
    MarkedHeader(net, l);
    FarTransLoads(net, l);
    TransValueIs(MarkedEnv(net, l), net, l);
  }

  lemma {:induction false} FarTransRead(net: nat, l: ByteLoad)
    requires net <= 100 && SafeLoad(net, l.offset, l.size) && l.offset > 0x7fff
    ensures Read(Behind(Off(net), l.size, Off(net + l.offset)), MarkedEnv(net, l).pkt) != Some(0)
  {
    MarkedHeader(net, l);
    FarTransLoads(net, l);
    TransField(MarkedEnv(net, l), net, l.offset, l.size);
  }

  lemma {:induction false} FarTransIsWrong(net: nat, l: ByteLoad)
    requires net <= 100 && SafeLoad(net, l.offset, l.size) && l.offset > 0x7fff
    ensures !TransAlwaysRight(net, l)
  {
    var env := MarkedEnv(net, l);
    FarTransValue(net, l);
    FarTransRead(net, l);
    TransLoads(env, net, l);
    LoadsOnlyThat(env, TransLoad(net, l.size, l.offset), TransValue(env, net, l),
                  Read(Behind(Off(net), l.size, Off(net + l.offset)), env.pkt));
  }

  lemma {:induction false} LoadsOnlyThat(env: Env, code: Frag, v: Option<u32>, w: Option<u32>)
    requires Sensible(env) && Loads(env, code, Any, v) && v != w
    ensures !Loads(env, code, Any, w)
  {
    if Loads(env, code, Any, w) { LoadsOnce(env, code, v, w); }
  }

  /** A transport load is right on every packet if and only if its offset is at
      most 32767. */
  lemma {:induction false} TransRightExactly(net: nat, l: ByteLoad)
    requires net <= 100
    ensures TransAlwaysRight(net, l) <==> l.offset <= 0x7fff
  {
    if l.offset <= 0x7fff {
      forall env | Sensible(env)
        ensures Loads(env, TransLoad(net, l.size, l.offset), Any, Read(Behind(Off(net), l.size, Off(net + l.offset)), env.pkt))
      {
        NearTransRight(net, l, env);
      }
    } else if SafeLoad(net, l.offset, l.size) {
      FarTransIsWrong(net, l);
    } else {
      var env, r := UnsafeTransCrashes(net, l);
      CrashLoadsNothing(env, TransLoad(net, l.size, l.offset), Read(Behind(Off(net), l.size, Off(net + l.offset)), env.pkt), r);
    }
  }

  // ----- whole programs -----

  /** `ether[k] = v`. */
  function EtherByte(k: AccessOffset, v: u32): Expr { Prim(Access(ByteAccess(ByteLoad(Raw, k, SizeB), [], Eq, Const(v)))) }

  lemma {:induction false} EtherByteCompiles(k: AccessOffset, v: u32, link: LinkType)
    ensures EmitExpr(EtherByte(k, v), Untagged(link)) == Ok(AbsLoad(SizeB, k) + (OpsFrag([]) + CmpFrag(Eq, v)))
    ensures WellFormed(AbsLoad(SizeB, k) + (OpsFrag([]) + CmpFrag(Eq, v)))
    ensures Compile(EtherByte(k, v), link).Ok?
  {
    var f := AbsLoad(SizeB, k) + (OpsFrag([]) + CmpFrag(Eq, v));
    TestForm(AbsLoad(SizeB, k), [], Eq, v);
    ShortLinks(f);
  }

  /** The whole program crashes where its load does. */
  lemma {:induction false} EtherByteCrashes(k: AccessOffset, v: u32, link: LinkType, env: Env)
    requires Sensible(env) && Run(AbsLoad(SizeB, k), env, 0, Entered(env)).Crashed?
    ensures Compile(EtherByte(k, v), link).Ok?
    ensures Exec(Compile(EtherByte(k, v), link).value, env, 0, NO_REGS) == Crash
  {
    var test := OpsFrag([]) + CmpFrag(Eq, v);
    var f := AbsLoad(SizeB, k) + test;
    EtherByteCompiles(k, v, link);
    CompileFinishes(EtherByte(k, v), link);
    assert WellFormed(AbsLoad(SizeB, k));
    RunAppend(AbsLoad(SizeB, k), test, env, Entered(env));
    BodyStarts(Compile(EtherByte(k, v), link).value, f, env);
  }

  /** `ether[2147483647] = 0` reads the byte in front of a 60-byte packet. */
  lemma TopByteCrashes(k: AccessOffset, link: LinkType, little: bool)
    requires k == 2147483647
    ensures Compile(EtherByte(k, 0), link).Ok?
    ensures Exec(Compile(EtherByte(k, 0), link).value, Env(seq(60, _ => 0), U32_SIZE, little), 0, NO_REGS) == Crash
  {
    var env := Env(seq(60, _ => 0), U32_SIZE, little);
    TopOffsets(k);
    WrappedCheckCrashes(env, SizeB, k, Entered(env));
    EtherByteCrashes(k, 0, link, env);
  }

  /** `ether[40000] = 0` reads in front of a packet of 40001 bytes. */
  lemma FarByteCrashes(k: AccessOffset, link: LinkType, little: bool)
    requires k == 40000
    ensures Compile(EtherByte(k, 0), link).Ok?
    ensures Exec(Compile(EtherByte(k, 0), link).value, Env(seq(40001, _ => 0), U32_SIZE, little), 0, NO_REGS) == Crash
  {
    var env := Env(seq(40001, _ => 0), U32_SIZE, little);
    assert AsI16(k) == -25536;
    NegativeOffsetCrashes(env, SizeB, k, Entered(env));
    EtherByteCrashes(k, 0, link, env);
  }

  /** `ether[65536] = 1` looks at byte 0: it drops a packet whose byte 65536 is 1. */
  lemma WrappedByteIsWrong(k: AccessOffset, link: LinkType, little: bool)
    requires k == 0x1_0000
    ensures var env := Env(Marked(k, k + 1), U32_SIZE, little);
            && Compile(EtherByte(k, 1), link).Ok? && env.pkt[k] == 1
            && Exec(Compile(EtherByte(k, 1), link).value, env, 0, NO_REGS) == Returned(XDP_DROP)
  {
    var env, e, lay := Env(Marked(k, k + 1), U32_SIZE, little), EtherByte(k, 1), Untagged(link);
    assert AsI16(k) == 0;
    EtherByteCompiles(k, 1, link);
    CompiledExact(e, link, env);
    var f, g := Abs(SizeB, k), Abs(SizeB, 0);
    AccessMeaning(f, g, Some(0), [], Eq, 1, env.pkt);
    assert PrimCompiled(lay, e.p) == Both(ReadableWord(f), Compare(g, [], Eq, Literal(1)));
  }
}
