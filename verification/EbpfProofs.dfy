// Emitted eBPF code never reads an unwritten register or memory outside the
// packet, and decides its test on every packet and either byte order.

module EbpfProofs {
  import opened Words
  import opened Results
  import opened Bpf
  import opened Ast
  import opened Meaning
  import opened Lengths
  import opened EbpfVm
  import opened EbpfCode
  import opened EbpfEmit
  import Integers
  import Vm

  /** What a piece of code may rely on in R6. */
  datatype Need = Any | Six(v: u64)

  /** The packet pointers are in place, and R6 is as needed. */
  predicate Meets(env: Env, n: Need, r: Regs) {
    r.r2 == Some(env.data) && r.r3 == Some(End(env)) && (n.Six? ==> r.r6 == Some(n.v))
  }

  predicate LeavesWell(o: EbpfCode.Exit, env: Env, n: Need, b: bool, m: Need) {
    !o.Crashed? && Meets(env, n, o.r) && (o.Failed? <==> !b) && (b ==> Meets(env, m, o.r))
  }

  /** The code never crashes, fails exactly when `b` is false, keeps what it
      relied on and establishes `m` on success. */
  ghost predicate Decides(env: Env, code: Frag, n: Need, b: bool, m: Need) {
    WellFormed(code) && forall r: Regs {:trigger Run(code, env, 0, r)} :: Meets(env, n, r) ==> LeavesWell(Run(code, env, 0, r), env, n, b, m)
  }

  /** The code puts `v` into R4 and falls through, or fails if there is none. */
  predicate LoadsWell(o: EbpfCode.Exit, env: Env, n: Need, v: Option<u32>) {
    && (if v.Some? then o.Fell? && o.r.r4 == Some(v.value as nat) else o.Failed?)
    && Meets(env, n, o.r)
  }

  ghost predicate Loads(env: Env, code: Frag, n: Need, v: Option<u32>) {
    WellFormed(code) && forall r: Regs {:trigger Run(code, env, 0, r)} :: Meets(env, n, r) ==> LoadsWell(Run(code, env, 0, r), env, n, v)
  }

  // ----- connectives -----

  lemma {:induction false} AndDecides(env: Env, f: Frag, g: Frag, n: Need, a: bool, m: Need, b: bool, k: Need)
    requires Decides(env, f, n, a, m) && WellFormed(g) && (a ==> Decides(env, g, m, b, k))
    requires m == n || n == Any
    ensures Decides(env, AndFrag(f, g), n, a && b, k)
  {
    RunAnd(f, g, env, NO_REGS);
    forall r: Regs | Meets(env, n, r) ensures LeavesWell(Run(AndFrag(f, g), env, 0, r), env, n, a && b, k) {
      RunAnd(f, g, env, r);
      assert LeavesWell(Run(f, env, 0, r), env, n, a, m);
      if a { assert LeavesWell(Run(g, env, 0, Run(f, env, 0, r).r), env, m, b, k); }
    }
  }

  lemma {:induction false} OrLeaves(env: Env, f: Frag, g: Frag, n: Need, a: bool, b: bool, r: Regs)
    requires Decides(env, f, n, a, n) && Decides(env, g, n, b, n) && Meets(env, n, r)
    ensures LeavesWell(Run(OrFrag(f, g), env, 0, r), env, n, a || b, n)
  {
    RunOr(f, g, env, r);
    var o := Run(f, env, 0, r);
    assert LeavesWell(o, env, n, a, n);
    if o.Failed? { assert LeavesWell(Run(g, env, 0, o.r), env, n, b, n); }
  }

  lemma {:induction false} OrDecides(env: Env, f: Frag, g: Frag, n: Need, a: bool, b: bool)
    requires Decides(env, f, n, a, n) && Decides(env, g, n, b, n)
    ensures Decides(env, OrFrag(f, g), n, a || b, n)
  {
    RunOr(f, g, env, NO_REGS);
    forall r: Regs | Meets(env, n, r) ensures LeavesWell(Run(OrFrag(f, g), env, 0, r), env, n, a || b, n) {
      OrLeaves(env, f, g, n, a, b, r);
    }
  }

  lemma {:induction false} NotDecides(env: Env, f: Frag, a: bool)
    requires Decides(env, f, Any, a, Any)
    ensures Decides(env, NotFrag(f), Any, !a, Any)
  {
    RunNot(f, env, NO_REGS);
    forall r: Regs | Meets(env, Any, r) ensures LeavesWell(Run(NotFrag(f), env, 0, r), env, Any, !a, Any) {
      RunNot(f, env, r);
      assert LeavesWell(Run(f, env, 0, r), env, Any, a, Any);
    }
  }

  /** No jump waits for success. */
  predicate NoSucc(f: Frag) { forall i :: 0 <= i < |f| && f[i].Branch? ==> f[i].to != ToSucc }

  lemma {:induction false} ThenDecides(env: Env, f: Frag, g: Frag, n: Need, a: bool, m: Need, b: bool, k: Need)
    requires Decides(env, f, n, a, m) && NoSucc(f) && WellFormed(g) && (a ==> Decides(env, g, m, b, k))
    requires m == n || n == Any
    ensures Decides(env, f + g, n, a && b, k)
    ensures NoSucc(g) ==> NoSucc(f + g)
  {
    assert Link(f, At(|f|), Pending(ToFail)) == f;
    AndDecides(env, f, g, n, a, m, b, k);
  }

  /** A load, then code that uses it. */
  lemma {:induction false} LoadThen(env: Env, f: Frag, g: Frag, n: Need, v: Option<u32>, r: Regs)
    requires Loads(env, f, n, v) && Meets(env, n, r)
    ensures var o := Run(f, env, 0, r);
            && LoadsWell(o, env, n, v)
            && Run(f + g, env, 0, r) == (if v.Some? then Run(g, env, 0, o.r) else o)
    ensures WellFormed(g) ==> WellFormed(f + g)
  {
    RunAppend(f, g, env, r);
    assert LoadsWell(Run(f, env, 0, r), env, n, v);
  }

  // ----- single instructions -----

  lemma RunPlain(i: EbpfVm.Insn, rest: Frag, env: Env, r: Regs)
    ensures Run([Plain(i)] + rest, env, 0, r) == var r' := Step(i, env, r); if r'.None? then Crashed else Run(rest, env, 0, r'.value)
  {
    var r' := Step(i, env, r);
    if r'.Some? { RunBehind([Plain(i)], rest, env, 0, r'.value); }
  }

  lemma RunBranch(t: Test, to: Target, rest: Frag, env: Env, r: Regs)
    ensures Run([Branch(t, to)] + rest, env, 0, r) ==
            var b := Taken(t, r);
            if b.None? then Crashed
            else if !b.value then Run(rest, env, 0, r)
            else match to
              case Rel(off) => Run(rest, env, off, r)
              case ToSucc => Succeeded(r)
              case ToFail => Failed(r)
  {
    var b := Taken(t, r);
    if b.Some? {
      if !b.value { RunBehind([Branch(t, to)], rest, env, 0, r); }
      else if to.Rel? { RunBehind([Branch(t, to)], rest, env, to.off, r); }
    }
  }

  lemma RunNothing(env: Env, r: Regs)
    ensures Run([], env, 0, r) == Fell(r)
  {
  }

  // ----- bounds and loads -----

  lemma AddSmall(a: u64, k: nat)
    requires k < 0x8000_0000 && a + k < U64_SIZE
    ensures Off(k) == k && Add64(a, SignExtend(k)) == a + k && Add64(a, k) == a + k
  {
  }

  lemma {:induction false} BoundRuns(env: Env, base: Reg, a: u64, end: nat, r: Regs)
    requires r.r3 == Some(End(env)) && Get(r, base) == Some(a) && end < 0x8000_0000 && a + end < U64_SIZE
    ensures var r' := r.(r5 := Some(a + end));
            Run(BoundFrag(base, end), env, 0, r) == if a + end > End(env) then Failed(r') else Fell(r')
    ensures WellFormed(BoundFrag(base, end)) && NoSucc(BoundFrag(base, end))
  {
    AddSmall(a, end);
    var i, j, k := Plain(Mov(R5, base)), Plain(AddImm(R5, Off(end))), Branch(RegGt(R5, R3), ToFail);
    var r1 := r.(r5 := Some(a));
    var r2 := r.(r5 := Some(a + end));
    assert BoundFrag(base, end) == [i] + ([j] + ([k] + []));
    RunPlain(i.i, [j] + ([k] + []), env, r);
    RunPlain(j.i, [k] + [], env, r1);
    RunBranch(k.t, k.to, [], env, r2);
    RunNothing(env, r2);
  }

  /** A load at offset `k` from a register that points at least `base` bytes
      into the packet: the bounds check does not wrap and the 16-bit offset does
      not lead in front of the packet. */
  predicate SafeLoad(base: nat, k: nat, size: Size) { k + Bytes(size) < 0x8000_0000 && base + AsI16(k) >= 0 }

  lemma CutOffset(k: nat)
    ensures -0x8000 <= AsI16(k) <= k && AsI16(k) < 0x8000 && (AsI16(k) == k <==> k <= 0x7fff)
  {
    if k >= 0x1_0000 { assert k == 0x1_0000 * (k / 0x1_0000) + k % 0x1_0000; }
  }

  lemma AddOffset(a: u64, x: int)
    requires 0 <= a + x < U64_SIZE
    ensures Add64(a, x) == a + x
  {
  }

  lemma LdxStep(env: Env, base: Reg, a: u64, size: Size, x: int, r: Regs)
    requires Sensible(env) && Get(r, base) == Some(a) && env.data <= a + x && a + x + Bytes(size) <= End(env)
    ensures Step(Ldx(size, R4, base, x), env, r) == Some(r.(r4 := Some(HostLoad(env, a + x - env.data, size))))
  {
    AddOffset(a, x);
  }

  lemma {:induction false} LdxRuns(env: Env, base: Reg, a: u64, size: Size, off: nat, x: int, r: Regs)
    requires Sensible(env) && Get(r, base) == Some(a) && x == AsI16(off)
    requires env.data <= a + x && a + x + Bytes(size) <= End(env)
    ensures var at := a + x - env.data;
            Run(LoadFrag(base, size, off), env, 0, r) == Fell(r.(r4 := Some(Swap(env, HostLoad(env, at, size), size))))
  {
    var i, raw := Ldx(size, R4, base, x), HostLoad(env, a + x - env.data, size);
    LdxStep(env, base, a, size, x, r);
    var r1 := r.(r4 := Some(raw));
    if size.SizeB? {
      assert LoadFrag(base, size, off) == [Plain(i)] + [];
      RunPlain(i, [], env, r);
      RunNothing(env, r1);
      assert raw % 0x100 == raw;
    } else {
      var j := ToBe(R4, size);
      assert LoadFrag(base, size, off) == [Plain(i)] + ([Plain(j)] + []);
      RunPlain(i, [Plain(j)] + [], env, r);
      RunPlain(j, [], env, r1);
      RunNothing(env, r.(r4 := Some(Swap(env, raw, size))));
    }
  }

  lemma {:induction false} LoadRuns(env: Env, base: Reg, a: u64, size: Size, off: nat, r: Regs)
    requires Sensible(env) && Get(r, base) == Some(a)
    requires env.data <= a + AsI16(off) && a + AsI16(off) + Bytes(size) <= End(env)
    ensures var v := Vm.SizedLoad(env.pkt, a - env.data + AsI16(off), size);
            v.Some? && Run(LoadFrag(base, size, off), env, 0, r) == Fell(r.(r4 := Some(v.value)))
    ensures WellFormed(LoadFrag(base, size, off)) && NoSucc(LoadFrag(base, size, off))
  {
    LdxRuns(env, base, a, size, off, AsI16(off), r);
    LoadThenSwap(env, a + AsI16(off) - env.data, size);
  }

  /** What a bounds-checked load at offset `k` from packet position `at` yields. */
  function LoadedAt(pkt: Packet, at: nat, k: nat, size: Size): Option<u32>
    requires |pkt| < U32_SIZE && at + AsI16(k) >= 0
  {
    if at + k + Bytes(size) > |pkt| then None
    else
      CutOffset(k);
      Vm.SizedLoad(pkt, at + AsI16(k), size)
  }

  lemma NearLoaded(pkt: Packet, at: nat, k: nat, size: Size)
    requires |pkt| < U32_SIZE && k <= 0x7fff && at + k < U32_SIZE
    ensures at + AsI16(k) >= 0 && LoadedAt(pkt, at, k, size) == Vm.SizedLoad(pkt, at + k, size)
  {
    CutOffset(k);
  }

  lemma {:induction false} FarLoads(env: Env, size: Size, k: nat, n: Need)
    requires Sensible(env) && SafeLoad(0, k, size)
    ensures Loads(env, AbsLoad(size, k), n, LoadedAt(env.pkt, 0, k, size)) && NoSucc(AbsLoad(size, k))
  {
    var end := k + Bytes(size);
    var bound, load := BoundFrag(R2, end), LoadFrag(R2, size, k);
    CutOffset(k);
    assert WellFormed(bound) && WellFormed(load);
    RunAppend(bound, load, env, NO_REGS);
    forall r: Regs | Meets(env, n, r)
      ensures LoadsWell(Run(AbsLoad(size, k), env, 0, r), env, n, LoadedAt(env.pkt, 0, k, size))
    {
      RunAppend(bound, load, env, r);
      BoundRuns(env, R2, env.data, end, r);
      if env.data + end <= End(env) { LoadRuns(env, R2, env.data, size, k, r.(r5 := Some(env.data + end))); }
    }
  }

  lemma {:induction false} AbsLoads(env: Env, size: Size, k: u32, n: Need)
    requires Sensible(env) && k <= 0x7fff
    ensures Loads(env, AbsLoad(size, k), n, Vm.SizedLoad(env.pkt, k, size)) && NoSucc(AbsLoad(size, k))
  {
    CutOffset(k);
    FarLoads(env, size, k, n);
    NearLoaded(env.pkt, 0, k, size);
  }

  // ----- arithmetic and comparison -----

  lemma {:induction false} OpsRun(env: Env, ops: Ops, v: u32, r: Regs)
    requires r.r4 == Some(v as nat) && Apply(ops, v).Some?
    ensures Run(OpsFrag(ops), env, 0, r) == Fell(r.(r4 := Some(Apply(ops, v).value)))
    decreases |ops|
  {
    if ops == [] {
      RunNothing(env, r);
    } else {
      var i := Alu32(ops[0].0, R4, ops[0].1);
      var w := Vm.AluResult(ops[0].0, v, ops[0].1).value;
      assert OpsFrag(ops) == [Plain(i)] + OpsFrag(ops[1..]);
      assert v % U32_SIZE == v;
      RunPlain(i, OpsFrag(ops[1..]), env, r);
      OpsRun(env, ops[1..], w, r.(r4 := Some(w)));
    }
  }

  function ThenOps(v: Option<u32>, ops: Ops): Option<u32> { if v.None? then None else Apply(ops, v.value) }

  lemma {:induction false} OpsLoad(env: Env, code: Frag, n: Need, v: Option<u32>, ops: Ops)
    requires Loads(env, code, n, v) && OpsDefined(ops)
    ensures Loads(env, code + OpsFrag(ops), n, ThenOps(v, ops))
    ensures NoSucc(code) ==> NoSucc(code + OpsFrag(ops))
  {
    RunAppend(code, OpsFrag(ops), env, NO_REGS);
    if v.Some? { DefinedApplies(ops, v.value); }
    forall r: Regs | Meets(env, n, r) ensures LoadsWell(Run(code + OpsFrag(ops), env, 0, r), env, n, ThenOps(v, ops)) {
      LoadThen(env, code, OpsFrag(ops), n, v, r);
      if v.Some? { OpsRun(env, ops, v.value, Run(code, env, 0, r).r); }
    }
  }

  /** Bits 32 to 63 of a 32-bit value are clear, so sign extension of the mask
      does not matter. */
  lemma {:induction false} WideBits(a: nat, b: nat, n: nat, m: nat)
    requires a < Pow2(n)
    ensures Bitwise(AndBits, a, b, n + m) == Bitwise(AndBits, a, b, n)
    decreases n + m
  {
    if n > 0 {
      WideBits(a / 2, b / 2, n - 1, m);
    } else if m > 0 {
      WideBits(a / 2, b / 2, 0, m - 1);
    }
  }

  lemma {:induction false} SameLowBits(a: nat, b: nat, c: nat, n: nat)
    requires b % Pow2(n) == c % Pow2(n)
    ensures Bitwise(AndBits, a, b, n) == Bitwise(AndBits, a, c, n)
  {
    if n > 0 {
      var p := Pow2(n - 1);
      HalfMod(b, p);
      HalfMod(c, p);
      SameLowBits(a / 2, b / 2, c / 2, n - 1);
    }
  }

  lemma HalfMod(a: nat, p: nat)
    requires p > 0
    ensures (a % (2 * p)) / 2 == (a / 2) % p && (a % (2 * p)) % 2 == a % 2
  {
    Integers.HalfMod(a, p);
  }

  lemma AnyBitIsNarrow(a: u32, v: u32)
    ensures Bitwise(AndBits, a, SignExtend(v), 64) == BitAnd(a, v)
  {
    Pow2Of32();
    WideBits(a, SignExtend(v), 32, 32);
    assert SignExtend(v) % Pow2(32) == v % Pow2(32);
    SameLowBits(a, SignExtend(v), v, 32);
  }

  /** One conditional jump to failure. */
  lemma {:induction false} FailRuns(env: Env, t: Test, r: Regs)
    requires Taken(t, r).Some?
    ensures Run([Branch(t, ToFail)], env, 0, r) == if Taken(t, r).value then Failed(r) else Fell(r)
  {
    var f := [Branch(t, ToFail)];
    assert f == f + [];
    RunBranch(t, ToFail, [], env, r);
    RunNothing(env, r);
  }

  lemma {:induction false} AnyBitRuns(env: Env, k: u32, v: u32, r: Regs)
    requires r.r4 == Some(v as nat)
    ensures Run(CmpFrag(AnyBit, k), env, 0, r) == if CompareAs(AnyBit, v, k, true) then Fell(r) else Failed(r)
  {
    AnyBitIsNarrow(v, k);
    var t, fail := Imm(EbpfVm.Jset, R4, k), [Goto(ToFail)];
    assert CmpFrag(AnyBit, k) == [Branch(t, Rel(1))] + fail;
    RunBranch(t, Rel(1), fail, env, r);
    FailRuns(env, Always, r);
  }

  lemma {:induction false} CmpRuns(env: Env, op: CmpOp, k: u32, v: u32, r: Regs)
    requires r.r4 == Some(v as nat)
    ensures Run(CmpFrag(op, k), env, 0, r) == if CompareAs(op, v, k, true) then Fell(r) else Failed(r)
    ensures WellFormed(CmpFrag(op, k)) && NoSucc(CmpFrag(op, k))
  {
    if op.AnyBit? { AnyBitRuns(env, k, v, r); } else { FailRuns(env, CmpFrag(op, k)[0].t, r); }
  }

  lemma {:induction false} CmpDecides(env: Env, code: Frag, n: Need, v: Option<u32>, op: CmpOp, k: u32)
    requires Loads(env, code, n, v)
    ensures Decides(env, code + CmpFrag(op, k), n, v.Some? && CompareAs(op, v.value, k, true), n)
    ensures NoSucc(code) ==> NoSucc(code + CmpFrag(op, k))
  {
    var g, b := CmpFrag(op, k), v.Some? && CompareAs(op, v.value, k, true);
    assert WellFormed(g) && NoSucc(g);
    RunAppend(code, g, env, NO_REGS);
    forall r: Regs | Meets(env, n, r) ensures LeavesWell(Run(code + g, env, 0, r), env, n, b, n) {
      LoadThen(env, code, g, n, v, r);
      if v.Some? { CmpRuns(env, op, k, v.value, Run(code, env, 0, r).r); }
    }
  }

  /** A check that lies within reach of a 16-bit offset. */
  predicate Reachable(c: Check) { c.k <= 0x7fff && OpsDefined(c.ops) }

  lemma {:induction false} FetchLoads(env: Env, c: Check, n: Need)
    requires Sensible(env) && Reachable(c)
    ensures Loads(env, Fetch(c), n, ReadThen(Abs(c.size, c.k), c.ops, env.pkt)) && NoSucc(Fetch(c))
  {
    AbsLoads(env, c.size, c.k, n);
    OpsLoad(env, AbsLoad(c.size, c.k), n, Vm.SizedLoad(env.pkt, c.k, c.size), c.ops);
  }

  lemma {:induction false} CheckDecides(env: Env, c: Check, n: Need)
    requires Sensible(env) && Reachable(c)
    ensures Decides(env, CheckFrag(c), n, Holds(CheckFormula(c), env.pkt, true), n) && NoSucc(CheckFrag(c))
  {
    FetchLoads(env, c, n);
    CmpDecides(env, Fetch(c), n, ReadThen(Abs(c.size, c.k), c.ops, env.pkt), c.op, c.v);
  }

  predicate AllReachable(cs: seq<Check>) { forall i :: 0 <= i < |cs| ==> Reachable(cs[i]) }

  lemma NothingDecides(env: Env, n: Need)
    ensures Decides(env, [], n, true, n) && NoSucc([])
  {
  }

  lemma {:induction false} ChecksDecide(env: Env, cs: seq<Check>)
    requires Sensible(env) && AllReachable(cs)
    ensures Decides(env, ChecksFrag(cs), Any, Holds(All(cs), env.pkt, true), Any) && NoSucc(ChecksFrag(cs))
  {
    if cs == [] {
      NothingDecides(env, Any);
    } else {
      assert Reachable(cs[0]);
      CheckDecides(env, cs[0], Any);
      ChecksDecide(env, cs[1..]);
      ThenDecides(env, CheckFrag(cs[0]), ChecksFrag(cs[1..]), Any, Holds(CheckFormula(cs[0]), env.pkt, true), Any,
                  Holds(All(cs[1..]), env.pkt, true), Any);
    }
  }

  // ----- addresses by direction -----

  lemma {:induction false} SuccessRuns(env: Env, k: u32, v: u32, r: Regs)
    requires r.r4 == Some(v as nat)
    ensures Run(SuccessFrag(k), env, 0, r) == if v == SignExtend(k) then Succeeded(r) else Fell(r)
  {
    assert SuccessFrag(k) == SuccessFrag(k) + [];
    RunBranch(Imm(EbpfVm.Jeq, R4, k), ToSucc, [], env, r);
    RunNothing(env, r);
  }

  /** A load whose match leaves for success, and other code behind it. A load
      out of bounds fails at once, so the other code must need no less. */
  lemma {:induction false} EarlySuccess(env: Env, code: Frag, n: Need, v: Option<u32>, k: u32, g: Frag, b: bool)
    requires Loads(env, code, n, v) && Decides(env, g, n, b, n) && (v.None? ==> !b)
    ensures Decides(env, code + SuccessFrag(k) + g, n, (v.Some? && v.value == SignExtend(k)) || b, n)
  {
    var s, rest := SuccessFrag(k), SuccessFrag(k) + g;
    var a := v.Some? && v.value == SignExtend(k);
    assert code + s + g == code + rest;
    assert WellFormed(s);
    RunAppend(s, g, env, NO_REGS);
    RunAppend(code, rest, env, NO_REGS);
    forall r: Regs | Meets(env, n, r) ensures LeavesWell(Run(code + rest, env, 0, r), env, n, a || b, n) {
      LoadThen(env, code, rest, n, v, r);
      if v.Some? {
        var r' := Run(code, env, 0, r).r;
        RunAppend(s, g, env, r');
        SuccessRuns(env, k, v.value, r');
        assert LeavesWell(Run(g, env, 0, r'), env, n, b, n);
      }
    }
  }

  lemma {:induction false} DirectDecides(env: Env, dir: Dir, s: Check, d: Check)
    requires Sensible(env) && Reachable(s) && Reachable(d)
    requires s.op.Eq? && s.k + Bytes(s.size) <= d.k + Bytes(d.size)
    ensures Decides(env, DirectFrag(dir, s, d), Any,
                    Holds(ByDir(dir, All([s]), All([d])), env.pkt, true), Any)
  {
    OneCheck(s, env.pkt, true);
    OneCheck(d, env.pkt, true);
    var a, b := Holds(CheckFormula(s), env.pkt, true), Holds(CheckFormula(d), env.pkt, true);
    CheckDecides(env, s, Any);
    CheckDecides(env, d, Any);
    match dir
    case Src =>
    case Dst =>
    case SrcAndDst => ThenDecides(env, CheckFrag(s), CheckFrag(d), Any, a, Any, b, Any);
    case SrcOrDst =>
      var v := ReadThen(Abs(s.size, s.k), s.ops, env.pkt);
      FetchLoads(env, s, Any);
      if v.None? { ReachesFurther(s, d, env.pkt); }
      EarlySuccess(env, Fetch(s), Any, v, s.v, CheckFrag(d), b);
  }

  lemma OneCheck(c: Check, pkt: Packet, wide: bool)
    ensures Holds(All([c]), pkt, wide) == Holds(CheckFormula(c), pkt, wide)
  {
    assert [c][1..] == [];
    assert Holds(All([]), pkt, wide);
  }

  lemma ReachesFurther(s: Check, d: Check, pkt: Packet)
    requires OpsDefined(s.ops) && s.k + Bytes(s.size) <= d.k + Bytes(d.size)
    requires ReadThen(Abs(s.size, s.k), s.ops, pkt).None?
    ensures !Holds(CheckFormula(d), pkt, true)
  {
    var v := Vm.SizedLoad(pkt, s.k, s.size);
    if v.Some? { DefinedApplies(s.ops, v.value); }
  }

  lemma {:induction false} ListDecides(env: Env, dir: Dir, s: seq<Check>, d: seq<Check>)
    requires Sensible(env) && AllReachable(s) && AllReachable(d)
    ensures Decides(env, ListFrag(dir, s, d), Any, Holds(ByDir(dir, All(s), All(d)), env.pkt, true), Any)
  {
    var a, b := Holds(All(s), env.pkt, true), Holds(All(d), env.pkt, true);
    ChecksDecide(env, s);
    ChecksDecide(env, d);
    match dir
    case Src =>
    case Dst =>
    case SrcAndDst => ThenDecides(env, ChecksFrag(s), ChecksFrag(d), Any, a, Any, b, Any);
    case SrcOrDst => OrDecides(env, ChecksFrag(s), ChecksFrag(d), Any, a, b);
  }

  // ----- guards -----

  lemma {:induction false} EthDecides(env: Env, lay: Layout, et: u32)
    requires Sensible(env) && lay.depth == 0 && EthFrag(lay, et).Ok?
    ensures Decides(env, EthFrag(lay, et).value, Any, Holds(EthIs(lay, et), env.pkt, true), Any)
    ensures NoSucc(EthFrag(lay, et).value)
  {
    var at := EthAt(lay);
    if at.Some? {
      var c := EqCheck(SizeH, at.value, et);
      assert EthIs(lay, et) == CheckFormula(c);
      CheckDecides(env, c, Any);
    } else {
      NothingDecides(env, Any);
    }
  }

  lemma {:induction false} GuardedDecides(env: Env, lay: Layout, et: u32, code: Frag, q: Formula)
    requires Sensible(env) && lay.depth == 0 && Guarded(lay, et, code).Ok? && Decides(env, code, Any, Holds(q, env.pkt, true), Any)
    ensures Decides(env, Guarded(lay, et, code).value, Any, Holds(Both(EthIs(lay, et), q), env.pkt, true), Any)
  {
    EthDecides(env, lay, et);
    ThenDecides(env, EthFrag(lay, et).value, code, Any, Holds(EthIs(lay, et), env.pkt, true), Any,
                Holds(q, env.pkt, true), Any);
  }
}
