// The compiled XDP program as a whole (pktbaffle/src/ebpf_codegen.rs:1112-1131),
// and when its 64-bit comparisons are the ones that were written.

module EbpfFinal {
  import opened Words
  import opened Results
  import opened Bpf
  import opened Ast
  import opened Meaning
  import opened EbpfVm
  import opened EbpfCode
  import opened EbpfEmit
  import opened EbpfProofs
  import EbpfPrims
  import opened EbpfTheorem

  /** Where the epilogues lie behind code of length `n`. */
  predicate Ends(prog: EbpfVm.Program, n: nat) {
    && |prog| == n + 6
    && prog[2 + n] == Do(MovImm(R0, XDP_PASS)) && prog[2 + n + 1] == EbpfVm.Exit
    && prog[2 + n + 2] == Do(MovImm(R0, XDP_DROP)) && prog[2 + n + 3] == EbpfVm.Exit
  }

  ghost predicate Finished(prog: EbpfVm.Program, f: Frag) {
    && Ends(prog, |f|)
    && prog[0] == Do(LdCtx(R2, false)) && prog[1] == Do(LdCtx(R3, true))
    && forall i :: 0 <= i < |f| ==> prog[2 + i] == Place(LinkOp(f[i], i, At(|f|), At(|f| + 2)))
  }

  lemma CompileFinishes(e: Expr, link: LinkType)
    requires Compile(e, link).Ok?
    ensures EmitExpr(e, Untagged(link)).Ok? && Finished(Compile(e, link).value, EmitExpr(e, Untagged(link)).value)
  {
    var f := EmitExpr(e, Untagged(link)).value;
    FinishedForm(f, Link(f, At(|f|), At(|f| + 2)));
  }

  lemma FinishedForm(f: Frag, linked: Frag)
    requires linked == Link(f, At(|f|), At(|f| + 2))
    ensures Finished(PROLOGUE + PlaceAll(linked) + EPILOGUE, f)
  {
    var prog := PROLOGUE + PlaceAll(linked) + EPILOGUE;
    var n := |f|;
    assert prog[2 + n] == EPILOGUE[0] && prog[2 + n + 1] == EPILOGUE[1] && prog[2 + n + 2] == EPILOGUE[2] && prog[2 + n + 3] == EPILOGUE[3];
    forall i | 0 <= i < n ensures prog[2 + i] == Place(LinkOp(f[i], i, At(n), At(n + 2))) {
      assert prog[2 + i] == PlaceAll(linked)[i];
    }
  }

  function Ending(o: EbpfCode.Exit): EbpfVm.Outcome {
    match o
    case Crashed => Crash
    case Failed(_) => Returned(XDP_DROP)
    case _ => Returned(XDP_PASS)
  }

  lemma Epilogues(prog: EbpfVm.Program, n: nat, env: Env, r: Regs)
    requires Ends(prog, n)
    ensures Exec(prog, env, 2 + n, r) == Returned(XDP_PASS) && Exec(prog, env, 2 + n + 2, r) == Returned(XDP_DROP)
  {
    assert Exec(prog, env, 2 + n + 1, Set(r, R0, XDP_PASS)) == Returned(XDP_PASS);
    assert Exec(prog, env, 2 + n + 3, Set(r, R0, XDP_DROP)) == Returned(XDP_DROP);
  }

  /** The machine on the finished program agrees with the symbolic run. */
  lemma {:induction false} ExecBody(prog: EbpfVm.Program, f: Frag, env: Env, pc: nat, r: Regs)
    requires Finished(prog, f) && WellFormed(f) && pc <= |f|
    ensures Exec(prog, env, 2 + pc, r) == Ending(Run(f, env, pc, r))
    decreases |f| - pc
  {
    Epilogues(prog, |f|, env, r);
    if pc < |f| {
      assert Within(f[pc], pc, |f|);
      assert prog[2 + pc] == Place(LinkOp(f[pc], pc, At(|f|), At(|f| + 2)));
      if f[pc].Plain? {
        var r' := Step(f[pc].i, env, r);
        if r'.Some? { ExecBody(prog, f, env, pc + 1, r'.value); }
      } else {
        var b := Taken(f[pc].t, r);
        if b.Some? {
          var to := if b.value then f[pc].to else Rel(0);
          if to.Rel? { ExecBody(prog, f, env, pc + 1 + to.off, r); }
        }
      }
    }
  }

  lemma {:induction false} BodyReturns(prog: EbpfVm.Program, f: Frag, env: Env, b: bool)
    requires Finished(prog, f) && Decides(env, f, Any, b, Any) && Sensible(env)
    ensures Exec(prog, env, 0, NO_REGS) == Returned(if b then XDP_PASS else XDP_DROP)
  {
    var r2 := Set(Set(NO_REGS, R2, env.data), R3, End(env));
    BodyStarts(prog, f, env);
    assert LeavesWell(Run(f, env, 0, r2), env, Any, b, Any);
  }

  /** The prologue leaves the packet pointers in R2 and R3. */
  lemma {:induction false} BodyStarts(prog: EbpfVm.Program, f: Frag, env: Env)
    requires Finished(prog, f) && WellFormed(f) && Sensible(env)
    ensures Exec(prog, env, 0, NO_REGS) == Ending(Run(f, env, 0, Regs(None, Some(env.data), Some(End(env)), None, None, None)))
  {
    var r1 := Set(NO_REGS, R2, env.data);
    var r2 := Set(r1, R3, End(env));
    ExecBody(prog, f, env, 0, r2);
    assert Exec(prog, env, 1, r1) == Exec(prog, env, 2, r2);
  }

  /** On every packet, either byte order and any placement in memory: the program
      reads no unwritten register and no byte outside the packet, ends at one of
      its two exits, and passes the packet exactly when the expression holds. */
  lemma {:induction false} CompiledExact(e: Expr, link: LinkType, env: Env)
    requires Sensible(env) && AccessesSafe(Untagged(link), e) && Compile(e, link).Ok?
    ensures Exec(Compile(e, link).value, env, 0, NO_REGS) ==
            Returned(if ExprHolds(e, Untagged(link), env.pkt, true) then XDP_PASS else XDP_DROP)
  {
    CompileFinishes(e, link);
    ExprDecides(e, Untagged(link), env);
    BodyReturns(Compile(e, link).value, EmitExpr(e, Untagged(link)).value, env, ExprHolds(e, Untagged(link), env.pkt, true));
  }

  lemma {:induction false} ShortLinks(f: Frag)
    requires WellFormed(f) && |f| <= 0x7ffd
    ensures ShortJumps(Link(f, At(|f|), At(|f| + 2)))
  {
    var g := Link(f, At(|f|), At(|f| + 2));
    forall i | 0 <= i < |g| && g[i].Branch? && g[i].to.Rel? ensures g[i].to.off <= 0x7fff { assert Within(f[i], i, |f|); }
  }

  // ----- comparison constants -----

  /** Constants whose sign extension cannot matter for the comparison. */
  predicate SafeConstant(op: CmpOp, v: u32) {
    v < 0x8000_0000 || op.AnyBit? || (v == 0xffff_ffff && (op.Le? || op.Gt?))
  }

  /** A comparison is the written one on all values exactly for those. */
  lemma SafeConstantsExactly(op: CmpOp, v: u32)
    ensures SafeConstant(op, v) <==> forall a: u32 :: CompareAs(op, a, v, true) == CompareAs(op, a, v, false)
  {
    if !SafeConstant(op, v) {
      var a: u32 := if op.Le? || op.Gt? then v + 1 else v;
      assert CompareAs(op, a, v, true) != CompareAs(op, a, v, false);
    }
  }

  predicate SafeFormula(f: Formula) {
    match f
    case Known(_) => true
    case Compare(_, _, op, rhs) => rhs.Literal? ==> SafeConstant(op, rhs.v)
    case Both(p, q) => SafeFormula(p) && SafeFormula(q)
    case Either(p, q) => SafeFormula(p) && SafeFormula(q)
  }

  /** A byte access whose offset survives the cut to 16 signed bits. */
  predicate NearAccess(lay: Layout, p: Primitive) { p.Access? ==> AccessAt(lay, p.ba.lhs) <= 0x7fff }

  lemma NearField(lay: Layout, l: ByteLoad)
    requires AccessAt(lay, l) <= 0x7fff
    ensures LoadedField(lay, l) == LayerField(lay, l)
  {
    CutOffset(AccessAt(lay, l));
  }

  lemma {:induction false} NearAccessHolds(lay: Layout, ba: ByteAccess, pkt: Packet)
    requires AccessAt(lay, ba.lhs) <= 0x7fff
    ensures Holds(AccessCompiled(lay, ba), pkt, true) == Holds(AccessFormula(lay, ba), pkt, true)
  {
    NearField(lay, ba.lhs);
    EbpfPrims.ReadableHolds(LayerField(lay, ba.lhs), pkt);
  }

  predicate SafeExpr(e: Expr, lay: Layout) {
    match e
    case Prim(p) => SafeFormula(PrimTest(lay, p)) && NearAccess(lay, p)
    case And(l, r) => SafeExpr(l, lay) && SafeExpr(r, lay)
    case Or(l, r) => SafeExpr(l, lay) && SafeExpr(r, lay)
    case Not(x) => SafeExpr(x, lay)
  }

  lemma {:induction false} SafeFormulaHolds(f: Formula, pkt: Packet)
    requires SafeFormula(f)
    ensures Holds(f, pkt, true) == Holds(f, pkt, false)
  {
    match f
    case Known(_) =>
    case Compare(lhs, ops, op, rhs) => if rhs.Literal? { SafeConstantsExactly(op, rhs.v); }
    case Both(p, q) => SafeFormulaHolds(p, pkt); SafeFormulaHolds(q, pkt);
    case Either(p, q) => SafeFormulaHolds(p, pkt); SafeFormulaHolds(q, pkt);
  }

  /** With such constants the verdict is the plain boolean meaning. */
  lemma {:induction false} SafeExprHolds(e: Expr, lay: Layout, pkt: Packet)
    requires SafeExpr(e, lay)
    ensures ExprHolds(e, lay, pkt, true) == ExprHolds(e, lay, pkt, false)
  {
    match e
    case Prim(p) =>
      SafeFormulaHolds(PrimTest(lay, p), pkt);
      if p.Access? { NearAccessHolds(lay, p.ba, pkt); }
    case And(l, r) => SafeExprHolds(l, lay, pkt); SafeExprHolds(r, lay, pkt);
    case Or(l, r) => SafeExprHolds(l, lay, pkt); SafeExprHolds(r, lay, pkt);
    case Not(x) => SafeExprHolds(x, lay, pkt);
  }

  /** Otherwise it need not be: no packet at all matches a host whose address
      has its top bit set. */
  lemma HighHostNeverMatches(lay: Layout, a: u32, pkt: Packet)
    requires a >= 0x8000_0000
    ensures !ExprHolds(Prim(Host4(a, Src)), lay, pkt, true)
  {
    var c := EqCheck(SizeW, NetAt(lay) + 12, a);
    OneCheck(c, pkt, true);
    assert Host4Formula(lay, a, Src) == Both(EthIs(lay, 0x0800), All([c]));
    assert !Holds(CheckFormula(c), pkt, true);
  }

  function HighByte(a: u32, unit: nat): u8
    requires unit > 0
  {
    a / unit % 0x100
  }

  /** An Ethernet frame with an IPv4 packet from address `a`. */
  function FrameFrom(a: u32): Packet {
    [0, 0, 0, 0, 0, 0, 0, 0, 0, 0, 0, 0, 8, 0, 0, 0, 0, 0, 0, 0, 0, 0, 0, 0, 0, 0,
     HighByte(a, 0x100_0000), HighByte(a, 0x1_0000), HighByte(a, 0x100), HighByte(a, 1), 0, 0, 0, 0]
  }

  lemma BytesOf(a: u32)
    ensures Be32(HighByte(a, 0x100_0000), HighByte(a, 0x1_0000), HighByte(a, 0x100), HighByte(a, 1)) == a
  {
    var b, c := a / 0x100, a / 0x1_0000;
    assert a == 0x100 * b + a % 0x100 && b == 0x100 * c + b % 0x100 && c == 0x100 * (a / 0x100_0000) + c % 0x100;
    assert a / 0x100_0000 % 0x100 == a / 0x100_0000;
  }

  lemma FrameFields(a: u32)
    ensures Read(Abs(SizeH, 12), FrameFrom(a)) == Some(0x0800) && Read(Abs(SizeW, 26), FrameFrom(a)) == Some(a)
  {
    BytesOf(a);
  }

  lemma {:induction false} FrameIsFrom(a: u32)
    ensures ExprHolds(Prim(Host4(a, Src)), Untagged(Ethernet), FrameFrom(a), false)
  {
    var lay, c, t := Untagged(Ethernet), EqCheck(SizeW, 26, a), EqCheck(SizeH, 12, 0x0800);
    FrameFields(a);
    OneCheck(c, FrameFrom(a), false);
    assert Host4Formula(lay, a, Src) == Both(CheckFormula(t), All([c]));
    assert Holds(CheckFormula(t), FrameFrom(a), false) && Holds(CheckFormula(c), FrameFrom(a), false);
  }

  lemma {:induction false} HostCompiles(a: u32)
    ensures Compile(Prim(Host4(a, Src)), Ethernet).Ok?
  {
    var lay, c, t := Untagged(Ethernet), EqCheck(SizeW, 26, a), EqCheck(SizeH, 12, 0x0800);
    var f := CheckFrag(t) + CheckFrag(c);
    assert EmitExpr(Prim(Host4(a, Src)), lay) == Ok(f) && |f| == 12;
    ExprDecides(Prim(Host4(a, Src)), lay, Env([], 0, true));
    ShortLinks(f);
  }

  /** So the program for `src host a` drops even a frame from `a`. */
  lemma {:induction false} HighHostMissesItsFrame(a: u32, data: nat, little: bool)
    requires a >= 0x8000_0000 && data + 34 + 0x8001_0000 < U64_SIZE
    ensures Compile(Prim(Host4(a, Src)), Ethernet).Ok?
    ensures ExprHolds(Prim(Host4(a, Src)), Untagged(Ethernet), FrameFrom(a), false)
    ensures Exec(Compile(Prim(Host4(a, Src)), Ethernet).value, Env(FrameFrom(a), data, little), 0, NO_REGS) == Returned(XDP_DROP)
  {
    HostCompiles(a);
    FrameIsFrom(a);
    HighHostNeverMatches(Untagged(Ethernet), a, FrameFrom(a));
    CompiledExact(Prim(Host4(a, Src)), Ethernet, Env(FrameFrom(a), data, little));
  }
}
