// The eBPF code generator as the source runs it: an instruction buffer patched
// in place and an explicit work stack
// (pktbaffle/src/ebpf_codegen.rs:55-124, 282-351, 1112-1131).

module EbpfCodegen {
  import opened Results
  import opened Ast
  import opened Meaning
  import opened EbpfVm
  import opened EbpfCode
  import opened EbpfEmit
  import EbpfTheorem
  import EbpfFinal
  import Backpatch
  import opened EbpfBuild

  // ----- the work stack -----

  /** One step of the walk: an expression to emit, or the rest of an operator
      once the operand before it is done. */
  datatype Work =
    | EmitWork(e: Expr)
    | AndRight(right: Expr)
    | AndDone(leftFailure: seq<nat>)
    | OrRight(right: Expr)
    | OrDone(leftSuccess: seq<nat>, ja: nat)
    | NotDone

  /** Finished operands. */
  type Stack = seq<Patches>

  /** What the rest of the walk yields, each pending expression compiled by the
      recursive form. */
  ghost function Continue(lay: Layout, work: seq<Work>, done: Stack, insns: Program): Result<(Program, Stack)>
    decreases |work|, 1
  {
    if work == [] then Ok((insns, done))
    else
      var rest, w := work[..|work| - 1], work[|work| - 1];
      if w.EmitWork? then
        var b :- Build(w.e, lay, insns);
        Resume(lay, rest, done, b)
      else if done == [] then Panic
      else
        var b :- Complete(lay, w, Built(insns, done[|done| - 1]));
        Resume(lay, rest, done[..|done| - 1], b)
  }

  ghost function Resume(lay: Layout, rest: seq<Work>, done: Stack, b: Built): Result<(Program, Stack)>
    decreases |rest|, 2
  {
    Continue(lay, rest, done + [b.patches], b.insns)
  }

  ghost function Resumed(lay: Layout, rest: seq<Work>, done: Stack, r: Result<Built>): Result<(Program, Stack)> {
    if r.Ok? then Resume(lay, rest, done, r.value) else r.PropagateFailure()
  }

  /** The rest of an operator behind its finished operand. */
  ghost function Complete(lay: Layout, w: Work, a: Built): Result<Built>
    requires !w.EmitWork?
  {
    match w
    case AndRight(right) =>
      var m :- AndMiddle(a);
      var b :- Build(right, lay, m);
      Ok(AndEnd(a.patches.failure, b))
    case AndDone(leftFailure) => Ok(AndEnd(leftFailure, a))
    case OrRight(right) =>
      var m :- JumpOver(a);
      var b :- Build(right, lay, m);
      Ok(OrEnd(a.patches.success, |a.insns|, b))
    case OrDone(leftSuccess, ja) => Ok(OrEnd(leftSuccess, ja, a))
    case NotDone => NotEnd(a)
  }

  function Weight(w: Work): nat {
    match w
    case EmitWork(e) => ExprSize(e)
    case AndRight(e) => 2 + ExprSize(e)
    case OrRight(e) => 2 + ExprSize(e)
    case _ => 1
  }

  function TotalWeight(work: seq<Work>): nat {
    if work == [] then 0 else TotalWeight(work[..|work| - 1]) + Weight(work[|work| - 1])
  }

  lemma WeightPush(rest: seq<Work>, w: Work)
    ensures TotalWeight(rest + [w]) == TotalWeight(rest) + Weight(w)
  {
    assert (rest + [w])[..|rest|] == rest;
  }

  // ----- one step of the walk leaves its result unchanged -----

  lemma ContinueTop(lay: Layout, rest: seq<Work>, w: Work, done: Stack, insns: Program)
    ensures Continue(lay, rest + [w], done, insns) ==
            if w.EmitWork? then Resumed(lay, rest, done, Build(w.e, lay, insns))
            else if done == [] then Panic
            else Resumed(lay, rest, done[..|done| - 1], Complete(lay, w, Built(insns, done[|done| - 1])))
  {
    assert (rest + [w])[..|rest|] == rest;
  }

  /** An operand, then the rest of its operator. */
  ghost function Pair(lay: Layout, e: Expr, w: Work, insns: Program): Result<Built>
    requires !w.EmitWork?
  {
    var b :- Build(e, lay, insns);
    Complete(lay, w, b)
  }

  lemma {:induction false} ContinueTwo(lay: Layout, rest: seq<Work>, w: Work, e: Expr, done: Stack, insns: Program)
    requires !w.EmitWork?
    ensures Continue(lay, rest + [w, EmitWork(e)], done, insns) == Resumed(lay, rest, done, Pair(lay, e, w, insns))
    ensures TotalWeight(rest + [w, EmitWork(e)]) == TotalWeight(rest) + Weight(w) + ExprSize(e)
  {
    assert rest + [w, EmitWork(e)] == (rest + [w]) + [EmitWork(e)];
    WeightPush(rest, w);
    WeightPush(rest + [w], EmitWork(e));
    ContinueTop(lay, rest + [w], EmitWork(e), done, insns);
    var r := Build(e, lay, insns);
    if r.Ok? {
      assert (done + [r.value.patches])[..|done|] == done;
      ContinueTop(lay, rest, w, done + [r.value.patches], r.value.insns);
    }
  }

  lemma {:induction false} OperatorIsPair(lay: Layout, e: Expr, insns: Program)
    ensures e.And? ==> Build(e, lay, insns) == Pair(lay, e.left, AndRight(e.right), insns)
    ensures e.Or? ==> Build(e, lay, insns) == Pair(lay, e.left, OrRight(e.right), insns)
    ensures e.Not? ==> Build(e, lay, insns) == Pair(lay, e.inner, NotDone, insns)
  {
  }

  lemma {:induction false} AndRightIsPair(lay: Layout, right: Expr, a: Built)
    ensures var m := AndMiddle(a);
            Complete(lay, AndRight(right), a) ==
              if m.Ok? then Pair(lay, right, AndDone(a.patches.failure), m.value) else m.PropagateFailure()
  {
  }

  lemma {:induction false} OrRightIsPair(lay: Layout, right: Expr, a: Built)
    ensures var m := JumpOver(a);
            Complete(lay, OrRight(right), a) ==
              if m.Ok? then Pair(lay, right, OrDone(a.patches.success, |a.insns|), m.value) else m.PropagateFailure()
  {
  }

  /** The walk after one step: what is left to do, or how it ended. */
  type Progress = Result<(seq<Work>, Stack)>

  /** The step kept the walk's result and made it shorter. */
  ghost predicate Advances(lay: Layout, work: seq<Work>, done: Stack, insns: Program, p: Progress, insns': Program) {
    match p
    case Ok(next) =>
      && Continue(lay, next.0, next.1, insns') == Continue(lay, work, done, insns)
      && TotalWeight(next.0) < TotalWeight(work)
    case Err => Continue(lay, work, done, insns) == Err
    case Panic => Continue(lay, work, done, insns) == Panic
  }

  /** A step that replaces the top of the stack by an operand and the rest of
      its operator. */
  lemma {:induction false} PairAdvances(lay: Layout, rest: seq<Work>, top: Work, done: Stack, insns: Program,
                                        w: Work, e: Expr, under: Stack, insns': Program)
    requires !w.EmitWork? && Weight(top) > Weight(w) + ExprSize(e)
    requires Continue(lay, rest + [top], done, insns) == Resumed(lay, rest, under, Pair(lay, e, w, insns'))
    ensures Advances(lay, rest + [top], done, insns, Ok((rest + [w, EmitWork(e)], under)), insns')
  {
    WeightPush(rest, top);
    ContinueTwo(lay, rest, w, e, under, insns');
  }

  /** A step that finishes an operand. */
  lemma {:induction false} OperandAdvances(lay: Layout, rest: seq<Work>, top: Work, done: Stack, insns: Program,
                                           under: Stack, r: Result<Built>)
    requires Continue(lay, rest + [top], done, insns) == Resumed(lay, rest, under, r) && Weight(top) > 0
    ensures r.Ok? ==> Advances(lay, rest + [top], done, insns, Ok((rest, under + [r.value.patches])), r.value.insns)
    ensures !r.Ok? ==> Advances(lay, rest + [top], done, insns, r.PropagateFailure(), insns)
  {
    WeightPush(rest, top);
  }

  /** Between the operands of `and` or `or`, where `m` is the code there and `w`
      the rest of the operator. */
  lemma {:induction false} MiddleAdvances(lay: Layout, rest: seq<Work>, top: Work, under: Stack, a: Built, w: Work, m: Result<Program>)
    requires (top.AndRight? && w == AndDone(a.patches.failure) && m == AndMiddle(a))
          || (top.OrRight? && w == OrDone(a.patches.success, |a.insns|) && m == JumpOver(a))
    ensures if m.Ok? then Advances(lay, rest + [top], under + [a.patches], a.insns, Ok((rest + [w, EmitWork(top.right)], under)), m.value)
            else Advances(lay, rest + [top], under + [a.patches], a.insns, m.PropagateFailure(), a.insns)
  {
    ContinueTop(lay, rest, top, under + [a.patches], a.insns);
    assert (under + [a.patches])[..|under|] == under;
    if top.AndRight? { AndRightIsPair(lay, top.right, a); } else { OrRightIsPair(lay, top.right, a); }
    if m.Ok? { PairAdvances(lay, rest, top, under + [a.patches], a.insns, w, top.right, under, m.value); }
  }

  /** The last step of an operator. */
  lemma {:induction false} DoneAdvances(lay: Layout, rest: seq<Work>, top: Work, under: Stack, a: Built)
    requires top.AndDone? || top.OrDone? || top.NotDone?
    ensures var r := Complete(lay, top, a);
            if r.Ok? then Advances(lay, rest + [top], under + [a.patches], a.insns, Ok((rest, under + [r.value.patches])), r.value.insns)
            else Advances(lay, rest + [top], under + [a.patches], a.insns, r.PropagateFailure(), a.insns)
  {
    ContinueTop(lay, rest, top, under + [a.patches], a.insns);
    assert (under + [a.patches])[..|under|] == under;
    OperandAdvances(lay, rest, top, under + [a.patches], a.insns, under, Complete(lay, top, a));
  }

  // ----- the generator -----

  class Codegen {
    const link: LinkType
    var insns: Program

    constructor (link: LinkType)
      ensures this.link == link && insns == []
    {
      this.link := link;
      insns := [];
    }

    method Push(insn: Code) returns (idx: nat)
      modifies this
      ensures idx == old(|insns|) && insns == old(insns) + [insn]
    {
      idx := |insns|;
      insns := insns + [insn];
    }

    /** `resolve_all`: patch the slots one after the other, in place. */
    method ResolveAll(ps: seq<nat>, target: nat) returns (r: Result<()>)
      modifies this
      ensures var all := ResolveSlots(old(insns), ps, target);
              && (r.Ok? <==> all.Ok?) && (r.Panic? <==> all.Panic?)
              && (r.Ok? ==> insns == all.value)
    {
      for i := 0 to |ps|
        invariant ResolveSlots(insns, ps[i..], target) == ResolveSlots(old(insns), ps, target)
      {
        var one := ResolveSlot(insns, ps[i], target);
        assert ps[i..][0] == ps[i] && ps[i..][1..] == ps[i + 1..];
        if !one.Ok? { return one.PropagateFailure(); }
        insns := one.value;
      }
      return Ok(());
    }

    method EmitPrologue()
      modifies this
      ensures insns == old(insns) + PROLOGUE
    {
      var _ := Push(Do(LdCtx(R2, false)));
      var _ := Push(Do(LdCtx(R3, true)));
    }

    /** `emit_primitive`: the instructions and their pending slots. */
    method EmitPrimitive(prim: Primitive) returns (r: Result<Patches>)
      modifies this
      ensures var b := BuildPrim(Untagged(link), old(insns), prim);
              && (r.Ok? <==> b.Ok?) && (r.Panic? <==> b.Panic?)
              && (r.Ok? ==> insns == b.value.insns && r.value == b.value.patches)
    {
      var f := EmitPrim(Untagged(link), prim);
      if !f.Ok? { return f.PropagateFailure(); }
      if !ShortJumps(f.value) { return Err; }
      var p := PushAll(f.value);
      return Ok(p);
    }

    method PushAll(f: Frag) returns (p: Patches)
      modifies this
      ensures insns == old(insns) + PlaceAll(f) && p == PendingOf(f, old(|insns|))
    {
      var base := |insns|;
      for i := 0 to |f|
        invariant insns == old(insns) + PlaceAll(f)[..i]
      {
        var _ := Push(Place(f[i]));
        assert PlaceAll(f)[..i + 1] == PlaceAll(f)[..i] + [Place(f[i])];
      }
      assert PlaceAll(f)[..|f|] == PlaceAll(f);
      return PendingOf(f, base);
    }

    /** A pending expression: emit a primitive, or put its first operand and the
        rest of its operator on the stack. */
    method Enter(e: Expr, rest: seq<Work>, done: Stack) returns (p: Progress)
      modifies this
      ensures Advances(Untagged(link), rest + [EmitWork(e)], done, old(insns), p, insns)
    {
      ghost var lay, was := Untagged(link), insns;
      ContinueTop(lay, rest, EmitWork(e), done, was);
      OperatorIsPair(lay, e, was);
      match e {
        case Prim(prim) =>
          OperandAdvances(lay, rest, EmitWork(e), done, was, done, BuildPrim(lay, was, prim));
          var r := EmitPrimitive(prim);
          if !r.Ok? { return r.PropagateFailure(); }
          return Ok((rest, done + [r.value]));
        case And(left, right) =>
          PairAdvances(lay, rest, EmitWork(e), done, was, AndRight(right), left, done, was);
          return Ok((rest + [AndRight(right), EmitWork(left)], done));
        case Or(left, right) =>
          PairAdvances(lay, rest, EmitWork(e), done, was, OrRight(right), left, done, was);
          return Ok((rest + [OrRight(right), EmitWork(left)], done));
        case Not(inner) =>
          PairAdvances(lay, rest, EmitWork(e), done, was, NotDone, inner, done, was);
          return Ok((rest + [NotDone, EmitWork(inner)], done));
      }
    }

    /** A jump behind an operand, whose failures go on behind that jump. */
    method JumpOverOperand(failure: seq<nat>) returns (r: Result<nat>)
      modifies this
      ensures var all := ResolveSlots(old(insns) + [JA], failure, old(|insns|) + 1);
              && (r.Ok? <==> all.Ok?) && (r.Panic? <==> all.Panic?)
              && (r.Ok? ==> r.value == old(|insns|) && insns == all.value)
    {
      var ja := Push(JA);
      var done := ResolveAll(failure, |insns|);
      if !done.Ok? { return done.PropagateFailure(); }
      return Ok(ja);
    }

    /** Between the operands of `and`, which go on here, or of `or`, where a
        jump leads over the right one. */
    method Between(top: Work, rest: seq<Work>, under: Stack, x: Patches) returns (p: Progress)
      requires top.AndRight? || top.OrRight?
      modifies this
      ensures Advances(Untagged(link), rest + [top], under + [x], old(insns), p, insns)
    {
      ghost var lay, a := Untagged(link), Built(insns, x);
      if top.AndRight? {
        MiddleAdvances(lay, rest, top, under, a, AndDone(x.failure), AndMiddle(a));
        var r := ResolveAll(x.success, |insns|);
        if !r.Ok? { return r.PropagateFailure(); }
        return Ok((rest + [AndDone(x.failure), EmitWork(top.right)], under));
      } else {
        MiddleAdvances(lay, rest, top, under, a, OrDone(x.success, |insns|), EbpfBuild.JumpOver(a));
        var ja := JumpOverOperand(x.failure);
        if !ja.Ok? { return ja.PropagateFailure(); }
        return Ok((rest + [OrDone(x.success, ja.value), EmitWork(top.right)], under));
      }
    }

    /** Behind an operator's last operand: join the lists, or for `not` let the
        operand's failures succeed and everything else fail. */
    method After(top: Work, rest: seq<Work>, under: Stack, x: Patches) returns (p: Progress)
      requires top.AndDone? || top.OrDone? || top.NotDone?
      modifies this
      ensures Advances(Untagged(link), rest + [top], under + [x], old(insns), p, insns)
    {
      DoneAdvances(Untagged(link), rest, top, under, Built(insns, x));
      match top {
        case AndDone(leftFailure) =>
          return Ok((rest, under + [Patches(x.success, Backpatch.Concat(leftFailure, x.failure))]));
        case OrDone(leftSuccess, ja) =>
          return Ok((rest, under + [Patches(Backpatch.Concat(leftSuccess + [ja], x.success), x.failure)]));
        case NotDone =>
          var ja := JumpOverOperand(x.failure);
          if !ja.Ok? { return ja.PropagateFailure(); }
          return Ok((rest, under + [Patches([], x.success + [ja.value])]));
      }
    }

    /** One turn of the walk: pop the top of the stack and do it. */
    method OneStep(work: seq<Work>, done: Stack) returns (p: Progress)
      requires work != []
      modifies this
      ensures Advances(Untagged(link), work, done, old(insns), p, insns)
    {
      var top, rest := work[|work| - 1], work[..|work| - 1];
      assert work == rest + [top];
      if top.EmitWork? {
        p := Enter(top.e, rest, done);
      } else if done == [] {
        ContinueTop(Untagged(link), rest, top, done, insns);
        p := Panic;
      } else {
        var x, under := done[|done| - 1], done[..|done| - 1];
        assert done == under + [x];
        if top.AndRight? || top.OrRight? {
          p := Between(top, rest, under, x);
        } else {
          p := After(top, rest, under, x);
        }
      }
    }

    /** `emit_expr`: the walk with explicit stacks emits the code and the patch
        lists of the recursive compile. */
    method EmitExpr(expr: Expr) returns (r: Result<Patches>)
      modifies this
      ensures var b := Build(expr, Untagged(link), old(insns));
              && (r.Ok? <==> b.Ok?) && (r.Panic? <==> b.Panic?)
              && (r.Ok? ==> insns == b.value.insns && r.value == b.value.patches)
    {
      var work := [EmitWork(expr)];
      var done: Stack := [];
      ghost var lay := Untagged(link);
      ghost var end := Resumed(lay, [], [], Build(expr, lay, insns));
      assert work == [] + [EmitWork(expr)];
      ContinueTop(lay, [], EmitWork(expr), [], insns);
      while work != []
        invariant Continue(lay, work, done, insns) == end
        decreases TotalWeight(work)
      {
        var p := OneStep(work, done);
        if !p.Ok? { return p.PropagateFailure(); }
        work, done := p.value.0, p.value.1;
      }
      if done == [] { return Panic; }
      return Ok(done[|done| - 1]);
    }

    /** Both epilogues, and every slot left resolved to one of them. */
    method Finish(patches: Patches) returns (r: Result<Program>)
      modifies this
      ensures r == Terminate(Built(old(insns), patches))
    {
      ghost var was := insns;
      var accept := Push(Do(MovImm(R0, XDP_PASS)));
      var _ := Push(EbpfVm.Exit);
      var drop := Push(Do(MovImm(R0, XDP_DROP)));
      var _ := Push(EbpfVm.Exit);
      assert insns == was + EPILOGUE;
      var first := ResolveAll(patches.success, accept);
      if !first.Ok? { return first.PropagateFailure(); }
      var second := ResolveAll(patches.failure, drop);
      if !second.Ok? { return second.PropagateFailure(); }
      return Ok(insns);
    }
  }

  /** The steps of `compile` are the recursive compile. */
  method Generate(expr: Expr, link: LinkType) returns (r: Result<Program>)
    ensures r == Assemble(expr, link)
  {
    var cg := new Codegen(link);
    cg.EmitPrologue();
    assert cg.insns == PROLOGUE;
    var patches := cg.EmitExpr(expr);
    if !patches.Ok? { return patches.PropagateFailure(); }
    r := cg.Finish(patches.value);
  }

  /** On every packet the program crashes nowhere and returns the verdict of the
      compiled meaning. */
  ghost predicate Decides(prog: Program, e: Expr, link: LinkType) {
    forall env :: Sensible(env) ==>
      Exec(prog, env, 0, NO_REGS) ==
      Returned(if ExprHolds(e, Untagged(link), env.pkt, true) then XDP_PASS else XDP_DROP)
  }

  lemma CompiledDecides(e: Expr, link: LinkType, prog: Program)
    requires Compile(e, link) == Ok(prog) && EbpfTheorem.AccessesSafe(Untagged(link), e)
    ensures Decides(prog, e, link)
  {
    forall env | Sensible(env)
      ensures Exec(prog, env, 0, NO_REGS) ==
              Returned(if ExprHolds(e, Untagged(link), env.pkt, true) then XDP_PASS else XDP_DROP)
    {
      EbpfFinal.CompiledExact(e, link, env);
    }
  }

  /** `compile`: no panic; fails exactly where the symbolic compile does, and has
      the same program. */
  method CompileXdp(expr: Expr, link: LinkType) returns (r: Result<Program>)
    ensures !r.Panic? && r == Compile(expr, link)
    ensures r.Ok? && EbpfTheorem.AccessesSafe(Untagged(link), expr) ==> Decides(r.value, expr, link)
  {
    AssembleIsCompile(expr, link);
    r := Generate(expr, link);
    if r.Ok? && EbpfTheorem.AccessesSafe(Untagged(link), expr) { CompiledDecides(expr, link, r.value); }
  }
}
