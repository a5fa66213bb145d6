// The code generator as the source runs it: a mutable instruction buffer, an
// explicit work stack, and slots patched in place
// (pktbaffle/src/codegen.rs:112-141, 409-700, 1682-1702).

module ClassicCodegen {
  import opened Words
  import opened Results
  import opened Bpf
  import opened Vm
  import opened Ast
  import opened Meaning
  import opened Guards
  import opened Fragments
  import opened Emission
  import opened Backpatch
  import Threading
  import Optimizer
  import Finishing
  import CompileProofs

  // ----- the work stack -----

  /** One step of the walk: an expression to emit, or the rest of an operator
      once the operands before it are done. */
  datatype Work =
    | EmitWork(e: Expr)
    | AndRight(right: Expr)
    | AndDone(leftFailure: seq<Patch>, bump: bool)
    | OrRight(right: Expr, hoist: seq<Patch>, branch: Facts, xBefore: nat)
    | OrDone(leftSuccess: seq<Patch>, ja: nat, leftFacts: Facts, hoist: seq<Patch>)
    | NotDone(entry: Facts, xBefore: nat)

  /** A finished operand: its patches, and whether it begins with `vlan`. */
  datatype Operand = Operand(patches: Patches, leading: bool)

  type Stack = seq<Operand>

  /** What the rest of the walk yields, with each pending expression compiled
      by the recursive form. */
  ghost function Continue(link: LinkType, work: seq<Work>, done: Stack, s: State): Result<(State, Stack)>
    decreases |work|, 1
  {
    if work == [] then Ok((s, done))
    else
      var rest := work[..|work| - 1];
      var w := work[|work| - 1];
      if w.EmitWork? then
        var b :- Build(w.e, link, s);
        Resume(link, rest, done, b)
      else if done == [] then Panic
      else
        var x, under := done[|done| - 1], done[..|done| - 1];
        var b :- Complete(link, w, x, s);
        Resume(link, rest, under, b)
  }

  ghost function Resume(link: LinkType, rest: seq<Work>, done: Stack, b: Built): Result<(State, Stack)>
    decreases |rest|, 2
  {
    Continue(link, rest, done + [Operand(b.patches, b.leading)], b.s)
  }

  ghost function Resumed(link: LinkType, rest: seq<Work>, done: Stack, r: Result<Built>): Result<(State, Stack)> {
    if r.Ok? then Resume(link, rest, done, r.value) else r.PropagateFailure()
  }

  /** The rest of an operator behind its finished operand `x`. */
  ghost function Complete(link: LinkType, w: Work, x: Operand, s: State): Result<Built>
    requires !w.EmitWork?
  {
    match w
    case AndRight(right) =>
      var m :- AndMiddle(s, x.patches, x.leading);
      var b :- Build(right, link, m);
      AndEnd(b.s, x.patches.failure, b.patches, x.leading)
    case AndDone(leftFailure, bump) => AndEnd(s, leftFailure, x.patches, bump)
    case OrRight(right, hoist, branch, xBefore) =>
      var m :- OrMiddle(s, x.patches, branch, xBefore);
      var b :- Build(right, link, m);
      Ok(OrEnd(b.s, x.patches.success, |s.insns|, s.facts, hoist, b.patches))
    case OrDone(leftSuccess, ja, leftFacts, hoist) => Ok(OrEnd(s, leftSuccess, ja, leftFacts, hoist, x.patches))
    case NotDone(entry, xBefore) => NotEnd(s, x.patches, entry, xBefore)
  }

  function Weight(w: Work): nat {
    match w
    case EmitWork(e) => ExprSize(e)
    case AndRight(e) => 2 + ExprSize(e)
    case OrRight(e, _, _, _) => 2 + ExprSize(e)
    case _ => 1
  }

  function TotalWeight(work: seq<Work>): nat {
    if work == [] then 0 else TotalWeight(work[..|work| - 1]) + Weight(work[|work| - 1])
  }

  lemma WeightPush(rest: seq<Work>, w: Work)
    ensures TotalWeight(rest + [w]) == TotalWeight(rest) + Weight(w)
  {
    assert (rest + [w])[..|rest|] == rest;
  }

  // ----- one step of the walk leaves its result unchanged -----

  lemma ContinueTop(link: LinkType, rest: seq<Work>, w: Work, done: Stack, s: State)
    ensures Continue(link, rest + [w], done, s) ==
            if w.EmitWork? then Resumed(link, rest, done, Build(w.e, link, s))
            else if done == [] then Panic
            else Resumed(link, rest, done[..|done| - 1], Complete(link, w, done[|done| - 1], s))
  {
    assert (rest + [w])[..|rest|] == rest;
  }

  /** An operand, then the rest of its operator. */
  ghost function Pair(link: LinkType, e: Expr, w: Work, s: State): Result<Built>
    requires !w.EmitWork?
  {
    var b :- Build(e, link, s);
    Complete(link, w, Operand(b.patches, b.leading), b.s)
  }

  lemma {:induction false} ContinueTwo(link: LinkType, rest: seq<Work>, w: Work, e: Expr, done: Stack, s: State)
    requires !w.EmitWork?
    ensures Continue(link, rest + [w, EmitWork(e)], done, s) == Resumed(link, rest, done, Pair(link, e, w, s))
    ensures TotalWeight(rest + [w, EmitWork(e)]) == TotalWeight(rest) + Weight(w) + ExprSize(e)
  {
    assert rest + [w, EmitWork(e)] == (rest + [w]) + [EmitWork(e)];
    WeightPush(rest, w);
    WeightPush(rest + [w], EmitWork(e));
    ContinueTop(link, rest + [w], EmitWork(e), done, s);
    var r := Build(e, link, s);
    if r.Ok? {
      var x := Operand(r.value.patches, r.value.leading);
      assert (done + [x])[..|done|] == done;
      ContinueTop(link, rest, w, done + [x], r.value.s);
    }
  }

  // What each operator's compile is made of.

  lemma {:induction false} AndIsPair(link: LinkType, e: Expr, s: State)
    requires e.And?
    ensures Build(e, link, s) == Pair(link, e.left, AndRight(e.right), s)
  {
  }

  lemma {:induction false} OrIsPair(link: LinkType, e: Expr, s: State)
    requires e.Or?
    ensures var h := BuildHoist(link, s, Intersect(Required(e.left), Required(e.right)));
            Build(e, link, s) ==
              if h.Ok? then Pair(link, e.left, OrRight(e.right, h.value.1, h.value.0.facts, h.value.0.xWrites), h.value.0)
              else h.PropagateFailure()
  {
  }

  lemma {:induction false} NotIsPair(link: LinkType, e: Expr, s: State)
    requires e.Not?
    ensures Build(e, link, s) == Pair(link, e.inner, NotDone(s.facts, s.xWrites), s)
  {
  }

  lemma {:induction false} AndRightIsPair(link: LinkType, right: Expr, x: Operand, s: State)
    ensures var m := AndMiddle(s, x.patches, x.leading);
            Complete(link, AndRight(right), x, s) ==
              if m.Ok? then Pair(link, right, AndDone(x.patches.failure, x.leading), m.value) else m.PropagateFailure()
  {
  }

  lemma {:induction false} OrRightIsPair(link: LinkType, w: Work, x: Operand, s: State)
    requires w.OrRight?
    ensures var m := OrMiddle(s, x.patches, w.branch, w.xBefore);
            Complete(link, w, x, s) ==
              if m.Ok? then Pair(link, w.right, OrDone(x.patches.success, |s.insns|, s.facts, w.hoist), m.value)
              else m.PropagateFailure()
  {
  }

  // ----- the generator -----

  /** The walk after one step: what is left to do, or how it ended. */
  type Progress = Result<(seq<Work>, Stack)>

  /** The step from `work`, `done` and `s` kept the walk's result and made it
      shorter. */
  ghost predicate Advances(link: LinkType, work: seq<Work>, done: Stack, s: State, p: Progress, s': State) {
    match p
    case Ok(next) =>
      && Continue(link, next.0, next.1, s') == Continue(link, work, done, s)
      && TotalWeight(next.0) < TotalWeight(work)
    case Err => Continue(link, work, done, s) == Err
    case Panic => Continue(link, work, done, s) == Panic
  }

  /** A step that replaces the top of the stack by an operand and the rest of
      its operator. */
  lemma {:induction false} PairAdvances(link: LinkType, rest: seq<Work>, top: Work, done: Stack, s: State,
                                        w: Work, e: Expr, under: Stack, s': State)
    requires !w.EmitWork? && Weight(top) > Weight(w) + ExprSize(e)
    requires Continue(link, rest + [top], done, s) == Resumed(link, rest, under, Pair(link, e, w, s'))
    ensures Advances(link, rest + [top], done, s, Ok((rest + [w, EmitWork(e)], under)), s')
  {
    WeightPush(rest, top);
    ContinueTwo(link, rest, w, e, under, s');
  }

  /** A step that finishes an operand. */
  lemma {:induction false} OperandAdvances(link: LinkType, rest: seq<Work>, top: Work, done: Stack, s: State,
                                           under: Stack, r: Result<Built>)
    requires Continue(link, rest + [top], done, s) == Resumed(link, rest, under, r) && Weight(top) > 0
    ensures r.Ok? ==> Advances(link, rest + [top], done, s,
                               Ok((rest, under + [Operand(r.value.patches, r.value.leading)])), r.value.s)
    ensures !r.Ok? ==> Advances(link, rest + [top], done, s, r.PropagateFailure(), s)
  {
    WeightPush(rest, top);
  }

  lemma {:induction false} AndRightAdvances(link: LinkType, rest: seq<Work>, right: Expr, under: Stack, x: Operand, s: State)
    ensures var m := AndMiddle(s, x.patches, x.leading);
            if m.Ok?
            then Advances(link, rest + [AndRight(right)], under + [x], s,
                          Ok((rest + [AndDone(x.patches.failure, x.leading), EmitWork(right)], under)), m.value)
            else Advances(link, rest + [AndRight(right)], under + [x], s, m.PropagateFailure(), s)
  {
    ContinueTop(link, rest, AndRight(right), under + [x], s);
    AndRightIsPair(link, right, x, s);
    assert (under + [x])[..|under|] == under;
    var m := AndMiddle(s, x.patches, x.leading);
    if m.Ok? {
      PairAdvances(link, rest, AndRight(right), under + [x], s, AndDone(x.patches.failure, x.leading), right, under, m.value);
    }
  }

  lemma {:induction false} OrRightAdvances(link: LinkType, rest: seq<Work>, top: Work, under: Stack, x: Operand, s: State)
    requires top.OrRight?
    ensures var m := OrMiddle(s, x.patches, top.branch, top.xBefore);
            if m.Ok?
            then Advances(link, rest + [top], under + [x], s,
                          Ok((rest + [OrDone(x.patches.success, |s.insns|, s.facts, top.hoist), EmitWork(top.right)], under)), m.value)
            else Advances(link, rest + [top], under + [x], s, m.PropagateFailure(), s)
  {
    ContinueTop(link, rest, top, under + [x], s);
    OrRightIsPair(link, top, x, s);
    assert (under + [x])[..|under|] == under;
    var m := OrMiddle(s, x.patches, top.branch, top.xBefore);
    if m.Ok? {
      PairAdvances(link, rest, top, under + [x], s, OrDone(x.patches.success, |s.insns|, s.facts, top.hoist), top.right, under, m.value);
    }
  }

  /** The last step of an operator. */
  lemma {:induction false} DoneAdvances(link: LinkType, rest: seq<Work>, top: Work, under: Stack, x: Operand, s: State)
    requires top.AndDone? || top.OrDone? || top.NotDone?
    ensures var r := Complete(link, top, x, s);
            if r.Ok?
            then Advances(link, rest + [top], under + [x], s, Ok((rest, under + [Operand(r.value.patches, r.value.leading)])), r.value.s)
            else Advances(link, rest + [top], under + [x], s, r.PropagateFailure(), s)
  {
    ContinueTop(link, rest, top, under + [x], s);
    assert (under + [x])[..|under|] == under;
    OperandAdvances(link, rest, top, under + [x], s, under, Complete(link, top, x, s));
  }

  /** The first `n` instructions of a fragment, as pushed. */
  function PlacedTo(f: Frag, n: nat): Program
    requires n <= |f|
  {
    if n == 0 then [] else PlacedTo(f, n - 1) + [Place(f[n - 1])]
  }

  function XWritesTo(f: Frag, n: nat): nat
    requires n <= |f|
  {
    if n == 0 then 0 else XWritesTo(f, n - 1) + if WritesX(Place(f[n - 1])) then 1 else 0
  }

  lemma {:induction false} PlacedIsAll(f: Frag, n: nat)
    requires n <= |f|
    ensures PlacedTo(f, n) == PlaceAll(f)[..n] && XWritesTo(f, n) == XWrites(f[..n])
    decreases n
  {
    if n > 0 {
      PlacedIsAll(f, n - 1);
      assert PlaceAll(f)[..n] == PlaceAll(f)[..n - 1] + [Place(f[n - 1])];
      assert f[..n][..n - 1] == f[..n - 1];
    }
  }

  lemma PlacedAll(f: Frag)
    ensures PlacedTo(f, |f|) == PlaceAll(f) && XWritesTo(f, |f|) == XWrites(f)
  {
    PlacedIsAll(f, |f|);
    assert PlaceAll(f)[..|f|] == PlaceAll(f) && f[..|f|] == f;
  }

  class Codegen {
    const link: LinkType
    var insns: Program
    var facts: Facts
    var xWrites: nat
    var vlanDepth: nat

    constructor (link: LinkType)
      ensures this.link == link && Now() == InitialState(link)
    {
      this.link := link;
      insns := [];
      facts := InitialFacts(link);
      xWrites := 0;
      vlanDepth := 0;
    }

    function Now(): State
      reads this
    {
      State(insns, facts, xWrites, vlanDepth)
    }

    /** Writing X invalidates the transport-offset fact. */
    method Push(insn: Insn) returns (idx: nat)
      modifies this
      ensures idx == old(|insns|) && insns == old(insns) + [insn] && vlanDepth == old(vlanDepth)
      ensures xWrites == old(xWrites) + if WritesX(insn) then 1 else 0
      ensures facts == if WritesX(insn) then old(facts).(portsReady := None) else old(facts)
    {
      if WritesX(insn) {
        xWrites := xWrites + 1;
        facts := facts.(portsReady := None);
      }
      idx := |insns|;
      insns := insns + [insn];
    }

    /** `resolve_all`: patch the slots one after the other, in place. */
    method ResolveSlots(ps: seq<Patch>, target: nat) returns (r: Result<()>)
      modifies this`insns
      ensures var all := ResolveAll(old(insns), ps, target);
              && (r.Ok? <==> all.Ok?) && (r.Panic? <==> all.Panic?)
              && (r.Ok? ==> insns == all.value)
    {
      for i := 0 to |ps|
        invariant ResolveAll(insns, ps[i..], target) == ResolveAll(old(insns), ps, target)
      {
        var one := Resolve(insns, ps[i], target);
        assert ps[i..][0] == ps[i] && ps[i..][1..] == ps[i + 1..];
        if !one.Ok? { return one.PropagateFailure(); }
        insns := one.value;
      }
      return Ok(());
    }

    /** Push a fragment's instructions; the result lists its pending slots. */
    method PushAll(f: Frag) returns (p: Patches)
      modifies this
      ensures insns == old(insns) + PlaceAll(f) && vlanDepth == old(vlanDepth)
      ensures xWrites == old(xWrites) + XWrites(f)
      ensures p == PendingOf(f, old(|insns|))
    {
      var base := |insns|;
      for i := 0 to |f|
        invariant insns == old(insns) + PlacedTo(f, i) && |PlacedTo(f, i)| == i && vlanDepth == old(vlanDepth)
        invariant xWrites == old(xWrites) + XWritesTo(f, i)
      {
        var _ := Push(Place(f[i]));
      }
      PlacedAll(f);
      return PendingOf(f, base);
    }

    /** `emit_primitive`: the instructions, the facts behind them, the slots. */
    method EmitPrimitive(prim: Primitive) returns (r: Result<Patches>)
      modifies this
      ensures var b := BuildPrim(link, old(Now()), prim);
              && (r.Ok? <==> b.Ok?) && (r.Panic? <==> b.Panic?)
              && (r.Ok? ==> Now() == b.value.s && r.value == b.value.patches)
    {
      var em := EmitPrim(Layout(link, vlanDepth), facts, prim);
      if !em.Ok? { return em.PropagateFailure(); }
      if !ShortJumps(em.value.frag) { return Err; }
      var p := PushEmitted(em.value);
      return Ok(p);
    }

    /** Push emitted code and record its facts. */
    method PushEmitted(em: Emitted) returns (p: Patches)
      modifies this
      ensures Now() == Append(old(Now()), em) && p == PendingOf(em.frag, old(|insns|))
    {
      p := PushAll(em.frag);
      facts := em.facts;
    }

    /** `emit_or_hoist`, its guards from the memoised analysis. */
    method EmitOrHoist(left: Expr, right: Expr, memo: Memo) returns (r: Result<seq<Patch>>, memo': Memo)
      requires MemoRight(memo)
      modifies this
      ensures MemoRight(memo')
      ensures var h := BuildHoist(link, old(Now()), Intersect(Required(left), Required(right)));
              && (r.Ok? <==> h.Ok?) && (r.Panic? <==> h.Panic?)
              && (r.Ok? ==> Now() == h.value.0 && r.value == h.value.1)
    {
      var gl, m := RequiredGuards(left, memo);
      var gr, m' := RequiredGuards(right, m);
      memo' := m';
      var em := EmitHoist(Layout(link, vlanDepth), facts, Intersect(gl, gr));
      if !em.Ok? { return em.PropagateFailure(), memo'; }
      if !ShortJumps(em.value.frag) { return Err, memo'; }
      var p := PushEmitted(em.value);
      return Ok(p.failure), memo';
    }

    /** A pending expression: emit a primitive, or put its first operand and the
        rest of its operator on the stack. */
    method Enter(e: Expr, rest: seq<Work>, done: Stack, memo: Memo) returns (p: Progress, memo': Memo)
      requires MemoRight(memo)
      modifies this
      ensures MemoRight(memo')
      ensures Advances(link, rest + [EmitWork(e)], done, old(Now()), p, Now())
    {
      memo' := memo;
      ghost var s := Now();
      ContinueTop(link, rest, EmitWork(e), done, s);
      match e {
        case Prim(prim) =>
          OperandAdvances(link, rest, EmitWork(e), done, s, done, BuildPrim(link, s, prim));
          var r := EmitPrimitive(prim);
          if !r.Ok? { return r.PropagateFailure(), memo'; }
          return Ok((rest, done + [Operand(r.value, prim.Vlan?)])), memo';
        case And(left, right) =>
          AndIsPair(link, e, s);
          PairAdvances(link, rest, EmitWork(e), done, s, AndRight(right), left, done, s);
          return Ok((rest + [AndRight(right), EmitWork(left)], done)), memo';
        case Or(left, right) =>
          OrIsPair(link, e, s);
          var h, m := EmitOrHoist(left, right, memo');
          memo' := m;
          if !h.Ok? { return h.PropagateFailure(), memo'; }
          var w := OrRight(right, h.value, facts, xWrites);
          PairAdvances(link, rest, EmitWork(e), done, s, w, left, done, Now());
          return Ok((rest + [w, EmitWork(left)], done)), memo';
        case Not(inner) =>
          NotIsPair(link, e, s);
          var w := NotDone(facts, xWrites);
          PairAdvances(link, rest, EmitWork(e), done, s, w, inner, done, s);
          return Ok((rest + [w, EmitWork(inner)], done)), memo';
      }
    }

    /** The left operand's success slots lead here; a leading `vlan` shifts what
        follows. */
    method StartRight(left: Patches, bump: bool) returns (r: Result<()>)
      modifies this
      ensures var m := AndMiddle(old(Now()), left, bump);
              && (r.Ok? <==> m.Ok?) && (r.Panic? <==> m.Panic?) && (r.Ok? ==> Now() == m.value)
    {
      r := ResolveSlots(left.success, |insns|);
      if r.Ok? && bump { vlanDepth := vlanDepth + 1; }
    }

    /** A jump behind an operand whose failures go on behind that jump, under
        the facts from before the operand unless it wrote X. */
    method JumpOver(entry: Facts, xBefore: nat, failure: seq<Patch>) returns (r: Result<nat>)
      modifies this
      ensures var all := ResolveAll(old(insns) + [Ja(0)], failure, old(|insns|) + 1);
              && (r.Ok? <==> all.Ok?) && (r.Panic? <==> all.Panic?)
              && (r.Ok? ==>
                    && r.value == old(|insns|)
                    && Now() == State(all.value, RestoreFacts(entry, xBefore, old(xWrites)), old(xWrites), old(vlanDepth)))
    {
      facts := entry;
      if xWrites != xBefore { facts := facts.(portsReady := None); }
      var ja := Push(Ja(0));
      var done := ResolveSlots(failure, |insns|);
      if !done.Ok? { return done.PropagateFailure(); }
      return Ok(ja);
    }

    /** Between the operands of `and`. */
    method BetweenAnd(right: Expr, rest: seq<Work>, under: Stack, x: Operand) returns (p: Progress)
      modifies this
      ensures Advances(link, rest + [AndRight(right)], under + [x], old(Now()), p, Now())
    {
      AndRightAdvances(link, rest, right, under, x, Now());
      var r := StartRight(x.patches, x.leading);
      if !r.Ok? { return r.PropagateFailure(); }
      return Ok((rest + [AndDone(x.patches.failure, x.leading), EmitWork(right)], under));
    }

    /** Between the arms of `or`: jump over the right arm, which the left arm's
        failures try. */
    method BetweenOr(top: Work, rest: seq<Work>, under: Stack, x: Operand) returns (p: Progress)
      requires top.OrRight?
      modifies this
      ensures Advances(link, rest + [top], under + [x], old(Now()), p, Now())
    {
      OrRightAdvances(link, rest, top, under, x, Now());
      var leftFacts := facts;
      var ja := JumpOver(top.branch, top.xBefore, x.patches.failure);
      if !ja.Ok? { return ja.PropagateFailure(); }
      return Ok((rest + [OrDone(x.patches.success, ja.value, leftFacts, top.hoist), EmitWork(top.right)], under));
    }

    /** Behind `not`: its operand's failures succeed, everything else fails. */
    method AfterNot(top: Work, rest: seq<Work>, under: Stack, x: Operand) returns (p: Progress)
      requires top.NotDone?
      modifies this
      ensures Advances(link, rest + [top], under + [x], old(Now()), p, Now())
    {
      DoneAdvances(link, rest, top, under, x, Now());
      var ja := JumpOver(top.entry, top.xBefore, x.patches.failure);
      if !ja.Ok? { return ja.PropagateFailure(); }
      return Ok((rest, under + [Operand(Patches([], x.patches.success + [PatchJa(ja.value)]), false)]));
    }

    /** Behind the right operand of `and` or `or`: join the patch lists. */
    method AfterRight(top: Work, rest: seq<Work>, under: Stack, x: Operand) returns (p: Progress)
      requires top.AndDone? || top.OrDone?
      modifies this
      ensures Advances(link, rest + [top], under + [x], old(Now()), p, Now())
    {
      DoneAdvances(link, rest, top, under, x, Now());
      match top {
        case AndDone(leftFailure, bump) =>
          if bump && vlanDepth == 0 { return Panic; }
          if bump { vlanDepth := vlanDepth - 1; }
          return Ok((rest, under + [Operand(Patches(x.patches.success, Concat(leftFailure, x.patches.failure)), bump)]));
        case OrDone(leftSuccess, ja, leftFacts, hoist) =>
          facts := MeetFacts(leftFacts, facts);
          var success := Concat(leftSuccess + [PatchJa(ja)], x.patches.success);
          return Ok((rest, under + [Operand(Patches(success, Concat(x.patches.failure, hoist)), false)]));
      }
    }

    /** One turn of the walk: pop the top of the stack and do it. */
    method OneStep(work: seq<Work>, done: Stack, memo: Memo) returns (p: Progress, memo': Memo)
      requires work != [] && MemoRight(memo)
      modifies this
      ensures MemoRight(memo')
      ensures Advances(link, work, done, old(Now()), p, Now())
    {
      memo' := memo;
      var top, rest := work[|work| - 1], work[..|work| - 1];
      assert work == rest + [top];
      if top.EmitWork? {
        p, memo' := Enter(top.e, rest, done, memo);
      } else if done == [] {
        ContinueTop(link, rest, top, done, Now());
        p := Panic;
      } else {
        var x, under := done[|done| - 1], done[..|done| - 1];
        assert done == under + [x];
        p := Leave(top, rest, under, x);
      }
    }

    /** The rest of an operator, behind its finished operand. */
    method Leave(top: Work, rest: seq<Work>, under: Stack, x: Operand) returns (p: Progress)
      requires !top.EmitWork?
      modifies this
      ensures Advances(link, rest + [top], under + [x], old(Now()), p, Now())
    {
      if top.AndRight? {
        p := BetweenAnd(top.right, rest, under, x);
      } else if top.OrRight? {
        p := BetweenOr(top, rest, under, x);
      } else if top.NotDone? {
        p := AfterNot(top, rest, under, x);
      } else {
        p := AfterRight(top, rest, under, x);
      }
    }

    /** `emit_expr`: the walk with explicit stacks emits the code and the patch
        lists of the recursive compile. */
    method EmitExpr(expr: Expr) returns (r: Result<Patches>)
      modifies this
      ensures var b := Build(expr, link, old(Now()));
              && (r.Ok? <==> b.Ok?) && (r.Panic? <==> b.Panic?)
              && (r.Ok? ==> Now() == b.value.s && r.value == b.value.patches)
    {
      var work := [EmitWork(expr)];
      var done: Stack := [];
      var memo: Memo := map[];
      ghost var end := Resumed(link, [], [], Build(expr, link, Now()));
      assert work == [] + [EmitWork(expr)];
      ContinueTop(link, [], EmitWork(expr), [], Now());
      while work != []
        invariant MemoRight(memo)
        invariant Continue(link, work, done, Now()) == end
        decreases TotalWeight(work)
      {
        var p;
        p, memo := OneStep(work, done, memo);
        if !p.Ok? { return p.PropagateFailure(); }
        work, done := p.value.0, p.value.1;
      }
      if done == [] { return Panic; }
      return Ok(done[|done| - 1].patches);
    }

    /** The terminal returns, and every slot left resolved to one of them. */
    method Finish(patches: Patches) returns (r: Result<Program>)
      modifies this
      ensures r == Terminate(old(Now()), patches)
    {
      ghost var was := insns;
      var accept := Push(RetK(BPF_ACCEPT));
      var drop := Push(RetK(BPF_DROP));
      assert insns == was + [RetK(BPF_ACCEPT), RetK(BPF_DROP)];
      var first := ResolveSlots(patches.success, accept);
      if !first.Ok? { return first.PropagateFailure(); }
      var second := ResolveSlots(patches.failure, drop);
      if !second.Ok? { return second.PropagateFailure(); }
      return Ok(insns);
    }
  }

  /** `compile` up to the optimizer: the recursive compile, step by step. */
  method Generate(expr: Expr, link: LinkType) returns (r: Result<Program>)
    ensures r == Assemble(expr, link)
  {
    var cg := new Codegen(link);
    var patches := cg.EmitExpr(expr);
    if !patches.Ok? { return patches.PropagateFailure(); }
    r := cg.Finish(patches.value);
  }

  /** `compile`: never panics, and succeeds exactly when the patch-list compile
      does. Every instruction of the result is reachable and every jump stays
      inside. Where facts stay right across tags (`Tracked`) the program
      implements the expression. The bound is what `ja` offsets can express. */
  method Compile(expr: Expr, link: LinkType) returns (r: Result<Program>)
    ensures !r.Panic? && (r.Ok? <==> Assemble(expr, link).Ok?)
    ensures r.Ok? ==> forall j :: 0 <= j < |r.value| ==> Reachable(r.value, j)
    ensures r.Ok? && |Assemble(expr, link).value| <= U32_SIZE ==>
            && InRange(r.value)
            && (CompileProofs.Covered(expr) ==> CompileProofs.Implements(r.value, expr, link))
            && forall pkt :: Outcomes(r.value, pkt) == Outcomes(Assemble(expr, link).value, pkt)
  {
    ghost var em := Finishing.AssembleFinishes(expr, link);
    var prog := Generate(expr, link);
    if !prog.Ok? { return prog.PropagateFailure(); }
    var out := Optimizer.Optimize(prog.value);
    if |prog.value| <= U32_SIZE { OptimizedImplements(expr, link, prog.value, out); }
    return Ok(out);
  }

  lemma OptimizedImplements(expr: Expr, link: LinkType, prog: Program, out: Program)
    requires Assemble(expr, link) == Ok(prog) && InRange(prog) && |prog| <= U32_SIZE
    requires Threading.ChainsFit(prog) ==> forall pkt :: Outcomes(out, pkt) == Outcomes(prog, pkt)
    ensures forall pkt :: Outcomes(out, pkt) == Outcomes(prog, pkt)
    ensures CompileProofs.Covered(expr) ==> CompileProofs.Implements(out, expr, link)
  {
    Threading.InRangeChainsFit(prog);
    if CompileProofs.Covered(expr) {
      CompileProofs.AssembledImplements(expr, link);
      CompileProofs.SameOutcomesImplement(prog, out, expr, link);
    }
  }
}
