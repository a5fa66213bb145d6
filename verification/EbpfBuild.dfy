// eBPF code generation with slots to patch
// (pktbaffle/src/ebpf_codegen.rs:42-113, 282-351, 1112-1131), in recursive
// form, and that it builds the symbolic code.

module EbpfBuild {
  import opened Words
  import opened Results
  import opened Ast
  import opened Meaning
  import opened EbpfVm
  import opened EbpfCode
  import opened EbpfEmit
  import Backpatch
  import opened PatchProofs

  /** Slots are instruction indices: a jump has one offset. */
  datatype Patches = Patches(success: seq<nat>, failure: seq<nat>)

  /** `resolve`: a forward distance that must fit 15 bits. */
  function ResolveSlot(insns: EbpfVm.Program, i: nat, target: nat): Result<EbpfVm.Program> {
    if i >= |insns| || target <= i || !insns[i].Jump? then Panic
    else if target - i - 1 > 0x7fff then Err
    else Ok(insns[i := insns[i].(off := target - i - 1)])
  }

  function ResolveSlots(insns: EbpfVm.Program, ps: seq<nat>, target: nat): Result<EbpfVm.Program>
    decreases |ps|
  {
    if ps == [] then Ok(insns)
    else
      var insns' :- ResolveSlot(insns, ps[0], target);
      ResolveSlots(insns', ps[1..], target)
  }

  /** The slots of the first `n` instructions of a fragment at `base` that wait
      for `to`. */
  function SlotsOf(f: Frag, base: nat, to: Target, n: nat): seq<nat>
    requires n <= |f|
  {
    if n == 0 then []
    else SlotsOf(f, base, to, n - 1) + if f[n - 1].Branch? && f[n - 1].to == to then [base + n - 1] else []
  }

  function PendingOf(f: Frag, base: nat): Patches {
    Patches(SlotsOf(f, base, ToSucc, |f|), SlotsOf(f, base, ToFail, |f|))
  }

  /** A finished operand: the code so far and its pending slots. */
  datatype Built = Built(insns: EbpfVm.Program, patches: Patches)

  const JA: Code := Jump(Always, 0)

  function BuildPrim(lay: Layout, insns: EbpfVm.Program, p: Primitive): Result<Built> {
    var f :- EmitPrim(lay, p);
    if ShortJumps(f) then Ok(Built(insns + PlaceAll(f), PendingOf(f, |insns|))) else Err
  }

  // The steps between operands, shared by the recursive and the stack form.

  function AndMiddle(a: Built): Result<EbpfVm.Program> { ResolveSlots(a.insns, a.patches.success, |a.insns|) }

  function AndEnd(leftFailure: seq<nat>, b: Built): Built {
    Built(b.insns, Patches(b.patches.success, Backpatch.Concat(leftFailure, b.patches.failure)))
  }

  /** A jump behind the operand, whose failures go on behind that jump. */
  function JumpOver(a: Built): Result<EbpfVm.Program> { ResolveSlots(a.insns + [JA], a.patches.failure, |a.insns| + 1) }

  function OrEnd(leftSuccess: seq<nat>, ja: nat, b: Built): Built {
    Built(b.insns, Patches(Backpatch.Concat(leftSuccess + [ja], b.patches.success), b.patches.failure))
  }

  function NotEnd(a: Built): Result<Built> {
    var insns :- JumpOver(a);
    Ok(Built(insns, Patches([], a.patches.success + [|a.insns|])))
  }

  /** The recursive compile with patch lists. */
  function Build(e: Expr, lay: Layout, insns: EbpfVm.Program): Result<Built>
    decreases e
  {
    match e
    case Prim(p) => BuildPrim(lay, insns, p)
    case And(l, r) =>
      var a :- Build(l, lay, insns);
      var m :- AndMiddle(a);
      var b :- Build(r, lay, m);
      Ok(AndEnd(a.patches.failure, b))
    case Or(l, r) =>
      var a :- Build(l, lay, insns);
      var m :- JumpOver(a);
      var b :- Build(r, lay, m);
      Ok(OrEnd(a.patches.success, |a.insns|, b))
    case Not(x) =>
      var a :- Build(x, lay, insns);
      NotEnd(a)
  }

  /** Both epilogues, and every remaining slot resolved to one of them. */
  function Terminate(b: Built): Result<EbpfVm.Program> {
    var n := |b.insns|;
    var insns :- ResolveSlots(b.insns + EPILOGUE, b.patches.success, n);
    ResolveSlots(insns, b.patches.failure, n + 2)
  }

  function Assemble(e: Expr, link: LinkType): Result<EbpfVm.Program> {
    var b :- Build(e, Untagged(link), PROLOGUE);
    Terminate(b)
  }

  // ----- slots -----

  predicate IsPending(f: Frag, base: nat, p: nat, to: Target) {
    base <= p < base + |f| && f[p - base].Branch? && f[p - base].to == to
  }

  /** The list holds exactly the slots of the fragment that wait for `to`, each
      once. */
  ghost predicate ListsPending(ps: seq<nat>, f: Frag, base: nat, to: Target) {
    NoDuplicates(ps) && forall p: nat :: p in ps <==> IsPending(f, base, p, to)
  }

  ghost predicate BothPending(p: Patches, f: Frag, base: nat) {
    ListsPending(p.success, f, base, ToSucc) && ListsPending(p.failure, f, base, ToFail)
  }

  lemma {:induction false} SlotsOfList(f: Frag, base: nat, to: Target, n: nat)
    requires n <= |f|
    ensures NoDuplicates(SlotsOf(f, base, to, n))
    ensures forall p: nat :: p in SlotsOf(f, base, to, n) <==> IsPending(f, base, p, to) && p < base + n
  {
    if n > 0 {
      SlotsOfList(f, base, to, n - 1);
      var a, b := SlotsOf(f, base, to, n - 1), if f[n - 1].Branch? && f[n - 1].to == to then [base + n - 1] else [];
      ConcatOneWay(a, b);
      assert SlotsOf(f, base, to, n) == a + b;
    }
  }

  lemma PendingOfLists(f: Frag, base: nat)
    ensures BothPending(PendingOf(f, base), f, base)
  {
    SlotsOfList(f, base, ToSucc, |f|);
    SlotsOfList(f, base, ToFail, |f|);
  }

  lemma PendingAppend(f: Frag, g: Frag, base: nat, p: nat, to: Target)
    ensures IsPending(f + g, base, p, to) <==> IsPending(f, base, p, to) || IsPending(g, base + |f|, p, to)
  {
  }

  lemma PendingLink(f: Frag, base: nat, s: Dest, l: Dest, p: nat, to: Target)
    requires GoodDest(s, |f|) && GoodDest(l, |f|) && !to.Rel?
    ensures IsPending(Link(f, s, l), base, p, to) <==>
            (s == Dest.Pending(to) && IsPending(f, base, p, ToSucc)) || (l == Dest.Pending(to) && IsPending(f, base, p, ToFail))
  {
  }

  // ----- code with unresolved slots -----

  predicate FitsCode(c: Code, o: Op) {
    match o
    case Plain(i) => c == Do(i)
    case Branch(t, to) => c.Jump? && c.t == t && (to.Rel? ==> c.off == to.off)
  }

  predicate Shows(insns: EbpfVm.Program, base: nat, f: Frag) {
    base + |f| <= |insns| && forall i :: 0 <= i < |f| ==> FitsCode(insns[base + i], f[i])
  }

  predicate Keeps(p: EbpfVm.Program, q: EbpfVm.Program) { |p| <= |q| && forall i :: 0 <= i < |p| ==> q[i] == p[i] }

  /** `b` is the fragment appended to `before`, its slots on the lists. */
  ghost predicate Refines(b: Built, f: Frag, before: EbpfVm.Program) {
    && |b.insns| == |before| + |f| && Keeps(before, b.insns) && Shows(b.insns, |before|, f)
    && BothPending(b.patches, f, |before|)
  }

  predicate PatchableAt(insns: EbpfVm.Program, i: nat, t: nat) { i < |insns| && i < t && insns[i].Jump? }

  lemma {:induction false} SlotsNoPanic(insns: EbpfVm.Program, ps: seq<nat>, t: nat)
    requires forall i :: i in ps ==> PatchableAt(insns, i, t)
    ensures !ResolveSlots(insns, ps, t).Panic?
    ensures ResolveSlots(insns, ps, t).Ok? <==> forall i :: i in ps ==> t - i <= 0x8000
    decreases |ps|
  {
    if ps != [] {
      assert PatchableAt(insns, ps[0], t);
      var r := ResolveSlot(insns, ps[0], t);
      if r.Ok? {
        forall i | i in ps[1..] ensures PatchableAt(r.value, i, t) { assert PatchableAt(insns, i, t); }
        SlotsNoPanic(r.value, ps[1..], t);
        assert forall i :: i in ps <==> i == ps[0] || i in ps[1..];
      }
    }
  }

  /** An instruction after patching: unchanged, or the distance to `t`. */
  predicate CodeAfter(was: Code, now: Code, i: nat, patched: bool, t: nat) {
    if patched then was.Jump? && now.Jump? && now.t == was.t && i + 1 + now.off == t && now.off <= 0x7fff else now == was
  }

  lemma {:induction false} SlotsAt(insns: EbpfVm.Program, ps: seq<nat>, t: nat, i: nat)
    requires ResolveSlots(insns, ps, t).Ok? && i < |insns|
    ensures |ResolveSlots(insns, ps, t).value| == |insns|
    ensures CodeAfter(insns[i], ResolveSlots(insns, ps, t).value[i], i, i in ps, t)
    decreases |ps|
  {
    if ps != [] {
      var insns' := ResolveSlot(insns, ps[0], t).value;
      SlotsAt(insns', ps[1..], t, i);
      assert i in ps <==> i == ps[0] || i in ps[1..];
    }
  }

  lemma {:induction false} SlotsKeepLength(insns: EbpfVm.Program, ps: seq<nat>, t: nat)
    requires ResolveSlots(insns, ps, t).Ok?
    ensures |ResolveSlots(insns, ps, t).value| == |insns|
    decreases |ps|
  {
    if ps != [] { SlotsKeepLength(ResolveSlot(insns, ps[0], t).value, ps[1..], t); }
  }

  function SuccTo(to: Target, t: nat): Dest { if to == ToSucc then At(t) else Dest.Pending(ToSucc) }

  function FailTo(to: Target, t: nat): Dest { if to == ToFail then At(t) else Dest.Pending(ToFail) }

  lemma LinkedFitsCode(was: Code, now: Code, o: Op, base: nat, i: nat, patched: bool, to: Target, t: nat)
    requires FitsCode(was, o) && CodeAfter(was, now, base + i, patched, base + t) && !to.Rel? && i < t
    requires patched <==> o.Branch? && o.to == to
    ensures FitsCode(now, LinkOp(o, i, SuccTo(to, t), FailTo(to, t)))
  {
  }

  /** Resolving all the slots of `f` that wait for `to` links `f`. */
  lemma {:induction false} SlotsLink(insns: EbpfVm.Program, base: nat, f: Frag, to: Target, ps: seq<nat>, t: nat)
    requires Shows(insns, base, f) && !to.Rel? && t >= |f| && ListsPending(ps, f, base, to)
    requires ResolveSlots(insns, ps, base + t).Ok?
    ensures var out := ResolveSlots(insns, ps, base + t).value;
            && |out| == |insns|
            && (forall i :: 0 <= i < |out| && !(base <= i < base + |f|) ==> out[i] == insns[i])
            && Shows(out, base, Link(f, SuccTo(to, t), FailTo(to, t)))
  {
    var out := ResolveSlots(insns, ps, base + t).value;
    SlotsKeepLength(insns, ps, base + t);
    forall i | 0 <= i < |out| && !(base <= i < base + |f|) ensures out[i] == insns[i] {
      SlotsAt(insns, ps, base + t, i);
      assert i in ps <==> IsPending(f, base, i, to);
    }
    var g := Link(f, SuccTo(to, t), FailTo(to, t));
    forall i | 0 <= i < |f| ensures FitsCode(out[base + i], g[i]) {
      SlotsAt(insns, ps, base + t, base + i);
      assert base + i in ps <==> IsPending(f, base, base + i, to);
      LinkedFitsCode(insns[base + i], out[base + i], f[i], base, i, base + i in ps, to, t);
    }
  }

  lemma {:induction false} PendingPatchable(insns: EbpfVm.Program, base: nat, f: Frag, to: Target, ps: seq<nat>, t: nat)
    requires Shows(insns, base, f) && t >= base + |f| && ListsPending(ps, f, base, to)
    ensures forall i :: i in ps ==> PatchableAt(insns, i, t) && i >= base
  {
    forall i | i in ps ensures PatchableAt(insns, i, t) && i >= base {
      assert IsPending(f, base, i, to);
      assert FitsCode(insns[base + (i - base)], f[i - base]);
    }
  }

  // ----- one operand at a time -----

  lemma ShowsAppend(insns: EbpfVm.Program, base: nat, f: Frag, g: Frag)
    requires Shows(insns, base, f) && Shows(insns, base + |f|, g)
    ensures Shows(insns, base, f + g)
  {
    forall i | 0 <= i < |f + g| ensures FitsCode(insns[base + i], (f + g)[i]) {
      if i >= |f| { assert FitsCode(insns[base + |f| + (i - |f|)], g[i - |f|]); }
    }
  }

  lemma ShowsSame(p: EbpfVm.Program, q: EbpfVm.Program, base: nat, f: Frag)
    requires Shows(p, base, f) && base + |f| <= |q|
    requires forall i :: base <= i < base + |f| ==> q[i] == p[i]
    ensures Shows(q, base, f)
  {
    forall i | 0 <= i < |f| ensures FitsCode(q[base + i], f[i]) { assert FitsCode(p[base + i], f[i]); }
  }

  /** Linking keeps jumps short exactly when the slots it resolves are near. */
  lemma {:induction false} ShortWhenNear(f: Frag, base: nat, to: Target, ps: seq<nat>, t: nat)
    requires ShortJumps(f) && !to.Rel? && t >= |f| && ListsPending(ps, f, base, to)
    ensures ShortJumps(Link(f, SuccTo(to, t), FailTo(to, t))) <==> forall i :: i in ps ==> base + t - i <= 0x8000
  {
    var g := Link(f, SuccTo(to, t), FailTo(to, t));
    if forall i :: i in ps ==> base + t - i <= 0x8000 {
      forall i | 0 <= i < |g| && g[i].Branch? && g[i].to.Rel? ensures g[i].to.off <= 0x7fff {
        assert g[i] == LinkOp(f[i], i, SuccTo(to, t), FailTo(to, t));
        if f[i].to == to { assert IsPending(f, base, base + i, to); }
      }
    }
    if ShortJumps(g) {
      forall i | i in ps ensures base + t - i <= 0x8000 {
        assert IsPending(f, base, i, to);
        assert g[i - base] == LinkOp(f[i - base], i - base, SuccTo(to, t), FailTo(to, t));
      }
    }
  }

  /** `insns` is `before` with the fragment behind it. */
  ghost predicate Extends(insns: EbpfVm.Program, before: EbpfVm.Program, f: Frag) {
    |insns| == |before| + |f| && Keeps(before, insns) && Shows(insns, |before|, f)
  }

  /** Resolving one of an operand's lists to the end of the code, which may have
      grown since: it cannot panic, fails exactly when a jump gets too long, and
      links the operand. */
  lemma {:induction false} ResolveOperand(before: EbpfVm.Program, insns: EbpfVm.Program, all: EbpfVm.Program, f: Frag, to: Target, ps: seq<nat>)
    requires Extends(insns, before, f) && Keeps(insns, all) && ShortJumps(f)
    requires !to.Rel? && ListsPending(ps, f, |before|, to)
    ensures var r, t := ResolveSlots(all, ps, |all|), |all| - |before|;
            var g := Link(f, SuccTo(to, t), FailTo(to, t));
            && !r.Panic? && (r.Ok? <==> ShortJumps(g))
            && (r.Ok? ==>
                  && |r.value| == |all| && Keeps(before, r.value) && Shows(r.value, |before|, g)
                  && forall i :: |insns| <= i < |all| ==> r.value[i] == all[i])
  {
    var base, t := |before|, |all| - |before|;
    ShowsSame(insns, all, base, f);
    PendingPatchable(all, base, f, to, ps, |all|);
    SlotsNoPanic(all, ps, |all|);
    ShortWhenNear(f, base, to, ps, t);
    assert base + t == |all|;
    if ResolveSlots(all, ps, |all|).Ok? { SlotsLink(all, base, f, to, ps, t); }
  }

  // ----- lists of composed code -----

  lemma {:induction false} AndLists(p: Patches, q: Patches, f: Frag, g: Frag, base: nat)
    requires BothPending(p, f, base) && BothPending(q, g, base + |f|)
    ensures BothPending(Patches(q.success, Backpatch.Concat(p.failure, q.failure)), AndFrag(f, g), base)
  {
    var linked := Link(f, At(|f|), Pending(ToFail));
    ConcatNoDuplicates(p.failure, q.failure);
    forall x: nat ensures x in q.success <==> IsPending(AndFrag(f, g), base, x, ToSucc)
      ensures x in Backpatch.Concat(p.failure, q.failure) <==> IsPending(AndFrag(f, g), base, x, ToFail)
    {
      PendingAppend(linked, g, base, x, ToSucc);
      PendingAppend(linked, g, base, x, ToFail);
      PendingLink(f, base, At(|f|), Pending(ToFail), x, ToSucc);
      PendingLink(f, base, At(|f|), Pending(ToFail), x, ToFail);
    }
  }

  lemma {:induction false} NotLists(p: Patches, f: Frag, base: nat)
    requires BothPending(p, f, base)
    ensures BothPending(Patches([], p.success + [base + |f|]), NotFrag(f), base)
  {
    var linked, tail := Link(f, Pending(ToFail), At(|f| + 1)), [Goto(ToFail)];
    ConcatNoDuplicates(p.success, [base + |f|]);
    forall x: nat ensures !IsPending(NotFrag(f), base, x, ToSucc)
      ensures x in p.success + [base + |f|] <==> IsPending(NotFrag(f), base, x, ToFail)
    {
      PendingAppend(linked, tail, base, x, ToSucc);
      PendingAppend(linked, tail, base, x, ToFail);
      PendingLink(f, base, Pending(ToFail), At(|f| + 1), x, ToSucc);
      PendingLink(f, base, Pending(ToFail), At(|f| + 1), x, ToFail);
    }
  }

  lemma {:induction false} PendingOr(f: Frag, g: Frag, base: nat, x: nat)
    ensures IsPending(OrFrag(f, g), base, x, ToSucc) <==>
            IsPending(f, base, x, ToSucc) || x == base + |f| || IsPending(g, base + |f| + 1, x, ToSucc)
    ensures IsPending(OrFrag(f, g), base, x, ToFail) <==> IsPending(g, base + |f| + 1, x, ToFail)
  {
    var linked, ja := Link(f, Pending(ToSucc), At(|f| + 1)), [Goto(ToSucc)];
    PendingAppend(linked, ja + g, base, x, ToSucc);
    PendingAppend(linked, ja + g, base, x, ToFail);
    PendingAppend(ja, g, base + |f|, x, ToSucc);
    PendingAppend(ja, g, base + |f|, x, ToFail);
    PendingLink(f, base, Pending(ToSucc), At(|f| + 1), x, ToSucc);
    PendingLink(f, base, Pending(ToSucc), At(|f| + 1), x, ToFail);
  }

  lemma {:induction false} OrLists(p: Patches, q: Patches, f: Frag, g: Frag, base: nat)
    requires BothPending(p, f, base) && BothPending(q, g, base + |f| + 1)
    ensures BothPending(Patches(Backpatch.Concat(p.success + [base + |f|], q.success), q.failure), OrFrag(f, g), base)
  {
    var ja := [base + |f|];
    ConcatNoDuplicates(p.success, ja);
    ConcatNoDuplicates(p.success + ja, q.success);
    forall x: nat ensures x in Backpatch.Concat(p.success + ja, q.success) <==> IsPending(OrFrag(f, g), base, x, ToSucc)
      ensures x in q.failure <==> IsPending(OrFrag(f, g), base, x, ToFail)
    {
      PendingOr(f, g, base, x);
    }
  }

  // ----- the connectives -----

  lemma ShortAppend(f: Frag, g: Frag)
    ensures ShortJumps(f + g) <==> ShortJumps(f) && ShortJumps(g)
  {
    var w := f + g;
    if ShortJumps(w) {
      forall i | 0 <= i < |f| && f[i].Branch? && f[i].to.Rel? ensures f[i].to.off <= 0x7fff { assert w[i] == f[i]; }
      forall i | 0 <= i < |g| && g[i].Branch? && g[i].to.Rel? ensures g[i].to.off <= 0x7fff { assert w[|f| + i] == g[i]; }
    }
  }

  /** Linking only adds resolved jumps. */
  lemma ShortUnlinked(f: Frag, s: Dest, l: Dest)
    requires ShortJumps(Link(f, s, l))
    ensures ShortJumps(f)
  {
    forall i | 0 <= i < |f| && f[i].Branch? && f[i].to.Rel? ensures f[i].to.off <= 0x7fff {
      assert Link(f, s, l)[i] == LinkOp(f[i], i, s, l);
    }
  }

  /** A compile is right: it never panics, it fails exactly where emission does
      or a jump is too long, and what it builds is the emitted code. */
  ghost predicate BuildsRight(r: Result<Built>, f: Result<Frag>, before: EbpfVm.Program) {
    && !r.Panic? && (r.Ok? <==> f.Ok? && ShortJumps(f.value))
    && (r.Ok? ==> Refines(r.value, f.value, before))
  }

  lemma {:induction false} AndExtends(before: EbpfVm.Program, a: EbpfVm.Program, f: Frag, m: EbpfVm.Program, b: EbpfVm.Program, g: Frag)
    requires |a| == |before| + |f| && |m| == |a| && Keeps(before, m) && Extends(b, m, g)
    requires Shows(m, |before|, Link(f, At(|f|), Pending(ToFail)))
    ensures Extends(b, before, AndFrag(f, g))
  {
    var linked := Link(f, At(|f|), Pending(ToFail));
    ShowsSame(m, b, |before|, linked);
    ShowsAppend(b, |before|, linked, g);
  }

  lemma {:induction false} AndBuilds(before: EbpfVm.Program, a: Built, f: Frag, rb: Result<Built>, rg: Result<Frag>)
    requires Refines(a, f, before) && ShortJumps(f)
    requires AndMiddle(a).Ok? ==> BuildsRight(rb, rg, AndMiddle(a).value)
    ensures var r: Result<Built> := if !AndMiddle(a).Ok? then AndMiddle(a).PropagateFailure()
                                    else if rb.Ok? then Ok(AndEnd(a.patches.failure, rb.value)) else rb.PropagateFailure();
            rg.Ok? ==> BuildsRight(r, Ok(AndFrag(f, rg.value)), before)
    ensures !AndMiddle(a).Panic?
  {
    ResolveOperand(before, a.insns, a.insns, f, ToSucc, a.patches.success);
    if rg.Ok? {
      var linked, g := Link(f, At(|f|), Pending(ToFail)), rg.value;
      ShortAppend(linked, g);
      if AndMiddle(a).Ok? && rb.Ok? {
        AndExtends(before, a.insns, f, AndMiddle(a).value, rb.value.insns, g);
        AndLists(a.patches, rb.value.patches, f, g, |before|);
      }
    }
  }

  /** Code resolved past an inserted jump. */
  lemma {:induction false} JumpOverShows(before: EbpfVm.Program, a: Built, f: Frag)
    requires Refines(a, f, before) && ShortJumps(f)
    ensures var r, linked := JumpOver(a), Link(f, Pending(ToSucc), At(|f| + 1));
            && !r.Panic? && (r.Ok? <==> ShortJumps(linked))
            && (r.Ok? ==>
                  && |r.value| == |a.insns| + 1 && Keeps(before, r.value)
                  && Shows(r.value, |before|, linked) && r.value[|a.insns|] == JA)
  {
    ResolveOperand(before, a.insns, a.insns + [JA], f, ToFail, a.patches.failure);
  }

  lemma {:induction false} OrExtends(before: EbpfVm.Program, f: Frag, m: EbpfVm.Program, b: EbpfVm.Program, g: Frag)
    requires |m| == |before| + |f| + 1 && Keeps(before, m) && m[|before| + |f|] == JA && Extends(b, m, g)
    requires Shows(m, |before|, Link(f, Pending(ToSucc), At(|f| + 1)))
    ensures Extends(b, before, OrFrag(f, g))
  {
    var base, linked, ja := |before|, Link(f, Pending(ToSucc), At(|f| + 1)), [Goto(ToSucc)];
    ShowsSame(m, b, base, linked);
    assert Shows(b, base + |f|, ja);
    ShowsAppend(b, base + |f|, ja, g);
    ShowsAppend(b, base, linked, ja + g);
  }

  lemma {:induction false} OrBuilds(before: EbpfVm.Program, a: Built, f: Frag, rb: Result<Built>, rg: Result<Frag>)
    requires Refines(a, f, before) && ShortJumps(f)
    requires JumpOver(a).Ok? ==> BuildsRight(rb, rg, JumpOver(a).value)
    ensures var r: Result<Built> := if !JumpOver(a).Ok? then JumpOver(a).PropagateFailure()
                                    else if rb.Ok? then Ok(OrEnd(a.patches.success, |a.insns|, rb.value)) else rb.PropagateFailure();
            rg.Ok? ==> BuildsRight(r, Ok(OrFrag(f, rg.value)), before)
    ensures !JumpOver(a).Panic?
  {
    JumpOverShows(before, a, f);
    if rg.Ok? {
      var linked, ja, g := Link(f, Pending(ToSucc), At(|f| + 1)), [Goto(ToSucc)], rg.value;
      ShortAppend(linked, ja + g);
      ShortAppend(ja, g);
      if JumpOver(a).Ok? && rb.Ok? {
        OrExtends(before, f, JumpOver(a).value, rb.value.insns, g);
        OrLists(a.patches, rb.value.patches, f, g, |before|);
      }
    }
  }

  /** Renaming one pending exit to the other changes no jump's length. */
  lemma {:induction false} Renamed(f: Frag, t: nat)
    requires t > |f|
    ensures var g, h := Link(f, Pending(ToSucc), At(t)), Link(f, Pending(ToFail), At(t));
            (ShortJumps(g) <==> ShortJumps(h)) && forall insns, base: nat :: Shows(insns, base, g) ==> Shows(insns, base, h)
  {
    var g, h := Link(f, Pending(ToSucc), At(t)), Link(f, Pending(ToFail), At(t));
    forall i | 0 <= i < |f|
      ensures g[i].Branch? <==> h[i].Branch?
      ensures g[i].Branch? ==> g[i].t == h[i].t && ((g[i].to.Rel? || h[i].to.Rel?) ==> g[i].to == h[i].to)
      ensures !g[i].Branch? ==> g[i] == h[i]
    {
    }
    forall insns, base: nat | Shows(insns, base, g) ensures Shows(insns, base, h) {
      forall i | 0 <= i < |h| ensures FitsCode(insns[base + i], h[i]) { assert FitsCode(insns[base + i], g[i]); }
    }
  }

  lemma {:induction false} NotBuilds(before: EbpfVm.Program, a: Built, f: Frag)
    requires Refines(a, f, before) && ShortJumps(f)
    ensures BuildsRight(NotEnd(a), Ok(NotFrag(f)), before)
  {
    var linked, ja := Link(f, Pending(ToFail), At(|f| + 1)), [Goto(ToFail)];
    JumpOverShows(before, a, f);
    Renamed(f, |f| + 1);
    ShortAppend(linked, ja);
    if JumpOver(a).Ok? {
      var m := JumpOver(a).value;
      assert Shows(m, |before| + |f|, ja);
      ShowsAppend(m, |before|, linked, ja);
      NotLists(a.patches, f, |before|);
    }
  }

  lemma {:induction false} PrimBuilds(p: Primitive, lay: Layout, before: EbpfVm.Program)
    requires !EmitPrim(lay, p).Panic?
    ensures BuildsRight(BuildPrim(lay, before, p), EmitPrim(lay, p), before)
  {
    if EmitPrim(lay, p).Ok? && ShortJumps(EmitPrim(lay, p).value) {
      var f := EmitPrim(lay, p).value;
      PendingOfLists(f, |before|);
      forall i | 0 <= i < |f| ensures FitsCode((before + PlaceAll(f))[|before| + i], f[i]) { }
    }
  }

  lemma ProtoNoPanic(p: Proto, lay: Layout)
    ensures !EmitProto(lay, p).Panic?
  {
  }

  lemma GuardedNoPanic(lay: Layout, et: u32, code: Frag)
    ensures !Guarded(lay, et, code).Panic? && !EthFrag(lay, et).Panic?
  {
  }

  /** No primitive panics. */
  lemma {:induction false} PrimNoPanic(p: Primitive, lay: Layout)
    ensures !EmitPrim(lay, p).Panic?
  {
    match p
    case IsProto(pr) => ProtoNoPanic(pr, lay);
    case EtherProto(et) => GuardedNoPanic(lay, et, []);
    case IpBroadcast => GuardedNoPanic(lay, 0x0800, ChecksFrag(BroadcastChecks(lay)));
    case IpMulticast => GuardedNoPanic(lay, 0x0800, ChecksFrag(MulticastChecks(lay)));
    case Ip6Multicast => GuardedNoPanic(lay, 0x86dd, ChecksFrag(Multicast6Checks(lay)));
    case Vlan(id) => GuardedNoPanic(lay, 0x8100, ChecksFrag(VlanChecks(lay, id)));
    case PppoeSession(id) => GuardedNoPanic(lay, 0x8864, ChecksFrag(SessionChecks(lay, id)));
    case _ =>
  }

  lemma {:induction false} ExprNoPanic(e: Expr, lay: Layout)
    ensures !EmitExpr(e, lay).Panic?
  {
    match e
    case Prim(p) => PrimNoPanic(p, lay);
    case And(l, r) => ExprNoPanic(l, lay); ExprNoPanic(r, lay);
    case Or(l, r) => ExprNoPanic(l, lay); ExprNoPanic(r, lay);
    case Not(x) => ExprNoPanic(x, lay);
  }

  lemma {:induction false} AndRight(e: Expr, lay: Layout, before: EbpfVm.Program)
    requires e.And?
    ensures BuildsRight(Build(e, lay, before), EmitExpr(e, lay), before)
    decreases e, 0
  {
    BuildRight(e.left, lay, before);
    var ra, rf, rg := Build(e.left, lay, before), EmitExpr(e.left, lay), EmitExpr(e.right, lay);
    if ra.Ok? {
      var a, f := ra.value, rf.value;
      var m := AndMiddle(a);
      var rb := if m.Ok? then Build(e.right, lay, m.value) else Err;
      if m.Ok? { BuildRight(e.right, lay, m.value); }
      AndBuilds(before, a, f, rb, rg);
    } else if rf.Ok? && rg.Ok? && ShortJumps(AndFrag(rf.value, rg.value)) {
      var linked := Link(rf.value, At(|rf.value|), Pending(ToFail));
      ShortAppend(linked, rg.value);
      ShortUnlinked(rf.value, At(|rf.value|), Pending(ToFail));
    }
  }

  lemma {:induction false} OrRight(e: Expr, lay: Layout, before: EbpfVm.Program)
    requires e.Or?
    ensures BuildsRight(Build(e, lay, before), EmitExpr(e, lay), before)
    decreases e, 0
  {
    BuildRight(e.left, lay, before);
    var ra, rf, rg := Build(e.left, lay, before), EmitExpr(e.left, lay), EmitExpr(e.right, lay);
    if ra.Ok? {
      var a, f := ra.value, rf.value;
      var m := JumpOver(a);
      var rb := if m.Ok? then Build(e.right, lay, m.value) else Err;
      if m.Ok? { BuildRight(e.right, lay, m.value); }
      OrBuilds(before, a, f, rb, rg);
    } else if rf.Ok? && rg.Ok? && ShortJumps(OrFrag(rf.value, rg.value)) {
      var linked := Link(rf.value, Pending(ToSucc), At(|rf.value| + 1));
      ShortAppend(linked, [Goto(ToSucc)] + rg.value);
      ShortUnlinked(rf.value, Pending(ToSucc), At(|rf.value| + 1));
    }
  }

  /** The patch-list compile, for every expression, behind any code. */
  lemma {:induction false} BuildRight(e: Expr, lay: Layout, before: EbpfVm.Program)
    ensures BuildsRight(Build(e, lay, before), EmitExpr(e, lay), before)
    decreases e, 1
  {
    match e
    case Prim(p) => PrimNoPanic(p, lay); PrimBuilds(p, lay, before);
    case And(_, _) => AndRight(e, lay, before);
    case Or(_, _) => OrRight(e, lay, before);
    case Not(x) =>
      BuildRight(x, lay, before);
      var ra, rf := Build(x, lay, before), EmitExpr(x, lay);
      if ra.Ok? {
        NotBuilds(before, ra.value, rf.value);
      } else if rf.Ok? && ShortJumps(NotFrag(rf.value)) {
        ShortAppend(Link(rf.value, Pending(ToFail), At(|rf.value| + 1)), [Goto(ToFail)]);
        ShortUnlinked(rf.value, Pending(ToFail), At(|rf.value| + 1));
      }
  }

  // ----- the whole program -----

  lemma {:induction false} LinkTwice(f: Frag, s: nat, t: nat)
    requires s >= |f| && t >= |f|
    ensures Link(Link(f, At(s), Pending(ToFail)), Pending(ToSucc), At(t)) == Link(f, At(s), At(t))
  {
  }

  lemma {:induction false} PendingLinked(ps: seq<nat>, f: Frag, base: nat, s: nat)
    requires ListsPending(ps, f, base, ToFail) && s >= |f|
    ensures ListsPending(ps, Link(f, At(s), Pending(ToFail)), base, ToFail)
  {
    forall p: nat ensures p in ps <==> IsPending(Link(f, At(s), Pending(ToFail)), base, p, ToFail) {
      PendingLink(f, base, At(s), Pending(ToFail), p, ToFail);
    }
  }

  /** Code whose every jump is resolved is placed code. */
  lemma ShowsPlaced(insns: EbpfVm.Program, base: nat, f: Frag, i: nat)
    requires Shows(insns, base, f) && i < |f| && (f[i].Branch? ==> f[i].to.Rel?)
    ensures insns[base + i] == Place(f[i])
  {
    assert FitsCode(insns[base + i], f[i]);
  }

  /** One list at the end of the program, resolved to one of the epilogues. */
  lemma {:induction false} ResolveEnd(all: EbpfVm.Program, f: Frag, to: Target, ps: seq<nat>, t: nat)
    requires |all| >= 2 + |f| && Shows(all, 2, f) && ShortJumps(f) && !to.Rel? && t >= |f| && ListsPending(ps, f, 2, to)
    ensures var r, g := ResolveSlots(all, ps, 2 + t), Link(f, SuccTo(to, t), FailTo(to, t));
            && !r.Panic? && (r.Ok? <==> ShortJumps(g))
            && (r.Ok? ==>
                  && |r.value| == |all| && Shows(r.value, 2, g)
                  && forall i :: 0 <= i < |all| && !(2 <= i < 2 + |f|) ==> r.value[i] == all[i])
  {
    PendingPatchable(all, 2, f, to, ps, 2 + t);
    SlotsNoPanic(all, ps, 2 + t);
    ShortWhenNear(f, 2, to, ps, t);
    if ResolveSlots(all, ps, 2 + t).Ok? { SlotsLink(all, 2, f, to, ps, t); }
  }

  lemma {:induction false} Placed(out: EbpfVm.Program, f: Frag)
    requires var n := |f|; |out| == n + 6 && out[..2] == PROLOGUE && out[2 + n..] == EPILOGUE
    requires Shows(out, 2, f) && forall i :: 0 <= i < |f| && f[i].Branch? ==> f[i].to.Rel?
    ensures out == PROLOGUE + PlaceAll(f) + EPILOGUE
  {
    forall i | 0 <= i < |f| ensures out[2 + i] == PlaceAll(f)[i] { ShowsPlaced(out, 2, f, i); }
    assert out[2..2 + |f|] == PlaceAll(f);
    assert out == out[..2] + out[2..2 + |f|] + out[2 + |f|..];
  }

  /** The failure slots go to the second epilogue; nothing else is left. */
  lemma {:induction false} FailuresEnd(mid: EbpfVm.Program, f: Frag, ps: seq<nat>)
    requires var n := |f|; |mid| == n + 6 && mid[..2] == PROLOGUE && mid[2 + n..] == EPILOGUE
    requires var half := Link(f, At(|f|), Pending(ToFail)); Shows(mid, 2, half) && ShortJumps(half)
    requires ListsPending(ps, f, 2, ToFail)
    ensures var linked := Link(f, At(|f|), At(|f| + 2));
            ResolveSlots(mid, ps, |f| + 4) == if ShortJumps(linked) then Ok(PROLOGUE + PlaceAll(linked) + EPILOGUE) else Err
  {
    var n := |f|;
    LinkTwice(f, n, n + 2);
    PendingLinked(ps, f, 2, n);
    ResolveEnd(mid, Link(f, At(n), Pending(ToFail)), ToFail, ps, n + 2);
    var out := ResolveSlots(mid, ps, n + 4);
    if out.Ok? {
      assert out.value[..2] == mid[..2] && out.value[2 + n..] == mid[2 + n..];
      Placed(out.value, Link(f, At(n), At(n + 2)));
    }
  }

  lemma {:induction false} TerminateRight(b: Built, f: Frag)
    requires Refines(b, f, PROLOGUE) && ShortJumps(f)
    ensures var linked := Link(f, At(|f|), At(|f| + 2));
            Terminate(b) == if ShortJumps(linked) then Ok(PROLOGUE + PlaceAll(linked) + EPILOGUE) else Err
  {
    var n, all := |f|, b.insns + EPILOGUE;
    ShowsSame(b.insns, all, 2, f);
    assert all[..2] == PROLOGUE && all[2 + n..] == EPILOGUE;
    ResolveEnd(all, f, ToSucc, b.patches.success, n);
    var r := ResolveSlots(all, b.patches.success, n + 2);
    if r.Ok? {
      assert r.value[..2] == all[..2] && r.value[2 + n..] == all[2 + n..];
      FailuresEnd(r.value, f, b.patches.failure);
    } else if ShortJumps(Link(f, At(n), At(n + 2))) {
      LinkTwice(f, n, n + 2);
      ShortUnlinked(Link(f, At(n), Pending(ToFail)), Pending(ToSucc), At(n + 2));
    }
  }

  /** The patch-list compile is the symbolic one: same failures, same program,
      no panic. */
  lemma {:induction false} AssembleIsCompile(e: Expr, link: LinkType)
    ensures Assemble(e, link) == Compile(e, link) && !Compile(e, link).Panic?
  {
    var lay := Untagged(link);
    ExprNoPanic(e, lay);
    BuildRight(e, lay, PROLOGUE);
    var r, f := Build(e, lay, PROLOGUE), EmitExpr(e, lay);
    if r.Ok? {
      TerminateRight(r.value, f.value);
    } else if f.Ok? && ShortJumps(Link(f.value, At(|f.value|), At(|f.value| + 2))) {
      ShortUnlinked(f.value, At(|f.value|), At(|f.value| + 2));
    }
  }
}
