// Concrete code generation: instructions with placeholder offsets, lists of
// slots to patch, and their resolution (pktbaffle/src/codegen.rs:80-141,
// 455-502, 515-700), in recursive form.

module Backpatch {
  import opened Words
  import opened Results
  import opened Bpf
  import opened Ast
  import opened Meaning
  import opened Guards
  import opened Fragments
  import opened Emission

  /** A slot of the instruction at `i` that awaits its offset. */
  datatype Patch = PatchJt(i: nat) | PatchJf(i: nat) | PatchJa(i: nat)

  datatype Patches = Patches(success: seq<Patch>, failure: seq<Patch>)

  /** `offset`: a forward distance that must fit 8 bits. */
  function Offset(from: nat, to: nat): Result<u8> {
    if to <= from then Panic else if to - from - 1 > 255 then Err else Ok(to - from - 1)
  }

  /** `resolve`: fill one slot. */
  function Resolve(insns: Program, p: Patch, target: nat): Result<Program> {
    if p.i >= |insns| then Panic
    else
      var off :- Offset(p.i, target);
      match (p, insns[p.i])
      case (PatchJt(i), Jmp(_, _, _, _, _)) => Ok(insns[i := insns[i].(jt := off)])
      case (PatchJf(i), Jmp(_, _, _, _, _)) => Ok(insns[i := insns[i].(jf := off)])
      case (PatchJa(i), Ja(_)) => Ok(insns[i := Ja(off)])
      case _ => Panic
  }

  function ResolveAll(insns: Program, ps: seq<Patch>, target: nat): Result<Program>
    decreases |ps|
  {
    if ps == [] then Ok(insns)
    else
      var insns' :- Resolve(insns, ps[0], target);
      ResolveAll(insns', ps[1..], target)
  }

  /** `concat`: the shorter list goes behind the longer one. */
  function Concat<T>(a: seq<T>, b: seq<T>): seq<T> { if |a| < |b| then b + a else a + b }

  // ----- placing a fragment -----

  function PlaceJump(j: Jump): u8 { if j.Rel? && j.off < 0x100 then j.off else 0xff }

  /** The instruction pushed for a symbolic one: pending offsets are 0xff, a
      pending `ja` is `ja 0`. */
  function Place(c: FInsn): Insn {
    match c
    case Plain(i) => i
    case Goto(j) => Ja(if j.Rel? && j.off < 0x100 then j.off else 0)
    case Branch(cond, src, k, jt, jf) => Jmp(cond, src, k, PlaceJump(jt), PlaceJump(jf))
  }

  function PlaceAll(f: Frag): (p: Program)
    ensures |p| == |f|
  {
    seq(|f|, i requires 0 <= i < |f| => Place(f[i]))
  }

  /** The slots of one instruction that wait for `j`. */
  function SlotsAt(c: FInsn, i: nat, j: Jump): seq<Patch> {
    match c
    case Plain(_) => []
    case Goto(t) => if t == j then [PatchJa(i)] else []
    case Branch(_, _, _, jt, jf) =>
      (if jt == j then [PatchJt(i)] else []) + (if jf == j then [PatchJf(i)] else [])
  }

  /** The slots of the first `n` instructions of a fragment at `base` that wait
      for `j`. */
  function SlotsTo(f: Frag, base: nat, j: Jump, n: nat): seq<Patch>
    requires n <= |f|
  {
    if n == 0 then [] else SlotsTo(f, base, j, n - 1) + SlotsAt(f[n - 1], base + n - 1, j)
  }

  function Slots(f: Frag, base: nat, j: Jump): seq<Patch> { SlotsTo(f, base, j, |f|) }

  /** Jumps resolved inside a primitive passed the 8-bit test of `resolve`. */
  predicate ShortJumps(f: Frag) {
    forall i :: 0 <= i < |f| ==>
      match f[i]
      case Plain(_) => true
      case Goto(j) => j.Rel? ==> j.off < 0x100
      case Branch(_, _, _, jt, jf) => (jt.Rel? ==> jt.off < 0x100) && (jf.Rel? ==> jf.off < 0x100)
  }

  // ----- the compiler state -----

  datatype State = State(insns: Program, facts: Facts, xWrites: nat, depth: nat)

  /** A finished operand: the state behind it, its patch lists, and whether it
      begins with a `vlan` check. */
  datatype Built = Built(s: State, patches: Patches, leading: bool)

  /** `push` of every instruction of a fragment whose facts are known. */
  function Append(s: State, em: Emitted): State {
    State(s.insns + PlaceAll(em.frag), em.facts, s.xWrites + XWrites(em.frag), s.depth)
  }

  function PendingOf(f: Frag, base: nat): Patches { Patches(Slots(f, base, ToSucc), Slots(f, base, ToFail)) }

  function BuildPrim(link: LinkType, s: State, p: Primitive): Result<Built> {
    var em :- EmitPrim(Layout(link, s.depth), s.facts, p);
    if !ShortJumps(em.frag) then Err
    else Ok(Built(Append(s, em), PendingOf(em.frag, |s.insns|), p.Vlan?))
  }

  /** `emit_or_hoist`: only the failure lists of the guards are kept. */
  function BuildHoist(link: LinkType, s: State, g: GuardSet): Result<(State, seq<Patch>)> {
    var em :- EmitHoist(Layout(link, s.depth), s.facts, g);
    if !ShortJumps(em.frag) then Err
    else Ok((Append(s, em), Slots(em.frag, |s.insns|, ToFail)))
  }

  /** Facts put back on an edge out of code that may have written X. */
  function RestoreFacts(f: Facts, xBefore: nat, xAfter: nat): Facts {
    if xAfter != xBefore then f.(portsReady := None) else f
  }

  // The steps between operands, shared by the recursive and the stack form.

  /** Left operand of `and` done: its success slots lead to the right one. */
  function AndMiddle(s: State, left: Patches, bump: bool): Result<State> {
    var insns :- ResolveAll(s.insns, left.success, |s.insns|);
    Ok(s.(insns := insns, depth := s.depth + if bump then 1 else 0))
  }

  function AndEnd(s: State, leftFailure: seq<Patch>, right: Patches, bump: bool): Result<Built> {
    if bump && s.depth == 0 then Panic
    else Ok(Built(s.(depth := s.depth - if bump then 1 else 0),
                  Patches(right.success, Concat(leftFailure, right.failure)), bump))
  }

  /** Left operand of `or` done: jump over the right one, or try it. */
  function OrMiddle(s: State, left: Patches, branch: Facts, xBefore: nat): Result<State> {
    var insns :- ResolveAll(s.insns + [Ja(0)], left.failure, |s.insns| + 1);
    Ok(s.(insns := insns, facts := RestoreFacts(branch, xBefore, s.xWrites)))
  }

  function OrEnd(s: State, leftSuccess: seq<Patch>, ja: nat, leftFacts: Facts, hoist: seq<Patch>, right: Patches): Built {
    Built(s.(facts := MeetFacts(leftFacts, s.facts)),
          Patches(Concat(leftSuccess + [PatchJa(ja)], right.success), Concat(right.failure, hoist)), false)
  }

  function NotEnd(s: State, inner: Patches, entry: Facts, xBefore: nat): Result<Built> {
    var insns :- ResolveAll(s.insns + [Ja(0)], inner.failure, |s.insns| + 1);
    Ok(Built(s.(insns := insns, facts := RestoreFacts(entry, xBefore, s.xWrites)),
             Patches([], inner.success + [PatchJa(|s.insns|)]), false))
  }

  /** The recursive compile with patch lists. */
  function Build(e: Expr, link: LinkType, s: State): Result<Built>
    decreases e
  {
    match e
    case Prim(p) => BuildPrim(link, s, p)
    case And(l, r) =>
      var a :- Build(l, link, s);
      var m :- AndMiddle(a.s, a.patches, a.leading);
      var b :- Build(r, link, m);
      AndEnd(b.s, a.patches.failure, b.patches, a.leading)
    case Or(l, r) =>
      var h :- BuildHoist(link, s, Intersect(Required(l), Required(r)));
      var a :- Build(l, link, h.0);
      var m :- OrMiddle(a.s, a.patches, h.0.facts, h.0.xWrites);
      var b :- Build(r, link, m);
      Ok(OrEnd(b.s, a.patches.success, |a.s.insns|, a.s.facts, h.1, b.patches))
    case Not(x) =>
      var a :- Build(x, link, s);
      NotEnd(a.s, a.patches, s.facts, s.xWrites)
  }

  /** The terminal returns, and every remaining slot resolved to one of them. */
  function Terminate(s: State, p: Patches): Result<Program> {
    var accept := |s.insns|;
    var insns :- ResolveAll(s.insns + [RetK(BPF_ACCEPT), RetK(BPF_DROP)], p.success, accept);
    ResolveAll(insns, p.failure, accept + 1)
  }

  function InitialState(link: LinkType): State { State([], InitialFacts(link), 0, 0) }

  /** `compile` up to the optimizer. */
  function Assemble(e: Expr, link: LinkType): Result<Program> {
    var b :- Build(e, link, InitialState(link));
    Terminate(b.s, b.patches)
  }
}
