// Patching is right: each pending slot is in exactly one list, and resolving
// the lists yields the linked code.

module PatchProofs {
  import opened Results
  import opened Bpf
  import opened Fragments
  import opened Backpatch

  // ----- which slots a fragment has -----

  /** Patch `p` names a slot of instruction `c` that waits for `j`. */
  predicate SlotOf(c: FInsn, p: Patch, j: Jump) {
    match p
    case PatchJt(_) => c.Branch? && c.jt == j
    case PatchJf(_) => c.Branch? && c.jf == j
    case PatchJa(_) => c.Goto? && c.j == j
  }

  /** ... of the fragment at `base`. */
  predicate IsSlot(f: Frag, base: nat, p: Patch, j: Jump) {
    base <= p.i < base + |f| && SlotOf(f[p.i - base], p, j)
  }

  lemma IsSlotAppend(f: Frag, g: Frag, base: nat, p: Patch, j: Jump)
    ensures IsSlot(f + g, base, p, j) <==> IsSlot(f, base, p, j) || IsSlot(g, base + |f|, p, j)
  {
  }

  lemma IsSlotOne(c: FInsn, base: nat, p: Patch, j: Jump)
    ensures IsSlot([c], base, p, j) <==> p.i == base && SlotOf(c, p, j)
  {
  }

  /** What linking leaves of the slots that wait for `j`. */
  lemma IsSlotLink(f: Frag, base: nat, s: Dest, l: Dest, p: Patch, j: Jump)
    requires GoodDest(s, |f|) && GoodDest(l, |f|) && !j.Rel?
    ensures IsSlot(Link(f, s, l), base, p, j) <==>
            (s == Pending(j) && IsSlot(f, base, p, ToSucc)) || (l == Pending(j) && IsSlot(f, base, p, ToFail))
  {
  }

  predicate NoDuplicates<T(==)>(ps: seq<T>) {
    forall i, k :: 0 <= i < k < |ps| ==> ps[i] != ps[k]
  }

  /** The list holds exactly the slots of the fragment at `base` that wait for
      `j`, each once. */
  ghost predicate Lists(ps: seq<Patch>, f: Frag, base: nat, j: Jump) {
    NoDuplicates(ps) && forall p :: p in ps <==> IsSlot(f, base, p, j)
  }

  lemma ConcatNoDuplicates<T>(a: seq<T>, b: seq<T>)
    requires NoDuplicates(a) && NoDuplicates(b) && forall p :: p in a ==> p !in b
    ensures NoDuplicates(a + b) && NoDuplicates(Concat(a, b))
    ensures forall p :: p in Concat(a, b) <==> p in a || p in b
  {
    ConcatOneWay(a, b);
    ConcatOneWay(b, a);
  }

  lemma ConcatOneWay<T>(a: seq<T>, b: seq<T>)
    requires NoDuplicates(a) && NoDuplicates(b) && forall p :: p in a ==> p !in b
    ensures NoDuplicates(a + b)
  {
    var c := a + b;
    forall i, k | 0 <= i < k < |c| ensures c[i] != c[k] {
      if i < |a| <= k { assert a[i] in a && b[k - |a|] in b; }
    }
  }

  /** The slots of the first `n` instructions. */
  predicate IsEarlySlot(f: Frag, base: nat, p: Patch, j: Jump, n: nat) {
    IsSlot(f, base, p, j) && p.i < base + n
  }

  lemma SlotsAtOnce(c: FInsn, i: nat, j: Jump)
    ensures NoDuplicates(SlotsAt(c, i, j))
  {
  }

  lemma SlotsAtMember(c: FInsn, i: nat, j: Jump, p: Patch)
    ensures p in SlotsAt(c, i, j) <==> p.i == i && SlotOf(c, p, j)
  {
  }

  lemma LastSlot(f: Frag, base: nat, p: Patch, j: Jump, n: nat)
    requires 0 < n <= |f|
    ensures IsEarlySlot(f, base, p, j, n) <==>
            IsEarlySlot(f, base, p, j, n - 1) || (p.i == base + n - 1 && SlotOf(f[n - 1], p, j))
  {
  }

  lemma {:induction false} GatherMember(f: Frag, base: nat, j: Jump, n: nat, p: Patch)
    requires n <= |f|
    ensures p in SlotsTo(f, base, j, n) <==> IsEarlySlot(f, base, p, j, n)
  {
    if n > 0 {
      var a, b := SlotsTo(f, base, j, n - 1), SlotsAt(f[n - 1], base + n - 1, j);
      GatherMember(f, base, j, n - 1, p);
      SlotsAtMember(f[n - 1], base + n - 1, j, p);
      assert SlotsTo(f, base, j, n) == a + b;
      assert p in a + b <==> p in a || p in b;
      LastSlot(f, base, p, j, n);
    }
  }

  lemma {:induction false} GatherList(f: Frag, base: nat, j: Jump, n: nat)
    requires n <= |f|
    ensures NoDuplicates(SlotsTo(f, base, j, n))
  {
    if n > 0 {
      var a, b := SlotsTo(f, base, j, n - 1), SlotsAt(f[n - 1], base + n - 1, j);
      GatherList(f, base, j, n - 1);
      SlotsAtOnce(f[n - 1], base + n - 1, j);
      forall p | p in a ensures p !in b {
        GatherMember(f, base, j, n - 1, p);
        SlotsAtMember(f[n - 1], base + n - 1, j, p);
      }
      ConcatOneWay(a, b);
      assert SlotsTo(f, base, j, n) == a + b;
    }
  }

  /** `PendingOf` lists exactly the slots of the fragment. */
  lemma SlotsList(f: Frag, base: nat, j: Jump)
    ensures Lists(Slots(f, base, j), f, base, j)
  {
    GatherList(f, base, j, |f|);
    forall p ensures p in Slots(f, base, j) <==> IsSlot(f, base, p, j) { GatherMember(f, base, j, |f|, p); }
  }

  // ----- code with unresolved slots -----

  /** The instruction is the symbolic one, up to its pending slots. */
  predicate Fits(insn: Insn, c: FInsn) {
    match c
    case Plain(i) => insn == i
    case Goto(j) => insn.Ja? && (j.Rel? ==> insn.k == j.off)
    case Branch(cond, src, k, jt, jf) =>
      && insn.Jmp? && insn.cond == cond && insn.src == src && insn.k == k
      && (jt.Rel? ==> insn.jt == jt.off) && (jf.Rel? ==> insn.jf == jf.off)
  }

  predicate Represents(insns: Program, base: nat, f: Frag) {
    base + |f| <= |insns| && forall i :: 0 <= i < |f| ==> Fits(insns[base + i], f[i])
  }

  /** A slot that exists, of its kind, before its target. */
  predicate Patchable(insns: Program, p: Patch, t: nat) {
    && p.i < |insns| && p.i < t
    && if p.PatchJa? then insns[p.i].Ja? else insns[p.i].Jmp?
  }

  lemma {:induction false} ResolveKeepsKinds(insns: Program, p: Patch, t: nat, q: Patch)
    requires Resolve(insns, p, t).Ok?
    ensures |Resolve(insns, p, t).value| == |insns|
    ensures Patchable(insns, q, t) ==> Patchable(Resolve(insns, p, t).value, q, t)
  {
  }

  /** Existing forward slots never make `resolve_all` panic. */
  lemma {:induction false} ResolveAllNoPanic(insns: Program, ps: seq<Patch>, t: nat)
    requires forall p :: p in ps ==> Patchable(insns, p, t)
    ensures !ResolveAll(insns, ps, t).Panic?
    decreases |ps|
  {
    if ps != [] {
      assert Patchable(insns, ps[0], t);
      var r := Resolve(insns, ps[0], t);
      if r.Ok? {
        forall p | p in ps[1..] ensures Patchable(r.value, p, t) { ResolveKeepsKinds(insns, ps[0], t, p); }
        ResolveAllNoPanic(r.value, ps[1..], t);
      }
    }
  }

  /** ... and fill every slot whose target is at most 256 ahead. */
  lemma {:induction false} ResolveAllNear(insns: Program, ps: seq<Patch>, t: nat)
    requires forall p :: p in ps ==> Patchable(insns, p, t) && t - p.i <= 256
    ensures ResolveAll(insns, ps, t).Ok?
    decreases |ps|
  {
    if ps != [] {
      assert Patchable(insns, ps[0], t);
      var r := Resolve(insns, ps[0], t);
      forall p | p in ps[1..] ensures Patchable(r.value, p, t) { ResolveKeepsKinds(insns, ps[0], t, p); }
      ResolveAllNear(r.value, ps[1..], t);
    }
  }

  /** An offset slot after patching: unchanged, or the distance to `t`. */
  predicate OffsetAfter(was: nat, now: nat, i: nat, patched: bool, t: nat) {
    if patched then i + 1 + now == t else now == was
  }

  predicate InsnAfter(was: Insn, now: Insn, i: nat, ps: seq<Patch>, t: nat) {
    match was
    case Ja(k) => now.Ja? && OffsetAfter(k, now.k, i, PatchJa(i) in ps, t)
    case Jmp(cond, src, k, jt, jf) =>
      && now.Jmp? && now.cond == cond && now.src == src && now.k == k
      && OffsetAfter(jt, now.jt, i, PatchJt(i) in ps, t) && OffsetAfter(jf, now.jf, i, PatchJf(i) in ps, t)
    case _ => now == was
  }

  lemma {:induction false} ResolveOne(insns: Program, p: Patch, t: nat, i: nat)
    requires Resolve(insns, p, t).Ok? && i < |insns|
    ensures |Resolve(insns, p, t).value| == |insns|
    ensures InsnAfter(insns[i], Resolve(insns, p, t).value[i], i, [p], t)
    ensures i != p.i ==> Resolve(insns, p, t).value[i] == insns[i]
  {
  }

  /** The effect of a whole list, instruction by instruction. */
  lemma {:induction false} ResolveAllAt(insns: Program, ps: seq<Patch>, t: nat, i: nat)
    requires ResolveAll(insns, ps, t).Ok? && i < |insns|
    ensures |ResolveAll(insns, ps, t).value| == |insns|
    ensures InsnAfter(insns[i], ResolveAll(insns, ps, t).value[i], i, ps, t)
    ensures (forall p :: p in ps ==> p.i != i) ==> ResolveAll(insns, ps, t).value[i] == insns[i]
    decreases |ps|
  {
    if ps != [] {
      var insns' := Resolve(insns, ps[0], t).value;
      ResolveOne(insns, ps[0], t, i);
      ResolveAllAt(insns', ps[1..], t, i);
      assert ps == [ps[0]] + ps[1..];
      assert forall p :: p in ps <==> p in [ps[0]] || p in ps[1..];
    }
  }

  /** The destinations when the slots that wait for `j` are resolved to `t`. */
  function SuccDest(j: Jump, t: nat): Dest { if j == ToSucc then At(t) else Pending(ToSucc) }

  function FailDest(j: Jump, t: nat): Dest { if j == ToFail then At(t) else Pending(ToFail) }

  lemma LinkedFits(was: Insn, now: Insn, c: FInsn, base: nat, i: nat, ps: seq<Patch>, j: Jump, t: nat)
    requires Fits(was, c) && InsnAfter(was, now, base + i, ps, base + t) && !j.Rel? && i < t
    requires PatchJt(base + i) in ps <==> c.Branch? && c.jt == j
    requires PatchJf(base + i) in ps <==> c.Branch? && c.jf == j
    requires PatchJa(base + i) in ps <==> c.Goto? && c.j == j
    ensures Fits(now, LinkInsn(c, i, SuccDest(j, t), FailDest(j, t)))
  {
  }

  /** Resolving all the slots of `f` that wait for `j` links `f`. */
  lemma {:induction false} ResolveLinks(insns: Program, base: nat, f: Frag, j: Jump, ps: seq<Patch>, t: nat)
    requires Represents(insns, base, f) && !j.Rel? && t >= |f|
    requires forall p :: p in ps <==> IsSlot(f, base, p, j)
    requires ResolveAll(insns, ps, base + t).Ok?
    ensures var out := ResolveAll(insns, ps, base + t).value;
            && |out| == |insns|
            && (forall i :: 0 <= i < |out| && !(base <= i < base + |f|) ==> out[i] == insns[i])
            && Represents(out, base, Link(f, SuccDest(j, t), FailDest(j, t)))
  {
    var out := ResolveAll(insns, ps, base + t).value;
    ResolveAllLength(insns, ps, base + t);
    forall i | 0 <= i < |out| && !(base <= i < base + |f|) ensures out[i] == insns[i] {
      ResolveAllAt(insns, ps, base + t, i);
    }
    var g := Link(f, SuccDest(j, t), FailDest(j, t));
    forall i | 0 <= i < |f| ensures Fits(out[base + i], g[i]) {
      ResolveAllAt(insns, ps, base + t, base + i);
      SlotMembers(f, base, j, ps, i);
      LinkedFits(insns[base + i], out[base + i], f[i], base, i, ps, j, t);
    }
  }

  lemma SlotMembers(f: Frag, base: nat, j: Jump, ps: seq<Patch>, i: nat)
    requires i < |f| && forall p :: p in ps <==> IsSlot(f, base, p, j)
    ensures PatchJt(base + i) in ps <==> f[i].Branch? && f[i].jt == j
    ensures PatchJf(base + i) in ps <==> f[i].Branch? && f[i].jf == j
    ensures PatchJa(base + i) in ps <==> f[i].Goto? && f[i].j == j
  {
    assert PatchJt(base + i) in ps <==> IsSlot(f, base, PatchJt(base + i), j);
    assert PatchJf(base + i) in ps <==> IsSlot(f, base, PatchJf(base + i), j);
    assert PatchJa(base + i) in ps <==> IsSlot(f, base, PatchJa(base + i), j);
  }

  lemma {:induction false} ResolveAllLength(insns: Program, ps: seq<Patch>, t: nat)
    requires ResolveAll(insns, ps, t).Ok?
    ensures |ResolveAll(insns, ps, t).value| == |insns|
    decreases |ps|
  {
    if ps != [] { ResolveAllLength(Resolve(insns, ps[0], t).value, ps[1..], t); }
  }

  lemma {:induction false} SlotsPatchable(insns: Program, base: nat, f: Frag, j: Jump, ps: seq<Patch>, t: nat)
    requires Represents(insns, base, f) && t >= base + |f|
    requires forall p :: p in ps <==> IsSlot(f, base, p, j)
    ensures forall p :: p in ps ==> Patchable(insns, p, t)
  {
    forall p | p in ps ensures Patchable(insns, p, t) {
      assert IsSlot(f, base, p, j);
      assert Fits(insns[base + (p.i - base)], f[p.i - base]);
    }
  }

  lemma {:induction false} PlaceFits(f: Frag)
    requires ShortJumps(f)
    ensures Represents(PlaceAll(f), 0, f)
  {
  }
}
