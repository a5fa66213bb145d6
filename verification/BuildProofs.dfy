// The compile with patch lists refines the symbolic one, and the finished
// program runs as its fragment says (pktbaffle/src/codegen.rs:515-700,
// 1682-1702).

module BuildProofs {
  import opened Results
  import opened Bpf
  import opened Ast
  import opened Meaning
  import opened Guards
  import opened Fragments
  import opened Emission
  import opened Backpatch
  import opened CheckProofs
  import opened ShapeProofs
  import opened PatchProofs

  /** `insns` is `before` with the fragment behind it. */
  ghost predicate Holds(insns: Program, before: Program, f: Frag) {
    && |insns| == |before| + |f| && Keeps(before, insns)
    && Represents(insns, |before|, f)
  }

  /** Nothing of `p` has changed in `q`. */
  predicate Keeps(p: Program, q: Program) {
    |p| <= |q| && forall i :: 0 <= i < |p| ==> q[i] == p[i]
  }

  /** Exactly the pending slots of the fragment at `base` are on the two lists,
      each once. */
  ghost predicate BothLists(p: Patches, f: Frag, base: nat) {
    Lists(p.success, f, base, ToSucc) && Lists(p.failure, f, base, ToFail)
  }

  /** `b` is the fragment `em` appended to `s`. */
  ghost predicate Refines(b: Built, em: Emitted, s: State) {
    && Holds(b.s.insns, s.insns, em.frag)
    && BothLists(b.patches, em.frag, |s.insns|)
    && b.s.facts == em.facts && b.s.xWrites == s.xWrites + XWrites(em.frag) && b.s.depth == s.depth
  }

  // ----- gluing regions -----

  lemma RepresentsAppend(insns: Program, base: nat, f: Frag, g: Frag)
    requires Represents(insns, base, f) && Represents(insns, base + |f|, g)
    ensures Represents(insns, base, f + g)
  {
    forall i | 0 <= i < |f + g| ensures Fits(insns[base + i], (f + g)[i]) {
      if i >= |f| { assert Fits(insns[base + |f| + (i - |f|)], g[i - |f|]); }
    }
  }

  lemma RepresentsSame(p: Program, q: Program, base: nat, f: Frag)
    requires Represents(p, base, f) && base + |f| <= |q|
    requires forall i :: base <= i < base + |f| ==> q[i] == p[i]
    ensures Represents(q, base, f)
  {
    forall i | 0 <= i < |f| ensures Fits(q[base + i], f[i]) { assert Fits(p[base + i], f[i]); }
  }

  lemma RepresentsPlaced(s: Program, f: Frag)
    requires ShortJumps(f)
    ensures Represents(s + PlaceAll(f), |s|, f)
  {
    PlaceFits(f);
    forall i | 0 <= i < |f| ensures Fits((s + PlaceAll(f))[|s| + i], f[i]) {
      assert Fits(PlaceAll(f)[0 + i], f[i]);
    }
  }

  /** Pending jumps of either kind fit any offset, so they may be renamed. */
  lemma RepresentsRenamed(insns: Program, base: nat, f: Frag, t: nat)
    requires Represents(insns, base, Link(f, Pending(ToSucc), At(t)))
    ensures Represents(insns, base, Link(f, Pending(ToFail), At(t)))
  {
    var g, h := Link(f, Pending(ToSucc), At(t)), Link(f, Pending(ToFail), At(t));
    forall i | 0 <= i < |h| ensures Fits(insns[base + i], h[i]) { assert Fits(insns[base + i], g[i]); }
  }

  // ----- one step at a time -----

  lemma {:induction false} OperandResolvable(before: Program, insns: Program, all: Program, f: Frag, j: Jump, ps: seq<Patch>)
    requires Holds(insns, before, f) && Keeps(insns, all) && Lists(ps, f, |before|, j)
    ensures Represents(all, |before|, f)
    ensures !ResolveAll(all, ps, |all|).Panic?
  {
    RepresentsSame(insns, all, |before|, f);
    SlotsPatchable(all, |before|, f, j, ps, |all|);
    ResolveAllNoPanic(all, ps, |all|);
  }

  /** Resolving one of an operand's lists to the end of the code (which may
      have grown since) links the operand and changes nothing else. */
  lemma {:induction false} ResolveOperand(before: Program, insns: Program, all: Program, f: Frag, j: Jump, ps: seq<Patch>)
    requires Holds(insns, before, f) && Keeps(insns, all) && !j.Rel? && Lists(ps, f, |before|, j)
    ensures !ResolveAll(all, ps, |all|).Panic?
    ensures ResolveAll(all, ps, |all|).Ok? ==>
            var out, t := ResolveAll(all, ps, |all|).value, |all| - |before|;
            && |out| == |all| && Keeps(before, out)
            && (forall i :: |insns| <= i < |all| ==> out[i] == all[i])
            && Represents(out, |before|, Link(f, SuccDest(j, t), FailDest(j, t)))
  {
    OperandResolvable(before, insns, all, f, j, ps);
    if ResolveAll(all, ps, |all|).Ok? { ResolveLinks(all, |before|, f, j, ps, |all| - |before|); }
  }

  // ----- lists of composed code -----

  lemma {:induction false} AndLists(p: Patches, q: Patches, f: Frag, g: Frag, base: nat)
    requires BothLists(p, f, base) && BothLists(q, g, base + |f|)
    ensures BothLists(Patches(q.success, Concat(p.failure, q.failure)), AndFrag(f, g), base)
  {
    var linked := Link(f, At(|f|), Pending(ToFail));
    ConcatNoDuplicates(p.failure, q.failure);
    forall x ensures x in q.success <==> IsSlot(AndFrag(f, g), base, x, ToSucc)
      ensures x in Concat(p.failure, q.failure) <==> IsSlot(AndFrag(f, g), base, x, ToFail)
    {
      IsSlotAppend(linked, g, base, x, ToSucc);
      IsSlotAppend(linked, g, base, x, ToFail);
      IsSlotLink(f, base, At(|f|), Pending(ToFail), x, ToSucc);
      IsSlotLink(f, base, At(|f|), Pending(ToFail), x, ToFail);
    }
  }

  lemma {:induction false} NotLists(p: Patches, f: Frag, base: nat, ja: nat)
    requires BothLists(p, f, base) && ja == base + |f|
    ensures BothLists(Patches([], p.success + [PatchJa(ja)]), NotFrag(f), base)
  {
    var linked, tail := Link(f, Pending(ToFail), At(|f| + 1)), [Goto(ToFail)];
    ConcatNoDuplicates(p.success, [PatchJa(ja)]);
    forall x ensures !IsSlot(NotFrag(f), base, x, ToSucc)
      ensures x in p.success + [PatchJa(ja)] <==> IsSlot(NotFrag(f), base, x, ToFail)
    {
      IsSlotAppend(linked, tail, base, x, ToSucc);
      IsSlotAppend(linked, tail, base, x, ToFail);
      IsSlotOne(Goto(ToFail), ja, x, ToSucc);
      IsSlotOne(Goto(ToFail), ja, x, ToFail);
      IsSlotLink(f, base, Pending(ToFail), At(|f| + 1), x, ToSucc);
      IsSlotLink(f, base, Pending(ToFail), At(|f| + 1), x, ToFail);
    }
  }

  lemma {:induction false} IsSlotOr(f: Frag, g: Frag, base: nat, x: Patch)
    ensures IsSlot(OrFrag(f, g), base, x, ToSucc) <==>
            IsSlot(f, base, x, ToSucc) || x == PatchJa(base + |f|) || IsSlot(g, base + |f| + 1, x, ToSucc)
    ensures IsSlot(OrFrag(f, g), base, x, ToFail) <==> IsSlot(g, base + |f| + 1, x, ToFail)
  {
    var linked, ja := Link(f, Pending(ToSucc), At(|f| + 1)), [Goto(ToSucc)];
    IsSlotAppend(linked, ja + g, base, x, ToSucc);
    IsSlotAppend(linked, ja + g, base, x, ToFail);
    IsSlotAppend(ja, g, base + |f|, x, ToSucc);
    IsSlotAppend(ja, g, base + |f|, x, ToFail);
    IsSlotOne(Goto(ToSucc), base + |f|, x, ToSucc);
    IsSlotOne(Goto(ToSucc), base + |f|, x, ToFail);
    IsSlotLink(f, base, Pending(ToSucc), At(|f| + 1), x, ToSucc);
    IsSlotLink(f, base, Pending(ToSucc), At(|f| + 1), x, ToFail);
  }

  /** The lists of `or` behind guards `h` at `at`; the arms start at `base`. */
  lemma {:induction false} OrLists(p: Patches, q: Patches, h: Frag, hoist: seq<Patch>, f: Frag, g: Frag, at: nat, base: nat)
    requires NoSucc(h) && base == at + |h| && Lists(hoist, h, at, ToFail)
    requires BothLists(p, f, base) && BothLists(q, g, base + |f| + 1)
    ensures BothLists(Patches(Concat(p.success + [PatchJa(base + |f|)], q.success), Concat(q.failure, hoist)),
                      h + OrFrag(f, g), at)
  {
    var ja := [PatchJa(base + |f|)];
    ConcatNoDuplicates(p.success, ja);
    ConcatNoDuplicates(p.success + ja, q.success);
    ConcatNoDuplicates(q.failure, hoist);
    forall x ensures x in Concat(p.success + ja, q.success) <==> IsSlot(h + OrFrag(f, g), at, x, ToSucc)
      ensures x in Concat(q.failure, hoist) <==> IsSlot(h + OrFrag(f, g), at, x, ToFail)
    {
      IsSlotOr(f, g, base, x);
      IsSlotAppend(h, OrFrag(f, g), at, x, ToSucc);
      IsSlotAppend(h, OrFrag(f, g), at, x, ToFail);
    }
  }

  lemma XWritesAnd(f: Frag, g: Frag)
    ensures XWrites(AndFrag(f, g)) == XWrites(f) + XWrites(g)
  {
    XWritesLink(f, At(|f|), Pending(ToFail));
    XWritesAppend(Link(f, At(|f|), Pending(ToFail)), g);
  }

  lemma XWritesNot(f: Frag)
    ensures XWrites(NotFrag(f)) == XWrites(f)
  {
    XWritesLink(f, Pending(ToFail), At(|f| + 1));
    XWritesOne(Goto(ToFail));
    XWritesAppend(Link(f, Pending(ToFail), At(|f| + 1)), [Goto(ToFail)]);
  }

  // ----- the connectives -----

  lemma {:induction false} AndHolds(before: Program, a: Program, f: Frag, ps: seq<Patch>, m: Program, b: Program, g: Frag)
    requires Holds(a, before, f) && Lists(ps, f, |before|, ToSucc)
    requires ResolveAll(a, ps, |a|).Ok? && m == ResolveAll(a, ps, |a|).value && Holds(b, m, g)
    ensures Holds(b, before, AndFrag(f, g)) && |m| == |a|
  {
    var base, linked := |before|, Link(f, At(|f|), Pending(ToFail));
    ResolveOperand(before, a, a, f, ToSucc, ps);
    RepresentsSame(m, b, base, linked);
    RepresentsAppend(b, base, linked, g);
  }

  lemma {:induction false} AndRefines(a: Built, ea: Emitted, s: State, m: State, b: Built, eb: Emitted)
    requires Refines(a, ea, s)
    requires ResolveAll(a.s.insns, a.patches.success, |a.s.insns|).Ok?
    requires m.insns == ResolveAll(a.s.insns, a.patches.success, |a.s.insns|).value && m.xWrites == a.s.xWrites
    requires Refines(b, eb, m)
    ensures Refines(Built(b.s.(depth := s.depth), Patches(b.patches.success, Concat(a.patches.failure, b.patches.failure)), a.leading),
                    Emitted(AndFrag(ea.frag, eb.frag), eb.facts), s)
  {
    AndHolds(s.insns, a.s.insns, ea.frag, a.patches.success, m.insns, b.s.insns, eb.frag);
    AndLists(a.patches, b.patches, ea.frag, eb.frag, |s.insns|);
    XWritesAnd(ea.frag, eb.frag);
  }

  /** Code resolved past an inserted `ja`. */
  lemma {:induction false} JaHolds(before: Program, a: Program, f: Frag, ps: seq<Patch>, m: Program)
    requires Holds(a, before, f) && Lists(ps, f, |before|, ToFail)
    requires ResolveAll(a + [Ja(0)], ps, |a| + 1).Ok? && m == ResolveAll(a + [Ja(0)], ps, |a| + 1).value
    ensures |m| == |a| + 1 && Keeps(before, m) && m[|a|] == Ja(0)
    ensures Represents(m, |before|, Link(f, Pending(ToSucc), At(|f| + 1)))
  {
    ResolveOperand(before, a, a + [Ja(0)], f, ToFail, ps);
  }

  lemma {:induction false} NotHolds(before: Program, a: Program, f: Frag, ps: seq<Patch>, m: Program)
    requires Holds(a, before, f) && Lists(ps, f, |before|, ToFail)
    requires ResolveAll(a + [Ja(0)], ps, |a| + 1).Ok? && m == ResolveAll(a + [Ja(0)], ps, |a| + 1).value
    ensures Holds(m, before, NotFrag(f))
  {
    JaHolds(before, a, f, ps, m);
    RepresentsRenamed(m, |before|, f, |f| + 1);
    assert Represents(m, |before| + |f|, [Goto(ToFail)]);
    RepresentsAppend(m, |before|, Link(f, Pending(ToFail), At(|f| + 1)), [Goto(ToFail)]);
  }

  lemma {:induction false} NotRefines(a: Built, ea: Emitted, s: State)
    requires Refines(a, ea, s) && NotEnd(a.s, a.patches, s.facts, s.xWrites).Ok?
    ensures Refines(NotEnd(a.s, a.patches, s.facts, s.xWrites).value,
                    Emitted(NotFrag(ea.frag), Restored(s.facts, ea.frag)), s)
  {
    NotHolds(s.insns, a.s.insns, ea.frag, a.patches.failure, NotEnd(a.s, a.patches, s.facts, s.xWrites).value.s.insns);
    NotLists(a.patches, ea.frag, |s.insns|, |a.s.insns|);
    XWritesNot(ea.frag);
  }

  lemma {:induction false} ArmsHold(before: Program, a: Program, f: Frag, ps: seq<Patch>, m: Program, b: Program, g: Frag)
    requires Holds(a, before, f) && Lists(ps, f, |before|, ToFail)
    requires ResolveAll(a + [Ja(0)], ps, |a| + 1).Ok? && m == ResolveAll(a + [Ja(0)], ps, |a| + 1).value
    requires Holds(b, m, g)
    ensures Holds(b, before, OrFrag(f, g)) && |m| == |a| + 1
  {
    var base, linked, ja := |before|, Link(f, Pending(ToSucc), At(|f| + 1)), [Goto(ToSucc)];
    JaHolds(before, a, f, ps, m);
    RepresentsSame(m, b, base, linked);
    assert Represents(b, base + |f|, ja);
    RepresentsAppend(b, base + |f|, ja, g);
    RepresentsAppend(b, base, linked, ja + g);
  }

  /** Guards placed in front of a region. */
  lemma {:induction false} HoistHolds(before: Program, h: Frag, b: Program, arms: Frag)
    requires ShortJumps(h) && Holds(b, before + PlaceAll(h), arms)
    ensures Holds(b, before, h + arms)
  {
    var mid := before + PlaceAll(h);
    RepresentsPlaced(before, h);
    RepresentsSame(mid, b, |before|, h);
    RepresentsAppend(b, |before|, h, arms);
    forall i | 0 <= i < |before| ensures b[i] == before[i] { assert b[i] == mid[i]; }
  }

  lemma {:induction false} OrHolds(before: Program, h: Frag, a: Program, f: Frag, ps: seq<Patch>, m: Program, b: Program, g: Frag)
    requires ShortJumps(h) && Holds(a, before + PlaceAll(h), f)
    requires Lists(ps, f, |before| + |h|, ToFail)
    requires ResolveAll(a + [Ja(0)], ps, |a| + 1).Ok? && m == ResolveAll(a + [Ja(0)], ps, |a| + 1).value
    requires Holds(b, m, g)
    ensures Holds(b, before, h + OrFrag(f, g)) && |m| == |before| + |h| + |f| + 1
  {
    ArmsHold(before + PlaceAll(h), a, f, ps, m, b, g);
    HoistHolds(before, h, b, OrFrag(f, g));
  }

  lemma OrXWrites(h: Frag, f: Frag, g: Frag)
    ensures XWrites(h + OrFrag(f, g)) == XWrites(h) + XWrites(f) + XWrites(g)
  {
    XWritesOr(f, g);
    XWritesAppend(h, OrFrag(f, g));
  }

  lemma {:induction false} OrParts(before: Program, h: Frag, a: Program, pa: Patches, f: Frag, m: Program, b: Program, pb: Patches, g: Frag)
    requires ShortJumps(h) && NoSucc(h)
    requires Holds(a, before + PlaceAll(h), f) && BothLists(pa, f, |before| + |h|)
    requires ResolveAll(a + [Ja(0)], pa.failure, |a| + 1).Ok? && m == ResolveAll(a + [Ja(0)], pa.failure, |a| + 1).value
    requires Holds(b, m, g) && BothLists(pb, g, |m|)
    ensures Holds(b, before, h + OrFrag(f, g))
    ensures BothLists(Patches(Concat(pa.success + [PatchJa(|a|)], pb.success), Concat(pb.failure, Slots(h, |before|, ToFail))),
                      h + OrFrag(f, g), |before|)
  {
    assert |a| == |before| + |h| + |f|;
    assert Holds(b, before, h + OrFrag(f, g)) && |m| == |a| + 1 by {
      OrHolds(before, h, a, f, pa.failure, m, b, g);
    }
    SlotsList(h, |before|, ToFail);
    OrLists(pa, pb, h, Slots(h, |before|, ToFail), f, g, |before|, |before| + |h|);
  }

  lemma {:induction false} OrRefines(s: State, eh: Emitted, a: Built, ea: Emitted, m: State, b: Built, eb: Emitted)
    requires ShortJumps(eh.frag) && NoSucc(eh.frag)
    requires Refines(a, ea, Append(s, eh))
    requires ResolveAll(a.s.insns + [Ja(0)], a.patches.failure, |a.s.insns| + 1).Ok?
    requires m.insns == ResolveAll(a.s.insns + [Ja(0)], a.patches.failure, |a.s.insns| + 1).value
    requires m.xWrites == a.s.xWrites && m.depth == a.s.depth
    requires Refines(b, eb, m)
    ensures var out := OrEnd(b.s, a.patches.success, |a.s.insns|, a.s.facts, Slots(eh.frag, |s.insns|, ToFail), b.patches);
            Refines(out, Emitted(eh.frag + OrFrag(ea.frag, eb.frag), MeetFacts(ea.facts, eb.facts)), s)
  {
    var h, at := eh.frag, |s.insns|;
    assert |Append(s, eh).insns| == at + |h|;
    OrParts(s.insns, h, a.s.insns, a.patches, ea.frag, m.insns, b.s.insns, b.patches, eb.frag);
    OrXWrites(h, ea.frag, eb.frag);
  }

  lemma {:induction false} PrimRefines(link: LinkType, s: State, p: Primitive)
    requires BuildPrim(link, s, p).Ok?
    ensures EmitPrim(Layout(link, s.depth), s.facts, p).Ok?
    ensures Refines(BuildPrim(link, s, p).value, EmitPrim(Layout(link, s.depth), s.facts, p).value, s)
  {
    var em := EmitPrim(Layout(link, s.depth), s.facts, p).value;
    RepresentsPlaced(s.insns, em.frag);
    SlotsList(em.frag, |s.insns|, ToSucc);
    SlotsList(em.frag, |s.insns|, ToFail);
  }

  // ----- the whole compile -----

  function LayoutOf(link: LinkType, s: State): Layout { Layout(link, s.depth) }

  lemma {:induction false} RestoredSame(f: Facts, before: nat, code: Frag)
    ensures RestoreFacts(f, before, before + XWrites(code)) == Restored(f, code)
  {
  }

  // What the compiles of `l and r` consist of.

  lemma {:induction false} BuildAndParts(e: Expr, link: LinkType, s: State)
    returns (a: Built, m: State, b: Built)
    requires e.And? && Build(e, link, s).Ok?
    ensures Build(e.left, link, s) == Ok(a) && AndMiddle(a.s, a.patches, a.leading) == Ok(m)
    ensures Build(e.right, link, m) == Ok(b)
    ensures AndEnd(b.s, a.patches.failure, b.patches, a.leading) == Build(e, link, s)
  {
    a := Build(e.left, link, s).value;
    m := AndMiddle(a.s, a.patches, a.leading).value;
    b := Build(e.right, link, m).value;
  }

  lemma {:induction false} EmitAnd(e: Expr, lay: Layout, f: Facts, ea: Emitted, eb: Emitted)
    requires e.And? && Emit(e.left, lay, f) == Ok(ea)
    requires Emit(e.right, if LeadingVlan(e.left) then Tagged(lay) else lay, ea.facts) == Ok(eb)
    ensures Emit(e, lay, f) == Ok(Emitted(AndFrag(ea.frag, eb.frag), eb.facts))
  {
  }

  lemma {:induction false} AndFinishes(a: Built, ea: Emitted, s: State, m: State, c: Built, ec: Emitted)
    requires Refines(a, ea, s) && AndMiddle(a.s, a.patches, a.leading) == Ok(m) && Refines(c, ec, m)
    ensures var end := AndEnd(c.s, a.patches.failure, c.patches, a.leading);
            && end.Ok? && end.value.leading == a.leading
            && Refines(end.value, Emitted(AndFrag(ea.frag, ec.frag), ec.facts), s)
  {
    AndRefines(a, ea, s, m, c, ec);
  }

  lemma MiddleLayout(a: Built, ea: Emitted, s: State, m: State, link: LinkType)
    requires Refines(a, ea, s) && AndMiddle(a.s, a.patches, a.leading) == Ok(m)
    ensures LayoutOf(link, m) == (if a.leading then Tagged(LayoutOf(link, s)) else LayoutOf(link, s)) && m.facts == ea.facts
  {
  }

  lemma {:induction false} BuildAnd(e: Expr, link: LinkType, s: State) returns (b: Built, em: Emitted)
    requires e.And? && Build(e, link, s).Ok?
    ensures Build(e, link, s) == Ok(b) && Emit(e, LayoutOf(link, s), s.facts) == Ok(em)
    ensures Refines(b, em, s) && b.leading == LeadingVlan(e)
    decreases e, 0
  {
    var a, m, c := BuildAndParts(e, link, s);
    var a', ea := BuildRefines(e.left, link, s);
    var c', ec := BuildRefines(e.right, link, m);
    MiddleLayout(a, ea, s, m, link);
    EmitAnd(e, LayoutOf(link, s), s.facts, ea, ec);
    AndFinishes(a, ea, s, m, c, ec);
    b, em := AndEnd(c.s, a.patches.failure, c.patches, a.leading).value, Emitted(AndFrag(ea.frag, ec.frag), ec.facts);
  }

  lemma {:induction false} BuildOrParts(e: Expr, link: LinkType, s: State)
    returns (eh: Emitted, a: Built, m: State, b: Built)
    requires e.Or? && Build(e, link, s).Ok?
    ensures EmitHoist(LayoutOf(link, s), s.facts, Intersect(Required(e.left), Required(e.right))) == Ok(eh) && ShortJumps(eh.frag)
    ensures var h := Append(s, eh);
            && Build(e.left, link, h) == Ok(a) && OrMiddle(a.s, a.patches, h.facts, h.xWrites) == Ok(m)
    ensures Build(e.right, link, m) == Ok(b)
    ensures Build(e, link, s) == Ok(OrEnd(b.s, a.patches.success, |a.s.insns|, a.s.facts, Slots(eh.frag, |s.insns|, ToFail), b.patches))
  {
    var g := Intersect(Required(e.left), Required(e.right));
    eh := EmitHoist(LayoutOf(link, s), s.facts, g).value;
    var h := BuildHoist(link, s, g).value;
    a := Build(e.left, link, h.0).value;
    m := OrMiddle(a.s, a.patches, h.0.facts, h.0.xWrites).value;
    b := Build(e.right, link, m).value;
  }

  lemma {:induction false} EmitOr(e: Expr, lay: Layout, f: Facts, eh: Emitted, ea: Emitted, eb: Emitted)
    requires e.Or? && EmitHoist(lay, f, Intersect(Required(e.left), Required(e.right))) == Ok(eh)
    requires Emit(e.left, lay, eh.facts) == Ok(ea)
    requires Emit(e.right, lay, Restored(eh.facts, ea.frag)) == Ok(eb)
    ensures Emit(e, lay, f) == Ok(Emitted(eh.frag + OrFrag(ea.frag, eb.frag), MeetFacts(ea.facts, eb.facts)))
  {
  }

  lemma {:induction false} BuildOr(e: Expr, link: LinkType, s: State) returns (b: Built, em: Emitted)
    requires e.Or? && Build(e, link, s).Ok?
    ensures Build(e, link, s) == Ok(b) && Emit(e, LayoutOf(link, s), s.facts) == Ok(em)
    ensures Refines(b, em, s) && !b.leading
    decreases e, 0
  {
    var eh, a, m, c := BuildOrParts(e, link, s);
    HoistShape(LayoutOf(link, s), s.facts, Intersect(Required(e.left), Required(e.right)));
    var a', ea := BuildRefines(e.left, link, Append(s, eh));
    RestoredSame(eh.facts, Append(s, eh).xWrites, ea.frag);
    var c', ec := BuildRefines(e.right, link, m);
    EmitOr(e, LayoutOf(link, s), s.facts, eh, ea, ec);
    OrRefines(s, eh, a, ea, m, c, ec);
    b := OrEnd(c.s, a.patches.success, |a.s.insns|, a.s.facts, Slots(eh.frag, |s.insns|, ToFail), c.patches);
    em := Emitted(eh.frag + OrFrag(ea.frag, ec.frag), MeetFacts(ea.facts, ec.facts));
  }

  lemma {:induction false} BuildNotParts(e: Expr, link: LinkType, s: State) returns (a: Built, b: Built)
    requires e.Not? && Build(e, link, s).Ok?
    ensures Build(e.inner, link, s) == Ok(a)
    ensures NotEnd(a.s, a.patches, s.facts, s.xWrites) == Build(e, link, s) == Ok(b)
  {
    a, b := Build(e.inner, link, s).value, Build(e, link, s).value;
  }

  lemma {:induction false} EmitNot(e: Expr, lay: Layout, f: Facts, ea: Emitted)
    requires e.Not? && Emit(e.inner, lay, f) == Ok(ea)
    ensures Emit(e, lay, f) == Ok(Emitted(NotFrag(ea.frag), Restored(f, ea.frag)))
  {
  }

  lemma {:induction false} BuildNot(e: Expr, link: LinkType, s: State) returns (b: Built, em: Emitted)
    requires e.Not? && Build(e, link, s).Ok?
    ensures Build(e, link, s) == Ok(b) && Emit(e, LayoutOf(link, s), s.facts) == Ok(em)
    ensures Refines(b, em, s) && !b.leading
    decreases e, 0
  {
    var a, c := BuildNotParts(e, link, s);
    var a', ea := BuildRefines(e.inner, link, s);
    EmitNot(e, LayoutOf(link, s), s.facts, ea);
    NotRefines(a, ea, s);
    b, em := c, Emitted(NotFrag(ea.frag), Restored(s.facts, ea.frag));
  }

  /** The patch-list compile succeeds only where the symbolic one does, and then
      builds its code with exactly its pending slots on the lists. */
  lemma {:induction false} BuildRefines(e: Expr, link: LinkType, s: State) returns (b: Built, em: Emitted)
    requires Build(e, link, s).Ok?
    ensures Build(e, link, s) == Ok(b) && Emit(e, LayoutOf(link, s), s.facts) == Ok(em)
    ensures Refines(b, em, s) && b.leading == LeadingVlan(e)
    decreases e, 1
  {
    match e
    case Prim(p) => 
      PrimRefines(link, s, p);
      b, em := BuildPrim(link, s, p).value, EmitPrim(LayoutOf(link, s), s.facts, p).value;
    case And(_, _) => b, em := BuildAnd(e, link, s);
    case Or(_, _) => b, em := BuildOr(e, link, s);
    case Not(x) => b, em := BuildNot(e, link, s);
  }

  // ----- no `expect` fails -----

  lemma {:induction false} MiddlesNoPanic(b: Built, em: Emitted, s: State, bump: bool, f: Facts, x: nat)
    requires Refines(b, em, s)
    ensures !AndMiddle(b.s, b.patches, bump).Panic? && !OrMiddle(b.s, b.patches, f, x).Panic?
    ensures !NotEnd(b.s, b.patches, f, x).Panic?
  {
    var insns := b.s.insns;
    OperandResolvable(s.insns, insns, insns, em.frag, ToSucc, b.patches.success);
    OperandResolvable(s.insns, insns, insns + [Ja(0)], em.frag, ToFail, b.patches.failure);
  }

  lemma {:induction false} AndNoPanic(e: Expr, link: LinkType, s: State)
    requires e.And? && Build(e.left, link, s).Ok? && RawKnown(LayoutOf(link, s), s.facts)
    ensures !Build(e, link, s).Panic?
    decreases e, 0
  {
    var a, ea := BuildRefines(e.left, link, s);
    MiddlesNoPanic(a, ea, s, a.leading, s.facts, 0);
    var rm := AndMiddle(a.s, a.patches, a.leading);
    if rm.Ok? {
      var m := rm.value;
      MiddleLayout(a, ea, s, m, link);
      EmitShape(e.left, LayoutOf(link, s), s.facts);
      BuildNoPanic(e.right, link, m);
      if Build(e.right, link, m).Ok? {
        var c, ec := BuildRefines(e.right, link, m);
        AndFinishes(a, ea, s, m, c, ec);
      }
    }
  }

  lemma {:induction false} OrNoPanic(e: Expr, link: LinkType, s: State)
    requires e.Or? && RawKnown(LayoutOf(link, s), s.facts)
    ensures !Build(e, link, s).Panic?
    decreases e, 0
  {
    var g := Intersect(Required(e.left), Required(e.right));
    HoistShape(LayoutOf(link, s), s.facts, g);
    var rh := BuildHoist(link, s, g);
    if rh.Ok? {
      var h := rh.value.0;
      BuildNoPanic(e.left, link, h);
      if Build(e.left, link, h).Ok? {
        var a, ea := BuildRefines(e.left, link, h);
        MiddlesNoPanic(a, ea, h, false, h.facts, h.xWrites);
        var rm := OrMiddle(a.s, a.patches, h.facts, h.xWrites);
        if rm.Ok? { BuildNoPanic(e.right, link, rm.value); }
      }
    }
  }

  /** Compiling never panics when raw IP frames are known to be IPv4. */
  lemma {:induction false} BuildNoPanic(e: Expr, link: LinkType, s: State)
    requires RawKnown(LayoutOf(link, s), s.facts)
    ensures !Build(e, link, s).Panic?
    decreases e, 1
  {
    match e
    case Prim(p) => PrimShape(LayoutOf(link, s), s.facts, p);
    case And(l, _) =>
      BuildNoPanic(l, link, s);
      if Build(l, link, s).Ok? { AndNoPanic(e, link, s); }
    case Or(_, _) => OrNoPanic(e, link, s);
    case Not(x) =>
      BuildNoPanic(x, link, s);
      if Build(x, link, s).Ok? {
        var a, ea := BuildRefines(x, link, s);
        MiddlesNoPanic(a, ea, s, false, s.facts, s.xWrites);
      }
  }

  // ----- short code always compiles -----

  lemma ShortCode(f: Frag)
    requires WellFormed(f) && |f| <= 255
    ensures ShortJumps(f)
  {
    forall i | 0 <= i < |f| ensures InsnWithin(f[i], i, |f|) { }
  }

  lemma {:induction false} MiddlesSucceed(b: Built, em: Emitted, s: State, bump: bool, f: Facts, x: nat)
    requires Refines(b, em, s) && |em.frag| <= 255
    ensures AndMiddle(b.s, b.patches, bump).Ok? && OrMiddle(b.s, b.patches, f, x).Ok?
    ensures NotEnd(b.s, b.patches, f, x).Ok?
  {
    var insns, base := b.s.insns, |s.insns|;
    RepresentsSame(insns, insns + [Ja(0)], base, em.frag);
    SlotsPatchable(insns, base, em.frag, ToSucc, b.patches.success, |insns|);
    SlotsPatchable(insns + [Ja(0)], base, em.frag, ToFail, b.patches.failure, |insns| + 1);
    forall p | p in b.patches.success ensures |insns| - p.i <= 256 { assert IsSlot(em.frag, base, p, ToSucc); }
    forall p | p in b.patches.failure ensures |insns| + 1 - p.i <= 256 { assert IsSlot(em.frag, base, p, ToFail); }
    ResolveAllNear(insns, b.patches.success, |insns|);
    ResolveAllNear(insns + [Ja(0)], b.patches.failure, |insns| + 1);
  }

  /** A compile whose code has at most 255 instructions fails only where emission
      itself does. */
  lemma {:induction false} BuildSucceeds(e: Expr, link: LinkType, s: State)
    requires Emit(e, LayoutOf(link, s), s.facts).Ok? && |Emit(e, LayoutOf(link, s), s.facts).value.frag| <= 255
    ensures Build(e, link, s).Ok?
    decreases e, 1
  {
    match e
    case Prim(p) =>
      PrimShape(LayoutOf(link, s), s.facts, p);
      ShortCode(EmitPrim(LayoutOf(link, s), s.facts, p).value.frag);
    case And(_, _) => AndSucceeds(e, link, s);
    case Or(_, _) => OrSucceeds(e, link, s);
    case Not(x) =>
      BuildSucceeds(x, link, s);
      var a, ea := BuildRefines(x, link, s);
      MiddlesSucceed(a, ea, s, false, s.facts, s.xWrites);
  }

  lemma {:induction false} EmitAndParts(e: Expr, lay: Layout, f: Facts) returns (a: Emitted, b: Emitted)
    requires e.And? && Emit(e, lay, f).Ok?
    ensures Emit(e.left, lay, f) == Ok(a)
    ensures Emit(e.right, if LeadingVlan(e.left) then Tagged(lay) else lay, a.facts) == Ok(b)
    ensures |Emit(e, lay, f).value.frag| == |a.frag| + |b.frag|
  {
    a := Emit(e.left, lay, f).value;
    b := Emit(e.right, if LeadingVlan(e.left) then Tagged(lay) else lay, a.facts).value;
  }

  lemma {:induction false} AndSucceeds(e: Expr, link: LinkType, s: State)
    requires e.And? && Emit(e, LayoutOf(link, s), s.facts).Ok? && |Emit(e, LayoutOf(link, s), s.facts).value.frag| <= 255
    ensures Build(e, link, s).Ok?
    decreases e, 0
  {
    var ea', eb' := EmitAndParts(e, LayoutOf(link, s), s.facts);
    BuildSucceeds(e.left, link, s);
    var a, ea := BuildRefines(e.left, link, s);
    MiddlesSucceed(a, ea, s, a.leading, s.facts, 0);
    var m := AndMiddle(a.s, a.patches, a.leading).value;
    MiddleLayout(a, ea, s, m, link);
    BuildSucceeds(e.right, link, m);
    var c, ec := BuildRefines(e.right, link, m);
    AndFinishes(a, ea, s, m, c, ec);
  }

  lemma {:induction false} EmitOrParts(e: Expr, lay: Layout, f: Facts) returns (h: Emitted, a: Emitted, b: Emitted)
    requires e.Or? && Emit(e, lay, f).Ok?
    ensures EmitHoist(lay, f, Intersect(Required(e.left), Required(e.right))) == Ok(h)
    ensures Emit(e.left, lay, h.facts) == Ok(a) && Emit(e.right, lay, Restored(h.facts, a.frag)) == Ok(b)
    ensures |Emit(e, lay, f).value.frag| == |h.frag| + |a.frag| + 1 + |b.frag|
  {
    h := EmitHoist(lay, f, Intersect(Required(e.left), Required(e.right))).value;
    a := Emit(e.left, lay, h.facts).value;
    b := Emit(e.right, lay, Restored(h.facts, a.frag)).value;
  }

  lemma {:induction false} OrSucceeds(e: Expr, link: LinkType, s: State)
    requires e.Or? && Emit(e, LayoutOf(link, s), s.facts).Ok? && |Emit(e, LayoutOf(link, s), s.facts).value.frag| <= 255
    ensures Build(e, link, s).Ok?
    decreases e, 0
  {
    var g := Intersect(Required(e.left), Required(e.right));
    var eh, ea', eb' := EmitOrParts(e, LayoutOf(link, s), s.facts);
    HoistShape(LayoutOf(link, s), s.facts, g);
    ShortCode(eh.frag);
    var h := Append(s, eh);
    BuildSucceeds(e.left, link, h);
    var a, ea := BuildRefines(e.left, link, h);
    MiddlesSucceed(a, ea, h, false, h.facts, h.xWrites);
    RestoredSame(h.facts, h.xWrites, ea.frag);
    BuildSucceeds(e.right, link, OrMiddle(a.s, a.patches, h.facts, h.xWrites).value);
  }
}
