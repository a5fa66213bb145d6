// Code under construction: instruction sequences whose pending jumps are
// symbolic. `ToSucc` and `ToFail` are the slots of the success and failure
// patch lists (pktbaffle/src/codegen.rs:82-102); `Rel` is a resolved offset.

module Fragments {
  import opened Words
  import opened Bpf
  import opened Vm
  import opened Meaning

  datatype Jump = Rel(off: nat) | ToSucc | ToFail

  datatype FInsn =
    | Plain(i: Insn)
    | Goto(j: Jump)
    | Branch(cond: Cond, src: Source, k: u32, jt: Jump, jf: Jump)

  type Frag = seq<FInsn>

  datatype Exit = Crashed | Fell(r: Regs) | Succeeded(r: Regs) | Failed(r: Regs)

  predicate JumpWithin(j: Jump, i: nat, n: nat) {
    j.Rel? ==> i + 1 + j.off <= n
  }

  predicate InsnWithin(c: FInsn, i: nat, n: nat) {
    match c
    case Plain(insn) => Straight(insn)
    case Goto(j) => JumpWithin(j, i, n)
    case Branch(_, _, _, jt, jf) => JumpWithin(jt, i, n) && JumpWithin(jf, i, n)
  }

  /** Resolved jumps stay inside the fragment or go just past its end. */
  predicate WellFormed(f: Frag) {
    forall i :: 0 <= i < |f| ==> InsnWithin(f[i], i, |f|)
  }

  /** The jump an executed `Goto` or `Branch` takes. */
  function Picked(c: FInsn, r: Regs): Jump
    requires !c.Plain?
  {
    if c.Goto? || Taken(c.cond, r.a, Operand(c.src, c.k, r.x)) then (if c.Goto? then c.j else c.jt) else c.jf
  }

  function Leave(f: Frag, pkt: Packet, j: Jump, pc: nat, r: Regs): Exit
    requires pc < |f|
    decreases |f| - pc, 0
  {
    match j
    case Rel(off) => Run(f, pkt, pc + 1 + off, r)
    case ToSucc => Succeeded(r)
    case ToFail => Failed(r)
  }

  /** How control leaves the fragment when entered at `pc`. */
  function Run(f: Frag, pkt: Packet, pc: nat, r: Regs): Exit
    decreases |f| - pc, 1
  {
    if pc >= |f| then Fell(r)
    else if f[pc].Plain? then
      if !Straight(f[pc].i) then Crashed
      else
        var r' := Step(f[pc].i, pkt, r);
        if r'.None? then Crashed else Run(f, pkt, pc + 1, r'.value)
    else Leave(f, pkt, Picked(f[pc], r), pc, r)
  }

  /** Success is a fall-through or a success jump alike. */
  function Kind(x: Exit): Tri {
    match x
    case Crashed => Abort
    case Fell(_) => True
    case Succeeded(_) => True
    case Failed(_) => False
  }

  // ----- linking -----

  /** What the pending jumps of a fragment become: an index of the program the
      fragment is put into, or another pending jump. */
  datatype Dest = At(index: nat) | Pending(j: Jump)

  function LinkJump(j: Jump, i: nat, s: Dest, l: Dest): Jump {
    match j
    case Rel(_) => j
    case ToSucc => if s.At? && s.index > i then Rel(s.index - i - 1) else if s.At? then j else s.j
    case ToFail => if l.At? && l.index > i then Rel(l.index - i - 1) else if l.At? then j else l.j
  }

  function LinkInsn(c: FInsn, i: nat, s: Dest, l: Dest): FInsn {
    match c
    case Plain(_) => c
    case Goto(j) => Goto(LinkJump(j, i, s, l))
    case Branch(cond, src, k, jt, jf) => Branch(cond, src, k, LinkJump(jt, i, s, l), LinkJump(jf, i, s, l))
  }

  function Link(f: Frag, s: Dest, l: Dest): (g: Frag)
    ensures |g| == |f|
  {
    seq(|f|, i requires 0 <= i < |f| => LinkInsn(f[i], i, s, l))
  }

  /** A link destination is past the fragment or still pending. */
  predicate GoodDest(d: Dest, n: nat) {
    match d
    case At(t) => t >= n
    case Pending(j) => !j.Rel?
  }

  function Arrive(w: Frag, pkt: Packet, d: Dest, r: Regs): Exit {
    match d
    case At(t) => Run(w, pkt, t, r)
    case Pending(j) => if j == ToSucc then Succeeded(r) else Failed(r)
  }

  lemma LinkedPick(c: FInsn, pc: nat, n: nat, s: Dest, l: Dest, r: Regs)
    requires !c.Plain? && InsnWithin(c, pc, n)
    ensures JumpWithin(Picked(c, r), pc, n) && !LinkInsn(c, pc, s, l).Plain?
    ensures Picked(LinkInsn(c, pc, s, l), r) == LinkJump(Picked(c, r), pc, s, l)
  {
  }

  /** The run of a linked fragment inside a longer one: the fragment's own run,
      continued where its exits now lead. */
  lemma {:induction false} RunLinked(f: Frag, s: Dest, l: Dest, g: Frag, pkt: Packet, pc: nat, r: Regs)
    requires WellFormed(f) && GoodDest(s, |f|) && GoodDest(l, |f|) && pc <= |f|
    ensures var w := Link(f, s, l) + g;
            Run(w, pkt, pc, r) == match Run(f, pkt, pc, r)
                                  case Crashed => Crashed
                                  case Fell(r') => Run(w, pkt, |f|, r')
                                  case Succeeded(r') => Arrive(w, pkt, s, r')
                                  case Failed(r') => Arrive(w, pkt, l, r')
    decreases |f| - pc
  {
    if pc < |f| {
      var w := Link(f, s, l) + g;
      assert InsnWithin(f[pc], pc, |f|) && w[pc] == LinkInsn(f[pc], pc, s, l);
      if f[pc].Plain? {
        var r' := Step(f[pc].i, pkt, r);
        if r'.Some? { RunLinked(f, s, l, g, pkt, pc + 1, r'.value); }
      } else {
        var j := Picked(f[pc], r);
        LinkedPick(f[pc], pc, |f|, s, l, r);
        if j.Rel? { RunLinked(f, s, l, g, pkt, pc + 1 + j.off, r); }
      }
    }
  }

  /** Offsets are relative, so a prefix does not change a run behind it. */
  lemma {:induction false} RunBehind(h: Frag, g: Frag, pkt: Packet, j: nat, r: Regs)
    ensures Run(h + g, pkt, |h| + j, r) == Run(g, pkt, j, r)
    decreases |g| - j
  {
    if j < |g| {
      assert (h + g)[|h| + j] == g[j];
      if !g[j].Plain? {
        var t := Picked(g[j], r);
        if t.Rel? { RunBehind(h, g, pkt, j + 1 + t.off, r); }
      } else if Straight(g[j].i) {
        var r' := Step(g[j].i, pkt, r);
        if r'.Some? { RunBehind(h, g, pkt, j + 1, r'.value); }
      }
    }
  }

  lemma LinkKeepsForm(f: Frag, s: Dest, l: Dest, g: Frag)
    requires WellFormed(f) && WellFormed(g) && GoodDest(s, |f|) && GoodDest(l, |f|)
    requires (s.At? ==> s.index <= |f| + |g|) && (l.At? ==> l.index <= |f| + |g|)
    ensures WellFormed(Link(f, s, l) + g)
  {
    var w := Link(f, s, l) + g;
    forall i | 0 <= i < |w| ensures InsnWithin(w[i], i, |w|) {
      if i < |f| {
        assert InsnWithin(f[i], i, |f|);
      } else {
        assert InsnWithin(g[i - |f|], i - |f|, |g|);
      }
    }
  }

  // ----- sequencing -----

  lemma {:induction false} LinkNothing(f: Frag)
    ensures Link(f, Pending(ToSucc), Pending(ToFail)) == f
  {
  }

  /** One fragment after another, both keeping their pending jumps. */
  lemma {:induction false} RunAppend(f: Frag, g: Frag, pkt: Packet, r: Regs)
    requires WellFormed(f)
    ensures Run(f + g, pkt, 0, r) == var x := Run(f, pkt, 0, r); if x.Fell? then Run(g, pkt, 0, x.r) else x
    ensures WellFormed(g) ==> WellFormed(f + g)
  {
    LinkNothing(f);
    RunLinked(f, Pending(ToSucc), Pending(ToFail), g, pkt, 0, r);
    RunBehindStart(f, g, pkt);
    if WellFormed(g) { LinkKeepsForm(f, Pending(ToSucc), Pending(ToFail), g); }
  }

  lemma RunBehindStart(h: Frag, g: Frag, pkt: Packet)
    ensures forall r :: Run(h + g, pkt, |h|, r) == Run(g, pkt, 0, r)
  {
    forall r ensures Run(h + g, pkt, |h|, r) == Run(g, pkt, 0, r) { RunBehind(h, g, pkt, 0, r); }
  }

  /** `and`: the left operand's success jumps land at the right operand. */
  function AndFrag(f: Frag, g: Frag): Frag {
    Link(f, At(|f|), Pending(ToFail)) + g
  }

  lemma {:induction false} RunAnd(f: Frag, g: Frag, pkt: Packet, r: Regs)
    requires WellFormed(f) && WellFormed(g)
    ensures WellFormed(AndFrag(f, g))
    ensures Run(AndFrag(f, g), pkt, 0, r) == match Run(f, pkt, 0, r)
                                            case Crashed => Crashed
                                            case Fell(r') => Run(g, pkt, 0, r')
                                            case Succeeded(r') => Run(g, pkt, 0, r')
                                            case Failed(r') => Failed(r')
  {
    LinkKeepsForm(f, At(|f|), Pending(ToFail), g);
    RunLinked(f, At(|f|), Pending(ToFail), g, pkt, 0, r);
    RunBehindStart(Link(f, At(|f|), Pending(ToFail)), g, pkt);
  }

  /** `or`: failures of the left operand try the right one; its fall-through
      jumps over the right one. */
  function OrFrag(f: Frag, g: Frag): Frag {
    Link(f, Pending(ToSucc), At(|f| + 1)) + ([Goto(ToSucc)] + g)
  }

  lemma {:induction false} RunOr(f: Frag, g: Frag, pkt: Packet, r: Regs)
    requires WellFormed(f) && WellFormed(g)
    ensures WellFormed(OrFrag(f, g))
    ensures Run(OrFrag(f, g), pkt, 0, r) == match Run(f, pkt, 0, r)
                                           case Crashed => Crashed
                                           case Fell(r') => Succeeded(r')
                                           case Succeeded(r') => Succeeded(r')
                                           case Failed(r') => Run(g, pkt, 0, r')
  {
    var l := Link(f, Pending(ToSucc), At(|f| + 1));
    var rest := [Goto(ToSucc)] + g;
    assert WellFormed(rest) by {
      forall i | 0 <= i < |rest| ensures InsnWithin(rest[i], i, |rest|) {
        if i > 0 { assert InsnWithin(g[i - 1], i - 1, |g|); }
      }
    }
    LinkKeepsForm(f, Pending(ToSucc), At(|f| + 1), rest);
    RunLinked(f, Pending(ToSucc), At(|f| + 1), rest, pkt, 0, r);
    RunBehindStart(l, rest, pkt);
    RunBehindStart(l + [Goto(ToSucc)], g, pkt);
    assert l + rest == (l + [Goto(ToSucc)]) + g;
  }

  /** `not`: success and failure change places. */
  function NotFrag(f: Frag): Frag {
    Link(f, Pending(ToFail), At(|f| + 1)) + [Goto(ToFail)]
  }

  lemma {:induction false} RunNot(f: Frag, pkt: Packet, r: Regs)
    requires WellFormed(f)
    ensures WellFormed(NotFrag(f))
    ensures Run(NotFrag(f), pkt, 0, r) == match Run(f, pkt, 0, r)
                                         case Crashed => Crashed
                                         case Fell(r') => Failed(r')
                                         case Succeeded(r') => Failed(r')
                                         case Failed(r') => Fell(r')
  {
    LinkKeepsForm(f, Pending(ToFail), At(|f| + 1), [Goto(ToFail)]);
    RunLinked(f, Pending(ToFail), At(|f| + 1), [Goto(ToFail)], pkt, 0, r);
    RunBehindStart(Link(f, Pending(ToFail), At(|f| + 1)), [Goto(ToFail)], pkt);
  }

  // ----- the X register -----

  predicate WritesX(i: Insn) {
    i.LdxMsh? || i.LdxImm? || i.LdxMem? || i.LdxLen? || i.Tax?
  }

  /** How many instructions of the fragment write X. */
  function XWrites(f: Frag): nat {
    if f == [] then 0 else XWrites(f[..|f| - 1]) + if f[|f| - 1].Plain? && WritesX(f[|f| - 1].i) then 1 else 0
  }

  lemma {:induction false} XWritesAppend(f: Frag, g: Frag)
    ensures XWrites(f + g) == XWrites(f) + XWrites(g)
  {
    if g == [] {
      assert f + g == f;
    } else {
      XWritesAppend(f, g[..|g| - 1]);
      assert (f + g)[..|f + g| - 1] == f + g[..|g| - 1];
    }
  }

  lemma {:induction false} XWritesLink(f: Frag, s: Dest, l: Dest)
    ensures XWrites(Link(f, s, l)) == XWrites(f)
  {
    if f != [] {
      XWritesLink(f[..|f| - 1], s, l);
      assert Link(f, s, l)[..|f| - 1] == Link(f[..|f| - 1], s, l);
    }
  }

  lemma {:induction false} NoXWriteAt(f: Frag, i: nat)
    requires XWrites(f) == 0 && i < |f|
    ensures f[i].Plain? ==> !WritesX(f[i].i)
  {
    if i < |f| - 1 { NoXWriteAt(f[..|f| - 1], i); }
  }

  lemma StepKeepsX(i: Insn, pkt: Packet, r: Regs)
    requires Straight(i) && !WritesX(i)
    ensures Step(i, pkt, r).Some? ==> Step(i, pkt, r).value.x == r.x
  {
  }

  /** A fragment without X writes leaves X alone on every exit. */
  lemma {:induction false} RunKeepsX(f: Frag, pkt: Packet, pc: nat, r: Regs)
    requires XWrites(f) == 0
    ensures !Run(f, pkt, pc, r).Crashed? ==> Run(f, pkt, pc, r).r.x == r.x
    decreases |f| - pc
  {
    if pc < |f| {
      NoXWriteAt(f, pc);
      if !f[pc].Plain? {
        var j := Picked(f[pc], r);
        if j.Rel? { RunKeepsX(f, pkt, pc + 1 + j.off, r); }
      } else if Straight(f[pc].i) {
        StepKeepsX(f[pc].i, pkt, r);
        var r' := Step(f[pc].i, pkt, r);
        if r'.Some? { RunKeepsX(f, pkt, pc + 1, r'.value); }
      }
    }
  }
}
