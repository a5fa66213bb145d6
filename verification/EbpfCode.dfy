// eBPF code under construction, with its pending jumps symbolic, and how it is
// joined for `and`, `or` and `not` (pktbaffle/src/ebpf_codegen.rs:282-351).

module EbpfCode {
  import opened Words
  import opened EbpfVm

  datatype Target = Rel(off: nat) | ToSucc | ToFail

  datatype Op = Plain(i: Insn) | Branch(t: Test, to: Target)

  type Frag = seq<Op>

  datatype Exit = Crashed | Fell(r: Regs) | Succeeded(r: Regs) | Failed(r: Regs)

  predicate Within(c: Op, i: nat, n: nat) { c.Branch? && c.to.Rel? ==> i + 1 + c.to.off <= n }

  /** Resolved jumps stay inside the fragment or go just past its end. */
  predicate WellFormed(f: Frag) { forall i :: 0 <= i < |f| ==> Within(f[i], i, |f|) }

  function Leave(f: Frag, env: Env, to: Target, pc: nat, r: Regs): Exit
    requires pc < |f|
    decreases |f| - pc, 0
  {
    match to
    case Rel(off) => Run(f, env, pc + 1 + off, r)
    case ToSucc => Succeeded(r)
    case ToFail => Failed(r)
  }

  /** How control leaves the fragment when entered at `pc`. */
  function Run(f: Frag, env: Env, pc: nat, r: Regs): Exit
    decreases |f| - pc, 1
  {
    if pc >= |f| then Fell(r)
    else if f[pc].Plain? then
      var r' := Step(f[pc].i, env, r);
      if r'.None? then Crashed else Run(f, env, pc + 1, r'.value)
    else
      var b := Taken(f[pc].t, r);
      if b.None? then Crashed else Leave(f, env, if b.value then f[pc].to else Rel(0), pc, r)
  }

  // ----- linking -----

  datatype Dest = At(index: nat) | Pending(to: Target)

  function LinkTarget(to: Target, i: nat, s: Dest, l: Dest): Target {
    match to
    case Rel(_) => to
    case ToSucc => if s.At? && s.index > i then Rel(s.index - i - 1) else if s.At? then to else s.to
    case ToFail => if l.At? && l.index > i then Rel(l.index - i - 1) else if l.At? then to else l.to
  }

  function LinkOp(c: Op, i: nat, s: Dest, l: Dest): Op {
    if c.Plain? then c else Branch(c.t, LinkTarget(c.to, i, s, l))
  }

  function Link(f: Frag, s: Dest, l: Dest): (g: Frag)
    ensures |g| == |f|
  {
    seq(|f|, i requires 0 <= i < |f| => LinkOp(f[i], i, s, l))
  }

  predicate GoodDest(d: Dest, n: nat) { if d.At? then d.index >= n else !d.to.Rel? }

  function Arrive(w: Frag, env: Env, d: Dest, r: Regs): Exit {
    match d
    case At(t) => Run(w, env, t, r)
    case Pending(to) => if to == ToSucc then Succeeded(r) else Failed(r)
  }

  /** The run of a linked fragment inside a longer one. */
  lemma {:induction false} RunLinked(f: Frag, s: Dest, l: Dest, g: Frag, env: Env, pc: nat, r: Regs)
    requires WellFormed(f) && GoodDest(s, |f|) && GoodDest(l, |f|) && pc <= |f|
    ensures var w := Link(f, s, l) + g;
            Run(w, env, pc, r) == match Run(f, env, pc, r)
                                  case Crashed => Crashed
                                  case Fell(r') => Run(w, env, |f|, r')
                                  case Succeeded(r') => Arrive(w, env, s, r')
                                  case Failed(r') => Arrive(w, env, l, r')
    decreases |f| - pc
  {
    if pc < |f| {
      var w := Link(f, s, l) + g;
      assert Within(f[pc], pc, |f|) && w[pc] == LinkOp(f[pc], pc, s, l);
      if f[pc].Plain? {
        var r' := Step(f[pc].i, env, r);
        if r'.Some? { RunLinked(f, s, l, g, env, pc + 1, r'.value); }
      } else {
        var b := Taken(f[pc].t, r);
        if b.Some? {
          var to := if b.value then f[pc].to else Rel(0);
          if to.Rel? { RunLinked(f, s, l, g, env, pc + 1 + to.off, r); }
        }
      }
    }
  }

  lemma {:induction false} RunBehind(h: Frag, g: Frag, env: Env, j: nat, r: Regs)
    ensures Run(h + g, env, |h| + j, r) == Run(g, env, j, r)
    decreases |g| - j
  {
    if j < |g| {
      assert (h + g)[|h| + j] == g[j];
      if g[j].Plain? {
        var r' := Step(g[j].i, env, r);
        if r'.Some? { RunBehind(h, g, env, j + 1, r'.value); }
      } else {
        var b := Taken(g[j].t, r);
        if b.Some? {
          var to := if b.value then g[j].to else Rel(0);
          if to.Rel? { RunBehind(h, g, env, j + 1 + to.off, r); }
        }
      }
    }
  }

  lemma LinkKeepsForm(f: Frag, s: Dest, l: Dest, g: Frag)
    requires WellFormed(f) && WellFormed(g) && GoodDest(s, |f|) && GoodDest(l, |f|)
    requires (s.At? ==> s.index <= |f| + |g|) && (l.At? ==> l.index <= |f| + |g|)
    ensures WellFormed(Link(f, s, l) + g)
  {
    var w := Link(f, s, l) + g;
    forall i | 0 <= i < |w| ensures Within(w[i], i, |w|) {
      if i < |f| { assert Within(f[i], i, |f|); } else { assert Within(g[i - |f|], i - |f|, |g|); }
    }
  }

  // ----- joining -----

  /** One fragment after another, both keeping their pending jumps. */
  lemma {:induction false} RunAppend(f: Frag, g: Frag, env: Env, r: Regs)
    requires WellFormed(f)
    ensures Run(f + g, env, 0, r) == var x := Run(f, env, 0, r); if x.Fell? then Run(g, env, 0, x.r) else x
    ensures WellFormed(g) ==> WellFormed(f + g)
  {
    assert Link(f, Pending(ToSucc), Pending(ToFail)) == f;
    RunLinked(f, Pending(ToSucc), Pending(ToFail), g, env, 0, r);
    var x := Run(f, env, 0, r);
    if x.Fell? { RunBehind(f, g, env, 0, x.r); }
    if WellFormed(g) { LinkKeepsForm(f, Pending(ToSucc), Pending(ToFail), g); }
  }

  function AndFrag(f: Frag, g: Frag): Frag { Link(f, At(|f|), Pending(ToFail)) + g }

  lemma {:induction false} RunAnd(f: Frag, g: Frag, env: Env, r: Regs)
    requires WellFormed(f) && WellFormed(g)
    ensures WellFormed(AndFrag(f, g))
    ensures Run(AndFrag(f, g), env, 0, r) == match Run(f, env, 0, r)
                                            case Crashed => Crashed
                                            case Fell(r') => Run(g, env, 0, r')
                                            case Succeeded(r') => Run(g, env, 0, r')
                                            case Failed(r') => Failed(r')
  {
    LinkKeepsForm(f, At(|f|), Pending(ToFail), g);
    RunLinked(f, At(|f|), Pending(ToFail), g, env, 0, r);
    var x := Run(f, env, 0, r);
    if x.Fell? || x.Succeeded? { RunBehind(Link(f, At(|f|), Pending(ToFail)), g, env, 0, x.r); }
  }

  function Goto(to: Target): Op { Branch(Always, to) }

  function OrFrag(f: Frag, g: Frag): Frag { Link(f, Pending(ToSucc), At(|f| + 1)) + ([Goto(ToSucc)] + g) }

  lemma {:induction false} RunOr(f: Frag, g: Frag, env: Env, r: Regs)
    requires WellFormed(f) && WellFormed(g)
    ensures WellFormed(OrFrag(f, g))
    ensures Run(OrFrag(f, g), env, 0, r) == match Run(f, env, 0, r)
                                           case Crashed => Crashed
                                           case Fell(r') => Succeeded(r')
                                           case Succeeded(r') => Succeeded(r')
                                           case Failed(r') => Run(g, env, 0, r')
  {
    var l, rest := Link(f, Pending(ToSucc), At(|f| + 1)), [Goto(ToSucc)] + g;
    assert WellFormed(rest) by {
      forall i | 0 <= i < |rest| ensures Within(rest[i], i, |rest|) {
        if i > 0 { assert Within(g[i - 1], i - 1, |g|); }
      }
    }
    LinkKeepsForm(f, Pending(ToSucc), At(|f| + 1), rest);
    RunLinked(f, Pending(ToSucc), At(|f| + 1), rest, env, 0, r);
    var x := Run(f, env, 0, r);
    if x.Fell? { RunBehind(l, rest, env, 0, x.r); }
    if x.Failed? {
      assert l + rest == (l + [Goto(ToSucc)]) + g;
      RunBehind(l + [Goto(ToSucc)], g, env, 0, x.r);
    }
  }

  function NotFrag(f: Frag): Frag { Link(f, Pending(ToFail), At(|f| + 1)) + [Goto(ToFail)] }

  lemma {:induction false} RunNot(f: Frag, env: Env, r: Regs)
    requires WellFormed(f)
    ensures WellFormed(NotFrag(f))
    ensures Run(NotFrag(f), env, 0, r) == match Run(f, env, 0, r)
                                         case Crashed => Crashed
                                         case Fell(r') => Failed(r')
                                         case Succeeded(r') => Failed(r')
                                         case Failed(r') => Fell(r')
  {
    var ja := [Goto(ToFail)];
    LinkKeepsForm(f, Pending(ToFail), At(|f| + 1), ja);
    RunLinked(f, Pending(ToFail), At(|f| + 1), ja, env, 0, r);
    var x := Run(f, env, 0, r);
    if x.Fell? { RunBehind(Link(f, Pending(ToFail), At(|f| + 1)), ja, env, 0, x.r); }
  }
}
