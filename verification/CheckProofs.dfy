// Straight-line code and the header checks built from it compute the formulas
// they are meant to.

module CheckProofs {
  import opened Words
  import opened Bpf
  import opened Vm
  import opened Ast
  import opened Meaning
  import opened Fragments
  import opened Emission

  // ----- straight-line code -----

  predicate AllStraight(code: seq<Insn>) {
    forall i :: 0 <= i < |code| ==> Straight(code[i])
  }

  function RunCode(code: seq<Insn>, pkt: Packet, r: Regs): Option<Regs>
    requires AllStraight(code)
  {
    if code == [] then Some(r)
    else
      var r' := Step(code[0], pkt, r);
      if r'.None? then None else RunCode(code[1..], pkt, r'.value)
  }

  lemma {:induction false} RunCodeAppend(c: seq<Insn>, d: seq<Insn>, pkt: Packet, r: Regs)
    requires AllStraight(c) && AllStraight(d)
    ensures AllStraight(c + d)
    ensures RunCode(c + d, pkt, r) == var r' := RunCode(c, pkt, r); if r'.None? then None else RunCode(d, pkt, r'.value)
  {
    if c == [] {
      assert c + d == d;
    } else {
      assert (c + d)[1..] == c[1..] + d;
      var r' := Step(c[0], pkt, r);
      if r'.Some? { RunCodeAppend(c[1..], d, pkt, r'.value); }
    }
  }

  /** A fragment that starts with straight-line code. */
  lemma {:induction false} RunPlains(code: seq<Insn>, g: Frag, pkt: Packet, r: Regs)
    requires AllStraight(code)
    ensures Run(Plains(code) + g, pkt, 0, r) ==
            var r' := RunCode(code, pkt, r); if r'.None? then Crashed else Run(g, pkt, 0, r'.value)
  {
    if code == [] {
      assert Plains(code) + g == g;
    } else {
      var rest := Plains(code[1..]) + g;
      assert Plains(code) + g == [Plain(code[0])] + rest;
      var r' := Step(code[0], pkt, r);
      if r'.Some? {
        RunBehind([Plain(code[0])], rest, pkt, 0, r'.value);
        RunPlains(code[1..], g, pkt, r'.value);
      }
    }
  }

  /** ALU code applies its operations to A and touches nothing else. */
  lemma {:induction false} RunAlu(ops: Ops, pkt: Packet, r: Regs)
    ensures AllStraight(AluCode(ops))
    ensures RunCode(AluCode(ops), pkt, r) == WithA(r, Apply(ops, r.a))
  {
    if ops != [] {
      assert AluCode(ops)[1..] == AluCode(ops[1..]);
      var r' := Step(AluCode(ops)[0], pkt, r);
      if r'.Some? { RunAlu(ops[1..], pkt, r'.value); }
    }
  }

  lemma RunCheckCode(c: Check, pkt: Packet, r: Regs)
    ensures AllStraight(CheckCode(c))
    ensures RunCode(CheckCode(c), pkt, r) == WithA(r, ReadThen(Abs(c.size, c.k), c.ops, pkt))
  {
    var load := [LdAbs(c.size, c.k)];
    RunAlu(c.ops, pkt, r);
    RunCodeAppend(load, AluCode(c.ops), pkt, r);
    assert load[1..] == [];
    var v := SizedLoad(pkt, c.k, c.size);
    if v.Some? { RunAlu(c.ops, pkt, r.(a := v.value)); }
  }

  // ----- fragments that test a formula -----

  /** No pending success jump: the only success is the fall-through. */
  predicate NoSucc(f: Frag) {
    forall i :: 0 <= i < |f| ==>
      match f[i]
      case Plain(_) => true
      case Goto(j) => j != ToSucc
      case Branch(_, _, _, jt, jf) => jt != ToSucc && jf != ToSucc
  }

  /** The fragment decides the formula, whatever the registers hold (or, given
      `x`, whenever X holds that), and leaves X alone. */
  ghost predicate Tests(f: Frag, g: Formula, pkt: Packet, x: Option<u32>) {
    && WellFormed(f) && XWrites(f) == 0
    && forall r: Regs :: x == None || x == Some(r.x) ==> Kind(Run(f, pkt, 0, r)) == Eval(g, pkt)
  }

  /** Where nothing waits for success, `and` is plain concatenation. */
  lemma NoSuccAnd(f: Frag, g: Frag)
    requires NoSucc(f)
    ensures AndFrag(f, g) == f + g
  {
    assert Link(f, At(|f|), Pending(ToFail)) == f;
  }

  lemma NoSuccAppend(f: Frag, g: Frag)
    requires NoSucc(f) && NoSucc(g)
    ensures NoSucc(f + g)
  {
  }

  lemma TestsNothing(pkt: Packet, x: Option<u32>)
    ensures Tests([], Known(true), pkt, x)
  {
  }

  lemma {:induction false} TestsBoth(f: Frag, p: Formula, g: Frag, q: Formula, pkt: Packet, x: Option<u32>)
    requires Tests(f, p, pkt, x) && Tests(g, q, pkt, x) && NoSucc(f)
    ensures Tests(f + g, Both(p, q), pkt, x)
  {
    NoSuccAnd(f, g);
    XWritesAppend(f, g);
    forall r: Regs | x == None || x == Some(r.x) ensures Kind(Run(f + g, pkt, 0, r)) == Eval(Both(p, q), pkt) {
      RunAnd(f, g, pkt, r);
      RunKeepsX(f, pkt, 0, r);
    }
    assert WellFormed(f + g) by { RunAnd(f, g, pkt, INITIAL_REGS); }
  }

  lemma XWritesOr(f: Frag, g: Frag)
    ensures XWrites(OrFrag(f, g)) == XWrites(f) + XWrites(g)
  {
    XWritesLink(f, Pending(ToSucc), At(|f| + 1));
    XWritesOne(Goto(ToSucc));
    XWritesAppend([Goto(ToSucc)], g);
    XWritesAppend(Link(f, Pending(ToSucc), At(|f| + 1)), [Goto(ToSucc)] + g);
  }

  lemma OrKind(f: Frag, g: Frag, pkt: Packet, r: Regs)
    requires WellFormed(f) && WellFormed(g)
    ensures WellFormed(OrFrag(f, g))
    ensures Kind(Run(OrFrag(f, g), pkt, 0, r)) ==
            var x := Run(f, pkt, 0, r); if x.Failed? then Kind(Run(g, pkt, 0, x.r)) else Kind(x)
  {
    RunOr(f, g, pkt, r);
  }

  lemma {:induction false} TestsEither(f: Frag, p: Formula, g: Frag, q: Formula, pkt: Packet, x: Option<u32>)
    requires Tests(f, p, pkt, x) && Tests(g, q, pkt, x)
    ensures Tests(OrFrag(f, g), Either(p, q), pkt, x)
  {
    XWritesOr(f, g);
    OrKind(f, g, pkt, INITIAL_REGS);
    var w := OrFrag(f, g);
    forall r: Regs | x == None || x == Some(r.x) ensures Kind(Run(w, pkt, 0, r)) == Eval(Either(p, q), pkt) {
      OrKind(f, g, pkt, r);
      RunKeepsX(f, pkt, 0, r);
      assert Eval(Either(p, q), pkt) == Or3(Eval(p, pkt), Eval(q, pkt));
    }
  }

  // ----- one load, one comparison -----

  lemma BranchRuns(b: FInsn, pkt: Packet, r: Regs)
    requires b.Branch?
    ensures Run([b], pkt, 0, r) == match Picked(b, r)
                                   case Rel(_) => Fell(r)
                                   case ToSucc => Succeeded(r)
                                   case ToFail => Failed(r)
  {
    var j := Picked(b, r);
    if j.Rel? { assert Run([b], pkt, 1 + j.off, r) == Fell(r); }
    assert Run([b], pkt, 0, r) == Leave([b], pkt, j, 0, r);
  }

  lemma CmpBranchRuns(op: CmpOp, v: u32, pkt: Packet, r: Regs)
    ensures Run([CmpBranch(op, v)], pkt, 0, r) == if Compares(op, r.a, v) then Fell(r) else Failed(r)
  {
    BranchRuns(CmpBranch(op, v), pkt, r);
  }

  lemma CmpXBranchRuns(op: CmpOp, pkt: Packet, r: Regs)
    ensures Run([CmpXBranch(op)], pkt, 0, r) == if Compares(op, r.x, r.a) then Fell(r) else Failed(r)
  {
    BranchRuns(CmpXBranch(op), pkt, r);
    if op.AnyBit? { BitAndCommutes(r.x, r.a, 32); }
  }

  lemma {:induction false} BitAndCommutes(a: nat, b: nat, n: nat)
    ensures Bitwise(AndBits, a, b, n) == Bitwise(AndBits, b, a, n)
  {
    if n > 0 { BitAndCommutes(a / 2, b / 2, n - 1); }
  }

  lemma {:induction false} PlainsKeepX(code: seq<Insn>)
    requires forall i :: 0 <= i < |code| ==> !WritesX(code[i])
    ensures XWrites(Plains(code)) == 0
  {
    if code != [] {
      PlainsKeepX(code[..|code| - 1]);
      assert Plains(code)[..|code| - 1] == Plains(code[..|code| - 1]);
    }
  }

  lemma XWritesOne(c: FInsn)
    ensures XWrites([c]) == if c.Plain? && WritesX(c.i) then 1 else 0
  {
    assert [c][..0] == [];
  }

  /** Straight-line code and one comparison: the check's exact behaviour. */
  lemma {:induction false} CodeThenBranch(code: seq<Insn>, b: FInsn)
    requires AllStraight(code) && b.Branch? && JumpWithin(b.jt, 0, 1) && JumpWithin(b.jf, 0, 1)
    ensures WellFormed(Plains(code) + [b])
    ensures XWrites(Plains(code) + [b]) == XWrites(Plains(code))
    ensures b.jt != ToSucc && b.jf != ToSucc ==> NoSucc(Plains(code) + [b])
  {
    XWritesAppend(Plains(code), [b]);
    XWritesOne(b);
  }

  lemma {:induction false} CheckTests(c: Check, pkt: Packet, x: Option<u32>)
    ensures Tests(CheckFrag(c), CheckFormula(c), pkt, x) && NoSucc(CheckFrag(c))
  {
    RunCheckCode(c, pkt, INITIAL_REGS);
    CodeThenBranch(CheckCode(c), CmpBranch(c.op, c.v));
    PlainsKeepX(CheckCode(c));
    forall r ensures Kind(Run(CheckFrag(c), pkt, 0, r)) == Eval(CheckFormula(c), pkt) {
      RunCheckCode(c, pkt, r);
      RunPlains(CheckCode(c), [CmpBranch(c.op, c.v)], pkt, r);
      var r' := RunCode(CheckCode(c), pkt, r);
      if r'.Some? { CmpBranchRuns(c.op, c.v, pkt, r'.value); }
    }
  }

  lemma {:induction false} ChecksTest(cs: seq<Check>, pkt: Packet, x: Option<u32>)
    ensures Tests(ChecksFrag(cs), All(cs), pkt, x) && NoSucc(ChecksFrag(cs))
  {
    if cs != [] {
      CheckTests(cs[0], pkt, x);
      ChecksTest(cs[1..], pkt, x);
      TestsBoth(CheckFrag(cs[0]), CheckFormula(cs[0]), ChecksFrag(cs[1..]), All(cs[1..]), pkt, x);
      NoSuccAppend(CheckFrag(cs[0]), ChecksFrag(cs[1..]));
    }
  }

  /** Address checks by direction, through a `ja`. */
  lemma {:induction false} ListTests(dir: Dir, s: seq<Check>, d: seq<Check>, pkt: Packet, x: Option<u32>)
    ensures Tests(ListFrag(dir, s, d), ByDir(dir, All(s), All(d)), pkt, x)
  {
    ChecksTest(s, pkt, x);
    ChecksTest(d, pkt, x);
    TestsBoth(ChecksFrag(s), All(s), ChecksFrag(d), All(d), pkt, x);
    TestsEither(ChecksFrag(s), All(s), ChecksFrag(d), All(d), pkt, x);
  }

  /** Code that leaves for success on a match and otherwise goes on to `g`. */
  lemma {:induction false} EarlySuccessTests(code: seq<Insn>, v: u32, p: Formula, g: Frag, q: Formula, pkt: Packet, x: Option<u32>)
    requires AllStraight(code) && (forall i :: 0 <= i < |code| ==> !WritesX(code[i]))
    requires Tests(Plains(code) + [CmpBranch(Eq, v)], p, pkt, x) && Tests(g, q, pkt, x)
    ensures Tests(Plains(code) + [SuccessBranch(v)] + g, Either(p, q), pkt, x)
  {
    var head := Plains(code) + [SuccessBranch(v)];
    CodeThenBranch(code, SuccessBranch(v));
    PlainsKeepX(code);
    XWritesAppend(head, g);
    forall r: Regs | x == None || x == Some(r.x) ensures Kind(Run(head + g, pkt, 0, r)) == Eval(Either(p, q), pkt) {
      RunAppend(head, g, pkt, r);
      RunKeepsX(head, pkt, 0, r);
      RunPlains(code, [SuccessBranch(v)], pkt, r);
      RunPlains(code, [CmpBranch(Eq, v)], pkt, r);
      var r' := RunCode(code, pkt, r);
      if r'.Some? {
        CmpBranchRuns(Eq, v, pkt, r'.value);
        BranchRuns(SuccessBranch(v), pkt, r'.value);
      }
    }
    assert WellFormed(head + g) by { RunAppend(head, g, pkt, INITIAL_REGS); }
  }

  /** Single-field address checks by direction. */
  lemma {:induction false} DirectTests(dir: Dir, s: Check, d: Check, pkt: Packet, x: Option<u32>)
    requires s.op.Eq?
    ensures Tests(DirectFrag(dir, s, d), ByDir(dir, All([s]), All([d])), pkt, x)
  {
    ChecksTest([s], pkt, x);
    ChecksTest([d], pkt, x);
    TestsBoth(ChecksFrag([s]), All([s]), ChecksFrag([d]), All([d]), pkt, x);
    RunCheckCode(s, pkt, INITIAL_REGS);
    assert ChecksFrag([s]) == Plains(CheckCode(s)) + [CmpBranch(Eq, s.v)] by {
      assert [s][1..] == [] && ChecksFrag([]) == [];
      assert CheckFrag(s) + [] == CheckFrag(s);
    }
    EarlySuccessTests(CheckCode(s), s.v, All([s]), ChecksFrag([d]), All([d]), pkt, x);
  }
}
