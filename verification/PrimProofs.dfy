// Every primitive's code decides its formula on every packet, under whatever
// facts it relied on to leave checks out, and the facts it records hold.

module PrimProofs {
  import opened Words
  import opened Bpf
  import opened Vm
  import opened Meaning
  import opened Guards
  import opened Fragments
  import opened Emission
  import opened CheckProofs

  /** Entered where the facts hold, the code decides the formula exactly (faults
      included), and on every success exit the recorded facts hold. */
  ghost predicate Sound(em: Emitted, lay: Layout, f: Facts, g: Formula, pkt: Packet) {
    && WellFormed(em.frag)
    && forall r: Regs {:trigger Run(em.frag, pkt, 0, r)} :: FactsHold(lay, f, pkt, r.x) ==>
        var o := Run(em.frag, pkt, 0, r);
        && Kind(o) == Eval(g, pkt)
        && (Kind(o) == True ==> FactsHold(lay, em.facts, pkt, o.r.x))
  }

  /** The code decides the formula from any registers. */
  ghost predicate Decides(code: Frag, g: Formula, pkt: Packet) {
    WellFormed(code) && forall r: Regs :: Kind(Run(code, pkt, 0, r)) == Eval(g, pkt)
  }

  // ----- combining -----

  lemma SoundNothing(lay: Layout, f: Facts, pkt: Packet)
    ensures Sound(Emitted([], f), lay, f, Known(true), pkt) && NoSucc([])
  {
  }

  lemma {:induction false} PushKeepsFacts(lay: Layout, f: Facts, code: Frag, pkt: Packet, r: Regs)
    requires FactsHold(lay, f, pkt, r.x) && !Run(code, pkt, 0, r).Crashed?
    ensures FactsHold(lay, AfterPush(f, code), pkt, Run(code, pkt, 0, r).r.x)
  {
    if XWrites(code) == 0 {
      RunKeepsX(code, pkt, 0, r);
    } else {
      FactsWithoutX(lay, f, pkt, r.x, Run(code, pkt, 0, r).r.x);
    }
  }

  lemma {:induction false} SoundPush(em: Emitted, lay: Layout, f: Facts, p: Formula, code: Frag, q: Formula, pkt: Packet)
    requires Sound(em, lay, f, p, pkt) && NoSucc(em.frag) && Decides(code, q, pkt)
    ensures Sound(Push(em, code), lay, f, Both(p, q), pkt)
  {
    NoSuccAnd(em.frag, code);
    RunAnd(em.frag, code, pkt, INITIAL_REGS);
    var em' := Push(em, code);
    forall r: Regs | FactsHold(lay, f, pkt, r.x)
      ensures Kind(Run(em'.frag, pkt, 0, r)) == Eval(Both(p, q), pkt)
      ensures Kind(Run(em'.frag, pkt, 0, r)) == True ==>
          FactsHold(lay, em'.facts, pkt, Run(em'.frag, pkt, 0, r).r.x)
    {
      RunAnd(em.frag, code, pkt, r);
      var o := Run(em.frag, pkt, 0, r);
      assert Kind(o) == Eval(p, pkt);
      if Kind(o) == True {
        assert Kind(Run(code, pkt, 0, o.r)) == Eval(q, pkt);
        if Kind(Run(code, pkt, 0, o.r)) == True { PushKeepsFacts(lay, em.facts, code, pkt, o.r); }
      }
    }
  }

  lemma {:induction false} SoundThen(a: Emitted, lay: Layout, f: Facts, p: Formula, b: Emitted, q: Formula, pkt: Packet)
    requires Sound(a, lay, f, p, pkt) && NoSucc(a.frag) && Sound(b, lay, a.facts, q, pkt)
    ensures Sound(Then(a, b), lay, f, Both(p, q), pkt)
  {
    NoSuccAnd(a.frag, b.frag);
    RunAnd(a.frag, b.frag, pkt, INITIAL_REGS);
    forall r: Regs | FactsHold(lay, f, pkt, r.x)
      ensures Kind(Run(a.frag + b.frag, pkt, 0, r)) == Eval(Both(p, q), pkt)
      ensures Kind(Run(a.frag + b.frag, pkt, 0, r)) == True ==>
          FactsHold(lay, b.facts, pkt, Run(a.frag + b.frag, pkt, 0, r).r.x)
    {
      RunAnd(a.frag, b.frag, pkt, r);
      var o := Run(a.frag, pkt, 0, r);
      assert Kind(o) == Eval(p, pkt);
      if Kind(o) == True { assert Kind(Run(b.frag, pkt, 0, o.r)) == Eval(q, pkt); }
    }
  }

  /** Code on its own, with no fact recorded. */
  lemma {:induction false} SoundAlone(lay: Layout, f: Facts, code: Frag, g: Formula, pkt: Packet)
    requires Decides(code, g, pkt)
    ensures Sound(Push(Emitted([], f), code), lay, f, g, pkt)
  {
    assert [] + code == code;
    forall r: Regs | FactsHold(lay, f, pkt, r.x) && Kind(Run(code, pkt, 0, r)) == True
      ensures FactsHold(lay, AfterPush(f, code), pkt, Run(code, pkt, 0, r).r.x)
    {
      PushKeepsFacts(lay, f, code, pkt, r);
    }
  }

  /** Facts that follow from the formula may be recorded. */
  lemma SoundRecord(em: Emitted, lay: Layout, f: Facts, g: Formula, pkt: Packet, f': Facts)
    requires Sound(em, lay, f, g, pkt)
    requires Eval(g, pkt) == True ==> forall x :: FactsHold(lay, em.facts, pkt, x) ==> FactsHold(lay, f', pkt, x)
    ensures Sound(em.(facts := f'), lay, f, g, pkt)
  {
  }

  /** The facts may decide part of the formula. */
  lemma SoundReplace(em: Emitted, lay: Layout, f: Facts, g: Formula, h: Formula, pkt: Packet)
    requires Sound(em, lay, f, g, pkt)
    requires forall x :: FactsHold(lay, f, pkt, x) ==> Eval(g, pkt) == Eval(h, pkt)
    ensures Sound(em, lay, f, h, pkt)
  {
  }

  // ----- guards -----

  /** Behind a tag its type is on record wherever a test for it comes up. */
  predicate OnRecord(lay: Layout, f: Facts, et: u32) { lay.depth > 0 && et == 0x8100 ==> f.ethertype == Some(0x8100) }

  lemma {:induction false} EthertypeSound(lay: Layout, f: Facts, et: u32, pkt: Packet)
    requires OnRecord(lay, f, et) && EmitEthertype(lay, f, et).Ok?
    ensures var em := EmitEthertype(lay, f, et).value;
            Sound(em, lay, f, TypeAsCompiled(lay, et), pkt) && NoSucc(em.frag)
  {
    var em := EmitEthertype(lay, f, et).value;
    if em.frag == [] {
      SoundNothing(lay, f, pkt);
      SoundReplace(Emitted([], f), lay, f, Known(true), TypeAsCompiled(lay, et), pkt);
    } else {
      var c := EqCheck(SizeH, EthAt(lay).value, et);
      CheckTests(c, pkt, None);
      assert [] + CheckFrag(c) == CheckFrag(c);
      SoundAlone(lay, f, CheckFrag(c), EthIs(lay, et), pkt);
      SoundRecord(Push(Emitted([], f), CheckFrag(c)), lay, f, EthIs(lay, et), pkt, em.facts);
    }
  }

  /** A further check behind a guard. */
  lemma {:induction false} SoundCheck(em: Emitted, lay: Layout, f: Facts, p: Formula, c: Check, pkt: Packet)
    requires Sound(em, lay, f, p, pkt) && NoSucc(em.frag)
    ensures var em' := Push(em, CheckFrag(c)); Sound(em', lay, f, Both(p, CheckFormula(c)), pkt) && NoSucc(em'.frag)
  {
    CheckTests(c, pkt, None);
    SoundPush(em, lay, f, p, CheckFrag(c), CheckFormula(c), pkt);
    NoSuccAppend(em.frag, CheckFrag(c));
  }

  lemma {:induction false} Ip4L4Sound(lay: Layout, f: Facts, n: u8, pkt: Packet)
    requires EmitIp4L4(lay, f, n).Ok?
    ensures var em := EmitIp4L4(lay, f, n).value;
            Sound(em, lay, f, Ip4ProtoIs(lay, n), pkt) && NoSucc(em.frag)
  {
    var em, out := EmitEthertype(lay, f, 0x0800).value, EmitIp4L4(lay, f, n).value;
    EthertypeSound(lay, f, 0x0800, pkt);
    if em.facts.ip4Proto == Some(n) {
      SoundReplace(em, lay, f, EthIs(lay, 0x0800), Ip4ProtoIs(lay, n), pkt);
    } else {
      var c := EqCheck(SizeB, NetAt(lay) + 9, n);
      SoundCheck(em, lay, f, EthIs(lay, 0x0800), c, pkt);
      var em' := Push(em, CheckFrag(c));
      assert out.frag == em'.frag && Ip4ProtoIs(lay, n) == Both(EthIs(lay, 0x0800), CheckFormula(c));
      if Eval(Ip4ProtoIs(lay, n), pkt) == True { ByteRecorded(lay, 0x0800, 9, n, pkt); }
      SoundRecord(em', lay, f, Ip4ProtoIs(lay, n), pkt, out.facts);
    }
  }

  lemma {:induction false} Ip6L4Sound(lay: Layout, f: Facts, n: u8, pkt: Packet)
    requires EmitIp6L4(lay, f, n).Ok?
    ensures var em := EmitIp6L4(lay, f, n).value;
            Sound(em, lay, f, Ip6NextIs(lay, n), pkt) && NoSucc(em.frag)
  {
    var em, out := EmitEthertype(lay, f, 0x86dd).value, EmitIp6L4(lay, f, n).value;
    EthertypeSound(lay, f, 0x86dd, pkt);
    if em.facts.ip6Next == Some(n) {
      SoundReplace(em, lay, f, EthIs(lay, 0x86dd), Ip6NextIs(lay, n), pkt);
    } else {
      var c := EqCheck(SizeB, NetAt(lay) + 6, n);
      SoundCheck(em, lay, f, EthIs(lay, 0x86dd), c, pkt);
      var em' := Push(em, CheckFrag(c));
      assert out.frag == em'.frag && Ip6NextIs(lay, n) == Both(EthIs(lay, 0x86dd), CheckFormula(c));
      if Eval(Ip6NextIs(lay, n), pkt) == True { ByteRecorded(lay, 0x86dd, 6, n, pkt); }
      SoundRecord(em', lay, f, Ip6NextIs(lay, n), pkt, out.facts);
    }
  }

  lemma {:induction false} GuardedSound(lay: Layout, f: Facts, et: u32, code: Frag, g: Formula, pkt: Packet)
    requires OnRecord(lay, f, et) && Guarded(lay, f, et, code).Ok? && Tests(code, g, pkt, None)
    ensures Sound(Guarded(lay, f, et, code).value, lay, f, Both(TypeAsCompiled(lay, et), g), pkt)
  {
    EthertypeSound(lay, f, et, pkt);
    SoundPush(EmitEthertype(lay, f, et).value, lay, f, TypeAsCompiled(lay, et), code, g, pkt);
  }
}
