// Pass 2 of the optimizer: which absolute loads find their value already in
// the accumulator (pktbaffle/src/optimizer.rs:95-162).

module Dataflow {
  import opened Words
  import opened Bpf
  import opened Vm

  /** What the accumulator is known to hold at a program point. */
  datatype AState = Unknown | Load(size: Size, k: u32)

  /** One in-state per instruction; `None` while no edge has reached it. */
  type Flow = seq<Option<AState>>

  predicate WritesA(i: Insn) {
    i.LdAbs? || i.LdInd? || i.LdLen? || i.LdImm? || i.LdMem? || i.Alu? || i.Txa?
  }

  function Out(i: Insn, s: AState): AState {
    if i.LdAbs? then Load(i.size, i.k) else if WritesA(i) then Unknown else s
  }

  function Meet(slot: Option<AState>, incoming: AState): Option<AState> {
    if slot == None || slot == Some(incoming) then Some(incoming) else Some(Unknown)
  }

  /** The meet of the out-states of `t`'s predecessors below `i`. */
  function MeetBelow(prog: Program, flow: Flow, t: nat, i: nat): Option<AState>
    requires i <= |prog| && i <= |flow|
  {
    if i == 0 then None
    else
      var m := MeetBelow(prog, flow, t, i - 1);
      if flow[i - 1].Some? && Edge(prog, i - 1, t) then Meet(m, Out(prog[i - 1], flow[i - 1].value)) else m
  }

  /** The dataflow equations: the entry knows nothing, every other in-state is
      the meet over its incoming edges. */
  ghost predicate Solves(prog: Program, flow: Flow) {
    && |flow| == |prog|
    && forall t :: 0 <= t < |prog| ==> flow[t] == if t == 0 then Some(Unknown) else MeetBelow(prog, flow, t, t)
  }

  /** The loads a solution makes redundant. */
  predicate Redundant(prog: Program, flow: Flow, i: nat)
    requires i < |prog| && |flow| == |prog|
  {
    prog[i].LdAbs? && flow[i] == Some(Load(prog[i].size, prog[i].k))
  }

  lemma {:induction false} MeetFrame(prog: Program, f: Flow, g: Flow, t: nat, i: nat)
    requires i <= |prog| && i <= |f| && i <= |g|
    requires forall j :: 0 <= j < i ==> f[j] == g[j]
    ensures MeetBelow(prog, f, t, i) == MeetBelow(prog, g, t, i)
  {
    if i > 0 { MeetFrame(prog, f, g, t, i - 1); }
  }

  /** Edges go forward, so only predecessors below `t` matter. */
  lemma {:induction false} MeetSettles(prog: Program, f: Flow, t: nat, i: nat)
    requires t <= i <= |prog| && i <= |f|
    ensures MeetBelow(prog, f, t, i) == MeetBelow(prog, f, t, t)
  {
    if t < i { MeetSettles(prog, f, t, i - 1); }
  }

  /** `meet` applied to one slot, if that slot exists. */
  function MeetInto(flow: Flow, t: nat, s: AState): Flow {
    if t < |flow| then flow[t := Meet(flow[t], s)] else flow
  }

  /** The sweep's effect at one instruction: propagate along every out-edge. */
  function Propagate(prog: Program, flow: Flow, i: nat): Flow
    requires i < |prog| && i < |flow|
  {
    if flow[i].None? then flow
    else
      var out := Out(prog[i], flow[i].value);
      match prog[i]
      case Ja(k) => MeetInto(flow, i + 1 + k, out)
      case Jmp(_, _, _, jt, jf) => MeetInto(MeetInto(flow, i + 1 + jt, out), i + 1 + jf, out)
      case RetK(_) => flow
      case RetA => flow
      case _ => MeetInto(flow, i + 1, out)
  }

  ghost predicate SweptTo(prog: Program, flow: Flow, i: nat)
    requires i <= |prog|
  {
    && |flow| == |prog|
    && forall t :: 0 <= t < |prog| ==> flow[t] == if t == 0 then Some(Unknown) else MeetBelow(prog, flow, t, i)
  }

  lemma {:induction false} PropagateSweeps(prog: Program, flow: Flow, i: nat)
    requires i < |prog| && SweptTo(prog, flow, i)
    ensures SweptTo(prog, Propagate(prog, flow, i), i + 1)
  {
    var g := Propagate(prog, flow, i);
    forall t | 0 <= t < |prog|
      ensures g[t] == if t == 0 then Some(Unknown) else MeetBelow(prog, g, t, i + 1)
    {
      MeetFrame(prog, flow, g, t, i);
    }
  }

  /** `redundant_load_marks`: one in-order sweep. */
  method RedundantLoadMarks(prog: Program) returns (marks: seq<bool>, ghost flow: Flow)
    ensures Solves(prog, flow)
    ensures |marks| == |prog|
    ensures forall i :: 0 <= i < |prog| ==> marks[i] == Redundant(prog, flow, i)
    ensures forall i :: 0 <= i < |prog| ==> (marks[i] <==> RedundantOnAllPaths(prog, i))
  {
    marks := seq(|prog|, _ => false);
    var state: Flow := seq(|prog|, _ => None);
    if |prog| == 0 { return marks, state; }
    state := state[0 := Some(Unknown)];
    InitialMeet(prog, state);
    for i := 0 to |prog|
      invariant SweptTo(prog, state, i)
      invariant |marks| == |prog|
      invariant forall j :: 0 <= j < i ==> marks[j] == Redundant(prog, state, j)
      invariant forall j :: i <= j < |prog| ==> !marks[j]
    {
      if Redundant(prog, state, i) {
        marks := marks[i := true];
      }
      PropagateSweeps(prog, state, i);
      state := Propagate(prog, state, i);
    }
    flow := state;
    forall t | 0 <= t < |prog| ensures MeetBelow(prog, flow, t, |prog|) == MeetBelow(prog, flow, t, t) {
      MeetSettles(prog, flow, t, |prog|);
    }
    forall i | 0 <= i < |prog| ensures Redundant(prog, flow, i) <==> RedundantOnAllPaths(prog, i) {
      MarksAreExact(prog, flow, i);
    }
  }

  lemma InitialMeet(prog: Program, flow: Flow)
    requires |flow| == |prog| > 0 && flow[0] == Some(Unknown)
    requires forall t :: 0 < t < |flow| ==> flow[t] == None
    ensures SweptTo(prog, flow, 0)
  {
  }

  // ----- what a solution says about paths -----

  /** The state the transfer functions give along one path, before its last
      instruction. */
  ghost function PathState(prog: Program, path: seq<nat>): AState
    requires |path| > 0 && IsPath(prog, path, path[|path| - 1])
    decreases |path|
  {
    if |path| == 1 then Unknown
    else
      var prefix := path[..|path| - 1];
      Out(prog[prefix[|prefix| - 1]], PathState(prog, prefix))
  }

  /** Instruction `i` is a reachable absolute load, and on every path to it the
      last write of A was an identical absolute load. */
  ghost predicate RedundantOnAllPaths(prog: Program, i: nat)
    requires i < |prog|
  {
    && prog[i].LdAbs?
    && Reachable(prog, i)
    && forall path :: IsPath(prog, path, i) ==> PathState(prog, path) == Load(prog[i].size, prog[i].k)
  }

  /** A live incoming edge is accounted for in the meet. */
  lemma {:induction false} MeetIncludes(prog: Program, flow: Flow, p: nat, t: nat, i: nat)
    requires p < i <= |prog| && i <= |flow|
    requires flow[p].Some? && Edge(prog, p, t)
    ensures var out := Out(prog[p], flow[p].value);
            var m := MeetBelow(prog, flow, t, i);
            m == Some(out) || m == Some(Unknown)
  {
    if p < i - 1 { MeetIncludes(prog, flow, p, t, i - 1); }
  }

  lemma EdgesGoForward(prog: Program, i: nat, t: nat)
    requires Edge(prog, i, t)
    ensures i < t
  {
  }

  /** Every path to `t` agrees with a known state, and its end is live. */
  lemma {:induction false} SolutionCoversPath(prog: Program, flow: Flow, path: seq<nat>, t: nat)
    requires Solves(prog, flow) && IsPath(prog, path, t) && t < |prog|
    ensures flow[t].Some?
    ensures flow[t] != Some(Unknown) ==> flow[t] == Some(PathState(prog, path))
    decreases |path|
  {
    if |path| > 1 {
      var prefix, p := path[..|path| - 1], path[|path| - 2];
      SolutionCoversPath(prog, flow, prefix, p);
      EdgesGoForward(prog, p, t);
      MeetIncludes(prog, flow, p, t, t);
    }
  }

  /** A live meet comes from some live edge; a meet of `Unknown` comes from an
      unknown edge or from two edges that disagree. */
  lemma {:induction false} MeetWitness(prog: Program, flow: Flow, t: nat, i: nat) returns (p: nat, q: nat)
    requires i <= |prog| && i <= |flow|
    requires MeetBelow(prog, flow, t, i).Some?
    ensures p < i && flow[p].Some? && Edge(prog, p, t)
    ensures q < i && flow[q].Some? && Edge(prog, q, t)
    ensures var m := MeetBelow(prog, flow, t, i).value;
            var op, oq := Out(prog[p], flow[p].value), Out(prog[q], flow[q].value);
            op == m || (m == Unknown && op.Load? && oq.Load? && op != oq)
  {
    var m := MeetBelow(prog, flow, t, i - 1);
    if flow[i - 1].Some? && Edge(prog, i - 1, t) {
      p, q := i - 1, i - 1;
      var out := Out(prog[i - 1], flow[i - 1].value);
      if m.Some? && out.Load? && m.value != out {
        var p', q' := MeetWitness(prog, flow, t, i - 1);
        if m.value == Unknown { p, q := p', q'; } else { q := p'; }
      }
    } else {
      p, q := MeetWitness(prog, flow, t, i - 1);
    }
  }

  lemma ExtendPathState(prog: Program, path: seq<nat>, p: nat, t: nat)
    requires IsPath(prog, path, p) && Edge(prog, p, t)
    ensures IsPath(prog, path + [t], t)
    ensures PathState(prog, path + [t]) == Out(prog[p], PathState(prog, path))
  {
    ExtendPath(prog, path, p, t);
    assert (path + [t])[..|path|] == path;
  }

  /** The sweep loses nothing: where it says `Unknown` no single load is in A
      on all paths, and where it says nothing there is no path. */
  lemma {:induction false} SolutionWitness(prog: Program, flow: Flow, t: nat) returns (u: seq<nat>, v: seq<nat>)
    requires Solves(prog, flow) && t < |prog| && flow[t].Some?
    ensures IsPath(prog, u, t) && IsPath(prog, v, t)
    ensures PathState(prog, u) == flow[t].value || (flow[t] == Some(Unknown) && PathState(prog, u) != PathState(prog, v))
  {
    if t == 0 {
      u, v := [0], [0];
    } else {
      var p, q := MeetWitness(prog, flow, t, t);
      u, v := SolutionWitness(prog, flow, p);
      SolutionCoversPath(prog, flow, u, p);
      ExtendPathState(prog, u, p, t);
      ExtendPathState(prog, v, p, t);
      u, v := u + [t], v + [t];
      if Out(prog[p], flow[p].value) != flow[t].value {
        var w, _ := SolutionWitness(prog, flow, q);
        SolutionCoversPath(prog, flow, w, q);
        ExtendPathState(prog, w, q, t);
        v := w + [t];
      }
    }
  }

  /** Exactness: the equations mark a load iff it is redundant on all paths. */
  lemma {:induction false} MarksAreExact(prog: Program, flow: Flow, i: nat)
    requires Solves(prog, flow) && i < |prog|
    ensures flow[i].Some? <==> Reachable(prog, i)
    ensures Redundant(prog, flow, i) <==> RedundantOnAllPaths(prog, i)
  {
    if flow[i].Some? {
      var u, v := SolutionWitness(prog, flow, i);
    }
    forall path | IsPath(prog, path, i)
      ensures flow[i].Some?
      ensures flow[i] != Some(Unknown) ==> flow[i] == Some(PathState(prog, path))
    {
      SolutionCoversPath(prog, flow, path, i);
    }
  }

  // ----- what a solution says about runs -----

  predicate Holds(s: AState, pkt: Packet, r: Regs) {
    s.Load? ==> SizedLoad(pkt, s.k, s.size) == Some(r.a)
  }

  lemma OutHolds(i: Insn, s: AState, pkt: Packet, r: Regs, r': Regs)
    requires Straight(i) && Holds(s, pkt, r) && Step(i, pkt, r) == Some(r')
    ensures Holds(Out(i, s), pkt, r')
  {
    if !WritesA(i) {
      assert r'.a == r.a;
    }
  }

  /** One executed edge carries the out-state to its target. */
  lemma {:induction false} StepFlows(prog: Program, flow: Flow, pkt: Packet, pc: nat, r: Regs, t: nat, r': Regs)
    requires Solves(prog, flow) && pc < |prog| && flow[pc].Some? && Holds(flow[pc].value, pkt, r)
    requires Next(prog, pkt, Running(pc, r)) == Running(t, r') && t < |prog|
    ensures flow[t].Some? && Holds(flow[t].value, pkt, r')
  {
    var i := prog[pc];
    if Straight(i) {
      OutHolds(i, flow[pc].value, pkt, r, r');
    } else {
      assert r' == r && Out(i, flow[pc].value) == flow[pc].value;
    }
    assert Edge(prog, pc, t);
    MeetIncludes(prog, flow, pc, t, t);
  }

  /** Soundness over whole runs: whenever any run reaches a marked load, A
      already holds that load's value and the load is in bounds. */
  lemma {:induction false} MarkedLoadsAreNoOps(prog: Program, flow: Flow, pkt: Packet, n: nat)
    requires Solves(prog, flow)
    ensures var c := After(prog, pkt, n);
            c.Running? && c.pc < |prog| ==>
              && flow[c.pc].Some? && Holds(flow[c.pc].value, pkt, c.r)
              && (Redundant(prog, flow, c.pc) ==> Step(prog[c.pc], pkt, c.r) == Some(c.r))
  {
    if n > 0 {
      var b, c := After(prog, pkt, n - 1), After(prog, pkt, n);
      MarkedLoadsAreNoOps(prog, flow, pkt, n - 1);
      if c.Running? && c.pc < |prog| {
        StepFlows(prog, flow, pkt, b.pc, b.r, c.pc, c.r);
      }
    }
  }
}
