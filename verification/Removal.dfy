// Pass 3 of the optimizer: reachability, and dropping instructions while
// renumbering every jump (pktbaffle/src/optimizer.rs:164-227).

module Removal {
  import opened Words
  import opened Bpf

  lemma {:induction false} CountMonotone(flags: seq<bool>, i: nat, j: nat)
    requires i <= j <= |flags|
    ensures Count(flags, i) <= Count(flags, j) <= Count(flags, i) + (j - i)
  {
    if i < j { CountMonotone(flags, i, j - 1); }
  }

  lemma {:induction false} CountAfterSet(flags: seq<bool>, i: nat, j: nat)
    requires i < |flags| && !flags[i] && j <= |flags|
    ensures Count(flags[i := true], j) == Count(flags, j) + if i < j then 1 else 0
  {
    if j > 0 { CountAfterSet(flags, i, j - 1); }
  }

  // ----- reachability -----

  ghost predicate ClosedMarks(prog: Program, marks: seq<bool>) {
    && |marks| == |prog|
    && (|prog| > 0 ==> marks[0])
    && forall i: nat, t: nat :: i < |prog| && marks[i] && Edge(prog, i, t) && t < |prog| ==> marks[t]
  }

  lemma {:induction false} ClosedMarksCoverPath(prog: Program, marks: seq<bool>, path: seq<nat>, t: nat)
    requires ClosedMarks(prog, marks) && IsPath(prog, path, t) && t < |prog|
    ensures marks[t]
    decreases |path|
  {
    if |path| > 1 {
      ClosedMarksCoverPath(prog, marks, path[..|path| - 1], path[|path| - 2]);
    }
  }

  lemma {:induction false} SuccessorsReachable(prog: Program, i: nat, t: nat)
    requires Reachable(prog, i) && Edge(prog, i, t)
    ensures Reachable(prog, t)
  {
    var path :| IsPath(prog, path, i);
    ExtendPath(prog, path, i, t);
  }

  /** `reachable_marks`: depth-first search with an explicit stack. */
  method ReachableMarks(prog: Program) returns (marks: seq<bool>)
    ensures |marks| == |prog|
    ensures forall i :: 0 <= i < |prog| ==> (marks[i] <==> Reachable(prog, i))
  {
    marks := seq(|prog|, _ => false);
    var stack: seq<nat> := [0];
    EntryReachable(prog);
    while stack != []
      invariant |marks| == |prog|
      invariant forall t :: t in stack ==> Reachable(prog, t)
      invariant forall i :: 0 <= i < |prog| && marks[i] ==> Reachable(prog, i)
      invariant |prog| > 0 ==> marks[0] || 0 in stack
      invariant forall i: nat, t: nat ::
          i < |prog| && marks[i] && Edge(prog, i, t) && t < |prog| ==> marks[t] || t in stack
      decreases |prog| - Count(marks, |prog|), |stack|
    {
      var i := stack[|stack| - 1];
      ghost var before := stack;
      stack := stack[..|stack| - 1];
      assert forall t :: t in before ==> t in stack || t == i;
      if i < |prog| && !marks[i] {
        CountAfterSet(marks, i, |prog|);
        marks := marks[i := true];
        stack := stack + Successors(prog, i);
        forall t | t in Successors(prog, i) ensures Reachable(prog, t) {
          assert Edge(prog, i, t);
          SuccessorsReachable(prog, i, t);
        }
      }
    }
    forall i | 0 <= i < |prog| && Reachable(prog, i) ensures marks[i] {
      var path :| IsPath(prog, path, i);
      ClosedMarksCoverPath(prog, marks, path, i);
    }
  }

  // ----- removal -----

  /** The new distance from `i` to old target `t`, clamped to the new end. */
  function NewOffset(keep: seq<bool>, i: nat, t: nat): (off: nat)
    requires i < t && i < |keep| && keep[i]
    ensures off <= t - i - 1
  {
    var u := if t < |keep| then t else |keep|;
    CountMonotone(keep, i + 1, u);
    Count(keep, u) - Count(keep, i) - 1
  }

  function Renumber(prog: Program, keep: seq<bool>, i: nat): Insn
    requires i < |prog| == |keep| && keep[i]
  {
    match prog[i]
    case Ja(k) => Ja(NewOffset(keep, i, i + 1 + k))
    case Jmp(cond, src, k, jt, jf) =>
      Jmp(cond, src, k, NewOffset(keep, i, i + 1 + jt), NewOffset(keep, i, i + 1 + jf))
    case insn => insn
  }

  /** The kept ones among the first `i` instructions, renumbered. */
  function Compact(prog: Program, keep: seq<bool>, i: nat): (p: Program)
    requires i <= |prog| == |keep|
    ensures |p| == Count(keep, i)
  {
    if i == 0 then []
    else Compact(prog, keep, i - 1) + if keep[i - 1] then [Renumber(prog, keep, i - 1)] else []
  }

  lemma {:induction false} CompactAt(prog: Program, keep: seq<bool>, i: nat, n: nat)
    requires i < n <= |prog| == |keep| && keep[i]
    ensures Count(keep, i) < Count(keep, n)
    ensures Compact(prog, keep, n)[Count(keep, i)] == Renumber(prog, keep, i)
  {
    CountMonotone(keep, i + 1, n);
    if i < n - 1 { CompactAt(prog, keep, i, n - 1); }
  }

  /** `remove_unkept`. */
  method RemoveUnkept(prog: Program, keep: seq<bool>) returns (out: Program)
    requires |keep| == |prog|
    ensures out == if forall i :: 0 <= i < |keep| ==> keep[i] then prog else Compact(prog, keep, |prog|)
  {
    if forall i :: 0 <= i < |keep| ==> keep[i] { return prog; }
    out := [];
    for i := 0 to |prog|
      invariant out == Compact(prog, keep, i)
    {
      if keep[i] {
        out := out + [Renumber(prog, keep, i)];
      }
    }
  }

  /** Where old index `i` lives after removal. */
  function NewIndex(keep: seq<bool>, i: nat): nat {
    Count(keep, if i < |keep| then i else |keep|)
  }

  /** The instruction from `i` as it is at `at`: its jumps, if any, go where their
      old targets now are. */
  predicate MovedInsn(insn: Insn, now: Insn, keep: seq<bool>, i: nat, at: nat) {
    match insn
    case Ja(k) => now.Ja? && at + 1 + now.k == NewIndex(keep, i + 1 + k)
    case Jmp(cond, src, k, jt, jf) =>
      && now.Jmp? && now.cond == cond && now.src == src && now.k == k
      && at + 1 + now.jt == NewIndex(keep, i + 1 + jt) && at + 1 + now.jf == NewIndex(keep, i + 1 + jf)
    case _ => now == insn
  }

  /** A kept instruction sits at its new index. */
  lemma KeptAt(prog: Program, keep: seq<bool>, i: nat)
    requires i < |prog| == |keep| && keep[i]
    ensures var out, at := Compact(prog, keep, |prog|), NewIndex(keep, i);
            at < |out| && NewIndex(keep, i + 1) == at + 1 && MovedInsn(prog[i], out[at], keep, i, at)
  {
    CompactAt(prog, keep, i, |prog|);
    RenumberMoves(prog, keep, i);
  }

  lemma RenumberMoves(prog: Program, keep: seq<bool>, i: nat)
    requires i < |prog| == |keep| && keep[i]
    ensures MovedInsn(prog[i], Renumber(prog, keep, i), keep, i, NewIndex(keep, i))
    ensures NewIndex(keep, i + 1) == NewIndex(keep, i) + 1
  {
  }
}
