// Constant offset expressions inside `[...]`
// (pktbaffle/src/parser.rs:57-69, 1059-1204): a recursive evaluator with
// checked arithmetic and a recursion budget.

module OffsetParser {
  import opened Words
  import opened Integers
  import opened Tokens

  const MAX_OFFSET_DEPTH: nat := 127

  const OFFSET_PAREN_COST: nat := 4

  /** What an offset expression says, before any arithmetic. */
  datatype Term = Lit(n: u32) | Negative(t: Term) | Group(t: Term) | Binary(op: BinOp, l: Term, r: Term)

  // ----- the grammar -----

  /** Levels 0 to 5 are the six binary levels, loosest first; 6 is an atom. */
  const ATOM: nat := 6

  /** The operator of a level at `pos`. */
  function OpAt(ts: seq<Token>, pos: nat, level: nat): Option<BinOp> {
    if pos >= |ts| then None
    else match (level, ts[pos])
      case (0, Pipe) => Some(OrOp)
      case (1, Caret) => Some(XorOp)
      case (2, Amp) => Some(AndOp)
      case (3, Shl) => Some(ShlOp)
      case (3, Shr) => Some(ShrOp)
      case (4, Plus) => Some(AddOp)
      case (4, Minus) => Some(SubOp)
      case (5, Star) => Some(MulOp)
      case (5, Slash) => Some(DivOp)
      case _ => None
  }

  type Read = Option<(Term, nat)>

  function Grammar(ts: seq<Token>, pos: nat, level: nat): (r: Read)
    requires level <= ATOM
    ensures r.Some? ==> pos < r.value.1 <= |ts|
    decreases |ts| - pos, ATOM - level + 1
  {
    if level == ATOM then AtomGrammar(ts, pos)
    else
      var l := Grammar(ts, pos, level + 1);
      if l.None? then None else GrammarRest(ts, l.value.1, level, l.value.0)
  }

  /** More operands of a binary level, associating to the left. */
  function GrammarRest(ts: seq<Token>, pos: nat, level: nat, l: Term): (r: Read)
    requires level < ATOM && pos <= |ts|
    ensures r.Some? ==> pos <= r.value.1 <= |ts|
    decreases |ts| - pos, 0
  {
    var op := OpAt(ts, pos, level);
    if op.None? then Some((l, pos))
    else
      var r := Grammar(ts, pos + 1, level + 1);
      if r.None? then None else GrammarRest(ts, r.value.1, level, Binary(op.value, l, r.value.0))
  }

  function AtomGrammar(ts: seq<Token>, pos: nat): (r: Read)
    ensures r.Some? ==> pos < r.value.1 <= |ts|
    decreases |ts| - pos, 0
  {
    if pos >= |ts| then None
    else match ts[pos]
      case LParen =>
        var r := Grammar(ts, pos + 1, 0);
        if r.Some? && At(ts, r.value.1, RParen) then Some((Group(r.value.0), r.value.1 + 1)) else None
      case Minus =>
        var r := Grammar(ts, pos + 1, ATOM);
        if r.Some? then Some((Negative(r.value.0), r.value.1)) else None
      case Num(n) => if n < U32_SIZE then Some((Lit(n), pos + 1)) else None
      case _ => None
  }

  // ----- meaning and cost -----

  /** The value over the unbounded integers. */
  function Value(t: Term): Option<int> {
    match t
    case Lit(n) => Some(n as int)
    case Negative(x) => var v := Value(x); if v.Some? then Some(-v.value) else None
    case Group(x) => Value(x)
    case Binary(op, l, r) =>
      var a, b := Value(l), Value(r);
      if a.Some? && b.Some? then Exact(op, a.value, b.value) else None
  }

  /** Every part of the expression has a value that fits 64 bits. */
  predicate Fits(t: Term) {
    && Value(t).Some? && InI64(Value(t).value)
    && match t
       case Lit(_) => true
       case Negative(x) => Fits(x)
       case Group(x) => Fits(x)
       case Binary(_, l, r) => Fits(l) && Fits(r)
  }

  function Max(a: nat, b: nat): nat { if a < b then b else a }

  /** The deepest nesting, as `nested_offset` charges it. */
  function Cost(t: Term): nat {
    match t
    case Lit(_) => 0
    case Negative(x) => 1 + Cost(x)
    case Group(x) => OFFSET_PAREN_COST + Cost(x)
    case Binary(_, l, r) => Max(Cost(l), Cost(r))
  }

  // ----- evaluation, step by step -----

  /** How an evaluation ends: with a value, with an error, or at a nesting whose
      charge exceeds the budget. */
  datatype Outcome = Done(v: int, end: nat) | Failed | TooDeep(charge: nat)

  function Evaluate(ts: seq<Token>, pos: nat, level: nat, depth: nat): (o: Outcome)
    requires level <= ATOM
    ensures o.Done? ==> pos < o.end <= |ts|
    decreases |ts| - pos, ATOM - level + 1
  {
    if level == ATOM then EvaluateAtom(ts, pos, depth)
    else
      var l := Evaluate(ts, pos, level + 1, depth);
      if l.Done? then EvaluateRest(ts, l.end, level, l.v, depth) else l
  }

  function EvaluateRest(ts: seq<Token>, pos: nat, level: nat, lhs: int, depth: nat): (o: Outcome)
    requires level < ATOM && pos <= |ts|
    ensures o.Done? ==> pos <= o.end <= |ts|
    decreases |ts| - pos, 0
  {
    var op := OpAt(ts, pos, level);
    if op.None? then Done(lhs, pos)
    else
      var r := Evaluate(ts, pos + 1, level + 1, depth);
      if !r.Done? then r
      else
        var out := Machine(op.value, lhs, r.v);
        if out.None? then Failed else EvaluateRest(ts, r.end, level, out.value, depth)
  }

  /** `nested_offset`: charge, and refuse what exceeds the budget. */
  function Nested(ts: seq<Token>, pos: nat, level: nat, depth: nat, charge: nat): (o: Outcome)
    requires level <= ATOM && pos <= |ts|
    ensures o.Done? ==> pos < o.end <= |ts|
    decreases |ts| - pos, ATOM + 2
  {
    if depth + charge > MAX_OFFSET_DEPTH then TooDeep(charge) else Evaluate(ts, pos, level, depth + charge)
  }

  function EvaluateAtom(ts: seq<Token>, pos: nat, depth: nat): (o: Outcome)
    ensures o.Done? ==> pos < o.end <= |ts|
    decreases |ts| - pos, 0
  {
    if pos >= |ts| then Failed
    else match ts[pos]
      case LParen =>
        var r := Nested(ts, pos + 1, 0, depth, OFFSET_PAREN_COST);
        if !r.Done? then r else if At(ts, r.end, RParen) then Done(r.v, r.end + 1) else Failed
      case Minus =>
        var r := Nested(ts, pos + 1, ATOM, depth, 1);
        if !r.Done? then r else if InI64(-r.v) then Done(-r.v, r.end) else Failed
      case Num(n) => if n < U32_SIZE then Done(n, pos + 1) else Failed
      case _ => Failed
  }

  // ----- evaluation against the grammar -----

  /** The evaluation is right about what the grammar reads: it ends with the
      exact value if every part fits and the nesting is within budget, and
      otherwise with none. */
  predicate Answers(o: Outcome, g: Read, depth: nat) {
    if g.Some? && Fits(g.value.0) && depth + Cost(g.value.0) <= MAX_OFFSET_DEPTH
    then o.Done? && Some(o.v) == Value(g.value.0) && o.end == g.value.1
    else !o.Done?
  }

  lemma {:induction false} RestContains(ts: seq<Token>, pos: nat, level: nat, l: Term)
    requires level < ATOM && pos <= |ts|
    ensures var r := GrammarRest(ts, pos, level, l);
            r.Some? ==> (Fits(r.value.0) ==> Fits(l)) && Cost(r.value.0) >= Cost(l)
    decreases |ts| - pos
  {
    var op := OpAt(ts, pos, level);
    if op.Some? {
      var r := Grammar(ts, pos + 1, level + 1);
      if r.Some? { RestContains(ts, r.value.1, level, Binary(op.value, l, r.value.0)); }
    }
  }

  /** The operand that breaks the rules breaks the whole level. */
  lemma BadOperand(ts: seq<Token>, pos: nat, level: nat, l: Term, depth: nat)
    requires level < ATOM && pos <= |ts| && OpAt(ts, pos, level).Some?
    requires var g := Grammar(ts, pos + 1, level + 1);
             g.None? || !Fits(g.value.0) || depth + Cost(g.value.0) > MAX_OFFSET_DEPTH
             || !Fits(Binary(OpAt(ts, pos, level).value, l, g.value.0))
    ensures Answers(Failed, GrammarRest(ts, pos, level, l), depth)
  {
    var g := Grammar(ts, pos + 1, level + 1);
    if g.Some? { RestContains(ts, g.value.1, level, Binary(OpAt(ts, pos, level).value, l, g.value.0)); }
  }

  /** The machine operation has a result exactly where the whole fits. */
  lemma BinaryFits(op: BinOp, l: Term, r: Term)
    requires Fits(l) && Fits(r)
    ensures var out := Machine(op, Value(l).value, Value(r).value);
            (Fits(Binary(op, l, r)) <==> out.Some?) && (out.Some? ==> out == Value(Binary(op, l, r)))
  {
    MachineIsExact(op, Value(l).value, Value(r).value);
  }

  lemma {:induction false} RestAnswers(ts: seq<Token>, pos: nat, level: nat, l: Term, depth: nat)
    requires level < ATOM && pos <= |ts|
    requires Fits(l) && depth + Cost(l) <= MAX_OFFSET_DEPTH
    ensures Answers(EvaluateRest(ts, pos, level, Value(l).value, depth), GrammarRest(ts, pos, level, l), depth)
    decreases |ts| - pos, 0
  {
    var op := OpAt(ts, pos, level);
    if op.Some? {
      var r, g := Evaluate(ts, pos + 1, level + 1, depth), Grammar(ts, pos + 1, level + 1);
      EvaluateAnswers(ts, pos + 1, level + 1, depth);
      if r.Done? {
        var t := Binary(op.value, l, g.value.0);
        BinaryFits(op.value, l, g.value.0);
        if Fits(t) { RestAnswers(ts, r.end, level, t, depth); } else { BadOperand(ts, pos, level, l, depth); }
      } else {
        BadOperand(ts, pos, level, l, depth);
      }
    }
  }

  lemma {:induction false} AtomAnswers(ts: seq<Token>, pos: nat, depth: nat)
    requires depth <= MAX_OFFSET_DEPTH
    ensures Answers(EvaluateAtom(ts, pos, depth), AtomGrammar(ts, pos), depth)
    decreases |ts| - pos, 0
  {
    if pos < |ts| {
      match ts[pos]
      case LParen =>
        if depth + OFFSET_PAREN_COST <= MAX_OFFSET_DEPTH { EvaluateAnswers(ts, pos + 1, 0, depth + OFFSET_PAREN_COST); }
      case Minus => if depth + 1 <= MAX_OFFSET_DEPTH { EvaluateAnswers(ts, pos + 1, ATOM, depth + 1); }
      case _ =>
    }
  }

  /** Whatever evaluates to a value has exactly its unbounded-integer value, and
      everything in budget whose parts fit does evaluate. */
  lemma {:induction false} EvaluateAnswers(ts: seq<Token>, pos: nat, level: nat, depth: nat)
    requires level <= ATOM && depth <= MAX_OFFSET_DEPTH
    ensures Answers(Evaluate(ts, pos, level, depth), Grammar(ts, pos, level), depth)
    decreases |ts| - pos, ATOM - level + 1
  {
    if level == ATOM {
      AtomAnswers(ts, pos, depth);
    } else {
      EvaluateAnswers(ts, pos, level + 1, depth);
      var l, g := Evaluate(ts, pos, level + 1, depth), Grammar(ts, pos, level + 1);
      if g.Some? { RestContains(ts, g.value.1, level, g.value.0); }
      if l.Done? { RestAnswers(ts, l.end, level, g.value.0, depth); }
    }
  }

  /** The budget does not matter unless it is exceeded: with less charged at
      entry, an evaluation that was not too deep ends the same way. */
  lemma {:induction false} BudgetOnlyWhenExceeded(ts: seq<Token>, pos: nat, level: nat, depth: nat, less: nat)
    requires level <= ATOM && less <= depth && !Evaluate(ts, pos, level, depth).TooDeep?
    ensures Evaluate(ts, pos, level, less) == Evaluate(ts, pos, level, depth)
    decreases |ts| - pos, ATOM - level + 1
  {
    if level < ATOM {
      BudgetOnlyWhenExceeded(ts, pos, level + 1, depth, less);
      var l := Evaluate(ts, pos, level + 1, depth);
      if l.Done? { BudgetOnRest(ts, l.end, level, l.v, depth, less); }
    } else {
      BudgetOnAtom(ts, pos, depth, less);
    }
  }

  lemma {:induction false} BudgetOnAtom(ts: seq<Token>, pos: nat, depth: nat, less: nat)
    requires less <= depth && !EvaluateAtom(ts, pos, depth).TooDeep?
    ensures EvaluateAtom(ts, pos, less) == EvaluateAtom(ts, pos, depth)
    decreases |ts| - pos, 0
  {
    if At(ts, pos, LParen) {
      assert !Nested(ts, pos + 1, 0, depth, OFFSET_PAREN_COST).TooDeep?;
      BudgetOnlyWhenExceeded(ts, pos + 1, 0, depth + OFFSET_PAREN_COST, less + OFFSET_PAREN_COST);
    } else if At(ts, pos, Minus) {
      assert !Nested(ts, pos + 1, ATOM, depth, 1).TooDeep?;
      BudgetOnlyWhenExceeded(ts, pos + 1, ATOM, depth + 1, less + 1);
    }
  }

  lemma {:induction false} BudgetOnRest(ts: seq<Token>, pos: nat, level: nat, lhs: int, depth: nat, less: nat)
    requires level < ATOM && pos <= |ts| && less <= depth && !EvaluateRest(ts, pos, level, lhs, depth).TooDeep?
    ensures EvaluateRest(ts, pos, level, lhs, less) == EvaluateRest(ts, pos, level, lhs, depth)
    decreases |ts| - pos, 0
  {
    var op := OpAt(ts, pos, level);
    if op.Some? {
      BudgetOnlyWhenExceeded(ts, pos + 1, level + 1, depth, less);
      var r := Evaluate(ts, pos + 1, level + 1, depth);
      if r.Done? && Machine(op.value, lhs, r.v).Some? {
        BudgetOnRest(ts, r.end, level, Machine(op.value, lhs, r.v).value, depth, less);
      }
    }
  }

  /** The result and the parser's state follow `o`. The depth counter is back at
      its entry value except where the budget was exceeded: then the charge of
      that nesting stays behind. */
  predicate Follows(o: Outcome, r: Option<int>, end: nat, entry: nat, exit: nat) {
    match o
    case Done(v, e) => r == Some(v) && end == e && exit == entry
    case Failed => r == None && exit == entry
    case TooDeep(charge) => r == None && exit == entry + charge
  }

  class Parser {
    const tokens: seq<Token>
    var pos: nat
    var depth: nat

    constructor (tokens: seq<Token>)
      ensures this.tokens == tokens && pos == 0 && depth == 0
    {
      this.tokens, pos, depth := tokens, 0, 0;
    }

    /** A binary level, or an atom. */
    method Level(level: nat) returns (r: Option<int>)
      requires level <= ATOM && depth <= MAX_OFFSET_DEPTH
      modifies this
      ensures Follows(Evaluate(tokens, old(pos), level, old(depth)), r, pos, old(depth), depth)
      decreases |tokens| - pos, ATOM - level + 1
    {
      if level == ATOM {
        r := Atom();
      } else {
        r := Level(level + 1);
        if r.Some? { r := MoreOperands(level, r.value); }
      }
    }

    /** The loop of a binary level, behind its first operand. */
    method MoreOperands(level: nat, first: int) returns (r: Option<int>)
      requires level < ATOM && pos <= |tokens| && depth <= MAX_OFFSET_DEPTH
      modifies this
      ensures Follows(EvaluateRest(tokens, old(pos), level, first, old(depth)), r, pos, old(depth), depth)
      decreases |tokens| - pos, ATOM - level + 1
    {
      var lhs := first;
      while OpAt(tokens, pos, level).Some?
        invariant old(pos) <= pos <= |tokens| && depth == old(depth)
        invariant EvaluateRest(tokens, pos, level, lhs, depth) == EvaluateRest(tokens, old(pos), level, first, old(depth))
        decreases |tokens| - pos
      {
        var op := OpAt(tokens, pos, level).value;
        pos := pos + 1;
        var rhs := Level(level + 1);
        if rhs.None? { return None; }
        var out := Machine(op, lhs, rhs.value);
        if out.None? { return None; }
        lhs := out.value;
      }
      return Some(lhs);
    }

    /** `nested_offset`: run a level deeper, unless the budget is exceeded. */
    method NestedLevel(level: nat, charge: nat) returns (r: Option<int>)
      requires level <= ATOM && depth <= MAX_OFFSET_DEPTH && pos <= |tokens|
      modifies this
      ensures Follows(Nested(tokens, old(pos), level, old(depth), charge), r, pos, old(depth), depth)
      decreases |tokens| - pos, ATOM + 2
    {
      depth := depth + charge;
      if depth > MAX_OFFSET_DEPTH { return None; }
      r := Level(level);
      depth := depth - charge;
    }

    /** `parse_offset_atom`. */
    method Atom() returns (r: Option<int>)
      requires depth <= MAX_OFFSET_DEPTH
      modifies this
      ensures Follows(EvaluateAtom(tokens, old(pos), old(depth)), r, pos, old(depth), depth)
      decreases |tokens| - pos, 0
    {
      if pos >= |tokens| { return None; }
      match tokens[pos] {
        case LParen =>
          pos := pos + 1;
          r := NestedLevel(0, OFFSET_PAREN_COST);
          if r.None? { return; }
          if !At(tokens, pos, RParen) { return None; }
          pos := pos + 1;
        case Minus =>
          pos := pos + 1;
          r := NestedLevel(ATOM, 1);
          if r.Some? { r := InRangeOnly(-r.value); }
        case Num(n) =>
          pos := pos + 1;
          return if n < U32_SIZE then Some(n as int) else None;
        case _ => return None;
      }
    }

    /** `parse_offset_expr`: the value must also fit 32 bits. */
    method ParseOffsetExpr() returns (r: Option<int>)
      requires depth <= MAX_OFFSET_DEPTH
      modifies this
      ensures var g := Grammar(tokens, old(pos), 0);
              r.Some? <==> g.Some? && Fits(g.value.0) && old(depth) + Cost(g.value.0) <= MAX_OFFSET_DEPTH
                           && -0x8000_0000 <= Value(g.value.0).value < 0x8000_0000
      ensures r.Some? ==> r == Value(Grammar(tokens, old(pos), 0).value.0) && pos == Grammar(tokens, old(pos), 0).value.1
      ensures var o := Evaluate(tokens, old(pos), 0, old(depth));
              depth == old(depth) + if o.TooDeep? then o.charge else 0
    {
      EvaluateAnswers(tokens, pos, 0, depth);
      r := Level(0);
      if r.Some? && !(-0x8000_0000 <= r.value < 0x8000_0000) { r := None; }
    }
  }
}
