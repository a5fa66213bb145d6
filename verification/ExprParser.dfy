// The iterative expression parser and the recursive grammar it implements
// (pktbaffle/src/parser.rs:8-12, 38-60, 127-199). A primitive is one abstract
// parse step.

module ExprParser {
  import opened Words
  import opened Ast
  import opened Tokens

  const MAX_PAREN_DEPTH: nat := 9995

  /** How primitives are read, and which tokens can begin one. */
  datatype Lexicon = Lexicon(prim: (seq<Token>, nat) -> Option<(Primitive, nat)>, starts: Token -> bool)

  /** A parsed primitive takes at least one token. */
  ghost predicate Progresses(x: Lexicon) {
    forall ts: seq<Token>, pos: nat :: x.prim(ts, pos).Some? ==> pos < x.prim(ts, pos).value.1 <= |ts|
  }

  datatype Parsed = Ok(e: Expr, pos: nat) | Err

  // ----- the grammar, read recursively -----

  predicate NotAt(ts: seq<Token>, pos: nat) { At(ts, pos, NotTok) || At(ts, pos, Bang) }

  predicate StartsOperand(x: Lexicon, ts: seq<Token>, pos: nat) {
    pos < |ts| && (ts[pos].NotTok? || ts[pos].Bang? || ts[pos].LParen? || x.starts(ts[pos]))
  }

  /** `parse_logical_op`: the operator behind an operand (`true` for `or`) and
      the position behind it; juxtaposition is `and`. */
  function LogicalOp(x: Lexicon, ts: seq<Token>, pos: nat): Option<(bool, nat)> {
    if At(ts, pos, OrTok) then Some((true, pos + 1))
    else if At(ts, pos, AndTok) then Some((false, pos + 1))
    else if StartsOperand(x, ts, pos) then Some((false, pos))
    else None
  }

  /** What a level has folded so far and whether the next operand joins by `or`. */
  type Left = Option<(Expr, bool)>

  function Join(left: Left, operand: Expr): Expr {
    match left
    case None => operand
    case Some((l, true)) => Or(l, operand)
    case Some((l, false)) => And(l, operand)
  }

  /** `expr`: operands folded from the left, `depth` parentheses deep. */
  ghost function Level(x: Lexicon, ts: seq<Token>, pos: nat, depth: nat, left: Left): (r: Parsed)
    requires Progresses(x)
    ensures r.Ok? ==> pos < r.pos <= |ts|
    decreases |ts| - pos, 2
  {
    var o := NotExpr(x, ts, pos, depth);
    if o.Err? then Err else Rest(x, ts, o.pos, depth, left, o.e)
  }

  /** The rest of a level behind an operand. */
  ghost function Rest(x: Lexicon, ts: seq<Token>, pos: nat, depth: nat, left: Left, operand: Expr): (r: Parsed)
    requires Progresses(x) && pos <= |ts|
    ensures r.Ok? ==> pos <= r.pos <= |ts|
    decreases |ts| - pos, 3
  {
    var e, op := Join(left, operand), LogicalOp(x, ts, pos);
    if op.None? then Ok(e, pos) else Level(x, ts, op.value.1, depth, Some((e, op.value.0)))
  }

  /** `not_expr`. */
  ghost function NotExpr(x: Lexicon, ts: seq<Token>, pos: nat, depth: nat): (r: Parsed)
    requires Progresses(x)
    ensures r.Ok? ==> pos < r.pos <= |ts|
    decreases |ts| - pos, 1
  {
    if NotAt(ts, pos) then
      var r := NotExpr(x, ts, pos + 1, depth);
      if r.Ok? then Ok(Not(r.e), r.pos) else Err
    else Atom(x, ts, pos, depth)
  }

  /** `atom`. */
  ghost function Atom(x: Lexicon, ts: seq<Token>, pos: nat, depth: nat): (r: Parsed)
    requires Progresses(x)
    ensures r.Ok? ==> pos < r.pos <= |ts|
    decreases |ts| - pos, 0
  {
    if At(ts, pos, LParen) then
      if depth >= MAX_PAREN_DEPTH then Err else Close(ts, Level(x, ts, pos + 1, depth + 1, None))
    else
      var p := x.prim(ts, pos);
      if p.None? then Err else Ok(Prim(p.value.0), p.value.1)
  }

  function Close(ts: seq<Token>, r: Parsed): Parsed {
    if r.Ok? && At(ts, r.pos, RParen) then Ok(r.e, r.pos + 1) else Err
  }

  // ----- suspended levels -----

  /** An enclosing level suspended at a `(`. */
  datatype Open = Open(left: Left, nots: nat)

  function Nots(e: Expr, n: nat): Expr
    decreases n
  {
    if n == 0 then e else Nots(Not(e), n - 1)
  }

  function Negated(r: Parsed, n: nat): Parsed { if r.Ok? then Ok(Nots(r.e, n), r.pos) else Err }

  /** What the suspended levels make of the innermost level's result. */
  ghost function Resume(x: Lexicon, ts: seq<Token>, open: seq<Open>, r: Parsed): Parsed
    requires Progresses(x) && (r.Ok? ==> r.pos <= |ts|)
    decreases |open|
  {
    if open == [] then r
    else
      var outer, under := open[|open| - 1], open[..|open| - 1];
      var o := Negated(Close(ts, r), outer.nots);
      Resume(x, ts, under, if o.Ok? then Rest(x, ts, o.pos, |under|, outer.left, o.e) else Err)
  }

  lemma {:induction false} ResumeErr(x: Lexicon, ts: seq<Token>, open: seq<Open>)
    requires Progresses(x)
    ensures Resume(x, ts, open, Err) == Err
    decreases |open|
  {
    if open != [] { ResumeErr(x, ts, open[..|open| - 1]); }
  }

  lemma {:induction false} NotsOutside(e: Expr, n: nat)
    ensures Nots(Not(e), n) == Not(Nots(e, n))
    decreases n
  {
    if n > 0 { NotsOutside(Not(e), n - 1); }
  }

  /** A counted `!` belongs to the operand behind it. */
  lemma CountNot(x: Lexicon, ts: seq<Token>, pos: nat, depth: nat, n: nat)
    requires Progresses(x) && NotAt(ts, pos)
    ensures Negated(NotExpr(x, ts, pos, depth), n) == Negated(NotExpr(x, ts, pos + 1, depth), n + 1)
  {
    var r := NotExpr(x, ts, pos + 1, depth);
    if r.Ok? { NotsOutside(r.e, n); }
  }

  /** What the innermost level makes of an operand still to be negated. */
  ghost function Fold(x: Lexicon, ts: seq<Token>, open: seq<Open>, left: Left, r: Parsed): Parsed
    requires Progresses(x) && (r.Ok? ==> r.pos <= |ts|)
  {
    Resume(x, ts, open, if r.Ok? then Rest(x, ts, r.pos, |open|, left, r.e) else Err)
  }

  /** Suspending a level at a `(` does not change the result. */
  lemma Suspend(x: Lexicon, ts: seq<Token>, open: seq<Open>, left: Left, pos: nat, n: nat)
    requires Progresses(x) && At(ts, pos, LParen) && !NotAt(ts, pos)
    ensures |open| < MAX_PAREN_DEPTH ==>
            Fold(x, ts, open, left, Negated(NotExpr(x, ts, pos, |open|), n))
            == var more := open + [Open(left, n)]; Resume(x, ts, more, Level(x, ts, pos + 1, |more|, None))
    ensures |open| >= MAX_PAREN_DEPTH ==> Fold(x, ts, open, left, Negated(NotExpr(x, ts, pos, |open|), n)) == Err
  {
    var more := open + [Open(left, n)];
    assert more[..|more| - 1] == open;
    ResumeErr(x, ts, open);
  }

  lemma FoldOperand(x: Lexicon, ts: seq<Token>, open: seq<Open>, left: Left, pos: nat)
    requires Progresses(x)
    ensures Resume(x, ts, open, Level(x, ts, pos, |open|, left)) == Fold(x, ts, open, left, NotExpr(x, ts, pos, |open|))
  {
  }

  lemma FoldPrimitive(x: Lexicon, ts: seq<Token>, open: seq<Open>, left: Left, pos: nat, n: nat)
    requires Progresses(x) && !At(ts, pos, LParen) && !NotAt(ts, pos)
    ensures var p := x.prim(ts, pos);
            Fold(x, ts, open, left, Negated(NotExpr(x, ts, pos, |open|), n))
            == if p.None? then Err else Fold(x, ts, open, left, Ok(Nots(Prim(p.value.0), n), p.value.1))
  {
    ResumeErr(x, ts, open);
  }

  /** A parse result and end position are as wanted. */
  predicate Agrees(r: Option<Expr>, pos: nat, want: Parsed) {
    if r.Some? then want == Ok(r.value, pos) else want == Err
  }

  class Parser {
    const lexicon: Lexicon
    const tokens: seq<Token>
    var pos: nat

    constructor (lexicon: Lexicon, tokens: seq<Token>)
      ensures this.lexicon == lexicon && this.tokens == tokens && pos == 0
    {
      this.lexicon, this.tokens, pos := lexicon, tokens, 0;
    }

    method Eat(t: Token) returns (ate: bool)
      modifies this
      ensures ate == At(tokens, old(pos), t) && pos == old(pos) + if ate then 1 else 0
    {
      ate := pos < |tokens| && tokens[pos] == t;
      if ate { pos := pos + 1; }
    }

    method EatNots(ghost depth: nat) returns (nots: nat)
      requires Progresses(lexicon)
      modifies this
      ensures !NotAt(tokens, pos)
      ensures Negated(NotExpr(lexicon, tokens, pos, depth), nots) == NotExpr(lexicon, tokens, old(pos), depth)
      ensures old(pos) <= pos && (old(pos) <= |tokens| ==> pos <= |tokens|)
    {
      nots := 0;
      while NotAt(tokens, pos)
        invariant Negated(NotExpr(lexicon, tokens, pos, depth), nots) == NotExpr(lexicon, tokens, old(pos), depth)
        invariant old(pos) <= pos && (old(pos) <= |tokens| ==> pos <= |tokens|)
        decreases |tokens| - pos
      {
        CountNot(lexicon, tokens, pos, depth, nots);
        pos := pos + 1;
        nots := nots + 1;
      }
    }

    method ParseLogicalOp() returns (isOr: Option<bool>)
      modifies this
      ensures var op := LogicalOp(lexicon, tokens, old(pos));
              && (isOr.Some? <==> op.Some?)
              && (isOr.Some? ==> isOr.value == op.value.0 && pos == op.value.1)
              && (isOr.None? ==> pos == old(pos))
    {
      var or := Eat(OrTok);
      if or { return Some(true); }
      var and := Eat(AndTok);
      if and { return Some(false); }
      return if StartsOperand(lexicon, tokens, pos) then Some(false) else None;
    }

    /** `parse_expr`: the same tree, end position and success as the recursive
        grammar, for any tokens. */
    method ParseExpr() returns (r: Option<Expr>)
      requires Progresses(lexicon) && pos <= |tokens|
      modifies this
      ensures Agrees(r, pos, Level(lexicon, tokens, old(pos), 0, None))
    {
      var open: seq<Open> := [];
      var left: Left := None;
      ghost var want := Level(lexicon, tokens, pos, 0, None);
      while true
        invariant pos <= |tokens|
        invariant Resume(lexicon, tokens, open, Level(lexicon, tokens, pos, |open|, left)) == want
        decreases |tokens| - pos
      {
        var ended, e;
        ended, e, open, left := OneOperand(open, left, want);
        if ended { return e; }
      }
    }

    /** The outer loop: one operand, `('not' | '!')* ('(' | primitive)`. */
    method OneOperand(open0: seq<Open>, left0: Left, ghost want: Parsed)
      returns (ended: bool, r: Option<Expr>, open: seq<Open>, left: Left)
      requires Progresses(lexicon) && pos <= |tokens|
      requires Resume(lexicon, tokens, open0, Level(lexicon, tokens, pos, |open0|, left0)) == want
      modifies this
      ensures pos <= |tokens|
      ensures ended ==> Agrees(r, pos, want)
      ensures !ended ==> old(pos) < pos && Resume(lexicon, tokens, open, Level(lexicon, tokens, pos, |open|, left)) == want
    {
      open, left, r := open0, left0, None;
      FoldOperand(lexicon, tokens, open, left, pos);
      var nots := EatNots(|open|);
      if At(tokens, pos, LParen) {
        Suspend(lexicon, tokens, open, left, pos, nots);
        if |open| >= MAX_PAREN_DEPTH { return true, None, open, left; }
        pos := pos + 1;
        open, left := open + [Open(left, nots)], None;
        return false, None, open, left;
      }
      FoldPrimitive(lexicon, tokens, open, left, pos, nots);
      var p := lexicon.prim(tokens, pos);
      if p.None? { return true, None, open, left; }
      pos := p.value.1;
      ended, r, open, left := FinishOperand(open, left, Prim(p.value.0), nots, want);
    }

    /** The inner loop: fold the operand into its level; while no operator
        follows, close the level and fold it into the enclosing one. */
    method FinishOperand(open0: seq<Open>, left0: Left, operand0: Expr, nots0: nat, ghost want: Parsed)
      returns (ended: bool, r: Option<Expr>, open: seq<Open>, left: Left)
      requires Progresses(lexicon) && pos <= |tokens|
      requires Fold(lexicon, tokens, open0, left0, Ok(Nots(operand0, nots0), pos)) == want
      modifies this
      ensures old(pos) <= pos <= |tokens|
      ensures ended ==> Agrees(r, pos, want)
      ensures !ended ==> Resume(lexicon, tokens, open, Level(lexicon, tokens, pos, |open|, left)) == want
    {
      open, left := open0, left0;
      var operand, nots := operand0, nots0;
      while true
        invariant old(pos) <= pos <= |tokens|
        invariant Fold(lexicon, tokens, open, left, Ok(Nots(operand, nots), pos)) == want
        decreases |open|
      {
        var e := Join(left, Nots(operand, nots));
        var isOr := ParseLogicalOp();
        if isOr.Some? { return false, None, open, Some((e, isOr.value)); }
        if open == [] { return true, Some(e), open, left; }
        var outer := open[|open| - 1];
        open := open[..|open| - 1];
        ResumeErr(lexicon, tokens, open);
        var closed := Eat(RParen);
        if !closed { return true, None, open, left; }
        operand, nots, left := e, outer.nots, outer.left;
      }
    }
  }

  /** `parse`: the whole input must be one expression. */
  ghost function Whole(x: Lexicon, ts: seq<Token>): Option<Expr>
    requires Progresses(x)
  {
    var r := Level(x, ts, 0, 0, None);
    if r.Ok? && r.pos == |ts| then Some(r.e) else None
  }

  method Parse(lexicon: Lexicon, tokens: seq<Token>) returns (r: Option<Expr>)
    requires Progresses(lexicon)
    ensures r == Whole(lexicon, tokens)
  {
    var p := new Parser(lexicon, tokens);
    r := p.ParseExpr();
    if r.Some? && p.pos < |tokens| { r := None; }
  }
}
