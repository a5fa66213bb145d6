// Fully parenthesised spellings read back to their tree, up to the bound on
// nested parentheses.

module Spellings {
  import opened Words
  import opened Ast
  import opened Tokens
  import opened ExprParser

  /** A spelling of a tree. `and` may be written out or left out between
      groups; parentheses may be doubled. */
  datatype Spelling =
    | Plain(p: Primitive)
    | Conj(l: Spelling, r: Spelling, word: bool)
    | Disj(l: Spelling, r: Spelling)
    | Neg(x: Spelling, bang: bool)
    | Group(x: Spelling)

  type Names = Primitive -> seq<Token>

  function Tree(s: Spelling): Expr {
    match s
    case Plain(p) => Prim(p)
    case Conj(l, r, _) => And(Tree(l), Tree(r))
    case Disj(l, r) => Or(Tree(l), Tree(r))
    case Neg(x, _) => Not(Tree(x))
    case Group(x) => Tree(x)
  }

  function Separator(s: Spelling): seq<Token> {
    if s.Disj? then [OrTok] else if s.Conj? && s.word then [AndTok] else []
  }

  function Pair(a: seq<Token>, sep: seq<Token>, b: seq<Token>): seq<Token> { [LParen] + a + sep + b + [RParen] }

  function Text(names: Names, s: Spelling): seq<Token> {
    match s
    case Plain(p) => names(p)
    case Conj(l, r, _) => Pair(Text(names, l), Separator(s), Text(names, r))
    case Disj(l, r) => Pair(Text(names, l), Separator(s), Text(names, r))
    case Neg(x, bang) => [if bang then Bang else NotTok] + Text(names, x)
    case Group(x) => [LParen] + Text(names, x) + [RParen]
  }

  function Max(a: nat, b: nat): nat { if a < b then b else a }

  /** Deepest nesting of parentheses. */
  function Depth(s: Spelling): nat {
    match s
    case Plain(_) => 0
    case Conj(l, r, _) => 1 + Max(Depth(l), Depth(r))
    case Disj(l, r) => 1 + Max(Depth(l), Depth(r))
    case Neg(x, _) => Depth(x)
    case Group(x) => 1 + Depth(x)
  }

  /** The spelling ends with a parenthesis. */
  predicate Closes(s: Spelling) {
    match s
    case Plain(_) => false
    case Neg(x, _) => Closes(x)
    case _ => true
  }

  /** `and` is left out only where no primitive touches the gap. */
  predicate WellSpelled(s: Spelling) {
    match s
    case Plain(_) => true
    case Conj(l, r, word) => WellSpelled(l) && WellSpelled(r) && (!word ==> Closes(l) && !r.Plain?)
    case Disj(l, r) => WellSpelled(l) && WellSpelled(r)
    case Neg(x, _) => WellSpelled(x)
    case Group(x) => WellSpelled(x)
  }

  /** A primitive ends before these. */
  predicate Stops(post: seq<Token>) {
    post == [] || post[0].RParen? || post[0].AndTok? || post[0].OrTok?
  }

  /** A name begins like no operator and is read back wherever it stands. */
  ghost predicate NameReads(x: Lexicon, names: Names, p: Primitive) {
    && names(p) != [] && !names(p)[0].NotTok? && !names(p)[0].Bang? && !names(p)[0].LParen?
    && forall pre, post :: Stops(post) ==> ReadBetween(x, names, p, pre, post)
  }

  predicate ReadBetween(x: Lexicon, names: Names, p: Primitive, pre: seq<Token>, post: seq<Token>) {
    x.prim(pre + names(p) + post, |pre|) == Some((p, |pre| + |names(p)|))
  }

  /** Every primitive that occurs in the spelling has a name that is read back. */
  ghost predicate Named(x: Lexicon, names: Names, s: Spelling) {
    match s
    case Plain(p) => NameReads(x, names, p)
    case Conj(l, r, _) => Named(x, names, l) && Named(x, names, r)
    case Disj(l, r) => Named(x, names, l) && Named(x, names, r)
    case Neg(y, _) => Named(x, names, y)
    case Group(y) => Named(x, names, y)
  }

  /** The primitive step reads back what `names` writes for the primitives of the
      spelling, and `)` begins no operand. */
  ghost predicate Reads(x: Lexicon, names: Names, s: Spelling) {
    Progresses(x) && !x.starts(RParen) && Named(x, names, s)
  }

  /** The operand at `at` was read as `s`, unless that nests too deep. */
  ghost predicate ReadAs(x: Lexicon, ts: seq<Token>, at: nat, depth: nat, s: Spelling, length: nat)
    requires Progresses(x)
  {
    NotExpr(x, ts, at, depth) == if depth + Depth(s) <= MAX_PAREN_DEPTH then Ok(Tree(s), at + length) else Err
  }

  lemma {:induction false} PlainReads(x: Lexicon, names: Names, p: Primitive, pre: seq<Token>, post: seq<Token>, depth: nat)
    requires Reads(x, names, Plain(p)) && Stops(post) && depth <= MAX_PAREN_DEPTH
    ensures ReadAs(x, pre + names(p) + post, |pre|, depth, Plain(p), |names(p)|)
  {
    var ts := pre + names(p) + post;
    assert NameReads(x, names, p) && ReadBetween(x, names, p, pre, post);
    assert ts[|pre|] == names(p)[0];
    assert NotExpr(x, ts, |pre|, depth) == Atom(x, ts, |pre|, depth);
  }

  /** A level goes on behind an operand that an operator follows ... */
  lemma {:induction false} LevelSteps(x: Lexicon, ts: seq<Token>, pos: nat, depth: nat, left: Left, e: Expr, end: nat, isOr: bool, next: nat)
    requires Progresses(x) && end <= |ts| && NotExpr(x, ts, pos, depth) == Ok(e, end) && LogicalOp(x, ts, end) == Some((isOr, next))
    ensures Level(x, ts, pos, depth, left) == Level(x, ts, next, depth, Some((Join(left, e), isOr)))
  {
    assert Level(x, ts, pos, depth, left) == Rest(x, ts, end, depth, left, e);
  }

  /** ... and ends behind one that none follows. */
  lemma {:induction false} LevelEnds(x: Lexicon, ts: seq<Token>, pos: nat, depth: nat, left: Left, e: Expr, end: nat)
    requires Progresses(x) && end <= |ts| && NotExpr(x, ts, pos, depth) == Ok(e, end) && LogicalOp(x, ts, end) == None
    ensures Level(x, ts, pos, depth, left) == Ok(Join(left, e), end)
  {
    assert Level(x, ts, pos, depth, left) == Rest(x, ts, end, depth, left, e);
  }

  /** What stands between and behind the two operands of a pair. */
  predicate PairMarks(ts: seq<Token>, first: nat, s: Spelling, n: nat, m: nat) {
    var k := |Separator(s)|;
    && (s.Conj? || s.Disj?) && 0 < first && first + n + k + m < |ts|
    && ts[first - 1].LParen? && ts[first + n + k + m].RParen?
    && if k == 1 then ts[first + n] == Separator(s)[0]
       else ts[first + n].LParen? || ts[first + n].NotTok? || ts[first + n].Bang?
  }

  lemma PairOps(x: Lexicon, ts: seq<Token>, first: nat, s: Spelling, n: nat, m: nat)
    requires PairMarks(ts, first, s, n, m) && !x.starts(RParen)
    ensures var k := |Separator(s)|;
            && LogicalOp(x, ts, first + n) == Some((s.Disj?, first + n + k))
            && LogicalOp(x, ts, first + n + k + m) == None
  {
  }

  /** The level inside a group of two operands. */
  lemma {:induction false} PairLevel(x: Lexicon, ts: seq<Token>, first: nat, depth: nat, s: Spelling, n: nat, m: nat)
    requires Progresses(x) && !x.starts(RParen) && PairMarks(ts, first, s, n, m)
    requires ReadAs(x, ts, first, depth, s.l, n) && ReadAs(x, ts, first + n + |Separator(s)|, depth, s.r, m)
    ensures Level(x, ts, first, depth, None) ==
            if depth + Max(Depth(s.l), Depth(s.r)) <= MAX_PAREN_DEPTH then Ok(Tree(s), first + n + |Separator(s)| + m) else Err
  {
    var k, left := |Separator(s)|, Some((Tree(s.l), s.Disj?));
    PairOps(x, ts, first, s, n, m);
    if depth + Depth(s.l) <= MAX_PAREN_DEPTH {
      LevelSteps(x, ts, first, depth, None, Tree(s.l), first + n, s.Disj?, first + n + k);
      if depth + Depth(s.r) <= MAX_PAREN_DEPTH {
        LevelEnds(x, ts, first + n + k, depth, left, Tree(s.r), first + n + k + m);
      }
    }
  }

  /** Two operands in one group, given how each is read. */
  lemma {:induction false} PairReads(x: Lexicon, ts: seq<Token>, at: nat, depth: nat, s: Spelling, n: nat, m: nat)
    requires Progresses(x) && !x.starts(RParen) && depth <= MAX_PAREN_DEPTH && PairMarks(ts, at + 1, s, n, m)
    requires depth < MAX_PAREN_DEPTH ==>
             ReadAs(x, ts, at + 1, depth + 1, s.l, n) && ReadAs(x, ts, at + 1 + n + |Separator(s)|, depth + 1, s.r, m)
    ensures ReadAs(x, ts, at, depth, s, n + |Separator(s)| + m + 2)
  {
    assert NotExpr(x, ts, at, depth) == Atom(x, ts, at, depth);
    if depth < MAX_PAREN_DEPTH {
      assert Atom(x, ts, at, depth) == Close(ts, Level(x, ts, at + 1, depth + 1, None));
      PairLevel(x, ts, at + 1, depth + 1, s, n, m);
    }
  }

  lemma PairSplits(pre: seq<Token>, a: seq<Token>, sep: seq<Token>, b: seq<Token>, post: seq<Token>)
    ensures var ts := pre + Pair(a, sep, b) + post;
            && ts == (pre + [LParen]) + a + (sep + b + [RParen] + post)
            && ts == (pre + [LParen] + a + sep) + b + ([RParen] + post)
            && |ts| == |pre| + |a| + |sep| + |b| + |post| + 2
            && ts[|pre|] == LParen && ts[|pre| + 1 + |a| + |sep| + |b|] == RParen
            && (sep != [] ==> ts[|pre| + 1 + |a|] == sep[0])
            && (sep == [] && b != [] ==> ts[|pre| + 1 + |a|] == b[0])
  {
  }

  lemma {:induction false} TextOpens(x: Lexicon, names: Names, s: Spelling)
    requires Reads(x, names, s)
    ensures Text(names, s) != []
    ensures !s.Plain? ==> Text(names, s)[0].LParen? || Text(names, s)[0].NotTok? || Text(names, s)[0].Bang?
  {
    if s.Plain? { assert NameReads(x, names, s.p); }
  }

  /** Every well-spelled text is read as its tree by the operand grammar, and
      refused exactly when it nests too deep. */
  lemma {:induction false} OperandReadsBack(x: Lexicon, names: Names, s: Spelling, pre: seq<Token>, post: seq<Token>, depth: nat)
    requires Reads(x, names, s) && WellSpelled(s) && depth <= MAX_PAREN_DEPTH && (Closes(s) || Stops(post))
    ensures ReadAs(x, pre + Text(names, s) + post, |pre|, depth, s, |Text(names, s)|)
    decreases s, 2
  {
    var ts := pre + Text(names, s) + post;
    match s
    case Plain(p) => PlainReads(x, names, p, pre, post, depth);
    case Conj(l, r, _) => PairReadsBack(x, names, s, pre, post, depth);
    case Disj(l, r) => PairReadsBack(x, names, s, pre, post, depth);
    case Neg(y, bang) =>
      NegReadsBack(x, names, s, pre, post, depth);
    case Group(y) =>
      assert ts[|pre|] == LParen;
      if depth < MAX_PAREN_DEPTH {
        var pre', post' := pre + [LParen], [RParen] + post;
        assert ts == pre' + Text(names, y) + post';
        OperandReadsBack(x, names, y, pre', post', depth + 1);
      }
      GroupReads(x, ts, |pre|, depth, y, |Text(names, y)|);
  }

  /** One operand in a group, given how it is read. */
  lemma {:induction false} GroupReads(x: Lexicon, ts: seq<Token>, at: nat, depth: nat, y: Spelling, n: nat)
    requires Progresses(x) && !x.starts(RParen) && depth <= MAX_PAREN_DEPTH
    requires at + 1 + n < |ts| && ts[at].LParen? && ts[at + 1 + n].RParen?
    requires depth < MAX_PAREN_DEPTH ==> ReadAs(x, ts, at + 1, depth + 1, y, n)
    ensures ReadAs(x, ts, at, depth, Group(y), n + 2)
  {
    assert NotExpr(x, ts, at, depth) == Atom(x, ts, at, depth);
    if depth < MAX_PAREN_DEPTH {
      var inner := Level(x, ts, at + 1, depth + 1, None);
      assert Atom(x, ts, at, depth) == Close(ts, inner);
      if depth + 1 + Depth(y) <= MAX_PAREN_DEPTH {
        assert LogicalOp(x, ts, at + 1 + n) == None;
        assert inner == Rest(x, ts, at + 1 + n, depth + 1, None, Tree(y));
        assert inner == Ok(Tree(y), at + 1 + n);
      } else {
        assert inner == Err;
      }
    }
  }

  lemma {:induction false} NegReadsBack(x: Lexicon, names: Names, s: Spelling, pre: seq<Token>, post: seq<Token>, depth: nat)
    requires Reads(x, names, s) && WellSpelled(s) && depth <= MAX_PAREN_DEPTH && s.Neg? && (Closes(s) || Stops(post))
    ensures ReadAs(x, pre + Text(names, s) + post, |pre|, depth, s, |Text(names, s)|)
    decreases s, 1
  {
    var pre', ts := pre + [if s.bang then Bang else NotTok], pre + Text(names, s) + post;
    assert ts == pre' + Text(names, s.x) + post && NotAt(ts, |pre|);
    OperandReadsBack(x, names, s.x, pre', post, depth);
  }

  lemma {:induction false} PairIsMarked(x: Lexicon, names: Names, s: Spelling, pre: seq<Token>, post: seq<Token>)
    requires Reads(x, names, s) && WellSpelled(s) && (s.Conj? || s.Disj?)
    ensures PairMarks(pre + Text(names, s) + post, |pre| + 1, s, |Text(names, s.l)|, |Text(names, s.r)|)
  {
    PairSplits(pre, Text(names, s.l), Separator(s), Text(names, s.r), post);
    TextOpens(x, names, s.r);
  }

  lemma {:induction false} LeftReadsBack(x: Lexicon, names: Names, s: Spelling, pre: seq<Token>, post: seq<Token>, depth: nat)
    requires Reads(x, names, s) && WellSpelled(s) && depth <= MAX_PAREN_DEPTH && (s.Conj? || s.Disj?)
    ensures ReadAs(x, pre + Text(names, s) + post, |pre| + 1, depth, s.l, |Text(names, s.l)|)
    decreases s, 0
  {
    var a, sep, b := Text(names, s.l), Separator(s), Text(names, s.r);
    PairSplits(pre, a, sep, b, post);
    OperandReadsBack(x, names, s.l, pre + [LParen], sep + b + [RParen] + post, depth);
  }

  lemma {:induction false} RightReadsBack(x: Lexicon, names: Names, s: Spelling, pre: seq<Token>, post: seq<Token>, depth: nat)
    requires Reads(x, names, s) && WellSpelled(s) && depth <= MAX_PAREN_DEPTH && (s.Conj? || s.Disj?)
    ensures ReadAs(x, pre + Text(names, s) + post, |pre| + 1 + |Text(names, s.l)| + |Separator(s)|, depth, s.r, |Text(names, s.r)|)
    decreases s, 0
  {
    var a, sep, b := Text(names, s.l), Separator(s), Text(names, s.r);
    PairSplits(pre, a, sep, b, post);
    OperandReadsBack(x, names, s.r, pre + [LParen] + a + sep, [RParen] + post, depth);
  }

  lemma {:induction false} PairReadsBack(x: Lexicon, names: Names, s: Spelling, pre: seq<Token>, post: seq<Token>, depth: nat)
    requires Reads(x, names, s) && WellSpelled(s) && depth <= MAX_PAREN_DEPTH && (s.Conj? || s.Disj?)
    ensures ReadAs(x, pre + Text(names, s) + post, |pre|, depth, s, |Text(names, s)|)
    decreases s, 1
  {
    var ts := pre + Text(names, s) + post;
    PairIsMarked(x, names, s, pre, post);
    if depth < MAX_PAREN_DEPTH {
      LeftReadsBack(x, names, s, pre, post, depth + 1);
      RightReadsBack(x, names, s, pre, post, depth + 1);
    }
    PairReads(x, ts, |pre|, depth, s, |Text(names, s.l)|, |Text(names, s.r)|);
  }

  /** The whole input: a well-spelled tree is read back exactly when its
      parentheses nest at most 9995 deep. */
  lemma {:induction false} SpellingReadsBack(x: Lexicon, names: Names, s: Spelling)
    requires Reads(x, names, s) && WellSpelled(s)
    ensures Whole(x, Text(names, s)) == if Depth(s) <= MAX_PAREN_DEPTH then Some(Tree(s)) else None
  {
    var ts := Text(names, s);
    OperandReadsBack(x, names, s, [], [], 0);
    assert [] + ts + [] == ts;
    if Depth(s) <= MAX_PAREN_DEPTH {
      assert Level(x, ts, 0, 0, None) == Rest(x, ts, |ts|, 0, None, Tree(s));
    } else {
      assert Level(x, ts, 0, 0, None) == Err;
    }
  }

  /** Every tree has such a spelling. */
  function Spell(e: Expr): (s: Spelling)
    ensures Tree(s) == e && WellSpelled(s)
  {
    match e
    case Prim(p) => Plain(p)
    case And(l, r) => Conj(Spell(l), Spell(r), true)
    case Or(l, r) => Disj(Spell(l), Spell(r))
    case Not(x) => Neg(Spell(x), false)
  }
}
