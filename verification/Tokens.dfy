// The tokens the parser distinguishes (pktbaffle/src/lexer.rs); every other
// keyword or literal is a `Word`.

module Tokens {

  datatype Token =
    | AndTok | OrTok | NotTok | Bang | LParen | RParen
    | Pipe | Caret | Amp | Shl | Shr | Plus | Minus | Star | Slash
    | Num(n: nat)
    | Word(id: nat)

  /** The token at `pos` is `t`. */
  predicate At(ts: seq<Token>, pos: nat, t: Token) { pos < |ts| && ts[pos] == t }
}
