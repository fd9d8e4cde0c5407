/** The eight instructions of the language and the fixed character mapping
    between them and their source symbols (src/main.rs, enum Token and the
    match in Parser::parse). */
module Tokens {

  datatype Option<+T> = None | Some(value: T)

  datatype Token = Plus | Minus | Right | Left | BeginLoop | EndLoop | Input | Output

  /** The symbol a source character stands for, if any. */
  function Symbol(c: char): (r: Option<Token>)
    ensures r.Some? <==> c in "+-><[],."
  {
    match c
    case '+' => Some(Plus)
    case '-' => Some(Minus)
    case '>' => Some(Right)
    case '<' => Some(Left)
    case '[' => Some(BeginLoop)
    case ']' => Some(EndLoop)
    case ',' => Some(Input)
    case '.' => Some(Output)
    case _ => None
  }

  /** The source character written for a token: the inverse of `Symbol`. */
  function Glyph(t: Token): (c: char)
    ensures Symbol(c) == Some(t)
  {
    match t
    case Plus => '+'
    case Minus => '-'
    case Right => '>'
    case Left => '<'
    case BeginLoop => '['
    case EndLoop => ']'
    case Input => ','
    case Output => '.'
  }

  /** `Symbol` is injective on the characters it recognises, so `Glyph`
      recovers the character a token was read from. */
  lemma GlyphOfSymbol(c: char)
    requires Symbol(c).Some?
    ensures Glyph(Symbol(c).value) == c
  {
  }

  /** The source text that lexes to the given tokens. */
  function Render(ts: seq<Token>): (s: string)
    ensures |s| == |ts|
    ensures forall i :: 0 <= i < |ts| ==> Symbol(s[i]) == Some(ts[i])
  {
    seq(|ts|, i requires 0 <= i < |ts| => Glyph(ts[i]))
  }
}
