/** The token codes of lex.h and what one call of a tokenizer yields.
    A token is an `int`: one of the five negative codes below, or the code
    of a single character returned as itself. */
module Tokens {
  import opened Chars

  const TokenEof: int := -1
  const TokenDef: int := -2
  const TokenExtern: int := -3
  const TokenIdentifier: int := -4
  const TokenNumber: int := -5

  /** A token as a tagged value. */
  datatype Token = Eof | Def | Extern | Identifier | Number | Char(c: Byte)

  /** The `int` the tokenizer returns for a token. */
  function Encode(t: Token): int
  {
    match t
    case Eof => TokenEof
    case Def => TokenDef
    case Extern => TokenExtern
    case Identifier => TokenIdentifier
    case Number => TokenNumber
    case Char(c) => c
  }

  /** Reads a returned `int` back as a token: defined on the five codes and on every character code. */
  function Decode(code: int): (t: Token)
    requires -5 <= code < 256
  {
    if code == TokenEof then Eof
    else if code == TokenDef then Def
    else if code == TokenExtern then Extern
    else if code == TokenIdentifier then Identifier
    else if code == TokenNumber then Number
    else Char(code)
  }

  /** The five codes are pairwise distinct and negative, so none of them can be
      mistaken for a character: decoding inverts encoding on every token. */
  lemma EncodeIsInjective(t: Token)
    ensures -5 <= Encode(t) < 256 && Decode(Encode(t)) == t
    ensures !t.Char? ==> Encode(t) < 0
  {
  }

  /** The lexer's end-of-input code is C's `EOF`, so its test on `last_char`
      and the enumeration agree. */
  lemma EofIsCEof()
    ensures TokenEof == EOF && Decode(EOF) == Eof
  {
  }

  /** What one call of a tokenizer leaves behind: the token it returns, the
      `identifier_str` and number lexeme fields after the call, and the
      characters still to be read (the lookahead character first). */
  datatype Scan = Scan(tok: int, ident: string, num: string, rest: seq<Byte>)

  /** A token as a parser receives it: the code returned and the payload
      fields as they stand right after the call. */
  datatype Lexeme = Lexeme(tok: int, ident: string, num: string)
}
