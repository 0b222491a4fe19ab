/** `gettok` of toy.cpp, the older copy of the tokenizer. It keeps its state in
    the static `LastChar` and the globals `Identifier` and `NumVal`: the same
    three pieces of state as lex.h's `Lex` (`last_char`, `identifier_str`,
    `num_val`), so it is modelled as a method over a `Lex` object, specified
    by the pure function `ToyNextToken`. It differs from `Lex::GetToken` in
    one branch only: after a `#` comment it does not start over, but returns
    the line terminator as a character token. */
module ToyLexer {
  import opened Chars
  import opened Tokens
  import opened Lexer

  /** One call of `gettok` when `s` are the characters still to be read
      (`LastChar` first) and `ident`, `num` the globals before the call: skip
      whitespace, then read the token in front. */
  function ToyNextToken(s: seq<Byte>, ident: string, num: string): (r: Scan)
    ensures |r.rest| <= |s|
    ensures r.tok != TokenEof ==> |r.rest| < |s|
    ensures r.tok == TokenEof ==> r.rest == [] && r.ident == ident && r.num == num
  {
    ToyTokenAt(s[Span(s, Space)..], ident, num)
  }

  /** The token in front of `t`, which does not start with whitespace. A `#`
      comment is read up to its line terminator, which is then the token. */
  function ToyTokenAt(t: seq<Byte>, ident: string, num: string): (r: Scan)
    ensures |r.rest| <= |t|
    ensures r.tok != TokenEof ==> |r.rest| < |t|
    ensures r.tok == TokenEof ==> r.rest == [] && r.ident == ident && r.num == num
  {
    if t == [] then Scan(TokenEof, ident, num, [])
    else if IsAlpha(t[0]) then
      var n := 1 + Span(t[1..], IdentTail);
      var w := Text(t[..n]);
      Scan(KeywordOr(w), w, num, t[n..])
    else if IsNumberChar(t[0]) then
      var n := Span(t, NumberBody);
      Scan(TokenNumber, ident, Text(t[..n]), t[n..])
    else if t[0] == '#' as int then
      var n := 1 + Span(t[1..], CommentBody);
      if n == |t| then Scan(TokenEof, ident, num, [])
      else Scan(t[n], ident, num, t[n + 1..])
    else Scan(t[0], ident, num, t[1..])
  }

  /** The tokens successive calls of `gettok` deliver from `s` on, up to end
      of input. */
  function ToyTokenStream(s: seq<Byte>, ident: string, num: string): seq<Lexeme>
    decreases |s|, 1
  {
    ToyStreamStep(s, ident, num)
  }

  /** One step of `ToyTokenStream`: the first token, then the stream after it. */
  function ToyStreamStep(s: seq<Byte>, ident: string, num: string): seq<Lexeme>
    decreases |s|, 0
  {
    var r := ToyNextToken(s, ident, num);
    if r.tok == TokenEof then [] else [Lexeme(r.tok, r.ident, r.num)] + ToyTokenStream(r.rest, r.ident, r.num)
  }

  /** One call takes the first token of the stream and leaves the rest; at the
      end of the stream it returns end of input and changes nothing. */
  lemma ToyStreamAdvances(s: seq<Byte>, ident: string, num: string)
    ensures var r := ToyNextToken(s, ident, num);
      var ts := ToyTokenStream(s, ident, num);
      if r.tok == TokenEof then ts == [] && ToyTokenStream(r.rest, r.ident, r.num) == []
      else ts != [] && ts[0] == Lexeme(r.tok, r.ident, r.num) && ts[1..] == ToyTokenStream(r.rest, r.ident, r.num)
  {
    assert ToyNextToken([], ident, num).tok == TokenEof;
  }

  /** Leading whitespace is skipped before any token is recognised. */
  lemma ToySkipsLeadingSpace(s: seq<Byte>, ident: string, num: string)
    ensures ToyNextToken(s, ident, num) == ToyNextToken(s[Span(s, Space)..], ident, num)
  {
    var t := s[Span(s, Space)..];
    SpanUnique(t, Space, 0);
    assert t[0..] == t;
  }

  /** Outside comments `gettok` and `Lex::GetToken` agree on every input:
      whitespace, identifiers and keywords, number lexemes, end of input and
      single characters. */
  lemma AgreesOutsideComments(s: seq<Byte>, ident: string, num: string)
    requires var t := s[Span(s, Space)..]; t == [] || t[0] != '#' as int
    ensures ToyNextToken(s, ident, num) == NextToken(s, ident, num)
  {
  }

  /** On input without `#`, the two snapshots' tokenizers deliver the same
      tokens. */
  lemma {:induction false} SameStreamWithoutComments(s: seq<Byte>, ident: string, num: string)
    requires forall i :: 0 <= i < |s| ==> s[i] != '#' as int
    ensures ToyTokenStream(s, ident, num) == TokenStream(s, ident, num)
    decreases |s|
  {
    var k := Span(s, Space);
    assert s[k..] == [] || s[k..][0] == s[k];
    AgreesOutsideComments(s, ident, num);
    var r := NextToken(s, ident, num);
    NextTokenShape(s, ident, num);
    StreamAdvances(s, ident, num);
    ToyStreamAdvances(s, ident, num);
    if r.tok != TokenEof {
      forall i | 0 <= i < |r.rest| ensures r.rest[i] != '#' as int {
        assert r.rest[i] == s[|s| - |r.rest| + i];
      }
      SameStreamWithoutComments(r.rest, r.ident, r.num);
    }
  }

  /** After a `#` comment ended by a line terminator, `gettok` returns the
      terminator itself, where `Lex::GetToken` goes on to the next line. */
  lemma CommentYieldsTerminator(body: seq<Byte>, e: Byte, u: seq<Byte>, ident: string, num: string)
    requires forall i :: 0 <= i < |body| ==> !IsLineEnd(body[i])
    requires IsLineEnd(e)
    ensures ToyNextToken(['#' as Byte] + body + [e] + u, ident, num) == Scan(e, ident, num, u)
  {
    var v := [e] + u;
    var t := ['#' as Byte] + (body + v);
    assert ['#' as Byte] + body + [e] + u == t;
    SpanUnique(t, Space, 0);
    assert t[0..] == t;
    assert t[1..] == body + v;
    SpanPastPrefix(body, v, CommentBody);
    assert Span(v, CommentBody) == 0;
    assert t[1 + |body|] == e && t[2 + |body|..] == u;
  }

  /** A `#` comment running to the end of the input ends the input. */
  lemma ToyCommentToEndOfInput(body: seq<Byte>, ident: string, num: string)
    requires forall i :: 0 <= i < |body| ==> !IsLineEnd(body[i])
    ensures ToyNextToken(['#' as Byte] + body, ident, num) == Scan(TokenEof, ident, num, [])
  {
    var t := ['#' as Byte] + body;
    SpanUnique(t, Space, 0);
    assert t[0..] == t;
    assert t[1..] == body;
    SpanUnique(t[1..], CommentBody, |body|);
  }

  /** The comment path of `ToyNextToken`, once no whitespace is left in front. */
  lemma ToyCommentPath(t: seq<Byte>, ident: string, num: string)
    requires t != [] && t[0] == '#' as int
    ensures var n := 1 + Span(t[1..], CommentBody);
            ToyNextToken(t, ident, num)
            == if n == |t| then Scan(TokenEof, ident, num, []) else Scan(t[n], ident, num, t[n + 1..])
  {
    SpanUnique(t, Space, 0);
    assert t[0..] == t;
  }

  /** `gettok`, run on the lexer state it shares with `Lex`; outside comments
      it takes the same paths as `Lex::GetToken`. `LastChar` starts as `' '`
      (the constructor's first character). */
  method GetTok(lx: Lex) returns (tok: int)
    requires lx.Valid()
    modifies lx
    ensures lx.Valid()
    ensures Scan(tok, lx.identifierStr, lx.numStr, lx.Pending())
            == ToyNextToken(old(lx.Pending()), old(lx.identifierStr), old(lx.numStr))
  {
    ToySkipsLeadingSpace(lx.Pending(), lx.identifierStr, lx.numStr);
    lx.SkipWhitespace();
    SpanUnique(lx.Pending(), Space, 0);
    assert lx.Pending()[0..] == lx.Pending();
    if IsAlpha(lx.lastChar) {
      AgreesOutsideComments(lx.Pending(), lx.identifierStr, lx.numStr);
      tok := lx.LexWord();
    } else if IsDigit(lx.lastChar) || lx.lastChar == '.' as int {
      AgreesOutsideComments(lx.Pending(), lx.identifierStr, lx.numStr);
      tok := lx.LexNumber();
    } else {
      tok := CommentOrChar(lx);
    }
  }

  /** The tail of `gettok` once no whitespace, word or number is in front: an
      optional comment, then end of input or one character. */
  method CommentOrChar(lx: Lex) returns (tok: int)
    requires lx.Valid() && !IsSpace(lx.lastChar) && !IsAlpha(lx.lastChar) && !IsNumberChar(lx.lastChar)
    modifies lx
    ensures lx.Valid()
    ensures Scan(tok, lx.identifierStr, lx.numStr, lx.Pending())
            == ToyNextToken(old(lx.Pending()), old(lx.identifierStr), old(lx.numStr))
  {
    SpanUnique(lx.Pending(), Space, 0);
    assert lx.Pending()[0..] == lx.Pending();
    if lx.lastChar == '#' as int {
      ToyCommentPath(lx.Pending(), lx.identifierStr, lx.numStr);
      lx.SkipComment();
    }
    if lx.lastChar == EOF {
      return TokenEof;
    }
    tok := lx.lastChar;
    lx.ReadChar();
  }
}
