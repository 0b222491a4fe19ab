/** What lex.cpp's tokenizer does with each kind of lexeme, stated over
    `Lexer.NextToken` (and so, through `Lex.GetToken`'s contract, over the
    class). */
module LexerFacts {
  import opened Chars
  import opened Tokens
  import opened Lexer

  /** Any run of whitespace in front of the input is skipped. */
  lemma WhitespaceSkipped(w: seq<Byte>, u: seq<Byte>, ident: string, num: string)
    requires forall i :: 0 <= i < |w| ==> IsSpace(w[i])
    ensures NextToken(w + u, ident, num) == NextToken(u, ident, num)
  {
    SpanPastPrefix(w, u, Space);
    SkipsLeadingSpace(w + u, ident, num);
    SkipsLeadingSpace(u, ident, num);
    assert (w + u)[|w| + Span(u, Space)..] == u[Span(u, Space)..];
  }

  /** An alphabetic start yields the maximal `[alpha][alnum]*` run: its text is
      the new `identifier_str`, its token the keyword code for `def` and
      `extern` and the identifier code for every other word, and the lookahead
      is left on the first character after the run. */
  lemma IdentifierToken(w: seq<Byte>, u: seq<Byte>, ident: string, num: string)
    requires w != [] && IsAlpha(w[0])
    requires forall i :: 0 <= i < |w| ==> IsAlnum(w[i])
    requires u == [] || !IsAlnum(u[0])
    ensures NextToken(w + u, ident, num) == Scan(KeywordOr(Text(w)), Text(w), num, u)
    ensures Text(w) == "def" ==> NextToken(w + u, ident, num).tok == TokenDef
    ensures Text(w) == "extern" ==> NextToken(w + u, ident, num).tok == TokenExtern
    ensures Text(w) != "def" && Text(w) != "extern" ==> NextToken(w + u, ident, num).tok == TokenIdentifier
  {
    var t := w + u;
    IdentifierPath(t, ident, num);
    SpanUnique(t[1..], IdentTail, |w| - 1);
    assert t[..|w|] == w && t[|w|..] == u;
  }

  /** Only the exact words are keywords: `define` is an identifier. */
  lemma DefineIsAnIdentifier(ident: string, num: string)
    ensures NextToken(Bytes("define"), ident, num) == Scan(TokenIdentifier, "define", num, [])
  {
    var w := Bytes("define");
    IdentifierToken(w, [], ident, num);
    assert w + [] == w;
    TextIsBytes(w);
    assert Text(w) == "define";
  }

  /** A digit or `.` start yields the maximal run of digits and dots as the
      number lexeme, however many dots it holds; the lookahead is the first
      character after the run and `identifier_str` is untouched. */
  lemma NumberToken(w: seq<Byte>, u: seq<Byte>, ident: string, num: string)
    requires w != []
    requires forall i :: 0 <= i < |w| ==> IsNumberChar(w[i])
    requires u == [] || !IsNumberChar(u[0])
    ensures NextToken(w + u, ident, num) == Scan(TokenNumber, ident, Text(w), u)
  {
    var t := w + u;
    NumberPath(t, ident, num);
    SpanUnique(t, NumberBody, |w|);
    assert t[..|w|] == w && t[|w|..] == u;
  }

  /** `1.2.3` is one number lexeme: the dots are not counted. */
  lemma SeveralDotsAreOneNumber(ident: string, num: string)
    ensures NextToken(Bytes("1.2.3"), ident, num) == Scan(TokenNumber, ident, "1.2.3", [])
  {
    var w := Bytes("1.2.3");
    NumberToken(w, [], ident, num);
    assert w + [] == w;
    TextIsBytes(w);
    assert Text(w) == "1.2.3";
  }

  /** A `#` comment ended by a line terminator produces no token: the call
      returns whatever follows the line. */
  lemma CommentSkipped(body: seq<Byte>, e: Byte, u: seq<Byte>, ident: string, num: string)
    requires forall i :: 0 <= i < |body| ==> !IsLineEnd(body[i])
    requires IsLineEnd(e)
    ensures NextToken(['#' as Byte] + body + [e] + u, ident, num) == NextToken(u, ident, num)
  {
    var t := ['#' as Byte] + body + [e] + u;
    CommentLayout(body, e, u);
    CommentPath(t, ident, num);
    WhitespaceSkipped([e], u, ident, num);
  }

  /** Where a comment ended by a line terminator stops, and what follows it. */
  lemma CommentLayout(body: seq<Byte>, e: Byte, u: seq<Byte>)
    requires forall i :: 0 <= i < |body| ==> !IsLineEnd(body[i])
    requires IsLineEnd(e)
    ensures var t := ['#' as Byte] + body + [e] + u;
      && t[0] == '#' as int && 1 + Span(t[1..], CommentBody) == 1 + |body| < |t|
      && t[1 + |body|..] == [e] + u
  {
    var v := [e] + u;
    var t := ['#' as Byte] + (body + v);
    assert ['#' as Byte] + body + [e] + u == t;
    assert t[1..] == body + v;
    SpanPastPrefix(body, v, CommentBody);
    assert Span(v, CommentBody) == 0;
    assert t[1 + |body|..] == v;
  }

  /** A `#` comment running to the end of the input ends the input. */
  lemma CommentToEndOfInput(body: seq<Byte>, ident: string, num: string)
    requires forall i :: 0 <= i < |body| ==> !IsLineEnd(body[i])
    ensures NextToken(['#' as Byte] + body, ident, num) == Scan(TokenEof, ident, num, [])
  {
    var t := ['#' as Byte] + body;
    CommentPath(t, ident, num);
    assert t[1..] == body;
    SpanUnique(t[1..], CommentBody, |body|);
  }

  /** At the end of the input the end-of-input code comes back with the state
      unchanged, so every later call returns it again. */
  lemma EndOfInputIsSticky(w: seq<Byte>, ident: string, num: string)
    requires forall i :: 0 <= i < |w| ==> IsSpace(w[i])
    ensures NextToken(w, ident, num) == Scan(TokenEof, ident, num, [])
    ensures var r := NextToken(w, ident, num); NextToken(r.rest, r.ident, r.num) == r
  {
    WhitespaceSkipped(w, [], ident, num);
    assert w + [] == w;
  }

  /** Any other character is returned as its own code, and the lookahead
      moves on by exactly one character. */
  lemma CharacterToken(c: Byte, u: seq<Byte>, ident: string, num: string)
    requires !IsSpace(c) && !IsAlpha(c) && !IsNumberChar(c) && c != '#' as int
    ensures NextToken([c] + u, ident, num) == Scan(c, ident, num, u)
  {
    CharPath([c] + u, ident, num);
    assert ([c] + u)[1..] == u;
  }

  /** The token stream is the first token followed by the stream that the
      rest of the input delivers. */
  lemma StreamStartsWith(s: seq<Byte>, ident: string, num: string, r: Scan)
    requires NextToken(s, ident, num) == r && r.tok != TokenEof
    ensures TokenStream(s, ident, num) == [Lexeme(r.tok, r.ident, r.num)] + TokenStream(r.rest, r.ident, r.num)
  {
    StreamAdvances(s, ident, num);
    var ts := TokenStream(s, ident, num);
    assert ts == [ts[0]] + ts[1..];
  }
}
