/** The tokenizer of lex.h / lex.cpp: class `Lex` and its one operation
    `GetToken`, specified by the pure function `NextToken` over the characters
    still to be read. */
module Lexer {
  import opened Chars
  import opened Tokens

  /** The keyword a scanned word stands for, or the identifier code. */
  function KeywordOr(w: string): int
  {
    if w == "def" then TokenDef else if w == "extern" then TokenExtern else TokenIdentifier
  }

  /** One call of `Lex::GetToken` when `s` are the characters still to be
      read (`last_char` first) and `ident`, `num` the payload fields before the
      call: skip whitespace, then read the token in front. */
  function NextToken(s: seq<Byte>, ident: string, num: string): (r: Scan)
    ensures |r.rest| <= |s|
    ensures r.tok != TokenEof ==> |r.rest| < |s|
    ensures r.tok == TokenEof ==> r.rest == []
    decreases |s|, 1
  {
    TokenAt(s[Span(s, Space)..], ident, num)
  }

  /** The token in front of `t`, which does not start with whitespace: an
      identifier or keyword, or a number lexeme; a `#` comment, dropped before
      starting over on the next line; end of input; or one character as
      itself. */
  function TokenAt(t: seq<Byte>, ident: string, num: string): (r: Scan)
    ensures |r.rest| <= |t|
    ensures r.tok != TokenEof ==> |r.rest| < |t|
    ensures r.tok == TokenEof ==> r.rest == []
    decreases |t|, 0
  {
    if t == [] then Scan(TokenEof, ident, num, [])
    else if IsAlpha(t[0]) then
      var n := 1 + Span(t[1..], IdentTail);
      var w := Text(t[..n]);
      Scan(KeywordOr(w), w, num, t[n..])
    else if IsNumberChar(t[0]) then
      var n := Span(t, NumberBody);
      Scan(TokenNumber, ident, Text(t[..n]), t[n..])
    else if t[0] == '#' as int then
      var n := 1 + Span(t[1..], CommentBody);
      if n == |t| then Scan(TokenEof, ident, num, [])
      else NextToken(t[n..], ident, num)
    else Scan(t[0], ident, num, t[1..])
  }

  /** What every call of `NextToken` guarantees, for a call on `s` with
      payload `ident`, `num` that returned `r`: it only consumes input; at end
      of input the payload fields are as they were; `identifier_str` changes
      only with a word token and the number lexeme only with a number token; a
      character token is none of the characters that start another kind of
      token, and every other token is one of the five codes. */
  ghost predicate WellShaped(s: seq<Byte>, ident: string, num: string, r: Scan)
  {
    && |r.rest| <= |s| && r.rest == s[|s| - |r.rest|..]
    && (r.tok == TokenEof ==> r.ident == ident && r.num == num)
    && (r.tok !in {TokenDef, TokenExtern, TokenIdentifier} ==> r.ident == ident)
    && (r.tok != TokenNumber ==> r.num == num)
    && (r.tok >= 0 ==> r.tok < 256 && !IsSpace(r.tok) && !IsAlpha(r.tok)
                       && !IsNumberChar(r.tok) && r.tok != '#' as int)
    && (r.tok < 0 ==> r.tok in {TokenEof, TokenDef, TokenExtern, TokenIdentifier, TokenNumber})
  }

  lemma {:induction false} NextTokenShape(s: seq<Byte>, ident: string, num: string)
    ensures WellShaped(s, ident, num, NextToken(s, ident, num))
    decreases |s|, 1
  {
    var t := s[Span(s, Space)..];
    TokenAtShape(t, ident, num);
    var r := TokenAt(t, ident, num);
    assert s[|s| - |r.rest|..] == t[|t| - |r.rest|..];
  }

  lemma {:induction false} TokenAtShape(t: seq<Byte>, ident: string, num: string)
    requires t == [] || !IsSpace(t[0])
    ensures WellShaped(t, ident, num, TokenAt(t, ident, num))
    decreases |t|, 0
  {
    if t == [] {
    } else if IsAlpha(t[0]) {
      var n := 1 + Span(t[1..], IdentTail);
      assert t[|t| - |t[n..]|..] == t[n..];
    } else if IsNumberChar(t[0]) {
      var n := Span(t, NumberBody);
      assert t[|t| - |t[n..]|..] == t[n..];
    } else if t[0] == '#' as int {
      var n := 1 + Span(t[1..], CommentBody);
      if n < |t| {
        NextTokenShape(t[n..], ident, num);
        var r := NextToken(t[n..], ident, num);
        assert t[|t| - |r.rest|..] == t[n..][|t[n..]| - |r.rest|..];
      }
    } else {
      assert t[|t| - |t[1..]|..] == t[1..];
    }
  }

  /** The tokens successive calls deliver from `s` on, up to end of input:
      end of input is where the stream stops. */
  function TokenStream(s: seq<Byte>, ident: string, num: string): seq<Lexeme>
    decreases |s|, 1
  {
    StreamStep(s, ident, num)
  }

  /** One step of `TokenStream`: the first token, then the stream after it. */
  function StreamStep(s: seq<Byte>, ident: string, num: string): seq<Lexeme>
    decreases |s|, 0
  {
    var r := NextToken(s, ident, num);
    if r.tok == TokenEof then [] else [Lexeme(r.tok, r.ident, r.num)] + TokenStream(r.rest, r.ident, r.num)
  }

  /** One call takes the first token of the stream and leaves the rest; at the
      end of the stream it returns end of input and changes nothing. */
  lemma StreamAdvances(s: seq<Byte>, ident: string, num: string)
    ensures var r := NextToken(s, ident, num);
      var ts := TokenStream(s, ident, num);
      if r.tok == TokenEof then ts == [] && r.ident == ident && r.num == num && r.rest == []
                               && TokenStream(r.rest, r.ident, r.num) == []
      else ts != [] && ts[0] == Lexeme(r.tok, r.ident, r.num) && ts[1..] == TokenStream(r.rest, r.ident, r.num)
  {
    NextTokenShape(s, ident, num);
    assert NextToken([], ident, num).tok == TokenEof;
  }

  /** Leading whitespace is skipped before any token is recognised. */
  lemma SkipsLeadingSpace(s: seq<Byte>, ident: string, num: string)
    ensures NextToken(s, ident, num) == NextToken(s[Span(s, Space)..], ident, num)
  {
    var t := s[Span(s, Space)..];
    SpanUnique(t, Space, 0);
    assert t[0..] == t;
  }

  /** The identifier path of `NextToken`, once no whitespace is left in front. */
  lemma IdentifierPath(t: seq<Byte>, ident: string, num: string)
    requires t != [] && IsAlpha(t[0])
    ensures var n := 1 + Span(t[1..], IdentTail); var w := Text(t[..n]);
            NextToken(t, ident, num) == Scan(KeywordOr(w), w, num, t[n..])
  {
    SpanUnique(t, Space, 0);
    assert t[0..] == t;
  }

  /** The number path of `NextToken`, once no whitespace is left in front. */
  lemma NumberPath(t: seq<Byte>, ident: string, num: string)
    requires t != [] && IsNumberChar(t[0])
    ensures var n := Span(t, NumberBody);
            NextToken(t, ident, num) == Scan(TokenNumber, ident, Text(t[..n]), t[n..])
  {
    SpanUnique(t, Space, 0);
    assert t[0..] == t;
  }

  /** The comment path of `NextToken`, once no whitespace is left in front. */
  lemma CommentPath(t: seq<Byte>, ident: string, num: string)
    requires t != [] && t[0] == '#' as int
    ensures var n := 1 + Span(t[1..], CommentBody);
            NextToken(t, ident, num)
            == if n == |t| then Scan(TokenEof, ident, num, []) else NextToken(t[n..], ident, num)
  {
    SpanUnique(t, Space, 0);
    assert t[0..] == t;
  }

  /** The single-character path of `NextToken`, once no whitespace is left in front. */
  lemma CharPath(t: seq<Byte>, ident: string, num: string)
    requires t != [] && !IsSpace(t[0]) && !IsAlpha(t[0]) && !IsNumberChar(t[0]) && t[0] != '#' as int
    ensures NextToken(t, ident, num) == Scan(t[0], ident, num, t[1..])
  {
    SpanUnique(t, Space, 0);
    assert t[0..] == t;
  }

  /** The lexer: the character source it pulls from with `getchar`, and the
      three fields of lex.h. `num_val` is kept as the number's lexeme. */
  class Lex {
    /** The characters `getchar` delivers, in order; past the end it yields `EOF`. */
    const src: seq<Byte>
    /** How many characters of `src` have been delivered. */
    var pos: nat
    var lastChar: int
    var identifierStr: string
    var numStr: string

    ghost predicate Valid()
      reads this`pos, this`lastChar
    {
      && pos <= |src|
      && (lastChar == EOF ==> pos == |src|)
      && (lastChar == EOF || 0 <= lastChar < 256)
    }

    /** The characters still to be read: `last_char`, then the unread input. */
    ghost function Pending(): seq<Byte>
      reads this`pos, this`lastChar
      requires Valid()
    {
      if lastChar == EOF then [] else [lastChar as Byte] + src[pos..]
    }

    /** `Lex() = default` leaves `last_char` uninitialised, so the model takes
        its first value as a parameter; `identifier_str` starts empty. */
    constructor (input: seq<Byte>, first: Byte)
      ensures Valid() && src == input
      ensures Pending() == [first] + input
      ensures identifierStr == "" && numStr == ""
    {
      src := input;
      pos := 0;
      lastChar := first;
      identifierStr := "";
      numStr := "";
    }

    /** `last_char = getchar()`. */
    method ReadChar()
      requires Valid()
      modifies this
      ensures Valid()
      ensures Pending() == if old(Pending()) == [] then [] else old(Pending())[1..]
      ensures identifierStr == old(identifierStr) && numStr == old(numStr)
    {
      if pos < |src| {
        lastChar := src[pos];
        pos := pos + 1;
      } else {
        lastChar := EOF;
      }
    }

    /** The whitespace loop at the head of `GetToken`. */
    method SkipWhitespace()
      requires Valid()
      modifies this
      ensures Valid() && Pending() == old(Pending())[Span(old(Pending()), Space)..]
      ensures identifierStr == old(identifierStr) && numStr == old(numStr)
    {
      ghost var s := Pending();
      ghost var k := 0;
      while IsSpace(lastChar)
        invariant Valid() && k <= Span(s, Space) && Pending() == s[k..]
        invariant identifierStr == old(identifierStr) && numStr == old(numStr)
        decreases |Pending()|
      {
        SuffixStep(s, k);
        SpanGrows(s, Space, k);
        ReadChar();
        k := k + 1;
      }
      SpanStops(s, Space, k);
    }

    /** The identifier scan: `last_char` and every alphanumeric character after it. */
    method ScanIdentifier()
      requires Valid() && IsAlpha(lastChar)
      modifies this
      ensures Valid()
      ensures var t := old(Pending()); var n := 1 + Span(t[1..], IdentTail);
              identifierStr == Text(t[..n]) && Pending() == t[n..]
      ensures numStr == old(numStr)
    {
      ghost var t := Pending();
      var word := [lastChar as char];
      ReadChar();
      ghost var u := Pending();
      assert u == t[1..];
      ghost var m := 0;
      while IsAlnum(lastChar)
        invariant Valid() && m <= Span(u, IdentTail)
        invariant Pending() == u[m..] && word == Text(t[..m + 1])
        invariant numStr == old(numStr)
        decreases |Pending()|
      {
        SuffixStep(u, m);
        SpanGrows(u, IdentTail, m);
        assert u[m] == t[m + 1];
        word := word + [lastChar as char];
        TextSnoc(t, m + 1);
        ReadChar();
        m := m + 1;
      }
      SpanStops(u, IdentTail, m);
      assert t[m + 1..] == u[m..];
      identifierStr := word;
    }

    /** The number scan: the maximal run of digits and dots, as its lexeme. */
    method ScanNumber() returns (lexeme: string)
      requires Valid() && IsNumberChar(lastChar)
      modifies this
      ensures Valid()
      ensures var t := old(Pending()); var n := Span(t, NumberBody);
              lexeme == Text(t[..n]) && Pending() == t[n..]
      ensures identifierStr == old(identifierStr) && numStr == old(numStr)
    {
      ghost var t := Pending();
      lexeme := [lastChar as char];
      ReadChar();
      ghost var n := 1;
      while IsNumberChar(lastChar)
        invariant Valid() && 1 <= n <= Span(t, NumberBody)
        invariant Pending() == t[n..] && lexeme == Text(t[..n])
        invariant identifierStr == old(identifierStr) && numStr == old(numStr)
        decreases |Pending()|
      {
        SuffixStep(t, n);
        SpanGrows(t, NumberBody, n);
        lexeme := lexeme + [lastChar as char];
        TextSnoc(t, n);
        ReadChar();
        n := n + 1;
      }
      SpanStops(t, NumberBody, n);
    }

    /** The comment loop: reads up to the line terminator or the end of input. */
    method SkipComment()
      requires Valid() && lastChar == '#' as int
      modifies this
      ensures Valid()
      ensures var t := old(Pending()); Pending() == t[1 + Span(t[1..], CommentBody)..]
      ensures identifierStr == old(identifierStr) && numStr == old(numStr)
    {
      ghost var t := Pending();
      ReadChar();
      ghost var u := Pending();
      ghost var m := 0;
      while lastChar != EOF && !IsLineEnd(lastChar)
        invariant Valid() && m <= Span(u, CommentBody)
        invariant Pending() == u[m..]
        invariant identifierStr == old(identifierStr) && numStr == old(numStr)
        decreases |Pending()|
      {
        SuffixStep(u, m);
        SpanGrows(u, CommentBody, m);
        ReadChar();
        m := m + 1;
      }
      SpanStops(u, CommentBody, m);
      assert u == t[1..] && t[1 + m..] == u[m..];
    }

    /** The identifier path of `GetToken`: scan the word, then map it to a keyword. */
    method LexWord() returns (tok: int)
      requires Valid() && IsAlpha(lastChar)
      modifies this
      ensures Valid()
      ensures Scan(tok, identifierStr, numStr, Pending())
              == NextToken(old(Pending()), old(identifierStr), old(numStr))
    {
      IdentifierPath(Pending(), identifierStr, numStr);
      ScanIdentifier();
      if identifierStr == "def" {
        return TokenDef;
      } else if identifierStr == "extern" {
        return TokenExtern;
      } else {
        return TokenIdentifier;
      }
    }

    /** The number path of `GetToken`: the lexeme becomes the number payload. */
    method LexNumber() returns (tok: int)
      requires Valid() && IsNumberChar(lastChar)
      modifies this
      ensures Valid()
      ensures Scan(tok, identifierStr, numStr, Pending())
              == NextToken(old(Pending()), old(identifierStr), old(numStr))
    {
      NumberPath(Pending(), identifierStr, numStr);
      var lexeme := ScanNumber();
      numStr := lexeme;
      return TokenNumber;
    }

    /** `Lex::GetToken`. */
    method GetToken() returns (tok: int)
      requires Valid()
      modifies this
      ensures Valid()
      ensures Scan(tok, identifierStr, numStr, Pending())
              == NextToken(old(Pending()), old(identifierStr), old(numStr))
      decreases |Pending()|
    {
      SkipsLeadingSpace(Pending(), identifierStr, numStr);
      SkipWhitespace();
      if IsAlpha(lastChar) {
        tok := LexWord();
        return;
      }
      if IsDigit(lastChar) || lastChar == '.' as int {
        tok := LexNumber();
        return;
      }
      if lastChar == '#' as int {
        CommentPath(Pending(), identifierStr, numStr);
        SkipComment();
        if lastChar != EOF {
          tok := GetToken();
          return;
        }
      }
      if lastChar == EOF {
        return TokenEof;
      }
      CharPath(Pending(), identifierStr, numStr);
      tok := lastChar;
      ReadChar();
    }
  }
}
