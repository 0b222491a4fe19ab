/** Worked parses with parser.cpp's functions, on the operator table that
    test.cpp installs before parsing. Each example starts from the state
    `GetNextToken` leaves with the first token current; the lexemes the lexer
    has still to deliver are listed the way `Lexer.TokenStream` delivers
    them. */
module ParserExamples {
  import opened Chars
  import opened Tokens
  import opened Lexer
  import opened Ast
  import opened ParserSpec
  import opened LexerFacts
  import opened ParserFacts

  /** The table test.cpp's `main` fills: `<` 10, `+` and `-` 20, `*` 40. */
  const TestTable: map<char, int> := map['<' := 10, '+' := 20, '-' := 20, '*' := 40]

  /** A lexeme as delivered after an identifier `n` has been read. */
  function Id(n: string): Lexeme { Lexeme(TokenIdentifier, n, "") }

  /** A single-character token, `n` being the last identifier read. */
  function Ch(c: char, n: string, num: string): Lexeme { Lexeme(c as int, n, num) }

  /** A number lexeme `v`, `n` being the last identifier read. */
  function Num(n: string, v: string): Lexeme { Lexeme(TokenNumber, n, v) }

  /** The characters `a+b*c` are the lexemes identifier, `+`, identifier, `*`,
      identifier. */
  lemma StreamOfPlusTimes()
    ensures TokenStream(Bytes("a+b*c"), "", "")
         == [Id("a"), Ch('+', "a", ""), Id("b"), Ch('*', "b", ""), Id("c")]
  {
    assert Bytes("a+b*c") == [97, 43, 98, 42, 99];
    StreamFromA(Bytes("a+b*c"));
  }

  lemma StreamFromA(s: seq<Byte>)
    requires s == [97, 43, 98, 42, 99]
    ensures TokenStream(s, "", "")
         == [Id("a"), Ch('+', "a", ""), Id("b"), Ch('*', "b", ""), Id("c")]
  {
    var w: seq<Byte>, u: seq<Byte> := [97], s[1..];
    IdentifierToken(w, u, "", "");
    TextIsBytes(w);
    assert Text(w) == "a";
    assert w + u == s;
    StreamStartsWith(s, "", "", Scan(TokenIdentifier, "a", "", u));
    StreamFromPlus(u);
  }

  lemma StreamFromPlus(s: seq<Byte>)
    requires s == [43, 98, 42, 99]
    ensures TokenStream(s, "a", "") == [Ch('+', "a", ""), Id("b"), Ch('*', "b", ""), Id("c")]
  {
    var u := s[1..];
    CharacterToken(43, u, "a", "");
    assert [43] + u == s;
    StreamStartsWith(s, "a", "", Scan(43, "a", "", u));
    StreamFromB(u);
  }

  lemma StreamFromB(s: seq<Byte>)
    requires s == [98, 42, 99]
    ensures TokenStream(s, "a", "") == [Id("b"), Ch('*', "b", ""), Id("c")]
  {
    var w: seq<Byte>, u: seq<Byte> := [98], s[1..];
    IdentifierToken(w, u, "a", "");
    TextIsBytes(w);
    assert Text(w) == "b";
    assert w + u == s;
    StreamStartsWith(s, "a", "", Scan(TokenIdentifier, "b", "", u));
    StreamFromTimes(u);
  }

  lemma StreamFromTimes(s: seq<Byte>)
    requires s == [42, 99]
    ensures TokenStream(s, "b", "") == [Ch('*', "b", ""), Id("c")]
  {
    var u := s[1..];
    CharacterToken(42, u, "b", "");
    assert [42] + u == s;
    StreamStartsWith(s, "b", "", Scan(42, "b", "", u));
    var w: seq<Byte>, e: seq<Byte> := u, u[1..];
    IdentifierToken(w, e, "b", "");
    TextIsBytes(w);
    assert Text(w) == "c";
    assert w + e == u;
    StreamStartsWith(u, "b", "", Scan(TokenIdentifier, "c", "", e));
    StreamAdvances(e, "c", "");
  }

  /** The right operand `b*c` of a `+`: `*` binds tighter, so the operand
      absorbs it. */
  lemma TimesOperand(fuel: nat)
    requires fuel >= 4
    ensures ParseRhs(20, PState(TokenIdentifier, "b", "", [Ch('*', "b", ""), Id("c")], TestTable, []), fuel)
         == Step(Some(Binary('*', Variable("b"), Variable("c"))),
                 PState(TokenEof, "c", "", [], TestTable, []))
  {
    var st := PState(TokenIdentifier, "b", "", [Ch('*', "b", ""), Id("c")], TestTable, []);
    PrimaryIsVariable(st, fuel);
    var n1 := GetNextToken(st);
    RhsClimbs(20, st, fuel, Variable("b"), n1);
    var t1 := GetBinopPrecedence(n1);
    var s2 := GetNextToken(t1.st);
    PrimaryIsVariable(s2, fuel - 1);
    var n2 := GetNextToken(s2);
    RhsIsPrimary(40, s2, fuel - 1, Variable("c"), n2);
    BinOpRhsFolds(21, Variable("b"), t1.st, fuel, Variable("c"), GetBinopPrecedence(n2).st);
    BinOpRhsStopsBelow(21, Binary('*', Variable("b"), Variable("c")), GetBinopPrecedence(n2).st, fuel - 1);
  }

  /** `a+b*c` groups as `a+(b*c)`. */
  lemma PlusTimes(fuel: nat)
    requires fuel >= 6
    ensures ParseExpression(PState(TokenIdentifier, "a", "",
                                   [Ch('+', "a", ""), Id("b"), Ch('*', "b", ""), Id("c")], TestTable, []), fuel)
         == Step(Some(Binary('+', Variable("a"), Binary('*', Variable("b"), Variable("c")))),
                 PState(TokenEof, "c", "", [], TestTable, []))
  {
    var st := PState(TokenIdentifier, "a", "", [Ch('+', "a", ""), Id("b"), Ch('*', "b", ""), Id("c")], TestTable, []);
    PrimaryIsVariable(st, fuel - 1);
    var n0 := GetNextToken(st);
    ExpressionIsClimb(st, fuel, Variable("a"), n0);
    var t0 := GetBinopPrecedence(n0);
    TimesOperand(fuel - 2);
    var last := PState(TokenEof, "c", "", [], TestTable, []);
    BinOpRhsFolds(0, Variable("a"), n0, fuel - 1, Binary('*', Variable("b"), Variable("c")), last);
    BinOpRhsStopsBelow(0, Binary('+', Variable("a"), Binary('*', Variable("b"), Variable("c"))), last, fuel - 2);
  }

  /** `a+b+c` groups as `(a+b)+c`: an operator of equal precedence ends the
      right operand. */
  lemma PlusPlus(fuel: nat)
    requires fuel >= 6
    ensures ParseExpression(PState(TokenIdentifier, "a", "",
                                   [Ch('+', "a", ""), Id("b"), Ch('+', "b", ""), Id("c")], TestTable, []), fuel)
         == Step(Some(Binary('+', Binary('+', Variable("a"), Variable("b")), Variable("c"))),
                 PState(TokenEof, "c", "", [], TestTable, []))
  {
    var st := PState(TokenIdentifier, "a", "", [Ch('+', "a", ""), Id("b"), Ch('+', "b", ""), Id("c")], TestTable, []);
    PrimaryIsVariable(st, fuel - 1);
    var n0 := GetNextToken(st);
    ExpressionIsClimb(st, fuel, Variable("a"), n0);
    var s1 := GetNextToken(GetBinopPrecedence(n0).st);
    PrimaryIsVariable(s1, fuel - 2);
    var n1 := GetNextToken(s1);
    RhsIsPrimary(20, s1, fuel - 2, Variable("b"), n1);
    BinOpRhsFolds(0, Variable("a"), n0, fuel - 1, Variable("b"), n1);
    var ab := Binary('+', Variable("a"), Variable("b"));
    var s2 := GetNextToken(GetBinopPrecedence(n1).st);
    PrimaryIsVariable(s2, fuel - 3);
    var n2 := GetNextToken(s2);
    RhsIsPrimary(20, s2, fuel - 3, Variable("c"), n2);
    BinOpRhsFolds(0, ab, n1, fuel - 2, Variable("c"), n2);
    BinOpRhsStopsBelow(0, Binary('+', ab, Variable("c")), n2, fuel - 3);
  }

  /** After priming with `GetNextToken`, the source text `a+b*c` parses as
      `a+(b*c)`. */
  lemma PlusTimesFromText(cur: int, fuel: nat)
    requires fuel >= 6
    ensures ParseExpression(GetNextToken(PState(cur, "", "", TokenStream(Bytes("a+b*c"), "", ""), TestTable, [])), fuel).out
         == Some(Binary('+', Variable("a"), Binary('*', Variable("b"), Variable("c"))))
  {
    StreamOfPlusTimes();
    PlusTimes(fuel);
  }

  /** A number argument followed by a token that is no operator is the
      number alone. */
  lemma NumberArgument(st: PState, fuel: nat)
    requires fuel >= 2 && st.cur == TokenNumber
    requires GetBinopPrecedence(GetNextToken(st)).value < 0
    ensures ParseExpression(st, fuel)
         == Step(Some(Expr.Number(st.num)), GetBinopPrecedence(GetNextToken(st)).st)
  {
    PrimaryIsNumber(st, fuel - 1);
    ExpressionIsClimb(st, fuel, Expr.Number(st.num), GetNextToken(st));
    BinOpRhsStopsBelow(0, Expr.Number(st.num), GetNextToken(st), fuel - 1);
  }

  /** `f(1;2)`: the `;` is reported as a bad separator and eaten like a
      comma, so the call still gets both arguments. Looking up `;` and `)`
      as operators inserts both into the table. */
  lemma BadSeparatorIsEaten(fuel: nat)
    requires fuel >= 8
    ensures var r := ParseExpression(PState(TokenIdentifier, "f", "",
              [Ch('(', "f", ""), Num("f", "1"), Ch(';', "f", "1"), Num("f", "2"), Ch(')', "f", "2")],
              TestTable, []), fuel);
      && r.out == Some(Call("f", [Expr.Number("1"), Expr.Number("2")]))
      && r.st == PState(TokenEof, "f", "2", [], TestTable[';' := 0][')' := 0], [BadSeparator])
  {
    var st := PState(TokenIdentifier, "f", "",
              [Ch('(', "f", ""), Num("f", "1"), Ch(';', "f", "1"), Num("f", "2"), Ch(')', "f", "2")],
              TestTable, []);
    var st2 := GetNextToken(GetNextToken(st));
    NumberArgument(st2, fuel - 4);
    var a1 := ParseExpression(st2, fuel - 4);
    var st3 := GetNextToken(Log(a1.st, BadSeparator));
    NumberArgument(st3, fuel - 5);
    var a2 := ParseExpression(st3, fuel - 5);
    assert a2.st.cur == ')' as int;
    assert [Expr.Number("1")] + [Expr.Number("2")] == [Expr.Number("1"), Expr.Number("2")];
    assert ParseArgs([Expr.Number("1")], st3, fuel - 4) == Step(Some([Expr.Number("1"), Expr.Number("2")]), a2.st);
    assert a1.st.cur == ';' as int && [] + [Expr.Number("1")] == [Expr.Number("1")];
    assert ParseArgs([], st2, fuel - 3) == Step(Some([Expr.Number("1"), Expr.Number("2")]), a2.st);
    var call := Call("f", [Expr.Number("1"), Expr.Number("2")]);
    var next := GetNextToken(a2.st);
    assert ParsePrimary(st, fuel - 1) == Step(Some(call), next);
    ExpressionIsClimb(st, fuel, call, next);
    BinOpRhsStopsBelow(0, call, next, fuel - 1);
  }

  /** `extern foo(a b)`: parameters are separated by blanks only. */
  lemma PrototypeParameters()
    ensures ParseExtern(PState(TokenExtern, "", "",
              [Id("foo"), Ch('(', "foo", ""), Id("a"), Id("b"), Ch(')', "b", "")], TestTable, []))
         == Step(Some(Prototype("foo", ["a", "b"])), PState(TokenEof, "b", "", [], TestTable, []))
  {
    var sa := PState(TokenIdentifier, "a", "", [Id("b"), Ch(')', "b", "")], TestTable, []);
    var close := PState(')' as int, "b", "", [], TestTable, []);
    assert ParamsFrom(["a", "b"], close) == Params(["a", "b"], close);
    assert ParamsFrom(["a"], GetNextToken(sa)) == Params(["a", "b"], close);
    assert ParamsFrom([], sa) == Params(["a", "b"], close);
  }

  /** `extern foo(a, b)` is rejected at the comma, and `HandleExtern` then
      skips the comma, so parsing resumes at `b`. */
  lemma CommaInPrototype()
    ensures var st := PState(TokenExtern, "", "",
              [Id("foo"), Ch('(', "foo", ""), Id("a"), Ch(',', "a", ""), Id("b"), Ch(')', "b", "")], TestTable, []);
      && ParseExtern(st) == Step(None, PState(',' as int, "a", "", [Id("b"), Ch(')', "b", "")], TestTable,
                                              ["Expected ')' in prototype"]))
      && HandleExtern(st) == Step(None, PState(TokenIdentifier, "b", "", [Ch(')', "b", "")], TestTable,
                                               ["Expected ')' in prototype"]))
  {
  }
}
