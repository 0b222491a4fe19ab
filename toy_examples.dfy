/** Worked parses with toy.cpp's functions. Each starts from the state
    `getNextToken` leaves with the first token current; the table is the one
    `Init` fills, except where an example runs as `main` does, without it. */
module ToyExamples {
  import opened Chars
  import opened Tokens
  import opened Lexer
  import opened ToyLexer
  import opened Ast
  import P = ParserSpec
  import opened ToySpec
  import opened ToyFacts
  import PX = ParserExamples

  /** The table `Init` fills, the same one test.cpp installs for parser.cpp. */
  lemma InitIsTestTable()
    ensures InitTable(map[]) == PX.TestTable
  {
  }

  /** `1+2*3` groups as `1+(2*3)`. */
  lemma PlusTimes()
    ensures ParseExpression(P.PState(TokenNumber, "", "1",
              [PX.Ch('+', "", "1"), PX.Num("", "2"), PX.Ch('*', "", "2"), PX.Num("", "3")], PX.TestTable, []))
         == Parsed(Some(Binary('+', Expr.Number("1"), Binary('*', Expr.Number("2"), Expr.Number("3")))),
                   P.PState(TokenEof, "", "3", [], PX.TestTable, []))
  {
    var t := PX.TestTable;
    var n1, n2, n3 := Expr.Number("1"), Expr.Number("2"), Expr.Number("3");
    var plus := P.PState('+' as int, "", "1", [PX.Num("", "2"), PX.Ch('*', "", "2"), PX.Num("", "3")], t, []);
    var two := P.PState(TokenNumber, "", "2", [PX.Ch('*', "", "2"), PX.Num("", "3")], t, []);
    var times := P.PState('*' as int, "", "2", [PX.Num("", "3")], t, []);
    var three := P.PState(TokenNumber, "", "3", [], t, []);
    var end := P.PState(TokenEof, "", "3", [], t, []);
    assert ClimbAfter(40, n3, end) == Parsed(Some(n3), end);
    assert ParseRhs(40, three) == Parsed(Some(n3), end);
    BinOpRhsStep(21, n2, times);
    assert ParseBinOpRhs(21, n2, times) == Parsed(Some(Binary('*', n2, n3)), end);
    assert ParseRhs(20, two) == Parsed(Some(Binary('*', n2, n3)), end);
    BinOpRhsStep(0, n1, plus);
  }

  /** Inside `(1+2)*3`: the sum stops at `)`, which is looked up as an
      operator and so entered with precedence 0. */
  lemma SumInParentheses()
    ensures ParseExpression(P.PState(TokenNumber, "", "1",
              [PX.Ch('+', "", "1"), PX.Num("", "2"), PX.Ch(')', "", "2"), PX.Ch('*', "", "2"), PX.Num("", "3")], PX.TestTable, []))
         == Parsed(Some(Binary('+', Expr.Number("1"), Expr.Number("2"))),
                   P.PState(')' as int, "", "2", [PX.Ch('*', "", "2"), PX.Num("", "3")], PX.TestTable[')' := 0], []))
  {
    var t := PX.TestTable;
    var n1, n2 := Expr.Number("1"), Expr.Number("2");
    var plus := P.PState('+' as int, "", "1", [PX.Num("", "2"), PX.Ch(')', "", "2"), PX.Ch('*', "", "2"), PX.Num("", "3")], t, []);
    var two := P.PState(TokenNumber, "", "2", [PX.Ch(')', "", "2"), PX.Ch('*', "", "2"), PX.Num("", "3")], t, []);
    var close := P.PState(')' as int, "", "2", [PX.Ch('*', "", "2"), PX.Num("", "3")], t[')' := 0], []);
    assert ParseRhs(20, two) == Parsed(Some(n2), close);
    BinOpRhsStep(0, n1, plus);
  }

  /** `(1+2)` in front of `*3` is a primary. */
  lemma ParenthesizedSum(st: PState)
    requires st == P.PState('(' as int, "", "",
              [PX.Num("", "1"), PX.Ch('+', "", "1"), PX.Num("", "2"), PX.Ch(')', "", "2"), PX.Ch('*', "", "2"), PX.Num("", "3")],
              PX.TestTable, [])
    ensures ParsePrimary(st)
         == Parsed(Some(Binary('+', Expr.Number("1"), Expr.Number("2"))),
                   P.PState('*' as int, "", "2", [PX.Num("", "3")], PX.TestTable[')' := 0], []))
  {
    SumInParentheses();
    var st1 := P.GetNextToken(st);
    assert st1 == P.PState(TokenNumber, "", "1", st.toks[1..], PX.TestTable, []);
    var e := ParseExpression(st1);
    assert ParseParenExpr(st) == Parsed(e.out, P.GetNextToken(e.st));
  }

  /** `(1+2)*3`: the parentheses make the sum the left operand of `*`. */
  lemma ParenTimes(st: PState)
    requires st == P.PState('(' as int, "", "",
              [PX.Num("", "1"), PX.Ch('+', "", "1"), PX.Num("", "2"), PX.Ch(')', "", "2"), PX.Ch('*', "", "2"), PX.Num("", "3")],
              PX.TestTable, [])
    ensures ParseExpression(st)
         == Parsed(Some(Binary('*', Binary('+', Expr.Number("1"), Expr.Number("2")), Expr.Number("3"))),
                   P.PState(TokenEof, "", "3", [], PX.TestTable[')' := 0], []))
  {
    var t' := PX.TestTable[')' := 0];
    var n1, n2, n3 := Expr.Number("1"), Expr.Number("2"), Expr.Number("3");
    var sum := Binary('+', n1, n2);
    var times := P.PState('*' as int, "", "2", [PX.Num("", "3")], t', []);
    var three := P.PState(TokenNumber, "", "3", [], t', []);
    var end := P.PState(TokenEof, "", "3", [], t', []);
    ParenthesizedSum(st);
    assert ParseRhs(40, three) == Parsed(Some(n3), end);
    BinOpRhsStep(0, sum, times);
  }

  /** `f()`: a call with no arguments. */
  lemma CallWithoutArguments()
    ensures ParseExpression(P.PState(TokenIdentifier, "f", "", [PX.Ch('(', "f", ""), PX.Ch(')', "f", "")], PX.TestTable, []))
         == Parsed(Some(Call("f", [])), P.PState(TokenEof, "f", "", [], PX.TestTable, []))
  {
  }

  /** `f(1)`: an argument not followed by `,` fails the call, with a
      diagnostic, leaving the `)` current. */
  lemma OneArgumentFails()
    ensures ParseExpression(P.PState(TokenIdentifier, "f", "",
              [PX.Ch('(', "f", ""), PX.Num("f", "1"), PX.Ch(')', "f", "1")], PX.TestTable, []))
         == Parsed(None, P.PState(')' as int, "f", "1", [], PX.TestTable[')' := 0],
                                  ["expected ')' or ',' in argument list"]))
  {
    var st := P.PState(TokenNumber, "f", "1", [PX.Ch(')', "f", "1")], PX.TestTable, []);
    ArgumentNeedsComma([], st);
  }

  /** A number followed by a token that is no operator is the number alone. */
  lemma NumberAlone(st: PState)
    requires st.cur == TokenNumber && P.GetBinopPrecedence(P.GetNextToken(st)).value < 0
    ensures ParseExpression(st)
         == Parsed(Some(Expr.Number(st.num)), P.GetBinopPrecedence(P.GetNextToken(st)).st)
  {
  }

  /** `f(1,2)`: the last argument is not followed by `,`, so the call fails
      with the same diagnostic as `f(1)`. */
  lemma TwoArgumentsFail()
    ensures ParseExpression(P.PState(TokenIdentifier, "f", "",
              [PX.Ch('(', "f", ""), PX.Num("f", "1"), PX.Ch(',', "f", "1"), PX.Num("f", "2"), PX.Ch(')', "f", "2")],
              PX.TestTable, []))
         == Parsed(None, P.PState(')' as int, "f", "2", [], PX.TestTable[',' := 0][')' := 0],
                                  ["expected ')' or ',' in argument list"]))
  {
    TwoArguments();
  }

  /** The argument list `1,2)` of `f(1,2)`. */
  lemma TwoArguments()
    ensures ParseArgs([], P.PState(TokenNumber, "f", "1", [PX.Ch(',', "f", "1"), PX.Num("f", "2"), PX.Ch(')', "f", "2")],
                                   PX.TestTable, []))
         == Parsed(None, P.PState(')' as int, "f", "2", [], PX.TestTable[',' := 0][')' := 0],
                                  ["expected ')' or ',' in argument list"]))
  {
    var t := PX.TestTable;
    var one := P.PState(TokenNumber, "f", "1", [PX.Ch(',', "f", "1"), PX.Num("f", "2"), PX.Ch(')', "f", "2")], t, []);
    var two := P.PState(TokenNumber, "f", "2", [PX.Ch(')', "f", "2")], t[',' := 0], []);
    NumberAlone(one);
    NumberAlone(two);
    ArgumentNeedsComma([Expr.Number("1")], two);
    assert [] + [Expr.Number("1")] == [Expr.Number("1")];
  }

  /** `f(1,)`: with a comma after it, the one argument is accepted. */
  lemma TrailingCommaSucceeds()
    ensures ParseExpression(P.PState(TokenIdentifier, "f", "",
              [PX.Ch('(', "f", ""), PX.Num("f", "1"), PX.Ch(',', "f", "1"), PX.Ch(')', "f", "1")], PX.TestTable, []))
         == Parsed(Some(Call("f", [Expr.Number("1")])),
                   P.PState(TokenEof, "f", "1", [], PX.TestTable[',' := 0], []))
  {
    var t := PX.TestTable;
    var one := P.PState(TokenNumber, "f", "1", [PX.Ch(',', "f", "1"), PX.Ch(')', "f", "1")], t, []);
    var comma := P.PState(',' as int, "f", "1", [PX.Ch(')', "f", "1")], t[',' := 0], []);
    assert ParseExpression(one) == Parsed(Some(Expr.Number("1")), comma);
    var close := P.GetNextToken(comma);
    assert [] + [Expr.Number("1")] == [Expr.Number("1")];
    assert ParseArgs([Expr.Number("1")], close) == Parsed(Some([Expr.Number("1")]), close);
    assert ParseArgs([], one) == Parsed(Some([Expr.Number("1")]), close);
  }

  /** Without `Init`, as `main` runs, `1+2` is just `1`: the `+` is looked
      up, entered with precedence 0, and left current. */
  lemma WithoutInit()
    ensures ParseExpression(P.PState(TokenNumber, "", "1", [PX.Ch('+', "", "1"), PX.Num("", "2")], map[], []))
         == Parsed(Some(Expr.Number("1")), P.PState('+' as int, "", "1", [PX.Num("", "2")], map['+' := 0], []))
  {
    WithoutInitNoBinaryExpression(P.PState(TokenNumber, "", "1", [PX.Ch('+', "", "1"), PX.Num("", "2")], map[], []));
  }

  /** The text `a+b*c` has no comment, so `gettok` delivers it as
      `Lex::GetToken` does. */
  lemma ToyStreamOfPlusTimes()
    ensures ToyTokenStream(Bytes("a+b*c"), "", "")
         == [PX.Id("a"), PX.Ch('+', "a", ""), PX.Id("b"), PX.Ch('*', "b", ""), PX.Id("c")]
  {
    var s := Bytes("a+b*c");
    assert s == [97, 43, 98, 42, 99];
    SameStreamWithoutComments(s, "", "");
    PX.StreamOfPlusTimes();
  }

  /** `a+b*c` as lexemes groups as `a+(b*c)`. */
  lemma PlusTimesIdentifiers()
    ensures ParseExpression(P.PState(TokenIdentifier, "a", "",
              [PX.Ch('+', "a", ""), PX.Id("b"), PX.Ch('*', "b", ""), PX.Id("c")], PX.TestTable, [])).out
         == Some(Binary('+', Variable("a"), Binary('*', Variable("b"), Variable("c"))))
  {
    var t := PX.TestTable;
    var a, b, c := Variable("a"), Variable("b"), Variable("c");
    var plus := P.PState('+' as int, "a", "", [PX.Id("b"), PX.Ch('*', "b", ""), PX.Id("c")], t, []);
    var bst := P.PState(TokenIdentifier, "b", "", [PX.Ch('*', "b", ""), PX.Id("c")], t, []);
    var times := P.PState('*' as int, "b", "", [PX.Id("c")], t, []);
    var cst := P.PState(TokenIdentifier, "c", "", [], t, []);
    var end := P.PState(TokenEof, "c", "", [], t, []);
    assert ParseRhs(40, cst) == Parsed(Some(c), end);
    BinOpRhsStep(21, b, times);
    assert ParseRhs(20, bst) == Parsed(Some(Binary('*', b, c)), end);
    BinOpRhsStep(0, a, plus);
  }

  /** From the text `a+b*c`, after priming with `getNextToken`, a top-level
      expression is the anonymous function returning `a+(b*c)`. */
  lemma TopLevelFromText(cur: int)
    ensures var st := P.PState(cur, "", "", ToyTokenStream(Bytes("a+b*c"), "", ""), PX.TestTable, []);
      ParseTopLevelExpr(P.GetNextToken(st)).out
      == Some(Function(Prototype(AnonName, []), Binary('+', Variable("a"), Binary('*', Variable("b"), Variable("c")))))
  {
    ToyStreamOfPlusTimes();
    PlusTimesIdentifiers();
  }
}
