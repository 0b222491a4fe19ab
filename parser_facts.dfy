/** What parser.cpp's parse functions do, stated over `ParserSpec` (and so,
    through the contracts of `ParserClass.Parser`, over the class). */
module ParserFacts {
  import opened Chars
  import opened Tokens
  import opened Lexer
  import opened Ast
  import opened ParserSpec

  const UnknownToken := "unknown token when expecting an expression"
  const BadSeparator := "Expected ')' or ',' in arguments list"

  // ---------------------------------------------------------------------
  // The precedence table

  /** `GetBinopPrecedence` reports -1 for a token that is not ASCII, and for a
      character whose entry is absent or not positive; otherwise the entry.
      The lookup inserts an absent character with value 0 and changes nothing
      else. */
  lemma PrecedenceLookup(st: PState)
    ensures var p := GetBinopPrecedence(st);
      && p.st == st.(table := p.st.table)
      && (!IsAscii(st.cur) ==> p.value == -1 && p.st == st)
      && (IsAscii(st.cur) ==>
            var c := st.cur as char;
            && p.st.table == (if c in st.table then st.table else st.table[c := 0])
            && p.value == (if c in st.table && st.table[c] > 0 then st.table[c] else -1))
  {
  }

  /** Every token code is negative, so none of them is an operator. */
  lemma TokenCodesHaveNoPrecedence(st: PState)
    requires st.cur in {TokenEof, TokenDef, TokenExtern, TokenIdentifier, TokenNumber}
    ensures GetBinopPrecedence(st) == Prec(-1, st)
  {
  }

  /** A precedence is -1 or positive, and a positive one is the table's entry
      for the current character. Asking twice gives the same answer and leaves
      the same state. */
  lemma PrecedenceIsStable(st: PState)
    ensures var p := GetBinopPrecedence(st);
      && (p.value == -1 || p.value > 0)
      && (p.value > 0 ==> IsAscii(st.cur) && st.table[st.cur as char] == p.value)
      && GetBinopPrecedence(p.st) == p
  {
  }

  /** With the table that the class constructor leaves (`main` of parser.cpp's
      driver fills it before parsing), every token has precedence -1. */
  lemma EmptyTableHasNoOperators(st: PState)
    requires st.table == map[]
    ensures GetBinopPrecedence(st).value == -1
  {
  }

  // ---------------------------------------------------------------------
  // Precedence climbing

  /** When the current token binds looser than `prec` (every non-operator
      does), `ParseBinOpRhs` returns `lhs` unchanged and consumes nothing. */
  lemma BinOpRhsStopsBelow(prec: int, lhs: Expr, st: PState, fuel: nat)
    requires prec >= 0 && fuel > 0
    requires GetBinopPrecedence(st).value < prec
    ensures var r := ParseBinOpRhs(prec, lhs, st, fuel);
      && r.out == Some(lhs)
      && r.st == st.(table := r.st.table)
  {
  }

  /** One turn of the loop: an operator binding at least as tight as `prec`,
      and its right operand, are folded into `lhs`. */
  lemma BinOpRhsFolds(prec: int, lhs: Expr, st: PState, fuel: nat, rhs: Expr, next: PState)
    requires prec >= 0 && fuel > 0
    requires GetBinopPrecedence(st).value >= prec
    requires var tp := GetBinopPrecedence(st);
             ParseRhs(tp.value, GetNextToken(tp.st), fuel - 1) == Step(Some(rhs), next)
    ensures ParseBinOpRhs(prec, lhs, st, fuel)
         == ParseBinOpRhs(prec, Binary(st.cur as char, lhs, rhs), next, fuel - 1)
  {
  }

  /** A right operand that is not followed by a tighter operator is just the
      primary. */
  lemma RhsIsPrimary(opPrec: int, st: PState, fuel: nat, e: Expr, next: PState)
    requires opPrec >= 0
    requires ParsePrimary(st, fuel) == Step(Some(e), next)
    requires GetBinopPrecedence(next).value <= opPrec
    ensures ParseRhs(opPrec, st, fuel) == Step(Some(e), GetBinopPrecedence(next).st)
  {
  }

  /** A right operand followed by a tighter operator absorbs it. */
  lemma RhsClimbs(opPrec: int, st: PState, fuel: nat, e: Expr, next: PState)
    requires opPrec >= 0
    requires ParsePrimary(st, fuel) == Step(Some(e), next)
    requires GetBinopPrecedence(next).value > opPrec
    ensures ParseRhs(opPrec, st, fuel)
         == ParseBinOpRhs(opPrec + 1, e, GetBinopPrecedence(next).st, fuel)
  {
  }

  /** An identifier not followed by `(` is a variable reference, and only the
      identifier is consumed. */
  lemma PrimaryIsVariable(st: PState, fuel: nat)
    requires fuel >= 2 && st.cur == TokenIdentifier
    requires GetNextToken(st).cur != '(' as int
    ensures ParsePrimary(st, fuel) == Step(Some(Variable(st.ident)), GetNextToken(st))
  {
  }

  /** A number token is a number literal holding the lexeme. */
  lemma PrimaryIsNumber(st: PState, fuel: nat)
    requires fuel >= 1 && st.cur == TokenNumber
    ensures ParsePrimary(st, fuel) == Step(Some(Expr.Number(st.num)), GetNextToken(st))
  {
  }

  /** The expression `lhs` parses to is whatever climbing from it yields. */
  lemma ExpressionIsClimb(st: PState, fuel: nat, lhs: Expr, next: PState)
    requires fuel > 0 && ParsePrimary(st, fuel - 1) == Step(Some(lhs), next)
    ensures ParseExpression(st, fuel) == ParseBinOpRhs(0, lhs, next, fuel - 1)
  {
  }

  // ---------------------------------------------------------------------
  // What a parse step may change

  /** A step only reads input and only extends the table and the log: what
      is left never grows, a lookup only adds absent characters with 0, and
      diagnostics are only appended. */
  predicate Consumes(st: PState, st': PState)
  {
    Left(st') <= Left(st) && Extends(st, st')
  }

  lemma {:induction false} ParenConsumes(st: PState, fuel: nat)
    ensures Consumes(st, ParseParenExpr(st, fuel).st)
    decreases fuel, 0
  {
    if fuel > 0 {
      ExpressionConsumes(LexerGetToken(st), fuel - 1);
    }
  }

  lemma {:induction false} IdentifierConsumes(st: PState, fuel: nat)
    ensures Consumes(st, ParseIdentifierExpr(st, fuel).st)
    decreases fuel, 0
  {
    if fuel > 0 {
      var st2 := GetNextToken(GetNextToken(st));
      if fuel > 0 && st2.cur != ')' as int {
        ArgsConsumes([], st2, fuel - 1);
      }
    }
  }

  lemma {:induction false} ArgsConsumes(args: seq<Expr>, st: PState, fuel: nat)
    ensures Consumes(st, ParseArgs(args, st, fuel).st)
    decreases fuel, 0
  {
    if fuel > 0 {
      ExpressionConsumes(st, fuel - 1);
      var a := ParseExpression(st, fuel - 1);
      if a.out.Some? && a.st.cur != ')' as int {
        var st1 := if a.st.cur != ',' as int then Log(a.st, BadSeparator) else a.st;
        ArgsConsumes(args + [a.out.value], GetNextToken(st1), fuel - 1);
      }
    }
  }

  lemma {:induction false} ExpressionConsumes(st: PState, fuel: nat)
    ensures Consumes(st, ParseExpression(st, fuel).st)
    decreases fuel, 0
  {
    if fuel > 0 {
      PrimaryConsumes(st, fuel - 1);
      var l := ParsePrimary(st, fuel - 1);
      if l.out.Some? {
        BinOpRhsConsumes(0, l.out.value, l.st, fuel - 1);
      }
    }
  }

  lemma {:induction false} BinOpRhsConsumes(prec: int, lhs: Expr, st: PState, fuel: nat)
    requires prec >= 0
    ensures Consumes(st, ParseBinOpRhs(prec, lhs, st, fuel).st)
    decreases fuel, 0
  {
    if fuel > 0 {
      var tp := GetBinopPrecedence(st);
      if tp.value >= prec {
        var next := GetNextToken(tp.st);
        RhsConsumes(tp.value, next, fuel - 1);
        var r := ParseRhs(tp.value, next, fuel - 1);
        ConsumesTwice(st, next, r.st);
        if r.out.Some? {
          var lhs' := Binary(tp.st.cur as char, lhs, r.out.value);
          BinOpRhsConsumes(prec, lhs', r.st, fuel - 1);
          ConsumesTwice(st, r.st, ParseBinOpRhs(prec, lhs', r.st, fuel - 1).st);
        }
      }
    }
  }

  lemma {:induction false} RhsConsumes(opPrec: int, st: PState, fuel: nat)
    requires opPrec >= 0
    ensures Consumes(st, ParseRhs(opPrec, st, fuel).st)
    decreases fuel, 2
  {
    PrimaryConsumes(st, fuel);
    var r := ParsePrimary(st, fuel);
    if r.out.Some? {
      var np := GetBinopPrecedence(r.st);
      if opPrec < np.value {
        BinOpRhsConsumes(opPrec + 1, r.out.value, np.st, fuel);
      }
    }
  }

  lemma {:induction false} PrimaryConsumes(st: PState, fuel: nat)
    ensures Consumes(st, ParsePrimary(st, fuel).st)
    decreases fuel, 1
  {
    if fuel > 0 && st.cur != TokenNumber {
      if st.cur == '(' as int {
        ParenConsumes(st, fuel - 1);
      } else {
        IdentifierConsumes(if st.cur == TokenIdentifier then st else Log(st, UnknownToken), fuel - 1);
      }
    }
  }

  /** Two steps in a row are one step. */
  lemma ConsumesTwice(st: PState, st': PState, st'': PState)
    requires Consumes(st, st') && Consumes(st', st'')
    ensures Consumes(st, st'')
  {
  }

  /** The same holds for a definition and its handler, ... */
  lemma DefinitionConsumes(st: PState, fuel: nat)
    ensures Consumes(st, ParseDefinition(st, fuel).st)
    ensures Consumes(st, HandleDefinition(st, fuel).st)
  {
    var st0 := GetNextToken(st);
    var p := ParsePrototype(st0);
    ConsumesTwice(st, st0, p.st);
    if p.out.Some? {
      ExpressionConsumes(p.st, fuel);
      ConsumesTwice(st, p.st, ParseExpression(p.st, fuel).st);
    }
    var d := ParseDefinition(st, fuel);
    ConsumesTwice(st, d.st, GetNextToken(d.st));
  }

  /** ... for an extern and its handler, ... */
  lemma ExternConsumes(st: PState)
    ensures Consumes(st, ParseExtern(st).st)
    ensures Consumes(st, HandleExtern(st).st)
  {
    var st0 := GetNextToken(st);
    ConsumesTwice(st, st0, ParsePrototype(st0).st);
    var e := ParseExtern(st);
    ConsumesTwice(st, e.st, GetNextToken(e.st));
  }

  /** ... and for a top-level expression and its handler. */
  lemma TopLevelConsumes(st: PState, fuel: nat)
    ensures Consumes(st, ParseTopLevelExpr(st, fuel).st)
    ensures Consumes(st, HandleTopLevelExpression(st, fuel).st)
  {
    ExpressionConsumes(st, fuel);
    var t := ParseTopLevelExpr(st, fuel);
    ConsumesTwice(st, t.st, GetNextToken(t.st));
  }

  // ---------------------------------------------------------------------
  // More fuel changes nothing

  /** A parse that finishes on some fuel finishes the same way on any larger
      fuel: the bound only cuts off computations, it never changes one. */
  lemma {:induction false} ParenMoreFuel(st: PState, f: nat, g: nat)
    requires f <= g && ParseParenExpr(st, f).out != OutOfFuel
    ensures ParseParenExpr(st, g) == ParseParenExpr(st, f)
    decreases f, 0
  {
    ExpressionMoreFuel(LexerGetToken(st), f - 1, g - 1);
  }

  lemma {:induction false} IdentifierMoreFuel(st: PState, f: nat, g: nat)
    requires f <= g && ParseIdentifierExpr(st, f).out != OutOfFuel
    ensures ParseIdentifierExpr(st, g) == ParseIdentifierExpr(st, f)
    decreases f, 0
  {
    var st1 := GetNextToken(st);
    var st2 := GetNextToken(st1);
    if st1.cur == '(' as int && st2.cur != ')' as int {
      ArgsMoreFuel([], st2, f - 1, g - 1);
    }
  }

  lemma {:induction false} ArgsMoreFuel(args: seq<Expr>, st: PState, f: nat, g: nat)
    requires f <= g && ParseArgs(args, st, f).out != OutOfFuel
    ensures ParseArgs(args, st, g) == ParseArgs(args, st, f)
    decreases f, 0
  {
    ExpressionMoreFuel(st, f - 1, g - 1);
    var a := ParseExpression(st, f - 1);
    if a.out.Some? && a.st.cur != ')' as int {
      var st1 := if a.st.cur != ',' as int then Log(a.st, BadSeparator) else a.st;
      ArgsMoreFuel(args + [a.out.value], GetNextToken(st1), f - 1, g - 1);
    }
  }

  lemma {:induction false} ExpressionMoreFuel(st: PState, f: nat, g: nat)
    requires f <= g && ParseExpression(st, f).out != OutOfFuel
    ensures ParseExpression(st, g) == ParseExpression(st, f)
    decreases f, 0
  {
    PrimaryMoreFuel(st, f - 1, g - 1);
    var l := ParsePrimary(st, f - 1);
    if l.out.Some? {
      BinOpRhsMoreFuel(0, l.out.value, l.st, f - 1, g - 1);
    }
  }

  lemma {:induction false} BinOpRhsMoreFuel(prec: int, lhs: Expr, st: PState, f: nat, g: nat)
    requires prec >= 0
    requires f <= g && ParseBinOpRhs(prec, lhs, st, f).out != OutOfFuel
    ensures ParseBinOpRhs(prec, lhs, st, g) == ParseBinOpRhs(prec, lhs, st, f)
    decreases f, 0
  {
    var tp := GetBinopPrecedence(st);
    if tp.value >= prec {
      RhsMoreFuel(tp.value, GetNextToken(tp.st), f - 1, g - 1);
      var r := ParseRhs(tp.value, GetNextToken(tp.st), f - 1);
      if r.out.Some? {
        BinOpRhsMoreFuel(prec, Binary(tp.st.cur as char, lhs, r.out.value), r.st, f - 1, g - 1);
      }
    }
  }

  lemma {:induction false} RhsMoreFuel(opPrec: int, st: PState, f: nat, g: nat)
    requires opPrec >= 0
    requires f <= g && ParseRhs(opPrec, st, f).out != OutOfFuel
    ensures ParseRhs(opPrec, st, g) == ParseRhs(opPrec, st, f)
    decreases f, 2
  {
    PrimaryMoreFuel(st, f, g);
    var r := ParsePrimary(st, f);
    if r.out.Some? {
      var np := GetBinopPrecedence(r.st);
      if opPrec < np.value {
        BinOpRhsMoreFuel(opPrec + 1, r.out.value, np.st, f, g);
      }
    }
  }

  lemma {:induction false} PrimaryMoreFuel(st: PState, f: nat, g: nat)
    requires f <= g && ParsePrimary(st, f).out != OutOfFuel
    ensures ParsePrimary(st, g) == ParsePrimary(st, f)
    decreases f, 1
  {
    if st.cur != TokenNumber {
      if st.cur == '(' as int {
        ParenMoreFuel(st, f - 1, g - 1);
      } else {
        IdentifierMoreFuel(if st.cur == TokenIdentifier then st else Log(st, UnknownToken), f - 1, g - 1);
      }
    }
  }

  // ---------------------------------------------------------------------
  // Precedence climbing keeps the input order

  /** The operands and operators in front of the parser, read off the input
      without building a tree: a primary (parsed on `fuel`), then, for as
      long as an operator follows, the operator and the next primary. */
  function Chain(st: PState, fuel: nat): seq<Item>
    decreases Left(st), 1
  {
    var p := ParsePrimary(st, fuel);
    match p.out
    case Some(e) => PrimaryConsumes(st, fuel); Flat(e) + ChainTail(p.st, fuel)
    case _ => []
  }

  /** The operators and primaries that follow a primary. */
  function ChainTail(st: PState, fuel: nat): seq<Item>
    decreases Left(st), 0
  {
    var q := GetBinopPrecedence(st);
    if q.value < 0 then []
    else
      assert st.cur != TokenEof;
      [Operator(st.cur as char)] + Chain(GetNextToken(q.st), fuel)
  }

  /** Looking the precedence up first changes nothing in what follows. */
  lemma ChainTailAfterLookup(st: PState, fuel: nat)
    ensures ChainTail(GetBinopPrecedence(st).st, fuel) == ChainTail(st, fuel)
  {
    PrecedenceIsStable(st);
  }

  /** The loop of `ParseBinOpRhs` only regroups: the tree it returns, read in
      order, followed by what it leaves, is `lhs` followed by what it found
      (read with any fuel at least the loop's own). */
  lemma {:induction false} BinOpRhsKeepsOrder(prec: int, lhs: Expr, st: PState, fuel: nat, f: nat)
    requires prec >= 0 && fuel <= f
    requires ParseBinOpRhs(prec, lhs, st, fuel).out.Some?
    ensures var r := ParseBinOpRhs(prec, lhs, st, fuel);
      Flat(r.out.value) + ChainTail(r.st, f) == Flat(lhs) + ChainTail(st, f)
    decreases fuel, 0
  {
    var tp := GetBinopPrecedence(st);
    if tp.value < prec {
      ChainTailAfterLookup(st, f);
    } else {
      var next := GetNextToken(tp.st);
      var op := st.cur as char;
      var rr := ParseRhs(tp.value, next, fuel - 1);
      var rhs := rr.out.value;
      RhsKeepsOrder(tp.value, next, fuel - 1, f);
      BinOpRhsKeepsOrder(prec, Binary(op, lhs, rhs), rr.st, fuel - 1, f);
      assert ChainTail(st, f) == [Operator(op)] + Chain(next, f);
      var r := ParseBinOpRhs(prec, lhs, st, fuel);
      Regroup(Flat(r.out.value), ChainTail(r.st, f), lhs, op, rhs, ChainTail(rr.st, f), Chain(next, f), ChainTail(st, f));
    }
  }

  /** A right operand and what it leaves are the chain it was parsed from. */
  lemma {:induction false} RhsKeepsOrder(opPrec: int, st: PState, fuel: nat, f: nat)
    requires opPrec >= 0 && fuel <= f
    requires ParseRhs(opPrec, st, fuel).out.Some?
    ensures var r := ParseRhs(opPrec, st, fuel);
      Flat(r.out.value) + ChainTail(r.st, f) == Chain(st, f)
    decreases fuel, 2
  {
    var p := ParsePrimary(st, fuel);
    PrimaryMoreFuel(st, fuel, f);
    ChainTailAfterLookup(p.st, f);
    var np := GetBinopPrecedence(p.st);
    if opPrec < np.value {
      BinOpRhsKeepsOrder(opPrec + 1, p.out.value, np.st, fuel, f);
    }
  }

  /** A parsed expression, read in order, is exactly the chain of primaries
      and operators it was parsed from: precedence climbing decides the
      grouping only, and no operand or operator is lost, added or moved. */
  lemma ExpressionKeepsOrder(st: PState, fuel: nat, f: nat)
    requires fuel <= f
    requires ParseExpression(st, fuel).out.Some?
    ensures Flat(ParseExpression(st, fuel).out.value) == Chain(st, f)
  {
    var l := ParsePrimary(st, fuel - 1);
    PrimaryMoreFuel(st, fuel - 1, f);
    BinOpRhsKeepsOrder(0, l.out.value, l.st, fuel - 1, f);
    var r := ParseBinOpRhs(0, l.out.value, l.st, fuel - 1);
    assert ChainTail(r.st, f) == [];
  }

  // ---------------------------------------------------------------------
  // Paths that never return

  /** Because `ParseParenExpr` eats `(` with `lexer.GetToken()`,
      `current_token_` is still `(` when it parses the inner expression, which
      starts over with `ParseParenExpr`: no amount of fuel is enough. */
  lemma {:induction false} ParenNeverReturns(st: PState, fuel: nat)
    requires st.cur == '(' as int
    ensures ParseParenExpr(st, fuel).out == OutOfFuel
    decreases fuel, 0
  {
    if fuel > 0 {
      ExpressionOnParenNeverReturns(LexerGetToken(st), fuel - 1);
    }
  }

  lemma {:induction false} ExpressionOnParenNeverReturns(st: PState, fuel: nat)
    requires st.cur == '(' as int
    ensures ParseExpression(st, fuel).out == OutOfFuel
    decreases fuel, 2
  {
    if fuel > 0 {
      PrimaryOnParenNeverReturns(st, fuel - 1);
    }
  }

  lemma {:induction false} PrimaryOnParenNeverReturns(st: PState, fuel: nat)
    requires st.cur == '(' as int
    ensures ParsePrimary(st, fuel).out == OutOfFuel
    decreases fuel, 1
  {
    if fuel > 0 {
      ParenNeverReturns(st, fuel - 1);
    }
  }

  /** At the end of the input, an expression is the fall-through variable
      reference: one diagnostic, a `Variable` named by the stale
      `identifier_str`, and nothing consumed. */
  lemma ExpressionAtEnd(st: PState, fuel: nat)
    requires st.cur == TokenEof && st.toks == []
    ensures fuel >= 3 ==> ParseExpression(st, fuel) == Step(Some(Variable(st.ident)), Log(st, UnknownToken))
    ensures fuel < 3 ==> ParseExpression(st, fuel).out == OutOfFuel
  {
    var st1 := Log(st, UnknownToken);
    assert GetNextToken(st1) == st1;
    if fuel >= 3 {
      assert ParsePrimary(st, fuel - 1) == Step(Some(Variable(st.ident)), st1);
    } else if fuel == 2 {
      assert ParsePrimary(st, 1) == ParseIdentifierExpr(st1, 0);
    }
  }

  /** A call still open at the end of the input (`f(1` and then nothing) never
      returns: each turn of the argument loop parses the fall-through variable,
      reports the missing separator, and starts again at the same place. */
  lemma {:induction false} UnclosedCallNeverReturns(args: seq<Expr>, st: PState, fuel: nat)
    requires st.cur == TokenEof && st.toks == []
    ensures ParseArgs(args, st, fuel).out == OutOfFuel
    decreases fuel
  {
    if fuel > 0 {
      ExpressionAtEnd(st, fuel - 1);
      if fuel - 1 >= 3 {
        var st1 := Log(st, UnknownToken);
        var st2 := Log(st1, BadSeparator);
        assert GetNextToken(st2) == st2;
        UnclosedCallNeverReturns(args + [Variable(st.ident)], st2, fuel - 1);
      }
    }
  }

  // ---------------------------------------------------------------------
  // No expression fails

  /** `ParseParimary` never returns null in parser.cpp: its `default:` falls
      through into `ParseIdentifierExpr`, whose variable and call paths always
      build a node. So no expression parse ever fails; it either succeeds or
      never returns. */
  lemma {:induction false} PrimaryNeverFails(st: PState, fuel: nat)
    ensures ParsePrimary(st, fuel).out != None
    decreases fuel, 1
  {
    if fuel > 0 && st.cur != TokenNumber {
      if st.cur == '(' as int {
        ParenNeverReturns(st, fuel - 1);
      } else {
        var st1 := if st.cur == TokenIdentifier then st else Log(st, UnknownToken);
        IdentifierNeverFails(st1, fuel - 1);
      }
    }
  }

  lemma {:induction false} IdentifierNeverFails(st: PState, fuel: nat)
    ensures ParseIdentifierExpr(st, fuel).out != None
    decreases fuel, 0
  {
    if fuel > 0 {
      var st1 := GetNextToken(st);
      if st1.cur == '(' as int {
        var st2 := GetNextToken(st1);
        if st2.cur != ')' as int {
          ArgsNeverFail([], st2, fuel - 1);
        }
      }
    }
  }

  lemma {:induction false} ArgsNeverFail(args: seq<Expr>, st: PState, fuel: nat)
    ensures ParseArgs(args, st, fuel).out != None
    decreases fuel, 0
  {
    if fuel > 0 {
      ExpressionNeverFails(st, fuel - 1);
      var a := ParseExpression(st, fuel - 1);
      if a.out.Some? && a.st.cur != ')' as int {
        var st1 := if a.st.cur != ',' as int then Log(a.st, BadSeparator) else a.st;
        ArgsNeverFail(args + [a.out.value], GetNextToken(st1), fuel - 1);
      }
    }
  }

  lemma {:induction false} ExpressionNeverFails(st: PState, fuel: nat)
    ensures ParseExpression(st, fuel).out != None
    decreases fuel, 0
  {
    if fuel > 0 {
      PrimaryNeverFails(st, fuel - 1);
      var l := ParsePrimary(st, fuel - 1);
      if l.out.Some? {
        BinOpRhsNeverFails(0, l.out.value, l.st, fuel - 1);
      }
    }
  }

  lemma {:induction false} BinOpRhsNeverFails(prec: int, lhs: Expr, st: PState, fuel: nat)
    requires prec >= 0
    ensures ParseBinOpRhs(prec, lhs, st, fuel).out != None
    decreases fuel, 0
  {
    if fuel > 0 {
      var tp := GetBinopPrecedence(st);
      if tp.value >= prec {
        RhsNeverFails(tp.value, GetNextToken(tp.st), fuel - 1);
        var r := ParseRhs(tp.value, GetNextToken(tp.st), fuel - 1);
        if r.out.Some? {
          BinOpRhsNeverFails(prec, Binary(tp.st.cur as char, lhs, r.out.value), r.st, fuel - 1);
        }
      }
    }
  }

  lemma {:induction false} RhsNeverFails(opPrec: int, st: PState, fuel: nat)
    requires opPrec >= 0
    ensures ParseRhs(opPrec, st, fuel).out != None
    decreases fuel, 2
  {
    PrimaryNeverFails(st, fuel);
    var r := ParsePrimary(st, fuel);
    if r.out.Some? {
      var np := GetBinopPrecedence(r.st);
      if opPrec < np.value {
        BinOpRhsNeverFails(opPrec + 1, r.out.value, np.st, fuel);
      }
    }
  }

  /** Hence a top-level expression never fails, and the skip-one-token
      recovery of `HandleTopLevelExpression` is never used. What it builds
      is a function with an empty name and no parameters. */
  lemma TopLevelNeverFails(st: PState, fuel: nat)
    ensures ParseTopLevelExpr(st, fuel).out != None
    ensures HandleTopLevelExpression(st, fuel) == ParseTopLevelExpr(st, fuel)
    ensures ParseTopLevelExpr(st, fuel).out.Some? ==>
      ParseTopLevelExpr(st, fuel).out.value.proto == Prototype("", [])
  {
    ExpressionNeverFails(st, fuel);
  }

  /** A definition fails only through its prototype: the body cannot. */
  lemma DefinitionFailsOnlyInPrototype(st: PState, fuel: nat)
    ensures ParseDefinition(st, fuel).out.None? <==> ParsePrototype(GetNextToken(st)).out.None?
    ensures ParseDefinition(st, fuel).out.None? ==>
      ParseDefinition(st, fuel).st == ParsePrototype(GetNextToken(st)).st
  {
    var p := ParsePrototype(GetNextToken(st));
    if p.out.Some? {
      ExpressionNeverFails(p.st, fuel);
    }
  }

  /** A definition succeeds exactly when its prototype and then its body do.
      It is then the function of that prototype and a body that reads in
      order as the chain after the prototype (read with any fuel at least the
      body's own). After a parsed prototype the parse ends where the body
      ended. */
  lemma DefinitionParts(st: PState, fuel: nat, f: nat)
    requires fuel <= f
    ensures var p := ParsePrototype(GetNextToken(st));
      var d := ParseDefinition(st, fuel);
      && (d.out.Some? <==> p.out.Some? && ParseExpression(p.st, fuel).out.Some?)
      && (d.out.Some? ==> d.out.value.proto == p.out.value && Flat(d.out.value.body) == Chain(p.st, f))
      && (p.out.Some? ==> d.st == ParseExpression(p.st, fuel).st)
  {
    var p := ParsePrototype(GetNextToken(st));
    if p.out.Some? && ParseExpression(p.st, fuel).out.Some? {
      ExpressionKeepsOrder(p.st, fuel, f);
    }
  }

  // ---------------------------------------------------------------------
  // Calls

  /** `f()`: an identifier, `(` and `)` make the call with no arguments, and
      all three tokens are eaten. */
  lemma CallWithoutArguments(st: PState, fuel: nat)
    requires fuel >= 2 && st.cur == TokenIdentifier
    requires GetNextToken(st).cur == '(' as int
    requires GetNextToken(GetNextToken(st)).cur == ')' as int
    ensures ParsePrimary(st, fuel) ==
      Step(Some(Call(st.ident, [])), GetNextToken(GetNextToken(GetNextToken(st))))
  {
  }

  /** A call with arguments is named by the identifier, holds the arguments
      the loop collected after `(`, and eats the `)` the loop stopped on. */
  lemma CallWithArguments(st: PState, fuel: nat)
    requires fuel >= 2 && st.cur == TokenIdentifier
    requires GetNextToken(st).cur == '(' as int
    requires GetNextToken(GetNextToken(st)).cur != ')' as int
    ensures var a := ParseArgs([], GetNextToken(GetNextToken(st)), fuel - 2);
      var r := ParsePrimary(st, fuel);
      && (r.out.Some? <==> a.out.Some?)
      && (r.out.Some? ==> r.out.value == Call(st.ident, a.out.value) && a.st.cur == ')' as int
                          && r.st == GetNextToken(a.st))
  {
  }

  /** A finished argument loop with `args` put in front of what it collected. */
  function Prepend(args: seq<Expr>, r: Step<seq<Expr>>): Step<seq<Expr>>
  {
    if r.out.Some? then Step(Some(args + r.out.value), r.st) else r
  }

  /** Putting two runs of arguments in front one after the other. */
  lemma PrependTwice(args: seq<Expr>, e: Expr, r: Step<seq<Expr>>)
    ensures Prepend(args, Prepend([e], r)) == Prepend(args + [e], r)
  {
    if r.out.Some? {
      assert args + ([e] + r.out.value) == args + [e] + r.out.value;
    }
  }

  /** Where the loop stops at once (no fuel, a failed argument, or `)` after
      the first argument), the arguments given come first as well. */
  lemma ArgsStopAccumulate(args: seq<Expr>, st: PState, fuel: nat)
    requires fuel >= 1
    requires var a := ParseExpression(st, fuel - 1); !a.out.Some? || a.st.cur == ')' as int
    ensures ParseArgs(args, st, fuel) == Prepend(args, ParseArgs([], st, fuel))
  {
    var a := ParseExpression(st, fuel - 1);
    if a.out.Some? {
      assert [] + [a.out.value] == [a.out.value];
    }
  }

  /** The collected arguments do not depend on what was collected before:
      the loop appends the arguments it parses after those it was given. */
  lemma {:induction false} ArgsAccumulate(args: seq<Expr>, st: PState, fuel: nat)
    ensures ParseArgs(args, st, fuel) == Prepend(args, ParseArgs([], st, fuel))
    decreases fuel
  {
    if fuel > 0 {
      var a := ParseExpression(st, fuel - 1);
      if a.out.Some? && a.st.cur != ')' as int {
        var e := a.out.value;
        var next := GetNextToken(if a.st.cur != ',' as int then Log(a.st, BadSeparator) else a.st);
        SeparatorStep([], st, fuel);
        SeparatorStep(args, st, fuel);
        assert [] + [e] == [e];
        ArgsAccumulate(args + [e], next, fuel - 1);
        ArgsAccumulate([e], next, fuel - 1);
        PrependTwice(args, e, ParseArgs([], next, fuel - 1));
      } else {
        ArgsStopAccumulate(args, st, fuel);
      }
    }
  }

  /** The next argument is the expression parsed where the loop stands, and
      it reads in order as the chain there. With `ArgsAccumulate` this gives
      every argument, in the order they appear. */
  lemma ArgsInOrder(args: seq<Expr>, st: PState, fuel: nat, f: nat)
    requires fuel <= f
    requires ParseArgs(args, st, fuel).out.Some?
    ensures fuel >= 1 && ParseExpression(st, fuel - 1).out.Some?
    ensures var e := ParseExpression(st, fuel - 1).out.value;
      ParseArgs(args, st, fuel).out.value[|args|] == e && Flat(e) == Chain(st, f)
  {
    var a := ParseExpression(st, fuel - 1);
    var e := a.out.value;
    if a.st.cur != ')' as int {
      var st1 := if a.st.cur != ',' as int then Log(a.st, BadSeparator) else a.st;
      var r := ParseArgs(args + [e], GetNextToken(st1), fuel - 1);
      assert (args + [e])[|args|] == e;
      assert r.out.value[|args|] == e;
    }
    ExpressionKeepsOrder(st, fuel - 1, f);
  }

  /** After an argument, `,` is eaten silently; any other token but `)` is
      reported with exactly one diagnostic, eaten all the same, and the loop
      goes on. The diagnostic stays in the log whatever follows. */
  lemma SeparatorStep(args: seq<Expr>, st: PState, fuel: nat)
    requires fuel >= 1 && ParseExpression(st, fuel - 1).out.Some?
    requires ParseExpression(st, fuel - 1).st.cur != ')' as int
    ensures var a := ParseExpression(st, fuel - 1);
      var bad := a.st.cur != ',' as int;
      var next := GetNextToken(if bad then Log(a.st, BadSeparator) else a.st);
      && ParseArgs(args, st, fuel) == ParseArgs(args + [a.out.value], next, fuel - 1)
      && next.errors == a.st.errors + (if bad then [BadSeparator] else [])
      && next.toks == GetNextToken(a.st).toks
      && next.errors <= ParseArgs(args, st, fuel).st.errors
  {
    var a := ParseExpression(st, fuel - 1);
    var bad := a.st.cur != ',' as int;
    var next := GetNextToken(if bad then Log(a.st, BadSeparator) else a.st);
    ArgsConsumes(args + [a.out.value], next, fuel - 1);
  }

  // ---------------------------------------------------------------------
  // Recovery

  /** A prototype never gives back tokens it has read. */
  lemma PrototypeOnlyReads(st: PState)
    ensures |ParsePrototype(st).st.toks| <= |st.toks|
  {
    if st.cur == TokenIdentifier {
      var st1 := GetNextToken(st);
      if st1.cur == '(' as int {
        var ps := ParamsFrom([], GetNextToken(st1));
        assert |ps.st.toks| <= |GetNextToken(st1).toks|;
      }
    }
  }

  /** When a definition or an extern fails, its handler has moved past the
      keyword and at least one more token (or to the end of the input), so
      the driver's loop cannot stop at the same place. */
  lemma FailedHandlersMoveOn(st: PState, fuel: nat)
    ensures var r := HandleDefinition(st, fuel);
      r.out.None? ==> r.st.toks == [] || |r.st.toks| + 2 <= |st.toks|
    ensures var r := HandleExtern(st);
      r.out.None? ==> r.st.toks == [] || |r.st.toks| + 2 <= |st.toks|
  {
    DefinitionFailsOnlyInPrototype(st, fuel);
    PrototypeOnlyReads(GetNextToken(st));
  }
}
