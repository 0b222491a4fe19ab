/** What toy.cpp's parse functions do, stated over `ToySpec` (and so, through
    the contracts of `ToyClass.ToyParser`, over the class). */
module ToyFacts {
  import opened Chars
  import opened Tokens
  import opened Ast
  import P = ParserSpec
  import PF = ParserFacts
  import opened ToySpec

  // ---------------------------------------------------------------------
  // Precedence climbing keeps the input order

  /** The operands and operators in front of the parser, read off the input
      without building a tree: a primary, then, for as long as an operator
      follows, the operator and the next primary. */
  function Chain(st: PState): seq<Item>
    decreases P.Left(st), 1
  {
    var p := ParsePrimary(st);
    match p.out
    case None => []
    case Some(e) => Flat(e) + ChainTail(p.st)
  }

  /** The operators and primaries that follow a primary. */
  function ChainTail(st: PState): seq<Item>
    decreases P.Left(st), 0
  {
    var q := P.GetBinopPrecedence(st);
    if q.value < 0 then []
    else
      assert st.cur != TokenEof;
      [Operator(st.cur as char)] + Chain(P.GetNextToken(q.st))
  }

  /** Looking the precedence up first changes nothing in what follows. */
  lemma ChainTailAfterLookup(st: PState)
    ensures ChainTail(P.GetBinopPrecedence(st).st) == ChainTail(st)
  {
    PF.PrecedenceIsStable(st);
  }

  /** The loop of `ParseBinOpRhs` only regroups: the tree it returns, read in
      order, followed by what it leaves, is `lhs` followed by what it found. */
  lemma {:induction false} BinOpRhsKeepsOrder(prec: int, lhs: Expr, st: PState)
    requires prec >= 0
    requires ParseBinOpRhs(prec, lhs, st).out.Some?
    ensures var r := ParseBinOpRhs(prec, lhs, st);
      Flat(r.out.value) + ChainTail(r.st) == Flat(lhs) + ChainTail(st)
    decreases P.Left(st), 0
  {
    var tp := P.GetBinopPrecedence(st);
    if tp.value < prec {
      ChainTailAfterLookup(st);
    } else {
      var next := P.GetNextToken(tp.st);
      var op := st.cur as char;
      var rr := ParseRhs(tp.value, next);
      BinOpRhsStep(prec, lhs, st);
      var rhs := rr.out.value;
      RhsKeepsOrder(tp.value, next);
      BinOpRhsKeepsOrder(prec, Binary(op, lhs, rhs), rr.st);
      assert ChainTail(st) == [Operator(op)] + Chain(next);
      var r := ParseBinOpRhs(prec, lhs, st);
      Regroup(Flat(r.out.value), ChainTail(r.st), lhs, op, rhs, ChainTail(rr.st), Chain(next), ChainTail(st));
    }
  }

  /** One turn of the loop of `ParseBinOpRhs` at an operator binding at least
      as tight as `prec`: its right operand, then the loop again. */
  lemma BinOpRhsStep(prec: int, lhs: Expr, st: PState)
    requires prec >= 0 && P.GetBinopPrecedence(st).value >= prec
    ensures var tp := P.GetBinopPrecedence(st);
      var rr := ParseRhs(tp.value, P.GetNextToken(tp.st));
      && P.Left(rr.st) < P.Left(st)
      && ParseBinOpRhs(prec, lhs, st)
         == if rr.out.None? then Parsed(None, rr.st)
            else ParseBinOpRhs(prec, Binary(st.cur as char, lhs, rr.out.value), rr.st)
  {
  }

  /** A right operand and what it leaves are the chain it was parsed from. */
  lemma {:induction false} RhsKeepsOrder(opPrec: int, st: PState)
    requires opPrec >= 0
    requires ParseRhs(opPrec, st).out.Some?
    ensures var r := ParseRhs(opPrec, st);
      Flat(r.out.value) + ChainTail(r.st) == Chain(st)
    decreases P.Left(st), 2
  {
    var p := ParsePrimary(st);
    ClimbKeepsOrder(opPrec, p.out.value, p.st);
  }

  /** After a right operand, climbing to tighter operators keeps the order. */
  lemma {:induction false} ClimbKeepsOrder(opPrec: int, rhs: Expr, st: PState)
    requires opPrec >= 0
    requires ClimbAfter(opPrec, rhs, st).out.Some?
    ensures var r := ClimbAfter(opPrec, rhs, st);
      Flat(r.out.value) + ChainTail(r.st) == Flat(rhs) + ChainTail(st)
    decreases P.Left(st), 1
  {
    var np := P.GetBinopPrecedence(st);
    ChainTailAfterLookup(st);
    if opPrec < np.value {
      BinOpRhsKeepsOrder(opPrec + 1, rhs, np.st);
    }
  }

  /** A parsed expression, read in order, is exactly the chain of primaries
      and operators it was parsed from: precedence climbing decides the
      grouping only, and no operand or operator is lost, added or moved. */
  lemma ExpressionKeepsOrder(st: PState)
    requires ParseExpression(st).out.Some?
    ensures Flat(ParseExpression(st).out.value) == Chain(st)
  {
    var l := ParsePrimary(st);
    var r := ParseBinOpRhs(0, l.out.value, l.st);
    BinOpRhsKeepsOrder(0, l.out.value, l.st);
    assert P.GetBinopPrecedence(r.st).value < 0;
    assert ChainTail(r.st) == [];
  }

  /** Inside parentheses the order is kept too: the value of `( e )` reads
      in order as the chain after `(`. */
  lemma ParenKeepsOrder(st: PState)
    requires st.cur == '(' as int && ParseParenExpr(st).out.Some?
    ensures Flat(ParseParenExpr(st).out.value) == Chain(P.GetNextToken(st))
  {
    ExpressionKeepsOrder(P.GetNextToken(st));
  }

  // ---------------------------------------------------------------------
  // The precedence table

  /** No entry of the table is positive: no character is an operator. */
  predicate NoOperators(table: map<char, int>)
  {
    forall c :: c in table ==> table[c] <= 0
  }

  /** Parsing never changes the precedence of a character: a character that
      is an operator stays one with the same precedence, and one that is not
      stays not one. `Init` is therefore the only source of operators. */
  lemma PrecedencesAreFixed(st: PState, st': PState, c: char)
    requires P.Extends(st, st')
    ensures c in st.table && st.table[c] > 0 <==> c in st'.table && st'.table[c] > 0
    ensures c in st.table && st.table[c] > 0 ==> st'.table[c] == st.table[c]
  {
  }

  /** Without `Init` (as `main` runs), an expression is only its primary: the
      lookup after it finds no operator. */
  lemma WithoutInitNoBinaryExpression(st: PState)
    requires NoOperators(st.table)
    ensures var p := ParsePrimary(st);
      ParseExpression(st) == if p.out.None? then p else Parsed(p.out, P.GetBinopPrecedence(p.st).st)
  {
    var p := ParsePrimary(st);
    if p.out.Some? {
      assert NoOperators(p.st.table) by {
        forall c | c in p.st.table ensures p.st.table[c] <= 0 {
          PrecedencesAreFixed(st, p.st, c);
        }
      }
    }
  }

  /** `Init` makes exactly `<`, `+`, `-` and `*` operators of an empty table,
      binding in that order from loosest to tightest (`+` and `-` alike). */
  lemma InitOperators(c: char)
    ensures var t := InitTable(map[]);
      && (c in t && t[c] > 0 <==> c in {'<', '+', '-', '*'})
      && t['<'] < t['+'] == t['-'] < t['*']
  {
  }

  // ---------------------------------------------------------------------
  // Failures

  /** A token that starts no primary gives a null result: no diagnostic, and
      the token stays current (`defalut:` is a label, not a case), so only
      `HandleTopLevelExpression`'s recovery skips it, still silently. */
  lemma UnknownTokenIsSilent(st: PState)
    requires st.cur != TokenIdentifier && st.cur != TokenNumber && st.cur != '(' as int
    ensures ParseExpression(st) == Parsed(None, st)
    ensures ParseTopLevelExpr(st) == Parsed(None, st)
    ensures HandleTopLevelExpression(st) == Parsed(None, P.GetNextToken(st))
    ensures HandleTopLevelExpression(st).st.errors == st.errors
  {
  }

  /** Every argument of a call must be followed by `,`: an argument followed
      directly by `)` is reported and fails the call. */
  lemma ArgumentNeedsComma(args: seq<Expr>, st: PState)
    requires st.cur != ')' as int
    requires ParseExpression(st).out.Some? && ParseExpression(st).st.cur == ')' as int
    ensures var a := ParseExpression(st).st;
      ParseArgs(args, st) == Parsed(None, a.(errors := a.errors + ["expected ')' or ',' in argument list"]))
  {
  }

  /** An identifier not followed by `(` is a variable reference, and only the
      identifier is consumed. */
  lemma PrimaryIsVariable(st: PState)
    requires st.cur == TokenIdentifier && P.GetNextToken(st).cur != '(' as int
    ensures ParsePrimary(st) == Parsed(Some(Variable(st.ident)), P.GetNextToken(st))
  {
  }

  /** An identifier followed by `(` is a call exactly when the argument loop
      after `(` succeeds: it is named by the identifier, holds the collected
      arguments, and eats the `)` the loop stopped on. A failed loop fails
      the call where the loop failed. */
  lemma CallWithArguments(st: PState)
    requires st.cur == TokenIdentifier && P.GetNextToken(st).cur == '(' as int
    ensures var a := ParseArgs([], P.GetNextToken(P.GetNextToken(st)));
      && (ParsePrimary(st).out.Some? <==> a.out.Some?)
      && (a.out.Some? ==> ParsePrimary(st) == Parsed(Some(Call(st.ident, a.out.value)), P.GetNextToken(a.st)))
      && (a.out.None? ==> ParsePrimary(st) == Parsed(None, a.st))
  {
  }

  /** A finished argument loop with `args` put in front of what it collected. */
  function Prepend(args: seq<Expr>, r: Parsed<seq<Expr>>): Parsed<seq<Expr>>
  {
    if r.out.Some? then Parsed(Some(args + r.out.value), r.st) else r
  }

  /** Putting two runs of arguments in front one after the other. */
  lemma PrependTwice(args: seq<Expr>, e: Expr, r: Parsed<seq<Expr>>)
    ensures Prepend(args, Prepend([e], r)) == Prepend(args + [e], r)
  {
    if r.out.Some? {
      assert args + ([e] + r.out.value) == args + [e] + r.out.value;
    }
  }

  /** One turn of the argument loop that goes on: an argument, then `,`. */
  lemma ArgsUnfold(args: seq<Expr>, st: PState)
    requires st.cur != ')' as int
    requires ParseExpression(st).out.Some? && ParseExpression(st).st.cur == ',' as int
    ensures var a := ParseExpression(st);
      ParseArgs(args, st) == ParseArgs(args + [a.out.value], P.GetNextToken(a.st))
  {
  }

  /** Where the loop stops at once (at `)`, on a failed argument, or on a
      missing `,`), the arguments given come first as well. */
  lemma ArgsStopAccumulate(args: seq<Expr>, st: PState)
    requires st.cur == ')' as int ||
      var a := ParseExpression(st); !a.out.Some? || a.st.cur != ',' as int
    ensures ParseArgs(args, st) == Prepend(args, ParseArgs([], st))
  {
    if st.cur == ')' as int {
      assert args + [] == args;
    }
  }

  /** The collected arguments do not depend on what was collected before:
      the loop appends the arguments it parses after those it was given. */
  lemma {:induction false} ArgsAccumulate(args: seq<Expr>, st: PState)
    ensures ParseArgs(args, st) == Prepend(args, ParseArgs([], st))
    decreases P.Left(st)
  {
    var a := ParseExpression(st);
    if st.cur != ')' as int && a.out.Some? && a.st.cur == ',' as int {
      var e := a.out.value;
      var next := P.GetNextToken(a.st);
      ArgsUnfold([], st);
      ArgsUnfold(args, st);
      assert [] + [e] == [e];
      assert P.Left(next) < P.Left(st);
      ArgsAccumulate(args + [e], next);
      ArgsAccumulate([e], next);
      PrependTwice(args, e, ParseArgs([], next));
    } else {
      ArgsStopAccumulate(args, st);
    }
  }

  /** Before `)`, a successful loop parses an expression, requires `,` after
      it, eats the `,` and goes on with that expression added. The argument
      is the next one collected, and it reads in order as the chain there.
      With `ArgsAccumulate` this gives every argument, in order. */
  lemma ArgStep(args: seq<Expr>, st: PState)
    requires st.cur != ')' as int && ParseArgs(args, st).out.Some?
    ensures var a := ParseExpression(st);
      && a.out.Some? && a.st.cur == ',' as int
      && ParseArgs(args, st) == ParseArgs(args + [a.out.value], P.GetNextToken(a.st))
      && ParseArgs(args, st).out.value[|args|] == a.out.value
      && Flat(a.out.value) == Chain(st)
  {
    var a := ParseExpression(st);
    assert (args + [a.out.value])[|args|] == a.out.value;
    ExpressionKeepsOrder(st);
  }

  /** A definition succeeds exactly when its prototype and then its body do.
      It is then that prototype with a body that reads in order as the chain
      after the prototype. A failed prototype ends the parse where the
      prototype failed; a failed body ends it where the body failed. */
  lemma DefinitionParts(st: PState)
    ensures var p := ParsePrototype(P.GetNextToken(st));
      var d := ParseDefinition(st);
      && (d.out.Some? <==> p.out.Some? && ParseExpression(p.st).out.Some?)
      && (d.out.Some? ==> d.out.value.proto == p.out.value && Flat(d.out.value.body) == Chain(p.st))
      && (p.out.None? ==> d.st == p.st)
      && (p.out.Some? ==> d.st == ParseExpression(p.st).st)
  {
    var p := ParsePrototype(P.GetNextToken(st));
    if p.out.Some? && ParseExpression(p.st).out.Some? {
      ExpressionKeepsOrder(p.st);
    }
  }

  /** A top-level expression always becomes the parameterless `__anon_expr`. */
  lemma TopLevelIsAnonymous(st: PState)
    ensures var r := ParseTopLevelExpr(st);
      && r.st == ParseExpression(st).st
      && (r.out.Some? <==> ParseExpression(st).out.Some?)
      && (r.out.Some? ==> r.out.value == Function(Prototype(AnonName, []), ParseExpression(st).out.value))
  {
  }

  // ---------------------------------------------------------------------
  // The main loop's progress

  /** Reading parameter names keeps or lowers what is left. */
  lemma {:induction false} ParamsLeft(names: seq<string>, st: PState)
    ensures P.Left(P.ParamsFrom(names, st).st) <= P.Left(st)
    decreases |st.toks|, if st.cur == TokenIdentifier then 1 else 0
  {
    if st.cur == TokenIdentifier {
      ParamsLeft(names + [st.ident], P.GetNextToken(st));
    }
  }

  /** A prototype keeps or lowers what is left. */
  lemma PrototypeLeft(st: PState)
    ensures P.Left(ParsePrototype(st).st) <= P.Left(st)
  {
    if st.cur == TokenIdentifier {
      var st1 := P.GetNextToken(st);
      if st1.cur == '(' as int {
        ParamsLeft([], P.GetNextToken(st1));
      }
    }
  }

  /** Each handler the main loop calls, on any token but end of input, leaves
      less input than it found, whether it succeeds or recovers by skipping a
      token: the loop cannot get stuck. */
  lemma HandlersMakeProgress(st: PState)
    requires st.cur != TokenEof
    ensures P.Left(HandleDefinition(st).st) < P.Left(st)
    ensures P.Left(HandleExtern(st).st) < P.Left(st)
    ensures P.Left(HandleTopLevelExpression(st).st) < P.Left(st)
  {
    PrototypeLeft(P.GetNextToken(st));
    var p := ParsePrototype(P.GetNextToken(st));
    if p.out.Some? {
      var e := ParseExpression(p.st);
    }
  }
}
