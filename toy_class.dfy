/** The global state of toy.cpp's parser and the functions over it, as a
    class: `CurTok`, `BinopPrecedence` and the diagnostics are its fields, and
    the lexer state `gettok` works on (`LastChar`, `Identifier`, `NumVal`) is
    a `Lex` object. Every method is proved to leave the state, and return the
    result, that the function of the same name in `ToySpec` computes from the
    state before the call. */
module ToyClass {
  import opened Chars
  import opened Tokens
  import opened Lexer
  import opened ToyLexer
  import opened Ast
  import P = ParserSpec
  import T = ToySpec

  type Option<X> = T.Option<X>

  class ToyParser {
    var curTok: int
    var binopPrecedence: map<char, int>
    const lex: Lex
    /** The lines `LogError` has written to stderr. */
    var diagnostics: seq<string>

    ghost predicate Valid()
      reads lex`pos, lex`lastChar
    {
      lex.Valid()
    }

    /** The whole state the parse functions work on. */
    ghost function State(): P.PState
      reads this, lex
      requires Valid()
    {
      P.PState(curTok, lex.identifierStr, lex.numStr,
               ToyTokenStream(lex.Pending(), lex.identifierStr, lex.numStr),
               binopPrecedence, diagnostics)
    }

    /** The globals as the program starts: `CurTok` is a zero-initialised
        static, `LastChar` starts as `' '`, `Identifier` is empty and the table
        is empty (`main` never calls `Init`). */
    constructor (input: seq<Byte>)
      ensures Valid()
      ensures State() == P.PState(0, "", "", ToyTokenStream([' ' as Byte] + input, "", ""), map[], [])
    {
      curTok := 0;
      binopPrecedence := map[];
      lex := new Lex(input, ' ' as Byte);
      diagnostics := [];
    }

    /** `getNextToken`: returns the token it stores in `CurTok`. */
    method GetNextToken() returns (tok: int)
      requires Valid()
      modifies this, lex
      ensures Valid() && tok == curTok
      ensures State() == P.GetNextToken(old(State()))
    {
      ToyStreamAdvances(lex.Pending(), lex.identifierStr, lex.numStr);
      tok := GetTok(lex);
      curTok := tok;
    }

    /** `LogError` / `LogErrorP`. */
    method LogError<X>(msg: string) returns (r: Option<X>)
      requires Valid()
      modifies this`diagnostics
      ensures Valid()
      ensures T.Parsed(r, State()) == T.LogError(old(State()), msg)
    {
      diagnostics := diagnostics + [msg];
      r := T.None;
    }

    /** `GetTokPrecedence`, whose `operator[]` may insert a key. */
    method GetTokPrecedence() returns (prec: int)
      requires Valid()
      modifies this`binopPrecedence
      ensures Valid()
      ensures P.Prec(prec, State()) == P.GetBinopPrecedence(old(State()))
    {
      if !IsAscii(curTok) {
        return -1;
      }
      var c := curTok as char;
      if c !in binopPrecedence {
        binopPrecedence := binopPrecedence[c := 0];
      }
      var tokPrec := binopPrecedence[c];
      if tokPrec <= 0 {
        return -1;
      }
      return tokPrec;
    }

    /** `Init`. */
    method Init()
      requires Valid()
      modifies this`binopPrecedence
      ensures Valid()
      ensures binopPrecedence == T.InitTable(old(binopPrecedence))
    {
      binopPrecedence := binopPrecedence['<' := 10];
      binopPrecedence := binopPrecedence['+' := 20];
      binopPrecedence := binopPrecedence['-' := 20];
      binopPrecedence := binopPrecedence['*' := 40];
    }

    method ParseNumberExpr() returns (r: Option<Expr>)
      requires Valid()
      modifies this, lex
      ensures Valid()
      ensures T.Parsed(r, State()) == T.ParseNumberExpr(old(State()))
    {
      var num := lex.numStr;
      var eaten := GetNextToken();
      return T.Some(Expr.Number(num));
    }

    method ParseParenExpr() returns (r: Option<Expr>)
      requires Valid() && curTok == '(' as int
      modifies this, lex
      ensures Valid()
      ensures T.Parsed(r, State()) == T.ParseParenExpr(old(State()))
      decreases P.Left(State()), 0
    {
      var eaten := GetNextToken();
      r := ParseExpression();
      if r.None? {
        return;
      }
      if curTok != ')' as int {
        r := LogError("expected ')'");
        return;
      }
      eaten := GetNextToken();
    }

    method ParseIdentifierExpr() returns (r: Option<Expr>)
      requires Valid()
      modifies this, lex
      ensures Valid()
      ensures T.Parsed(r, State()) == T.ParseIdentifierExpr(old(State()))
      decreases P.Left(State()), 0
    {
      var idName := lex.identifierStr;
      var tok := GetNextToken();
      if curTok != '(' as int {
        return T.Some(Variable(idName));
      }
      tok := GetNextToken();
      var args := ParseArgs();
      if args.None? {
        return T.None;
      }
      tok := GetNextToken();
      return T.Some(Call(idName, args.value));
    }

    /** The argument loop of `ParseIdentifierExpr`. */
    method ParseArgs() returns (r: Option<seq<Expr>>)
      requires Valid()
      modifies this, lex
      ensures Valid()
      ensures T.Parsed(r, State()) == T.ParseArgs([], old(State()))
      decreases P.Left(State()), 3
    {
      var args: seq<Expr> := [];
      while curTok != ')' as int
        invariant Valid() && P.Left(State()) <= P.Left(old(State()))
        invariant T.ParseArgs(args, State()) == T.ParseArgs([], old(State()))
        decreases P.Left(State())
      {
        var arg := ParseExpression();
        if arg.None? {
          return T.None;
        }
        args := args + [arg.value];
        if curTok != ',' as int {
          r := LogError("expected ')' or ',' in argument list");
          return;
        }
        var tok := GetNextToken();
      }
      return T.Some(args);
    }

    /** `ParsePrimary`: the `defalut:` label is never reached. */
    method ParsePrimary() returns (r: Option<Expr>)
      requires Valid()
      modifies this, lex
      ensures Valid()
      ensures T.Parsed(r, State()) == T.ParsePrimary(old(State()))
      decreases P.Left(State()), 1
    {
      if curTok == TokenIdentifier {
        r := ParseIdentifierExpr();
      } else if curTok == TokenNumber {
        r := ParseNumberExpr();
      } else if curTok == '(' as int {
        r := ParseParenExpr();
      } else {
        r := T.None;
      }
    }

    method ParseBinOpRhs(exprPrec: int, lhs0: Expr) returns (r: Option<Expr>)
      requires Valid() && exprPrec >= 0
      modifies this, lex
      ensures Valid()
      ensures T.Parsed(r, State()) == T.ParseBinOpRhs(exprPrec, lhs0, old(State()))
      decreases P.Left(State()), 0
    {
      var lhs := lhs0;
      while true
        invariant Valid() && P.Left(State()) <= P.Left(old(State()))
        invariant T.ParseBinOpRhs(exprPrec, lhs, State()) == T.ParseBinOpRhs(exprPrec, lhs0, old(State()))
        decreases P.Left(State())
      {
        var tokPrec := GetTokPrecedence();
        if tokPrec < exprPrec {
          return T.Some(lhs);
        }
        var binop := curTok;
        var tok := GetNextToken();
        var rhs := ParseRhs(tokPrec);
        if rhs.None? {
          return T.None;
        }
        lhs := Binary(binop as char, lhs, rhs.value);
      }
    }

    /** The right operand step of the loop in `ParseBinOpRhs`. */
    method ParseRhs(tokPrec: int) returns (r: Option<Expr>)
      requires Valid() && tokPrec >= 0
      modifies this, lex
      ensures Valid()
      ensures T.Parsed(r, State()) == T.ParseRhs(tokPrec, old(State()))
      decreases P.Left(State()), 2
    {
      r := ParsePrimary();
      if r.Some? {
        r := ClimbAfter(tokPrec, r.value);
      }
    }

    /** The precedence test after the right operand, and the climb. */
    method ClimbAfter(tokPrec: int, rhs: Expr) returns (r: Option<Expr>)
      requires Valid() && tokPrec >= 0
      modifies this, lex
      ensures Valid()
      ensures T.Parsed(r, State()) == T.ClimbAfter(tokPrec, rhs, old(State()))
      decreases P.Left(State()), 1
    {
      var nextPrec := GetTokPrecedence();
      if tokPrec < nextPrec {
        r := ParseBinOpRhs(tokPrec + 1, rhs);
      } else {
        r := T.Some(rhs);
      }
    }

    method ParseExpression() returns (r: Option<Expr>)
      requires Valid()
      modifies this, lex
      ensures Valid()
      ensures T.Parsed(r, State()) == T.ParseExpression(old(State()))
      decreases P.Left(State()), 2
    {
      var lhs := ParsePrimary();
      if lhs.None? {
        return T.None;
      }
      r := ParseBinOpRhs(0, lhs.value);
    }

    method ParsePrototype() returns (r: Option<Prototype>)
      requires Valid()
      modifies this, lex
      ensures Valid()
      ensures T.Parsed(r, State()) == T.ParsePrototype(old(State()))
    {
      if curTok != TokenIdentifier {
        r := LogError("expected function name in prototype");
        return;
      }
      var fnName := lex.identifierStr;
      var tok := GetNextToken();
      if curTok != '(' as int {
        r := LogError("expected '(' in prototype");
        return;
      }
      var argNames: seq<string> := [];
      tok := GetNextToken();
      ghost var first := State();
      while tok == TokenIdentifier
        invariant Valid() && tok == curTok
        invariant P.ParamsFrom(argNames, State()) == P.ParamsFrom([], first)
        decreases |State().toks|, if curTok == TokenIdentifier then 1 else 0
      {
        argNames := argNames + [lex.identifierStr];
        tok := GetNextToken();
      }
      if curTok != ')' as int {
        r := LogError("expected ')' in prototype");
        return;
      }
      tok := GetNextToken();
      return T.Some(Prototype(fnName, argNames));
    }

    method ParseDefinition() returns (r: Option<Function>)
      requires Valid()
      modifies this, lex
      ensures Valid()
      ensures T.Parsed(r, State()) == T.ParseDefinition(old(State()))
    {
      var tok := GetNextToken();
      var proto := ParsePrototype();
      if proto.None? {
        return T.None;
      }
      var e := ParseExpression();
      if e.Some? {
        return T.Some(Function(proto.value, e.value));
      }
      return T.None;
    }

    method ParseExtern() returns (r: Option<Prototype>)
      requires Valid()
      modifies this, lex
      ensures Valid()
      ensures T.Parsed(r, State()) == T.ParseExtern(old(State()))
    {
      var tok := GetNextToken();
      r := ParsePrototype();
    }

    method ParseTopLevelExpr() returns (r: Option<Function>)
      requires Valid()
      modifies this, lex
      ensures Valid()
      ensures T.Parsed(r, State()) == T.ParseTopLevelExpr(old(State()))
    {
      var e := ParseExpression();
      if e.Some? {
        return T.Some(Function(Prototype(T.AnonName, []), e.value));
      }
      return T.None;
    }

    /** `HandleDefinition`, returning what it parsed instead of printing it. */
    method HandleDefinition() returns (r: Option<Function>)
      requires Valid()
      modifies this, lex
      ensures Valid()
      ensures T.Parsed(r, State()) == T.HandleDefinition(old(State()))
    {
      r := ParseDefinition();
      if r.None? {
        var tok := GetNextToken();
      }
    }

    method HandleExtern() returns (r: Option<Prototype>)
      requires Valid()
      modifies this, lex
      ensures Valid()
      ensures T.Parsed(r, State()) == T.HandleExtern(old(State()))
    {
      r := ParseExtern();
      if r.None? {
        var tok := GetNextToken();
      }
    }

    method HandleTopLevelExpression() returns (r: Option<Function>)
      requires Valid()
      modifies this, lex
      ensures Valid()
      ensures T.Parsed(r, State()) == T.HandleTopLevelExpression(old(State()))
    {
      r := ParseTopLevelExpr();
      if r.None? {
        var tok := GetNextToken();
      }
    }
  }
}
