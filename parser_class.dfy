/** Class `Parser` of parser.h / parser.cpp. Every method is proved to leave
    the state, and return the result, that the function of the same name in
    `ParserSpec` computes from the state before the call. */
module ParserClass {
  import opened Chars
  import opened Tokens
  import opened Lexer
  import opened Ast
  import P = ParserSpec

  type Outcome<T> = P.Outcome<T>

  class Parser {
    var binopPrecedence: map<char, int>
    var currentToken: int
    const lexer: Lex
    /** The lines `LogError` has written to stderr. */
    var diagnostics: seq<string>

    ghost predicate Valid()
      reads lexer`pos, lexer`lastChar
    {
      lexer.Valid()
    }

    /** The whole state the parse functions work on. */
    ghost function State(): P.PState
      reads this, lexer
      requires Valid()
    {
      P.PState(currentToken, lexer.identifierStr, lexer.numStr,
               TokenStream(lexer.Pending(), lexer.identifierStr, lexer.numStr),
               binopPrecedence, diagnostics)
    }

    /** `Parser() = default` leaves `current_token_` and the lexer's `last_char`
        uninitialised, so the model takes both as parameters; the table is
        empty. */
    constructor (input: seq<Byte>, firstChar: Byte, firstToken: int)
      ensures Valid()
      ensures State() == P.PState(firstToken, "", "", TokenStream([firstChar] + input, "", ""), map[], [])
    {
      binopPrecedence := map[];
      currentToken := firstToken;
      lexer := new Lex(input, firstChar);
      diagnostics := [];
    }

    /** `GetNextToken`: returns the token it stores in `current_token_`. */
    method GetNextToken() returns (tok: int)
      requires Valid()
      modifies this, lexer
      ensures Valid() && tok == currentToken
      ensures State() == P.GetNextToken(old(State()))
    {
      StreamAdvances(lexer.Pending(), lexer.identifierStr, lexer.numStr);
      tok := lexer.GetToken();
      currentToken := tok;
    }

    /** `lexer.GetToken()` called directly, bypassing `current_token_`. */
    method LexerGetToken()
      requires Valid()
      modifies lexer
      ensures Valid()
      ensures State() == P.LexerGetToken(old(State()))
    {
      StreamAdvances(lexer.Pending(), lexer.identifierStr, lexer.numStr);
      var eaten := lexer.GetToken();
    }

    /** `LogError` / `LogErrorP`. */
    method LogError<T>(msg: string) returns (r: Outcome<T>)
      requires Valid()
      modifies this`diagnostics
      ensures Valid()
      ensures P.Step(r, State()) == P.LogError(old(State()), msg)
    {
      diagnostics := diagnostics + [msg];
      r := P.None;
    }

    /** `GetBinopPrecedence`, whose `operator[]` may insert a key. */
    method GetBinopPrecedence() returns (prec: int)
      requires Valid()
      modifies this`binopPrecedence
      ensures Valid()
      ensures P.Prec(prec, State()) == P.GetBinopPrecedence(old(State()))
    {
      if !IsAscii(currentToken) {
        return -1;
      }
      var c := currentToken as char;
      if c !in binopPrecedence {
        binopPrecedence := binopPrecedence[c := 0];
      }
      var tokenPrec := binopPrecedence[c];
      if tokenPrec <= 0 {
        return -1;
      }
      return tokenPrec;
    }

    method ParseNumberExpr() returns (r: Outcome<Expr>)
      requires Valid()
      modifies this, lexer
      ensures Valid()
      ensures P.Step(r, State()) == P.ParseNumberExpr(old(State()))
    {
      var num := lexer.numStr;
      var eaten := GetNextToken();
      return P.Some(Expr.Number(num));
    }

    method ParseParenExpr(fuel: nat) returns (r: Outcome<Expr>)
      requires Valid()
      modifies this, lexer
      ensures Valid()
      ensures P.Step(r, State()) == P.ParseParenExpr(old(State()), fuel)
      decreases fuel, 0
    {
      if fuel == 0 {
        return P.OutOfFuel;
      }
      LexerGetToken();
      r := ParseExpression(fuel - 1);
      if !r.Some? {
        return;
      }
      if currentToken != ')' as int {
        r := LogError("expected ')' ");
        return;
      }
      LexerGetToken();
    }

    method ParseIdentifierExpr(fuel: nat) returns (r: Outcome<Expr>)
      requires Valid()
      modifies this, lexer
      ensures Valid()
      ensures P.Step(r, State()) == P.ParseIdentifierExpr(old(State()), fuel)
      decreases fuel, 0
    {
      if fuel == 0 {
        return P.OutOfFuel;
      }
      var callName := lexer.identifierStr;
      var tok := GetNextToken();
      if currentToken != '(' as int {
        return P.Some(Variable(callName));
      }
      var args: seq<Expr> := [];
      tok := GetNextToken();
      if currentToken != ')' as int {
        var a := ParseArgs(fuel - 1);
        if !a.Some? {
          return if a.None? then P.None else P.OutOfFuel;
        }
        args := a.value;
      }
      tok := GetNextToken();
      return P.Some(Call(callName, args));
    }

    /** The argument loop of `ParseIdentifierExpr`. */
    method ParseArgs(fuel: nat) returns (r: Outcome<seq<Expr>>)
      requires Valid()
      modifies this, lexer
      ensures Valid()
      ensures P.Step(r, State()) == P.ParseArgs([], old(State()), fuel)
      decreases fuel, 0
    {
      var args: seq<Expr> := [];
      var f: nat := fuel;
      while true
        invariant Valid() && f <= fuel
        invariant P.ParseArgs(args, State(), f) == P.ParseArgs([], old(State()), fuel)
        decreases f
      {
        if f == 0 {
          return P.OutOfFuel;
        }
        var arg := ParseExpression(f - 1);
        if !arg.Some? {
          return if arg.None? then P.None else P.OutOfFuel;
        }
        args := args + [arg.value];
        if currentToken == ')' as int {
          return P.Some(args);
        }
        if currentToken != ',' as int {
          var ignored := LogError<Expr>("Expected ')' or ',' in arguments list");
        }
        var tok := GetNextToken();
        f := f - 1;
      }
    }

    method ParseExpression(fuel: nat) returns (r: Outcome<Expr>)
      requires Valid()
      modifies this, lexer
      ensures Valid()
      ensures P.Step(r, State()) == P.ParseExpression(old(State()), fuel)
      decreases fuel, 0
    {
      if fuel == 0 {
        return P.OutOfFuel;
      }
      var lhs := ParsePrimary(fuel - 1);
      if !lhs.Some? {
        return lhs;
      }
      r := ParseBinOpRhs(0, lhs.value, fuel - 1);
    }

    method ParseBinOpRhs(exprPrec: int, lhs0: Expr, fuel: nat) returns (r: Outcome<Expr>)
      requires Valid() && exprPrec >= 0
      modifies this, lexer
      ensures Valid()
      ensures P.Step(r, State()) == P.ParseBinOpRhs(exprPrec, lhs0, old(State()), fuel)
      decreases fuel, 0
    {
      var lhs := lhs0;
      var f: nat := fuel;
      while true
        invariant Valid() && f <= fuel
        invariant P.ParseBinOpRhs(exprPrec, lhs, State(), f)
                  == P.ParseBinOpRhs(exprPrec, lhs0, old(State()), fuel)
        decreases f
      {
        if f == 0 {
          return P.OutOfFuel;
        }
        var tokenPrec := GetBinopPrecedence();
        if tokenPrec < exprPrec {
          return P.Some(lhs);
        }
        var binOp := currentToken;
        var tok := GetNextToken();
        var rhs := ParseRhs(tokenPrec, f - 1);
        if !rhs.Some? {
          return rhs;
        }
        lhs := Binary(binOp as char, lhs, rhs.value);
        f := f - 1;
      }
    }

    /** The right operand step of the loop in `ParseBinOpRhs`. */
    method ParseRhs(tokenPrec: int, fuel: nat) returns (r: Outcome<Expr>)
      requires Valid() && tokenPrec >= 0
      modifies this, lexer
      ensures Valid()
      ensures P.Step(r, State()) == P.ParseRhs(tokenPrec, old(State()), fuel)
      decreases fuel, 2
    {
      r := ParsePrimary(fuel);
      if !r.Some? {
        return;
      }
      var nextPrec := GetBinopPrecedence();
      if tokenPrec < nextPrec {
        r := ParseBinOpRhs(tokenPrec + 1, r.value, fuel);
      }
    }

    /** `ParseParimary`, with its fall-through from `default:`. */
    method ParsePrimary(fuel: nat) returns (r: Outcome<Expr>)
      requires Valid()
      modifies this, lexer
      ensures Valid()
      ensures P.Step(r, State()) == P.ParsePrimary(old(State()), fuel)
      decreases fuel, 1
    {
      if fuel == 0 {
        return P.OutOfFuel;
      }
      ghost var s := State();
      if currentToken == TokenNumber {
        r := ParseNumberExpr();
        return;
      }
      if currentToken == '(' as int {
        r := ParseParenExpr(fuel - 1);
        return;
      }
      if currentToken != TokenIdentifier {
        var ignored := LogError<Expr>("unknown token when expecting an expression");
      }
      assert P.ParsePrimary(s, fuel) == P.ParseIdentifierExpr(State(), fuel - 1);
      r := ParseIdentifierExpr(fuel - 1);
    }

    method ParsePrototype() returns (r: Outcome<Prototype>)
      requires Valid()
      modifies this, lexer
      ensures Valid()
      ensures P.Step(r, State()) == P.ParsePrototype(old(State()))
    {
      if currentToken != TokenIdentifier {
        r := LogError("Expected function name in prototype");
        return;
      }
      var fnName := lexer.identifierStr;
      var tok := GetNextToken();
      if currentToken != '(' as int {
        r := LogError("Expected '(' in prototype");
        return;
      }
      var argNames: seq<string> := [];
      tok := GetNextToken();
      ghost var first := State();
      while tok == TokenIdentifier
        invariant Valid() && tok == currentToken
        invariant P.ParamsFrom(argNames, State()) == P.ParamsFrom([], first)
        decreases |State().toks|, if currentToken == TokenIdentifier then 1 else 0
      {
        argNames := argNames + [lexer.identifierStr];
        tok := GetNextToken();
      }
      if currentToken != ')' as int {
        r := LogError("Expected ')' in prototype");
        return;
      }
      tok := GetNextToken();
      return P.Some(Prototype(fnName, argNames));
    }

    method ParseDefinition(fuel: nat) returns (r: Outcome<Function>)
      requires Valid()
      modifies this, lexer
      ensures Valid()
      ensures P.Step(r, State()) == P.ParseDefinition(old(State()), fuel)
    {
      var tok := GetNextToken();
      var proto := ParsePrototype();
      if !proto.Some? {
        return P.None;
      }
      var body := ParseExpression(fuel);
      if body.Some? {
        return P.Some(Function(proto.value, body.value));
      } else if body.None? {
        return P.None;
      }
      return P.OutOfFuel;
    }

    method ParseExtern() returns (r: Outcome<Prototype>)
      requires Valid()
      modifies this, lexer
      ensures Valid()
      ensures P.Step(r, State()) == P.ParseExtern(old(State()))
    {
      var tok := GetNextToken();
      r := ParsePrototype();
    }

    method ParseTopLevelExpr(fuel: nat) returns (r: Outcome<Function>)
      requires Valid()
      modifies this, lexer
      ensures Valid()
      ensures P.Step(r, State()) == P.ParseTopLevelExpr(old(State()), fuel)
    {
      var expr := ParseExpression(fuel);
      if expr.Some? {
        return P.Some(Function(Prototype("", []), expr.value));
      } else if expr.None? {
        return P.None;
      }
      return P.OutOfFuel;
    }

    /** `HandleDefinition`, returning what it parsed instead of printing it. */
    method HandleDefinition(fuel: nat) returns (r: Outcome<Function>)
      requires Valid()
      modifies this, lexer
      ensures Valid()
      ensures P.Step(r, State()) == P.HandleDefinition(old(State()), fuel)
    {
      r := ParseDefinition(fuel);
      if r.None? {
        var tok := GetNextToken();
      }
    }

    method HandleExtern() returns (r: Outcome<Prototype>)
      requires Valid()
      modifies this, lexer
      ensures Valid()
      ensures P.Step(r, State()) == P.HandleExtern(old(State()))
    {
      r := ParseExtern();
      if r.None? {
        var tok := GetNextToken();
      }
    }

    method HandleTopLevelExpression(fuel: nat) returns (r: Outcome<Function>)
      requires Valid()
      modifies this, lexer
      ensures Valid()
      ensures P.Step(r, State()) == P.HandleTopLevelExpression(old(State()), fuel)
    {
      r := ParseTopLevelExpr(fuel);
      if r.None? {
        var tok := GetNextToken();
      }
    }
  }
}
