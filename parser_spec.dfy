/** The recursive-descent parser of parser.h / parser.cpp as pure functions
    over the parser's whole state. The class in `ParserClass` is proved to
    compute exactly these functions.

    Two paths of parser.cpp never return (a parenthesised expression, and a
    call left open at the end of the input), so every function that takes
    part in the recursion carries a `fuel` bound: each call and each loop
    iteration spends one unit, and a computation that runs out reports
    `OutOfFuel` instead of a result. */
module ParserSpec {
  import opened Chars
  import opened Tokens
  import opened Lexer
  import opened Ast

  /** Everything a parse step reads or changes: `current_token_`, the lexer's
      `identifier_str` and number lexeme, the tokens the lexer has still to
      deliver (`Lexer.TokenStream` of the characters it has still to read),
      `BinopPrecedence`, and the diagnostics written to stderr so far. */
  datatype PState = PState(cur: int, ident: string, num: string, toks: seq<Lexeme>,
                           table: map<char, int>, errors: seq<string>)

  /** A finished parse gives a value or a null pointer; a bounded one may also
      stop short. */
  datatype Outcome<T> = Some(value: T) | None | OutOfFuel

  datatype Step<T> = Step(out: Outcome<T>, st: PState)

  /** The result of `GetBinopPrecedence` and the state it leaves (its map
      lookup may insert a key). */
  datatype Prec = Prec(value: int, st: PState)

  /** The parameter names a prototype has collected and the state after them. */
  datatype Params = Params(names: seq<string>, st: PState)

  /** How much input is left: two per lexeme still to come, one more while
      the current token is not end of input. Every step of either parser
      keeps or lowers it. */
  function Left(st: PState): nat
  {
    2 * |st.toks| + if st.cur == TokenEof then 0 else 1
  }

  /** What a parse step may do to the table and the log: a precedence lookup
      adds an absent character with precedence 0 and changes no entry, and
      diagnostics are only ever appended. */
  predicate Extends(st: PState, st': PState)
  {
    && st.errors <= st'.errors
    && (forall c :: c in st.table ==> c in st'.table && st'.table[c] == st.table[c])
    && (forall c :: c in st'.table && c !in st.table ==> st'.table[c] == 0)
  }

  /** `lexer.GetToken()` on its own: the lexer moves on, `current_token_` stays. */
  function LexerGetToken(st: PState): PState
  {
    if st.toks == [] then st
    else st.(ident := st.toks[0].ident, num := st.toks[0].num, toks := st.toks[1..])
  }

  /** `GetNextToken`: the lexer moves on and `current_token_` takes its token;
      past the last token it is end of input, with nothing else changed. */
  function GetNextToken(st: PState): PState
  {
    if st.toks == [] then st.(cur := TokenEof)
    else st.(cur := st.toks[0].tok, ident := st.toks[0].ident, num := st.toks[0].num, toks := st.toks[1..])
  }

  /** Writing one diagnostic line to stderr. */
  function Log(st: PState, msg: string): PState
  {
    st.(errors := st.errors + [msg])
  }

  /** `LogError` / `LogErrorP`: a diagnostic, then a null result. */
  function LogError<T>(st: PState, msg: string): (r: Step<T>)
    ensures r.out.None? && r.st.errors == st.errors + [msg]
    ensures r.st == st.(errors := r.st.errors)
  {
    Step(None, Log(st, msg))
  }

  /** `GetBinopPrecedence`. Looking a character up with `operator[]` inserts it
      with value 0 when it is absent. */
  function GetBinopPrecedence(st: PState): (p: Prec)
    ensures p.st == st.(table := p.st.table)
  {
    if !IsAscii(st.cur) then Prec(-1, st)
    else
      var c := st.cur as char;
      var table := if c in st.table then st.table else st.table[c := 0];
      Prec(if table[c] <= 0 then -1 else table[c], st.(table := table))
  }

  /** `ParseNumberExpr`: the number lexeme, then the next token. */
  function ParseNumberExpr(st: PState): Step<Expr>
  {
    Step(Some(Expr.Number(st.num)), GetNextToken(st))
  }

  /** `ParseParenExpr`. Both tokens are eaten with `lexer.GetToken()`, so
      `current_token_` still holds `(` when the inner expression is parsed. */
  function ParseParenExpr(st: PState, fuel: nat): Step<Expr>
    decreases fuel, 0
  {
    if fuel == 0 then Step(OutOfFuel, st)
    else
      var r := ParseExpression(LexerGetToken(st), fuel - 1);
      if !r.out.Some? then r
      else if r.st.cur != ')' as int then LogError(r.st, "expected ')' ")
      else Step(r.out, LexerGetToken(r.st))
  }

  /** `ParseIdentifierExpr`: a variable, or a call and its arguments. The name
      is whatever `identifier_str` holds on entry. */
  function ParseIdentifierExpr(st: PState, fuel: nat): Step<Expr>
    decreases fuel, 0
  {
    if fuel == 0 then Step(OutOfFuel, st)
    else
      var name := st.ident;
      var st1 := GetNextToken(st);
      if st1.cur != '(' as int then Step(Some(Variable(name)), st1)
      else
        var st2 := GetNextToken(st1);
        if st2.cur == ')' as int then Step(Some(Call(name, [])), GetNextToken(st2))
        else
          var a := ParseArgs([], st2, fuel - 1);
          match a.out
          case Some(args) => Step(Some(Call(name, args)), GetNextToken(a.st))
          case None => Step(None, a.st)
          case OutOfFuel => Step(OutOfFuel, a.st)
  }

  /** The argument loop of `ParseIdentifierExpr`, with `args` collected so far.
      It stops on `)` (which it leaves current) or on a failed argument; any
      other separator than `,` is reported and eaten all the same. */
  function ParseArgs(args: seq<Expr>, st: PState, fuel: nat): (r: Step<seq<Expr>>)
    ensures r.out.Some? ==> |r.out.value| > |args| && args <= r.out.value
    ensures r.out.Some? ==> r.st.cur == ')' as int
    decreases fuel, 0
  {
    if fuel == 0 then Step(OutOfFuel, st)
    else
      var a := ParseExpression(st, fuel - 1);
      match a.out
      case OutOfFuel => Step(OutOfFuel, a.st)
      case None => Step(None, a.st)
      case Some(e) =>
        if a.st.cur == ')' as int then Step(Some(args + [e]), a.st)
        else
          var st1 := if a.st.cur != ',' as int then Log(a.st, "Expected ')' or ',' in arguments list") else a.st;
          ParseArgs(args + [e], GetNextToken(st1), fuel - 1)
  }

  /** `ParseExpression`: a primary, then the binary operators that follow it. */
  function ParseExpression(st: PState, fuel: nat): Step<Expr>
    decreases fuel, 0
  {
    if fuel == 0 then Step(OutOfFuel, st)
    else
      var l := ParsePrimary(st, fuel - 1);
      match l.out
      case Some(lhs) => ParseBinOpRhs(0, lhs, l.st, fuel - 1)
      case _ => l
  }

  /** `ParseBinOpRhs`: the precedence-climbing loop. Each iteration that does
      not stop takes one operator and its right operand and folds them into
      `lhs`. On success the current token binds looser than `prec`. */
  function ParseBinOpRhs(prec: int, lhs: Expr, st: PState, fuel: nat): (r: Step<Expr>)
    requires prec >= 0
    ensures r.out.Some? ==> GetBinopPrecedence(r.st) == Prec(GetBinopPrecedence(r.st).value, r.st)
    ensures r.out.Some? ==> GetBinopPrecedence(r.st).value < prec
    decreases fuel, 0
  {
    if fuel == 0 then Step(OutOfFuel, st)
    else
      var tp := GetBinopPrecedence(st);
      if tp.value < prec then Step(Some(lhs), tp.st)
      else
        var r := ParseRhs(tp.value, GetNextToken(tp.st), fuel - 1);
        match r.out
        case Some(rhs) => ParseBinOpRhs(prec, Binary(tp.st.cur as char, lhs, rhs), r.st, fuel - 1)
        case _ => r
  }

  /** The right operand of an operator of precedence `opPrec` inside the loop
      of `ParseBinOpRhs`: a primary and, when the operator after it binds
      tighter, everything of higher precedence that follows. */
  function ParseRhs(opPrec: int, st: PState, fuel: nat): Step<Expr>
    requires opPrec >= 0
    decreases fuel, 2
  {
    var r := ParsePrimary(st, fuel);
    match r.out
    case Some(rhs) =>
      var np := GetBinopPrecedence(r.st);
      if opPrec < np.value then ParseBinOpRhs(opPrec + 1, rhs, np.st, fuel)
      else Step(Some(rhs), np.st)
    case _ => r
  }

  /** `ParseParimary`. Its `default:` case has no `return`: after the
      diagnostic it falls through into the identifier case, which then takes
      the unexpected token for a name held in a stale `identifier_str`. */
  function ParsePrimary(st: PState, fuel: nat): Step<Expr>
    decreases fuel, 1
  {
    if fuel == 0 then Step(OutOfFuel, st)
    else if st.cur == TokenNumber then ParseNumberExpr(st)
    else if st.cur == '(' as int then ParseParenExpr(st, fuel - 1)
    else
      var st1 := if st.cur == TokenIdentifier then st
                 else Log(st, "unknown token when expecting an expression");
      ParseIdentifierExpr(st1, fuel - 1)
  }

  /** The state after `k` calls of `GetNextToken`. */
  function Advance(st: PState, k: nat): PState
    decreases k
  {
    if k == 0 then st else Advance(GetNextToken(st), k - 1)
  }

  /** How many tokens in a row, from the current one on, are identifiers: the
      run stops at the first token that is not one. */
  function RunOfNames(st: PState): (n: nat)
    ensures forall i :: 0 <= i < n ==> Advance(st, i).cur == TokenIdentifier
    ensures Advance(st, n).cur != TokenIdentifier
    decreases |st.toks|, if st.cur == TokenIdentifier then 1 else 0
  {
    if st.cur != TokenIdentifier then 0 else 1 + RunOfNames(GetNextToken(st))
  }

  /** The names the next `n` tokens carry, in the order they come. */
  function NamesAhead(st: PState, n: nat): seq<string>
  {
    seq(n, i requires 0 <= i < n => Advance(st, i).ident)
  }

  /** The parameter loop of `ParsePrototype`, entered with the token after the
      previous name current: collect identifiers while they keep coming. */
  function ParamsFrom(names: seq<string>, st: PState): (r: Params)
    ensures r.names == names + NamesAhead(st, RunOfNames(st))
    ensures r.st == Advance(st, RunOfNames(st))
    ensures names <= r.names
    ensures r.st.cur != TokenIdentifier
    ensures |r.st.toks| <= |st.toks|
    ensures r.st.table == st.table && r.st.errors == st.errors
    decreases |st.toks|, if st.cur == TokenIdentifier then 1 else 0
  {
    if st.cur != TokenIdentifier then Params(names, st)
    else
      ParamsFrom(names + [st.ident], GetNextToken(st))
  }

  /** The result of a prototype parse that starts at `st`. It needs a name,
      then `(`, then the run of identifiers after it, then `)`. It fails at the
      first of these three that is missing, with one diagnostic and the
      offending token left current. Otherwise its parameters are the run's
      names in order, and the token after `)` is current. */
  predicate PrototypeOutcome(st: PState, r: Step<Prototype>)
  {
    var st1 := GetNextToken(st);
    var st2 := GetNextToken(st1);
    var end := Advance(st2, RunOfNames(st2));
    if st.cur != TokenIdentifier then r == Step(None, Log(st, "Expected function name in prototype"))
    else if st1.cur != '(' as int then r == Step(None, Log(st1, "Expected '(' in prototype"))
    else if end.cur != ')' as int then r == Step(None, Log(end, "Expected ')' in prototype"))
    else r == Step(Some(Prototype(st.ident, NamesAhead(st2, RunOfNames(st2)))), GetNextToken(end))
  }

  /** `ParsePrototype`: a name, `(`, identifiers, `)`. A failure leaves the
      offending token current. */
  function ParsePrototype(st: PState): (r: Step<Prototype>)
    ensures PrototypeOutcome(st, r)
    ensures Left(r.st) <= Left(st)
    ensures Extends(st, r.st)
  {
    if st.cur != TokenIdentifier then LogError(st, "Expected function name in prototype")
    else
      var name := st.ident;
      var st1 := GetNextToken(st);
      if st1.cur != '(' as int then LogError(st1, "Expected '(' in prototype")
      else
        var ps := ParamsFrom([], GetNextToken(st1));
        assert ps.names == NamesAhead(GetNextToken(st1), RunOfNames(GetNextToken(st1)));
        if ps.st.cur != ')' as int then LogError(ps.st, "Expected ')' in prototype")
        else Step(Some(Prototype(name, ps.names)), GetNextToken(ps.st))
  }

  /** `ParseDefinition`: eat `def`, then a prototype and a body. */
  function ParseDefinition(st: PState, fuel: nat): Step<Function>
  {
    var p := ParsePrototype(GetNextToken(st));
    match p.out
    case Some(proto) =>
      var b := ParseExpression(p.st, fuel);
      (match b.out
       case Some(body) => Step(Some(Function(proto, body)), b.st)
       case None => Step(None, b.st)
       case OutOfFuel => Step(OutOfFuel, b.st))
    case _ => Step(None, p.st)
  }

  /** `ParseExtern`: eat `extern`, then a prototype. */
  function ParseExtern(st: PState): (r: Step<Prototype>)
    ensures PrototypeOutcome(GetNextToken(st), r)
    ensures Extends(st, r.st)
  {
    ParsePrototype(GetNextToken(st))
  }

  /** `ParseTopLevelExpr`: an expression wrapped in a nameless, parameterless
      function. */
  function ParseTopLevelExpr(st: PState, fuel: nat): (r: Step<Function>)
    ensures r.out.Some? ==> r.out.value.proto == Prototype("", [])
  {
    var e := ParseExpression(st, fuel);
    match e.out
    case Some(body) => Step(Some(Function(Prototype("", []), body)), e.st)
    case None => Step(None, e.st)
    case OutOfFuel => Step(OutOfFuel, e.st)
  }

  /** `HandleDefinition`: on a null result, skip one token. */
  function HandleDefinition(st: PState, fuel: nat): Step<Function>
  {
    var r := ParseDefinition(st, fuel);
    if r.out.None? then Step(None, GetNextToken(r.st)) else r
  }

  /** `HandleExtern`: on a null result, skip one token. */
  function HandleExtern(st: PState): (r: Step<Prototype>)
    ensures Extends(st, r.st)
  {
    var r := ParseExtern(st);
    if r.out.None? then Step(None, GetNextToken(r.st)) else r
  }

  /** `HandleTopLevelExpression`: on a null result, skip one token. */
  function HandleTopLevelExpression(st: PState, fuel: nat): Step<Function>
  {
    var r := ParseTopLevelExpr(st, fuel);
    if r.out.None? then Step(None, GetNextToken(r.st)) else r
  }
}
