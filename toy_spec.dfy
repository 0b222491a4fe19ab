/** The recursive-descent parser of toy.cpp as pure functions over the state
    its globals make up: `CurTok`, `Identifier`, `NumVal`, the lexemes
    `gettok` has still to deliver, `BinopPrecedence`, and the diagnostics.
    The state, `getNextToken` (the same as parser.cpp's `GetNextToken`), the
    diagnostic log, `GetTokPrecedence` (the same lookup as
    `GetBinopPrecedence`) and the parameter loop are shared with `ParserSpec`.

    Every path of this snapshot consumes input or fails, so unlike parser.cpp
    it needs no fuel: the functions terminate by the measure `Left`, which
    every parse step keeps or lowers and every successful one lowers. */
module ToySpec {
  import opened Chars
  import opened Tokens
  import opened Ast
  import P = ParserSpec

  type PState = P.PState

  /** A finished parse: a value or a null pointer. Unlike parser.cpp's
      `ParserSpec.Outcome` it has no `OutOfFuel`: every toy.cpp parse
      terminates, so it is never cut short. */
  datatype Option<T> = Some(value: T) | None

  /** The result of a parse and the state it leaves. */
  datatype Parsed<T> = Parsed(out: Option<T>, st: PState)

  /** `LogError` / `LogErrorP`: a diagnostic, then a null result. */
  function LogError<T>(st: PState, msg: string): (r: Parsed<T>)
    ensures r.out.None? && r.st.errors == st.errors + [msg]
    ensures r.st == st.(errors := r.st.errors)
  {
    Parsed(None, P.Log(st, msg))
  }

  /** `ParseNumberExpr`: the number, then the next token. */
  function ParseNumberExpr(st: PState): (r: Parsed<Expr>)
    ensures P.Left(r.st) <= P.Left(st)
    ensures st.cur != TokenEof ==> P.Left(r.st) < P.Left(st)
    ensures P.Extends(st, r.st)
  {
    Parsed(Some(Expr.Number(st.num)), P.GetNextToken(st))
  }

  /** `ParseParenEpxr`: `(`, an expression, `)`. A missing `)` is reported and
      left current. */
  function ParseParenExpr(st: PState): (r: Parsed<Expr>)
    requires st.cur == '(' as int
    ensures P.Left(r.st) < P.Left(st)
    ensures P.Extends(st, r.st)
    ensures var e := ParseExpression(P.GetNextToken(st));
      && (r.out.Some? <==> e.out.Some? && e.st.cur == ')' as int)
      && (r.out.Some? ==> r.out == e.out && r.st == P.GetNextToken(e.st))
      && (e.out.Some? && e.st.cur != ')' as int ==> r.st == P.Log(e.st, "expected ')'"))
      && (e.out.None? ==> r.st == e.st)
    decreases P.Left(st), 0
  {
    var e := ParseExpression(P.GetNextToken(st));
    if e.out.None? then e
    else if e.st.cur != ')' as int then LogError(e.st, "expected ')'")
    else Parsed(e.out, P.GetNextToken(e.st))
  }

  /** `ParseIdentifierExpr`: a variable, or a call and its arguments. */
  function ParseIdentifierExpr(st: PState): (r: Parsed<Expr>)
    ensures P.Left(r.st) <= P.Left(st)
    ensures st.cur != TokenEof && r.out.Some? ==> P.Left(r.st) < P.Left(st)
    ensures P.Extends(st, r.st)
    decreases P.Left(st), 0
  {
    var name := st.ident;
    var st1 := P.GetNextToken(st);
    if st1.cur != '(' as int then Parsed(Some(Variable(name)), st1)
    else
      var a := ParseArgs([], P.GetNextToken(st1));
      match a.out
      case Some(args) => Parsed(Some(Call(name, args)), P.GetNextToken(a.st))
      case None => Parsed(None, a.st)
  }

  /** The argument loop of `ParseIdentifierExpr`, with `args` collected so
      far: it stops at `)`, and every argument must be followed by `,`. */
  function ParseArgs(args: seq<Expr>, st: PState): (r: Parsed<seq<Expr>>)
    ensures P.Left(r.st) <= P.Left(st)
    ensures r.out.Some? ==> r.st.cur == ')' as int && args <= r.out.value
    ensures P.Extends(st, r.st)
    decreases P.Left(st), 3
  {
    if st.cur == ')' as int then Parsed(Some(args), st)
    else
      var a := ParseExpression(st);
      match a.out
      case None => Parsed(None, a.st)
      case Some(e) =>
        if a.st.cur != ',' as int then LogError(a.st, "expected ')' or ',' in argument list")
        else ParseArgs(args + [e], P.GetNextToken(a.st))
  }

  /** `ParsePrimary`. `defalut:` is a label, not a case: a token that is no
      identifier, number or `(` matches nothing, and the switch falls out to
      `return nullptr` with no diagnostic and nothing consumed. */
  function ParsePrimary(st: PState): (r: Parsed<Expr>)
    ensures P.Left(r.st) <= P.Left(st)
    ensures r.out.Some? ==> P.Left(r.st) < P.Left(st)
    ensures P.Extends(st, r.st)
    decreases P.Left(st), 1
  {
    if st.cur == TokenIdentifier then ParseIdentifierExpr(st)
    else if st.cur == TokenNumber then ParseNumberExpr(st)
    else if st.cur == '(' as int then ParseParenExpr(st)
    else Parsed(None, st)
  }

  /** `ParseBinOpRhs`: the precedence-climbing loop. On success the current
      token binds looser than `prec`. */
  function ParseBinOpRhs(prec: int, lhs: Expr, st: PState): (r: Parsed<Expr>)
    requires prec >= 0
    ensures P.Left(r.st) <= P.Left(st)
    ensures r.out.Some? ==> P.GetBinopPrecedence(r.st) == P.Prec(P.GetBinopPrecedence(r.st).value, r.st)
    ensures r.out.Some? ==> P.GetBinopPrecedence(r.st).value < prec
    ensures P.Extends(st, r.st)
    decreases P.Left(st), 0
  {
    var tp := P.GetBinopPrecedence(st);
    if tp.value < prec then Parsed(Some(lhs), tp.st)
    else
      var r := ParseRhs(tp.value, P.GetNextToken(tp.st));
      match r.out
      case Some(rhs) => ParseBinOpRhs(prec, Binary(tp.st.cur as char, lhs, rhs), r.st)
      case None => Parsed(None, r.st)
  }

  /** The right operand of an operator of precedence `opPrec` inside the loop
      of `ParseBinOpRhs`: a primary and, when the operator after it binds
      tighter, everything of higher precedence that follows. */
  function ParseRhs(opPrec: int, st: PState): (r: Parsed<Expr>)
    requires opPrec >= 0
    ensures P.Left(r.st) <= P.Left(st)
    ensures r.out.Some? ==> P.Left(r.st) < P.Left(st)
    ensures P.Extends(st, r.st)
    decreases P.Left(st), 2
  {
    var r := ParsePrimary(st);
    match r.out
    case Some(rhs) => ClimbAfter(opPrec, rhs, r.st)
    case None => r
  }

  /** What follows a right operand `rhs` in the loop of `ParseBinOpRhs`: when
      the operator after it binds tighter than `opPrec`, everything of higher
      precedence that follows becomes the operand. */
  function ClimbAfter(opPrec: int, rhs: Expr, st: PState): (r: Parsed<Expr>)
    requires opPrec >= 0
    ensures P.Left(r.st) <= P.Left(st)
    ensures P.Extends(st, r.st)
    decreases P.Left(st), 1
  {
    var np := P.GetBinopPrecedence(st);
    if opPrec < np.value then ParseBinOpRhs(opPrec + 1, rhs, np.st)
    else Parsed(Some(rhs), np.st)
  }

  /** `ParseExpression`: a primary, then the binary operators that follow it. */
  function ParseExpression(st: PState): (r: Parsed<Expr>)
    ensures P.Left(r.st) <= P.Left(st)
    ensures r.out.Some? ==> P.Left(r.st) < P.Left(st)
    ensures P.Extends(st, r.st)
    decreases P.Left(st), 2
  {
    var l := ParsePrimary(st);
    match l.out
    case Some(lhs) => ParseBinOpRhs(0, lhs, l.st)
    case None => l
  }

  /** The result of a prototype parse that starts at `st`. It needs a name,
      then `(`, then the run of identifiers after it, then `)`. It fails at the
      first of these three that is missing, with one diagnostic and the
      offending token left current. Otherwise its parameters are the run's
      names in order, and the token after `)` is current. */
  predicate PrototypeOutcome(st: PState, r: Parsed<Prototype>)
  {
    var st1 := P.GetNextToken(st);
    var st2 := P.GetNextToken(st1);
    var end := P.Advance(st2, P.RunOfNames(st2));
    if st.cur != TokenIdentifier then r == Parsed(None, P.Log(st, "expected function name in prototype"))
    else if st1.cur != '(' as int then r == Parsed(None, P.Log(st1, "expected '(' in prototype"))
    else if end.cur != ')' as int then r == Parsed(None, P.Log(end, "expected ')' in prototype"))
    else r == Parsed(Some(Prototype(st.ident, P.NamesAhead(st2, P.RunOfNames(st2)))), P.GetNextToken(end))
  }

  /** `ParsePrototype`: a name, `(`, identifiers, `)`. A failure leaves the
      offending token current. */
  function ParsePrototype(st: PState): (r: Parsed<Prototype>)
    ensures PrototypeOutcome(st, r)
    ensures P.Extends(st, r.st)
  {
    if st.cur != TokenIdentifier then LogError(st, "expected function name in prototype")
    else
      var name := st.ident;
      var st1 := P.GetNextToken(st);
      if st1.cur != '(' as int then LogError(st1, "expected '(' in prototype")
      else
        var ps := P.ParamsFrom([], P.GetNextToken(st1));
        assert ps.names == P.NamesAhead(P.GetNextToken(st1), P.RunOfNames(P.GetNextToken(st1)));
        if ps.st.cur != ')' as int then LogError(ps.st, "expected ')' in prototype")
        else Parsed(Some(Prototype(name, ps.names)), P.GetNextToken(ps.st))
  }

  /** `ParseDefinition`: eat `def`, then a prototype and a body. */
  function ParseDefinition(st: PState): (r: Parsed<Function>)
    ensures P.Extends(st, r.st)
  {
    var p := ParsePrototype(P.GetNextToken(st));
    match p.out
    case None => Parsed(None, p.st)
    case Some(proto) =>
      var e := ParseExpression(p.st);
      match e.out
      case Some(body) => Parsed(Some(Function(proto, body)), e.st)
      case None => Parsed(None, e.st)
  }

  /** `ParseExtern`: eat `extern`, then a prototype. */
  function ParseExtern(st: PState): (r: Parsed<Prototype>)
    ensures PrototypeOutcome(P.GetNextToken(st), r)
    ensures P.Extends(st, r.st)
  {
    ParsePrototype(P.GetNextToken(st))
  }

  /** The name `ParseTopLevelExpr` gives the function it wraps an expression in. */
  const AnonName := "__anon_expr"

  /** `ParseTopLevelExpr`: an expression wrapped in a parameterless function. */
  function ParseTopLevelExpr(st: PState): (r: Parsed<Function>)
    ensures P.Extends(st, r.st)
  {
    var e := ParseExpression(st);
    match e.out
    case Some(body) => Parsed(Some(Function(Prototype(AnonName, []), body)), e.st)
    case None => Parsed(None, e.st)
  }

  /** `HandleDefinition`: on a null result, skip one token. */
  function HandleDefinition(st: PState): (r: Parsed<Function>)
    ensures P.Extends(st, r.st)
  {
    var r := ParseDefinition(st);
    if r.out.None? then Parsed(None, P.GetNextToken(r.st)) else r
  }

  /** `HandleExtern`: on a null result, skip one token. */
  function HandleExtern(st: PState): (r: Parsed<Prototype>)
    ensures P.Extends(st, r.st)
  {
    var r := ParseExtern(st);
    if r.out.None? then Parsed(None, P.GetNextToken(r.st)) else r
  }

  /** `HandleTopLevelExpression`: on a null result, skip one token. */
  function HandleTopLevelExpression(st: PState): (r: Parsed<Function>)
    ensures P.Extends(st, r.st)
  {
    var r := ParseTopLevelExpr(st);
    if r.out.None? then Parsed(None, P.GetNextToken(r.st)) else r
  }

  /** `Init`: the four operators and their precedences. */
  function InitTable(table: map<char, int>): (t: map<char, int>)
    ensures t.Keys == table.Keys + {'<', '+', '-', '*'}
    ensures t['<'] == 10 && t['+'] == 20 && t['-'] == 20 && t['*'] == 40
    ensures forall c :: c in table && c !in {'<', '+', '-', '*'} ==> t[c] == table[c]
  {
    table['<' := 10]['+' := 20]['-' := 20]['*' := 40]
  }
}
