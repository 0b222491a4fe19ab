# Kaleidoscope front end, modelled in Dafny

This project models the front end of a Kaleidoscope toy-language compiler: the
tokenizer and the operator-precedence recursive-descent parser that turn source
text into a syntax tree. The repository holds two snapshots of this front end,
and both are modelled:

- **lex.h / lex.cpp and parser.h / parser.cpp.** Class `Lex` with
  `GetToken`, and class `Parser` with its parse methods,
  `GetBinopPrecedence` and the three `Handle*` recovery methods.
- **toy.cpp.** The older single-file version. It keeps its state in globals
  (`CurTok`, `BinopPrecedence`, `LastChar`, `Identifier`, `NumVal`). It has
  `gettok`, `getNextToken`, the parse functions, `GetTokPrecedence`, `Init`
  and `Handle*`.

Each snapshot is built in three layers:

1. **Pure functions.** A specification function gives what one call
   computes:
   - `Lexer.NextToken` and `ToyLexer.ToyNextToken` work over the characters
     still to be read.
   - `ParserSpec` and `ToySpec` work over a state value `PState`. It holds the
     current token, the lexer's `identifier_str` and number lexeme, the
     lexemes still to come, the precedence table, and the diagnostics written
     so far.
2. **Imperative classes.** The loops and field updates of the source are
   methods of `Lexer.Lex`, `ParserClass.Parser` and `ToyClass.ToyParser`.
   Each method is proved to return and leave exactly what its specification
   function gives for the state before the call.
3. **Lemmas.** `LexerFacts`, `ParserFacts` and `ToyFacts` state what the
   front end promises over those functions. `ParserExamples` and
   `ToyExamples` work through concrete inputs.

The syntax tree (`Ast`) is a datatype. Every node of parser.h owns its children
through `unique_ptr` and is never changed after construction, so no subtree is
shared.

Where the code and the design description of the repository disagree, the
model follows the code:

- In parser.cpp, `ParseParimary`'s `default:` logs a diagnostic and then falls
  into `ParseIdentifierExpr`. An unexpected token is therefore read with the
  stale `identifier_str` as its name: as a variable, or, when `(` follows it,
  as a call (`+(1)` is a call of the last identifier read). No expression ever
  fails there.
- In toy.cpp, `defalut:` is a label, not a case. An unexpected token gives a
  null result with no diagnostic.
- parser.cpp's `ParseParenExpr` eats `(` with `lexer.GetToken()`, which leaves
  `current_token_` on `(`. A parenthesised expression therefore never
  finishes parsing.
- In parser.cpp a bad separator in an argument list is reported and then
  eaten like a comma. In toy.cpp every argument must be followed by `,`, so in
  toy.cpp `f(1)` fails.
- toy.cpp's `gettok` returns the line terminator after a `#` comment as a
  character token.
- parser.cpp names the anonymous top-level function `""`. toy.cpp names it
  `__anon_expr`.
- The precedence lookup uses `operator[]`, which inserts every character it
  looks up with value 0, so the table grows while parsing.
- Whitespace is C's `isspace`, which also includes `\v` and `\f`.
- toy.cpp's `main` never calls `Init`, so by default no character is an
  operator there.

## Model

| member | source | states |
|---|---|---|
| Chars.Span | lex.cpp:7-9 | the greedy scans: the length of the longest prefix of one character class; every character before it is in the class and the one at it is not |
| Tokens.EncodeIsInjective | lex.h:5-15 | the five token codes are distinct and negative, so decoding a returned `int` gives back every token, and no keyword code is mistaken for a character |
| Tokens.EofIsCEof | lex.h:6 | `TOKEN_EOF` is C's `EOF`, so the end-of-input test on `last_char` and the returned code agree |
| Lexer.NextToken | lex.cpp:4-59 | one call of `GetToken` consumes no input it does not read, strictly consumes input unless it returns end of input, and end of input leaves nothing |
| Lexer.TokenAt | lex.cpp:12-58 | the same for the token-recognition part after whitespace, comment restart included |
| Lexer.NextTokenShape | lex.cpp:4-59 | every call only consumes a suffix; `identifier_str` changes only with a word token and the number only with a number token; a character token is never whitespace, a letter, a digit, `.` or `#`; every other result is one of the five codes |
| Lexer.StreamAdvances | parser.h:103 | one call delivers the first lexeme of the token stream and leaves the rest of that stream; at end of input the stream is empty and the state unchanged |
| Lexer.SkipsLeadingSpace | lex.cpp:7-9 | leading whitespace is skipped before any token is recognised |
| Lexer.Lex.constructor | lex.h:29 | the lexer starts with the given first `last_char`, the input unread and empty payload fields |
| Lexer.Lex.ReadChar | lex.cpp:8 | `last_char = getchar()` drops exactly one pending character, or yields `EOF` at the end |
| Lexer.Lex.SkipWhitespace | lex.cpp:7-9 | the whitespace loop drops exactly the leading whitespace run |
| Lexer.Lex.ScanIdentifier | lex.cpp:13-16 | the identifier loop stores exactly the maximal word in `identifier_str` and stops on the character after it |
| Lexer.Lex.ScanNumber | lex.cpp:30-33 | the number loop collects exactly the maximal run of digits and dots |
| Lexer.Lex.SkipComment | lex.cpp:41-43 | the comment loop drops the comment up to, not including, its line terminator |
| Lexer.Lex.LexWord | lex.cpp:12-24 | the identifier branch returns and leaves what `NextToken` gives |
| Lexer.Lex.LexNumber | lex.cpp:27-37 | the number branch returns and leaves what `NextToken` gives |
| Lexer.Lex.GetToken | lex.cpp:4-59 | `GetToken` returns the token, and leaves the fields and pending input, that `NextToken` gives for the state before the call |
| LexerFacts.WhitespaceSkipped | lex.cpp:7-9 | any whitespace prefix makes no difference to the token read |
| LexerFacts.IdentifierToken | lex.cpp:12-24 | a maximal word yields `TOKEN_DEF` for exactly `def`, `TOKEN_EXTERN` for exactly `extern` and `TOKEN_IDENTIFIER` otherwise, carries the word, and leaves the next character pending |
| LexerFacts.DefineIsAnIdentifier | lex.cpp:17-23 | `define` is an identifier, not the keyword `def` |
| LexerFacts.NumberToken | lex.cpp:27-37 | a maximal run of digits and dots is one number token with that text, `identifier_str` untouched |
| LexerFacts.SeveralDotsAreOneNumber | lex.cpp:27-37 | `1.2.3` is accepted as one number lexeme |
| LexerFacts.CommentSkipped | lex.cpp:40-48 | a `#` comment ended by a line terminator produces no token: the result is the token after it |
| LexerFacts.CommentToEndOfInput | lex.cpp:40-53 | a comment running to the end of the input gives end of input |
| LexerFacts.EndOfInputIsSticky | lex.cpp:51-53 | at the end of the input `TOKEN_EOF` comes back with the state unchanged, and again on every later call |
| LexerFacts.CharacterToken | lex.cpp:56-58 | any other character is its own token and exactly one character is consumed |
| LexerFacts.StreamStartsWith | parser.h:103 | the token stream is the first token followed by the stream of the rest of the input |
| Ast.Flat | parser.h:34-44 | reading a tree in order gives an odd number of items, the first and the last an operand |
| Ast.FlatAlternates | parser.h:34-44 | in that reading operands and operators alternate: an even position holds an operand and an odd one an operator |
| ParserSpec.GetBinopPrecedence | parser.cpp:211-222 | the lookup changes nothing but the table |
| ParserSpec.ParseArgs | parser.cpp:45-64 | a finished argument loop has added at least one argument to those before it and stops at `)`; `ParserFacts.ArgsAccumulate`, `ArgsInOrder` and `SeparatorStep` say which arguments it adds, in order, and what each separator logs |
| ParserSpec.ParseBinOpRhs | parser.cpp:96-135 | when the loop returns, the current token's precedence is below the minimum, and looking it up again changes nothing |
| ParserSpec.ParamsFrom | parser.cpp:152-155 | the parameter loop appends, in order, the names of the maximal run of identifier tokens ahead, stops on the first token after that run, and logs nothing |
| ParserSpec.RunOfNames | parser.cpp:154-155 | the length of the maximal run of identifier tokens ahead: each of that many tokens is an identifier and the one after them is not |
| ParserSpec.ParsePrototype | parser.cpp:142-163 | a prototype is the function name and, in order, the names of the maximal identifier run after `(`, with `)` eaten; otherwise exactly one of three failures: no name, no `(`, or no `)` after the run, each with its one diagnostic and the offending token current; never gives back input and only extends table and log |
| ParserSpec.ParseExtern | parser.cpp:182-185 | an extern is the prototype outcome of the token after `extern`: the same name, parameters and three failures |
| ParserSpec.LogError | parser.h:147-155 | the result is null, exactly one diagnostic is appended and nothing else changes |
| ParserSpec.LexerGetToken | parser.cpp:16 | no contract of its own: the lexer moves on one lexeme and `current_token_` is left as it was; `ParserClass.Parser.LexerGetToken` is proved equal to it |
| ParserSpec.GetNextToken | parser.h:103 | no contract of its own: the lexer moves on one lexeme and `current_token_` takes it; `Lexer.StreamAdvances` says what one step of the stream is |
| ParserSpec.ParseNumberExpr | parser.cpp:7-13 | no contract of its own; `ParserFacts.PrimaryIsNumber` states its result |
| ParserSpec.ParseParenExpr | parser.cpp:15-26 | no contract of its own; `ParserFacts.ParenNeverReturns` states that it never finishes |
| ParserSpec.ParseIdentifierExpr | parser.cpp:28-67 | no contract of its own; `ParserFacts.PrimaryIsVariable`, `CallWithoutArguments`, `CallWithArguments`, `IdentifierNeverFails`, `IdentifierConsumes` and `IdentifierMoreFuel` state its properties |
| ParserSpec.ParseExpression | parser.cpp:69-75 | no contract of its own; `ParserFacts.ExpressionKeepsOrder`, `ExpressionNeverFails`, `ExpressionConsumes` and `ExpressionMoreFuel` state its properties |
| ParserSpec.ParseRhs | parser.cpp:111-131 | no contract of its own; `ParserFacts.RhsKeepsOrder`, `RhsNeverFails`, `RhsConsumes` and `RhsMoreFuel` state its properties |
| ParserSpec.ParsePrimary | parser.cpp:197-209 | no contract of its own; `ParserFacts.PrimaryNeverFails`, `PrimaryConsumes`, `PrimaryMoreFuel` and `ExpressionAtEnd` state its properties |
| ParserSpec.ParseDefinition | parser.cpp:171-179 | no contract of its own; `ParserFacts.DefinitionParts`, `DefinitionFailsOnlyInPrototype` and `DefinitionConsumes` state its properties |
| ParserSpec.ParseTopLevelExpr | parser.cpp:188-195 | a top-level function is unnamed (`""`) and has no parameters |
| ParserSpec.HandleDefinition | parser.cpp:247-254 | no contract of its own; `ParserFacts.DefinitionConsumes` and `FailedHandlersMoveOn` state its properties |
| ParserSpec.HandleExtern | parser.cpp:256-263 | table entries never change and diagnostics are only appended; `ParserFacts.ExternConsumes` and `FailedHandlersMoveOn` add that it never gives back input |
| ParserSpec.HandleTopLevelExpression | parser.cpp:265-272 | no contract of its own; `ParserFacts.TopLevelNeverFails` and `TopLevelConsumes` state its properties |
| ParserClass.Parser.constructor | parser.h:91 | the parser starts with an empty table, no diagnostics, and the given `current_token_` and first character |
| ParserClass.Parser.GetNextToken | parser.h:103 | the lexer moves on one token and `current_token_` takes that token, which is returned |
| ParserClass.Parser.LexerGetToken | parser.cpp:16 | a direct `lexer.GetToken()` moves the lexer on and leaves `current_token_` as it was |
| ParserClass.Parser.LogError | parser.h:147-155 | one diagnostic is appended and the result is null |
| ParserClass.Parser.GetBinopPrecedence | parser.cpp:211-222 | returns and leaves what `ParserSpec.GetBinopPrecedence` gives |
| ParserClass.Parser.ParseNumberExpr | parser.cpp:7-13 | returns and leaves what `ParserSpec.ParseNumberExpr` gives |
| ParserClass.Parser.ParseParenExpr | parser.cpp:15-26 | returns and leaves what `ParserSpec.ParseParenExpr` gives |
| ParserClass.Parser.ParseIdentifierExpr | parser.cpp:28-67 | returns and leaves what `ParserSpec.ParseIdentifierExpr` gives |
| ParserClass.Parser.ParseArgs | parser.cpp:45-64 | the argument loop returns and leaves what `ParserSpec.ParseArgs` gives |
| ParserClass.Parser.ParseExpression | parser.cpp:69-75 | returns and leaves what `ParserSpec.ParseExpression` gives |
| ParserClass.Parser.ParseBinOpRhs | parser.cpp:96-135 | the climbing loop returns and leaves what `ParserSpec.ParseBinOpRhs` gives |
| ParserClass.Parser.ParseRhs | parser.cpp:111-131 | the right-operand step returns and leaves what `ParserSpec.ParseRhs` gives |
| ParserClass.Parser.ParsePrimary | parser.cpp:197-209 | returns and leaves what `ParserSpec.ParsePrimary` gives, fall-through included |
| ParserClass.Parser.ParsePrototype | parser.cpp:142-163 | returns and leaves what `ParserSpec.ParsePrototype` gives, so its name, parameters and three failures are those of `ParserSpec.PrototypeOutcome` |
| ParserClass.Parser.ParseDefinition | parser.cpp:171-179 | returns and leaves what `ParserSpec.ParseDefinition` gives |
| ParserClass.Parser.ParseExtern | parser.cpp:182-185 | returns and leaves what `ParserSpec.ParseExtern` gives |
| ParserClass.Parser.ParseTopLevelExpr | parser.cpp:188-195 | returns and leaves what `ParserSpec.ParseTopLevelExpr` gives |
| ParserClass.Parser.HandleDefinition | parser.cpp:247-254 | returns and leaves what `ParserSpec.HandleDefinition` gives |
| ParserClass.Parser.HandleExtern | parser.cpp:256-263 | returns and leaves what `ParserSpec.HandleExtern` gives |
| ParserClass.Parser.HandleTopLevelExpression | parser.cpp:265-272 | returns and leaves what `ParserSpec.HandleTopLevelExpression` gives |
| ParserFacts.PrecedenceLookup | parser.cpp:211-222 | -1 for a non-ASCII token and for an absent or non-positive entry, otherwise the entry; an absent character is inserted with 0 and nothing else changes |
| ParserFacts.TokenCodesHaveNoPrecedence | parser.cpp:212-214 | no token code is an operator, and their lookup changes nothing |
| ParserFacts.PrecedenceIsStable | parser.cpp:211-222 | a precedence is -1 or a positive table entry, and asking twice gives the same answer and state |
| ParserFacts.EmptyTableHasNoOperators | parser.h:94 | with the table the constructor leaves, nothing is an operator |
| ParserFacts.BinOpRhsStopsBelow | parser.cpp:98-104 | a token binding looser than the minimum ends the loop with `lhs` unchanged and nothing consumed |
| ParserFacts.ParenConsumes | parser.cpp:15-26 | a parenthesised expression, on any fuel, never gives back input, never changes a table entry and only appends diagnostics |
| ParserFacts.IdentifierConsumes | parser.cpp:28-67 | the same for an identifier expression |
| ParserFacts.ArgsConsumes | parser.cpp:45-64 | the same for the argument loop |
| ParserFacts.ExpressionConsumes | parser.cpp:69-75 | the same for an expression |
| ParserFacts.BinOpRhsConsumes | parser.cpp:96-135 | the same for the climbing loop |
| ParserFacts.RhsConsumes | parser.cpp:111-131 | the same for a right operand |
| ParserFacts.PrimaryConsumes | parser.cpp:197-209 | the same for a primary, fall-through included |
| ParserFacts.DefinitionConsumes | parser.cpp:171-179 | the same for a definition and for `HandleDefinition` |
| ParserFacts.ExternConsumes | parser.cpp:182-185 | the same for an extern and for `HandleExtern` |
| ParserFacts.TopLevelConsumes | parser.cpp:188-195 | the same for a top-level expression and for `HandleTopLevelExpression` |
| ParserFacts.ParenMoreFuel | parser.cpp:15-26 | a parenthesised expression that finishes on some fuel gives the same result and state on any larger fuel |
| ParserFacts.IdentifierMoreFuel | parser.cpp:28-67 | the same for an identifier expression |
| ParserFacts.ArgsMoreFuel | parser.cpp:45-64 | the same for the argument loop |
| ParserFacts.ExpressionMoreFuel | parser.cpp:69-75 | the same for an expression |
| ParserFacts.BinOpRhsMoreFuel | parser.cpp:96-135 | the same for the climbing loop |
| ParserFacts.RhsMoreFuel | parser.cpp:111-131 | the same for a right operand |
| ParserFacts.PrimaryMoreFuel | parser.cpp:197-209 | the same for a primary |
| ParserFacts.ChainTailAfterLookup | parser.cpp:211-222 | the table entry a lookup inserts changes nothing in the operator chain ahead |
| ParserFacts.BinOpRhsKeepsOrder | parser.cpp:96-135 | the climbing loop only regroups: its tree read in order, followed by the chain left after it, is `lhs` followed by the chain ahead of it |
| ParserFacts.RhsKeepsOrder | parser.cpp:111-131 | a right operand read in order, followed by the chain left after it, is the chain it was parsed from |
| ParserFacts.ExpressionKeepsOrder | parser.cpp:69-75 | a finished expression read in order is exactly the chain of primaries and operators ahead of it: no operand or operator is lost, added or moved |
| ParserFacts.PrimaryIsVariable | parser.cpp:28-40 | an identifier not followed by `(` is a variable reference, and only the identifier is consumed |
| ParserFacts.PrimaryIsNumber | parser.cpp:7-13 | a number token is a number node with its lexeme |
| ParserFacts.ParenNeverReturns | parser.cpp:15-26 | with `(` eaten by `lexer.GetToken()`, a parenthesised expression never finishes, whatever the bound |
| ParserFacts.ExpressionOnParenNeverReturns | parser.cpp:69-75 | an expression starting at `(` never finishes |
| ParserFacts.PrimaryOnParenNeverReturns | parser.cpp:205-206 | a primary at `(` never finishes |
| ParserFacts.ExpressionAtEnd | parser.cpp:197-202 | at the end of the input an expression is the fall-through variable with one diagnostic and nothing consumed |
| ParserFacts.UnclosedCallNeverReturns | parser.cpp:45-64 | a call still open at the end of the input never finishes |
| ParserFacts.PrimaryNeverFails | parser.cpp:197-209 | a primary never gives a null result |
| ParserFacts.IdentifierNeverFails | parser.cpp:28-67 | an identifier expression never gives a null result |
| ParserFacts.ArgsNeverFail | parser.cpp:45-64 | the argument loop never gives a null result |
| ParserFacts.ExpressionNeverFails | parser.cpp:69-75 | an expression never gives a null result |
| ParserFacts.BinOpRhsNeverFails | parser.cpp:96-135 | the climbing loop never gives a null result |
| ParserFacts.RhsNeverFails | parser.cpp:111-131 | a right operand never gives a null result |
| ParserFacts.TopLevelNeverFails | parser.cpp:188-195 | a top-level expression never fails, so its handler never skips a token; its function is unnamed and has no parameters |
| ParserFacts.DefinitionFailsOnlyInPrototype | parser.cpp:171-179 | a definition fails if and only if its prototype fails, leaving the prototype's state |
| ParserFacts.DefinitionParts | parser.cpp:171-179 | a definition succeeds exactly when its prototype and then its body do; it is then the function of that prototype with a body that reads in order as the chain after the prototype; after a parsed prototype the parse ends where the body ended |
| ParserFacts.CallWithoutArguments | parser.cpp:42-66 | an identifier followed by `(` and `)` is the call with no arguments, and all three tokens are eaten |
| ParserFacts.CallWithArguments | parser.cpp:42-66 | otherwise after `(` the call succeeds exactly when the argument loop does; it is named by the identifier, holds the collected arguments, and eats the `)` the loop stopped on |
| ParserFacts.ArgsAccumulate | parser.cpp:45-64 | the argument loop appends the arguments it parses after those it was given, and its outcome and state do not depend on them |
| ParserFacts.ArgsInOrder | parser.cpp:48-49 | the next argument collected is the expression parsed where the loop stands, and it reads in order as the chain there |
| ParserFacts.SeparatorStep | parser.cpp:54-62 | after an argument that is not followed by `)`, a `,` is eaten with no diagnostic and any other token is eaten with exactly one; the loop goes on with that argument added, and the diagnostic stays in the final log |
| ParserFacts.PrototypeOnlyReads | parser.cpp:142-163 | a prototype never gives back input it has read |
| ParserFacts.FailedHandlersMoveOn | parser.cpp:247-263 | a failed definition or extern has moved at least two tokens on, or to the end of the input |
| ParserExamples.StreamOfPlusTimes | lex.cpp:4-59 | the text `a+b*c` is the lexemes identifier, `+`, identifier, `*`, identifier |
| ParserExamples.TimesOperand | parser.cpp:111-131 | after `+`, the operand `b*c` absorbs the tighter `*` |
| ParserExamples.PlusTimes | parser.cpp:96-135 | `a+b*c` groups as `a+(b*c)` with the test table |
| ParserExamples.PlusPlus | parser.cpp:96-135 | `a+b+c` groups as `(a+b)+c` |
| ParserExamples.PlusTimesFromText | parser.cpp:69-75 | from the text `a+b*c`, once primed, the expression is `a+(b*c)` |
| ParserExamples.NumberArgument | parser.cpp:7-13 | a number followed by a non-operator is the number alone |
| ParserExamples.BadSeparatorIsEaten | parser.cpp:58-62 | `f(1;2)` is reported once but still becomes the call with both arguments |
| ParserExamples.PrototypeParameters | parser.cpp:152-155 | `extern foo(a b)` has the parameters `a`, `b` in order |
| ParserExamples.CommaInPrototype | parser.cpp:156-157 | `extern foo(a, b)` fails at the comma, and `HandleExtern` resumes at `b` |
| ToyLexer.ToyNextToken | toy.cpp:38-94 | one call of `gettok` only consumes input, strictly unless it returns end of input, and end of input leaves nothing and changes no payload |
| ToyLexer.ToyTokenAt | toy.cpp:47-93 | the same for the part after whitespace, where a comment yields its terminator |
| ToyLexer.ToyStreamAdvances | toy.cpp:190-192 | one call delivers the first lexeme of the toy token stream and leaves the rest |
| ToyLexer.ToySkipsLeadingSpace | toy.cpp:43-44 | leading whitespace is skipped before any token is recognised |
| ToyLexer.AgreesOutsideComments | toy.cpp:38-94 | outside comments `gettok` gives the same result as `Lex::GetToken` |
| ToyLexer.SameStreamWithoutComments | toy.cpp:38-94 | on input without `#` both tokenizers deliver the same token stream |
| ToyLexer.CommentYieldsTerminator | toy.cpp:79-93 | after a `#` comment ended by a line terminator, the terminator itself is returned as a token |
| ToyLexer.ToyCommentToEndOfInput | toy.cpp:79-88 | a comment running to the end of the input gives end of input |
| ToyLexer.GetTok | toy.cpp:38-94 | `gettok` on the shared lexer state returns and leaves what `ToyNextToken` gives |
| ToyLexer.CommentOrChar | toy.cpp:79-93 | after whitespace, words and numbers, the comment, end-of-input and character branches of `gettok` return and leave what `ToyNextToken` gives |
| ToySpec.LogError | toy.cpp:178-185 | one diagnostic is appended, nothing else changes, and the result is null |
| ToySpec.ParseNumberExpr | toy.cpp:198-202 | consumes the number, and the table and log only grow |
| ToySpec.ParseParenExpr | toy.cpp:206-217 | succeeds exactly when the inner expression does and `)` follows it, giving the inner value with `)` eaten; with `)` missing it is null with one diagnostic and the inner expression's stop token current; a failed inner expression is passed on; strictly consumes input, and the table and log only grow |
| ToySpec.ParseIdentifierExpr | toy.cpp:222-250 | never gives back input and strictly consumes on success; the table and log only grow; `ToyFacts.PrimaryIsVariable` and `ToyFacts.CallWithArguments` state the variable and the call it builds |
| ToySpec.ParseArgs | toy.cpp:233-244 | on success the arguments only grow and the loop stops at `)`; never gives back input; `ToyFacts.ArgsAccumulate` and `ToyFacts.ArgStep` say which arguments it collects, in order, and that each must be followed by `,` |
| ToySpec.ParsePrimary | toy.cpp:256-268 | a successful primary strictly consumes input; the table and log only grow |
| ToySpec.ParseBinOpRhs | toy.cpp:291-316 | when the loop returns, the current token binds looser than the minimum and looking it up again changes nothing |
| ToySpec.ParseRhs | toy.cpp:302-312 | a successful right operand strictly consumes input |
| ToySpec.ClimbAfter | toy.cpp:306-312 | climbing after a right operand never gives back input; the table and log only grow |
| ToySpec.ParseExpression | toy.cpp:319-324 | a successful expression strictly consumes input; the table and log only grow |
| ToySpec.ParsePrototype | toy.cpp:328-351 | a prototype is the function name and, in order, the names of the maximal identifier run after `(`, with `)` eaten; otherwise exactly one of three failures: no name, no `(`, or no `)` after the run, each with its one diagnostic and the offending token current |
| ToySpec.ParseDefinition | toy.cpp:354-364 | no table entry changes and diagnostics are only appended |
| ToySpec.ParseExtern | toy.cpp:368-371 | an extern is the prototype outcome of the token after `extern`: the same name, parameters and three failures |
| ToySpec.ParseTopLevelExpr | toy.cpp:374-380 | no table entry changes and diagnostics are only appended |
| ToySpec.HandleDefinition | toy.cpp:382-388 | no table entry changes and diagnostics are only appended |
| ToySpec.HandleExtern | toy.cpp:390-396 | no table entry changes and diagnostics are only appended |
| ToySpec.HandleTopLevelExpression | toy.cpp:398-404 | no table entry changes and diagnostics are only appended |
| ToySpec.InitTable | toy.cpp:557-562 | `Init` adds exactly `<`, `+`, `-`, `*` with 10, 20, 20, 40 and keeps every other entry |
| ToyClass.ToyParser.constructor | toy.cpp:187 | the globals start with `CurTok` 0, `LastChar` a space, an empty table and no diagnostics |
| ToyClass.ToyParser.GetNextToken | toy.cpp:190-192 | the lexer moves on one token and `CurTok` takes it, which is returned |
| ToyClass.ToyParser.LogError | toy.cpp:178-185 | returns and leaves what `ToySpec.LogError` gives |
| ToyClass.ToyParser.GetTokPrecedence | toy.cpp:274-282 | returns and leaves the same lookup as parser.cpp's `GetBinopPrecedence` |
| ToyClass.ToyParser.Init | toy.cpp:557-562 | the table becomes `ToySpec.InitTable` of the old table |
| ToyClass.ToyParser.ParseNumberExpr | toy.cpp:198-202 | returns and leaves what `ToySpec.ParseNumberExpr` gives |
| ToyClass.ToyParser.ParseParenExpr | toy.cpp:206-217 | returns and leaves what `ToySpec.ParseParenExpr` gives |
| ToyClass.ToyParser.ParseIdentifierExpr | toy.cpp:222-250 | returns and leaves what `ToySpec.ParseIdentifierExpr` gives, so the variable or call of `ToyFacts.PrimaryIsVariable` and `ToyFacts.CallWithArguments` |
| ToyClass.ToyParser.ParseArgs | toy.cpp:233-244 | the argument loop returns and leaves what `ToySpec.ParseArgs` gives, so the arguments of `ToyFacts.ArgsAccumulate` and `ToyFacts.ArgStep`, in order |
| ToyClass.ToyParser.ParsePrimary | toy.cpp:256-268 | returns and leaves what `ToySpec.ParsePrimary` gives |
| ToyClass.ToyParser.ParseBinOpRhs | toy.cpp:291-316 | the climbing loop returns and leaves what `ToySpec.ParseBinOpRhs` gives |
| ToyClass.ToyParser.ParseRhs | toy.cpp:302-312 | returns and leaves what `ToySpec.ParseRhs` gives |
| ToyClass.ToyParser.ClimbAfter | toy.cpp:306-312 | returns and leaves what `ToySpec.ClimbAfter` gives |
| ToyClass.ToyParser.ParseExpression | toy.cpp:319-324 | returns and leaves what `ToySpec.ParseExpression` gives |
| ToyClass.ToyParser.ParsePrototype | toy.cpp:328-351 | returns and leaves what `ToySpec.ParsePrototype` gives |
| ToyClass.ToyParser.ParseDefinition | toy.cpp:354-364 | returns and leaves what `ToySpec.ParseDefinition` gives |
| ToyClass.ToyParser.ParseExtern | toy.cpp:368-371 | returns and leaves what `ToySpec.ParseExtern` gives |
| ToyClass.ToyParser.ParseTopLevelExpr | toy.cpp:374-380 | returns and leaves what `ToySpec.ParseTopLevelExpr` gives |
| ToyClass.ToyParser.HandleDefinition | toy.cpp:382-388 | returns and leaves what `ToySpec.HandleDefinition` gives |
| ToyClass.ToyParser.HandleExtern | toy.cpp:390-396 | returns and leaves what `ToySpec.HandleExtern` gives |
| ToyClass.ToyParser.HandleTopLevelExpression | toy.cpp:398-404 | returns and leaves what `ToySpec.HandleTopLevelExpression` gives |
| ToyFacts.ChainTailAfterLookup | toy.cpp:274-282 | the table entry a lookup inserts changes nothing in the operator chain ahead |
| ToyFacts.BinOpRhsKeepsOrder | toy.cpp:291-316 | the climbing loop only regroups: its tree read in order, followed by what is left, is `lhs` followed by the chain it found |
| ToyFacts.RhsKeepsOrder | toy.cpp:302-312 | a right operand read in order, followed by what is left, is the chain it was parsed from |
| ToyFacts.ClimbKeepsOrder | toy.cpp:306-312 | climbing to tighter operators keeps the order of operands and operators |
| ToyFacts.BinOpRhsStep | toy.cpp:293-314 | one turn of the loop: the right operand strictly consumes input, and its result is folded into `lhs` before the loop goes on |
| ToyFacts.ExpressionKeepsOrder | toy.cpp:319-324 | a parsed expression read in order is exactly the chain of primaries and operators in the input: no operand or operator is lost, added or moved |
| ToyFacts.ParenKeepsOrder | toy.cpp:206-217 | a finished parenthesised expression read in order is the chain after `(` |
| ToyFacts.DefinitionParts | toy.cpp:354-364 | a definition succeeds exactly when its prototype and then its body do; it then holds that prototype and a body whose in-order reading is the chain after the prototype; a failed prototype leaves its own state, and a failed body the body's state |
| ToyFacts.PrecedencesAreFixed | toy.cpp:279 | parsing never makes a character an operator, never removes one, and never changes a precedence |
| ToyFacts.WithoutInitNoBinaryExpression | toy.cpp:565-574 | without `Init`, an expression is only its primary |
| ToyFacts.InitOperators | toy.cpp:557-562 | after `Init` exactly `<`, `+`, `-`, `*` are operators, ordered `<` below `+` = `-` below `*` |
| ToyFacts.UnknownTokenIsSilent | toy.cpp:256-268 | a token that starts no primary gives a null result with no diagnostic and nothing consumed; the handler then skips it silently |
| ToyFacts.PrimaryIsVariable | toy.cpp:222-228 | an identifier not followed by `(` is a variable reference, and only the identifier is consumed |
| ToyFacts.CallWithArguments | toy.cpp:222-250 | an identifier followed by `(` is a call exactly when the argument loop after `(` succeeds; it is named by the identifier, holds the collected arguments, and eats `)`; a failed loop fails the call where the loop failed |
| ToyFacts.ArgsAccumulate | toy.cpp:233-244 | the argument loop appends the arguments it parses after those it was given, and its outcome and state do not depend on them |
| ToyFacts.ArgStep | toy.cpp:234-243 | before `)`, a successful loop parses an argument, finds `,` after it, eats it and goes on; that argument is the next one collected and reads in order as the chain there |
| ToyFacts.ArgumentNeedsComma | toy.cpp:240-242 | an argument followed by `)` instead of `,` is reported and fails the call |
| ToyFacts.TopLevelIsAnonymous | toy.cpp:374-380 | a top-level expression fails exactly when the expression does, and otherwise is the parameterless function `__anon_expr` around it |
| ToyFacts.PrototypeLeft | toy.cpp:328-351 | a prototype never gives back input |
| ToyFacts.HandlersMakeProgress | toy.cpp:409-429 | before end of input, each handler the main loop calls leaves strictly less input, on success and on failure, so the loop cannot get stuck |
| ToyExamples.InitIsTestTable | toy.cpp:557-562 | `Init` fills the same table as test.cpp's driver |
| ToyExamples.PlusTimes | toy.cpp:291-316 | `1+2*3` groups as `1+(2*3)` |
| ToyExamples.SumInParentheses | toy.cpp:291-316 | inside `(1+2)*3` the sum stops at `)`, which the lookup enters with 0 |
| ToyExamples.ParenthesizedSum | toy.cpp:206-217 | `(1+2)` is one primary |
| ToyExamples.ParenTimes | toy.cpp:206-217 | `(1+2)*3` groups as `(1+2)*3`: parentheses override precedence |
| ToyExamples.CallWithoutArguments | toy.cpp:222-250 | `f()` is a call with no arguments |
| ToyExamples.OneArgumentFails | toy.cpp:240-242 | `f(1)` fails with the separator diagnostic, leaving `)` current |
| ToyExamples.TwoArgumentsFail | toy.cpp:233-244 | `f(1,2)` fails the same way |
| ToyExamples.TrailingCommaSucceeds | toy.cpp:233-246 | `f(1,)` is the call with the one argument |
| ToyExamples.WithoutInit | toy.cpp:565-574 | as `main` runs, without `Init`, `1+2` is only `1` and the `+` is left current |
| ToyExamples.ToyStreamOfPlusTimes | toy.cpp:38-94 | `gettok` delivers the text `a+b*c` as `Lex::GetToken` does |
| ToyExamples.PlusTimesIdentifiers | toy.cpp:291-316 | `a+b*c` groups as `a+(b*c)` |
| ToyExamples.TopLevelFromText | toy.cpp:374-380 | from the text `a+b*c`, a top-level expression is `__anon_expr` returning `a+(b*c)` |

## Left out

- Code generation in toy.cpp (LLVM IR, after its parser) and kaleidoscope.cpp are not part of this model.
- The value of a number: `strtod` turns the number text into a `double`. The model keeps the text, so `1.2.3` is modelled as accepted, but its value is not.
- Console I/O: `fprintf`, `std::cout`, the `ready>` prompt and the logo. Diagnostics are modelled as a log of message texts, without the `Error: ` / `LogError: ` prefix.
- `MainLoop`, in both snapshots, is left out. Its handlers are modelled. In toy.cpp, `ToyFacts.HandlersMakeProgress` states that each turn of its loop moves on. In parser.cpp no such statement holds: a parenthesised expression or a call left open at the end of the input never finishes (`ParserFacts.ParenNeverReturns`, `ParserFacts.UnclosedCallNeverReturns`), so that loop can hang. The `;` case consumes one token and is not modelled separately.
- test.cpp is a driver. Only the table it fills is used (`ParserExamples.TestTable`).
- logger.h is not part of this model.
- token.h, which toy.cpp includes for `tok_*`, `Identifier` and `NumVal`, is not part of this model. Its codes are taken to be lex.h's.
- Character classes: `isspace`, `isalpha`, `isdigit` and `isalnum` are modelled in the C locale.
- Characters are the unsigned bytes `getchar` delivers. Input is a finite byte sequence, followed by `EOF`.
- Uninitialised state is taken as constructor parameters: `Lex() = default` leaves `last_char` unset, and `Parser() = default` leaves `current_token_` unset. toy.cpp's `CurTok` is a static and starts at 0.
- ParserClass.Parser: the parse methods and the `ParserSpec` functions carry a fuel bound, which the source does not have. parser.cpp's parse does not always finish: a parenthesised expression never finishes, and neither does a call left open at the end of the input. The bound yields `OutOfFuel` when it is exhausted, and the lemmas say what holds for every bound. A parse that finishes on some bound gives the same result on every larger one (`ParserFacts.ExpressionMoreFuel` and its siblings), so the bound cuts computations off but never changes them.
- ParserSpec.ParseArgs: the rule that a failed argument fails the call is modelled. It can never fire, because no parser.cpp expression gives a null result (`ParserFacts.ArgsNeverFail`).
- ToyClass.ToyParser.ParseParenExpr: it requires `CurTok` to be `(`. It is only called when `CurTok` is `(`, and the termination measure needs that fact.
- Recursion depth and stack overflow are not modelled: the model's recursion is unbounded.
- Determinism follows from the model being functions. Two fresh parsers on the same input give the same tree, so there is no separate lemma for it.
- Duplicate parameter names are accepted, as the source does; no lemma is stated about them.
