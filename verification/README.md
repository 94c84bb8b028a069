# clip, modelled in Dafny

clip is a small prefix-notation scripting language written in Rust. A run
goes through three stages:

- **Lexer.** `Lexer::lex` turns the source text into a vector of tokens that
  always ends with `EOF`.
- **Parser.** A recursive-descent parser turns the tokens into a `Program`
  of statements: assignments `= name expr`, `if` statements and expressions.
  An expression is a literal, a name, an operator application `+ a b c`, a
  function literal `{ [params] body }`, a call `f a b`, or an `&&`/`||` form.
- **Evaluator.** A tree-walking evaluator runs the statements in a chain of
  scopes and returns the value of the last statement.

The project models all three stages as pure functions:

- `Lexing` (lexer.dfy), with facts in `LexerFacts`. Token values and spans
  are in `Tokens`.
- `Parsing` (parser.dfy), with facts in `ParserFacts`. The syntax tree is
  in `Syntax`.
- `Evaluation` (evaluation.dfy), with facts in `EvalFacts`. It builds on:
  - `Scopes`, the scope chain;
  - `Values`, the runtime values;
  - `Ops`/`OpsFacts`, operator arithmetic;
  - `Numbers`, i64 arithmetic, decimal text and `str::parse::<i64>`.
- `Pipeline` joins the stages the way `src/main.rs` runs a file.

Errors are modelled as values:

- **`Outcome`** (`Ok`, `Err(message)`, `Abort(panic)`) covers every user-facing error message. A Rust panic is a separate `Abort` case: integer overflow, division by zero, `todo!`, an index past the token vector, and a missing evaluation rule.
- **`PResult`** is the parser's version. It records where the cursor stopped, because the grammar depends on exactly which token each parse function leaves current.

Integers are Rust `i64`. Every arithmetic step checks its range and panics on overflow, as Rust's debug build does. `/` truncates toward zero.

## Model

| member | source | states |
|---|---|---|
| Numbers.TruncDiv | src/eval/ops.rs:185 | the quotient of `/` on `i64` rounds toward zero: the remainder is smaller than the divisor in magnitude and never has the opposite sign of the dividend |
| Numbers.TruncDivUnique | src/eval/ops.rs:185 | only one quotient has that property, so `TruncDiv` is Rust's division |
| Numbers.NatToString | src/eval/value.rs:179 | decimal text of a natural: non-empty digits with no leading zero, denoting exactly that number |
| Numbers.IntToString | src/eval/value.rs:179 | decimal text of an integer: digits with at most a leading minus sign |
| Numbers.ParseDigitRun | src/parser/ast.rs:270 | `str::parse::<i64>` on a digit run: its value when that fits in `i64`, otherwise the error "number too large to fit in target type" |
| Numbers.ParseRendered | src/parser/ast.rs:270 | parsing the decimal text of any `i64` gives it back (round trip with `to_string`) |
| Tokens.NewLocation | src/lexer/token.rs:106-113 | a new location has the given start line and column and zero stop fields |
| Tokens.Stop | src/lexer/token.rs:115-122 | `stop` keeps the start fields and replaces both stop fields |
| Tokens.StopLaws | src/lexer/token.rs:106-122 | a later `stop` overrides an earlier one; `new` then `stop` gives the four given numbers |
| Tokens.TokenNameRoundTrip | src/lexer/token.rs:62-95 | every token value's display text reads back to that token value |
| Tokens.TokenNameInjective | src/lexer/token.rs:62-95 | two different token values never display alike |
| Tokens.LocationText | src/lexer/token.rs:125-133 | the text "ls:le, cs:ce" of a location reads back to that location |
| Tokens.TokenName | src/lexer/token.rs:62-95 | every token value has non-empty display text, and by `TokenNameRoundTrip` and `TokenNameInjective` the text determines the value |
| Lexing.Lex | src/lexer/mod.rs:20-186 | whenever the lexer returns, its token vector is non-empty and ends with `EOF` |
| Lexing.ScanNumber | src/lexer/mod.rs:188-220 | a number scan never grows the unread input, and from its first digit it shrinks it; `ScanNumberShape`, `LexInteger`, `LexFloat` and `LexSecondDot` say which token it makes |
| Lexing.ScanString | src/lexer/mod.rs:222-252 | a string scan that returns never grows the unread input; `LexString`, `LexUnterminatedString` and `LexBackslashInString` say what it makes |
| Lexing.ScanIdent | src/lexer/mod.rs:254-277 | a word scan always returns, and at a letter or `_` it consumes at least one character; `LexWord` and `KeywordCases` say which token it makes |
| Lexing.SkipComment | src/lexer/mod.rs:50-62 | skipping a comment always returns and never grows the unread input; `LexCommentLine` and `LexCommentAtEnd` say which tokens it leaves |
| Lexing.Step | src/lexer/mod.rs:23-183 | a round of the main loop that returns has consumed at least one character, so the loop can only spin inside one scan; `StepThen` joins a round to the rest of the input |
| Lexing.LexFrom | src/lexer/mod.rs:20-186 | when the main loop returns it has added at least one token, and its last token is `EOF` |
| LexerFacts.LexReturns | src/lexer/mod.rs:20-186 | the lexer returns on every input without `_` or a backslash |
| LexerFacts.LexFromSpanFree | src/lexer/mod.rs:20-186 | the span bookkeeping never changes which token values come out |
| LexerFacts.StepThen | src/lexer/mod.rs:23-183 | one round of the main loop: the input's tokens are that round's tokens followed by the tokens of what it left unread |
| LexerFacts.LexEmpty | src/lexer/mod.rs:178-181 | empty input is just `EOF` |
| LexerFacts.LexBlank | src/lexer/mod.rs:26-29 | a space or tab yields no token |
| LexerFacts.BlankSpan | src/lexer/mod.rs:26-29 | after a blank, the next token starts where the blank ends |
| LexerFacts.LexCarriageReturn | src/lexer/mod.rs:30-39 | a `\r` is consumed without a token, whatever follows it |
| LexerFacts.LexLineFeed | src/lexer/mod.rs:40-45 | a line feed is one `Newline` |
| LexerFacts.LexCrLf | src/lexer/mod.rs:30-45 | so a `\r\n` line ending is exactly one `Newline` |
| LexerFacts.LineFeedSpan | src/lexer/mod.rs:40-45 | after a line feed, the start line goes up by one and the stop column goes back to 0 |
| LexerFacts.LexPunctuation | src/lexer/mod.rs:46-166 | each of `; ( ) [ ] { } + - * / !` is one token on its own, and lexing goes on after it |
| LexerFacts.LexUnexpected | src/lexer/mod.rs:170-176 | any other character outside the language is one `Illegal("unexpected: c")` |
| LexerFacts.LexEqual | src/lexer/mod.rs:87-93 | `==` is one `Equal` |
| LexerFacts.LexAssign | src/lexer/mod.rs:87-102 | `=` not followed by `=` is `Assign`, and the next character is still lexed |
| LexerFacts.LexAnd | src/lexer/mod.rs:119-125 | `&&` is one `And` |
| LexerFacts.LexOr | src/lexer/mod.rs:141-147 | `\|\|` is one `Or` |
| LexerFacts.LexLoneLogical | src/lexer/mod.rs:119-162 | a lone `&` or `\|` is `Illegal("unexpected: " + c)`, and the character after it is not consumed |
| LexerFacts.LexCommentLine | src/lexer/mod.rs:50-62 | a comment, its line feed included, yields no token |
| LexerFacts.LexCommentAtEnd | src/lexer/mod.rs:50-62 | a comment that runs to the end of the input leaves two `EOF` tokens |
| LexerFacts.LexWord | src/lexer/mod.rs:254-277 | a word is the longest run of letters and `_`, read as a keyword or an `Ident` |
| LexerFacts.KeywordCases | src/lexer/mod.rs:267-274 | exactly `if`, `elif`, `else`, `true` and `false` are keywords; every other word is an `Ident` holding its text |
| LexerFacts.LexInteger | src/lexer/mod.rs:188-220 | a digit run not followed by a digit, `.` or `_` is one `Integer` token holding those digits |
| LexerFacts.LexFloat | src/lexer/mod.rs:188-220 | digits, one `.`, then digits make one `Float` token holding the text as written |
| LexerFacts.LexSecondDot | src/lexer/mod.rs:199-206 | a second `.` consumes the dot and gives `Illegal("unexpected: .")`, dropping the digits read so far |
| LexerFacts.LexUnderscoreInNumber | src/lexer/mod.rs:198 | input that begins with digits followed by `_` makes the lexer loop forever, whatever follows |
| LexerFacts.ScanNumberShape | src/lexer/mod.rs:188-220 | a number token is integer text without a dot, float text with one dot, or the second-dot complaint; the scan spins only on `_` |
| LexerFacts.LexString | src/lexer/mod.rs:222-252 | everything between the quotes, line feeds included, is the string's text |
| LexerFacts.LexUnterminatedString | src/lexer/mod.rs:244-248 | a string with no closing quote is `Illegal("unterminated quote string")` followed by `EOF` |
| LexerFacts.LexBackslashInString | src/lexer/mod.rs:230 | a backslash inside a string makes the lexer loop forever |
| LexerFacts.OperatorsExample | src/lexer/mod.rs:87-118 | `===+-*/!` lexes as `Equal Assign Plus Minus Asterisk Slash Bang`, then whatever follows |
| LexerFacts.OperatorsAlone | src/lexer/mod.rs:406-421 | the lexer's operator test case: `===+-*/!` gives those seven tokens and `EOF` |
| Syntax.PrimitiveTypeNameFaithful | src/parser/ast.rs:280-290 | two primitives have the same type name exactly when they are the same kind of primitive |
| Syntax.KindNameInjective | src/parser/ast.rs:357-368 | the six operator names are pairwise different |
| Parsing.NewParser | src/parser/mod.rs:20-22 | a new parser starts at position 0, and it is usable exactly when there is at least one token |
| Parsing.Next | src/parser/mod.rs:32-36 | `next_token` advances by one and returns the new current token; it panics exactly when it would step past the last token |
| Parsing.Peek | src/parser/mod.rs:38-44 | `peek_token` is the token after the current one, or `EOF` past the end |
| Parsing.Back | src/parser/mod.rs:46-48 | `back_token` steps back by one; at position 0 it has no result |
| Parsing.KindOf | src/parser/ast.rs:314-322 | exactly the six operator tokens name an operator kind |
| Parsing.ParseIdentifier | src/parser/ast.rs:297-304 | reads the name of an `Ident` token without moving the cursor, and otherwise fails with "unexpected token T" at that token |
| Parsing.SkipSeparators | src/parser/ast.rs:112-116 | skips forward over `;` and newline tokens only, stopping where the next token is not one |
| Parsing.ParseExpression | src/parser/ast.rs:215-256 | an expression parse never moves the cursor backwards and stops on a token of the vector |
| Parsing.ParsePrimitive | src/parser/ast.rs:267-278 | a literal parse never moves the cursor, and a failure is reported at the literal's own token; `IntegerLiteral` and `PrimitiveMessages` give its value and messages |
| Parsing.ParseStatement | src/parser/ast.rs:41-49 | a statement parse never moves the cursor backwards and stops on a token of the vector; `StatementKinds`, `AssignStatement`, `IfStatement` and `ExpressionStatement` say which rule it applies |
| Parsing.ParseAssign | src/parser/ast.rs:57-71 | an assignment parse never moves the cursor backwards and stops on a token of the vector; `AssignStep`, `AssignParts` and `AssignShape` give its result and its error |
| Parsing.ParseIf | src/parser/ast.rs:80-117 | an `if` parse never moves the cursor backwards and stops on a token of the vector; `IfNeedsBlockStart` gives the "expected block start" error, and `IfShape` where it stops |
| Parsing.IfTail | src/parser/ast.rs:118-164 | the part of an `if` after its first block never moves the cursor backwards and stops on a token of the vector; `IfTailShape`, `ElseShape` and `ElseNeedsBlockStart` give its result and errors |
| Parsing.Block | src/parser/ast.rs:94-108 | a block never moves the cursor backwards and stops on a token of the vector; `BlockEnds`, `BlockCloses`, `BlockSkips`, `BlockTakes` and `BlockEof` give each arm of its loop |
| Parsing.ParseTerm | src/parser/ast.rs:177-256 | an expression term never moves the cursor backwards and stops on a token of the vector; `UnexpectedStart`, `NotAnExpression`, `NameTerm`, `IdentifierOrCall` and `Parenthesised` give its arms |
| Parsing.ParseOperator | src/parser/ast.rs:312-345 | an operator parse never moves the cursor backwards and stops on a token of the vector; `OperatorNeverFails` and `OperatorTerm` give its result |
| Parsing.OperatorArgs | src/parser/ast.rs:324-341 | the operand loop never moves the cursor backwards and stops on a token of the vector; `OperatorArgsTakes`, `OperatorArgsStops` and `OperatorArgsNeverFail` give each step |
| Parsing.ParseCall | src/parser/ast.rs:431-451 | a call parse never moves the cursor backwards and stops on a token of the vector; `IdentifierOrCall` and `FailingOperand` give its result |
| Parsing.CallArgs | src/parser/ast.rs:436-447 | the argument loop never moves the cursor backwards and stops on a token of the vector; `CallArgsFailAhead` and `FailingOperand` give where and how it fails |
| Parsing.Operands | src/parser/ast.rs:456-501 | the operand loop of `&&` and `\|\|` never moves the cursor backwards and stops on a token of the vector; `OperandsFailAhead` and `FailingOperand` give where and how it fails |
| Parsing.ParseFunction | src/parser/ast.rs:376-423 | a function literal parse never moves the cursor backwards and stops on a token of the vector; `FunctionTerm`, `ParamsShape`, `FunctionFailsAhead` and `FunctionLiteralExample` give its result |
| Parsing.FunctionBody | src/parser/ast.rs:400-419 | a function body never moves the cursor backwards and stops on a token of the vector; `FunctionBodyShape` and `FunctionBodyLast` give its result |
| Parsing.ProgramLoop | src/parser/ast.rs:10-32 | the program loop never moves the cursor backwards and stops on a token of the vector; `ProgramLoopShape`, `ProgramStatementStep` and `ParseEndsAtEof` give its result |
| Parsing.Parse | src/parser/mod.rs:24-26 | parsing an empty token vector panics on the first index |
| ParserFacts.NextThenBack | src/parser/mod.rs:32-48 | `back_token` undoes `next_token` |
| ParserFacts.PeekAgreesWithNext | src/parser/mod.rs:32-44 | `peek_token` shows the token `next_token` steps to, and is `EOF` exactly where `next_token` panics or lands on `EOF` |
| ParserFacts.StatementKinds | src/parser/ast.rs:41-49 | a statement is an assignment exactly at `=`, an `if` exactly at `if`, and otherwise an expression |
| ParserFacts.AssignParts | src/parser/ast.rs:57-71 | an assignment is `=`, a name and an expression, which must be followed by the end of the statement |
| ParserFacts.UnexpectedStart | src/parser/ast.rs:215-256 | an expression fails at its first token with "unexpected token T" exactly when that token cannot start an expression |
| ParserFacts.IdentifierOrCall | src/parser/ast.rs:241-246 | a name is a variable reference when the statement ends right after it and a call otherwise; inside an operator it is always a reference |
| ParserFacts.EmptyParens | src/parser/ast.rs:218-221 | `()` is the null literal |
| ParserFacts.Parenthesised | src/parser/ast.rs:218-231 | `( e )` is `e`, and a missing `)` is "expected right paren; got T" |
| ParserFacts.ParenthesisedName | src/parser/ast.rs:218-246 | `( x )` is a call of `x` with no arguments, not a reference to `x`, because the `)` after the name does not end a statement |
| ParserFacts.IntegerLiteral | src/parser/ast.rs:270 | an integer token parses to the number its digits denote when that fits in `i64`, and otherwise fails with the overflow message |
| ParserFacts.PrimitiveMessages | src/parser/ast.rs:267-278 | a literal parse fails only with one of the number-parsing messages |
| ParserFacts.OperatorNeverFails | src/parser/ast.rs:312-345 | an operator parse never fails, and its kind is the one its token names |
| ParserFacts.OperatorArgsNeverFail | src/parser/ast.rs:324-341 | the operand loop stops at its first bad operand, keeping the operands before it |
| ParserFacts.FailingOperand | src/parser/ast.rs:431-501 | after a failing operand, an operator keeps what it has, while `&&`, `\|\|` and a call fail with that operand's error |
| ParserFacts.BlockEnds | src/parser/ast.rs:94-108 | a block keeps its statements in order and stops on its `}`, or one token further for an else block |
| ParserFacts.IfShape | src/parser/ast.rs:80-164 | an `if` without `else` stops on a `}` it does not own; one with `else` stops just past the else block |
| ParserFacts.IfWithoutElseAtTopLevel | src/parser/ast.rs:150-155 | `if true { "a" }` alone is rejected with "expected block end or else statement; got eof" |
| ParserFacts.IfStrayBlockEndAtTopLevel | src/parser/ast.rs:118-119 | `if true { "a" } }` parses to that `if` without `else`: the `if` takes the stray `}` as its end, and the program loop steps past it |
| ParserFacts.IfElseAtTopLevel | src/parser/ast.rs:80-164 | `if true { "a" } else { "b" }` parses to that `if` statement |
| ParserFacts.IfNeedsBlockStart | src/parser/ast.rs:82-90 | after an `if` condition, a token other than `{` is "expected block start; got T" at that token, and no token at all panics |
| ParserFacts.ElseNeedsBlockStart | src/parser/ast.rs:120-127 | after `else`, a token other than `{` is "expected block start; got T" at that token, and no token at all panics |
| ParserFacts.BlockEof | src/parser/ast.rs:94-146 | either block of an `if` that meets the end of the file fails with "unexpected end of file" before closing |
| ParserFacts.AssignBeforeBlockEnd | src/parser/ast.rs:64-69 | `= x "a"` directly before a `}` is rejected with "unexpected token block end" |
| ParserFacts.ProgramLoopShape | src/parser/ast.rs:10-32 | the program loop keeps its statements in order and stops only on `EOF` |
| ParserFacts.ParseEndsAtEof | src/parser/ast.rs:10-32 | a parsed program ends on an `EOF` token |
| ParserFacts.OnlySeparators | src/parser/ast.rs:14-19 | input made only of separators parses to a program with no statements |
| ParserFacts.ParamsShape | src/parser/ast.rs:380-398 | every parameter is an identifier; anything else between `[` and `]` is an unexpected token |
| ParserFacts.FunctionBodyShape | src/parser/ast.rs:400-419 | a function body keeps its statements in order and fails with "unexpected end of file" at `EOF` |
| ParserFacts.FunctionLiteralExample | src/parser/ast.rs:376-423 | `{ [a b] + a b }` parses to a function with parameters `a b` whose body is the one `+` statement |
| Values.TypeNameSeparatesFunctions | src/eval/value.rs:190-197 | a value displays as "function" exactly when it is a function |
| Values.RenderIntegerRoundTrip | src/eval/value.rs:176-187 | an integer result prints as text that parses back to it |
| Values.TypeName | src/eval/value.rs:190-197 | every value has a non-empty type name, and by `TypeNameSeparatesFunctions` "function" names exactly the functions |
| Values.Render | src/eval/value.rs:176-187 | a value has printed text exactly when it is not a float; `RenderIntegerRoundTrip` reads an integer's text back |
| Scopes.NewScope | src/eval/mod.rs:44-49 | a new scope is empty and has no enclosing scope |
| Scopes.ChildOf | src/eval/value.rs:149-152 | a call's scope starts empty and encloses the caller's scope |
| Scopes.Get | src/eval/mod.rs:51-59 | a name bound locally is found locally; an unbound name with no enclosing scope is not found |
| Scopes.Set | src/eval/mod.rs:61-63 | `set` adds exactly that name to this scope, keeps every other binding and never touches the enclosing scope |
| Scopes.GetIsVisible | src/eval/mod.rs:51-59 | lookup is the innermost binding of the name across the whole chain |
| Scopes.GetAfterSet | src/eval/mod.rs:51-63 | a name reads back what was just set; every other name reads as before |
| Scopes.NewScopeEmpty | src/eval/mod.rs:66-70 | the default scope binds nothing |
| Scopes.ChildSeesCaller | src/eval/value.rs:149-152 | a call's scope sees every caller binding it does not shadow |
| Ops.Mismatch | src/eval/ops.rs:55-65 | finds the first later operand whose type differs from the first, and finds none exactly when all types agree |
| Ops.IntFold | src/eval/ops.rs:108-124 | a successful `-`, `*` or `/` fold on integers yields an integer |
| Ops.CheckedSum | src/eval/ops.rs:67 | an integer sum never gives a type error and panics only with overflow; `CheckedSumExact` and `CheckedSumFits` give its value and when it fits |
| Ops.EvalAdd | src/eval/ops.rs:49-106 | `+` panics only with overflow; `AddIntegers`, `ConcatSnoc`, `ResultType` and `UnsupportedFirst` give its result |
| Ops.EvalArithmetic | src/eval/ops.rs:39-214 | `+ - * /` panic only with overflow or on a zero divisor of `/`; `SubtractExact`, `MultiplyExact`, `DivideExact` and `ResultType` give its results |
| OpsFacts.CheckedSumExact | src/eval/ops.rs:67 | an integer sum that does not panic is the exact sum |
| OpsFacts.CheckedSumFits | src/eval/ops.rs:67 | when the operands' magnitudes add up to at most `i64::MAX`, the sum never panics |
| OpsFacts.PartialSumOverflows | src/eval/ops.rs:67 | overflow is checked at each partial sum: `MAX + 1 - 1` panics though its total fits |
| OpsFacts.SubtractExact | src/eval/ops.rs:108-124 | `-` subtracts every later operand from the first and cannot overflow when the magnitudes are small |
| OpsFacts.MultiplyExact | src/eval/ops.rs:144-160 | `*` that does not panic is the exact product |
| OpsFacts.DivideExact | src/eval/ops.rs:180-196 | `/` is the left-to-right truncated quotient whenever no divisor is 0 and the dividend is not `i64::MIN`; it succeeds only with no zero divisor |
| OpsFacts.TruncDivShrinks | src/eval/ops.rs:185 | a truncated quotient is never larger in magnitude than its dividend |
| OpsFacts.DivideByZeroPanics | src/eval/ops.rs:185 | `/ x 0` panics for every integer `x` |
| OpsFacts.DivideOverflows | src/eval/ops.rs:185 | `/ i64::MIN -1` panics with overflow |
| OpsFacts.ConcatSnoc | src/eval/ops.rs:87-103 | string `+` appends each operand's text in order |
| OpsFacts.AddStrings | src/eval/ops.rs:87-103 | `+ "a" "b"` is `"ab"` |
| OpsFacts.IntFoldTypes | src/eval/ops.rs:108-214 | an integer `-`, `*` or `/` fails with a type error only at the first non-integer operand, and succeeds only when every operand is an integer |
| OpsFacts.ResultType | src/eval/ops.rs:49-214 | every result has the first operand's type, and an operand of another type is never accepted. When the operation has a rule for the first operand's type, a type error names the first such operand; for `+` or a float first operand that error is the result, while an integer `- * /` may panic first (on overflow or a zero divisor) |
| OpsFacts.UnsupportedFirst | src/eval/ops.rs:49-214 | the error is "cannot K type T" exactly when the operation has no rule for the first operand's type |
| Evaluation.EvalExpr | src/eval/value.rs:24-35 | evaluating an expression panics only with overflow, a zero divisor, `todo!`, a missing evaluation rule or running out of stack, never with an index or `unreachable!` panic; `LiteralsEvaluate`, `IdentifierValue` and `NoEvaluationRules` give each arm |
| Evaluation.EvalOperator | src/eval/ops.rs:7-47 | an operator panics only with overflow, a zero divisor, `todo!`, a missing evaluation rule or running out of stack, never with an index or `unreachable!` panic; `OperatorArityErrors`, `InverseValue`, `FirstBadOperand` and `OperatorDispatch` give its result |
| Evaluation.EvalCall | src/eval/value.rs:134-174 | a call panics only with overflow, a zero divisor, `todo!`, a missing evaluation rule or running out of stack, never with an index or `unreachable!` panic; `CallErrors`, `CallStep` and `CallValue` give its result |
| Evaluation.EvalOperands | src/eval/ops.rs:31-37 | a successful operand loop yields one primitive per operand |
| Evaluation.BindArgs | src/eval/value.rs:154-157 | binding arguments adds exactly the parameter names to the call's scope and keeps its enclosing scope |
| Evaluation.EvalAssign | src/eval/value.rs:17-22 | an assignment writes only the current scope, never an enclosing one |
| Evaluation.EvalStatement | src/eval/mod.rs:26-31 | a statement writes only the current scope |
| Evaluation.EvalBlock | src/eval/mod.rs:22-34 | a run of statements writes only the current scope |
| Evaluation.EvalProgram | src/eval/mod.rs:22-34 | a program panics only with overflow, a zero divisor, `todo!`, a missing evaluation rule or running out of stack, never with an index or `unreachable!` panic; `EmptyProgram`, `BlockLast` and `FuelMonotone` give its result |
| EvalFacts.LiteralsEvaluate | src/eval/value.rs:24-35 | a literal or a function literal evaluates to itself |
| EvalFacts.IdentifierValue | src/eval/value.rs:27-30 | a name evaluates to its innermost binding, and to "undefined variable x" without one |
| EvalFacts.NoEvaluationRules | src/eval/value.rs:24-35 | `&&`, `\|\|` and `if` have no evaluation rule |
| EvalFacts.OperandsInOrder | src/eval/ops.rs:31-37 | the operand loop succeeds exactly when every operand evaluates to a primitive, and then yields them in order |
| EvalFacts.FirstBadOperand | src/eval/ops.rs:31-37 | the first operand that is not a primitive decides the failure: its own error, or "cannot compare type function" |
| EvalFacts.OperatorDispatch | src/eval/ops.rs:39-46 | with primitive operands, `+ - * /` apply their arithmetic and `==` is unimplemented |
| EvalFacts.OperatorArityErrors | src/eval/ops.rs:8-29 | `!` needs exactly one operand and the others at least two, checked before any operand runs |
| EvalFacts.AddIntegers | src/eval/ops.rs:49-68 | `+ x y` on integers is their sum, or the overflow panic exactly when the sum leaves `i64` |
| EvalFacts.InverseValue | src/eval/ops.rs:8-22 | `!` negates exactly the booleans; any other value is named in the error |
| EvalFacts.InverseInvolution | src/eval/ops.rs:15-21 | `! ! e` is `e` whenever `e` evaluates to a boolean |
| EvalFacts.AssignSemantics | src/eval/value.rs:17-22 | an assignment succeeds exactly when its expression does, binds the value, leaves every other name alone and is worth the value |
| EvalFacts.ExpressionStatement | src/eval/mod.rs:29 | an expression statement is worth its value and leaves the scope unchanged |
| EvalFacts.BlockAppend | src/eval/mod.rs:22-34 | running `a + b` runs `a`, then `b` from where `a` left off; a failure in `a` skips `b` |
| EvalFacts.BlockLast | src/eval/mod.rs:22-34 | a block is worth its last statement's value |
| EvalFacts.EmptyProgram | src/eval/mod.rs:22-34 | an empty program is worth `null` |
| EvalFacts.CallErrors | src/eval/value.rs:134-147 | the three ways a call is refused before any argument runs: unbound name, non-function, wrong argument count |
| EvalFacts.BindArgsSnoc | src/eval/value.rs:154-157 | each argument is evaluated in the scope that already binds every earlier parameter, then bound to its own |
| EvalFacts.CallValue | src/eval/value.rs:149-168 | a call is worth its body's value, run in a scope that encloses the caller's and binds the arguments |
| EvalFacts.EmptyBodyIsNull | src/eval/value.rs:159-168 | a function with an empty body returns `null` |
| EvalFacts.LaterArgumentSeesEarlierParameter | src/eval/value.rs:154-157 | for any names `f`, `x`, `y` and any literal `p`, with `f = { [x y] y }` the call `f p x` is worth `p`, whatever `x` is bound to outside |
| EvalFacts.CallWithoutArguments | src/eval/value.rs:134-168 | a call without arguments runs its body in an empty scope that encloses the caller's |
| EvalFacts.SelfCallExhaustsFuel | src/eval/value.rs:134-168 | a parameterless function whose body is only a call to itself never returns: every depth bound runs out |
| EvalFacts.CallStep | src/eval/value.rs:134-168 | a call to a bound function of the right arity binds the arguments in a child scope, then runs the body one level deeper and is worth its value |
| EvalFacts.ExprFuel | src/eval/value.rs:24-35 | an expression that does not run out of stack has the same outcome under every larger stack bound |
| EvalFacts.OperandsFuel | src/eval/ops.rs:31-37 | an operand loop that does not run out of stack has the same outcome under every larger stack bound |
| EvalFacts.OperatorFuel | src/eval/ops.rs:7-47 | an operator that does not run out of stack has the same outcome under every larger stack bound |
| EvalFacts.BindFuel | src/eval/value.rs:154-157 | binding the arguments that does not run out of stack has the same outcome under every larger stack bound |
| EvalFacts.CallFuel | src/eval/value.rs:134-174 | a call that does not run out of stack has the same outcome under every larger stack bound |
| EvalFacts.BodyFuel | src/eval/value.rs:159-168 | a function body that does not run out of stack has the same outcome under every larger stack bound |
| EvalFacts.StatementFuel | src/eval/mod.rs:26-31 | a statement that does not run out of stack has the same outcome under every larger stack bound |
| EvalFacts.BlockFuel | src/eval/mod.rs:22-34 | a run of statements that does not run out of stack has the same outcome under every larger stack bound |
| EvalFacts.FuelMonotone | src/eval/mod.rs:22-34 | a program result other than running out of stack is the result under every larger bound, so it is the result of the unbounded run |
| Pipeline.InterpretEmpty | src/main.rs:31-58 | running an empty file gives `null` |
| Pipeline.InterpretHangs | src/lexer/mod.rs:198 | a file that begins with digits followed by `_` never gets past the lexer, whatever follows |
| Pipeline.InterpretStages | src/main.rs:31-58 | the stage-by-stage reading of `Interpret`: every file the lexer returns on ends with the parser's error, the parser's index panic, or the evaluation's outcome |
| Pipeline.InterpretFinishes | src/main.rs:31-58 | a file without `_` or a backslash always finishes |
| Pipeline.InterpretFuel | src/main.rs:31-58 | a file's result other than running out of stack is its result under every larger stack bound |

## Left out

- Reading files, printing, command-line flags and the REPL (src/main.rs, src/repl.rs). The REPL keeps one scope across lines; the model evaluates each program in a fresh scope.
- src/main.rs calls a free `eval(program, &mut scope)` that src/eval/mod.rs does not define. The model runs `Evaluator::eval` instead, which starts from the default scope.
- src/error.rs only wraps a message. Converting a number-parsing error forwards its text, and the model uses that text directly.
- Floating-point values are one opaque `FloatLit` tag, with no value:
  - float arithmetic yields the tag;
  - a float token parses whenever it has the digits-dot-digits shape the lexer produces;
  - nothing is said about its printed text.
- Values.Render: returns no text for a float, because float values are not modelled.
- `==` evaluation is `todo!()` in the source and is modelled as the panic `Unimplemented`.
- `if`, `&&` and `||` have no arm in the evaluator's matches. The source does not compile as written. These are modelled as the panic `NoEvaluationRule`.
- Operators follow the complete version in src/eval/ops.rs. That file is not compiled in as written: src/eval/mod.rs:1 declares only `value`, and `eval_expr` (src/eval/value.rs:31) calls the older copy at src/eval/value.rs:37-132. That older copy differs in these ways:
  - `-`, `*`, `/` and `==` reach `todo!()` (src/eval/value.rs:71);
  - a `+` operand of the wrong type reads "cannot compare type integer with type T", or the float or string form (src/eval/value.rs:86, 104, 121);
  - a first operand with no `+` rule reads "cannot compare type T" (src/eval/value.rs:130).
- Both copies of `+` add integers with `iter().sum()`, which panics on overflow in a debug build; the model checks each partial sum.
- Stack depth. Recursion through calls is bounded by a `fuel` count that drops by one per call body. Running out is the panic `OutOfFuel`, which stands for the stack overflowing. Any result other than `OutOfFuel` is the result under every larger bound (`EvalFacts.FuelMonotone`, `Pipeline.InterpretFuel`), so it is the result of the unbounded run.
- Expressions take the scope by value. In the source only assignments write to a scope, and a call writes only its own child scope, which is then dropped. So no expression can change its caller's scope.
- The lexer's `i32` line and column counters are unbounded integers here; overflowing them takes over two billion characters.
- `Token`'s own display text `Token(value, location)` (src/lexer/token.rs:15-25) is used only for debugging output and is not modelled.
- The string lexer's `escaped` flag is never reached. A backslash makes the lexer loop before the flag matters, so the flag has no state in the model.
- `back_token` at position 0 underflows a `usize` and panics. The model returns no parser there, and the grammar never calls it.
- LexerFacts.LexReturns: gives only a sufficient condition for the lexer to return (no `_` and no backslash), not an exact one.
- OpsFacts.MultiplyExact: states only that a product which does not panic is exact; it gives no bound under which `*` is sure not to overflow.
- Tokens.LocationText: states the round trip for coordinates that fit in `i64`, the range of the integer text reader, rather than exactly `i32`.
- Lexing.Lex: states only the shape of the token vector; which tokens it holds is stated by the `LexerFacts` lemmas.
- Parsing.ParseExpression: its own contract states only where the cursor can stop; the grammar facts are in `ParserFacts`.
- Parsing.ParseStatement: its own contract says only that the cursor never moves back; its grammar is stated by the `ParserFacts` lemmas named in its row.
- Parsing.ParseAssign: its own contract says only that the cursor never moves back; its grammar is stated by the `ParserFacts` lemmas named in its row.
- Parsing.ParseIf: its own contract says only that the cursor never moves back; its grammar is stated by the `ParserFacts` lemmas named in its row.
- Parsing.IfTail: its own contract says only that the cursor never moves back; its grammar is stated by the `ParserFacts` lemmas named in its row.
- Parsing.Block: its own contract says only that the cursor never moves back; its grammar is stated by the `ParserFacts` lemmas named in its row.
- Parsing.ParseTerm: its own contract says only that the cursor never moves back; its grammar is stated by the `ParserFacts` lemmas named in its row.
- Parsing.ParseOperator: its own contract says only that the cursor never moves back; its grammar is stated by the `ParserFacts` lemmas named in its row.
- Parsing.OperatorArgs: its own contract says only that the cursor never moves back; its grammar is stated by the `ParserFacts` lemmas named in its row.
- Parsing.ParseCall: its own contract says only that the cursor never moves back; its grammar is stated by the `ParserFacts` lemmas named in its row.
- Parsing.CallArgs: its own contract says only that the cursor never moves back; its grammar is stated by the `ParserFacts` lemmas named in its row.
- Parsing.Operands: its own contract says only that the cursor never moves back; its grammar is stated by the `ParserFacts` lemmas named in its row.
- Parsing.ParseFunction: its own contract says only that the cursor never moves back; its grammar is stated by the `ParserFacts` lemmas named in its row.
- Parsing.FunctionBody: its own contract says only that the cursor never moves back; its grammar is stated by the `ParserFacts` lemmas named in its row.
- Parsing.ProgramLoop: its own contract says only that the cursor never moves back; its grammar is stated by the `ParserFacts` lemmas named in its row.
- Lexing.ScanNumber: its own contract bounds only how much input it consumes; its tokens are stated by the `LexerFacts` lemmas named in its row.
- Lexing.ScanString: its own contract bounds only how much input it consumes; its tokens are stated by the `LexerFacts` lemmas named in its row.
- Lexing.ScanIdent: its own contract bounds only how much input it consumes; its tokens are stated by the `LexerFacts` lemmas named in its row.
- Lexing.SkipComment: its own contract bounds only how much input it consumes; its tokens are stated by the `LexerFacts` lemmas named in its row.
- Lexing.Step: its own contract bounds only how much input it consumes; its tokens are stated by the `LexerFacts` lemmas named in its row.
- Lexing.LexFrom: its own contract bounds only how much input it consumes; its tokens are stated by the `LexerFacts` lemmas named in its row.
- Evaluation.EvalExpr: its own contract limits only which panics it can raise; its values are stated by the `EvalFacts` lemmas named in its row.
- Evaluation.EvalOperator: its own contract limits only which panics it can raise; its values are stated by the `EvalFacts` lemmas named in its row.
- Evaluation.EvalCall: its own contract limits only which panics it can raise; its values are stated by the `EvalFacts` lemmas named in its row.
- Evaluation.EvalProgram: its own contract limits only which panics it can raise; its values are stated by the `EvalFacts` lemmas named in its row.
- Ops.CheckedSum: its own contract limits only which panics it can raise; its values are stated by the `OpsFacts` lemmas named in its row.
- Ops.EvalAdd: its own contract limits only which panics it can raise; its values are stated by the `OpsFacts` lemmas named in its row.
- Ops.EvalArithmetic: its own contract limits only which panics it can raise; its values are stated by the `OpsFacts` lemmas named in its row.

Behaviour of the code that a user of the language might not expect, and that the model keeps:

- `/ 1 0` and `/ 0 0` panic on the zero divisor; no division returns an error value.
- A zero-parameter function cannot be called with a single `()` argument. The argument count must equal the parameter count.
- `if ... { = x 1 }` is rejected, because an assignment must be followed by the end of a statement. A top-level `if` without `else` is also rejected, unless a `}` follows it, which the `if` then consumes.
- A `_` inside a number, or a backslash inside a string, makes the lexer loop forever.
- An operator's operands may be parenthesised calls, because `( … )` is read with the full expression parser.
- A bare name in parentheses is a call with no arguments, not a variable read, because `)` does not end a statement. So `+ (x) 1` with `x` an integer fails with "cannot call type integer as a function" rather than adding.
