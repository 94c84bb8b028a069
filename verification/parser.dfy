/**
 * The recursive-descent parser (src/parser/mod.rs, src/parser/ast.rs).
 *
 * The program's parser is a mutable cursor over the token vector; every
 * `parse` routine moves it and returns a node or an error message. Here a
 * cursor is a value and every routine returns the cursor it stops at, also
 * on failure, because one caller (`Operator::parse`) swallows an error and
 * carries on from wherever the failing routine left the cursor. Moving past
 * the last token indexes out of bounds and panics: that is `Panicked`.
 */
module Parsing {
  import opened Common
  import opened Numbers
  import opened Tokens
  import opened Lexing
  import opened Syntax

  /** The token vector and the index of the current token. */
  datatype Parser = Parser(tokens: seq<Token>, pos: nat)

  /** A parse result, the message of a failed parse, or a panic. */
  datatype PResult<T> =
    | Parsed(value: T, next: Parser)
    | Failed(msg: string, at: Parser)
    | Panicked
  {
    predicate IsFailure() {
      !Parsed?
    }

    function PropagateFailure<U>(): PResult<U>
      requires !Parsed?
    {
      if Failed? then Failed(msg, at) else Panicked
    }

    function Extract(): PResult<T>
      requires Parsed?
    {
      this
    }
  }

  /** The cursor points at a token. */
  predicate Valid(p: Parser) {
    p.pos < |p.tokens|
  }

  /** `q` is a valid cursor on the same tokens, no earlier than `p`. */
  predicate Ahead(p: Parser, q: Parser) {
    q.tokens == p.tokens && p.pos <= q.pos < |q.tokens|
  }

  /** Wherever a routine stops, successfully or not, it has not moved backwards. */
  predicate Within<T>(p: Parser, r: PResult<T>) {
    match r
    case Parsed(_, q) => Ahead(p, q)
    case Failed(_, q) => Ahead(p, q)
    case Panicked => true
  }

  /** The token `peek_token` falls back to beyond the end of the vector. */
  const EofToken: Token := Token(EOF, NewLocation(0, 0))

  const EOF_MSG := "unexpected end of file"

  /** The message `f64::from_str` gives for text that is not a float. */
  const FLOAT_MSG := "invalid float literal"

  function Unexpected(t: TokenValue): string {
    "unexpected token " + TokenName(t)
  }

  // ---------------------------------------------------------------------------
  // The cursor (src/parser/mod.rs)

  /** `Parser::new`: the cursor at the first token. */
  function NewParser(tokens: seq<Token>): (p: Parser)
    ensures p.tokens == tokens && p.pos == 0
    ensures Valid(p) <==> |tokens| > 0
  {
    Parser(tokens, 0)
  }

  /** `current_token`. */
  function Current(p: Parser): (t: Token)
    requires Valid(p)
    ensures t in p.tokens
  {
    p.tokens[p.pos]
  }

  /** `next_token`: step forward and return the new current token, or panic past the end. */
  function Next(p: Parser): (r: PResult<Token>)
    ensures !r.Failed?
    ensures r.Parsed? <==> p.pos + 1 < |p.tokens|
    ensures r.Parsed? ==> r.next == p.(pos := p.pos + 1) && Valid(r.next) && r.value == Current(r.next)
  {
    if p.pos + 1 < |p.tokens| then Parsed(p.tokens[p.pos + 1], p.(pos := p.pos + 1)) else Panicked
  }

  /** `peek_token`: the token after the current one, or an `EOF` token past the end. */
  function Peek(p: Parser): (t: Token)
    ensures p.pos + 1 < |p.tokens| ==> t == p.tokens[p.pos + 1]
    ensures p.pos + 1 >= |p.tokens| ==> t.value == EOF
  {
    if p.pos + 1 >= |p.tokens| then EofToken else p.tokens[p.pos + 1]
  }

  /** `back_token`: step back one token; at the first token the `usize` underflows and panics. */
  function Back(p: Parser): (r: Option<Parser>)
    ensures r.Some? <==> p.pos > 0
    ensures r.Some? ==> r.value.tokens == p.tokens && r.value.pos + 1 == p.pos
  {
    if p.pos == 0 then None else Some(p.(pos := p.pos - 1))
  }

  /**
   * `next_token` right after `peek_token` has shown a token other than `EOF`:
   * that token exists, so the step cannot panic.
   */
  function Skip(p: Parser): (q: Parser)
    requires Peek(p).value != EOF
    ensures Valid(q) && q.tokens == p.tokens && q.pos == p.pos + 1
    ensures Next(p) == Parsed(Current(q), q) && Current(q) == Peek(p)
  {
    p.(pos := p.pos + 1)
  }

  // ---------------------------------------------------------------------------
  // Token classes the loops stop at

  /** The tokens that end a statement. */
  predicate EndsStatement(t: TokenValue) {
    t == EOF || t == Semicolon || t == Newline
  }

  /** The tokens that end the argument list of a call. */
  predicate EndsCallArgs(t: TokenValue) {
    EndsStatement(t) || t == RightParen
  }

  /** The tokens that end the operands of an operator, `&&` or `||`. */
  predicate EndsOperands(t: TokenValue) {
    EndsCallArgs(t) || t == BlockStart
  }

  predicate IsSeparator(t: TokenValue) {
    t == Semicolon || t == Newline
  }

  /** The operator an operator token introduces. */
  function KindOf(t: TokenValue): (k: Option<OperatorKind>)
    ensures k.Some? <==> t in {Equal, Plus, Minus, Asterisk, Slash, Bang}
  {
    match t
    case Equal => Some(Equals)
    case Plus => Some(Add)
    case Minus => Some(Subtract)
    case Asterisk => Some(Multiply)
    case Slash => Some(Divide)
    case Bang => Some(Inverse)
    case _ => None
  }

  // ---------------------------------------------------------------------------
  // Leaves

  /** `Identifier::parse`: the current token must be an identifier; the cursor stays. */
  function ParseIdentifier(p: Parser): (r: PResult<Identifier>)
    requires Valid(p)
    ensures r.Parsed? <==> Current(p).value.Ident?
    ensures r.Parsed? ==> r.value.value == Current(p).value.text && r.next == p
    ensures !r.Parsed? ==> r == Failed(Unexpected(Current(p).value), p)
  {
    match Current(p).value
    case Ident(name) => Parsed(Identifier(name), p)
    case t => Failed(Unexpected(t), p)
  }

  /**
   * `Primitive::parse`: a literal token becomes a literal; the cursor stays.
   * The integer text goes through `str::parse::<i64>` and its error message
   * is the one reported. Any other token is `unreachable!`.
   */
  function ParsePrimitive(p: Parser): (r: PResult<Primitive>)
    requires Valid(p)
    ensures r.Parsed? ==> r.next == p
    ensures r.Failed? ==> r.at == p
  {
    match Current(p).value
    case Integer(text) =>
      (match ParseI64(text)
       case Ok(n) => Parsed(IntLit(n), p)
       case Err(m) => Failed(m, p)
       case Abort(_) => Panicked)
    case Float(text) => if NumberText(text, true) then Parsed(FloatLit, p) else Failed(FLOAT_MSG, p)
    case String(s) => Parsed(StrLit(s), p)
    case True => Parsed(BoolLit(true), p)
    case False => Parsed(BoolLit(false), p)
    case _ => Panicked
  }

  /** The separators `If::parse` skips after a consequence block, by peeking. */
  function SkipSeparators(p: Parser): (q: Parser)
    requires Valid(p)
    ensures Ahead(p, q) && !IsSeparator(Peek(q).value)
    ensures forall i :: p.pos < i <= q.pos ==> IsSeparator(p.tokens[i].value)
    decreases |p.tokens| - p.pos
  {
    if IsSeparator(Peek(p).value) then SkipSeparators(Skip(p)) else p
  }

  /** `Function::parse`'s parameter loop, after the first name: names up to `]`, which is consumed too. */
  function Params(p: Parser, acc: seq<Identifier>): (r: PResult<seq<Identifier>>)
    requires Valid(p)
    ensures Within(p, r)
    ensures r.Parsed? ==> p.pos < r.next.pos
    decreases |p.tokens| - p.pos
  {
    var n :- Next(p);
    var t := n.value.value;
    if t == EOF then Failed(EOF_MSG, n.next)
    else if t == RightBracket then
      var m :- Next(n.next);
      Parsed(acc, m.next)
    else
      var id :- ParseIdentifier(n.next);
      Params(id.next, acc + [id.value])
  }

  // ---------------------------------------------------------------------------
  // Statements and expressions: one mutually recursive family. Each routine
  // either moves the cursor before recursing or calls a routine of lower rank
  // (the second component of `decreases`).

  /** `Statement::parse`: dispatch on the current token. */
  function ParseStatement(p: Parser): (r: PResult<Statement>)
    requires Valid(p)
    ensures Within(p, r)
    decreases |p.tokens| - p.pos, 6
  {
    match Current(p).value
    case Assign => ParseAssign(p)
    case If => ParseIf(p)
    case _ =>
      var e :- ParseExpression(p);
      Parsed(ExprStmt(e.value), e.next)
  }

  /** `Assign::parse`: `= name value`, which must end the statement. */
  function ParseAssign(p: Parser): (r: PResult<Statement>)
    requires Valid(p)
    ensures Within(p, r)
    decreases |p.tokens| - p.pos, 5
  {
    var n1 :- Next(p);
    var name :- ParseIdentifier(n1.next);
    var n2 :- Next(name.next);
    var value :- ParseExpression(n2.next);
    var t := Peek(value.next).value;
    if EndsStatement(t) then Parsed(AssignStmt(name.value, value.value), value.next)
    else Failed(Unexpected(t), value.next)
  }

  /**
   * `If::parse`: `if condition { ... }`, then after any separators either the
   * `}` of an enclosing block or `else { ... }`.
   */
  function ParseIf(p: Parser): (r: PResult<Statement>)
    requires Valid(p)
    ensures Within(p, r)
    decreases |p.tokens| - p.pos, 5
  {
    var n1 :- Next(p);
    var cond :- ParseExpression(n1.next);
    var n2 :- Next(cond.next);
    if n2.value.value != BlockStart then Failed(BlockStartMessage(n2.value.value), n2.next)
    else
      var cons :- Block(n2.next, [], false);
      IfTail(cond.value, cons.value, SkipSeparators(cons.next))
  }

  /**
   * The rest of `If::parse`, once the separators after the consequence block
   * are skipped: the `}` of an enclosing block, or `else { ... }`.
   */
  function IfTail(cond: Expression, cons: seq<Statement>, q: Parser): (r: PResult<Statement>)
    requires Valid(q)
    ensures Within(q, r)
    decreases |q.tokens| - q.pos, 4
  {
    var t := Peek(q).value;
    if t == BlockEnd then
      Parsed(IfStmt(cond, cons, None), Skip(q))
    else if t == Else then
      var n4 :- Next(Skip(q));
      if n4.value.value != BlockStart then Failed(BlockStartMessage(n4.value.value), n4.next)
      else
        var alt :- Block(n4.next, [], true);
        Parsed(IfStmt(cond, cons, Some(alt.value)), alt.next)
    else Failed(ElseMessage(t), q)
  }

  function BlockStartMessage(t: TokenValue): string {
    "expected block start; got " + TokenName(t)
  }

  function ElseMessage(t: TokenValue): string {
    "expected block end or else statement; got " + TokenName(t)
  }

  /**
   * A block of an `if`, entered at its `{`: statements up to the `}`, driven
   * by peeking. The else block steps once more past its `}` (`closeTwice`).
   */
  function Block(p: Parser, acc: seq<Statement>, closeTwice: bool): (r: PResult<seq<Statement>>)
    requires Valid(p)
    ensures Within(p, r)
    decreases |p.tokens| - p.pos, 1
  {
    var t := Peek(p).value;
    if t == EOF then Failed(EOF_MSG, p)
    else
      var q := Skip(p);
      if IsSeparator(t) then Block(q, acc, closeTwice)
      else if t == BlockEnd then
        if closeTwice then
          var m :- Next(q);
          Parsed(acc, m.next)
        else Parsed(acc, q)
      else
        var s :- ParseStatement(q);
        Block(s.next, acc + [s.value], closeTwice)
  }

  /** `Expression::parse`. */
  function ParseExpression(p: Parser): (r: PResult<Expression>)
    requires Valid(p)
    ensures Within(p, r)
    decreases |p.tokens| - p.pos, 4
  {
    ParseTerm(p, true)
  }

  /** `Expression::parse_non_call`: an identifier is never read as a call here. */
  function ParseNonCall(p: Parser): (r: PResult<Expression>)
    requires Valid(p)
    ensures Within(p, r)
    decreases |p.tokens| - p.pos, 4
  {
    ParseTerm(p, false)
  }

  /**
   * The two expression routines share every arm but the identifier one:
   * with `calls`, an identifier not followed by the end of the statement
   * starts a call.
   */
  function ParseTerm(p: Parser, calls: bool): (r: PResult<Expression>)
    requires Valid(p)
    ensures Within(p, r)
    decreases |p.tokens| - p.pos, 3
  {
    match Current(p).value
    case LeftParen =>
      var n :- Next(p);
      if n.value.value == RightParen then Parsed(PrimitiveExpr(NullLit), n.next)
      else
        var e :- ParseExpression(n.next);
        var t := Peek(e.next).value;
        if t == RightParen then Parsed(e.value, Skip(e.next))
        else Failed("expected right paren; got " + TokenName(t), e.next)
    case And =>
      var args :- Operands(p, []);
      Parsed(AndExpr(args.value), args.next)
    case Or =>
      var args :- Operands(p, []);
      Parsed(OrExpr(args.value), args.next)
    case BlockStart => ParseFunction(p)
    case Integer(_) | Float(_) | String(_) | True | False =>
      var v :- ParsePrimitive(p);
      Parsed(PrimitiveExpr(v.value), v.next)
    case Ident(name) =>
      if calls && !EndsStatement(Peek(p).value) then ParseCall(p)
      else Parsed(IdentifierExpr(Identifier(name)), p)
    case Equal | Plus | Minus | Asterisk | Slash | Bang => ParseOperator(p)
    case t => Failed(Unexpected(t), p)
  }

  /**
   * `Operator::parse`: operands are read with `parse_non_call` until a
   * terminator; the first operand that fails to parse ends the list and its
   * error is dropped, so the routine itself never fails.
   */
  function ParseOperator(p: Parser): (r: PResult<Expression>)
    requires Valid(p)
    ensures Within(p, r)
    decreases |p.tokens| - p.pos, 2
  {
    match KindOf(Current(p).value)
    case None => Panicked
    case Some(k) =>
      var args :- OperatorArgs(p, []);
      Parsed(OperatorExpr(k, args.value), args.next)
  }

  function OperatorArgs(p: Parser, acc: seq<Expression>): (r: PResult<seq<Expression>>)
    requires Valid(p)
    ensures Within(p, r)
    decreases |p.tokens| - p.pos, 1
  {
    var t := Peek(p).value;
    if EndsOperands(t) then Parsed(acc, p)
    else
      match ParseNonCall(Skip(p))
      case Parsed(e, q) => OperatorArgs(q, acc + [e])
      case Failed(_, q) => Parsed(acc, q)
      case Panicked => Panicked
  }

  /** The operand loop of `And::parse` and `Or::parse`: full expressions, errors propagate. */
  function Operands(p: Parser, acc: seq<Expression>): (r: PResult<seq<Expression>>)
    requires Valid(p)
    ensures Within(p, r)
    decreases |p.tokens| - p.pos, 1
  {
    var t := Peek(p).value;
    if EndsOperands(t) then Parsed(acc, p)
    else
      var e :- ParseExpression(Skip(p));
      Operands(e.next, acc + [e.value])
  }

  /** `Call::parse`: the name, then full expressions up to the end of the statement or a `)`. */
  function ParseCall(p: Parser): (r: PResult<Expression>)
    requires Valid(p)
    ensures Within(p, r)
    decreases |p.tokens| - p.pos, 2
  {
    var name :- ParseIdentifier(p);
    var args :- CallArgs(p, []);
    Parsed(CallExpr(name.value, args.value), args.next)
  }

  function CallArgs(p: Parser, acc: seq<Expression>): (r: PResult<seq<Expression>>)
    requires Valid(p)
    ensures Within(p, r)
    decreases |p.tokens| - p.pos, 1
  {
    var t := Peek(p).value;
    if EndsCallArgs(t) then Parsed(acc, p)
    else
      var e :- ParseExpression(Skip(p));
      CallArgs(e.next, acc + [e.value])
  }

  /** `Function::parse`, entered at its `{`: an optional `[names]`, then the body through `}`. */
  function ParseFunction(p: Parser): (r: PResult<Expression>)
    requires Valid(p)
    ensures Within(p, r)
    decreases |p.tokens| - p.pos, 2
  {
    var n :- Next(p);
    if n.value.value != LeftBracket then FunctionBody(n.next, [], [])
    else
      var n2 :- Next(n.next);
      var t := n2.value.value;
      if t == EOF then Failed(EOF_MSG, n2.next)
      else if t == RightBracket then
        var n3 :- Next(n2.next);
        FunctionBody(n3.next, [], [])
      else
        var first :- ParseIdentifier(n2.next);
        var ps :- Params(first.next, [first.value]);
        FunctionBody(ps.next, ps.value, [])
  }

  /** The body loop of `Function::parse`, driven by the current token. */
  function FunctionBody(p: Parser, params: seq<Identifier>, acc: seq<Statement>): (r: PResult<Expression>)
    requires Valid(p)
    ensures Within(p, r)
    decreases |p.tokens| - p.pos, 7
  {
    var t := Current(p).value;
    if t == EOF then Failed(EOF_MSG, p)
    else if IsSeparator(t) then
      var n :- Next(p);
      FunctionBody(n.next, params, acc)
    else if t == BlockEnd then
      var n :- Next(p);
      Parsed(FunctionExpr(Function(params, acc)), n.next)
    else
      var s :- ParseStatement(p);
      var n :- Next(s.next);
      if Current(s.next).value == BlockEnd then Parsed(FunctionExpr(Function(params, acc + [s.value])), n.next)
      else FunctionBody(n.next, params, acc + [s.value])
  }

  // ---------------------------------------------------------------------------
  // Programs

  /** `Program::parse`'s loop: statements up to the current token being `EOF`. */
  function ProgramLoop(p: Parser, acc: seq<Statement>): (r: PResult<Program>)
    requires Valid(p)
    ensures Within(p, r)
    decreases |p.tokens| - p.pos
  {
    var t := Current(p).value;
    if t == EOF then Parsed(Program(acc), p)
    else if IsSeparator(t) then
      var n :- Next(p);
      ProgramLoop(n.next, acc)
    else
      var s :- ParseStatement(p);
      if Current(s.next).value == EOF then Parsed(Program(acc + [s.value]), s.next)
      else
        var n :- Next(s.next);
        ProgramLoop(n.next, acc + [s.value])
  }

  /** `Parser::new(tokens).parse()`. An empty vector has no current token: the program panics. */
  function Parse(tokens: seq<Token>): (r: PResult<Program>)
    ensures |tokens| == 0 ==> r.Panicked?
  {
    if |tokens| == 0 then Panicked else ProgramLoop(NewParser(tokens), [])
  }
}
