/**
 * What the parser guarantees: the cursor laws, how a statement and an
 * expression are told apart by their first tokens, which routines can fail
 * and where, and the shape of what each one returns.
 */
module ParserFacts {
  import opened Common
  import opened Numbers
  import opened Tokens
  import opened Lexing
  import opened Syntax
  import opened Parsing

  // ---------------------------------------------------------------------------
  // The cursor

  /** `back_token` undoes `next_token`. */
  lemma NextThenBack(p: Parser)
    requires Next(p).Parsed?
    ensures Back(Next(p).next) == Some(p)
  {
  }

  /**
   * `peek_token` shows the token `next_token` would step to, and reports
   * `EOF` exactly where `next_token` would panic or land on an `EOF`.
   */
  lemma PeekAgreesWithNext(p: Parser)
    ensures Next(p).Parsed? ==> Peek(p) == Next(p).value
    ensures Next(p).Panicked? ==> Peek(p).value == EOF
    ensures Peek(p).value != EOF ==> Next(p).Parsed?
  {
  }

  // ---------------------------------------------------------------------------
  // Failing routines fail ahead of where they started

  lemma OperandsFailAhead(p: Parser, acc: seq<Expression>)
    requires Valid(p)
    ensures Operands(p, acc).Failed? ==> Operands(p, acc).at.pos > p.pos
  {
  }

  lemma CallArgsFailAhead(p: Parser, acc: seq<Expression>)
    requires Valid(p)
    ensures CallArgs(p, acc).Failed? ==> CallArgs(p, acc).at.pos > p.pos
  {
  }

  lemma FunctionFailsAhead(p: Parser)
    requires Valid(p)
    ensures ParseFunction(p).Failed? ==> ParseFunction(p).at.pos > p.pos
  {
  }

  /** The operand loop of an operator stops at its first bad operand instead of failing. */
  lemma {:induction false} OperatorArgsNeverFail(p: Parser, acc: seq<Expression>)
    requires Valid(p)
    ensures var r := OperatorArgs(p, acc);
      !r.Failed? && (r.Parsed? ==> |r.value| >= |acc| && r.value[..|acc|] == acc)
    decreases |p.tokens| - p.pos
  {
    if !EndsOperands(Peek(p).value) {
      match ParseNonCall(Skip(p))
      case Parsed(e, q) =>
        OperatorArgsNeverFail(q, acc + [e]);
        var r := OperatorArgs(q, acc + [e]);
        if r.Parsed? {
          assert r.value[..|acc|] == (r.value[..|acc| + 1])[..|acc|];
        }
      case Failed(_, _) =>
      case Panicked =>
    }
  }

  /** `Operator::parse` never reports an error; its kind is the one the operator token names. */
  lemma OperatorNeverFails(p: Parser)
    requires Valid(p)
    ensures !ParseOperator(p).Failed?
    ensures ParseOperator(p).Parsed? ==>
      KindOf(Current(p).value) == Some(ParseOperator(p).value.kind) && ParseOperator(p).value.OperatorExpr?
    ensures ParseOperator(p).Panicked? <==>
      KindOf(Current(p).value).None? || OperatorArgs(p, []).Panicked?
  {
    OperatorArgsNeverFail(p, []);
  }

  /**
   * The operand loops differ only in what a failing operand does: an
   * operator keeps the operands it has and leaves the cursor where the
   * failing operand gave up, while `&&`, `||` and a call fail with that
   * operand's error.
   */
  lemma FailingOperand(p: Parser, acc: seq<Expression>, msg: string, q: Parser)
    requires Valid(p) && !EndsOperands(Peek(p).value)
    ensures ParseNonCall(Skip(p)) == Failed(msg, q) ==> OperatorArgs(p, acc) == Parsed(acc, q)
    ensures ParseExpression(Skip(p)) == Failed(msg, q) ==>
      Operands(p, acc) == Failed(msg, q) && CallArgs(p, acc) == Failed(msg, q)
  {
  }

  // ---------------------------------------------------------------------------
  // Statements

  /** `Statement::parse` reads an assignment exactly at `=`, an `if` exactly at `if`, and otherwise an expression. */
  lemma StatementKinds(p: Parser)
    requires Valid(p)
    ensures var t, r := Current(p).value, ParseStatement(p);
      && (t == Assign ==> r == ParseAssign(p))
      && (t == If ==> r == ParseIf(p))
      && (r.Parsed? ==> (r.value.AssignStmt? <==> t == Assign) && (r.value.IfStmt? <==> t == If))
      && (t != Assign && t != If ==>
           (r.Parsed? <==> ParseExpression(p).Parsed?)
           && (r.Parsed? ==> r == Parsed(ExprStmt(ParseExpression(p).value), ParseExpression(p).next)))
  {
    var t, r := Current(p).value, ParseStatement(p);
    if t == Assign {
      AssignShape(p);
    } else if t == If {
      IfShape(p);
    }
  }

  lemma AssignShape(p: Parser)
    requires Valid(p)
    ensures ParseAssign(p).Parsed? ==> ParseAssign(p).value.AssignStmt?
  {
  }

  /**
   * An assignment is `=`, a name, and an expression that must end the
   * statement; the cursor stops on the expression's last token.
   */
  lemma AssignParts(p: Parser)
    requires Valid(p)
    ensures var r := ParseAssign(p);
      r.Parsed? ==>
        && p.pos + 2 < |p.tokens|
        && p.tokens[p.pos + 1].value == Ident(r.value.name.value)
        && EndsStatement(Peek(r.next).value)
  {
  }

  // ---------------------------------------------------------------------------
  // Expressions

  /** The tokens an expression may start with. */
  predicate StartsExpression(t: TokenValue) {
    || t in {LeftParen, And, Or, BlockStart, True, False, Equal, Plus, Minus, Asterisk, Slash, Bang}
    || t.Integer? || t.Float? || t.String? || t.Ident?
  }

  /** The messages `str::parse::<i64>` can report. */
  lemma {:induction false} AccumulateMessages(s: string, acc: int, negative: bool)
    requires InI64(acc)
    ensures var r := Accumulate(s, acc, negative);
      r.Err? ==> r.msg in {INVALID_DIGIT_MSG, TOO_LARGE_MSG, TOO_SMALL_MSG}
    decreases |s|
  {
    if |s| > 0 && IsDigit(s[0]) {
      var next := if negative then acc * 10 - DigitValue(s[0]) else acc * 10 + DigitValue(s[0]);
      if InI64(next) {
        AccumulateMessages(s[1..], next, negative);
      }
    }
  }

  lemma PrimitiveMessages(p: Parser)
    requires Valid(p)
    ensures var r := ParsePrimitive(p);
      r.Failed? ==> r.msg in {EMPTY_MSG, INVALID_DIGIT_MSG, TOO_LARGE_MSG, TOO_SMALL_MSG, FLOAT_MSG}
  {
    match Current(p).value
    case Integer(text) =>
      if |text| > 0 && !((text[0] == '+' || text[0] == '-') && |text| == 1) {
        if text[0] == '-' || text[0] == '+' {
          AccumulateMessages(text[1..], 0, text[0] == '-');
        } else {
          AccumulateMessages(text, 0, false);
        }
      }
    case _ =>
  }

  /**
   * An expression fails at its first token with "unexpected token T"
   * exactly when that token cannot start an expression; every other failure
   * happens further on or carries another message.
   */
  lemma UnexpectedStart(p: Parser, calls: bool)
    requires Valid(p)
    ensures ParseTerm(p, calls) == Failed(Unexpected(Current(p).value), p)
      <==> !StartsExpression(Current(p).value)
  {
    var t := Current(p).value;
    var u := Unexpected(t);
    assert u[0] == 'u';
    match t
    case And => OperandsFailAhead(p, []);
    case Or => OperandsFailAhead(p, []);
    case BlockStart => FunctionFailsAhead(p);
    case Integer(_) => PrimitiveMessages(p);
    case Float(_) => PrimitiveMessages(p);
    case Ident(_) => CallArgsFailAhead(p, []);
    case Equal => OperatorNeverFails(p);
    case Plus => OperatorNeverFails(p);
    case Minus => OperatorNeverFails(p);
    case Asterisk => OperatorNeverFails(p);
    case Slash => OperatorNeverFails(p);
    case Bang => OperatorNeverFails(p);
    case _ =>
  }

  /**
   * An identifier is a variable reference when the statement ends right
   * after it, and otherwise the name of a call; `parse_non_call` always
   * reads it as a reference.
   */
  lemma IdentifierOrCall(p: Parser, name: string)
    requires Valid(p) && Current(p).value == Ident(name)
    ensures EndsStatement(Peek(p).value) ==>
      ParseExpression(p) == Parsed(IdentifierExpr(Identifier(name)), p)
    ensures !EndsStatement(Peek(p).value) ==>
      ParseExpression(p) == ParseCall(p)
      && (ParseExpression(p).Parsed? ==> ParseExpression(p).value == CallExpr(Identifier(name), ParseExpression(p).value.args))
    ensures ParseNonCall(p) == Parsed(IdentifierExpr(Identifier(name)), p)
  {
  }

  /** `()` is the null literal, and the cursor stops on the `)`. */
  lemma EmptyParens(p: Parser)
    requires Valid(p) && Current(p).value == LeftParen && Peek(p).value == RightParen
    ensures ParseExpression(p) == Parsed(PrimitiveExpr(NullLit), Skip(p))
  {
  }

  /** A parenthesised expression is its inner expression, and must be closed right after it. */
  lemma Parenthesised(p: Parser)
    requires Valid(p) && Current(p).value == LeftParen && Peek(p).value != RightParen && Peek(p).value != EOF
    ensures var inner := ParseExpression(Skip(p));
      inner.Parsed? ==>
        if Peek(inner.next).value == RightParen then
          ParseExpression(p) == Parsed(inner.value, Skip(inner.next))
        else
          ParseExpression(p) == Failed("expected right paren; got " + TokenName(Peek(inner.next).value), inner.next)
  {
  }

  /**
   * `( x )` is a call of `x` with no arguments, not a reference to `x`:
   * the `)` after the name ends a call's arguments but not a statement.
   */
  lemma ParenthesisedName(p: Parser, name: string)
    requires p.pos + 2 < |p.tokens|
    requires p.tokens[p.pos].value == LeftParen && p.tokens[p.pos + 1].value == Ident(name)
    requires p.tokens[p.pos + 2].value == RightParen
    ensures ParseExpression(p) == Parsed(CallExpr(Identifier(name), []), p.(pos := p.pos + 2))
  {
    var q := p.(pos := p.pos + 1);
    assert Next(p) == Parsed(Current(q), q);
    assert CallArgs(q, []) == Parsed([], q);
    assert ParseCall(q) == Parsed(CallExpr(Identifier(name), []), q);
    IdentifierOrCall(q, name);
  }

  /** A number with no dot. */
  lemma NoDotsAllDigits(t: string)
    requires |t| > 0 && IsDigit(t[0])
    requires forall i :: 0 <= i < |t| ==> IsDigit(t[i]) || t[i] == '.'
    requires Dots(t) == 0
    ensures AllDigits(t)
  {
    var i := |t|;
    assert t[..i] == t;
    while i > 0
      invariant 0 <= i <= |t|
      invariant Dots(t[..i]) == 0
      invariant forall j :: i <= j < |t| ==> IsDigit(t[j])
    {
      assert t[..i][..i - 1] == t[..i - 1];
      i := i - 1;
    }
  }

  /**
   * An integer token the lexer produced parses to the number its digits
   * denote when that fits in an `i64`, and otherwise fails with the
   * standard library's overflow message.
   */
  lemma IntegerLiteral(p: Parser, text: string)
    requires Valid(p) && Current(p).value == Integer(text) && NumberText(text, false)
    ensures AllDigits(text)
    ensures AllDigits(text) && DigitsValue(text) <= I64_MAX ==> ParsePrimitive(p) == Parsed(IntLit(DigitsValue(text) as i64), p)
    ensures AllDigits(text) && DigitsValue(text) > I64_MAX ==> ParsePrimitive(p) == Failed(TOO_LARGE_MSG, p)
  {
    NoDotsAllDigits(text);
    ParseDigitRun(text);
  }
  // ---------------------------------------------------------------------------
  // `if`

  /**
   * A finished block keeps the statements collected before it, in order,
   * and stops on its `}`, or one token past it for an else block.
   */
  predicate ClosesBlock(r: PResult<seq<Statement>>, acc: seq<Statement>, closeTwice: bool) {
    r.Parsed? ==>
      && |r.value| >= |acc| && r.value[..|acc|] == acc
      && (if closeTwice then 0 < r.next.pos <= |r.next.tokens| && r.next.tokens[r.next.pos - 1].value == BlockEnd
          else Valid(r.next) && Current(r.next).value == BlockEnd)
  }

  lemma {:induction false} BlockEnds(p: Parser, acc: seq<Statement>, closeTwice: bool)
    requires Valid(p)
    ensures ClosesBlock(Block(p, acc, closeTwice), acc, closeTwice)
    decreases |p.tokens| - p.pos
  {
    var t := Peek(p).value;
    if t == BlockEnd {
      BlockCloses(p, acc, closeTwice);
    } else if t != EOF {
      var q := Skip(p);
      if IsSeparator(t) {
        BlockEnds(q, acc, closeTwice);
        BlockSkips(p, acc, closeTwice);
      } else {
        var s := ParseStatement(q);
        if s.Parsed? {
          var more := acc + [s.value];
          BlockEnds(s.next, more, closeTwice);
          BlockTakes(p, acc, closeTwice);
          var r := Block(s.next, more, closeTwice);
          if r.Parsed? {
            assert r.value[..|acc|] == r.value[..|more|][..|acc|];
            assert more[..|acc|] == acc;
          }
        } else {
          BlockTakes(p, acc, closeTwice);
        }
      }
    }
  }

  lemma BlockCloses(p: Parser, acc: seq<Statement>, closeTwice: bool)
    requires Valid(p) && Peek(p).value == BlockEnd
    ensures ClosesBlock(Block(p, acc, closeTwice), acc, closeTwice)
  {
    var q := Skip(p);
    assert Current(q).value == BlockEnd;
    assert acc[..|acc|] == acc;
  }

  lemma BlockSkips(p: Parser, acc: seq<Statement>, closeTwice: bool)
    requires Valid(p) && IsSeparator(Peek(p).value)
    ensures Block(p, acc, closeTwice) == Block(Skip(p), acc, closeTwice)
  {
  }

  lemma BlockTakes(p: Parser, acc: seq<Statement>, closeTwice: bool)
    requires Valid(p)
    requires var t := Peek(p).value; t != EOF && !IsSeparator(t) && t != BlockEnd
    ensures var s := ParseStatement(Skip(p));
      && (s.Parsed? ==> Block(p, acc, closeTwice) == Block(s.next, acc + [s.value], closeTwice))
      && (s.Failed? ==> Block(p, acc, closeTwice) == Failed(s.msg, s.at))
      && (s.Panicked? ==> Block(p, acc, closeTwice).Panicked?)
  {
  }

  /**
   * An `if` without `else` stops on a `}` it does not own: the end of the
   * block around it. One with `else` stops just past the else block's `}`.
   */
  predicate EndsIf(r: PResult<Statement>) {
    r.Parsed? ==>
      && r.value.IfStmt?
      && (r.value.alternative.None? ==> Valid(r.next) && Current(r.next).value == BlockEnd)
      && (r.value.alternative.Some? ==>
            0 < r.next.pos <= |r.next.tokens| && r.next.tokens[r.next.pos - 1].value == BlockEnd)
  }

  lemma IfShape(p: Parser)
    requires Valid(p)
    ensures EndsIf(ParseIf(p))
  {
    var r := ParseIf(p);
    if r.Parsed? {
      var n1 := Next(p);
      assert n1.Parsed?;
      var cond := ParseExpression(n1.next);
      assert cond.Parsed?;
      var n2 := Next(cond.next);
      assert n2.Parsed? && n2.value.value == BlockStart;
      var cons := Block(n2.next, [], false);
      assert cons.Parsed?;
      var q := SkipSeparators(cons.next);
      assert r == IfTail(cond.value, cons.value, q);
      IfTailShape(cond.value, cons.value, q);
    }
  }

  lemma IfTailShape(cond: Expression, cons: seq<Statement>, q: Parser)
    requires Valid(q)
    ensures EndsIf(IfTail(cond, cons, q))
    ensures var r := IfTail(cond, cons, q);
      r.Parsed? ==> r.value == IfStmt(cond, cons, r.value.alternative)
  {
    var r := IfTail(cond, cons, q);
    var t := Peek(q).value;
    if t == BlockEnd {
      assert r == Parsed(IfStmt(cond, cons, None), Skip(q));
    } else if t == Else {
      ElseShape(cond, cons, q);
    } else {
      assert !r.Parsed?;
    }
  }

  lemma ElseShape(cond: Expression, cons: seq<Statement>, q: Parser)
    requires Valid(q) && Peek(q).value == Else
    ensures var r := IfTail(cond, cons, q);
      r.Parsed? ==>
        && r.value == IfStmt(cond, cons, Some(r.value.alternative.value))
        && 0 < r.next.pos <= |r.next.tokens| && r.next.tokens[r.next.pos - 1].value == BlockEnd
  {
    var r := IfTail(cond, cons, q);
    var n4 := Next(Skip(q));
    if n4.Parsed? && n4.value.value == BlockStart {
      var alt := Block(n4.next, [], true);
      BlockEnds(n4.next, [], true);
      if alt.Parsed? {
        assert r == Parsed(IfStmt(cond, cons, Some(alt.value)), alt.next);
      } else {
        assert !r.Parsed?;
      }
    } else {
      assert !r.Parsed?;
    }
  }

  /** Either block of an `if` that meets the end of the file fails, at the cursor, before closing. */
  lemma BlockEof(p: Parser, acc: seq<Statement>, closeTwice: bool)
    requires Valid(p) && Peek(p).value == EOF
    ensures Block(p, acc, closeTwice) == Failed(EOF_MSG, p)
  {
  }

  /**
   * After the condition, `if` steps onto the next token and requires `{`:
   * anything else is "expected block start; got T" with the cursor on it,
   * and there being no next token panics.
   */
  lemma IfNeedsBlockStart(p: Parser)
    requires p.pos + 1 < |p.tokens|
    ensures var cond := ParseExpression(p.(pos := p.pos + 1));
      cond.Parsed? ==>
        var at := cond.next.(pos := cond.next.pos + 1);
        && (at.pos < |at.tokens| && Current(at).value != BlockStart ==>
              ParseIf(p) == Failed(BlockStartMessage(Current(at).value), at))
        && (at.pos >= |at.tokens| ==> ParseIf(p) == Panicked)
  {
    var p1 := p.(pos := p.pos + 1);
    var cond := ParseExpression(p1);
    var n1 := Next(p);
    assert n1.Parsed? && n1.next == p1 && !n1.IsFailure();
    if cond.Parsed? {
      assert !cond.IsFailure();
    }
  }

  /**
   * `else` must be followed by `{`: anything else is "expected block start;
   * got T" with the cursor on it, and an `else` as the last token panics.
   */
  lemma ElseNeedsBlockStart(cond: Expression, cons: seq<Statement>, q: Parser)
    requires Valid(q) && Peek(q).value == Else
    ensures var at := q.(pos := q.pos + 2);
      && (at.pos < |at.tokens| && Current(at).value != BlockStart ==>
            IfTail(cond, cons, q) == Failed(BlockStartMessage(Current(at).value), at))
      && (at.pos >= |at.tokens| ==> IfTail(cond, cons, q) == Panicked)
  {
  }

  // ---------------------------------------------------------------------------
  // Programs

  /**
   * The program loop keeps the statements it has, in order, and stops only
   * on an `EOF` token.
   */
  lemma {:induction false} ProgramLoopShape(p: Parser, acc: seq<Statement>)
    requires Valid(p)
    ensures var r := ProgramLoop(p, acc);
      r.Parsed? ==>
        && Current(r.next).value == EOF
        && |r.value.statements| >= |acc| && r.value.statements[..|acc|] == acc
    decreases |p.tokens| - p.pos
  {
    var t := Current(p).value;
    if t == EOF {
    } else if IsSeparator(t) {
      if Next(p).Parsed? {
        ProgramLoopShape(Next(p).next, acc);
      }
    } else {
      var s := ParseStatement(p);
      if s.Parsed? && Current(s.next).value != EOF && Next(s.next).Parsed? {
        var acc' := acc + [s.value];
        ProgramLoopShape(Next(s.next).next, acc');
        var r := ProgramLoop(Next(s.next).next, acc');
        if r.Parsed? {
          assert r.value.statements[..|acc|] == (r.value.statements[..|acc'|])[..|acc|];
        }
      }
    }
  }

  /** A parsed program ends on an `EOF` token. */
  lemma ParseEndsAtEof(tokens: seq<Token>)
    ensures var r := Parse(tokens);
      r.Parsed? ==> Current(r.next).value == EOF
  {
    if |tokens| > 0 {
      ProgramLoopShape(NewParser(tokens), []);
    }
  }

  /** Separators before the end of input are skipped: such a program has no statements. */
  lemma {:induction false} OnlySeparators(p: Parser)
    requires Valid(p) && Last(p.tokens).value == EOF
    requires forall i :: p.pos <= i < |p.tokens| - 1 ==> IsSeparator(p.tokens[i].value)
    ensures ProgramLoop(p, []) == Parsed(Program([]), p.(pos := |p.tokens| - 1))
    decreases |p.tokens| - p.pos
  {
    if p.pos < |p.tokens| - 1 {
      assert IsSeparator(Current(p).value);
      OnlySeparators(Next(p).next);
    }
  }

  // ---------------------------------------------------------------------------
  // Function literals

  /**
   * A function literal keeps its body statements in order after those
   * already collected; the loop fails with "unexpected end of file" when it
   * reaches `EOF` first.
   */
  lemma {:induction false} FunctionBodyShape(p: Parser, params: seq<Identifier>, acc: seq<Statement>)
    requires Valid(p)
    ensures var r := FunctionBody(p, params, acc);
      && (r.Parsed? ==>
           && r.value.FunctionExpr? && r.value.fn.params == params
           && |r.value.fn.body| >= |acc| && r.value.fn.body[..|acc|] == acc)
      && (Current(p).value == EOF ==> r == Failed(EOF_MSG, p))
    decreases |p.tokens| - p.pos
  {
    var t := Current(p).value;
    if t != EOF && t != BlockEnd {
      if IsSeparator(t) {
        if Next(p).Parsed? {
          FunctionBodyShape(Next(p).next, params, acc);
        }
      } else {
        var s := ParseStatement(p);
        if s.Parsed? && Next(s.next).Parsed? && Current(s.next).value != BlockEnd {
          var acc' := acc + [s.value];
          FunctionBodyShape(Next(s.next).next, params, acc');
          var r := FunctionBody(Next(s.next).next, params, acc');
          if r.Parsed? {
            assert r.value.fn.body[..|acc|] == (r.value.fn.body[..|acc'|])[..|acc|];
          }
        }
      }
    }
  }

  /** Every parameter is an identifier: anything else between `[` and `]` is an unexpected token. */
  lemma {:induction false} ParamsShape(p: Parser, acc: seq<Identifier>)
    requires Valid(p)
    ensures var r := Params(p, acc);
      && (r.Parsed? ==> |r.value| >= |acc| && r.value[..|acc|] == acc)
      && (r.Failed? ==> r.msg == EOF_MSG || (r.msg == Unexpected(Current(r.at).value) && !Current(r.at).value.Ident?))
    decreases |p.tokens| - p.pos
  {
    var n := Next(p);
    if n.Parsed? && n.value.value != EOF && n.value.value != RightBracket && n.value.value.Ident? {
      var id := ParseIdentifier(n.next);
      var acc' := acc + [id.value];
      ParamsShape(id.next, acc');
      var r := Params(id.next, acc');
      if r.Parsed? {
        assert r.value[..|acc|] == (r.value[..|acc'|])[..|acc|];
      }
    }
  }

  // ---------------------------------------------------------------------------
  // Worked examples, for any spans

  /** A string literal on its own is an expression statement, and the cursor stays on it. */
  lemma StringTerm(p: Parser, text: string)
    requires Valid(p) && Current(p).value == String(text)
    ensures ParseExpression(p) == Parsed(PrimitiveExpr(StrLit(text)), p)
    ensures ParseStatement(p) == Parsed(ExprStmt(PrimitiveExpr(StrLit(text))), p)
  {
    assert ParsePrimitive(p) == Parsed(StrLit(text), p);
  }

  /** `true` on its own is a literal expression, and the cursor stays on it. */
  lemma TrueTerm(p: Parser)
    requires Valid(p) && Current(p).value == True
    ensures ParseExpression(p) == Parsed(PrimitiveExpr(BoolLit(true)), p)
  {
    assert ParsePrimitive(p) == Parsed(BoolLit(true), p);
  }

  lemma IfStatement(p: Parser)
    requires Valid(p) && Current(p).value == If
    ensures ParseStatement(p) == ParseIf(p)
  {
  }

  /** A block whose next token is its `}`: nothing more is collected. */
  lemma BlockEndsHere(p: Parser, acc: seq<Statement>, closeTwice: bool)
    requires Valid(p) && Peek(p).value == BlockEnd
    requires closeTwice ==> p.pos + 2 < |p.tokens|
    ensures Block(p, acc, closeTwice) == Parsed(acc, p.(pos := if closeTwice then p.pos + 2 else p.pos + 1))
  {
    var q := Skip(p);
    if closeTwice {
      var m := Next(q);
      assert m.Parsed? && m.next == p.(pos := p.pos + 2);
    }
  }

  /** `{ "s" }` as a block: one expression statement; the cursor ends on the `}`, or past it when both braces are consumed. */
  lemma StringBlock(ts: seq<Token>, i: nat, text: string, closeTwice: bool)
    requires i + 3 < |ts|
    requires ts[i].value == BlockStart && ts[i + 1].value == String(text) && ts[i + 2].value == BlockEnd
    ensures Block(Parser(ts, i), [], closeTwice) ==
      Parsed([ExprStmt(PrimitiveExpr(StrLit(text)))], Parser(ts, if closeTwice then i + 3 else i + 2))
  {
    var p, q := Parser(ts, i), Parser(ts, i + 1);
    var a := ExprStmt(PrimitiveExpr(StrLit(text)));
    StringTerm(q, text);
    BlockEndsHere(q, [a], closeTwice);
    assert [] + [a] == [a];
    BlockTakes(p, [], closeTwice);
  }


  /** One step of `If::parse`: with its condition and consequence block read, the rest is `IfTail`. */
  lemma IfHeadStep(p: Parser)
    requires p.pos + 1 < |p.tokens|
    ensures var cond := ParseExpression(p.(pos := p.pos + 1));
      cond.Parsed? && Peek(cond.next).value == BlockStart ==>
        var cons := Block(Skip(cond.next), [], false);
        cons.Parsed? ==> ParseIf(p) == IfTail(cond.value, cons.value, SkipSeparators(cons.next))
  {
    var p1 := p.(pos := p.pos + 1);
    var cond := ParseExpression(p1);
    if cond.Parsed? && Peek(cond.next).value == BlockStart {
      var c1 := Skip(cond.next);
      var cons := Block(c1, [], false);
      var n1 := Next(p);
      assert n1.Parsed? && n1.next == p1;
      var n2 := Next(cond.next);
      assert n2.Parsed? && n2.next == c1 && n2.value.value == BlockStart;
      assert !n1.IsFailure() && !cond.IsFailure() && !n2.IsFailure();
    }
  }


  /** One statement of the program loop that ends the program, or fails. */
  lemma ProgramStatementStep(p: Parser, acc: seq<Statement>)
    requires Valid(p) && Current(p).value != EOF && !IsSeparator(Current(p).value)
    ensures var r := ParseStatement(p);
      && (r.Failed? ==> ProgramLoop(p, acc) == Failed(r.msg, r.at))
      && (r.Parsed? && Valid(r.next) && Current(r.next).value == EOF ==>
            ProgramLoop(p, acc) == Parsed(Program(acc + [r.value]), r.next))
  {
  }

  /** After a consequence block, anything but `}` or `else` is an error at the cursor. */
  lemma IfTailRejects(cond: Expression, cons: seq<Statement>, q: Parser)
    requires Valid(q) && Peek(q).value != BlockEnd && Peek(q).value != Else
    ensures IfTail(cond, cons, q) == Failed(ElseMessage(Peek(q).value), q)
  {
  }

  lemma NoSeparators(q: Parser)
    requires Valid(q) && !IsSeparator(Peek(q).value)
    ensures SkipSeparators(q) == q
  {
  }

  /** A program that starts with `if`: the `if` statement's failure, or the whole program when it ends there. */
  lemma ProgramStartsWithIf(ts: seq<Token>)
    requires |ts| > 0 && ts[0].value == If
    ensures var r := ParseIf(Parser(ts, 0));
      && (r.Failed? ==> Parse(ts) == Failed(r.msg, r.at))
      && (r.Parsed? && Valid(r.next) && Current(r.next).value == EOF ==> Parse(ts) == Parsed(Program([r.value]), r.next))
  {
    var p0 := Parser(ts, 0);
    var r := ParseIf(p0);
    IfStatement(p0);
    ProgramStatementStep(p0, []);
    assert Parse(ts) == ProgramLoop(p0, []);
    if r.Parsed? {
      assert [] + [r.value] == [r.value];
    }
  }

  /** The `if` of `if true { "a" }`, read up to its consequence block. */
  lemma IfTrueA(ts: seq<Token>)
    requires |ts| > 5
    requires ts[0].value == If && ts[1].value == True && ts[2].value == BlockStart
    requires ts[3].value == String("a") && ts[4].value == BlockEnd
    ensures ParseIf(Parser(ts, 0)) ==
      IfTail(PrimitiveExpr(BoolLit(true)), [ExprStmt(PrimitiveExpr(StrLit("a")))], SkipSeparators(Parser(ts, 4)))
  {
    TrueTerm(Parser(ts, 1));
    StringBlock(ts, 2, "a", false);
    IfHeadStep(Parser(ts, 0));
    assert Skip(Parser(ts, 1)) == Parser(ts, 2);
  }

  /** `if true { "a" }` alone is rejected: after the block the parser wants a `}` or `else`. */
  lemma IfWithoutElseAtTopLevel(ts: seq<Token>)
    requires |ts| == 6
    requires ts[0].value == If && ts[1].value == True && ts[2].value == BlockStart
    requires ts[3].value == String("a") && ts[4].value == BlockEnd && ts[5].value == EOF
    ensures Parse(ts) == Failed(ElseMessage(EOF), Parser(ts, 4))
  {
    IfTrueAAlone(ts);
    ProgramStartsWithIf(ts);
  }

  lemma IfTrueAAlone(ts: seq<Token>)
    requires |ts| == 6
    requires ts[0].value == If && ts[1].value == True && ts[2].value == BlockStart
    requires ts[3].value == String("a") && ts[4].value == BlockEnd && ts[5].value == EOF
    ensures ParseIf(Parser(ts, 0)) == Failed(ElseMessage(EOF), Parser(ts, 4))
  {
    var p4 := Parser(ts, 4);
    assert Peek(p4).value == EOF;
    NoSeparators(p4);
    IfTailRejects(PrimitiveExpr(BoolLit(true)), [ExprStmt(PrimitiveExpr(StrLit("a")))], p4);
    IfTrueA(ts);
  }

  /**
   * `if true { "a" } }` parses: the `if` takes the stray `}` as the end of an
   * enclosing block, and the program loop then steps past it.
   */
  lemma IfStrayBlockEndAtTopLevel(ts: seq<Token>)
    requires |ts| == 7
    requires ts[0].value == If && ts[1].value == True && ts[2].value == BlockStart
    requires ts[3].value == String("a") && ts[4].value == BlockEnd && ts[5].value == BlockEnd
    requires ts[6].value == EOF
    ensures Parse(ts) == Parsed(Program([
      IfStmt(PrimitiveExpr(BoolLit(true)), [ExprStmt(PrimitiveExpr(StrLit("a")))], None)]), Parser(ts, 6))
  {
    var p0, p5, p6 := Parser(ts, 0), Parser(ts, 5), Parser(ts, 6);
    var st := IfStmt(PrimitiveExpr(BoolLit(true)), [ExprStmt(PrimitiveExpr(StrLit("a")))], None);
    IfTrueAStray(ts);
    IfStatement(p0);
    assert ParseStatement(p0) == Parsed(st, p5);
    assert Next(p5) == Parsed(ts[6], p6);
    assert [] + [st] == [st];
    assert Current(p6).value == EOF;
    assert ProgramLoop(p6, [st]) == Parsed(Program([st]), p6);
    assert Current(p0).value == If && Current(p5).value == BlockEnd;
    assert ProgramLoop(p0, []) == ProgramLoop(p6, [] + [st]);
    assert Parse(ts) == ProgramLoop(p0, []);
  }

  lemma IfTrueAStray(ts: seq<Token>)
    requires |ts| == 7
    requires ts[0].value == If && ts[1].value == True && ts[2].value == BlockStart
    requires ts[3].value == String("a") && ts[4].value == BlockEnd && ts[5].value == BlockEnd
    ensures ParseIf(Parser(ts, 0)) ==
      Parsed(IfStmt(PrimitiveExpr(BoolLit(true)), [ExprStmt(PrimitiveExpr(StrLit("a")))], None), Parser(ts, 5))
  {
    var p4 := Parser(ts, 4);
    assert Peek(p4).value == BlockEnd && Skip(p4) == Parser(ts, 5);
    NoSeparators(p4);
    IfTrueA(ts);
  }

  /** `if true { "a" } else { "b" }` parses, and the parser stops one token past the last `}`. */
  lemma IfElseAtTopLevel(ts: seq<Token>)
    requires |ts| == 10
    requires ts[0].value == If && ts[1].value == True && ts[2].value == BlockStart
    requires ts[3].value == String("a") && ts[4].value == BlockEnd && ts[5].value == Else
    requires ts[6].value == BlockStart && ts[7].value == String("b") && ts[8].value == BlockEnd
    requires ts[9].value == EOF
    ensures Parse(ts) == Parsed(Program([
      IfStmt(PrimitiveExpr(BoolLit(true)), [ExprStmt(PrimitiveExpr(StrLit("a")))],
             Some([ExprStmt(PrimitiveExpr(StrLit("b")))]))]), Parser(ts, 9))
  {
    IfTrueAElseB(ts);
    assert Valid(Parser(ts, 9)) && Current(Parser(ts, 9)).value == EOF;
    ProgramStartsWithIf(ts);
  }

  lemma IfTrueAElseB(ts: seq<Token>)
    requires |ts| == 10
    requires ts[0].value == If && ts[1].value == True && ts[2].value == BlockStart
    requires ts[3].value == String("a") && ts[4].value == BlockEnd && ts[5].value == Else
    requires ts[6].value == BlockStart && ts[7].value == String("b") && ts[8].value == BlockEnd
    ensures ParseIf(Parser(ts, 0)) == Parsed(
      IfStmt(PrimitiveExpr(BoolLit(true)), [ExprStmt(PrimitiveExpr(StrLit("a")))],
             Some([ExprStmt(PrimitiveExpr(StrLit("b")))])), Parser(ts, 9))
  {
    var p4 := Parser(ts, 4);
    assert Peek(p4).value == Else;
    NoSeparators(p4);
    ElseBlockB(ts, PrimitiveExpr(BoolLit(true)), [ExprStmt(PrimitiveExpr(StrLit("a")))]);
    IfTrueA(ts);
  }

  /** The `else { "b" }` after the `}` at index 4. */
  lemma ElseBlockB(ts: seq<Token>, cond: Expression, cons: seq<Statement>)
    requires |ts| == 10
    requires ts[4].value == BlockEnd && ts[5].value == Else
    requires ts[6].value == BlockStart && ts[7].value == String("b") && ts[8].value == BlockEnd
    ensures IfTail(cond, cons, Parser(ts, 4)) ==
      Parsed(IfStmt(cond, cons, Some([ExprStmt(PrimitiveExpr(StrLit("b")))])), Parser(ts, 9))
  {
    var p4, p5, p6 := Parser(ts, 4), Parser(ts, 5), Parser(ts, 6);
    assert Peek(p4).value == Else && Skip(p4) == p5;
    assert Next(p5) == Parsed(ts[6], p6);
    StringBlock(ts, 6, "b", true);
  }

  // ---------------------------------------------------------------------------
  // Single steps of the expression routines

  /** A token that cannot start an expression is reported where it stands. */
  lemma NotAnExpression(p: Parser, calls: bool)
    requires Valid(p) && !StartsExpression(Current(p).value)
    ensures ParseTerm(p, calls) == Failed(Unexpected(Current(p).value), p)
  {
  }

  /** Outside a call's head, an identifier is a variable reference and the cursor stays on it. */
  lemma NameTerm(p: Parser, name: string)
    requires Valid(p) && Current(p).value == Ident(name)
    ensures ParseNonCall(p) == Parsed(IdentifierExpr(Identifier(name)), p)
  {
  }

  /** One operand of an operator, read with `parse_non_call`. */
  lemma OperatorArgsTakes(p: Parser, acc: seq<Expression>, e: Expression, q: Parser)
    requires Valid(p) && !EndsOperands(Peek(p).value)
    requires ParseNonCall(Skip(p)) == Parsed(e, q)
    ensures OperatorArgs(p, acc) == OperatorArgs(q, acc + [e])
  {
  }

  /** An operand that fails to parse ends the operands where it failed, without an error. */
  lemma OperatorArgsStops(p: Parser, acc: seq<Expression>)
    requires Valid(p) && !EndsOperands(Peek(p).value)
    requires ParseNonCall(Skip(p)).Failed?
    ensures OperatorArgs(p, acc) == Parsed(acc, ParseNonCall(Skip(p)).at)
  {
  }

  /** At an operator token, an expression is that operator applied to the operands it collects. */
  lemma OperatorTerm(p: Parser, k: OperatorKind, args: seq<Expression>, q: Parser)
    requires Valid(p) && KindOf(Current(p).value) == Some(k)
    requires OperatorArgs(p, []) == Parsed(args, q)
    ensures ParseExpression(p) == Parsed(OperatorExpr(k, args), q)
  {
    assert ParseOperator(p) == Parsed(OperatorExpr(k, args), q);
  }

  /** An expression that is not an assignment or an `if` is an expression statement. */
  lemma ExpressionStatement(p: Parser, e: Expression, q: Parser)
    requires Valid(p) && Current(p).value != Assign && Current(p).value != If
    requires ParseExpression(p) == Parsed(e, q)
    ensures ParseStatement(p) == Parsed(ExprStmt(e), q)
  {
  }

  /** At `{`, an expression is a function literal. */
  lemma FunctionTerm(p: Parser)
    requires Valid(p) && Current(p).value == BlockStart
    ensures ParseExpression(p) == ParseFunction(p)
  {
  }

  /** `{ [name ...`: the parameters are read, then the body. */
  lemma FunctionWithParams(p: Parser, name: string, ps: seq<Identifier>, q: Parser)
    requires p.pos + 2 < |p.tokens|
    requires p.tokens[p.pos + 1].value == LeftBracket && p.tokens[p.pos + 2].value == Ident(name)
    requires Params(p.(pos := p.pos + 2), [Identifier(name)]) == Parsed(ps, q)
    ensures ParseFunction(p) == FunctionBody(q, ps, [])
  {
    var p1, p2 := p.(pos := p.pos + 1), p.(pos := p.pos + 2);
    var n1, n2 := Next(p), Next(p1);
    assert n1.Parsed? && n1.next == p1 && n1.value.value == LeftBracket;
    assert n2.Parsed? && n2.next == p2 && n2.value.value == Ident(name);
    assert ParseIdentifier(p2) == Parsed(Identifier(name), p2);
    assert !n1.IsFailure() && !n2.IsFailure() && !ParseIdentifier(p2).IsFailure();
    assert !Params(p2, [Identifier(name)]).IsFailure();
  }

  /** The body's last statement, directly followed by the function's `}`. */
  lemma FunctionBodyLast(p: Parser, params: seq<Identifier>, acc: seq<Statement>)
    requires Valid(p) && Current(p).value != EOF && !IsSeparator(Current(p).value) && Current(p).value != BlockEnd
    ensures var s := ParseStatement(p);
      s.Parsed? && s.next.pos + 1 < |s.next.tokens| && Current(s.next).value == BlockEnd ==>
        FunctionBody(p, params, acc) ==
          Parsed(FunctionExpr(Function(params, acc + [s.value])), s.next.(pos := s.next.pos + 1))
  {
    var s := ParseStatement(p);
    if s.Parsed? && s.next.pos + 1 < |s.next.tokens| {
      var n := Next(s.next);
      assert n.Parsed? && n.next == s.next.(pos := s.next.pos + 1);
    }
  }


  // ---------------------------------------------------------------------------
  // `{ [a b] + a b }`

  /** The tokens of `{ [a b] + a b }`, then the end of input. */
  predicate FunctionLiteralTokens(ts: seq<Token>) {
    && |ts| == 10
    && ts[0].value == BlockStart && ts[1].value == LeftBracket && ts[2].value == Ident("a")
    && ts[3].value == Ident("b") && ts[4].value == RightBracket && ts[5].value == Plus
    && ts[6].value == Ident("a") && ts[7].value == Ident("b") && ts[8].value == BlockEnd
    && ts[9].value == EOF
  }

  lemma FunctionLiteralParams(ts: seq<Token>)
    requires FunctionLiteralTokens(ts)
    ensures Params(Parser(ts, 2), [Identifier("a")]) == Parsed([Identifier("a"), Identifier("b")], Parser(ts, 5))
  {
    var a, b := Identifier("a"), Identifier("b");
    assert Params(Parser(ts, 3), [a, b]) == Parsed([a, b], Parser(ts, 5));
    assert [a] + [b] == [a, b];
  }

  /** The operand `b`, then the `}`, which ends the operands. */
  lemma FunctionLiteralLastOperand(ts: seq<Token>)
    requires FunctionLiteralTokens(ts)
    ensures var ea, eb := IdentifierExpr(Identifier("a")), IdentifierExpr(Identifier("b"));
      OperatorArgs(Parser(ts, 6), [ea]) == Parsed([ea, eb], Parser(ts, 8))
  {
    var p6, p7, p8 := Parser(ts, 6), Parser(ts, 7), Parser(ts, 8);
    var ea, eb := IdentifierExpr(Identifier("a")), IdentifierExpr(Identifier("b"));
    NotAnExpression(p8, false);
    OperatorArgsStops(p7, [ea, eb]);
    NameTerm(p7, "b");
    assert [ea] + [eb] == [ea, eb];
    OperatorArgsTakes(p6, [ea], eb, p7);
  }

  lemma FunctionLiteralOperands(ts: seq<Token>)
    requires FunctionLiteralTokens(ts)
    ensures var ea, eb := IdentifierExpr(Identifier("a")), IdentifierExpr(Identifier("b"));
      OperatorArgs(Parser(ts, 5), []) == Parsed([ea, eb], Parser(ts, 8))
  {
    var ea := IdentifierExpr(Identifier("a"));
    FunctionLiteralLastOperand(ts);
    NameTerm(Parser(ts, 6), "a");
    assert [] + [ea] == [ea];
    OperatorArgsTakes(Parser(ts, 5), [], ea, Parser(ts, 6));
  }

  /** The body of `{ [a b] + a b }`: one operator statement, ending on the `}`. */
  lemma FunctionLiteralStatement(ts: seq<Token>)
    requires FunctionLiteralTokens(ts)
    ensures var ea, eb := IdentifierExpr(Identifier("a")), IdentifierExpr(Identifier("b"));
      ParseStatement(Parser(ts, 5)) == Parsed(ExprStmt(OperatorExpr(Add, [ea, eb])), Parser(ts, 8))
  {
    var p5, p8 := Parser(ts, 5), Parser(ts, 8);
    var ea, eb := IdentifierExpr(Identifier("a")), IdentifierExpr(Identifier("b"));
    FunctionLiteralOperands(ts);
    OperatorTerm(p5, Add, [ea, eb], p8);
    ExpressionStatement(p5, OperatorExpr(Add, [ea, eb]), p8);
  }

  /** The statement loop of `{ [a b] + a b }`: the one statement, then the closing `}`. */
  lemma FunctionLiteralBody(ts: seq<Token>)
    requires FunctionLiteralTokens(ts)
    ensures var a, b := Identifier("a"), Identifier("b");
      var add := ExprStmt(OperatorExpr(Add, [IdentifierExpr(a), IdentifierExpr(b)]));
      FunctionBody(Parser(ts, 5), [a, b], []) == Parsed(FunctionExpr(Function([a, b], [add])), Parser(ts, 9))
  {
    var a, b := Identifier("a"), Identifier("b");
    var add := ExprStmt(OperatorExpr(Add, [IdentifierExpr(a), IdentifierExpr(b)]));
    FunctionLiteralStatement(ts);
    assert [] + [add] == [add];
    FunctionBodyLast(Parser(ts, 5), [a, b], []);
  }

  /**
   * `{ [a b] + a b }`: the operator collects `a` and `b`, then meets the `}`,
   * which cannot start an operand; that failure ends the operands and the
   * `}` closes the function.
   */
  lemma FunctionLiteralExample(ts: seq<Token>)
    requires FunctionLiteralTokens(ts)
    ensures ParseExpression(Parser(ts, 0)) == Parsed(FunctionExpr(Function(
      [Identifier("a"), Identifier("b")],
      [ExprStmt(OperatorExpr(Add, [IdentifierExpr(Identifier("a")), IdentifierExpr(Identifier("b"))]))])),
      Parser(ts, 9))
  {
    var a, b := Identifier("a"), Identifier("b");
    FunctionLiteralParams(ts);
    FunctionLiteralBody(ts);
    FunctionWithParams(Parser(ts, 0), "a", [a, b], Parser(ts, 5));
    FunctionTerm(Parser(ts, 0));
  }

  /** `= name value`: the statement is complete only if the value ends it. */
  lemma AssignStep(p: Parser, name: string, e: Expression, q: Parser)
    requires p.pos + 2 < |p.tokens| && p.tokens[p.pos + 1].value == Ident(name)
    requires ParseExpression(p.(pos := p.pos + 2)) == Parsed(e, q)
    ensures var t := Peek(q).value;
      ParseAssign(p) ==
        if EndsStatement(t) then Parsed(AssignStmt(Identifier(name), e), q) else Failed(Unexpected(t), q)
  {
    var p1, p2 := p.(pos := p.pos + 1), p.(pos := p.pos + 2);
    var n1, n2 := Next(p), Next(p1);
    assert n1.Parsed? && n1.next == p1;
    assert ParseIdentifier(p1) == Parsed(Identifier(name), p1);
    assert n2.Parsed? && n2.next == p2;
    assert !n1.IsFailure() && !n2.IsFailure() && !ParseIdentifier(p1).IsFailure();
  }

  lemma AssignStatement(p: Parser)
    requires Valid(p) && Current(p).value == Assign
    ensures ParseStatement(p) == ParseAssign(p)
  {
  }

  /**
   * `{ = x "a" }` inside an `if` is rejected: an assignment must be followed
   * by the end of the statement, and a `}` is not one.
   */
  lemma AssignBeforeBlockEnd(ts: seq<Token>, i: nat)
    requires i + 3 < |ts|
    requires ts[i].value == Assign && ts[i + 1].value == Ident("x")
    requires ts[i + 2].value == String("a") && ts[i + 3].value == BlockEnd
    ensures ParseStatement(Parser(ts, i)) == Failed(Unexpected(BlockEnd), Parser(ts, i + 2))
  {
    var p, q := Parser(ts, i), Parser(ts, i + 2);
    StringTerm(q, "a");
    assert Peek(q).value == BlockEnd;
    AssignStep(p, "x", PrimitiveExpr(StrLit("a")), q);
    AssignStatement(p);
  }

}
