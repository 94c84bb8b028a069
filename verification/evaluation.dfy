/**
 * The tree-walking evaluator (src/eval/value.rs `eval_assign`, `eval_expr`,
 * `eval_call`; src/eval/ops.rs `eval_operator`; src/eval/mod.rs
 * `Evaluator::eval`).
 *
 * Evaluating an expression never changes the scope it runs in: only an
 * assignment statement writes, and a call writes into its own child scope,
 * which is dropped when the call returns. Expressions therefore take the
 * scope by value, and statements return the scope they leave behind.
 *
 * The program's only unbounded recursion is a function calling itself
 * through the scope; its depth is bounded here by `fuel`, spent once per
 * call body, and running out is reported as the panic `OutOfFuel` (the
 * program's stack overflowing).
 */
module Evaluation {
  import opened Common
  import opened Numbers
  import opened Syntax
  import opened Values
  import opened Scopes
  import opened Ops

  /** The value a statement produced and the scope it leaves behind. */
  datatype Evaluated = Evaluated(value: Value, scope: Scope)

  // ---------------------------------------------------------------------------
  // Sizes: expression nesting within one call body is finite

  function ExprSize(e: Expression): (n: nat)
    ensures n >= 1
    decreases e
  {
    match e
    case OperatorExpr(_, args) => 1 + ExprsSize(args)
    case CallExpr(_, args) => 1 + ExprsSize(args)
    case _ => 1
  }

  function ExprsSize(es: seq<Expression>): (n: nat)
    decreases es
  {
    if |es| == 0 then 0 else ExprSize(es[0]) + ExprsSize(es[1..])
  }

  function StmtSize(st: Statement): (n: nat)
    ensures n >= 1
  {
    match st
    case AssignStmt(_, e) => 1 + ExprSize(e)
    case ExprStmt(e) => 1 + ExprSize(e)
    case IfStmt(_, _, _) => 1
  }

  function StmtsSize(ss: seq<Statement>): (n: nat)
    decreases |ss|
  {
    if |ss| == 0 then 0 else StmtSize(ss[0]) + StmtsSize(ss[1..])
  }

  // ---------------------------------------------------------------------------
  // Error messages

  function UndefinedVariable(name: Identifier): string {
    "undefined variable " + name.value
  }

  function UndefinedFunction(name: Identifier): string {
    "undefined function variable " + name.value
  }

  function NotCallable(p: Primitive): string {
    "cannot call type " + PrimitiveTypeName(p) + " as a function"
  }

  function ArityMismatch(params: nat, name: Identifier): string {
    "expected " + NatToString(params) + " arguments to function " + name.value
  }

  const INVERSE_ARITY_MSG := "expected exactly one argument for inverse operator"

  function OperatorArity(k: OperatorKind): string {
    "expected at least 2 arguments for " + KindName(k) + " operator"
  }

  function NotInvertible(v: Value): string {
    "cannot inverse type " + TypeName(v)
  }

  function NotComparable(v: Value): string {
    "cannot compare type " + TypeName(v)
  }

  /**
   * The panics evaluation can raise. Indexing past the token vector is the
   * parser's, and the `unreachable!()` arm of `eval_operator` is never
   * reached, nor does any operand index (`op.args[0]`, `values[0]`) fail.
   */
  predicate EvalPanic(p: Panic) {
    p != IndexOutOfBounds && p != Unreachable
  }

  // ---------------------------------------------------------------------------
  // Expressions

  /** `Value::eval_expr`. */
  function EvalExpr(e: Expression, s: Scope, fuel: nat): (r: Outcome<Value>)
    ensures r.Abort? ==> EvalPanic(r.panic)
    decreases fuel, ExprSize(e), 0
  {
    match e
    case PrimitiveExpr(p) => Ok(Prim(p))
    case IdentifierExpr(i) =>
      (match Get(s, i)
       case Some(v) => Ok(v)
       case None => Err(UndefinedVariable(i)))
    case OperatorExpr(k, args) => EvalOperator(k, args, s, fuel)
    case FunctionExpr(f) => Ok(Func(f))
    case CallExpr(name, args) => EvalCall(name, args, s, fuel)
    case AndExpr(_) => Abort(NoEvaluationRule)
    case OrExpr(_) => Abort(NoEvaluationRule)
  }

  /**
   * The operand loop of `eval_operator`: each operand is evaluated in turn,
   * and the first that is a function stops the loop.
   */
  function EvalOperands(args: seq<Expression>, s: Scope, fuel: nat): (r: Outcome<seq<Primitive>>)
    ensures r.Abort? ==> EvalPanic(r.panic)
    ensures r.Ok? ==> |r.value| == |args|
    decreases fuel, ExprsSize(args), 1
  {
    if |args| == 0 then Ok([])
    else
      var v :- EvalExpr(args[0], s, fuel);
      match v
      case Func(_) => Err(NotComparable(v))
      case Prim(p) =>
        var rest :- EvalOperands(args[1..], s, fuel);
        Ok([p] + rest)
  }

  /** `eval_operator` (src/eval/ops.rs). */
  function EvalOperator(k: OperatorKind, args: seq<Expression>, s: Scope, fuel: nat): (r: Outcome<Value>)
    ensures r.Abort? ==> EvalPanic(r.panic)
    decreases fuel, ExprsSize(args), 2
  {
    if k == Inverse then
      if |args| != 1 then Err(INVERSE_ARITY_MSG)
      else
        var v :- EvalExpr(args[0], s, fuel);
        match v
        case Prim(BoolLit(b)) => Ok(Prim(BoolLit(!b)))
        case _ => Err(NotInvertible(v))
    else if |args| < 2 then Err(OperatorArity(k))
    else
      var values :- EvalOperands(args, s, fuel);
      if k == Equals then Abort(Unimplemented)
      else EvalArithmetic(k, values)
  }

  /**
   * The argument loop of `eval_call`: each argument is evaluated in the
   * call's own scope, which already binds the parameters before it, and is
   * then bound to its parameter.
   */
  function BindArgs(params: seq<Identifier>, args: seq<Expression>, child: Scope, fuel: nat): (r: Outcome<Scope>)
    requires |params| == |args|
    ensures r.Abort? ==> EvalPanic(r.panic)
    ensures r.Ok? ==> r.value.outer == child.outer
    ensures r.Ok? ==> r.value.store.Keys == child.store.Keys + set i | 0 <= i < |params| :: params[i].value
    decreases fuel, ExprsSize(args), 1
  {
    if |args| == 0 then Ok(child)
    else
      var v :- EvalExpr(args[0], child, fuel);
      var r := BindArgs(params[1..], args[1..], Set(child, params[0], v), fuel);
      assert r.Ok? ==> r.value.store.Keys == child.store.Keys + set i | 0 <= i < |params| :: params[i].value by {
        assert forall i :: 1 <= i < |params| ==> params[i] == params[1..][i - 1];
        if r.Ok? {
          var tail := set i | 0 <= i < |params[1..]| :: params[1..][i].value;
          var all := set i | 0 <= i < |params| :: params[i].value;
          assert all == {params[0].value} + tail by {
            forall x | x in all ensures x in {params[0].value} + tail {
              var i :| 0 <= i < |params| && params[i].value == x;
              if i > 0 { assert params[1..][i - 1].value == x; }
            }
          }
        }
      }
      r
  }

  /** `Value::eval_call`. The caller's scope is copied into the call's; nothing is written back. */
  function EvalCall(name: Identifier, args: seq<Expression>, s: Scope, fuel: nat): (r: Outcome<Value>)
    ensures r.Abort? ==> EvalPanic(r.panic)
    decreases fuel, ExprsSize(args), 2
  {
    match Get(s, name)
    case None => Err(UndefinedFunction(name))
    case Some(Prim(p)) => Err(NotCallable(p))
    case Some(Func(f)) =>
      if |args| != |f.params| then Err(ArityMismatch(|f.params|, name))
      else
        var child :- BindArgs(f.params, args, ChildOf(s), fuel);
        if fuel == 0 then Abort(OutOfFuel)
        else
          var ev :- EvalBlock(f.body, child, NULL, fuel - 1);
          Ok(ev.value)
  }

  // ---------------------------------------------------------------------------
  // Statements

  /** `Value::eval_assign`: the value is bound in the current scope and is also the statement's value. */
  function EvalAssign(name: Identifier, e: Expression, s: Scope, fuel: nat): (r: Outcome<Evaluated>)
    ensures r.Abort? ==> EvalPanic(r.panic)
    ensures r.Ok? ==> r.value.scope.outer == s.outer
    decreases fuel, ExprSize(e), 1
  {
    var v :- EvalExpr(e, s, fuel);
    Ok(Evaluated(v, Set(s, name, v)))
  }

  /** One arm of the statement loops of `Evaluator::eval` and `eval_call`. */
  function EvalStatement(st: Statement, s: Scope, fuel: nat): (r: Outcome<Evaluated>)
    ensures r.Abort? ==> EvalPanic(r.panic)
    ensures r.Ok? ==> r.value.scope.outer == s.outer
    decreases fuel, StmtSize(st), 2
  {
    match st
    case AssignStmt(name, e) => EvalAssign(name, e, s, fuel)
    case ExprStmt(e) =>
      var v :- EvalExpr(e, s, fuel);
      Ok(Evaluated(v, s))
    case IfStmt(_, _, _) => Abort(NoEvaluationRule)
  }

  /**
   * The statement loops: statements run in order, each in the scope the
   * previous one left, and the block's value is the last statement's
   * (`last` before any statement has run). The first failure ends the block.
   */
  function EvalBlock(stmts: seq<Statement>, s: Scope, last: Value, fuel: nat): (r: Outcome<Evaluated>)
    ensures r.Abort? ==> EvalPanic(r.panic)
    ensures r.Ok? ==> r.value.scope.outer == s.outer
    decreases fuel, StmtsSize(stmts), 3
  {
    if |stmts| == 0 then Ok(Evaluated(last, s))
    else
      var ev :- EvalStatement(stmts[0], s, fuel);
      EvalBlock(stmts[1..], ev.scope, ev.value, fuel)
  }

  /** `Evaluator::eval`: the program's statements in a fresh scope; an empty program is `null`. */
  function EvalProgram(p: Program, fuel: nat): (r: Outcome<Value>)
    ensures r.Abort? ==> EvalPanic(r.panic)
  {
    var ev :- EvalBlock(p.statements, NewScope(), NULL, fuel);
    Ok(ev.value)
  }
}
