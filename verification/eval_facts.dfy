/**
 * What evaluation computes: literals and lookups, the order operands and
 * arguments are evaluated in, how statements thread the scope, the error
 * each misuse reports, and what a call binds.
 */
module EvalFacts {
  import opened Common
  import opened Numbers
  import opened Syntax
  import opened Values
  import opened Scopes
  import opened Ops
  import opened Evaluation

  /** The failure of `r`, re-typed: what a caller that propagates it with `?` returns. */
  function Propagated<T, U>(r: Outcome<T>): Outcome<U>
    requires !r.Ok?
  {
    if r.Err? then Err(r.msg) else Abort(r.panic)
  }

  // ---------------------------------------------------------------------------
  // Expressions

  /** A literal or a function literal evaluates to itself. */
  lemma LiteralsEvaluate(p: Primitive, f: Function, s: Scope, fuel: nat)
    ensures EvalExpr(PrimitiveExpr(p), s, fuel) == Ok(Prim(p))
    ensures EvalExpr(FunctionExpr(f), s, fuel) == Ok(Func(f))
  {
  }

  /** A name evaluates to its visible binding, and to "undefined variable" when it has none. */
  lemma IdentifierValue(i: Identifier, s: Scope, fuel: nat)
    ensures EvalExpr(IdentifierExpr(i), s, fuel) ==
      if i.value in Visible(s) then Ok(Visible(s)[i.value]) else Err(UndefinedVariable(i))
  {
    GetIsVisible(s, i);
  }

  /** `and`, `or` and `if` have no evaluation rule. */
  lemma NoEvaluationRules(args: seq<Expression>, c: Expression, cons: seq<Statement>, alt: Option<seq<Statement>>, s: Scope, fuel: nat)
    ensures EvalExpr(AndExpr(args), s, fuel) == Abort(NoEvaluationRule)
    ensures EvalExpr(OrExpr(args), s, fuel) == Abort(NoEvaluationRule)
    ensures EvalStatement(IfStmt(c, cons, alt), s, fuel) == Abort(NoEvaluationRule)
  {
  }

  // ---------------------------------------------------------------------------
  // Operators

  /**
   * Operands are evaluated left to right in the same scope: the loop succeeds
   * exactly when every operand evaluates to a primitive, and then yields
   * those primitives in order.
   */
  lemma {:induction false} OperandsInOrder(args: seq<Expression>, s: Scope, fuel: nat)
    ensures var r := EvalOperands(args, s, fuel);
      r.Ok? ==> forall i :: 0 <= i < |args| ==> EvalExpr(args[i], s, fuel) == Ok(Prim(r.value[i]))
    ensures (forall i :: 0 <= i < |args| ==> EvalExpr(args[i], s, fuel).Ok? && EvalExpr(args[i], s, fuel).value.Prim?)
      ==> EvalOperands(args, s, fuel).Ok?
    decreases |args|
  {
    if |args| > 0 {
      assert forall i :: 1 <= i < |args| ==> args[i] == args[1..][i - 1];
      OperandsInOrder(args[1..], s, fuel);
    }
  }

  /**
   * The first operand that does not evaluate to a primitive decides the
   * failure: its own failure, or "cannot compare type function".
   */
  lemma {:induction false} FirstBadOperand(args: seq<Expression>, s: Scope, fuel: nat, j: nat)
    requires j < |args|
    requires forall i :: 0 <= i < j ==> EvalExpr(args[i], s, fuel).Ok? && EvalExpr(args[i], s, fuel).value.Prim?
    ensures var v := EvalExpr(args[j], s, fuel);
      && (!v.Ok? ==> EvalOperands(args, s, fuel) == Propagated(v))
      && (v.Ok? && v.value.Func? ==> EvalOperands(args, s, fuel) == Err(NotComparable(v.value)))
    decreases j
  {
    if j > 0 {
      assert forall i :: 0 <= i < j - 1 ==> args[1..][i] == args[i + 1];
      FirstBadOperand(args[1..], s, fuel, j - 1);
    }
  }

  /** With every operand a primitive, the four arithmetic operators apply their arithmetic; `==` is unimplemented. */
  lemma OperatorDispatch(k: OperatorKind, args: seq<Expression>, s: Scope, fuel: nat)
    requires k != Inverse && |args| >= 2
    requires EvalOperands(args, s, fuel).Ok?
    ensures var vs := EvalOperands(args, s, fuel).value;
      EvalExpr(OperatorExpr(k, args), s, fuel) ==
        if k == Equals then Abort(Unimplemented) else EvalArithmetic(k, vs)
  {
  }

  /** The arity checks come before any operand is evaluated. */
  lemma OperatorArityErrors(k: OperatorKind, args: seq<Expression>, s: Scope, fuel: nat)
    ensures k == Inverse && |args| != 1 ==> EvalExpr(OperatorExpr(k, args), s, fuel) == Err(INVERSE_ARITY_MSG)
    ensures k != Inverse && |args| < 2 ==> EvalExpr(OperatorExpr(k, args), s, fuel) == Err(OperatorArity(k))
  {
  }

  /** `+ x y` on two integer literals is their sum, or the overflow panic. */
  lemma AddIntegers(x: i64, y: i64, s: Scope, fuel: nat)
    ensures var r := EvalExpr(OperatorExpr(Add, [PrimitiveExpr(IntLit(x)), PrimitiveExpr(IntLit(y))]), s, fuel);
      && (InI64(x as int + y as int) ==> r.Ok? && r.value == Prim(IntLit((x as int + y as int) as i64)))
      && (!InI64(x as int + y as int) ==> r == Abort(Overflow))
  {
    var args := [PrimitiveExpr(IntLit(x)), PrimitiveExpr(IntLit(y))];
    var vs := [IntLit(x), IntLit(y)];
    assert EvalOperands(args, s, fuel) == Ok(vs) by {
      assert args[1..] == [PrimitiveExpr(IntLit(y))] && args[1..][1..] == [];
      assert EvalExpr(args[0], s, fuel) == Ok(Prim(IntLit(x)));
      assert EvalExpr(args[1..][0], s, fuel) == Ok(Prim(IntLit(y)));
      assert EvalOperands(args[1..][1..], s, fuel) == Ok([]);
      assert [IntLit(y)] + [] == [IntLit(y)];
      assert EvalOperands(args[1..], s, fuel) == Ok([IntLit(y)]);
      assert [IntLit(x)] + [IntLit(y)] == vs;
    }
    assert vs[1..] == [IntLit(y)];
    assert Mismatch(IntLit(x), vs[1..]) == None;
    assert Ints(vs) == [x as int, y as int];
    var xs := [x as int, y as int];
    assert xs[1..] == [y as int] && xs[1..][1..] == [];
    assert CheckedSum(0, xs) == CheckedSum(x as int, [y as int]);
    assert [y as int][1..] == [];
    if InI64(x as int + y as int) {
      assert CheckedSum(x as int, [y as int]) == CheckedSum(x as int + y as int, []);
    }
    assert EvalExpr(OperatorExpr(Add, args), s, fuel) == EvalAdd(vs);
  }

  /** `!` accepts exactly the booleans and negates them; anything else is named in the error. */
  lemma InverseValue(e: Expression, s: Scope, fuel: nat)
    ensures var v, r := EvalExpr(e, s, fuel), EvalExpr(OperatorExpr(Inverse, [e]), s, fuel);
      && (!v.Ok? ==> r == v)
      && (v.Ok? && v.value.Prim? && v.value.prim.BoolLit? ==> r == Ok(Prim(BoolLit(!v.value.prim.b))))
      && (v.Ok? && !(v.value.Prim? && v.value.prim.BoolLit?) ==> r == Err(NotInvertible(v.value)))
  {
    var v := EvalExpr(e, s, fuel);
    if v.Ok? && !(v.value.Prim? && v.value.prim.BoolLit?) {
      assert EvalOperator(Inverse, [e], s, fuel) == Err(NotInvertible(v.value));
    }
  }

  /** `! ! e` is `e` for every `e` that evaluates to a boolean. */
  lemma InverseInvolution(e: Expression, s: Scope, fuel: nat)
    requires EvalExpr(e, s, fuel).Ok? && EvalExpr(e, s, fuel).value.Prim?
    requires EvalExpr(e, s, fuel).value.prim.BoolLit?
    ensures EvalExpr(OperatorExpr(Inverse, [OperatorExpr(Inverse, [e])]), s, fuel) == EvalExpr(e, s, fuel)
  {
    InverseValue(e, s, fuel);
    InverseValue(OperatorExpr(Inverse, [e]), s, fuel);
  }

  // ---------------------------------------------------------------------------
  // Statements and blocks

  /**
   * An assignment succeeds exactly when its expression does; it then binds
   * the value in the current scope, leaves every other name as it was, and
   * is itself worth the value.
   */
  lemma AssignSemantics(name: Identifier, e: Expression, s: Scope, fuel: nat)
    ensures var v, r := EvalExpr(e, s, fuel), EvalStatement(AssignStmt(name, e), s, fuel);
      && (r.Ok? <==> v.Ok?)
      && (!v.Ok? ==> r == Propagated(v))
      && (r.Ok? ==> r.value.value == v.value && Get(r.value.scope, name) == Some(v.value))
      && (r.Ok? ==> forall other: Identifier :: other.value != name.value ==>
            Get(r.value.scope, other) == Get(s, other))
  {
    var v := EvalExpr(e, s, fuel);
    if v.Ok? {
      forall other: Identifier | other.value != name.value
        ensures Get(Set(s, name, v.value), other) == Get(s, other)
      {
        GetAfterSet(s, name, other, v.value);
      }
      GetAfterSet(s, name, name, v.value);
    }
  }

  /** An expression statement is worth its expression's value and leaves the scope as it was. */
  lemma ExpressionStatement(e: Expression, s: Scope, fuel: nat)
    ensures var v, r := EvalExpr(e, s, fuel), EvalStatement(ExprStmt(e), s, fuel);
      && (v.Ok? ==> r == Ok(Evaluated(v.value, s)))
      && (!v.Ok? ==> r == Propagated(v))
  {
  }

  /** Running `a + b` runs `a`, then `b` from where `a` left off; a failure in `a` skips `b`. */
  lemma {:induction false} BlockAppend(a: seq<Statement>, b: seq<Statement>, s: Scope, last: Value, fuel: nat)
    ensures var ra := EvalBlock(a, s, last, fuel);
      EvalBlock(a + b, s, last, fuel) ==
        if ra.Ok? then EvalBlock(b, ra.value.scope, ra.value.value, fuel) else Propagated(ra)
    decreases |a|
  {
    if |a| == 0 {
      assert a + b == b;
    } else {
      assert (a + b)[0] == a[0] && (a + b)[1..] == a[1..] + b;
      var st := EvalStatement(a[0], s, fuel);
      if st.Ok? {
        BlockAppend(a[1..], b, st.value.scope, st.value.value, fuel);
      }
    }
  }

  /** A block is worth its last statement's value, run in the scope the earlier statements leave. */
  lemma BlockLast(a: seq<Statement>, st: Statement, s: Scope, last: Value, fuel: nat)
    ensures var ra, r := EvalBlock(a, s, last, fuel), EvalBlock(a + [st], s, last, fuel);
      && (ra.Ok? ==> r == EvalStatement(st, ra.value.scope, fuel))
      && (!ra.Ok? ==> r == Propagated(ra))
  {
    BlockAppend(a, [st], s, last, fuel);
    var ra := EvalBlock(a, s, last, fuel);
    if ra.Ok? {
      var rs := EvalStatement(st, ra.value.scope, fuel);
      assert [st][1..] == [];
      if rs.Ok? {
        assert EvalBlock([st], ra.value.scope, ra.value.value, fuel) == rs;
      }
    }
  }

  /** An empty program is worth `null`. */
  lemma EmptyProgram(fuel: nat)
    ensures EvalProgram(Program([]), fuel) == Ok(NULL)
  {
  }

  // ---------------------------------------------------------------------------
  // Calls

  /** The three ways a call is refused before any argument is evaluated. */
  lemma CallErrors(name: Identifier, args: seq<Expression>, s: Scope, fuel: nat)
    ensures Get(s, name).None? ==> EvalExpr(CallExpr(name, args), s, fuel) == Err(UndefinedFunction(name))
    ensures Get(s, name).Some? && Get(s, name).value.Prim? ==>
      EvalExpr(CallExpr(name, args), s, fuel) == Err(NotCallable(Get(s, name).value.prim))
    ensures Get(s, name).Some? && Get(s, name).value.Func? && |args| != |Get(s, name).value.fn.params| ==>
      EvalExpr(CallExpr(name, args), s, fuel) == Err(ArityMismatch(|Get(s, name).value.fn.params|, name))
  {
  }

  /**
   * Arguments bind left to right: binding one more argument evaluates it in
   * the scope that already binds every earlier parameter, then binds it.
   */
  lemma {:induction false} BindArgsSnoc(params: seq<Identifier>, args: seq<Expression>, p: Identifier, a: Expression, child: Scope, fuel: nat)
    requires |params| == |args|
    ensures var r := BindArgs(params, args, child, fuel);
      BindArgs(params + [p], args + [a], child, fuel) ==
        if !r.Ok? then Propagated(r)
        else
          var v := EvalExpr(a, r.value, fuel);
          if v.Ok? then Ok(Set(r.value, p, v.value)) else Propagated(v)
    decreases |args|
  {
    if |args| == 0 {
      assert params + [p] == [p] && args + [a] == [a];
      assert [p][1..] == [] && [a][1..] == [];
    } else {
      assert (params + [p])[0] == params[0] && (params + [p])[1..] == params[1..] + [p];
      assert (args + [a])[0] == args[0] && (args + [a])[1..] == args[1..] + [a];
      var v := EvalExpr(args[0], child, fuel);
      if v.Ok? {
        BindArgsSnoc(params[1..], args[1..], p, a, Set(child, params[0], v.value), fuel);
      }
    }
  }

  /** A call expression is evaluated by `eval_call`. */
  lemma CallExpression(name: Identifier, args: seq<Expression>, s: Scope, fuel: nat)
    ensures EvalExpr(CallExpr(name, args), s, fuel) == EvalCall(name, args, s, fuel)
  {
    var e := CallExpr(name, args);
    assert e.CallExpr? && e.name == name && e.args == args;
  }

  /** What a call returns once its body has run: the body's value, or its failure. */
  function Returned(b: Outcome<Evaluated>): (r: Outcome<Value>)
    ensures r == Abort(OutOfFuel) <==> b == Abort(OutOfFuel)
  {
    if b.Ok? then Ok(b.value.value) else Propagated(b)
  }

  /** A call to a function of the right arity: bind the arguments, then spend one fuel on the body. */
  lemma CallStep(name: Identifier, fn: Function, args: seq<Expression>, s: Scope, fuel: nat)
    requires Get(s, name) == Some(Func(fn)) && |args| == |fn.params|
    ensures var c := BindArgs(fn.params, args, ChildOf(s), fuel);
      EvalCall(name, args, s, fuel) ==
        if !c.Ok? then Propagated(c)
        else if fuel == 0 then Abort(OutOfFuel)
        else
          Returned(EvalBlock(fn.body, c.value, NULL, fuel - 1))
  {
  }

  /** A call's value is its body's, run in a scope that encloses the caller's and binds the arguments. */
  lemma CallValue(name: Identifier, args: seq<Expression>, s: Scope, fuel: nat)
    requires Get(s, name).Some? && Get(s, name).value.Func?
    requires |args| == |Get(s, name).value.fn.params|
    requires fuel > 0
    ensures var f := Get(s, name).value.fn;
      var b := BindArgs(f.params, args, ChildOf(s), fuel);
      var r := EvalExpr(CallExpr(name, args), s, fuel);
      && (!b.Ok? ==> r == Propagated(b))
      && (b.Ok? ==> b.value.outer == Some(s))
      && (b.Ok? && EvalBlock(f.body, b.value, NULL, fuel - 1).Ok? ==>
            r == Ok(EvalBlock(f.body, b.value, NULL, fuel - 1).value.value))
  {
    CallExpression(name, args, s, fuel);
  }

  /** A call to a function with an empty body is worth `null` once its arguments are bound. */
  lemma EmptyBodyIsNull(name: Identifier, params: seq<Identifier>, args: seq<Expression>, s: Scope, fuel: nat)
    requires Get(s, name) == Some(Func(Function(params, [])))
    requires |args| == |params| && fuel > 0
    requires BindArgs(params, args, ChildOf(s), fuel).Ok?
    ensures EvalExpr(CallExpr(name, args), s, fuel) == Ok(NULL)
  {
    CallStep(name, Function(params, []), args, s, fuel);
    CallExpression(name, args, s, fuel);
    var child := BindArgs(params, args, ChildOf(s), fuel).value;
    assert EvalBlock([], child, NULL, fuel - 1) == Ok(Evaluated(NULL, child));
  }

  /**
   * Because arguments are evaluated in the call's own scope, a later
   * argument can read an earlier parameter: with `f = { [x y] y }`, the call
   * `f 1 x` is worth 1 even where `x` is not defined.
   */
  lemma LaterArgumentSeesEarlierParameter(f: Identifier, x: Identifier, y: Identifier, p: Primitive, s: Scope, fuel: nat)
    requires fuel > 0
    requires Get(s, f) == Some(Func(Function([x, y], [ExprStmt(IdentifierExpr(y))])))
    ensures EvalExpr(CallExpr(f, [PrimitiveExpr(p), IdentifierExpr(x)]), s, fuel) == Ok(Prim(p))
  {
    var v := Prim(p);
    var args := [PrimitiveExpr(p), IdentifierExpr(x)];
    var body := [ExprStmt(IdentifierExpr(y))];
    var c2 := Set(Set(ChildOf(s), x, v), y, v);
    BindEarlierParameter(x, y, p, ChildOf(s), fuel);
    CallStep(f, Function([x, y], body), args, s, fuel);
    assert Get(c2, y) == Some(v);
    ReadOnly(y, v, c2, fuel - 1);
    CallExpression(f, args, s, fuel);
  }

  /** Binding a literal to `x` and then `x` to `y` reads `x` back from the scope being built. */
  lemma BindEarlierParameter(x: Identifier, y: Identifier, p: Primitive, c0: Scope, fuel: nat)
    ensures BindArgs([x, y], [PrimitiveExpr(p), IdentifierExpr(x)], c0, fuel)
      == Ok(Set(Set(c0, x, Prim(p)), y, Prim(p)))
  {
    var v := Prim(p);
    var params := [x, y];
    var args := [PrimitiveExpr(p), IdentifierExpr(x)];
    var c1 := Set(c0, x, v);
    assert Get(c1, x) == Some(v);
    assert params[1..] == [y] && args[1..] == [IdentifierExpr(x)];
    assert BindArgs(params[1..], args[1..], c1, fuel) == Ok(Set(c1, y, v)) by {
      assert params[1..][1..] == [] && args[1..][1..] == [];
      assert EvalExpr(IdentifierExpr(x), c1, fuel) == Ok(v);
    }
  }

  /** A body that only reads a bound name is worth that name's value. */
  lemma ReadOnly(y: Identifier, v: Value, c: Scope, fuel: nat)
    requires Get(c, y) == Some(v)
    ensures EvalBlock([ExprStmt(IdentifierExpr(y))], c, NULL, fuel) == Ok(Evaluated(v, c))
  {
    var body := [ExprStmt(IdentifierExpr(y))];
    assert body[1..] == [];
    assert EvalStatement(body[0], c, fuel) == Ok(Evaluated(v, c));
  }

  /** A call without arguments runs the body in an empty scope enclosing the caller's, one level deeper. */
  lemma CallWithoutArguments(name: Identifier, body: seq<Statement>, s: Scope, fuel: nat)
    requires Get(s, name) == Some(Func(Function([], body)))
    ensures fuel == 0 ==> EvalExpr(CallExpr(name, []), s, fuel) == Abort(OutOfFuel)
    ensures fuel > 0 ==>
      var r := EvalBlock(body, ChildOf(s), NULL, fuel - 1);
      EvalExpr(CallExpr(name, []), s, fuel) == if r.Ok? then Ok(r.value.value) else Propagated(r)
  {
    CallExpression(name, [], s, fuel);
    assert BindArgs([], [], ChildOf(s), fuel) == Ok(ChildOf(s));
  }

  /**
   * A parameterless function whose body is only a call to itself never
   * returns: every depth bound is exhausted (the program's stack overflows).
   */
  lemma {:induction false} SelfCallExhaustsFuel(name: Identifier, s: Scope, fuel: nat)
    requires Get(s, name) == Some(Func(Function([], [ExprStmt(CallExpr(name, []))])))
    ensures EvalExpr(CallExpr(name, []), s, fuel) == Abort(OutOfFuel)
    decreases fuel
  {
    var body := [ExprStmt(CallExpr(name, []))];
    CallWithoutArguments(name, body, s, fuel);
    if fuel > 0 {
      var child := ChildOf(s);
      assert Get(child, name) == Get(s, name);
      SelfCallExhaustsFuel(name, child, fuel - 1);
      ExpressionStatement(CallExpr(name, []), child, fuel - 1);
      assert EvalStatement(body[0], child, fuel - 1) == Abort(OutOfFuel);
      assert EvalBlock(body, child, NULL, fuel - 1) == Abort(OutOfFuel);
    }
  }

  // ---------------------------------------------------------------------------
  // Fuel

  /*
   * The program has no depth bound: `fuel` only cuts a run short. Each lemma
   * below says that a result other than `OutOfFuel` stays the same under any
   * larger bound, so it is the result the unbounded program computes.
   */

  lemma {:induction false} ExprFuel(e: Expression, s: Scope, f: nat, g: nat)
    requires f <= g
    ensures EvalExpr(e, s, f) != Abort(OutOfFuel) ==> EvalExpr(e, s, g) == EvalExpr(e, s, f)
    decreases f, ExprSize(e), 0
  {
    match e
    case OperatorExpr(k, args) => OperatorFuel(k, args, s, f, g);
    case CallExpr(name, args) => CallFuel(name, args, s, f, g);
    case _ =>
  }

  lemma {:induction false} OperandsFuel(args: seq<Expression>, s: Scope, f: nat, g: nat)
    requires f <= g
    ensures EvalOperands(args, s, f) != Abort(OutOfFuel) ==> EvalOperands(args, s, g) == EvalOperands(args, s, f)
    decreases f, ExprsSize(args), 1
  {
    if |args| > 0 {
      ExprFuel(args[0], s, f, g);
      var v := EvalExpr(args[0], s, f);
      if v.Ok? && v.value.Prim? {
        OperandsFuel(args[1..], s, f, g);
      }
    }
  }

  lemma {:induction false} OperatorFuel(k: OperatorKind, args: seq<Expression>, s: Scope, f: nat, g: nat)
    requires f <= g
    ensures EvalOperator(k, args, s, f) != Abort(OutOfFuel) ==> EvalOperator(k, args, s, g) == EvalOperator(k, args, s, f)
    decreases f, ExprsSize(args), 2
  {
    if k == Inverse {
      if |args| == 1 {
        ExprFuel(args[0], s, f, g);
      }
    } else if |args| >= 2 {
      OperandsFuel(args, s, f, g);
    }
  }

  lemma {:induction false} BindFuel(params: seq<Identifier>, args: seq<Expression>, child: Scope, f: nat, g: nat)
    requires |params| == |args| && f <= g
    ensures BindArgs(params, args, child, f) != Abort(OutOfFuel) ==> BindArgs(params, args, child, g) == BindArgs(params, args, child, f)
    decreases f, ExprsSize(args), 1
  {
    if |args| > 0 {
      ExprFuel(args[0], child, f, g);
      var v := EvalExpr(args[0], child, f);
      if v.Ok? {
        BindFuel(params[1..], args[1..], Set(child, params[0], v.value), f, g);
      }
    }
  }

  lemma {:induction false} CallFuel(name: Identifier, args: seq<Expression>, s: Scope, f: nat, g: nat)
    requires f <= g
    ensures EvalCall(name, args, s, f) != Abort(OutOfFuel) ==> EvalCall(name, args, s, g) == EvalCall(name, args, s, f)
    decreases f, ExprsSize(args), 3
  {
    match Get(s, name)
    case Some(Func(fn)) =>
      if |args| == |fn.params| {
        BindFuel(fn.params, args, ChildOf(s), f, g);
        CallStep(name, fn, args, s, f);
        CallStep(name, fn, args, s, g);
        var bound := BindArgs(fn.params, args, ChildOf(s), f);
        if bound.Ok? && f > 0 {
          BodyFuel(fn, bound.value, f, g);
        }
      }
    case _ =>
  }

  /** A body run with one fuel less on either side: what the call returns does not change once it settles. */
  lemma {:induction false} BodyFuel(fn: Function, child: Scope, f: nat, g: nat)
    requires 0 < f <= g
    ensures var rf := Returned(EvalBlock(fn.body, child, NULL, f - 1));
      rf != Abort(OutOfFuel) ==> Returned(EvalBlock(fn.body, child, NULL, g - 1)) == rf
    decreases f, 0, 0
  {
    BlockFuel(fn.body, child, NULL, f - 1, g - 1);
  }

  lemma {:induction false} StatementFuel(st: Statement, s: Scope, f: nat, g: nat)
    requires f <= g
    ensures EvalStatement(st, s, f) != Abort(OutOfFuel) ==> EvalStatement(st, s, g) == EvalStatement(st, s, f)
    decreases f, StmtSize(st), 2
  {
    match st
    case AssignStmt(_, e) => ExprFuel(e, s, f, g);
    case ExprStmt(e) => ExprFuel(e, s, f, g);
    case IfStmt(_, _, _) =>
  }

  lemma {:induction false} BlockFuel(stmts: seq<Statement>, s: Scope, last: Value, f: nat, g: nat)
    requires f <= g
    ensures EvalBlock(stmts, s, last, f) != Abort(OutOfFuel) ==> EvalBlock(stmts, s, last, g) == EvalBlock(stmts, s, last, f)
    decreases f, StmtsSize(stmts), 3
  {
    if |stmts| > 0 {
      StatementFuel(stmts[0], s, f, g);
      var ev := EvalStatement(stmts[0], s, f);
      if ev.Ok? {
        BlockFuel(stmts[1..], ev.value.scope, ev.value.value, f, g);
      }
    }
  }

  /** A program's outcome under any bound that does not run out is its outcome under every larger one. */
  lemma FuelMonotone(p: Program, f: nat, g: nat)
    requires f <= g
    ensures EvalProgram(p, f) != Abort(OutOfFuel) ==> EvalProgram(p, g) == EvalProgram(p, f)
  {
    BlockFuel(p.statements, NewScope(), NULL, f, g);
  }
}
