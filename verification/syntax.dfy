/**
 * The syntax tree the parser builds (src/parser/ast.rs). Block statements
 * and arguments are kept in source order.
 */
module Syntax {
  import opened Common
  import opened Numbers

  datatype Identifier = Identifier(value: string)

  /**
   * A literal. A float's `f64` payload is not modelled: floating-point
   * values are carried as a bare tag.
   */
  datatype Primitive =
    | IntLit(n: i64)
    | FloatLit
    | StrLit(s: string)
    | BoolLit(b: bool)
    | NullLit

  datatype OperatorKind = Equals | Add | Subtract | Multiply | Divide | Inverse

  datatype Expression =
    | PrimitiveExpr(prim: Primitive)
    | IdentifierExpr(id: Identifier)
    | OperatorExpr(kind: OperatorKind, args: seq<Expression>)
    | FunctionExpr(fn: Function)
    | CallExpr(name: Identifier, args: seq<Expression>)
    | AndExpr(args: seq<Expression>)
    | OrExpr(args: seq<Expression>)

  /** A function literal: parameter names and body, with no captured environment. */
  datatype Function = Function(params: seq<Identifier>, body: seq<Statement>)

  datatype Statement =
    | AssignStmt(name: Identifier, value: Expression)
    | IfStmt(condition: Expression, consequence: seq<Statement>, alternative: Option<seq<Statement>>)
    | ExprStmt(expr: Expression)

  datatype Program = Program(statements: seq<Statement>)

  /** The `Display` of a primitive: the name of its type. */
  function PrimitiveTypeName(p: Primitive): (s: string)
    ensures |s| > 0
  {
    match p
    case IntLit(_) => "integer"
    case FloatLit => "float"
    case StrLit(_) => "string"
    case BoolLit(_) => "boolean"
    case NullLit => "null"
  }

  /** The `Display` of an operator kind, as quoted by the arity error. */
  function KindName(k: OperatorKind): (s: string)
    ensures |s| > 0
  {
    match k
    case Equals => "equal"
    case Add => "add"
    case Subtract => "subtract"
    case Multiply => "multiply"
    case Divide => "divide"
    case Inverse => "inverse"
  }

  /** Two primitives share a type name exactly when they are of the same kind. */
  lemma PrimitiveTypeNameFaithful(p: Primitive, q: Primitive)
    ensures PrimitiveTypeName(p) == PrimitiveTypeName(q) <==>
      (p.IntLit? && q.IntLit?) || (p.FloatLit? && q.FloatLit?) || (p.StrLit? && q.StrLit?)
      || (p.BoolLit? && q.BoolLit?) || (p.NullLit? && q.NullLit?)
  {
    var a, b := PrimitiveTypeName(p), PrimitiveTypeName(q);
    if a == b {
      assert a[0] == b[0];
      assert a[0] == 'i' ==> p.IntLit?;
    }
  }

  /** Distinct operator kinds have distinct names. */
  lemma KindNameInjective(k: OperatorKind, l: OperatorKind)
    ensures KindName(k) == KindName(l) <==> k == l
  {
    var a, b := KindName(k), KindName(l);
    if a == b {
      assert a[0] == b[0] && |a| == |b|;
    }
  }
}
