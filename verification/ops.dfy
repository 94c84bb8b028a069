/**
 * The arithmetic of operators on evaluated operands (src/eval/ops.rs,
 * `eval_operator_add` to `eval_operator_divide`).
 *
 * The first operand's type decides the operation and every later operand
 * must have the same type. Integers are Rust `i64`s: an overflow, and a
 * division by zero, panic. Floating-point values are a bare tag, so a
 * float operation yields the float tag.
 */
module Ops {
  import opened Common
  import opened Numbers
  import opened Syntax
  import opened Values

  /** The four operations this module evaluates; `Equals` and `Inverse` are handled by the caller. */
  predicate IsArithmetic(k: OperatorKind) {
    k == Add || k == Subtract || k == Multiply || k == Divide
  }

  predicate SameType(a: Primitive, b: Primitive) {
    PrimitiveTypeName(a) == PrimitiveTypeName(b)
  }

  /** "cannot add type integer with type string", naming a later operand of another type. */
  function MismatchMessage(k: OperatorKind, first: Primitive, arg: Primitive): string {
    "cannot " + KindName(k) + " type " + PrimitiveTypeName(first) + " with type " + PrimitiveTypeName(arg)
  }

  /** "cannot add type boolean", for a first operand the operation has no rule for. */
  function UnsupportedMessage(k: OperatorKind, first: Primitive): string {
    "cannot " + KindName(k) + " type " + PrimitiveTypeName(first)
  }

  /** The first operand, in order, whose type differs from `first`'s. */
  function Mismatch(first: Primitive, rest: seq<Primitive>): (r: Option<Primitive>)
    ensures r.None? <==> forall i :: 0 <= i < |rest| ==> SameType(rest[i], first)
    ensures r.Some? ==> r.value in rest && !SameType(r.value, first)
    ensures r.Some? ==>
      exists j :: 0 <= j < |rest| && rest[j] == r.value && forall i :: 0 <= i < j ==> SameType(rest[i], first)
    decreases |rest|
  {
    if |rest| == 0 then None
    else if !SameType(rest[0], first) then Some(rest[0])
    else
      var r := Mismatch(first, rest[1..]);
      assert forall i :: 1 <= i < |rest| ==> rest[i] == rest[1..][i - 1];
      r
  }

  // ---------------------------------------------------------------------------
  // Reference arithmetic over unbounded integers

  function Sum(xs: seq<int>): int
    decreases |xs|
  {
    if |xs| == 0 then 0 else xs[0] + Sum(xs[1..])
  }

  /** The sum of the magnitudes: a bound on every partial sum. */
  function SumAbs(xs: seq<int>): nat
    decreases |xs|
  {
    if |xs| == 0 then 0 else Abs(xs[0]) + SumAbs(xs[1..])
  }

  function Product(xs: seq<int>): int
    decreases |xs|
  {
    if |xs| == 0 then 1 else xs[0] * Product(xs[1..])
  }

  predicate NoZero(xs: seq<int>) {
    forall i :: 0 <= i < |xs| ==> xs[i] != 0
  }

  /** Repeated truncating division, left to right. */
  function Quotient(acc: int, xs: seq<int>): int
    requires NoZero(xs)
    decreases |xs|
  {
    if |xs| == 0 then acc else Quotient(TruncDiv(acc, xs[0]), xs[1..])
  }

  /** The integers of a list of integer literals. */
  function Ints(ps: seq<Primitive>): (xs: seq<int>)
    requires forall i :: 0 <= i < |ps| ==> ps[i].IntLit?
    ensures |xs| == |ps| && forall i :: 0 <= i < |ps| ==> xs[i] == ps[i].n as int
    decreases |ps|
  {
    if |ps| == 0 then [] else [ps[0].n as int] + Ints(ps[1..])
  }

  // ---------------------------------------------------------------------------
  // `+`

  /**
   * `Iterator::sum` over `i64`: adds left to right starting from `acc`,
   * panicking at the first partial sum outside the `i64` range.
   */
  function CheckedSum(acc: int, xs: seq<int>): (r: Outcome<i64>)
    ensures !r.Err?
    ensures r.Abort? ==> r.panic == Overflow
    decreases |xs|
  {
    if |xs| == 0 then Checked(acc)
    else if !InI64(acc + xs[0]) then Abort(Overflow)
    else CheckedSum(acc + xs[0], xs[1..])
  }

  /** String operands joined in order. */
  function Concat(ps: seq<Primitive>): (s: string)
    requires forall i :: 0 <= i < |ps| ==> ps[i].StrLit?
    decreases |ps|
  {
    if |ps| == 0 then "" else ps[0].s + Concat(ps[1..])
  }

  /**
   * `eval_operator_add`. Integers: every operand is checked for its type
   * before anything is summed. Strings: concatenated in order.
   */
  function EvalAdd(values: seq<Primitive>): (r: Outcome<Value>)
    requires |values| > 0
    ensures r.Abort? ==> r.panic == Overflow
  {
    var first := values[0];
    match first
    case IntLit(_) =>
      (match Mismatch(first, values[1..])
       case Some(arg) => Err(MismatchMessage(Add, first, arg))
       case None =>
         assert forall i :: 0 <= i < |values| ==> values[i].IntLit? by {
           assert forall i :: 1 <= i < |values| ==> values[i] == values[1..][i - 1];
         }
         var n :- CheckedSum(0, Ints(values));
         Ok(Prim(IntLit(n))))
    case FloatLit =>
      (match Mismatch(first, values[1..])
       case Some(arg) => Err(MismatchMessage(Add, first, arg))
       case None => Ok(Prim(FloatLit)))
    case StrLit(_) =>
      (match Mismatch(first, values[1..])
       case Some(arg) => Err(MismatchMessage(Add, first, arg))
       case None =>
         assert forall i :: 0 <= i < |values| ==> values[i].StrLit? by {
           assert forall i :: 1 <= i < |values| ==> values[i] == values[1..][i - 1];
         }
         Ok(Prim(StrLit(Concat(values)))))
    case _ => Err(UnsupportedMessage(Add, first))
  }

  // ---------------------------------------------------------------------------
  // `-`, `*`, `/`: left folds that stop at the first bad operand

  /** An exact integer result as an `i64`, or the overflow panic. */
  function Checked(x: int): (r: Outcome<i64>)
    ensures r.Ok? <==> InI64(x)
    ensures r.Ok? ==> r.value as int == x
    ensures !r.Ok? ==> r == Abort(Overflow)
  {
    if InI64(x) then Ok(x as i64) else Abort(Overflow)
  }

  /** One step of an integer fold: `acc -= v`, `acc *= v` or `acc /= v` on `i64`. */
  function IntStep(k: OperatorKind, acc: i64, v: i64): (r: Outcome<i64>)
    requires k == Subtract || k == Multiply || k == Divide
    ensures !r.Err?
    ensures r.Abort? ==> r.panic == Overflow || (r.panic == DivideByZero && k == Divide && v == 0)
  {
    if k == Subtract then Checked(acc as int - v as int)
    else if k == Multiply then Checked(acc as int * v as int)
    else if v == 0 then Abort(DivideByZero)
    else Checked(TruncDiv(acc as int, v as int))
  }

  /**
   * The integer loop of `eval_operator_subtract`, `_multiply` and `_divide`:
   * each operand is checked and applied in turn, so a panic at one operand
   * comes before a type error at a later one.
   */
  function IntFold(k: OperatorKind, acc: i64, rest: seq<Primitive>): (r: Outcome<Value>)
    requires k == Subtract || k == Multiply || k == Divide
    ensures r.Ok? ==> r.value.Prim? && r.value.prim.IntLit?
    ensures r.Abort? ==> r.panic == Overflow || (r.panic == DivideByZero && k == Divide)
    decreases |rest|
  {
    if |rest| == 0 then Ok(Prim(IntLit(acc)))
    else
      match rest[0]
      case IntLit(v) =>
        var n :- IntStep(k, acc, v);
        IntFold(k, n, rest[1..])
      case _ => Err(MismatchMessage(k, IntLit(acc), rest[0]))
  }

  /** `eval_operator_subtract`, `eval_operator_multiply` and `eval_operator_divide`. */
  function EvalFold(k: OperatorKind, values: seq<Primitive>): (r: Outcome<Value>)
    requires k == Subtract || k == Multiply || k == Divide
    requires |values| > 0
    ensures r.Abort? ==> r.panic == Overflow || (r.panic == DivideByZero && k == Divide)
  {
    var first := values[0];
    match first
    case IntLit(x) => IntFold(k, x, values[1..])
    case FloatLit =>
      (match Mismatch(first, values[1..])
       case Some(arg) => Err(MismatchMessage(k, first, arg))
       case None => Ok(Prim(FloatLit)))
    case _ => Err(UnsupportedMessage(k, first))
  }

  /**
   * The dispatch at the end of `eval_operator`. Arithmetic panics only on
   * overflow, or on a zero divisor of `/`.
   */
  function EvalArithmetic(k: OperatorKind, values: seq<Primitive>): (r: Outcome<Value>)
    requires IsArithmetic(k) && |values| > 0
    ensures r.Abort? ==> r.panic == Overflow || (r.panic == DivideByZero && k == Divide)
  {
    if k == Add then EvalAdd(values) else EvalFold(k, values)
  }
}
