/**
 * Shared vocabulary: optional values, and the three ways a step of the
 * pipeline can end — with a value, with the interpreter's own error message
 * (the `Error` string wrapper of the program), or with a Rust panic.
 */
module Common {

  datatype Option<+T> = None | Some(value: T)

  /** The reasons the program stops by panicking instead of returning an `Error`. */
  datatype Panic =
    | Overflow          // i64 arithmetic overflow (debug build semantics)
    | DivideByZero      // i64 division by zero
    | Unimplemented     // a `todo!()` arm
    | Unreachable       // an `unreachable!()` arm
    | NoEvaluationRule  // an AST node the evaluator has no arm for
    | IndexOutOfBounds  // indexing the token vector past its end
    | OutOfFuel         // the model's evaluation-depth bound (the program's stack) was exhausted

  /** Result of an evaluation step: a value, an error message, or a panic. */
  datatype Outcome<+T> = Ok(value: T) | Err(msg: string) | Abort(panic: Panic) {

    predicate IsFailure() {
      !Ok?
    }

    function PropagateFailure<U>(): Outcome<U>
      requires !Ok?
    {
      if Err? then Err(msg) else Abort(panic)
    }

    function Extract(): T
      requires Ok?
    {
      value
    }
  }

  function Last<T>(s: seq<T>): T
    requires |s| > 0
  {
    s[|s| - 1]
  }
}
