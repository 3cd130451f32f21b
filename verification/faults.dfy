/** Fault kinds of the compile-and-run pipeline and the result type that carries them.

    Every fault here is a `panic!` or an `unwrap` of `None` in the Rust source;
    the model makes each one an explicit, inspectable value instead. */
module Faults {

  datatype Fault =
    | UnboundVariable(name: string)   // compile time: a variable with no enclosing binder
    | TypeMismatch                    // an operator or a branch met the wrong kind of value
    | NotCallable                     // APPLY on a value that is not a closure
    | EnvIndexOutOfRange              // ACCESS(i) with i at or past the end of the environment
    | BadContinuation                 // RETURN found no closure under the result
    | EmptyStack                      // a pop from an empty operand stack
    | DivisionByZero                  // DIV with a zero right operand
    | ArithmeticOverflow              // a 32-bit signed result out of range
    | OutOfFuel                       // the step budget ran out before the code did
  {
    /** Faults the machine itself can raise while executing one instruction. */
    predicate IsRuntime() {
      !UnboundVariable? && !OutOfFuel?
    }

    /** Faults only malformed code can cause: no source program has a
        meaning that produces them. */
    predicate IsMachineOnly() {
      EnvIndexOutOfRange? || BadContinuation? || EmptyStack?
    }
  }

  /** Success with a value, or failure with a fault; usable with `:-`. */
  datatype Result<+T> = Ok(value: T) | Err(error: Fault) {

    predicate IsFailure() {
      Err?
    }

    function PropagateFailure<U>(): Result<U>
      requires Err?
    {
      Err(error)
    }

    function Extract(): T
      requires Ok?
    {
      value
    }
  }
}
