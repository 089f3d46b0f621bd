/** Failure-carrying result types shared by every module of the model.
    The Python sources signal failure by raising; each raise, failed
    `assert` or Python-level exception becomes an `Err` carrying an
    `Error` value that names the kind of failure. */
module Wrappers {

  datatype Option<+T> = None | Some(value: T)

  /** The kinds of exception the modelled code can raise. */
  datatype Error =
    | AssertionError(message: string)          // a failed `assert`
    | LineError(message: string, line: nat)    // a failed `assert` whose message names an input line
    | IndexError                               // a list or array index out of range
    | ValueError                               // int()/float()/chr()/unpacking of a bad value
    | TypeError                                // an operation on a value of the wrong type
    | ZeroDivisionError
    | BadFormat                                // `raise Error("bad input format")`
    | BadClassLabel                            // common.BadClassLabel
    | RecognitionError(message: string)        // common.RecognitionError
    | UnknownKind                              // `raise Exception("unknown kind: ...")`
    | ClassOutOfRange                          // `raise Exception("class out of range: ...")`
    | KeyError                                 // a lookup of a code the ligature table lacks
    | NameError                                // a local variable read before any assignment

  datatype Result<+T> = Ok(value: T) | Err(error: Error) {
    predicate IsFailure() { Err? }
    function PropagateFailure<U>(): Result<U>
      requires Err?
    {
      Err(error)
    }
    function Extract(): T
      requires Ok?
    {
      value
    }
  }

  /** A result that carries no value: the operation either passes or raises. */
  datatype Outcome = Pass | Fail(error: Error) {
    predicate IsFailure() { Fail? }
    function PropagateFailure(): Outcome
      requires Fail?
    {
      this
    }
  }
}
