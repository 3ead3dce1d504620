/** The error codes the pipeline reports, and results that carry one. */
module Errors {
  datatype Error =
    | GeneralError          // ASSEMBLER_ERR
    | UnknownPseudo
    | InvalidRegister
    | InvalidImmediate
    | ParseError
    | UnknownInstruction
    | SymbolNotFound

  datatype Result<+T> = Ok(value: T) | Err(error: Error) {
    predicate IsFailure() {
      Err?
    }

    function PropagateFailure<U>(): Result<U>
      requires Err?
    {
      Err(error)
    }

    function Extract(): T
      requires Ok?
    {
      value
    }
  }
}
