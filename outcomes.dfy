/** Failures of the staged extraction calculation and the result type that carries them. */
module Outcomes {

  /** Every way the calculation can stop. */
  datatype Failure =
    | SolventNotNormalised      // the solvent's A + B + C is not 1 within 1e-3 (the validation assertion)
    | DivisionByZero            // a zero denominator in a ratio or a mass balance
    | SignMismatch              // the root finder was given an interval whose ends have the same sign
    | NotConverged              // the root finder used up its iteration budget
    | RootNotFound(a: real, b: real)  // the tie-line search found no root between a and b

  datatype Result<+T> = Ok(value: T) | Err(error: Failure)
}
