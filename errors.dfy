/**
 * The error taxonomy the service throws. The classes themselves live in a
 * file that is not part of this model; only the distinctions the modelled
 * code relies on are kept.
 */
module Errors {

  /** Codes attached to each item of a validation error. */
  datatype ValidationErrorCode =
    | RequiredField
    | IncorrectFormat
    | InvalidAddress
    | ValueOutOfRange
    | UnsupportedOption
    | FieldInvalid

  datatype ValidationErrorItem = ValidationErrorItem(field: string, code: ValidationErrorCode, reason: string)

  /** A revert reason decoded from call data; its content is opaque to the service. */
  datatype RevertError = RevertError(name: string, values: seq<string>)

  /** Every error a modelled operation may throw. */
  datatype Error =
    | ValidationError(items: seq<ValidationErrorItem>)   // 400, carries the offending fields
    | InsufficientFundsError                             // the taker cannot pay for the transaction
    | GasEstimationError                                 // the simulation failed without a reason
    | RevertAPIError(revert: RevertError)                // a revert wrapped for the HTTP layer
    | InternalServerError(message: string)
    | Revert(revert: RevertError)                        // a decoded revert thrown as it is
    | PlainError(message: string)                        // a bare `Error` with a message
    | AssertionError(variableName: string)               // an argument check of the assertion library failed
  {
    /** The errors the HTTP layer already knows how to answer (`isAPIError`). */
    predicate IsAPIError()
    {
      ValidationError? || InsufficientFundsError? || GasEstimationError? || RevertAPIError? || InternalServerError?
    }
  }
}
