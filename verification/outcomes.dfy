/** Failure-carrying results. Each `Error` constructor stands for one way the
    Python service raises instead of returning. */
module Outcomes {
  import opened Enums

  datatype Option<+T> = None | Some(value: T)

  datatype Error =
    | DivisionByZero                              // ZeroDivisionError from a float division
    | FieldOutOfRange(field: string)              // a declared field constraint is violated
    | DownPaymentNotLessThanPrice                 // the mortgage model validator
    | UnknownComparisonType(kind: ComparisonType) // the strategy factory has no entry
    | ScenarioShapeMismatch                       // a scenario's data is not the declared product
    | IncomparableKeys                            // min/max compares None with a number
    | EmptySequence                               // min/max or [0] on an empty result list

  datatype Result<+T> = Ok(value: T) | Err(error: Error)
}
