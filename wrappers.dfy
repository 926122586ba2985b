/** Option, Result and Outcome: the C# `null`, exceptions and `Try...` patterns as values. */
module Wrappers {

  datatype Option<+T> = None | Some(value: T)

  datatype Result<+R, +E> = Success(value: R) | Failure(error: E)

  datatype Outcome<+E> = Pass | Fail(error: E)
}

/** The exceptions the core throws, with the parameter name and value they carry. */
module Errors {

  datatype SetupError =
    /** `InvalidOperationException` (a version defined twice). */
    | InvalidOperation(message: string)
    /** `ArgumentException` with its `ParamName`. */
    | InvalidArgument(paramName: string, message: string)
    /** `ArgumentOutOfRangeException` with its `ParamName` and `ActualValue`. */
    | ArgumentOutOfRange(paramName: string, actualValue: int)

  datatype TransformError =
    /** `InvalidOperationException` thrown by `SingleOrDefault` on more than one match. */
    | MoreThanOneElement
    /** `ArgumentException` thrown by `ToDictionary` on a repeated key. */
    | DuplicateKey(key: string)
}
