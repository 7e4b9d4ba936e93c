/** Option and Result, the two shapes the Kotlin code uses for "maybe absent"
    (a nullable `T?`) and for `kotlin.Result<T>`. */
module Wrappers {

  /** A nullable Kotlin value: `null` is `None`. */
  datatype Option<+T> = None | Some(value: T)

  /** `kotlin.Result`: a success value or the message of the failure's exception. */
  datatype Result<+T> = Success(value: T) | Failure(message: string)
}
