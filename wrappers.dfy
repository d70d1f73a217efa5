/** Option and Result values, and the failures the modelled code can end in. */
module Wrappers {

  datatype Option<+T> = None | Some(value: T)

  /** How an operation of the modelled code fails.
      Err is a Go error value carrying its message; Panic stands for a Go run-time panic
      (an index or slice out of range) that file content reached at run time provokes:
      the goroutine stops there and nothing after it runs. */
  datatype Fault = Err(msg: string) | Panic(site: string)

  datatype Result<+T> = Success(value: T) | Failure(error: Fault)
}
